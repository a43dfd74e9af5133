/** SCAN (`Cache.Scan`, `Shard.Scan`): pages of keys, and a cursor that encodes a shard
    number and an offset.  One call sees the unexpired keys of each shard in some order.
    `Iterate` is what a client receives when every call sees the same order,
    `IterateShuffled` when every call sees an order of its own, as ranging over a Go map
    gives.  No key comes or goes between the calls. */
module Scan {
  import opened Bytes
  import opened Pattern

  const STRIDE: nat := 10000

  /** The keys one shard contributes: matching keys from `offset` on, at most `limit`. */
  function Page(keys: seq<bytes>, offset: nat, pattern: bytes, limit: int): (r: seq<bytes>)
    ensures |r| == 0 || |r| <= limit
    ensures |r| > 0 ==> offset + |r| <= |keys|
    decreases |keys| - offset
  {
    if offset >= |keys| || limit <= 0 then []
    else if MatchPattern(keys[offset], pattern) then
      [keys[offset]] + Page(keys, offset + 1, pattern, limit - 1)
    else Page(keys, offset + 1, pattern, limit)
  }

  datatype Reply = Reply(keys: seq<bytes>, cursor: int)

  /** The loop of `Cache.Scan` from shard `i` on.  The next offset counts the keys that
      were returned, not the keys that were looked at. */
  function ScanFrom(shards: seq<seq<bytes>>, i: nat, offset: nat, pattern: bytes, count: int): Reply
    decreases |shards| - i
  {
    if i >= |shards| then Reply([], 0)
    else
      var page := Page(shards[i], offset, pattern, count);
      if |page| >= count then Reply(page, i * STRIDE + (offset + |page|))
      else
        var more := ScanFrom(shards, i + 1, 0, pattern, count - |page|);
        Reply(page + more.keys, more.cursor)
  }

  function ScanAt(shards: seq<seq<bytes>>, cursor: nat, pattern: bytes, count: int): Reply {
    ScanFrom(shards, cursor / STRIDE, cursor % STRIDE, pattern, count)
  }

  // ---------- Any cursor ----------

  /** An index panic ends the process. */
  datatype Outcome = Panic | Answer(reply: Reply)

  /** Go's division and remainder, which round towards zero. */
  function Quot(n: int, d: nat): int
    requires d > 0
  {
    if n >= 0 then n / d else -(-n / d)
  }

  function Rem(n: int, d: nat): int
    requires d > 0
  {
    n - Quot(n, d) * d
  }

  /** A client may send a negative cursor: it panics as soon as a shard or a key is looked
      up with it, and comes straight back when nothing is. */
  function ScanAny(shards: seq<seq<bytes>>, cursor: int, pattern: bytes, count: int): Outcome {
    if cursor >= 0 then Answer(ScanAt(shards, cursor, pattern, count))
    else if cursor + STRIDE <= 0 then Panic
    else if shards == [] then Answer(Reply([], 0))
    else if count <= 0 then Answer(Reply([], cursor))
    else Panic
  }

  // ---------- The loops ----------

  /** The loop of `Shard.Scan`. */
  method ScanShard(allKeys: seq<bytes>, offset: int, pattern: bytes, limit: int) returns (r: ShardReply)
    ensures IsShardReply(r, allKeys, offset, pattern, limit)
  {
    var keys: seq<bytes> := [];
    var matched := 0;
    var i := offset;
    while i < |allKeys| && matched < limit
      invariant matched == |keys|
      invariant offset < 0 ==> i == offset && matched == 0
      invariant offset >= 0 ==>
                  i >= 0
                  && Page(allKeys, offset, pattern, limit) == keys + Page(allKeys, i, pattern, limit - matched)
    {
      if i < 0 {
        return ShardReply(true, [], 0);
      }
      var key := allKeys[i];
      if MatchPattern(key, pattern) {
        assert keys + ([key] + Page(allKeys, i + 1, pattern, limit - matched - 1))
               == keys + [key] + Page(allKeys, i + 1, pattern, limit - matched - 1);
        keys := keys + [key];
        matched := matched + 1;
      }
      i := i + 1;
    }
    r := ShardReply(false, keys, offset + |keys|);
  }

  function Before(keys: seq<bytes>, r: Reply): Reply {
    Reply(keys + r.keys, r.cursor)
  }

  /** One turn of the loop over the shards. */
  lemma ShardStep(shards: seq<seq<bytes>>, i: nat, offset: nat, pattern: bytes, limit: int, keys: seq<bytes>)
    requires i < |shards|
    ensures var page := Page(shards[i], offset, pattern, limit);
            Before(keys, ScanFrom(shards, i, offset, pattern, limit))
            == if |page| >= limit then Reply(keys + page, i * STRIDE + (offset + |page|))
               else Before(keys + page, ScanFrom(shards, i + 1, 0, pattern, limit - |page|))
  {
    var page := Page(shards[i], offset, pattern, limit);
    var more := ScanFrom(shards, i + 1, 0, pattern, limit - |page|);
    assert keys + (page + more.keys) == keys + page + more.keys;
  }

  lemma CursorParts(cursor: int)
    ensures var q, m := Quot(cursor, STRIDE), Rem(cursor, STRIDE);
            && (cursor >= 0 ==> q == cursor / STRIDE && m == cursor % STRIDE)
            && (cursor + STRIDE <= 0 ==> q < 0)
            && (0 < cursor + STRIDE < STRIDE ==> q == 0 && m == cursor)
  {
  }

  /** What one shard returns to `Cache.Scan`. */
  datatype ShardReply = ShardReply(panicked: bool, keys: seq<bytes>, nextOffset: int)

  ghost predicate IsShardReply(r: ShardReply, order: seq<bytes>, offset: int, pattern: bytes, limit: int) {
    && (r.panicked <==> offset < 0 < limit)
    && (!r.panicked ==>
          && r.keys == (if offset >= 0 then Page(order, offset, pattern, limit) else [])
          && r.nextOffset == offset + |r.keys|)
  }

  /** Whatever the shards behind `seen` will show, the call comes to `keys` and then what
      those shards give from `offset` on. */
  ghost predicate Promised(seen: seq<seq<bytes>>, cursor: nat, pattern: bytes, count: int,
                           keys: seq<bytes>, offset: nat) {
    forall all: seq<seq<bytes>> | seen <= all ::
      ScanAt(all, cursor, pattern, count) == Before(keys, ScanFrom(all, |seen|, offset, pattern, count - |keys|))
  }

  /** The loop of `Cache.Scan` at shard `i`, the shards before it having shown their keys in
      the orders `seen`. */
  ghost predicate ScannedSoFar(seen: seq<seq<bytes>>, cursor: int, pattern: bytes, count: int,
                               keys: seq<bytes>, i: int, offset: int) {
    if cursor >= 0 then i == |seen| && offset >= 0 && Promised(seen, cursor, pattern, count, keys, offset)
    else keys == [] && seen == [] && (if cursor + STRIDE <= 0 then i < 0 else i == 0 && offset == cursor)
  }

  lemma NothingScanned(seen: seq<seq<bytes>>, cursor: int, pattern: bytes, count: int)
    requires |seen| == if cursor < 0 then 0 else cursor / STRIDE
    ensures ScannedSoFar(seen, cursor, pattern, count, [], Quot(cursor, STRIDE), Rem(cursor, STRIDE))
  {
    CursorParts(cursor);
    if cursor >= 0 {
      forall all: seq<seq<bytes>> | seen <= all
        ensures ScanAt(all, cursor, pattern, count)
                == Before([], ScanFrom(all, |seen|, cursor % STRIDE, pattern, count - 0))
      {
        var r := ScanAt(all, cursor, pattern, count);
        assert [] + r.keys == r.keys;
      }
    }
  }

  /** What a call comes to that has got to a shard with `limit` keys to go. */
  lemma ThisShardMore(all: seq<seq<bytes>>, whole: Reply, i: nat, pattern: bytes, limit: int,
                      keys: seq<bytes>, offset: nat)
    requires i < |all| && whole == Before(keys, ScanFrom(all, i, offset, pattern, limit))
    ensures var page := Page(all[i], offset, pattern, limit);
            whole == if |page| >= limit then Reply(keys + page, i * STRIDE + (offset + |page|))
                     else Before(keys + page, ScanFrom(all, i + 1, 0, pattern, limit - |page|))
  {
    ShardStep(all, i, offset, pattern, limit, keys);
  }

  /** One turn for one choice of the later shards. */
  lemma ShardInTurn(all: seq<seq<bytes>>, seen: seq<seq<bytes>>, order: seq<bytes>, cursor: nat, pattern: bytes,
                    count: int, keys: seq<bytes>, offset: nat)
    requires Promised(seen, cursor, pattern, count, keys, offset) && seen + [order] <= all
    ensures var limit := count - |keys|;
            var page := Page(order, offset, pattern, limit);
            ScanAt(all, cursor, pattern, count)
            == if |page| >= limit then Reply(keys + page, |seen| * STRIDE + (offset + |page|))
               else Before(keys + page, ScanFrom(all, |seen| + 1, 0, pattern, limit - |page|))
  {
    assert seen <= all && all[|seen|] == (seen + [order])[|seen|] == order;
    ThisShardMore(all, ScanAt(all, cursor, pattern, count), |seen|, pattern, count - |keys|, keys, offset);
  }

  lemma FullShard(seen: seq<seq<bytes>>, order: seq<bytes>, cursor: nat, pattern: bytes, count: int,
                  keys: seq<bytes>, offset: nat, page: seq<bytes>)
    requires Promised(seen, cursor, pattern, count, keys, offset)
    requires page == Page(order, offset, pattern, count - |keys|) && |page| >= count - |keys|
    ensures forall all: seq<seq<bytes>> | seen + [order] <= all ::
              ScanAt(all, cursor, pattern, count) == Reply(keys + page, |seen| * STRIDE + (offset + |page|))
  {
    forall all: seq<seq<bytes>> | seen + [order] <= all
      ensures ScanAt(all, cursor, pattern, count) == Reply(keys + page, |seen| * STRIDE + (offset + |page|))
    {
      ShardInTurn(all, seen, order, cursor, pattern, count, keys, offset);
    }
  }

  lemma ShortShard(seen: seq<seq<bytes>>, order: seq<bytes>, cursor: nat, pattern: bytes, count: int,
                   keys: seq<bytes>, offset: nat, page: seq<bytes>)
    requires Promised(seen, cursor, pattern, count, keys, offset)
    requires page == Page(order, offset, pattern, count - |keys|) && |page| < count - |keys|
    ensures Promised(seen + [order], cursor, pattern, count, keys + page, 0)
  {
    var longer, more := seen + [order], keys + page;
    forall all: seq<seq<bytes>> | longer <= all
      ensures ScanAt(all, cursor, pattern, count)
              == Before(more, ScanFrom(all, |longer|, 0, pattern, count - |more|))
    {
      ShardInTurn(all, seen, order, cursor, pattern, count, keys, offset);
    }
  }

  /** One turn of the loop: it panics, or the page is full, or it goes on. */
  lemma ShardScanned(seen: seq<seq<bytes>>, cursor: int, pattern: bytes, count: int, keys: seq<bytes>, i: nat,
                     offset: int, order: seq<bytes>, r: ShardReply)
    requires ScannedSoFar(seen, cursor, pattern, count, keys, i, offset)
    requires IsShardReply(r, order, offset, pattern, count - |keys|)
    ensures if r.panicked then
              forall all: seq<seq<bytes>> | seen + [order] <= all :: ScanAny(all, cursor, pattern, count) == Panic
            else if |keys + r.keys| >= count then
              forall all: seq<seq<bytes>> | seen + [order] <= all ::
                ScanAny(all, cursor, pattern, count) == Answer(Reply(keys + r.keys, i * STRIDE + r.nextOffset))
            else
              ScannedSoFar(seen + [order], cursor, pattern, count, keys + r.keys, i + 1, 0)
  {
    if cursor >= 0 {
      if |r.keys| >= count - |keys| {
        FullShard(seen, order, cursor, pattern, count, keys, offset, r.keys);
      } else {
        ShortShard(seen, order, cursor, pattern, count, keys, offset, r.keys);
      }
    }
  }

  /** The loop has run out of shards. */
  lemma AllScanned(all: seq<seq<bytes>>, cursor: int, pattern: bytes, count: int, keys: seq<bytes>, offset: int)
    requires all != [] && ScannedSoFar(all, cursor, pattern, count, keys, |all|, offset)
    ensures ScanAny(all, cursor, pattern, count) == Answer(Reply(keys, 0))
  {
    assert keys + [] == keys;
  }

  // ---------- Cursors ----------

  function TotalKeys(shards: seq<seq<bytes>>): nat {
    if shards == [] then 0 else |shards[0]| + TotalKeys(shards[1..])
  }

  lemma {:induction false} TotalKeysBound(shards: seq<seq<bytes>>, i: nat)
    requires i < |shards|
    ensures |shards[i]| <= TotalKeys(shards)
  {
    if i > 0 {
      TotalKeysBound(shards[1..], i - 1);
    }
  }

  /** No cursor is larger. */
  function MaxCursor(shards: seq<seq<bytes>>): nat {
    |shards| * STRIDE + TotalKeys(shards)
  }

  lemma {:induction false} CursorGrows(shards: seq<seq<bytes>>, i: nat, offset: nat, pattern: bytes, count: int)
    requires count >= 1
    ensures var next := ScanFrom(shards, i, offset, pattern, count).cursor;
            next == 0 || i * STRIDE + offset < next <= MaxCursor(shards)
                      || (i + 1) * STRIDE < next <= MaxCursor(shards)
    decreases |shards| - i
  {
    if i < |shards| {
      var page := Page(shards[i], offset, pattern, count);
      if |page| < count {
        CursorGrows(shards, i + 1, 0, pattern, count - |page|);
      } else {
        TotalKeysBound(shards, i);
      }
    }
  }

  /** Termination: with COUNT at least 1, every call ends the iteration or moves the cursor
      strictly forward, below a fixed bound. */
  lemma NextCursor(shards: seq<seq<bytes>>, cursor: nat, pattern: bytes, count: int)
    requires count >= 1
    ensures var next := ScanAt(shards, cursor, pattern, count).cursor;
            next == 0 || cursor < next <= MaxCursor(shards)
  {
    CursorGrows(shards, cursor / STRIDE, cursor % STRIDE, pattern, count);
  }

  /** All the keys a client receives that calls SCAN with each returned cursor until 0
      comes back, when the order of the keys stays the same. */
  function Iterate(shards: seq<seq<bytes>>, cursor: nat, pattern: bytes, count: int): seq<bytes>
    requires count >= 1
    decreases if cursor <= MaxCursor(shards) then MaxCursor(shards) - cursor + 1 else MaxCursor(shards) + 2
  {
    var r := ScanAt(shards, cursor, pattern, count);
    NextCursor(shards, cursor, pattern, count);
    if r.cursor == 0 then r.keys else r.keys + Iterate(shards, r.cursor, pattern, count)
  }

  // ---------- What a whole iteration returns ----------

  /** The key at (i, j) has yet to be looked at when the cursor stands at `cursor`. */
  predicate Ahead(cursor: nat, i: nat, j: nat) {
    i > cursor / STRIDE || (i == cursor / STRIDE && j >= cursor % STRIDE)
  }

  predicate FitsStride(shards: seq<seq<bytes>>) {
    forall i | 0 <= i < |shards| :: |shards[i]| <= STRIDE
  }

  /** Every matching key of a shard is on the page, or beyond the next offset. */
  lemma {:induction false} PageIsComplete(keys: seq<bytes>, offset: nat, pattern: bytes, limit: int, j: nat)
    requires offset <= j < |keys| && MatchPattern(keys[j], pattern)
    ensures var page := Page(keys, offset, pattern, limit);
            keys[j] in page || (|page| >= limit && j >= offset + |page|)
    decreases |keys| - offset
  {
    if limit > 0 {
      if MatchPattern(keys[offset], pattern) {
        if j > offset {
          PageIsComplete(keys, offset + 1, pattern, limit - 1, j);
        }
      } else {
        PageIsComplete(keys, offset + 1, pattern, limit, j);
      }
    }
  }

  lemma CursorDecodes(i: nat, offset: nat)
    requires offset <= STRIDE
    ensures var c := i * STRIDE + offset;
            if offset < STRIDE then c / STRIDE == i && c % STRIDE == offset
            else c / STRIDE == i + 1 && c % STRIDE == 0
  {
  }

  lemma {:induction false} ScanFromIsComplete(shards: seq<seq<bytes>>, s: nat, offset: nat, pattern: bytes,
                                              count: int, i: nat, j: nat)
    requires FitsStride(shards) && count >= 1
    requires i < |shards| && j < |shards[i]| && MatchPattern(shards[i][j], pattern)
    requires i > s || (i == s && j >= offset)
    ensures var r := ScanFrom(shards, s, offset, pattern, count);
            shards[i][j] in r.keys || (r.cursor > 0 && Ahead(r.cursor, i, j))
    decreases |shards| - s
  {
    var page := Page(shards[s], offset, pattern, count);
    if i == s {
      PageIsComplete(shards[s], offset, pattern, count, j);
    }
    if |page| >= count {
      CursorDecodes(s, offset + |page|);
    } else if i > s {
      ScanFromIsComplete(shards, s + 1, 0, pattern, count - |page|, i, j);
    }
  }

  /** Completeness: an iteration with COUNT at least 1, every call of which sees the same
      order, returns every matching key ahead of its cursor, if no shard holds more than
      10000 keys. */
  lemma {:induction false} IterateIsComplete(shards: seq<seq<bytes>>, cursor: nat, pattern: bytes, count: int,
                                             i: nat, j: nat)
    requires FitsStride(shards) && count >= 1
    requires i < |shards| && j < |shards[i]| && MatchPattern(shards[i][j], pattern)
    requires Ahead(cursor, i, j)
    ensures shards[i][j] in Iterate(shards, cursor, pattern, count)
    decreases if cursor <= MaxCursor(shards) then MaxCursor(shards) - cursor + 1 else MaxCursor(shards) + 2
  {
    var r := ScanAt(shards, cursor, pattern, count);
    ScanFromIsComplete(shards, cursor / STRIDE, cursor % STRIDE, pattern, count, i, j);
    NextCursor(shards, cursor, pattern, count);
    if shards[i][j] !in r.keys {
      IterateIsComplete(shards, r.cursor, pattern, count, i, j);
    }
  }

  /** Where a returned key comes from. */
  ghost predicate Sourced(shards: seq<seq<bytes>>, pattern: bytes, key: bytes) {
    MatchPattern(key, pattern) && exists i | 0 <= i < |shards| :: key in shards[i]
  }

  lemma {:induction false} PageIsSound(keys: seq<bytes>, offset: nat, pattern: bytes, limit: int)
    ensures forall k | k in Page(keys, offset, pattern, limit) :: MatchPattern(k, pattern) && k in keys
    decreases |keys| - offset
  {
    if offset < |keys| && limit > 0 {
      PageIsSound(keys, offset + 1, pattern, limit);
      PageIsSound(keys, offset + 1, pattern, limit - 1);
    }
  }

  lemma {:induction false} ScanFromIsSound(shards: seq<seq<bytes>>, s: nat, offset: nat, pattern: bytes, count: int)
    ensures forall k | k in ScanFrom(shards, s, offset, pattern, count).keys :: Sourced(shards, pattern, k)
    decreases |shards| - s
  {
    if s < |shards| {
      PageIsSound(shards[s], offset, pattern, count);
      ScanFromIsSound(shards, s + 1, 0, pattern, count - |Page(shards[s], offset, pattern, count)|);
    }
  }

  /** Soundness, without any condition: only matching keys of the cache are returned. */
  lemma {:induction false} IterateIsSound(shards: seq<seq<bytes>>, cursor: nat, pattern: bytes, count: int)
    requires count >= 1
    ensures forall k | k in Iterate(shards, cursor, pattern, count) :: Sourced(shards, pattern, k)
    decreases if cursor <= MaxCursor(shards) then MaxCursor(shards) - cursor + 1 else MaxCursor(shards) + 2
  {
    var r := ScanAt(shards, cursor, pattern, count);
    ScanFromIsSound(shards, cursor / STRIDE, cursor % STRIDE, pattern, count);
    NextCursor(shards, cursor, pattern, count);
    if r.cursor != 0 {
      IterateIsSound(shards, r.cursor, pattern, count);
    }
  }

  // ---------- Pattern "*": every key exactly once ----------

  function Drop(keys: seq<bytes>, n: nat): seq<bytes> {
    if n <= |keys| then keys[n..] else []
  }

  /** All keys from position `offset` of shard `s` on, shard by shard. */
  function KeysFrom(shards: seq<seq<bytes>>, s: nat, offset: nat): seq<bytes>
    decreases |shards| - s
  {
    if s >= |shards| then [] else Drop(shards[s], offset) + KeysFrom(shards, s + 1, 0)
  }

  lemma {:induction false} PageIsSlice(keys: seq<bytes>, offset: nat, limit: nat)
    requires offset <= |keys|
    ensures Page(keys, offset, [STAR], limit)
            == keys[offset..if offset + limit < |keys| then offset + limit else |keys|]
    decreases limit
  {
    if offset < |keys| && limit > 0 {
      PageIsSlice(keys, offset + 1, limit - 1);
    }
  }

  lemma PageOfAll(keys: seq<bytes>, offset: nat, limit: nat)
    ensures var page := Page(keys, offset, [STAR], limit);
            && Drop(keys, offset) == page + Drop(keys, offset + |page|)
            && (|page| < limit ==> Drop(keys, offset) == page)
  {
    if offset <= |keys| {
      PageIsSlice(keys, offset, limit);
    }
  }

  lemma AppendAssociates(a: seq<bytes>, b: seq<bytes>, c: seq<bytes>)
    ensures a + b + c == a + (b + c)
  {
  }

  /** The keys that are left when a call returned this cursor. */
  function Onward(shards: seq<seq<bytes>>, cursor: int): seq<bytes> {
    if cursor <= 0 then [] else KeysFrom(shards, cursor / STRIDE, cursor % STRIDE)
  }

  /** A full page ends in shard `s`, perhaps exactly at its end. */
  lemma OnwardFrom(shards: seq<seq<bytes>>, s: nat, next: nat)
    requires s < |shards| && |shards[s]| <= STRIDE && 0 < next <= STRIDE
    ensures Onward(shards, s * STRIDE + next) == Drop(shards[s], next) + KeysFrom(shards, s + 1, 0)
  {
    CursorDecodes(s, next);
    if next == STRIDE {
      assert Drop(shards[s], next) == [];
    }
  }

  lemma PageWithin(keys: seq<bytes>, offset: nat, limit: nat)
    ensures var page := Page(keys, offset, [STAR], limit); page != [] ==> offset + |page| <= |keys|
  {
    if offset <= |keys| {
      PageIsSlice(keys, offset, limit);
    }
  }

  lemma SplitsInThree(all: seq<bytes>, page: seq<bytes>, left: seq<bytes>, more: seq<bytes>)
    requires all == page + left
    ensures all + more == page + (left + more)
  {
  }

  /** A full page leaves the rest of its shard and all later shards. */
  lemma FullPageKeys(shards: seq<seq<bytes>>, s: nat, offset: nat, count: int) returns (next: nat)
    requires s < |shards| && count >= 1 && |Page(shards[s], offset, [STAR], count)| >= count
    ensures var r := ScanFrom(shards, s, offset, [STAR], count);
            && 0 < next <= |shards[s]| && r.cursor == s * STRIDE + next
            && KeysFrom(shards, s, offset) == r.keys + (Drop(shards[s], next) + KeysFrom(shards, s + 1, 0))
  {
    var keys := shards[s];
    var page := Page(keys, offset, [STAR], count);
    next := offset + |page|;
    PageWithin(keys, offset, count);
    PageOfAll(keys, offset, count);
    SplitsInThree(Drop(keys, offset), page, Drop(keys, next), KeysFrom(shards, s + 1, 0));
  }

  lemma FullPage(shards: seq<seq<bytes>>, s: nat, offset: nat, count: int)
    requires s < |shards| && |shards[s]| <= STRIDE && count >= 1
    requires |Page(shards[s], offset, [STAR], count)| >= count
    ensures var r := ScanFrom(shards, s, offset, [STAR], count);
            r.cursor > 0 && KeysFrom(shards, s, offset) == r.keys + Onward(shards, r.cursor)
  {
    var next := FullPageKeys(shards, s, offset, count);
    OnwardFrom(shards, s, next);
  }

  lemma {:induction false} ScanFromAll(shards: seq<seq<bytes>>, s: nat, offset: nat, count: int)
    requires FitsStride(shards) && count >= 1
    ensures var r := ScanFrom(shards, s, offset, [STAR], count);
            r.cursor >= 0 && KeysFrom(shards, s, offset) == r.keys + Onward(shards, r.cursor)
    decreases |shards| - s
  {
    if s < |shards| {
      var page := Page(shards[s], offset, [STAR], count);
      if |page| >= count {
        FullPage(shards, s, offset, count);
      } else {
        ScanFromAll(shards, s + 1, 0, count - |page|);
        AfterShortPage(shards, s, offset, count);
      }
    }
  }

  lemma AfterShortPage(shards: seq<seq<bytes>>, s: nat, offset: nat, count: int)
    requires s < |shards| && count >= 1 && |Page(shards[s], offset, [STAR], count)| < count
    requires var more := ScanFrom(shards, s + 1, 0, [STAR], count - |Page(shards[s], offset, [STAR], count)|);
             more.cursor >= 0 && KeysFrom(shards, s + 1, 0) == more.keys + Onward(shards, more.cursor)
    ensures var r := ScanFrom(shards, s, offset, [STAR], count);
            r.cursor >= 0 && KeysFrom(shards, s, offset) == r.keys + Onward(shards, r.cursor)
  {
    var page := Page(shards[s], offset, [STAR], count);
    var more := ScanFrom(shards, s + 1, 0, [STAR], count - |page|);
    ShortPage(shards, s, offset, count);
    AppendAssociates(page, more.keys, Onward(shards, more.cursor));
  }

  /** A page that is not full takes all that is left of its shard. */
  lemma ShortPage(shards: seq<seq<bytes>>, s: nat, offset: nat, count: int)
    requires s < |shards| && count >= 1 && |Page(shards[s], offset, [STAR], count)| < count
    ensures var page := Page(shards[s], offset, [STAR], count);
            var r, more := ScanFrom(shards, s, offset, [STAR], count), ScanFrom(shards, s + 1, 0, [STAR], count - |page|);
            && KeysFrom(shards, s, offset) == page + KeysFrom(shards, s + 1, 0)
            && r.keys == page + more.keys && r.cursor == more.cursor
  {
    PageOfAll(shards[s], offset, count);
  }

  /** With pattern "*", the pages concatenated are exactly the keys from the cursor on,
      each once and in order, also when an offset of 10000 carries into the next shard. */
  lemma {:induction false} IterateAll(shards: seq<seq<bytes>>, cursor: nat, count: int)
    requires FitsStride(shards) && count >= 1
    ensures Iterate(shards, cursor, [STAR], count) == KeysFrom(shards, cursor / STRIDE, cursor % STRIDE)
    decreases if cursor <= MaxCursor(shards) then MaxCursor(shards) - cursor + 1 else MaxCursor(shards) + 2
  {
    var r := ScanAt(shards, cursor, [STAR], count);
    ScanFromAll(shards, cursor / STRIDE, cursor % STRIDE, count);
    NextCursor(shards, cursor, [STAR], count);
    if r.cursor != 0 {
      IterateAll(shards, r.cursor, count);
    }
  }

  // ---------- The exact condition ----------

  predicate IsAt(shards: seq<seq<bytes>>, i: int, j: int, key: bytes) {
    0 <= i < |shards| && 0 <= j < |shards[i]| && shards[i][j] == key
  }

  /** No key stands in two places. */
  ghost predicate AllDistinct(shards: seq<seq<bytes>>) {
    forall i, j, i', j', key | IsAt(shards, i, j, key) && IsAt(shards, i', j', key) :: i == i' && j == j'
  }

  ghost predicate Complete(shards: seq<seq<bytes>>, pattern: bytes, count: int)
    requires count >= 1
  {
    forall i, j | 0 <= i < |shards| && 0 <= j < |shards[i]| && MatchPattern(shards[i][j], pattern) ::
      shards[i][j] in Iterate(shards, 0, pattern, count)
  }

  /** The key stands at an offset that a cursor can hold. */
  ghost predicate Reachable(shards: seq<seq<bytes>>, key: bytes) {
    exists i, j | IsAt(shards, i, j, key) :: j < STRIDE
  }

  lemma BeyondStride(shards: seq<seq<bytes>>, i: nat)
    requires AllDistinct(shards) && i < |shards| && |shards[i]| > STRIDE
    ensures !Reachable(shards, shards[i][STRIDE])
  {
    assert IsAt(shards, i, STRIDE, shards[i][STRIDE]);
  }

  lemma {:induction false} OneByOne(shards: seq<seq<bytes>>, s: nat, offset: nat)
    requires offset < STRIDE
    ensures forall k | k in ScanFrom(shards, s, offset, [STAR], 1).keys :: Reachable(shards, k)
    decreases |shards| - s
  {
    if s < |shards| {
      if offset < |shards[s]| {
        assert Page(shards[s], offset, [STAR], 1) == [shards[s][offset]] + Page(shards[s], offset + 1, [STAR], 0);
        assert IsAt(shards, s, offset, shards[s][offset]);
      } else {
        OneByOne(shards, s + 1, 0);
      }
    }
  }

  lemma {:induction false} IterateOneByOne(shards: seq<seq<bytes>>, cursor: nat)
    ensures forall k | k in Iterate(shards, cursor, [STAR], 1) :: Reachable(shards, k)
    decreases if cursor <= MaxCursor(shards) then MaxCursor(shards) - cursor + 1 else MaxCursor(shards) + 2
  {
    var r := ScanAt(shards, cursor, [STAR], 1);
    OneByOne(shards, cursor / STRIDE, cursor % STRIDE);
    NextCursor(shards, cursor, [STAR], 1);
    if r.cursor != 0 {
      IterateOneByOne(shards, r.cursor);
    }
  }

  /** The exact domain of SCAN when every call sees the keys in the same order: iterations
      are complete for every pattern and every COUNT from 1 up if and only if no shard holds
      more than 10000 unexpired keys. */
  lemma ScanDomain(shards: seq<seq<bytes>>)
    requires AllDistinct(shards)
    ensures (forall pattern: bytes, count: int | count >= 1 :: Complete(shards, pattern, count))
            <==> forall i | 0 <= i < |shards| :: |shards[i]| <= 10000
  {
    if FitsStride(shards) {
      forall pattern: bytes, count: int | count >= 1 ensures Complete(shards, pattern, count) {
        forall i, j | 0 <= i < |shards| && 0 <= j < |shards[i]| && MatchPattern(shards[i][j], pattern)
          ensures shards[i][j] in Iterate(shards, 0, pattern, count)
        {
          IterateIsComplete(shards, 0, pattern, count, i, j);
        }
      }
    } else {
      var i :| 0 <= i < |shards| && |shards[i]| > STRIDE;
      IterateOneByOne(shards, 0);
      BeyondStride(shards, i);
      assert !Complete(shards, [STAR], 1);
    }
  }

  // ---------- An order of its own for every call ----------

  /** `order` holds the same keys, shard by shard, in some order. */
  ghost predicate Shuffles(shards: seq<seq<bytes>>, order: seq<seq<bytes>>) {
    |order| == |shards| && forall i | 0 <= i < |shards| :: multiset(order[i]) == multiset(shards[i])
  }

  /** `orders(n)` is the order that the n-th call sees. */
  ghost predicate AllShuffle(shards: seq<seq<bytes>>, orders: nat -> seq<seq<bytes>>) {
    forall n: nat :: Shuffles(shards, orders(n))
  }

  lemma SameMembers(a: seq<bytes>, b: seq<bytes>, k: bytes)
    requires multiset(a) == multiset(b)
    ensures |a| == |b| && (k in a <==> k in b)
  {
    assert |a| == |multiset(a)| && |b| == |multiset(b)|;
    assert k in a <==> k in multiset(a);
    assert k in b <==> k in multiset(b);
  }

  lemma {:induction false} ShufflingKeepsBound(shards: seq<seq<bytes>>, order: seq<seq<bytes>>)
    requires Shuffles(shards, order)
    ensures MaxCursor(order) == MaxCursor(shards) && TotalKeys(order) == TotalKeys(shards)
    decreases |shards|
  {
    if shards != [] {
      SameMembers(order[0], shards[0], []);
      forall i | 0 <= i < |shards[1..]| ensures multiset(order[1..][i]) == multiset(shards[1..][i]) {
        assert order[1..][i] == order[i + 1] && shards[1..][i] == shards[i + 1];
      }
      ShufflingKeepsBound(shards[1..], order[1..]);
    }
  }

  /** All the keys a client receives, from the n-th call on. */
  ghost function IterateShuffled(shards: seq<seq<bytes>>, orders: nat -> seq<seq<bytes>>, n: nat, cursor: nat,
                                 pattern: bytes, count: int): seq<bytes>
    requires count >= 1 && AllShuffle(shards, orders)
    decreases if cursor <= MaxCursor(shards) then MaxCursor(shards) - cursor + 1 else MaxCursor(shards) + 2
  {
    var r := ScanAt(orders(n), cursor, pattern, count);
    NextCursor(orders(n), cursor, pattern, count);
    ShufflingKeepsBound(shards, orders(n));
    if r.cursor == 0 then r.keys else r.keys + IterateShuffled(shards, orders, n + 1, r.cursor, pattern, count)
  }

  /** From the n-th call on the order stays the same. */
  lemma {:induction false} SameOrderFromNowOn(shards: seq<seq<bytes>>, orders: nat -> seq<seq<bytes>>, n: nat,
                                              order: seq<seq<bytes>>, cursor: nat, pattern: bytes, count: int)
    requires count >= 1 && AllShuffle(shards, orders)
    requires forall m: nat | m >= n :: orders(m) == order
    ensures IterateShuffled(shards, orders, n, cursor, pattern, count) == Iterate(order, cursor, pattern, count)
    decreases if cursor <= MaxCursor(shards) then MaxCursor(shards) - cursor + 1 else MaxCursor(shards) + 2
  {
    var r := ScanAt(order, cursor, pattern, count);
    assert orders(n) == order;
    NextCursor(order, cursor, pattern, count);
    ShufflingKeepsBound(shards, order);
    if r.cursor != 0 {
      SameOrderFromNowOn(shards, orders, n + 1, order, r.cursor, pattern, count);
    }
  }

  /** Soundness holds for any orders. */
  lemma {:induction false} ShuffledIsSound(shards: seq<seq<bytes>>, orders: nat -> seq<seq<bytes>>, n: nat,
                                           cursor: nat, pattern: bytes, count: int)
    requires count >= 1 && AllShuffle(shards, orders)
    ensures forall k | k in IterateShuffled(shards, orders, n, cursor, pattern, count) :: Sourced(shards, pattern, k)
    decreases if cursor <= MaxCursor(shards) then MaxCursor(shards) - cursor + 1 else MaxCursor(shards) + 2
  {
    var order := orders(n);
    var r := ScanAt(order, cursor, pattern, count);
    ScanFromIsSound(order, cursor / STRIDE, cursor % STRIDE, pattern, count);
    forall k | k in r.keys ensures Sourced(shards, pattern, k) {
      var i :| 0 <= i < |order| && k in order[i];
      SameMembers(order[i], shards[i], k);
    }
    NextCursor(order, cursor, pattern, count);
    ShufflingKeepsBound(shards, order);
    if r.cursor != 0 {
      ShuffledIsSound(shards, orders, n + 1, r.cursor, pattern, count);
    }
  }

  ghost predicate CompleteShuffled(shards: seq<seq<bytes>>, orders: nat -> seq<seq<bytes>>, pattern: bytes, count: int)
    requires count >= 1 && AllShuffle(shards, orders)
  {
    forall i, j | 0 <= i < |shards| && 0 <= j < |shards[i]| && MatchPattern(shards[i][j], pattern) ::
      shards[i][j] in IterateShuffled(shards, orders, 0, 0, pattern, count)
  }

  // A key is missed that moves, between two calls, to where the cursor has been.

  function KeysBetween(shards: seq<seq<bytes>>, s: nat, i: nat): nat
    requires i <= |shards|
    decreases i - s
  {
    if s >= i then 0 else |shards[s]| + KeysBetween(shards, s + 1, i)
  }

  /** With a COUNT one larger than the number of keys in the shards before, a call ends
      behind the first key of shard `i`. */
  lemma {:induction false} EndsBehindFirst(shards: seq<seq<bytes>>, s: nat, i: nat)
    requires s <= i < |shards| && shards[i] != []
    ensures var r := ScanFrom(shards, s, 0, [STAR], KeysBetween(shards, s, i) + 1);
            && r.cursor == i * STRIDE + 1
            && forall k | k in r.keys :: k == shards[i][0] || exists j | s <= j < i :: k in shards[j]
    decreases i - s
  {
    var count := KeysBetween(shards, s, i) + 1;
    PageIsSlice(shards[s], 0, count);
    if s < i {
      assert shards[s][0..|shards[s]|] == shards[s];
      assert Page(shards[s], 0, [STAR], count) == shards[s];
      EndsBehindFirst(shards, s + 1, i);
    } else {
      assert Page(shards[s], 0, [STAR], 1) == [shards[s][0]];
    }
  }

  lemma {:induction false} KeysFromMembers(shards: seq<seq<bytes>>, s: nat, offset: nat, k: bytes)
    requires s < |shards| && k in KeysFrom(shards, s, offset)
    ensures k in Drop(shards[s], offset) || exists j | s < j < |shards| :: k in shards[j]
    decreases |shards| - s
  {
    if k !in Drop(shards[s], offset) {
      if s + 1 < |shards| {
        KeysFromMembers(shards, s + 1, 0, k);
        if k in Drop(shards[s + 1], 0) {
          assert k in shards[s + 1];
        }
      }
    }
  }

  /** The last key of a shard moves to the front. */
  function Rotated(shards: seq<seq<bytes>>, i: nat): seq<seq<bytes>>
    requires i < |shards| && shards[i] != []
  {
    var last := |shards[i]| - 1;
    shards[i := [shards[i][last]] + shards[i][..last]]
  }

  lemma RotatedShuffles(shards: seq<seq<bytes>>, i: nat)
    requires i < |shards| && shards[i] != []
    ensures Shuffles(shards, Rotated(shards, i))
  {
    var last := |shards[i]| - 1;
    assert shards[i] == shards[i][..last] + [shards[i][last]];
  }

  /** The first call sees the keys as they are, the others rotated. */
  function RotatedLater(shards: seq<seq<bytes>>, i: nat): nat -> seq<seq<bytes>>
    requires i < |shards| && shards[i] != []
  {
    n => if n == 0 then shards else Rotated(shards, i)
  }

  lemma KeyStandsOnce(shards: seq<seq<bytes>>, i: nat, j: nat)
    requires AllDistinct(shards) && i < |shards| && j < |shards[i]|
    ensures shards[i][j] !in shards[i][..j]
    ensures forall s | 0 <= s < |shards| && s != i :: shards[i][j] !in shards[s]
    ensures j > 0 ==> shards[i][j] != shards[i][0]
  {
    var key := shards[i][j];
    assert IsAt(shards, i, j, key);
    forall x | 0 <= x < j ensures shards[i][x] != key {
      assert shards[i][x] == key ==> IsAt(shards, i, x, key);
    }
    forall s, x | 0 <= s < |shards| && s != i && 0 <= x < |shards[s]| ensures shards[s][x] != key {
      assert shards[s][x] == key ==> IsAt(shards, s, x, key);
    }
  }

  lemma RotatedKeyIsPassed(shards: seq<seq<bytes>>, i: nat)
    requires AllDistinct(shards) && i < |shards| && |shards[i]| >= 2
    ensures var last := |shards[i]| - 1;
            && shards[i][last] !in KeysFrom(Rotated(shards, i), i, 1)
            && shards[i][last] !in ScanFrom(shards, 0, 0, [STAR], KeysBetween(shards, 0, i) + 1).keys
  {
    var last := |shards[i]| - 1;
    var key, order := shards[i][last], Rotated(shards, i);
    EndsBehindFirst(shards, 0, i);
    assert Drop(order[i], 1) == shards[i][..last];
    KeyStandsOnce(shards, i, last);
    if key in KeysFrom(order, i, 1) {
      KeysFromMembers(order, i, 1, key);
    }
  }

  /** The calls after the first one go on behind the first key of shard `i`. */
  lemma LaterCalls(shards: seq<seq<bytes>>, i: nat, count: int)
    requires FitsStride(shards) && i < |shards| && |shards[i]| >= 2 && count >= 1
    ensures AllShuffle(shards, RotatedLater(shards, i))
    ensures IterateShuffled(shards, RotatedLater(shards, i), 1, i * STRIDE + 1, [STAR], count)
            == KeysFrom(Rotated(shards, i), i, 1)
  {
    var order := Rotated(shards, i);
    RotatedShuffles(shards, i);
    SameOrderFromNowOn(shards, RotatedLater(shards, i), 1, order, i * STRIDE + 1, [STAR], count);
    assert FitsStride(order) by {
      assert |order[i]| == |shards[i]|;
    }
    IterateAll(order, i * STRIDE + 1, count);
    CursorDecodes(i, 1);
  }

  lemma OneCall(shards: seq<seq<bytes>>, orders: nat -> seq<seq<bytes>>, n: nat, cursor: nat,
                pattern: bytes, count: int, order: seq<seq<bytes>>)
    requires count >= 1 && AllShuffle(shards, orders) && orders(n) == order
    requires ScanAt(order, cursor, pattern, count).cursor > 0
    ensures var r := ScanAt(order, cursor, pattern, count);
            IterateShuffled(shards, orders, n, cursor, pattern, count)
            == r.keys + IterateShuffled(shards, orders, n + 1, r.cursor, pattern, count)
  {
  }

  /** The first call ends behind the first key of shard `i`. */
  lemma FirstCall(shards: seq<seq<bytes>>, i: nat)
    requires i < |shards| && shards[i] != []
    ensures var count := KeysBetween(shards, 0, i) + 1;
            ScanAt(shards, 0, [STAR], count) == ScanFrom(shards, 0, 0, [STAR], count)
            && ScanAt(shards, 0, [STAR], count).cursor == i * STRIDE + 1
  {
    EndsBehindFirst(shards, 0, i);
  }

  /** A key that neither the first call nor any later one returns. */
  lemma MissedByAll(shards: seq<seq<bytes>>, orders: nat -> seq<seq<bytes>>, count: int, next: nat, key: bytes)
    requires count >= 1 && AllShuffle(shards, orders) && orders(0) == shards
    requires ScanAt(shards, 0, [STAR], count).cursor == next > 0 && key !in ScanAt(shards, 0, [STAR], count).keys
    requires key !in IterateShuffled(shards, orders, 1, next, [STAR], count)
    ensures key !in IterateShuffled(shards, orders, 0, 0, [STAR], count)
  {
    OneCall(shards, orders, 0, 0, [STAR], count, shards);
  }

  /** What the two halves of the counterexample say about the last key of shard `i`. */
  lemma LastKeyIsMissed(shards: seq<seq<bytes>>, i: nat, count: int, key: bytes)
    requires AllDistinct(shards) && FitsStride(shards) && i < |shards| && |shards[i]| >= 2
    requires count == KeysBetween(shards, 0, i) + 1 && key == shards[i][|shards[i]| - 1]
    ensures AllShuffle(shards, RotatedLater(shards, i))
    ensures ScanAt(shards, 0, [STAR], count).cursor == i * STRIDE + 1 && key !in ScanAt(shards, 0, [STAR], count).keys
    ensures key !in IterateShuffled(shards, RotatedLater(shards, i), 1, i * STRIDE + 1, [STAR], count)
  {
    LaterCalls(shards, i, count);
    FirstCall(shards, i);
    RotatedKeyIsPassed(shards, i);
  }

  lemma TwoKeysAreEnough(shards: seq<seq<bytes>>, i: nat)
    returns (orders: nat -> seq<seq<bytes>>, count: int, key: bytes)
    requires AllDistinct(shards) && FitsStride(shards) && i < |shards| && |shards[i]| >= 2
    ensures count >= 1 && AllShuffle(shards, orders) && key == shards[i][|shards[i]| - 1]
    ensures key !in IterateShuffled(shards, orders, 0, 0, [STAR], count)
  {
    orders, count, key := RotatedLater(shards, i), KeysBetween(shards, 0, i) + 1, shards[i][|shards[i]| - 1];
    LastKeyIsMissed(shards, i, count, key);
    assert orders(0) == shards;
    MissedByAll(shards, orders, count, i * STRIDE + 1, key);
  }

  ghost predicate AtMostOne(shards: seq<seq<bytes>>) {
    forall i | 0 <= i < |shards| :: |shards[i]| <= 1
  }

  lemma OnlyOneOrder(shards: seq<seq<bytes>>, order: seq<seq<bytes>>)
    requires AtMostOne(shards) && Shuffles(shards, order)
    ensures order == shards
  {
    forall i | 0 <= i < |shards| ensures order[i] == shards[i] {
      if shards[i] == [] {
        SameMembers(order[i], shards[i], []);
      } else {
        SameMembers(order[i], shards[i], shards[i][0]);
      }
    }
  }

  lemma AtMostOneIsComplete(shards: seq<seq<bytes>>, orders: nat -> seq<seq<bytes>>, pattern: bytes, count: int)
    requires AtMostOne(shards) && count >= 1 && AllShuffle(shards, orders)
    ensures CompleteShuffled(shards, orders, pattern, count)
  {
    forall n: nat ensures orders(n) == shards {
      OnlyOneOrder(shards, orders(n));
    }
    SameOrderFromNowOn(shards, orders, 0, shards, 0, pattern, count);
    forall i, j | 0 <= i < |shards| && 0 <= j < |shards[i]| && MatchPattern(shards[i][j], pattern)
      ensures shards[i][j] in IterateShuffled(shards, orders, 0, 0, pattern, count)
    {
      IterateIsComplete(shards, 0, pattern, count, i, j);
    }
  }

  /** Every call sees the same order. */
  function Always(shards: seq<seq<bytes>>): nat -> seq<seq<bytes>> {
    _ => shards
  }

  lemma CrowdedIsIncomplete(shards: seq<seq<bytes>>) returns (orders: nat -> seq<seq<bytes>>, count: int)
    requires AllDistinct(shards) && !AtMostOne(shards)
    ensures count >= 1 && AllShuffle(shards, orders) && !CompleteShuffled(shards, orders, [STAR], count)
  {
    if FitsStride(shards) {
      var i :| 0 <= i < |shards| && |shards[i]| > 1;
      var key;
      orders, count, key := TwoKeysAreEnough(shards, i);
      assert MatchPattern(key, [STAR]);
    } else {
      orders, count := Always(shards), 1;
      var i :| 0 <= i < |shards| && |shards[i]| > STRIDE;
      IterateOneByOne(shards, 0);
      BeyondStride(shards, i);
      SameOrderFromNowOn(shards, orders, 0, shards, 0, [STAR], 1);
    }
  }

  ghost predicate AlwaysComplete(shards: seq<seq<bytes>>) {
    forall orders: nat -> seq<seq<bytes>>, pattern: bytes, count: int | count >= 1 && AllShuffle(shards, orders) ::
      CompleteShuffled(shards, orders, pattern, count)
  }

  /** The exact domain of SCAN when every call ranges over the map anew: iterations are
      complete for all orders, patterns and COUNTs from 1 up if and only if no shard holds
      more than one unexpired key. */
  lemma ShuffledScanDomain(shards: seq<seq<bytes>>)
    requires AllDistinct(shards)
    ensures AlwaysComplete(shards) <==> AtMostOne(shards)
  {
    if AtMostOne(shards) {
      forall orders: nat -> seq<seq<bytes>>, pattern: bytes, count: int | count >= 1 && AllShuffle(shards, orders)
        ensures CompleteShuffled(shards, orders, pattern, count)
      {
        AtMostOneIsComplete(shards, orders, pattern, count);
      }
    } else {
      var orders, count := CrowdedIsIncomplete(shards);
    }
  }

  // ---------- One call may be enough ----------

  /** The matching keys from `offset` on. */
  function CountFrom(keys: seq<bytes>, offset: nat, pattern: bytes): nat
    decreases |keys| - offset
  {
    if offset >= |keys| then 0
    else (if MatchPattern(keys[offset], pattern) then 1 else 0) + CountFrom(keys, offset + 1, pattern)
  }

  function Matching(shards: seq<seq<bytes>>, s: nat, pattern: bytes): nat
    decreases |shards| - s
  {
    if s >= |shards| then 0 else CountFrom(shards[s], 0, pattern) + Matching(shards, s + 1, pattern)
  }

  lemma {:induction false} PageCounts(keys: seq<bytes>, offset: nat, pattern: bytes, limit: nat)
    ensures var n := CountFrom(keys, offset, pattern);
            |Page(keys, offset, pattern, limit)| == if n < limit then n else limit
    decreases |keys| - offset
  {
    if offset < |keys| && limit > 0 {
      if MatchPattern(keys[offset], pattern) {
        PageCounts(keys, offset + 1, pattern, limit - 1);
      } else {
        PageCounts(keys, offset + 1, pattern, limit);
      }
    }
  }

  lemma {:induction false} EndsAtOnce(shards: seq<seq<bytes>>, s: nat, pattern: bytes, count: int)
    requires count >= 1
    ensures ScanFrom(shards, s, 0, pattern, count).cursor == 0 <==> Matching(shards, s, pattern) < count
    decreases |shards| - s
  {
    if s < |shards| {
      PageCounts(shards[s], 0, pattern, count);
      var page := Page(shards[s], 0, pattern, count);
      if |page| < count {
        EndsAtOnce(shards, s + 1, pattern, count - |page|);
      }
    }
  }

  lemma {:induction false} LastReplyHasAll(shards: seq<seq<bytes>>, s: nat, pattern: bytes, count: int, i: nat, j: nat)
    requires count >= 1 && ScanFrom(shards, s, 0, pattern, count).cursor == 0
    requires s <= i < |shards| && j < |shards[i]| && MatchPattern(shards[i][j], pattern)
    ensures shards[i][j] in ScanFrom(shards, s, 0, pattern, count).keys
    decreases |shards| - s
  {
    var page := Page(shards[s], 0, pattern, count);
    if i == s {
      PageIsComplete(shards[s], 0, pattern, count, j);
    } else {
      LastReplyHasAll(shards, s + 1, pattern, count - |page|, i, j);
    }
  }

  /** In whatever order the keys come: the first call of an iteration is the last one if
      and only if fewer keys match than COUNT asks for, and then it has returned them all. */
  lemma FirstReplyIsComplete(order: seq<seq<bytes>>, pattern: bytes, count: int)
    requires count >= 1
    ensures var r := ScanAt(order, 0, pattern, count);
            && (r.cursor == 0 <==> Matching(order, 0, pattern) < count)
            && (r.cursor == 0 ==>
                  forall i, j | 0 <= i < |order| && 0 <= j < |order[i]| && MatchPattern(order[i][j], pattern) ::
                    order[i][j] in r.keys)
  {
    EndsAtOnce(order, 0, pattern, count);
    if ScanAt(order, 0, pattern, count).cursor == 0 {
      forall i, j | 0 <= i < |order| && 0 <= j < |order[i]| && MatchPattern(order[i][j], pattern)
        ensures order[i][j] in ScanAt(order, 0, pattern, count).keys
      {
        LastReplyHasAll(order, 0, pattern, count, i, j);
      }
    }
  }

  lemma {:induction false} CountIsWithin(keys: seq<bytes>, offset: nat, pattern: bytes)
    ensures offset <= |keys| ==> CountFrom(keys, offset, pattern) <= |keys| - offset
    decreases |keys| - offset
  {
    if offset < |keys| {
      CountIsWithin(keys, offset + 1, pattern);
    }
  }

  lemma {:induction false} MatchingIsWithin(shards: seq<seq<bytes>>, s: nat, pattern: bytes)
    requires s <= |shards|
    ensures Matching(shards, s, pattern) <= TotalKeys(shards[s..])
    decreases |shards| - s
  {
    if s < |shards| {
      CountIsWithin(shards[s], 0, pattern);
      MatchingIsWithin(shards, s + 1, pattern);
      assert shards[s..][1..] == shards[s + 1..];
    }
  }

  /** So a COUNT larger than the number of keys makes SCAN complete under any orders. */
  lemma LargeCountIsComplete(shards: seq<seq<bytes>>, orders: nat -> seq<seq<bytes>>, pattern: bytes, count: int)
    requires AllShuffle(shards, orders) && count > TotalKeys(shards)
    ensures CompleteShuffled(shards, orders, pattern, count)
  {
    var order := orders(0);
    ShufflingKeepsBound(shards, order);
    MatchingIsWithin(order, 0, pattern);
    assert order[0..] == order;
    FirstReplyIsComplete(order, pattern, count);
    forall i, j | 0 <= i < |shards| && 0 <= j < |shards[i]| && MatchPattern(shards[i][j], pattern)
      ensures shards[i][j] in IterateShuffled(shards, orders, 0, 0, pattern, count)
    {
      SameMembers(order[i], shards[i], shards[i][j]);
      var j' :| 0 <= j' < |order[i]| && order[i][j'] == shards[i][j];
    }
  }

  // ---------- Pages and cursors, literally ----------

  /** The keys that match, in order. */
  function Matches(keys: seq<bytes>, pattern: bytes): seq<bytes> {
    if keys == [] then []
    else (if MatchPattern(keys[0], pattern) then [keys[0]] else []) + Matches(keys[1..], pattern)
  }

  function Take(keys: seq<bytes>, n: int): seq<bytes> {
    if n <= 0 then [] else if n >= |keys| then keys else keys[..n]
  }

  lemma TakeMore(key: bytes, keys: seq<bytes>, n: int)
    requires n > 0
    ensures Take([key] + keys, n) == [key] + Take(keys, n - 1)
  {
  }

  /** A page is the first `limit` keys that match, from the offset on. */
  lemma {:induction false} PageIsFirstMatches(keys: seq<bytes>, offset: nat, pattern: bytes, limit: int)
    ensures Page(keys, offset, pattern, limit) == Take(Matches(Drop(keys, offset), pattern), limit)
    decreases |keys| - offset
  {
    if offset < |keys| && limit > 0 {
      assert keys[offset..][1..] == keys[offset + 1..];
      if MatchPattern(keys[offset], pattern) {
        PageIsFirstMatches(keys, offset + 1, pattern, limit - 1);
        TakeMore(keys[offset], Matches(keys[offset + 1..], pattern), limit);
      } else {
        PageIsFirstMatches(keys, offset + 1, pattern, limit);
        assert [] + Matches(keys[offset + 1..], pattern) == Matches(keys[offset + 1..], pattern);
      }
    }
  }

  /** The keys that match from position `offset` of shard `s` on, shard by shard. */
  function MatchesFrom(shards: seq<seq<bytes>>, s: nat, offset: nat, pattern: bytes): seq<bytes>
    decreases |shards| - s
  {
    if s >= |shards| then [] else Matches(Drop(shards[s], offset), pattern) + MatchesFrom(shards, s + 1, 0, pattern)
  }

  lemma TakeBoth(a: seq<bytes>, b: seq<bytes>, n: int)
    ensures Take(a + b, n) == if |a| >= n then Take(a, n) else a + Take(b, n - |a|)
  {
  }

  /** One shard's page and what follows, when the rest gives the first matches of the rest. */
  lemma FirstMatchesOfBoth(here: seq<bytes>, page: seq<bytes>, others: seq<bytes>, more: seq<bytes>, count: int)
    requires page == Take(here, count) && (|page| < count ==> more == Take(others, count - |page|))
    ensures Take(here + others, count) == if |page| >= count then page else page + more
  {
    TakeBoth(here, others, count);
  }

  /** A reply has the first `count` keys that match from the cursor on, over all shards. */
  lemma {:induction false} ReplyIsFirstMatches(shards: seq<seq<bytes>>, s: nat, offset: nat, pattern: bytes, count: int)
    requires count >= 1
    ensures ScanFrom(shards, s, offset, pattern, count).keys == Take(MatchesFrom(shards, s, offset, pattern), count)
    decreases |shards| - s
  {
    if s < |shards| {
      var here, others := Matches(Drop(shards[s], offset), pattern), MatchesFrom(shards, s + 1, 0, pattern);
      var page := Page(shards[s], offset, pattern, count);
      PageIsFirstMatches(shards[s], offset, pattern, count);
      if |page| < count {
        ReplyIsFirstMatches(shards, s + 1, 0, pattern, count - |page|);
      }
      FirstMatchesOfBoth(here, page, others, ScanFrom(shards, s + 1, 0, pattern, count - |page|).keys, count);
    }
  }

  /** What a cursor means.  Shard and offset are quotient and remainder by 10000; the cursor
      of a full reply names the shard the last key came from, and the offset at which that
      shard was entered plus the number of keys it gave.  A reply that is not full, the only
      kind with all that was left, has cursor 0. */
  lemma CursorsAreLiteral(shards: seq<seq<bytes>>, cursor: nat, pattern: bytes, count: int)
    requires count >= 1
    ensures ScanAt(shards, cursor, pattern, count) == ScanFrom(shards, cursor / 10000, cursor % 10000, pattern, count)
    ensures var r, left := ScanAt(shards, cursor, pattern, count),
                           MatchesFrom(shards, cursor / 10000, cursor % 10000, pattern);
            && r.keys == Take(left, count)
            && (r.cursor == 0 <==> |left| < count)
  {
    ReplyIsFirstMatches(shards, cursor / 10000, cursor % 10000, pattern, count);
    FullExactly(shards, cursor / 10000, cursor % 10000, pattern, count);
  }

  lemma {:induction false} FullExactly(shards: seq<seq<bytes>>, s: nat, offset: nat, pattern: bytes, count: int)
    requires count >= 1
    ensures ScanFrom(shards, s, offset, pattern, count).cursor == 0
            <==> |MatchesFrom(shards, s, offset, pattern)| < count
    decreases |shards| - s
  {
    if s < |shards| {
      var here := Matches(Drop(shards[s], offset), pattern);
      PageIsFirstMatches(shards[s], offset, pattern, count);
      if |here| < count {
        FullExactly(shards, s + 1, 0, pattern, count - |here|);
      }
    }
  }

  /** Where a full reply ends: the shards from `s` to `i` gave fewer keys than asked for, and
      the rest came from shard `i`, which was entered at `from`. */
  lemma {:induction false} FullReplyCursor(shards: seq<seq<bytes>>, s: nat, offset: nat, pattern: bytes, count: int, i: nat)
    requires s <= i < |shards| && GivenBefore(shards, s, offset, pattern, i) < count
    requires GivenBefore(shards, s, offset, pattern, i + 1) >= count
    ensures var from := if i == s then offset else 0;
            ScanFrom(shards, s, offset, pattern, count).cursor
            == 10000 * i + from + (count - GivenBefore(shards, s, offset, pattern, i))
    decreases i - s
  {
    var here := Matches(Drop(shards[s], offset), pattern);
    PageIsFirstMatches(shards[s], offset, pattern, count);
    if i > s {
      assert GivenBefore(shards, s, offset, pattern, i) == |here| + GivenBefore(shards, s + 1, 0, pattern, i);
      FullReplyCursor(shards, s + 1, 0, pattern, count - |here|, i);
    } else {
      assert GivenBefore(shards, s + 1, 0, pattern, s + 1) == 0;
    }
  }

  /** The number of keys that match in the shards before number `i`, from position `offset` of shard `s` on. */
  function GivenBefore(shards: seq<seq<bytes>>, s: nat, offset: nat, pattern: bytes, i: nat): nat
    decreases |shards| - s
  {
    if s >= i || s >= |shards| then 0
    else |Matches(Drop(shards[s], offset), pattern)| + GivenBefore(shards, s + 1, 0, pattern, i)
  }

  /** Negative cursors in numbers: one of -10000 or less panics; one above that does as soon
      as there is a shard and a key is asked for. */
  lemma NegativeCursors(shards: seq<seq<bytes>>, cursor: int, pattern: bytes, count: int)
    requires cursor < 0
    ensures var r := ScanAny(shards, cursor, pattern, count);
            && (r == Panic <==> cursor <= -10000 || (shards != [] && count >= 1))
            && (r != Panic ==> r == Answer(Reply([], if shards == [] then 0 else cursor)))
  {
  }
}
