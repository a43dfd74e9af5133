/** The write handlers of the collections in `internal/handler`, `LogCommand`, and what
    `replayCommand` of `internal/persistence/aof.go` does to collections, in their own form:
    loops over arguments with running counts, maps updated in place, a log that grows.  Each
    is tied to module `Store`.  Strings, which are in the cache, are left to module
    `StringHandlers`. */
module Handlers {
  import opened Bytes
  import opened Lru
  import opened Commands
  import opened Store
  import Resp

  // ---------- The loops of `internal/engine` and `internal/handler` ----------

  method PutPairsLoop(h: map<bytes, bytes>, pairs: seq<bytes>) returns (m: map<bytes, bytes>, count: nat)
    requires |pairs| % 2 == 0
    ensures m == PutPairs(h, pairs) && count == CountNewPairs(h, pairs)
    ensures |m| == |h| + count
  {
    CountNewPairsIsGrowth(h, pairs);
    m, count := h, 0;
    var i := 0;
    while i < |pairs|
      invariant 0 <= i <= |pairs| && i % 2 == 0
      invariant PutPairs(h, pairs) == PutPairs(m, pairs[i..])
      invariant CountNewPairs(h, pairs) == count + CountNewPairs(m, pairs[i..])
    {
      var field, value := pairs[i], pairs[i + 1];
      ghost var rest := pairs[i..];
      assert rest[0] == field && rest[1] == value && rest[2..] == pairs[i + 2..];
      if field !in m {
        count := count + 1;
      }
      m := m[field := value];
      i := i + 2;
    }
  }

  lemma RemoveStep<V>(m: map<bytes, V>, keys: seq<bytes>, i: nat)
    requires i < |keys|
    ensures RemoveAll(m, keys[i..]) == RemoveAll(m - {keys[i]}, keys[i + 1..])
    ensures CountPresent(m, keys[i..])
            == (if keys[i] in m then 1 else 0) + CountPresent(m - {keys[i]}, keys[i + 1..])
  {
    assert keys[i..][1..] == keys[i + 1..];
  }

  method RemoveKeysLoop<V>(h: map<bytes, V>, keys: seq<bytes>) returns (m: map<bytes, V>, count: nat)
    ensures m == RemoveAll(h, keys) && count == CountPresent(h, keys)
    ensures |m| + count == |h|
  {
    m, count := h, 0;
    var i := 0;
    while i < |keys|
      invariant 0 <= i <= |keys|
      invariant RemoveAll(h, keys) == RemoveAll(m, keys[i..])
      invariant CountPresent(h, keys) == count + CountPresent(m, keys[i..])
    {
      var key := keys[i];
      RemoveStep(m, keys, i);
      if key in m {
        count := count + 1;
      }
      m := m - {key};
      i := i + 1;
    }
    CountPresentIsLoss(h, keys);
  }

  method AddMembersLoop(s: set<bytes>, members: seq<bytes>) returns (r: set<bytes>, count: nat)
    ensures r == AddMembers(s, members) && count == CountAdded(s, members)
    ensures |r| == |s| + count
  {
    r, count := s, 0;
    var i := 0;
    while i < |members|
      invariant 0 <= i <= |members|
      invariant AddMembers(s, members) == AddMembers(r, members[i..])
      invariant CountAdded(s, members) == count + CountAdded(r, members[i..])
    {
      var m := members[i];
      assert members[i..][0] == m && members[i..][1..] == members[i + 1..];
      if m !in r {
        count := count + 1;
      }
      r := r + {m};
      i := i + 1;
    }
    CountAddedIsGrowth(s, members);
  }

  method RemoveMembersLoop(s: set<bytes>, members: seq<bytes>) returns (r: set<bytes>, count: nat)
    ensures r == RemoveMembers(s, members) && count == CountRemoved(s, members)
    ensures |r| + count == |s|
  {
    r, count := s, 0;
    var i := 0;
    while i < |members|
      invariant 0 <= i <= |members|
      invariant RemoveMembers(s, members) == RemoveMembers(r, members[i..])
      invariant CountRemoved(s, members) == count + CountRemoved(r, members[i..])
    {
      var m := members[i];
      assert members[i..][0] == m && members[i..][1..] == members[i + 1..];
      if m in r {
        count := count + 1;
      }
      r := r - {m};
      i := i + 1;
    }
    CountRemovedIsLoss(s, members);
  }

  method PushFrontLoop(l: seq<bytes>, values: seq<bytes>) returns (r: seq<bytes>)
    ensures r == PushFront(l, values) && |r| == |l| + |values|
  {
    r := l;
    var i := 0;
    while i < |values|
      invariant 0 <= i <= |values|
      invariant PushFront(l, values) == PushFront(r, values[i..])
    {
      assert values[i..][0] == values[i] && values[i..][1..] == values[i + 1..];
      r := [values[i]] + r;
      i := i + 1;
    }
    PushFrontCounts(l, values);
  }

  method PushBackLoop(l: seq<bytes>, values: seq<bytes>) returns (r: seq<bytes>)
    ensures r == l + values
  {
    r := l;
    var i := 0;
    while i < |values|
      invariant 0 <= i <= |values|
      invariant r == l + values[..i]
    {
      r := r + [values[i]];
      i := i + 1;
    }
    assert values[..i] == values;
  }

  method AddScoresLoop(pf: FloatParser, z: map<bytes, Score>, pairs: seq<bytes>) returns (r: Scored)
    requires |pairs| % 2 == 0
    ensures r == AddScores(pf, z, pairs)
    ensures |r.scores| == |z| + r.added
  {
    CountScoresIsGrowth(pf, z, pairs);
    var m: map<bytes, Score>, count := z, 0;
    var i := 0;
    while i < |pairs|
      invariant 0 <= i <= |pairs| && i % 2 == 0
      invariant var rest := AddScores(pf, m, pairs[i..]);
                AddScores(pf, z, pairs) == rest.(added := count + rest.added)
    {
      ghost var rest := pairs[i..];
      assert rest[0] == pairs[i] && rest[1] == pairs[i + 1] && rest[2..] == pairs[i + 2..];
      var score := pf(pairs[i]);
      if score.None? {
        return Scored(m, count, false);
      }
      if pairs[i + 1] !in m {
        count := count + 1;
      }
      m := m[pairs[i + 1] := score.value];
      i := i + 2;
    }
    r := Scored(m, count, true);
  }

  lemma {:induction false} EvensAppend(a: seq<bytes>, b: seq<bytes>)
    requires |a| % 2 == 0
    ensures Evens(a + b) == Evens(a) + Evens(b)
    decreases |a|
  {
    if a == [] {
      assert a + b == b;
    } else {
      assert (a + b)[2..] == a[2..] + b;
      EvensAppend(a[2..], b);
    }
  }

  lemma EvensOfPair(pairs: seq<bytes>, i: nat)
    requires i % 2 == 0 && i + 2 <= |pairs|
    ensures Evens(pairs[..i + 2]) == Evens(pairs[..i]) + [pairs[i]]
    ensures Evens(pairs[i..]) == [pairs[i]] + Evens(pairs[i + 2..])
  {
    assert pairs[..i + 2] == pairs[..i] + [pairs[i], pairs[i + 1]];
    EvensAppend(pairs[..i], [pairs[i], pairs[i + 1]]);
    assert pairs[i..][2..] == pairs[i + 2..];
  }

  // ---------- The log ----------

  function BulkBytes(s: bytes): bytes {
    Resp.Header(Resp.BULK, FormatInt(|s|)) + s + CRLF
  }

  lemma {:induction false} EncodeBulksAppend(args: seq<bytes>, a: bytes)
    ensures Resp.EncodeAll(Bulks(args + [a])) == Resp.EncodeAll(Bulks(args)) + BulkBytes(a)
  {
    if args == [] {
      assert Bulks([a]) == [Resp.BulkString(a)] + [];
      assert Resp.EncodeAll(Bulks([a])) == BulkBytes(a) + Resp.EncodeAll([]);
    } else {
      assert (args + [a])[1..] == args[1..] + [a];
      EncodeBulksAppend(args[1..], a);
      assert Bulks(args)[1..] == Bulks(args[1..]);
      assert Bulks(args + [a])[1..] == Bulks(args[1..] + [a]);
    }
  }

  lemma EntryBytes(c: Command)
    requires IsWrite(c.name)
    ensures IsLatin(WriteText(c.name))
    ensures Resp.Encode(LogEntry(c))
            == Resp.Header(Resp.ARRAY, FormatInt(1 + |c.args|)) + BulkBytes(Ascii(WriteText(c.name)))
               + Resp.EncodeAll(Bulks(c.args))
  {
    WriteNameRoundTrip(c.name);
    var es := LogEntry(c).elems;
    assert es[1..] == Bulks(c.args) && |es| == 1 + |c.args|;
    assert Resp.EncodeAll(es) == BulkBytes(Ascii(WriteText(c.name))) + Resp.EncodeAll(Bulks(c.args));
  }

  /** The argument loop of `LogCommand`. */
  method FormatArguments(head: bytes, args: seq<bytes>) returns (resp: bytes)
    ensures resp == head + Resp.EncodeAll(Bulks(args))
  {
    resp := head;
    var i := 0;
    while i < |args|
      invariant 0 <= i <= |args|
      invariant resp == head + Resp.EncodeAll(Bulks(args[..i]))
    {
      resp := resp + BulkBytes(args[i]);
      EncodeBulksAppend(args[..i], args[i]);
      assert args[..i + 1] == args[..i] + [args[i]];
      i := i + 1;
    }
    assert args[..i] == args;
  }

  /** `LogCommand`: the entry is formatted piece by piece. */
  method FormatEntry(c: Command) returns (resp: bytes)
    requires IsWrite(c.name)
    ensures resp == Resp.Encode(LogEntry(c))
  {
    EntryBytes(c);
    var cmd := Ascii(WriteText(c.name));
    resp := Resp.Header(Resp.ARRAY, FormatInt(1 + |c.args|)) + BulkBytes(cmd);
    resp := FormatArguments(resp, c.args);
  }

  // ---------- The handlers ----------

  class Handler {
    const parseFloat: FloatParser
    var hashes: map<bytes, map<bytes, bytes>>
    var lists: map<bytes, seq<bytes>>
    var sets: map<bytes, set<bytes>>
    var zsets: map<bytes, map<bytes, Score>>
    var log: bytes

    /** The collections, as a state without strings. */
    function View(): State
      reads this
    {
      State(map[], hashes, lists, sets, zsets)
    }

    /** A handler did what `o` says: state, reply, and the log entry if there is one. */
    ghost predicate Did(o: Outcome, reply: Reply, c: Command, oldLog: bytes)
      requires IsWrite(c.name)
      reads this
    {
      && View() == o.state && reply == o.reply
      && log == oldLog + if o.logged then Resp.Encode(LogEntry(c)) else []
    }

    constructor (parseFloat: FloatParser)
      ensures View() == EMPTY && log == [] && this.parseFloat == parseFloat
    {
      this.parseFloat := parseFloat;
      hashes, lists, sets, zsets := map[], map[], map[], map[];
      log := [];
    }

    method LogCommand(c: Command)
      requires IsWrite(c.name)
      modifies `log
      ensures log == old(log) + Resp.Encode(LogEntry(c))
    {
      var resp := FormatEntry(c);
      log := log + resp;
    }

    method HSet(args: seq<bytes>) returns (r: Reply)
      modifies this
      ensures Did(HandleHSet(old(View()), args), r, Command(HSET, args), old(log))
    {
      if |args| < 3 {
        return WrongArguments;
      }
      var key, fields := args[0], args[1..];
      if |fields| % 2 != 0 {
        return WrongArguments;
      }
      var hash, count := PutPairsLoop(GetOr(hashes, key, map[]), fields);
      hashes := hashes[key := hash];
      LogCommand(Command(HSET, args));
      r := Int(count);
    }

    method HDel(args: seq<bytes>) returns (r: Reply)
      modifies this
      ensures Did(HandleHDel(old(View()), args), r, Command(HDEL, args), old(log))
    {
      if |args| < 2 {
        return WrongArguments;
      }
      var key, fields := args[0], args[1..];
      if key !in hashes {
        return Int(0);
      }
      var hash, count := RemoveKeysLoop(hashes[key], fields);
      hashes := hashes[key := hash];
      LogCommand(Command(HDEL, args));
      r := Int(count);
    }

    method LPush(args: seq<bytes>) returns (r: Reply)
      modifies this
      ensures Did(HandlePush(old(View()), true, args), r, Command(LPUSH, args), old(log))
    {
      if |args| < 2 {
        return WrongArguments;
      }
      var list := PushFrontLoop(GetOr(lists, args[0], []), args[1..]);
      lists := lists[args[0] := list];
      LogCommand(Command(LPUSH, args));
      r := Int(|list|);
    }

    method RPush(args: seq<bytes>) returns (r: Reply)
      modifies this
      ensures Did(HandlePush(old(View()), false, args), r, Command(RPUSH, args), old(log))
    {
      if |args| < 2 {
        return WrongArguments;
      }
      var list := PushBackLoop(GetOr(lists, args[0], []), args[1..]);
      lists := lists[args[0] := list];
      LogCommand(Command(RPUSH, args));
      r := Int(|list|);
    }

    method LPop(args: seq<bytes>) returns (r: Reply)
      modifies this
      ensures Did(HandlePop(old(View()), true, args), r, Command(LPOP, args), old(log))
    {
      if |args| < 1 {
        return WrongArguments;
      }
      var key := args[0];
      if key !in lists || lists[key] == [] {
        return Null;
      }
      var val := lists[key][0];
      lists := lists[key := lists[key][1..]];
      LogCommand(Command(LPOP, args));
      r := Bulk(val);
    }

    method RPop(args: seq<bytes>) returns (r: Reply)
      modifies this
      ensures Did(HandlePop(old(View()), false, args), r, Command(RPOP, args), old(log))
    {
      if |args| < 1 {
        return WrongArguments;
      }
      var key := args[0];
      if key !in lists || lists[key] == [] {
        return Null;
      }
      var last := |lists[key]| - 1;
      var val := lists[key][last];
      lists := lists[key := lists[key][..last]];
      LogCommand(Command(RPOP, args));
      r := Bulk(val);
    }

    method SAdd(args: seq<bytes>) returns (r: Reply)
      modifies this
      ensures Did(HandleSAdd(old(View()), args), r, Command(SADD, args), old(log))
    {
      if |args| < 2 {
        return WrongArguments;
      }
      var members, count := AddMembersLoop(GetOr(sets, args[0], {}), args[1..]);
      sets := sets[args[0] := members];
      LogCommand(Command(SADD, args));
      r := Int(count);
    }

    method SRem(args: seq<bytes>) returns (r: Reply)
      modifies this
      ensures Did(HandleSRem(old(View()), args), r, Command(SREM, args), old(log))
    {
      if |args| < 2 {
        return WrongArguments;
      }
      if args[0] !in sets {
        return Int(0);
      }
      var members, count := RemoveMembersLoop(sets[args[0]], args[1..]);
      sets := sets[args[0] := members];
      LogCommand(Command(SREM, args));
      r := Int(count);
    }

    method ZAdd(args: seq<bytes>) returns (r: Reply)
      modifies this
      ensures Did(HandleZAdd(parseFloat, old(View()), args), r, Command(ZADD, args), old(log))
    {
      if |args| < 3 {
        return WrongArguments;
      }
      var key, pairs := args[0], args[1..];
      if |pairs| % 2 != 0 {
        return WrongArguments;
      }
      var scored := AddScoresLoop(parseFloat, GetOr(zsets, key, map[]), pairs);
      zsets := zsets[key := scored.scores];
      if !scored.ok {
        return NotAFloat;
      }
      LogCommand(Command(ZADD, args));
      r := Int(scored.added);
    }

    method ZRem(args: seq<bytes>) returns (r: Reply)
      modifies this
      ensures Did(HandleZRem(old(View()), args), r, Command(ZREM, args), old(log))
    {
      if |args| < 2 {
        return WrongArguments;
      }
      if args[0] !in zsets {
        return Int(0);
      }
      var scores, count := RemoveKeysLoop(zsets[args[0]], args[1..]);
      zsets := zsets[args[0] := scores];
      LogCommand(Command(ZREM, args));
      r := Int(count);
    }

    // ---------- Replay ----------

    method ReplayHashesAndLists(c: Command, now: int)
      requires c.name.HSET? || c.name.HDEL? || c.name.LPUSH? || c.name.RPUSH? || c.name.LPOP? || c.name.RPOP?
      modifies `hashes, `lists
      ensures View() == Replay(parseFloat, old(View()), c, now)
    {
      var args := c.args;
      if |args| < (if c.name.LPOP? || c.name.RPOP? then 1 else if c.name.HSET? then 3 else 2) {
        return;
      }
      var key := args[0];
      match c.name {
        case HSET =>
          if |args[1..]| % 2 != 0 {
            return;
          }
          var hash, _ := PutPairsLoop(GetOr(hashes, key, map[]), args[1..]);
          hashes := hashes[key := hash];
        case HDEL =>
          if key !in hashes {
            return;
          }
          var hash, _ := RemoveKeysLoop(hashes[key], args[1..]);
          hashes := hashes[key := hash];
        case LPUSH =>
          var list := PushFrontLoop(GetOr(lists, key, []), args[1..]);
          lists := lists[key := list];
        case RPUSH =>
          var list := PushBackLoop(GetOr(lists, key, []), args[1..]);
          lists := lists[key := list];
        case LPOP =>
          if key in lists && lists[key] != [] {
            lists := lists[key := lists[key][1..]];
          }
        case RPOP =>
          if key in lists && lists[key] != [] {
            lists := lists[key := lists[key][..|lists[key]| - 1]];
          }
      }
    }

    method ReplaySAdd(args: seq<bytes>)
      modifies `sets
      ensures View() == Store.ReplaySAdd(old(View()), args)
    {
      if |args| < 2 {
        return;
      }
      var members, _ := AddMembersLoop(GetOr(sets, args[0], {}), args[1..]);
      sets := sets[args[0] := members];
    }

    method ReplaySRem(args: seq<bytes>)
      modifies `sets
      ensures View() == Store.ReplaySRem(old(View()), args)
    {
      if |args| < 2 || args[0] !in sets {
        return;
      }
      var members, _ := RemoveMembersLoop(sets[args[0]], args[1..]);
      sets := sets[args[0] := members];
    }

    method ReplaySortedSets(c: Command, now: int)
      requires c.name.ZADD? || c.name.ZREM?
      modifies `zsets
      ensures View() == Replay(parseFloat, old(View()), c, now)
    {
      var args := c.args;
      if |args| < (if c.name.ZADD? then 3 else 2) {
        return;
      }
      var key := args[0];
      if c.name.ZADD? {
        if |args[1..]| % 2 == 0 {
          var scored := AddScoresLoop(parseFloat, GetOr(zsets, key, map[]), args[1..]);
          zsets := zsets[key := scored.scores];
        }
      } else if key in zsets {
        var scores, _ := RemoveKeysLoop(zsets[key], args[1..]);
        zsets := zsets[key := scores];
      }
    }

    /** The cases of `replayCommand` for collections. */
    method ReplayCollections(c: Command, now: int)
      requires !OnStrings(c.name)
      modifies `hashes, `lists, `sets, `zsets
      ensures View() == Replay(parseFloat, old(View()), c, now)
    {
      match c.name {
        case HSET | HDEL | LPUSH | RPUSH | LPOP | RPOP => ReplayHashesAndLists(c, now);
        case SADD => ReplaySAdd(c.args);
        case SREM => ReplaySRem(c.args);
        case ZADD | ZREM => ReplaySortedSets(c, now);
        case _ =>
      }
    }
  }
}
