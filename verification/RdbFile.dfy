/** `RDB.Save` and `RDB.Load` in their own form: nested loops over shards and items that
    write to and read from a stream, and a cache that is restored shard by shard. */
module RdbFile {
  import opened Bytes
  import opened Lru
  import opened Rdb
  import opened Restore
  import C = ShardCache
  import S = Shard

  // ---------- Saving ----------

  lemma {:induction false} EncodeItemsSnoc(es: seq<Entry>, e: Entry, now: int)
    ensures EncodeItems(es + [e], now) == EncodeItems(es, now) + EncodeItem(e, now)
  {
    if es == [] {
      assert EncodeItems([e], now) == EncodeItem(e, now) + EncodeItems([], now);
    } else {
      assert (es + [e])[1..] == es[1..] + [e];
      EncodeItemsSnoc(es[1..], e, now);
    }
  }

  lemma {:induction false} EncodeBlocksSnoc(bs: seq<Block>, b: Block, now: int)
    ensures EncodeBlocks(bs + [b], now) == EncodeBlocks(bs, now) + EncodeBlock(b, now)
  {
    if bs == [] {
      assert EncodeBlocks([b], now) == EncodeBlock(b, now) + EncodeBlocks([], now);
    } else {
      assert (bs + [b])[1..] == bs[1..] + [b];
      EncodeBlocksSnoc(bs[1..], b, now);
    }
  }

  /** The bytes of the items of a map, in some order. */
  ghost predicate ItemsWritten(w: bytes, items: map<bytes, Item>, now: int) {
    exists order :: Lists(order, items) && w == EncodeItems(order, now)
  }

  /** Writes the items of a map in the order in which it happens to be visited. */
  method WriteItems(items: map<bytes, Item>, now: int) returns (w: bytes)
    ensures ItemsWritten(w, items, now)
  {
    w := [];
    ghost var order: seq<Entry> := [];
    var keys := items.Keys;
    while keys != {}
      invariant keys <= items.Keys
      invariant Lists(order, items - keys)
      invariant w == EncodeItems(order, now)
      decreases keys
    {
      var key :| key in keys;
      var item := items[key];
      ListsOneMore(order, items - keys, key, item);
      EncodeItemsSnoc(order, Entry(key, item), now);
      assert (items - keys)[key := item] == items - (keys - {key});
      keys := keys - {key};
      w := w + EncodeItem(Entry(key, item), now);
      order := order + [Entry(key, item)];
    }
    assert items - {} == items;
  }

  lemma ListsCounts(order: seq<Entry>, items: map<bytes, Item>)
    requires Lists(order, items)
    ensures |order| == |items|
    ensures items == map[] <==> order == []
  {
    ToMapCount(order);
  }

  lemma {:induction false} ToMapCount(es: seq<Entry>)
    requires Distinct(es)
    ensures |ToMap(es)| == |es|
  {
    if es != [] {
      ToMapCount(es[1..]);
      ToMapFinds(es[1..], es[0].key);
      FindIff(es[1..], es[0].key);
      assert ToMap(es).Keys == ToMap(es[1..]).Keys + {es[0].key};
    }
  }

  /** The bytes of one shard with the entries `es`: nothing when no item is unexpired. */
  ghost predicate ShardWritten(w: bytes, id: nat, es: seq<Entry>, now: int) {
    exists order :: SnapshotOf(order, es, now) && w == if order == [] then [] else EncodeBlock(Block(id, order), now)
  }

  method SaveShard(cache: C.Cache, id: nat, now: int) returns (w: bytes)
    requires cache.Valid() && id < |cache.shards|
    ensures ShardWritten(w, id, cache.state[id], now)
  {
    var items := cache.shards[id].GetItems(now);
    var body := WriteItems(items, now);
    ghost var order :| Lists(order, items) && body == EncodeItems(order, now);
    assert SnapshotOf(order, cache.state[id], now);
    ListsCounts(order, items);
    if |items| == 0 {
      return [];
    }
    w := LE(id, 2) + LE(|items|, 4) + body;
  }

  lemma BlocksOfSnoc(orders: seq<seq<Entry>>, order: seq<Entry>, now: int)
    ensures EncodeBlocks(BlocksOf(orders + [order]), now)
            == EncodeBlocks(BlocksOf(orders), now)
               + if order == [] then [] else EncodeBlock(Block(|orders|, order), now)
  {
    var longer := orders + [order];
    assert longer[..|orders|] == orders;
    if order != [] {
      EncodeBlocksSnoc(BlocksOf(orders), Block(|orders|, order), now);
    } else {
      assert BlocksOf(longer) == BlocksOf(orders);
    }
  }

  /** A snapshot of the cache: the item maps are visited in some order each. */
  ghost predicate FileWritten(w: bytes, st: seq<seq<Entry>>, now: int) {
    exists orders :: SavedFrom(orders, st, now) && w == EncodeFile(orders, now)
  }

  /** The bytes written when `i` of `n` shards have been visited, in the orders given. */
  ghost predicate WrittenBy(w: bytes, st: seq<seq<Entry>>, i: nat, n: nat, now: int, orders: seq<seq<Entry>>)
    requires i <= |st|
  {
    SavedFrom(orders, st[..i], now) && w == Header(n) + EncodeBlocks(BlocksOf(orders), now)
  }

  ghost predicate WrittenUpTo(w: bytes, st: seq<seq<Entry>>, i: nat, n: nat, now: int)
    requires i <= |st|
  {
    exists orders :: WrittenBy(w, st, i, n, now, orders)
  }

  lemma NothingWritten(st: seq<seq<Entry>>, n: nat, now: int)
    ensures WrittenUpTo(Header(n), st, 0, n, now)
  {
    StartOfFile(Header(n), now);
    assert WrittenBy(Header(n), st, 0, n, now, []);
  }

  lemma WrittenByOneMore(w: bytes, st: seq<seq<Entry>>, i: nat, n: nat, now: int, orders: seq<seq<Entry>>,
                         order: seq<Entry>, part: bytes)
    requires i < |st| && WrittenBy(w, st, i, n, now, orders) && SnapshotOf(order, st[i], now)
    requires part == if order == [] then [] else EncodeBlock(Block(i, order), now)
    ensures WrittenBy(w + part, st, i + 1, n, now, orders + [order])
  {
    OneMoreSaved(orders, order, st, now);
    OneMoreWritten(Header(n), orders, order, now);
  }

  lemma OneMoreShard(w: bytes, part: bytes, st: seq<seq<Entry>>, i: nat, n: nat, now: int)
    requires i < |st| && WrittenUpTo(w, st, i, n, now) && ShardWritten(part, i, st[i], now)
    ensures WrittenUpTo(w + part, st, i + 1, n, now)
  {
    var orders :| WrittenBy(w, st, i, n, now, orders);
    var order :| SnapshotOf(order, st[i], now) && part == if order == [] then [] else EncodeBlock(Block(i, order), now);
    WrittenByOneMore(w, st, i, n, now, orders, order, part);
  }

  lemma AllWritten(w: bytes, st: seq<seq<Entry>>, now: int)
    requires WrittenUpTo(w, st, |st|, |st|, now)
    ensures FileWritten(w, st, now)
  {
    var orders :| WrittenBy(w, st, |st|, |st|, now, orders);
    assert st[..|st|] == st;
  }

  method Save(cache: C.Cache, now: int) returns (w: bytes)
    requires cache.Valid()
    ensures FileWritten(w, cache.state, now)
  {
    var numShards := |cache.shards|;
    ghost var st := cache.state;
    w := Header(numShards);
    NothingWritten(st, numShards, now);
    var shardID := 0;
    while shardID < numShards
      invariant 0 <= shardID <= numShards == |st|
      invariant cache.Valid() && cache.state == st
      invariant WrittenUpTo(w, st, shardID, numShards, now)
    {
      var part := SaveShard(cache, shardID, now);
      OneMoreShard(w, part, st, shardID, numShards, now);
      w := w + part;
      shardID := shardID + 1;
    }
    AllWritten(w, st, now);
  }

  lemma StartOfFile(header: bytes, now: int)
    ensures header == header + EncodeBlocks(BlocksOf([]), now)
  {
    assert EncodeBlocks(BlocksOf([]), now) == [];
  }

  lemma OneMoreSaved(orders: seq<seq<Entry>>, order: seq<Entry>, st: seq<seq<Entry>>, now: int)
    requires |orders| < |st| && SavedFrom(orders, st[..|orders|], now)
    requires SnapshotOf(order, st[|orders|], now)
    ensures SavedFrom(orders + [order], st[..|orders| + 1], now)
  {
    assert forall i | 0 <= i < |orders| :: st[..|orders|][i] == st[i];
  }

  lemma OneMoreWritten(header: bytes, orders: seq<seq<Entry>>, order: seq<Entry>, now: int)
    ensures header + EncodeBlocks(BlocksOf(orders + [order]), now)
            == header + EncodeBlocks(BlocksOf(orders), now)
               + if order == [] then [] else EncodeBlock(Block(|orders|, order), now)
  {
    BlocksOfSnoc(orders, order, now);
    var part := if order == [] then [] else EncodeBlock(Block(|orders|, order), now);
    Regroup(header, EncodeBlocks(BlocksOf(orders), now), part, EncodeBlocks(BlocksOf(orders + [order]), now));
  }

  lemma Regroup(a: bytes, b: bytes, c: bytes, bc: bytes)
    requires bc == b + c
    ensures a + bc == a + b + c
  {
  }

  // ---------- Loading ----------

  datatype Outcome = Ok | Failed | Panic

  method KeepUnlessExpired(items: map<bytes, Item>, e: Entry, now: int, ghost order: seq<Entry>)
    returns (r: map<bytes, Item>)
    requires items == ItemsAt(order, now)
    ensures r == ItemsAt(order + [e], now)
  {
    assert (order + [e])[..|order|] == order;
    r := items;
    if !(e.item.expiration > 0 && now > e.item.expiration) {
      r := r[e.key := e.item];
    }
  }

  lemma AppendBehind<T>(x: T, xs: seq<T>, y: T)
    ensures [x] + (xs + [y]) == [x] + xs + [y]
  {
  }

  /** One item more, or the end of the input. */
  lemma {:induction false} OneMoreItem(s: bytes, i: nat, n: nat)
    requires i < n && ReadItems(s, i).Got?
    ensures match ReadItem(ReadItems(s, i).rest)
            case Got(e, rest) => ReadItems(s, i + 1) == Got(ReadItems(s, i).value + [e], rest)
            case Short => ReadItems(s, n) == Short
  {
    FirstItem(s, n);
    FirstItem(s, i + 1);
    if i == 0 {
      if ReadItem(s).Got? {
        assert [ReadItem(s).value] + [] == [] + [ReadItem(s).value];
      }
    } else {
      FirstItem(s, i);
      var e, s1 := ReadItem(s).value, ReadItem(s).rest;
      OneMoreItem(s1, i - 1, n - 1);
      var init := ReadItems(s1, i - 1);
      if ReadItem(init.rest).Got? {
        AppendBehind(e, init.value, ReadItem(init.rest).value);
      }
    }
  }

  /** Reads the items of a block into a map, leaving out what has expired. */
  method ReadItemMap(input: bytes, numItems: nat, now: int)
    returns (ok: bool, items: map<bytes, Item>, rest: bytes)
    ensures ok == ReadItems(input, numItems).Got?
    ensures ok ==> var r := ReadItems(input, numItems); items == ItemsAt(r.value, now) && rest == r.rest
  {
    items, rest := map[], input;
    ghost var order: seq<Entry> := [];
    var i := 0;
    while i < numItems
      invariant 0 <= i <= numItems
      invariant items == ItemsAt(order, now)
      invariant ReadItems(input, i) == Got(order, rest)
    {
      OneMoreItem(input, i, numItems);
      var r := ReadItem(rest);
      if r.Short? {
        return false, map[], [];
      }
      items := KeepUnlessExpired(items, r.value, now, order);
      order := order + [r.value];
      rest := r.rest;
      i := i + 1;
    }
    ok := true;
  }

  /** The blocks up to the first one whose shard does not exist. */
  function InRange(bs: seq<Block>, n: nat): (r: seq<Block>)
    ensures forall i | 0 <= i < |r| :: r[i].shard < n
  {
    if bs == [] || bs[0].shard >= n then [] else [bs[0]] + InRange(bs[1..], n)
  }

  lemma LoadsToSnoc(lim: Limits, st: seq<seq<Entry>>, bs: seq<Block>, b: Block, now: int,
                    mid: seq<seq<Entry>>, es: seq<Entry>)
    requires forall i | 0 <= i < |bs| :: bs[i].shard < |st|
    requires b.shard < |st| == |mid| && LoadsTo(lim, st, bs, now, mid)
    requires RestoresTo(lim, mid[b.shard], ItemsAt(b.items, now), es)
    ensures LoadsTo(lim, st, bs + [b], now, mid[b.shard := es])
  {
    var longer := bs + [b];
    var last := longer[|longer| - 1];
    assert longer[..|longer| - 1] == bs && last == b;
    assert |mid| == |st| && LoadsTo(lim, st, longer[..|longer| - 1], now, mid)
        && RestoresTo(lim, mid[last.shard], ItemsAt(last.items, now), es);
  }

  /** How loading the part of a file behind its header ends: a block that names a shard the
      cache does not have is an index panic before its items are read. */
  function Ending(s: bytes, shards: nat): Outcome
    decreases |s|
  {
    if s == [] then Ok
    else if |s| < 6 then Failed
    else if LEValue(s[..2]) >= shards then Panic
    else
      match ReadBlock(s)
      case Short => Failed
      case Got(_, rest) => Ending(rest, shards)
  }

  /** With every block in range a load succeeds exactly when the file ends where a block may
      begin; it panics only at a block out of range. */
  lemma {:induction false} EndingOfBlocks(s: bytes, shards: nat)
    ensures var f := ReadBlocks(s);
            && (Ending(s, shards) == Ok <==> f.ok && |InRange(f.blocks, shards)| == |f.blocks|)
            && (|InRange(f.blocks, shards)| < |f.blocks| ==> Ending(s, shards) == Panic)
    decreases |s|
  {
    if s != [] && ReadBlock(s).Got? {
      var b, rest := ReadBlock(s).value, ReadBlock(s).rest;
      EndingOfBlocks(rest, shards);
      var more := ReadBlocks(rest).blocks;
      assert ([b] + more)[1..] == more;
    }
  }

  /** The blocks that a load restores before it ends. */
  function Restorable(s: bytes, shards: nat): (bs: seq<Block>)
    ensures forall i | 0 <= i < |bs| :: bs[i].shard < shards
    decreases |s|
  {
    match ReadBlock(s)
    case Short => []
    case Got(b, rest) => if b.shard >= shards then [] else [b] + Restorable(rest, shards)
  }

  /** Reads one block, unless it names a shard that does not exist. */
  method ReadShard(input: bytes, shards: nat, now: int)
    returns (r: Outcome, id: nat, items: map<bytes, Item>, rest: bytes, ghost b: Block)
    requires input != []
    ensures r != Ok ==> Ending(input, shards) == r && Restorable(input, shards) == []
    ensures r == Ok ==> ReadBlock(input) == Got(b, rest) && Ending(input, shards) == Ending(rest, shards)
    ensures r == Ok ==> b.shard == id < shards && items == ItemsAt(b.items, now)
  {
    if |input| < 6 {
      return Failed, 0, map[], [], Block(0, []);
    }
    id := LEValue(input[..2]);
    var numItems := LEValue(input[2..6]);
    if id >= shards {
      return Panic, 0, map[], [], Block(0, []);
    }
    var ok;
    ok, items, rest := ReadItemMap(input[6..], numItems, now);
    r := if ok then Ok else Failed;
    b := Block(id, if ok then ReadItems(input[6..], numItems).value else []);
  }

  lemma {:induction false} RestorableIsInRange(s: bytes, shards: nat)
    ensures Restorable(s, shards) == InRange(ReadBlocks(s).blocks, shards)
    decreases |s|
  {
    if s != [] && ReadBlock(s).Got? {
      var b, rest := ReadBlock(s).value, ReadBlock(s).rest;
      RestorableIsInRange(rest, shards);
      assert ([b] + ReadBlocks(rest).blocks)[1..] == ReadBlocks(rest).blocks;
    }
  }

  /** The blocks `done`, those of `file` in front of `input`, have been restored into a cache
      that began as `st` and now holds `state`. */
  ghost predicate LoadedBy(lim: Limits, st: seq<seq<Entry>>, file: bytes, input: bytes, now: int,
                           state: seq<seq<Entry>>, done: seq<Block>)
  {
    && (forall i | 0 <= i < |done| :: done[i].shard < |st|)
    && LoadsTo(lim, st, done, now, state)
    && Restorable(file, |st|) == done + Restorable(input, |st|)
  }

  ghost predicate LoadedUpTo(lim: Limits, st: seq<seq<Entry>>, file: bytes, input: bytes, now: int,
                             state: seq<seq<Entry>>)
  {
    exists done :: LoadedBy(lim, st, file, input, now, state, done)
  }

  lemma NothingLoaded(lim: Limits, st: seq<seq<Entry>>, file: bytes, now: int)
    ensures LoadedUpTo(lim, st, file, file, now, st)
  {
    var none: seq<Block> := [];
    assert none + Restorable(file, |st|) == Restorable(file, |st|);
    assert LoadedBy(lim, st, file, file, now, st, none);
  }

  lemma OneMoreRestorable(done: seq<Block>, input: bytes, n: nat)
    requires ReadBlock(input).Got? && ReadBlock(input).value.shard < n
    ensures done + Restorable(input, n)
            == done + [ReadBlock(input).value] + Restorable(ReadBlock(input).rest, n)
  {
    var b, more := ReadBlock(input).value, Restorable(ReadBlock(input).rest, n);
    assert done + ([b] + more) == done + [b] + more;
  }

  /** One more block, restored in some order. */
  lemma OneMoreLoaded(lim: Limits, st: seq<seq<Entry>>, file: bytes, input: bytes, now: int,
                      state: seq<seq<Entry>>, es: seq<Entry>)
    requires ReadBlock(input).Got? && LoadedUpTo(lim, st, file, input, now, state)
    requires var b := ReadBlock(input).value;
             b.shard < |st| == |state| && RestoresTo(lim, state[b.shard], ItemsAt(b.items, now), es)
    ensures LoadedUpTo(lim, st, file, ReadBlock(input).rest, now, state[ReadBlock(input).value.shard := es])
  {
    var done :| LoadedBy(lim, st, file, input, now, state, done);
    LoadedByOneMore(lim, st, file, input, now, state, done, ReadBlock(input).value, ReadBlock(input).rest, es);
  }

  lemma LoadedByOneMore(lim: Limits, st: seq<seq<Entry>>, file: bytes, input: bytes, now: int,
                        state: seq<seq<Entry>>, done: seq<Block>, b: Block, rest: bytes, es: seq<Entry>)
    requires LoadedBy(lim, st, file, input, now, state, done) && ReadBlock(input) == Got(b, rest)
    requires b.shard < |st| == |state| && RestoresTo(lim, state[b.shard], ItemsAt(b.items, now), es)
    ensures LoadedBy(lim, st, file, rest, now, state[b.shard := es], done + [b])
  {
    OneMoreRestorable(done, input, |st|);
    LoadsToSnoc(lim, st, done, b, now, state, es);
  }

  lemma AllLoaded(lim: Limits, st: seq<seq<Entry>>, file: bytes, input: bytes, now: int, state: seq<seq<Entry>>)
    requires LoadedUpTo(lim, st, file, input, now, state) && Restorable(input, |st|) == []
    ensures LoadsTo(lim, st, Restorable(file, |st|), now, state)
  {
    var done :| LoadedBy(lim, st, file, input, now, state, done);
    assert done + [] == done;
  }

  /** Restores the block at the beginning of `input` into its shard. */
  method RestoreBlock(cache: C.Cache, id: nat, items: map<bytes, Item>, now: int,
                      ghost st: seq<seq<Entry>>, ghost file: bytes, ghost input: bytes)
    requires cache.Valid() && id < |cache.shards| == |st| && ReadBlock(input).Got?
    requires ReadBlock(input).value.shard == id && items == ItemsAt(ReadBlock(input).value.items, now)
    requires LoadedUpTo(cache.cfg.limits, st, file, input, now, cache.state)
    modifies cache.Repr
    ensures cache.Valid() && fresh(cache.Repr - old(cache.Repr))
    ensures LoadedUpTo(cache.cfg.limits, st, file, ReadBlock(input).rest, now, cache.state)
  {
    ghost var state := cache.state;
    var order := cache.RestoreShard(id, items);
    assert RestoresTo(cache.cfg.limits, state[id], items, cache.state[id]);
    OneMoreLoaded(cache.cfg.limits, st, file, input, now, state, cache.state[id]);
  }

  /** The part of `Load` behind the header. */
  method LoadBlocks(cache: C.Cache, file: bytes, now: int) returns (r: Outcome)
    requires cache.Valid()
    modifies cache.Repr
    ensures cache.Valid()
    ensures LoadsTo(cache.cfg.limits, old(cache.state), Restorable(file, |old(cache.state)|), now, cache.state)
    ensures r == Ending(file, |cache.shards|)
  {
    var input := file;
    ghost var st := cache.state;
    ghost var ending := Ending(file, |st|);
    NothingLoaded(cache.cfg.limits, st, file, now);
    while input != []
      invariant cache.Valid() && fresh(cache.Repr - old(cache.Repr)) && |st| == |cache.shards|
      invariant LoadedUpTo(cache.cfg.limits, st, file, input, now, cache.state)
      invariant Ending(input, |st|) == ending
      decreases |input|
    {
      var id, items, rest;
      ghost var b;
      r, id, items, rest, b := ReadShard(input, |cache.shards|, now);
      if r != Ok {
        AllLoaded(cache.cfg.limits, st, file, input, now, cache.state);
        return;
      }
      RestoreBlock(cache, id, items, now, st, file, input);
      input := rest;
    }
    AllLoaded(cache.cfg.limits, st, file, input, now, cache.state);
    return Ok;
  }

  method Load(cache: C.Cache, file: bytes, now: int) returns (r: Outcome)
    requires cache.Valid()
    modifies cache.Repr
    ensures cache.Valid()
    ensures LoadsTo(cache.cfg.limits, old(cache.state), InRange(ReadFile(file).blocks, |old(cache.state)|),
                    now, cache.state)
    ensures r == if HasHeader(file) then Ending(file[HEADER_LENGTH..], |cache.shards|) else Failed
  {
    if !HasHeader(file) {
      return Failed;
    }
    RestorableIsInRange(file[HEADER_LENGTH..], |cache.state|);
    r := LoadBlocks(cache, file[HEADER_LENGTH..], now);
  }

  // ---------- A save and a load together ----------

  /** What the length fields of the format can hold. */
  ghost predicate Savable(source: seq<seq<Entry>>) {
    && |source| <= 0x1_0000
    && forall i | 0 <= i < |source| ::
         && |source[i]| < 0x1_0000_0000
         && forall e | e in source[i] :: Small(e) && IsInt64(e.item.expiration)
  }

  lemma SnapshotIsStorable(shard: nat, order: seq<Entry>, es: seq<Entry>, now: int)
    requires Distinct(es) && SnapshotOf(order, es, now) && shard < 0x1_0000 && |es| < 0x1_0000_0000
    requires forall e | e in es :: Small(e) && IsInt64(e.item.expiration)
    ensures Storable(Block(shard, order))
  {
    forall e | e in order ensures e in es {
      SnapshotMembers(order, es, now, e);
    }
    PartFits(order, es);
    forall i | 0 <= i < |order| ensures Small(order[i]) && IsInt64(order[i].item.expiration) {
      assert order[i] in order;
    }
  }

  lemma {:induction false} AllInRange(bs: seq<Block>, n: nat)
    requires forall i | 0 <= i < |bs| :: bs[i].shard < n
    ensures InRange(bs, n) == bs
  {
    if bs != [] {
      AllInRange(bs[1..], n);
      assert bs == [bs[0]] + bs[1..];
    }
  }

  lemma SavedIsStorable(source: seq<seq<Entry>>, orders: seq<seq<Entry>>, now: int)
    requires Savable(source) && SavedFrom(orders, source, now)
    requires forall i | 0 <= i < |source| :: Distinct(source[i])
    ensures forall j | 0 <= j < |BlocksOf(orders)| :: Storable(BlocksOf(orders)[j])
  {
    var bs := BlocksOf(orders);
    BlocksOfOrders(orders);
    forall j | 0 <= j < |bs| ensures Storable(bs[j]) {
      var i := bs[j].shard;
      SnapshotIsStorable(i, orders[i], source[i], now);
      assert bs[j] == Block(i, orders[i]);
    }
  }

  /** The RDB round trip in terms of what `Save` and `Load` promise: a savable cache, saved at
      `now` and loaded at `later` into an empty cache of the same configuration, is loaded
      without error and revives every shard: exactly the live items, none evicted. */
  lemma SaveThenLoad(lim: Limits, source: seq<seq<Entry>>, file: bytes, now: int, later: int, after: seq<seq<Entry>>)
    requires forall i | 0 <= i < |source| :: Bounded(lim, source[i])
    requires Savable(source) && FileWritten(file, source, now) && 0 <= now <= later
    requires LoadsTo(lim, seq(|source|, _ => []), InRange(ReadFile(file).blocks, |source|), later, after)
    ensures HasHeader(file) && Ending(file[HEADER_LENGTH..], |source|) == Ok
    ensures |after| == |source| && forall i | 0 <= i < |source| :: Revived(after[i], source[i], later)
  {
    var orders :| SavedFrom(orders, source, now) && file == EncodeFile(orders, now);
    var bs := BlocksOf(orders);
    SavedIsStorable(source, orders, now);
    FileRoundTrip(orders, now);
    assert file[..6] == MAGIC && file[6] == VERSION;
    AllInRange(bs, |source|);
    EndingOfBlocks(file[HEADER_LENGTH..], |source|);
    SnapshotRoundTrip(lim, source, orders, now, later, after);
  }

  /** The same for a file of which only a beginning is left.  Cut within the header nothing is
      restored and the load fails.  Otherwise the shards of the complete blocks are revived,
      all others stay empty, and the load succeeds exactly when the cut is at a block boundary. */
  lemma CutThenLoad(lim: Limits, source: seq<seq<Entry>>, orders: seq<seq<Entry>>, now: int, later: int,
                    cut: bytes, after: seq<seq<Entry>>) returns (k: nat)
    requires forall i | 0 <= i < |source| :: Bounded(lim, source[i])
    requires Savable(source) && SavedFrom(orders, source, now) && 0 <= now <= later
    requires cut <= EncodeFile(orders, now)
    requires LoadsTo(lim, seq(|source|, _ => []), InRange(ReadFile(cut).blocks, |source|), later, after)
    ensures |cut| < HEADER_LENGTH ==> !HasHeader(cut) && after == seq(|source|, _ => [])
    ensures |cut| >= HEADER_LENGTH ==>
              && HasHeader(cut) && CutAfter(BlocksOf(orders), now, cut[HEADER_LENGTH..], k)
              && var bs := BlocksOf(orders)[..k];
                 && (Ending(cut[HEADER_LENGTH..], |source|) == Ok
                     <==> |cut| == HEADER_LENGTH + |EncodeBlocks(bs, now)|)
                 && |after| == |source|
                 && forall i | 0 <= i < |source| ::
                      if HasBlock(bs, i) then Revived(after[i], source[i], later) else after[i] == []
  {
    k := 0;
    if |cut| >= HEADER_LENGTH {
      SavedIsStorable(source, orders, now);
      CutHasHeader(orders, now, cut);
      CutIsInRange(source, orders, now, cut);
      AllInRange(ReadFile(cut).blocks, |source|);
      EndingOfBlocks(cut[HEADER_LENGTH..], |source|);
      k := CutSnapshotRevives(lim, source, orders, now, later, cut, after);
    }
  }

  lemma CutHasHeader(orders: seq<seq<Entry>>, now: int, cut: bytes)
    requires cut <= EncodeFile(orders, now) && |cut| >= HEADER_LENGTH
    ensures HasHeader(cut)
  {
    var file := EncodeFile(orders, now);
    assert file[..6] == MAGIC && file[6] == VERSION;
    assert cut[..6] == file[..6];
  }

  lemma CutIsInRange(source: seq<seq<Entry>>, orders: seq<seq<Entry>>, now: int, cut: bytes)
    requires SavedFrom(orders, source, now) && cut <= EncodeFile(orders, now) && |cut| >= HEADER_LENGTH
    requires forall j | 0 <= j < |BlocksOf(orders)| :: Storable(BlocksOf(orders)[j])
    ensures forall i | 0 <= i < |ReadFile(cut).blocks| :: ReadFile(cut).blocks[i].shard < |source|
  {
    var k := CutFileLoads(orders, now, cut);
  }
}
