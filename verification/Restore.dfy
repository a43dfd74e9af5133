/** From the blocks of a snapshot back to a cache: restoring never evicts, and gives
    exactly the items that are still alive. */
module Restore {
  import opened Bytes
  import opened Lru
  import opened Rdb
  import S = Shard

  /** The item map that `Load` collects from a block at time `now`. */
  function ItemsAt(es: seq<Entry>, now: int): map<bytes, Item> {
    if es == [] then map[]
    else
      var m, e := ItemsAt(es[..|es| - 1], now), es[|es| - 1];
      if e.item.expiration > 0 && now > e.item.expiration then m else m[e.key := e.item]
  }

  /** `Shard.Restore` adds the items of a map in some order. */
  ghost predicate RestoresTo(lim: Limits, before: seq<Entry>, items: map<bytes, Item>, after: seq<Entry>) {
    exists order :: Lists(order, items) && after == AddAll(lim, before, order)
  }

  /** The blocks are restored one after the other, each into its shard. */
  ghost predicate LoadsTo(lim: Limits, st: seq<seq<Entry>>, bs: seq<Block>, now: int, after: seq<seq<Entry>>)
    requires forall i | 0 <= i < |bs| :: bs[i].shard < |st|
  {
    if bs == [] then after == st
    else
      var last := bs[|bs| - 1];
      exists mid: seq<seq<Entry>>, es: seq<Entry> ::
        |mid| == |st| && LoadsTo(lim, st, bs[..|bs| - 1], now, mid)
        && RestoresTo(lim, mid[last.shard], ItemsAt(last.items, now), es)
        && after == mid[last.shard := es]
  }

  // ---------- Restoring does not evict ----------

  /** Entries that fit within the limits all together. */
  predicate Fits(lim: Limits, es: seq<Entry>) {
    && (lim.capacity > 0 ==> |es| <= lim.capacity)
    && (lim.maxMemory > 0 ==> Mem(es) <= lim.maxMemory || |es| <= 1)
  }

  lemma {:induction false} MemMono(es: seq<Entry>, e: Entry)
    ensures Mem(es + [e]) == Mem(es) + Size(e.key, e.item)
  {
    MemAppend(es, [e]);
  }

  /** One more entry that fits with the rest pushes nothing out. */
  lemma AddToRoomy(lim: Limits, es: seq<Entry>, e: Entry)
    requires Find(es, e.key).None?
    requires lim.capacity > 0 ==> |es| < lim.capacity
    requires lim.maxMemory > 0 ==> Mem(es) + Size(e.key, e.item) <= lim.maxMemory || es == []
    ensures Add(lim, es, e) == [e] + es
  {
  }

  lemma LastIsNew(init: seq<Entry>, e: Entry)
    requires Distinct(init + [e])
    ensures Distinct(init) && e.key !in ToMap(init)
  {
    var order := init + [e];
    assert order[|init|] == e;
    forall i, j | 0 <= i < j < |init| ensures init[i].key != init[j].key {
      assert order[i] == init[i] && order[j] == init[j];
    }
    assert forall i | 0 <= i < |init| :: order[i] == init[i];
    ToMapFinds(init, e.key);
    FindIff(init, e.key);
  }

  /** Every partial sum stays within both limits, so nothing is evicted. */
  lemma {:induction false} RestoreKeepsAll(lim: Limits, order: seq<Entry>)
    requires Distinct(order) && Fits(lim, order)
    ensures var es := AddAll(lim, [], order);
            |es| == |order| && Mem(es) == Mem(order) && ToMap(es) == ToMap(order)
  {
    if order != [] {
      var init, e := order[..|order| - 1], order[|order| - 1];
      assert order == init + [e];
      MemMono(init, e);
      RestoreKeepsAll(lim, init);
      var es := AddAll(lim, [], init);
      LastIsNew(init, e);
      ToMapFinds(es, e.key);
      AddToRoomy(lim, es, e);
      MemInFront(e, es);
      ToMapSnoc(init, e);
      assert ([e] + es)[1..] == es;
    }
  }

  /** A list of items taken from a shard that respects the limits fits, too. */
  lemma PartOfBoundedFits(lim: Limits, part: seq<Entry>, es: seq<Entry>)
    requires Bounded(lim, es) && Distinct(part)
    requires forall e | e in part :: e in es
    ensures Fits(lim, part)
  {
    PartFits(part, es);
  }

  // ---------- Which items come back ----------

  /** A snapshot of a shard taken at time `now`: its unexpired items, in some order. */
  ghost predicate SnapshotOf(order: seq<Entry>, es: seq<Entry>, now: int) {
    Lists(order, ToMap(S.Unexpired(es, now)))
  }

  lemma {:induction false} ToMapOfMember(es: seq<Entry>, e: Entry)
    requires Distinct(es)
    ensures e in es <==> e.key in ToMap(es) && ToMap(es)[e.key] == e.item
  {
    ToMapFinds(es, e.key);
    FindIff(es, e.key);
    if e in es {
      FindOfMember(es, e);
    }
  }

  lemma SnapshotMembers(order: seq<Entry>, es: seq<Entry>, now: int, e: Entry)
    requires Distinct(es) && SnapshotOf(order, es, now)
    ensures e in order <==> e in es && !S.IsExpired(e.item, now)
  {
    ToMapOfMember(order, e);
    S.UnexpiredIsBounded(UNLIMITED, es, now);
    ToMapOfMember(S.Unexpired(es, now), e);
    S.UnexpiredMembers(es, now);
  }

  lemma {:induction false} ItemsAtFinds(es: seq<Entry>, now: int, k: bytes)
    requires Distinct(es)
    ensures k in ItemsAt(es, now) <==>
              exists e :: e in es && e.key == k && !(e.item.expiration > 0 && now > e.item.expiration)
    ensures k in ItemsAt(es, now) ==> Entry(k, ItemsAt(es, now)[k]) in es
  {
    if es != [] {
      var init, last := es[..|es| - 1], es[|es| - 1];
      assert es == init + [last];
      ItemsAtFinds(init, now, k);
      if last.key == k {
        forall e | e in init ensures e.key != k {
          var i :| 0 <= i < |init| && init[i] == e;
          assert es[i].key != es[|es| - 1].key;
        }
      }
    }
  }

  /** Loading a block later finds exactly the items of the shard that are alive then. */
  lemma LiveItemsComeBack(order: seq<Entry>, es: seq<Entry>, now: int, later: int)
    requires Distinct(es) && SnapshotOf(order, es, now) && 0 <= now <= later
    ensures ItemsAt(order, later) == ToMap(S.Unexpired(es, later))
  {
    var m, alive := ItemsAt(order, later), S.Unexpired(es, later);
    S.UnexpiredIsBounded(UNLIMITED, es, later);
    S.UnexpiredMembers(es, later);
    forall k ensures k in m <==> Find(alive, k).Some?
             ensures k in m ==> Find(alive, k) == Some(m[k]) {
      ItemsAtFinds(order, later, k);
      FindIff(alive, k);
      if k in m {
        var e := Entry(k, m[k]);
        ItemsAtIsAlive(order, later, k);
        SnapshotMembers(order, es, now, e);
        FindOfMember(alive, e);
      }
      if Find(alive, k).Some? {
        var e := Entry(k, Find(alive, k).value);
        SnapshotMembers(order, es, now, e);
      }
    }
    SameFindsSameMap(alive, m);
  }

  lemma {:induction false} ItemsAtIsAlive(es: seq<Entry>, now: int, k: bytes)
    requires k in ItemsAt(es, now)
    ensures !(ItemsAt(es, now)[k].expiration > 0 && now > ItemsAt(es, now)[k].expiration)
  {
    var init, last := es[..|es| - 1], es[|es| - 1];
    if k in ItemsAt(init, now) {
      ItemsAtIsAlive(init, now, k);
    }
  }

  // ---------- Whole snapshots ----------

  /** The blocks are snapshots, taken at `now`, of different shards of `source`. */
  ghost predicate Snapshots(bs: seq<Block>, source: seq<seq<Entry>>, now: int) {
    && (forall j | 0 <= j < |bs| :: bs[j].shard < |source| && SnapshotOf(bs[j].items, source[bs[j].shard], now))
    && (forall i, j | 0 <= i < j < |bs| :: bs[i].shard < bs[j].shard)
  }

  ghost predicate HasBlock(bs: seq<Block>, i: nat) {
    exists j | 0 <= j < |bs| :: bs[j].shard == i
  }

  /** `es` holds exactly the items of `origin` that are alive at `later`, each once. */
  ghost predicate Revived(es: seq<Entry>, origin: seq<Entry>, later: int) {
    ToMap(es) == ToMap(S.Unexpired(origin, later)) && |es| == |S.Unexpired(origin, later)|
  }

  lemma ShardRevives(lim: Limits, origin: seq<Entry>, items: seq<Entry>, now: int, later: int, es: seq<Entry>)
    requires Bounded(lim, origin) && SnapshotOf(items, origin, now) && 0 <= now <= later
    requires RestoresTo(lim, [], ItemsAt(items, later), es)
    ensures Revived(es, origin, later)
  {
    LiveItemsComeBack(items, origin, now, later);
    var alive := S.Unexpired(origin, later);
    var order :| Lists(order, ToMap(alive)) && es == AddAll(lim, [], order);
    S.UnexpiredIsBounded(lim, origin, later);
    forall e ensures e in order <==> e in alive {
      ToMapOfMember(order, e);
      ToMapOfMember(alive, e);
    }
    PartFits(order, alive);
    PartFits(alive, order);
    PartOfBoundedFits(lim, order, alive);
    RestoreKeepsAll(lim, order);
  }

  lemma OneMoreRevived(lim: Limits, source: seq<seq<Entry>>, bs: seq<Block>, mid: seq<seq<Entry>>, es: seq<Entry>,
                       later: int)
    requires bs != [] && |mid| == |source| && bs[|bs| - 1].shard < |source|
    requires var init := bs[..|bs| - 1];
             forall i | 0 <= i < |source| ::
               if HasBlock(init, i) then Revived(mid[i], source[i], later) else mid[i] == []
    requires Revived(es, source[bs[|bs| - 1].shard], later)
    ensures var after := mid[bs[|bs| - 1].shard := es];
            forall i | 0 <= i < |source| ::
              if HasBlock(bs, i) then Revived(after[i], source[i], later) else after[i] == []
  {
    forall i | 0 <= i < |source|
      ensures HasBlock(bs, i) <==> HasBlock(bs[..|bs| - 1], i) || i == bs[|bs| - 1].shard
    {
      HasBlockSnoc(bs, i);
    }
  }

  /** Loading some blocks of a snapshot into an empty cache revives exactly their shards. */
  lemma {:induction false} BlocksRevive(lim: Limits, source: seq<seq<Entry>>, bs: seq<Block>,
                                        now: int, later: int, after: seq<seq<Entry>>)
    requires forall i | 0 <= i < |source| :: Bounded(lim, source[i])
    requires Snapshots(bs, source, now) && 0 <= now <= later
    requires LoadsTo(lim, seq(|source|, _ => []), bs, later, after)
    ensures |after| == |source|
    ensures forall i | 0 <= i < |source| ::
              if HasBlock(bs, i) then Revived(after[i], source[i], later) else after[i] == []
  {
    if bs != [] {
      var n := |bs| - 1;
      var init, last := bs[..n], bs[n];
      var mid: seq<seq<Entry>>, es: seq<Entry> :|
        |mid| == |source| && LoadsTo(lim, seq(|source|, _ => []), init, later, mid)
        && RestoresTo(lim, mid[last.shard], ItemsAt(last.items, later), es)
        && after == mid[last.shard := es];
      BlocksRevive(lim, source, init, now, later, mid);
      forall j | 0 <= j < |init| ensures init[j].shard < last.shard {
        assert bs[j].shard < bs[n].shard;
      }
      assert !HasBlock(init, last.shard);
      ShardRevives(lim, source[last.shard], last.items, now, later, es);
      OneMoreRevived(lim, source, bs, mid, es, later);
    }
  }

  lemma HasBlockSnoc(bs: seq<Block>, i: nat)
    requires bs != []
    ensures HasBlock(bs, i) <==> HasBlock(bs[..|bs| - 1], i) || bs[|bs| - 1].shard == i
  {
    var init := bs[..|bs| - 1];
    forall j | 0 <= j < |bs| && bs[j].shard == i ensures HasBlock(init, i) || bs[|bs| - 1].shard == i {
      if j < |init| {
        assert init[j] == bs[j];
      }
    }
    forall j | 0 <= j < |init| && init[j].shard == i ensures HasBlock(bs, i) {
      assert init[j] == bs[j];
    }
  }

  /** `orders` is what a save of the cache `source` at `now` may have visited. */
  ghost predicate SavedFrom(orders: seq<seq<Entry>>, source: seq<seq<Entry>>, now: int) {
    |orders| == |source| && forall i | 0 <= i < |source| :: SnapshotOf(orders[i], source[i], now)
  }

  lemma {:induction false} BlocksOfOrders(orders: seq<seq<Entry>>)
    ensures forall j | 0 <= j < |BlocksOf(orders)| ::
              BlocksOf(orders)[j].items == orders[BlocksOf(orders)[j].shard]
    ensures forall i, j | 0 <= i < j < |BlocksOf(orders)| ::
              BlocksOf(orders)[i].shard < BlocksOf(orders)[j].shard
    ensures forall i | 0 <= i < |orders| && orders[i] != [] :: HasBlock(BlocksOf(orders), i)
  {
    if orders != [] {
      var n := |orders| - 1;
      var init := BlocksOf(orders[..n]);
      BlocksOfOrders(orders[..n]);
      var all := BlocksOf(orders);
      assert forall j | 0 <= j < |init| :: all[j] == init[j];
      forall i | 0 <= i < |orders| && orders[i] != [] ensures HasBlock(all, i) {
        if i < n {
          assert orders[..n][i] == orders[i];
          var j :| 0 <= j < |init| && init[j].shard == i;
          assert all[j].shard == i;
        } else {
          assert all[|init|].shard == i;
        }
      }
    }
  }

  lemma SavedBlocksAreSnapshots(orders: seq<seq<Entry>>, source: seq<seq<Entry>>, now: int, k: nat)
    requires SavedFrom(orders, source, now) && k <= |BlocksOf(orders)|
    ensures Snapshots(BlocksOf(orders)[..k], source, now)
  {
    BlocksOfOrders(orders);
  }

  /** A shard without a block had nothing that could be alive later. */
  lemma EmptySnapshot(es: seq<Entry>, now: int, later: int)
    requires Distinct(es) && SnapshotOf([], es, now) && 0 <= now <= later
    ensures S.Unexpired(es, later) == []
  {
    S.UnexpiredMembers(es, later);
    if S.Unexpired(es, later) != [] {
      var e := S.Unexpired(es, later)[0];
      assert e in S.Unexpired(es, later);
      SnapshotMembers([], es, now, e);
    }
  }

  /** The RDB round trip.  Save any cache at `now`, load the file at `later` into an empty
      cache of the same configuration, in whatever order either side visits its maps: every
      shard holds exactly the items still alive, with the same values and deadlines, and
      none was evicted on the way. */
  lemma SnapshotRoundTrip(lim: Limits, source: seq<seq<Entry>>, orders: seq<seq<Entry>>,
                          now: int, later: int, after: seq<seq<Entry>>)
    requires forall i | 0 <= i < |source| :: Bounded(lim, source[i])
    requires SavedFrom(orders, source, now) && 0 <= now <= later
    requires forall j | 0 <= j < |BlocksOf(orders)| :: Storable(BlocksOf(orders)[j])
    requires LoadsTo(lim, seq(|source|, _ => []), BlocksOf(orders), later, after)
    ensures ReadFile(EncodeFile(orders, now)) == Loaded(BlocksOf(orders), true)
    ensures |after| == |source| && forall i | 0 <= i < |source| :: Revived(after[i], source[i], later)
  {
    var bs := BlocksOf(orders);
    FileRoundTrip(orders, now);
    assert bs[..|bs|] == bs;
    SavedBlocksAreSnapshots(orders, source, now, |bs|);
    BlocksRevive(lim, source, bs, now, later, after);
    forall i | 0 <= i < |source| ensures Revived(after[i], source[i], later) {
      BlocksOfOrders(orders);
      if !HasBlock(bs, i) {
        assert orders[i] == [];
        EmptySnapshot(source[i], now, later);
      }
    }
  }

  /** Loading a cut-off snapshot: the shards whose blocks are complete are revived, all
      others stay empty, and the load reports success only at a block boundary. */
  lemma CutSnapshotRevives(lim: Limits, source: seq<seq<Entry>>, orders: seq<seq<Entry>>, now: int,
                           later: int, cut: bytes, after: seq<seq<Entry>>) returns (k: nat)
    requires forall i | 0 <= i < |source| :: Bounded(lim, source[i])
    requires SavedFrom(orders, source, now) && 0 <= now <= later
    requires forall j | 0 <= j < |BlocksOf(orders)| :: Storable(BlocksOf(orders)[j])
    requires cut <= EncodeFile(orders, now) && |cut| >= HEADER_LENGTH
    requires forall i | 0 <= i < |ReadFile(cut).blocks| :: ReadFile(cut).blocks[i].shard < |source|
    requires LoadsTo(lim, seq(|source|, _ => []), ReadFile(cut).blocks, later, after)
    ensures CutAfter(BlocksOf(orders), now, cut[HEADER_LENGTH..], k)
    ensures var bs := BlocksOf(orders)[..k];
            && ReadFile(cut).ok == (|cut| == HEADER_LENGTH + |EncodeBlocks(bs, now)|)
            && |after| == |source|
            && forall i | 0 <= i < |source| ::
                 if HasBlock(bs, i) then Revived(after[i], source[i], later) else after[i] == []
  {
    k := CutFileLoads(orders, now, cut);
    SavedBlocksAreSnapshots(orders, source, now, k);
    BlocksRevive(lim, source, BlocksOf(orders)[..k], now, later, after);
  }
}
