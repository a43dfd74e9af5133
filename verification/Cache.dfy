/** The sharded cache of `internal/engine/cache.go` over whole runs.  The hash function is
    a parameter: everything here holds for every one. */
module Cache {
  import opened Bytes
  import opened Lru
  import opened Shard
  import opened Bits

  datatype Config = Config(limits: Limits, shards: nat, hash: bytes -> nat)

  // ---------- Choosing a shard ----------

  function Index(cfg: Config, key: bytes): (i: nat)
    requires cfg.shards > 0
    ensures i < cfg.shards
  {
    AndIsBelow(cfg.hash(key), cfg.shards - 1);
    And(cfg.hash(key), cfg.shards - 1)
  }

  /** With a shard count that `Validate` accepts, keys are spread by remainder. */
  lemma IndexIsModulo(cfg: Config, key: bytes)
    requires cfg.shards > 0 && And(cfg.shards, cfg.shards - 1) == 0
    ensures Index(cfg, key) == cfg.hash(key) % cfg.shards
  {
    ValidShardCount(cfg.shards);
    MaskIsModulo(cfg.hash(key), cfg.shards);
  }

  // ---------- Runs ----------

  /** One call at one time.  `Cleanup` is the background sweep of shard number `shard`;
      every other operation goes to the shard its key selects. */
  datatype Event = Event(op: Op, now: int, shard: nat)

  function Target(cfg: Config, ev: Event): nat
    requires cfg.shards > 0
  {
    if ev.op.Cleanup? then ev.shard else Index(cfg, ev.op.key)
  }

  /** The shards after a run from empty. */
  function After(cfg: Config, evs: seq<Event>): (st: seq<seq<Entry>>)
    requires cfg.shards > 0
    ensures |st| == cfg.shards
  {
    if evs == [] then seq(cfg.shards, _ => [])
    else
      var st, ev := After(cfg, evs[..|evs| - 1]), evs[|evs| - 1];
      var t := Target(cfg, ev);
      if t < cfg.shards then st[t := Next(cfg.limits, st[t], ev.op, ev.now)] else st
  }

  function FindAfter(cfg: Config, evs: seq<Event>, key: bytes): Option<Item>
    requires cfg.shards > 0
  {
    Find(After(cfg, evs)[Index(cfg, key)], key)
  }

  /** The reply to a read of `key` after a run. */
  function ReadAfter(cfg: Config, evs: seq<Event>, key: bytes, now: int): Reply
    requires cfg.shards > 0
  {
    Answers(After(cfg, evs)[Index(cfg, key)], Get(key), now)
  }

  function TtlAfter(cfg: Config, evs: seq<Event>, key: bytes, now: int): Reply
    requires cfg.shards > 0
  {
    Answers(After(cfg, evs)[Index(cfg, key)], Ttl(key), now)
  }

  /** Every key sits in the shard its hash selects, and every shard respects the limits. */
  predicate WellPlaced(cfg: Config, st: seq<seq<Entry>>)
    requires cfg.shards > 0
  {
    forall i | 0 <= i < |st| ::
      Bounded(cfg.limits, st[i]) && forall e | e in st[i] :: Index(cfg, e.key) == i
  }

  lemma NextMembers(lim: Limits, es: seq<Entry>, op: Op, now: int, e: Entry)
    requires e in Next(lim, es, op, now)
    ensures e in es || (op.Set? && e == Entry(op.key, NewItem(op.value, op.ttl, now)))
            || ((op.Get? || op.Ttl?) && e.key == op.key && Find(es, e.key).Some?)
  {
    match op
    case Set(k, v, ttl) =>
      var item := NewItem(v, ttl, now);
      var roomy := MakeRoom(es, Size(k, item), lim.maxMemory);
      MakeRoomKeepsPrefix(es, Size(k, item), lim.maxMemory);
      WithoutMembers(roomy, k);
    case Get(k) => WithoutMembers(es, k);
    case Ttl(k) => WithoutMembers(es, k);
    case Has(_) =>
    case Delete(k) => WithoutMembers(es, k);
    case Cleanup => UnexpiredMembers(es, now);
  }

  lemma {:induction false} AfterIsWellPlaced(cfg: Config, evs: seq<Event>)
    requires cfg.shards > 0
    ensures WellPlaced(cfg, After(cfg, evs))
  {
    if evs != [] {
      var st, ev := After(cfg, evs[..|evs| - 1]), evs[|evs| - 1];
      AfterIsWellPlaced(cfg, evs[..|evs| - 1]);
      var t := Target(cfg, ev);
      if t < cfg.shards {
        var next := Next(cfg.limits, st[t], ev.op, ev.now);
        NextIsBounded(cfg.limits, st[t], ev.op, ev.now);
        forall e | e in next ensures Index(cfg, e.key) == t {
          NextMembers(cfg.limits, st[t], ev.op, ev.now, e);
        }
      }
    }
  }

  // ---------- What one call of SCAN sees ----------

  /** The first shards have shown their unexpired keys in these orders. */
  ghost predicate ShownSoFar(orders: seq<seq<bytes>>, st: seq<seq<Entry>>, now: int) {
    |orders| <= |st| && forall i | 0 <= i < |orders| :: Enumerates(orders[i], st[i], now)
  }

  ghost predicate Shows(orders: seq<seq<bytes>>, st: seq<seq<Entry>>, now: int) {
    |orders| == |st| && ShownSoFar(orders, st, now)
  }

  /** Some order for every shard. */
  function SomeOrders(st: seq<seq<Entry>>, now: int): seq<seq<bytes>> {
    seq(|st|, i requires 0 <= i < |st| => KeyList(Unexpired(st[i], now)))
  }

  lemma SomeOrdersShow(seen: seq<seq<bytes>>, st: seq<seq<Entry>>, now: int)
    requires ShownSoFar(seen, st, now) && forall i | 0 <= i < |st| :: Distinct(st[i])
    ensures Shows(seen + SomeOrders(st[|seen|..], now), st, now)
  {
    var orders := seen + SomeOrders(st[|seen|..], now);
    forall i | 0 <= i < |st| ensures Enumerates(orders[i], st[i], now) {
      if i >= |seen| {
        RecencyOrderEnumerates(st[i], now);
      }
    }
  }

  // ---------- The cache is a map with deadlines ----------

  /** What the last `Set` of `key` that no `Delete` followed wrote. */
  function LastWrite(evs: seq<Event>, key: bytes): Option<Item> {
    if evs == [] then None
    else
      var ev := evs[|evs| - 1];
      match ev.op
      case Set(k, v, ttl) =>
        if k == key then Some(NewItem(v, ttl, ev.now)) else LastWrite(evs[..|evs| - 1], key)
      case Delete(k) => if k == key then None else LastWrite(evs[..|evs| - 1], key)
      case _ => LastWrite(evs[..|evs| - 1], key)
  }

  predicate InOrder(evs: seq<Event>) {
    forall i, j | 0 <= i < j < |evs| :: evs[i].now <= evs[j].now
  }

  /** The call is a Set that opens no eviction guard, or no Set at all. */
  predicate Harmless(cfg: Config, st: seq<seq<Entry>>, ev: Event)
    requires cfg.shards == |st| > 0
  {
    ev.op.Set? ==>
      EvictsNothing(cfg.limits, st[Index(cfg, ev.op.key)], Entry(ev.op.key, NewItem(ev.op.value, ev.op.ttl, ev.now)))
  }

  /** No Set of the run opens an eviction guard: what it holds fits within the limits. */
  predicate Roomy(cfg: Config, evs: seq<Event>)
    requires cfg.shards > 0
  {
    evs == []
    || (Roomy(cfg, evs[..|evs| - 1]) && Harmless(cfg, After(cfg, evs[..|evs| - 1]), evs[|evs| - 1]))
  }

  /** One step of the refinement: how the last event changes what is found. */
  lemma FindStep(cfg: Config, evs: seq<Event>, key: bytes)
    requires cfg.shards > 0 && evs != []
    ensures var before, after := FindAfter(cfg, evs[..|evs| - 1], key), FindAfter(cfg, evs, key);
            var ev := evs[|evs| - 1];
            match ev.op
            case Set(k, v, ttl) =>
              if k == key then after == Some(NewItem(v, ttl, ev.now))
              else (after.Some? ==> after == before)
                   && (Harmless(cfg, After(cfg, evs[..|evs| - 1]), ev) ==> after == before)
            case Delete(k) => after == if k == key then None else before
            case Has(_) => after == before
            case _ =>
              after == before || (after.None? && before.Some? && IsExpired(before.value, ev.now))
  {
    var st, ev := After(cfg, evs[..|evs| - 1]), evs[|evs| - 1];
    AfterIsWellPlaced(cfg, evs[..|evs| - 1]);
    var i := Index(cfg, key);
    if Target(cfg, ev) == i {
      NextFinds(cfg.limits, st[i], ev.op, ev.now, key);
    }
  }

  /** Under any evictions, what is found is what was last written. */
  lemma {:induction false} FoundWasWritten(cfg: Config, evs: seq<Event>, key: bytes)
    requires cfg.shards > 0
    ensures FindAfter(cfg, evs, key).Some? ==> FindAfter(cfg, evs, key) == LastWrite(evs, key)
  {
    if evs != [] {
      FindStep(cfg, evs, key);
      FoundWasWritten(cfg, evs[..|evs| - 1], key);
    }
  }

  /** Soundness of a hit: the value of the last write not followed by a delete, and never
      past its deadline, whatever was evicted or swept in between. */
  lemma HitIsLastWrite(cfg: Config, evs: seq<Event>, key: bytes, now: int)
    requires cfg.shards > 0 && ReadAfter(cfg, evs, key, now).Hit?
    ensures LastWrite(evs, key).Some? && !IsExpired(LastWrite(evs, key).value, now)
    ensures ReadAfter(cfg, evs, key, now).value == LastWrite(evs, key).value.value
  {
    FoundWasWritten(cfg, evs, key);
  }

  /** The `i`-th event is a Set of another key that pushes `key` out. */
  predicate EvictsAt(cfg: Config, evs: seq<Event>, i: nat, key: bytes)
    requires cfg.shards > 0 && i < |evs|
  {
    && evs[i].op.Set? && evs[i].op.key != key
    && FindAfter(cfg, evs[..i], key).Some? && FindAfter(cfg, evs[..i + 1], key).None?
  }

  predicate Writes(op: Op, key: bytes) {
    (op.Set? || op.Delete?) && op.key == key
  }

  predicate WritesAt(evs: seq<Event>, i: nat, key: bytes)
    requires i < |evs|
  {
    Writes(evs[i].op, key)
  }

  predicate UnwrittenSince(evs: seq<Event>, i: nat, key: bytes) {
    forall j | i < j < |evs| :: !WritesAt(evs, j, key)
  }

  /** The key was pushed out, and neither written nor deleted since. */
  ghost predicate Evicted(cfg: Config, evs: seq<Event>, key: bytes)
    requires cfg.shards > 0
  {
    exists i: nat | i < |evs| :: EvictsAt(cfg, evs, i, key) && UnwrittenSince(evs, i, key)
  }

  lemma EvictsAtBefore(cfg: Config, evs: seq<Event>, i: nat, key: bytes)
    requires cfg.shards > 0 && i < |evs| - 1
    ensures EvictsAt(cfg, evs, i, key) <==> EvictsAt(cfg, evs[..|evs| - 1], i, key)
  {
    var before := evs[..|evs| - 1];
    assert before[..i] == evs[..i] && before[..i + 1] == evs[..i + 1];
  }

  lemma UnwrittenOneMore(evs: seq<Event>, i: nat, key: bytes)
    requires i < |evs| - 1
    ensures UnwrittenSince(evs, i, key)
            <==> UnwrittenSince(evs[..|evs| - 1], i, key) && !Writes(evs[|evs| - 1].op, key)
  {
    var before := evs[..|evs| - 1];
    assert forall j | i < j < |before| :: WritesAt(before, j, key) == WritesAt(evs, j, key);
    assert WritesAt(evs, |evs| - 1, key) == Writes(evs[|evs| - 1].op, key);
  }

  lemma EvictedOneMore(cfg: Config, evs: seq<Event>, key: bytes)
    requires cfg.shards > 0 && evs != []
    ensures var n := |evs| - 1;
            Evicted(cfg, evs, key)
            <==> EvictsAt(cfg, evs, n, key) || (Evicted(cfg, evs[..n], key) && !Writes(evs[n].op, key))
  {
    var n := |evs| - 1;
    assert UnwrittenSince(evs, n, key);
    if Evicted(cfg, evs, key) {
      var i: nat :| i < |evs| && EvictsAt(cfg, evs, i, key) && UnwrittenSince(evs, i, key);
      if i < n {
        EvictsAtBefore(cfg, evs, i, key);
        UnwrittenOneMore(evs, i, key);
      }
    } else if Evicted(cfg, evs[..n], key) {
      var i: nat :| i < n && EvictsAt(cfg, evs[..n], i, key) && UnwrittenSince(evs[..n], i, key);
      EvictsAtBefore(cfg, evs, i, key);
      UnwrittenOneMore(evs, i, key);
    }
  }

  lemma {:induction false} EvictedIsMissing(cfg: Config, evs: seq<Event>, key: bytes)
    requires cfg.shards > 0 && Evicted(cfg, evs, key)
    ensures FindAfter(cfg, evs, key).None?
  {
    var n := |evs| - 1;
    assert evs[..n + 1] == evs;
    EvictedOneMore(cfg, evs, key);
    if !EvictsAt(cfg, evs, n, key) {
      EvictedIsMissing(cfg, evs[..n], key);
      FindStep(cfg, evs, key);
    }
  }

  lemma {:induction false} MissingIsExpiredOrEvicted(cfg: Config, evs: seq<Event>, key: bytes)
    requires cfg.shards > 0 && InOrder(evs)
    ensures FindAfter(cfg, evs, key).None? && LastWrite(evs, key).Some? ==>
              evs != [] && (IsExpired(LastWrite(evs, key).value, evs[|evs| - 1].now) || Evicted(cfg, evs, key))
  {
    if evs != [] {
      var before := evs[..|evs| - 1];
      assert evs[..|evs|] == evs;
      FindStep(cfg, evs, key);
      FoundWasWritten(cfg, before, key);
      MissingIsExpiredOrEvicted(cfg, before, key);
      EvictedOneMore(cfg, evs, key);
      if before != [] {
        assert before[|before| - 1] == evs[|evs| - 2];
      }
    }
  }

  /** Exactly when a read differs from the map with deadlines, under any limits: when the
      last write is still alive, but a Set of another key has pushed it out since. */
  lemma ReadsDifferExactly(cfg: Config, evs: seq<Event>, key: bytes, now: int)
    requires cfg.shards > 0 && InOrder(evs)
    requires evs != [] ==> evs[|evs| - 1].now <= now
    ensures var last := LastWrite(evs, key);
            var lost := last.Some? && !IsExpired(last.value, now) && Evicted(cfg, evs, key);
            && (ReadAfter(cfg, evs, key, now) != GetAnswer(last, now) <==> lost)
            && (TtlAfter(cfg, evs, key, now) != TtlAnswer(last, now) <==> lost)
  {
    FoundWasWritten(cfg, evs, key);
    MissingIsExpiredOrEvicted(cfg, evs, key);
    if Evicted(cfg, evs, key) {
      EvictedIsMissing(cfg, evs, key);
    }
  }

  lemma {:induction false} RoomyEvictsNothing(cfg: Config, evs: seq<Event>, key: bytes)
    requires cfg.shards > 0 && Roomy(cfg, evs)
    ensures !Evicted(cfg, evs, key)
  {
    if evs != [] {
      assert evs[..|evs|] == evs;
      RoomyEvictsNothing(cfg, evs[..|evs| - 1], key);
      EvictedOneMore(cfg, evs, key);
      FindStep(cfg, evs, key);
    }
  }

  /** With a clock that never runs backwards and no eviction guard opened, the cache is the
      map: hits, misses and remaining times are those of the last write. */
  lemma RoomyCacheIsTheMap(cfg: Config, evs: seq<Event>, key: bytes, now: int)
    requires cfg.shards > 0 && Roomy(cfg, evs) && InOrder(evs)
    requires evs != [] ==> evs[|evs| - 1].now <= now
    ensures ReadAfter(cfg, evs, key, now) == GetAnswer(LastWrite(evs, key), now)
    ensures TtlAfter(cfg, evs, key, now) == TtlAnswer(LastWrite(evs, key), now)
  {
    RoomyEvictsNothing(cfg, evs, key);
    ReadsDifferExactly(cfg, evs, key, now);
  }

  /** The run without its background sweeps. */
  function Unswept(evs: seq<Event>): seq<Event> {
    if evs == [] then []
    else
      var rest, ev := Unswept(evs[..|evs| - 1]), evs[|evs| - 1];
      if ev.op.Cleanup? then rest else rest + [ev]
  }

  lemma {:induction false} UnsweptIsInOrder(evs: seq<Event>)
    requires InOrder(evs)
    ensures InOrder(Unswept(evs))
    ensures forall ev | ev in Unswept(evs) :: ev in evs
  {
    if evs != [] {
      var rest := Unswept(evs[..|evs| - 1]);
      UnsweptIsInOrder(evs[..|evs| - 1]);
      assert forall i | 0 <= i < |rest| :: rest[i] in rest;
    }
  }

  lemma {:induction false} UnsweptWritesTheSame(evs: seq<Event>, key: bytes)
    ensures LastWrite(Unswept(evs), key) == LastWrite(evs, key)
  {
    if evs != [] {
      UnsweptWritesTheSame(evs[..|evs| - 1], key);
      var rest, ev := Unswept(evs[..|evs| - 1]), evs[|evs| - 1];
      assert (rest + [ev])[..|rest|] == rest;
    }
  }

  /** Background sweeps and the number of shards are invisible: while nothing is evicted, two caches
      that see the same calls answer every GET and TTL alike, however differently they are
      sharded and whenever their sweeps run. */
  lemma SweepsAndShardsAreInvisible(cfg: Config, evs: seq<Event>, cfg': Config, evs': seq<Event>,
                                    key: bytes, now: int)
    requires cfg.shards > 0 && cfg'.shards > 0 && Roomy(cfg, evs) && Roomy(cfg', evs')
    requires InOrder(evs) && InOrder(evs') && Unswept(evs) == Unswept(evs')
    requires forall ev | ev in evs || ev in evs' :: ev.now <= now
    ensures ReadAfter(cfg, evs, key, now) == ReadAfter(cfg', evs', key, now)
    ensures TtlAfter(cfg, evs, key, now) == TtlAfter(cfg', evs', key, now)
  {
    UnsweptWritesTheSame(evs, key);
    UnsweptWritesTheSame(evs', key);
    RoomyCacheIsTheMap(cfg, evs, key, now);
    RoomyCacheIsTheMap(cfg', evs', key, now);
  }

  // ---------- Where a sweep shows ----------

  /** EXISTS and DEL do not look at deadlines.  A sweep changes their answer about a key,
      exactly: if the key is held and past its deadline at the time of the sweep. */
  lemma SweepShowsExactly(es: seq<Entry>, op: Op, t: int, now: int)
    requires Distinct(es) && (op.Has? || op.Delete?)
    ensures Answers(Unexpired(es, t), op, now) != Answers(es, op, now)
            <==> Find(es, op.key).Some? && IsExpired(Find(es, op.key).value, t)
  {
    FindUnexpired(es, t, op.key);
  }

  /** The same for a sweep behind any run, of whatever shard. */
  lemma SweepShowsInRun(cfg: Config, evs: seq<Event>, op: Op, t: int, shard: nat, now: int)
    requires cfg.shards > 0 && (op.Has? || op.Delete?)
    ensures var i, found := Index(cfg, op.key), FindAfter(cfg, evs, op.key);
            Answers(After(cfg, evs + [Event(Cleanup, t, shard)])[i], op, now) != Answers(After(cfg, evs)[i], op, now)
            <==> shard == i && found.Some? && IsExpired(found.value, t)
  {
    var swept := evs + [Event(Cleanup, t, shard)];
    assert swept[..|swept| - 1] == evs;
    AfterIsWellPlaced(cfg, evs);
    SweepShowsExactly(After(cfg, evs)[Index(cfg, op.key)], op, t, now);
  }

  /** Over whole runs: while nothing is evicted, two caches that see the same calls hold the
      same item under a key unless its last write is past its deadline.  So EXISTS, DEL and
      MSETNX, too, answer alike for all other keys. */
  lemma SweepsShowOnlyInExpired(cfg: Config, evs: seq<Event>, cfg': Config, evs': seq<Event>, key: bytes, now: int)
    requires cfg.shards > 0 && cfg'.shards > 0 && Roomy(cfg, evs) && Roomy(cfg', evs')
    requires InOrder(evs) && InOrder(evs') && Unswept(evs) == Unswept(evs')
    requires forall ev | ev in evs || ev in evs' :: ev.now <= now
    ensures FindAfter(cfg, evs, key) == FindAfter(cfg', evs', key)
            || (LastWrite(evs, key).Some? && IsExpired(LastWrite(evs, key).value, now))
  {
    UnsweptWritesTheSame(evs, key);
    UnsweptWritesTheSame(evs', key);
    HeldUnlessExpired(cfg, evs, key, now);
    HeldUnlessExpired(cfg', evs', key, now);
  }

  lemma HeldUnlessExpired(cfg: Config, evs: seq<Event>, key: bytes, now: int)
    requires cfg.shards > 0 && Roomy(cfg, evs) && InOrder(evs)
    requires forall ev | ev in evs :: ev.now <= now
    ensures FindAfter(cfg, evs, key) == LastWrite(evs, key)
            || (LastWrite(evs, key).Some? && IsExpired(LastWrite(evs, key).value, now))
  {
    FoundWasWritten(cfg, evs, key);
    RoomyEvictsNothing(cfg, evs, key);
    MissingIsExpiredOrEvicted(cfg, evs, key);
    if evs != [] {
      assert evs[|evs| - 1] in evs;
    }
  }

  // ---------- Size ----------

  function AllKeys(st: seq<seq<Entry>>): set<bytes> {
    if st == [] then {} else Keys(st[0]) + AllKeys(st[1..])
  }

  function TotalSize(st: seq<seq<Entry>>): nat {
    if st == [] then 0 else |st[0]| + TotalSize(st[1..])
  }

  lemma {:induction false} KeysCount(es: seq<Entry>)
    requires Distinct(es)
    ensures |Keys(es)| == |es|
  {
    if es != [] {
      KeysCount(es[1..]);
      KeysOfTail(es);
      assert es[0].key !in Keys(es[1..]);
    }
  }

  /** The shards `st` are those from number `from` on. */
  predicate PlacedFrom(cfg: Config, st: seq<seq<Entry>>, from: nat)
    requires cfg.shards > 0
  {
    forall i | 0 <= i < |st| ::
      Bounded(cfg.limits, st[i]) && forall e | e in st[i] :: Index(cfg, e.key) == from + i
  }

  lemma {:induction false} SizeFrom(cfg: Config, st: seq<seq<Entry>>, from: nat)
    requires cfg.shards > 0 && PlacedFrom(cfg, st, from)
    ensures |AllKeys(st)| == TotalSize(st)
    ensures forall k | k in AllKeys(st) :: Index(cfg, k) >= from
    decreases |st|
  {
    if st != [] {
      forall i | 0 <= i < |st[1..]| ensures st[1..][i] == st[i + 1] {
      }
      SizeFrom(cfg, st[1..], from + 1);
      KeysCount(st[0]);
      forall k | k in Keys(st[0]) ensures Index(cfg, k) == from {
      }
      assert Keys(st[0]) !! AllKeys(st[1..]);
    }
  }

  lemma {:induction false} SizeIsWithin(capacity: nat, st: seq<seq<Entry>>)
    requires forall i | 0 <= i < |st| :: |st[i]| <= capacity
    ensures TotalSize(st) <= capacity * |st|
  {
    if st != [] {
      SizeIsWithin(capacity, st[1..]);
      assert capacity * |st| == capacity + capacity * |st[1..]|;
    }
  }

  /** `Size` counts every key once, and never exceeds `TotalCapacity`. */
  lemma SizeIsExact(cfg: Config, evs: seq<Event>)
    requires cfg.shards > 0
    ensures var st := After(cfg, evs);
            && TotalSize(st) == |AllKeys(st)|
            && (cfg.limits.capacity > 0 ==> TotalSize(st) <= cfg.limits.capacity * cfg.shards)
  {
    var st := After(cfg, evs);
    AfterIsWellPlaced(cfg, evs);
    SizeFrom(cfg, st, 0);
    if cfg.limits.capacity > 0 {
      SizeIsWithin(cfg.limits.capacity, st);
    }
  }
}
