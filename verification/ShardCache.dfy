/** `internal/engine/shard.go` and `cache.go` in their own form: a shard wraps an LRU, the
    cache routes each key to one shard.  The methods are tied to what modules `Shard` and
    `Cache` compute. */
module ShardCache {
  import opened Bytes
  import opened Lru
  import opened LruCache
  import opened Scan
  import S = Shard
  import C = Cache

  /** The entries left when the expired ones among the keys `done` are gone. */
  function Swept(es: seq<Entry>, done: set<bytes>, now: int): seq<Entry> {
    if es == [] then []
    else if es[0].key in done && S.IsExpired(es[0].item, now) then Swept(es[1..], done, now)
    else [es[0]] + Swept(es[1..], done, now)
  }

  lemma {:induction false} SweptNothing(es: seq<Entry>, now: int)
    ensures Swept(es, {}, now) == es
  {
    if es != [] {
      SweptNothing(es[1..], now);
    }
  }

  lemma {:induction false} SweptAll(es: seq<Entry>, done: set<bytes>, now: int)
    requires Keys(es) <= done
    ensures Swept(es, done, now) == S.Unexpired(es, now)
  {
    if es != [] {
      KeysOfTail(es);
      SweptAll(es[1..], done, now);
    }
  }

  /** Sweeping one more key removes it if it has expired. */
  lemma {:induction false} SweptOneMore(es: seq<Entry>, done: set<bytes>, key: bytes, now: int)
    requires Distinct(es) && key !in done
    ensures Find(Swept(es, done, now), key) == Find(es, key)
    ensures Swept(es, done + {key}, now)
            == if Find(es, key).Some? && S.IsExpired(Find(es, key).value, now)
               then Without(Swept(es, done, now), key) else Swept(es, done, now)
  {
    if es != [] {
      SweptOneMore(es[1..], done, key, now);
      var tail := Swept(es[1..], done, now);
      assert ([es[0]] + tail)[1..] == tail;
      if es[0].key == key {
        FindIff(es[1..], key);
        WithoutShrinks(tail, key);
      }
    }
  }

  class Shard {
    const evictor: LRU

    ghost var Repr: set<object>

    ghost function Entries(): seq<Entry>
      reads evictor
    {
      evictor.entries
    }

    ghost predicate Valid()
      reads this, Repr
      ensures Valid() ==> this in Repr
    {
      && this in Repr && evictor in Repr && evictor.order in Repr
      && (forall i | 0 <= i < |evictor.order.nodes| :: evictor.order.nodes[i] in Repr)
      && evictor.Valid()
    }

    constructor (limits: Limits)
      ensures Valid() && fresh(Repr) && Entries() == [] && evictor.limits == limits
    {
      evictor := new LRU(limits);
      new;
      Repr := {this, evictor, evictor.order};
    }

    method HasKey(key: bytes) returns (r: bool)
      requires Valid()
      ensures S.Answer(r) == S.Answers(Entries(), S.Has(key), 0)
    {
      r := evictor.Has(key);
    }

    method Set(key: bytes, value: bytes, ttl: int, now: int)
      requires Valid()
      modifies Repr
      ensures Valid() && fresh(Repr - old(Repr))
      ensures Entries() == S.Next(evictor.limits, old(Entries()), S.Set(key, value, ttl), now)
    {
      AddItem(key, S.NewItem(value, ttl, now));
    }

    method AddItem(key: bytes, item: Item)
      requires Valid()
      modifies Repr
      ensures Valid() && fresh(Repr - old(Repr))
      ensures Entries() == Add(evictor.limits, old(Entries()), Entry(key, item))
    {
      evictor.Add(key, item);
      Repr := Repr + set e | e in evictor.order.nodes;
    }

    method Get(key: bytes, now: int) returns (r: S.Reply)
      requires Valid()
      modifies Repr
      ensures Valid() && fresh(Repr - old(Repr))
      ensures Entries() == S.Next(evictor.limits, old(Entries()), S.Get(key), now)
      ensures r == S.Answers(old(Entries()), S.Get(key), now)
    {
      var item := Look(key, now);
      r := if item.None? then S.Miss else S.Hit(item.value.value);
    }

    /** The common part of `Get` and `TTL`: an expired entry is removed and not reported. */
    method Look(key: bytes, now: int) returns (r: Option<Item>)
      requires Valid()
      modifies Repr
      ensures Valid() && fresh(Repr - old(Repr))
      ensures Entries() == S.Look(old(Entries()), key, now)
      ensures r == match Find(old(Entries()), key)
                   case Some(i) => if S.IsExpired(i, now) then None else Some(i)
                   case None => None
    {
      r := evictor.Get(key);
      if r.None? || !S.IsExpired(r.value, now) {
        return;
      }
      FindInFront(Entry(key, r.value), Without(old(Entries()), key), key);
      WithoutFront(old(Entries()), key);
      var _ := evictor.Remove(key);
      r := None;
    }

    method TTL(key: bytes, now: int) returns (r: int)
      requires Valid()
      modifies Repr
      ensures Valid() && fresh(Repr - old(Repr))
      ensures Entries() == S.Next(evictor.limits, old(Entries()), S.Ttl(key), now)
      ensures S.Seconds(r) == S.Answers(old(Entries()), S.Ttl(key), now)
    {
      var item := Look(key, now);
      if item.None? {
        return -2;
      }
      var ttl := S.TimeLeft(item.value, now);
      if ttl < 0 {
        return -1;
      }
      return S.WholeSeconds(ttl);
    }

    method Delete(key: bytes) returns (r: bool)
      requires Valid()
      modifies Repr
      ensures Valid() && fresh(Repr - old(Repr))
      ensures Entries() == S.Next(evictor.limits, old(Entries()), S.Delete(key), 0)
      ensures S.Answer(r) == S.Answers(old(Entries()), S.Delete(key), 0)
    {
      r := evictor.Remove(key);
    }

    /** `ForEach` visits the keys of the map in any order; removing the visited key is safe. */
    method CleanupExpired(now: int)
      requires Valid()
      modifies Repr
      ensures Valid() && fresh(Repr - old(Repr))
      ensures Entries() == S.Next(evictor.limits, old(Entries()), S.Cleanup, now)
    {
      ghost var es := Entries();
      var keys := evictor.items.Keys;
      ghost var done: set<bytes> := {};
      SweptNothing(es, now);
      AllKeysListed();
      while keys != {}
        invariant Valid() && Repr == old(Repr)
        invariant Keys(es) <= done + keys && keys !! done
        invariant Entries() == Swept(es, done, now)
        decreases keys
      {
        var key :| key in keys;
        keys := keys - {key};
        SweepKey(key, now, es, done);
        done := done + {key};
      }
      SweptAll(es, done, now);
    }

    /** The callback of `CleanupExpired`. */
    method SweepKey(key: bytes, now: int, ghost es: seq<Entry>, ghost done: set<bytes>)
      requires Valid() && Distinct(es) && key !in done && Entries() == Swept(es, done, now)
      modifies Repr - {this}
      ensures Valid()
      ensures Entries() == Swept(es, done + {key}, now)
    {
      SweptOneMore(es, done, key, now);
      evictor.Lookup(key);
      if key in evictor.items && S.IsExpired(evictor.items[key].item, now) {
        var _ := evictor.Remove(key);
      }
    }

    lemma AllKeysListed()
      requires Valid()
      ensures evictor.items.Keys == Keys(Entries())
    {
      forall k ensures k in evictor.items <==> k in Keys(Entries()) {
        evictor.Lookup(k);
        FindIff(Entries(), k);
      }
    }

    method GetItems(now: int) returns (items: map<bytes, Item>)
      requires Valid()
      ensures items == ToMap(S.Unexpired(Entries(), now))
    {
      items := map[];
      var keys := evictor.items.Keys;
      while keys != {}
        invariant keys <= evictor.items.Keys
        invariant forall k :: k in items <==>
                    k in evictor.items && k !in keys && !S.IsExpired(evictor.items[k].item, now)
        invariant forall k | k in items :: items[k] == evictor.items[k].item
        decreases keys
      {
        var key :| key in keys;
        keys := keys - {key};
        var item := evictor.items[key].item;
        if !S.IsExpired(item, now) {
          items := items[key := item];
        }
      }
      forall k ensures k in items <==> Find(S.Unexpired(Entries(), now), k).Some?
               ensures k in items ==> Find(S.Unexpired(Entries(), now), k) == Some(items[k]) {
        evictor.Lookup(k);
        S.FindUnexpired(Entries(), now, k);
      }
      SameFindsSameMap(S.Unexpired(Entries(), now), items);
    }

    /** Ranging over the map gives the unexpired keys in any order. */
    method GetKeys(now: int) returns (keys: seq<bytes>)
      requires Valid()
      ensures S.Enumerates(keys, Entries(), now)
    {
      keys := [];
      var left := evictor.items.Keys;
      while left != {}
        invariant left <= evictor.items.Keys
        invariant forall i, j | 0 <= i < j < |keys| :: keys[i] != keys[j]
        invariant forall k :: k in keys <==>
                    k in evictor.items && k !in left && !S.IsExpired(evictor.items[k].item, now)
        decreases left
      {
        var key :| key in left;
        left := left - {key};
        if !S.IsExpired(evictor.items[key].item, now) {
          keys := keys + [key];
        }
      }
      forall k ensures k in keys <==> Find(S.Unexpired(Entries(), now), k).Some? {
        evictor.Lookup(k);
        S.FindUnexpired(Entries(), now, k);
      }
    }

    /** `order` is the order in which this call saw the keys. */
    method Scan(offset: int, pattern: bytes, limit: int, now: int) returns (r: ShardReply, ghost order: seq<bytes>)
      requires Valid()
      ensures S.Enumerates(order, Entries(), now) && IsShardReply(r, order, offset, pattern, limit)
    {
      var allKeys := GetKeys(now);
      r := ScanShard(allKeys, offset, pattern, limit);
      order := allKeys;
    }

    /** `order` is the order in which the map happened to be visited. */
    method Restore(items: map<bytes, Item>) returns (ghost order: seq<Entry>)
      requires Valid()
      modifies Repr
      ensures Valid() && fresh(Repr - old(Repr))
      ensures Lists(order, items)
      ensures Entries() == AddAll(evictor.limits, old(Entries()), order)
    {
      order := [];
      var keys := items.Keys;
      while keys != {}
        invariant Valid() && fresh(Repr - old(Repr)) && keys <= items.Keys
        invariant Lists(order, items - keys)
        invariant Entries() == AddAll(evictor.limits, old(Entries()), order)
        decreases keys
      {
        var key :| key in keys;
        ListsOneMore(order, items - keys, key, items[key]);
        assert (items - keys)[key := items[key]] == items - (keys - {key});
        keys := keys - {key};
        AddItem(key, items[key]);
        ghost var longer := order + [Entry(key, items[key])];
        assert longer[..|order|] == order;
        order := longer;
      }
      assert items - {} == items;
    }
  }

  lemma WithoutFront(es: seq<Entry>, key: bytes)
    requires Distinct(es) && Find(es, key).Some?
    ensures Without(MoveToFront(es, key), key) == Without(es, key)
  {
    var w := Without(es, key);
    FindWithout(es, key, key);
    WithoutShrinks(w, key);
    assert MoveToFront(es, key)[1..] == w;
  }

  class Cache {
    const cfg: C.Config
    const shards: seq<Shard>
    ghost var Repr: set<object>
    /** The abstract value: the entries of every shard. */
    ghost var state: seq<seq<Entry>>

    ghost predicate Valid()
      reads this, Repr
      ensures Valid() ==> this in Repr
    {
      && this in Repr
      && |shards| == |state| == cfg.shards > 0
      && (forall i | 0 <= i < |shards| :: shards[i] in Repr && shards[i].evictor in Repr)
      && (forall i | 0 <= i < |shards| :: shards[i].Repr <= Repr && this !in shards[i].Repr)
      && (forall i | 0 <= i < |shards| :: shards[i].Valid() && shards[i].evictor.limits == cfg.limits)
      && (forall i {:trigger shards[i]} | 0 <= i < |shards| :: state[i] == shards[i].Entries())
      && (forall i, j | 0 <= i < |shards| && 0 <= j < |shards| && i != j ::
            shards[i].Repr !! shards[j].Repr)
    }

    /** Shard `i` has changed, and `Repr` and `state` have yet to follow. */
    ghost predicate ValidBut(i: nat)
      requires i < |shards|
      reads this, Repr, shards[i], shards[i].Repr
    {
      && this in Repr && |shards| == |state| == cfg.shards
      && (forall k | 0 <= k < |shards| :: shards[k] in Repr && shards[k].evictor in Repr)
      && (forall k | 0 <= k < |shards| && k != i ::
            shards[k].Repr <= Repr && this !in shards[k].Repr && shards[k].Repr !! shards[i].Repr)
      && (forall k | 0 <= k < |shards| && k != i ::
            shards[k].Valid() && shards[k].evictor.limits == cfg.limits)
      && (forall k {:trigger shards[k]} | 0 <= k < |shards| && k != i :: state[k] == shards[k].Entries())
      && (forall k, j | 0 <= k < |shards| && 0 <= j < |shards| && k != i && j != i && k != j ::
            shards[k].Repr !! shards[j].Repr)
      && shards[i].Valid() && shards[i].evictor.limits == cfg.limits && this !in shards[i].Repr
    }

    ghost method Follow(i: nat)
      requires i < |shards| && ValidBut(i)
      modifies this
      ensures Valid() && Repr == old(Repr) + shards[i].Repr
      ensures state == old(state)[i := shards[i].Entries()]
    {
      Repr := Repr + shards[i].Repr;
      state := state[i := shards[i].Entries()];
    }

    constructor (cfg: C.Config)
      requires cfg.shards > 0
      ensures Valid() && fresh(Repr) && this.cfg == cfg
      ensures state == C.After(cfg, [])
    {
      var made: seq<Shard> := [];
      ghost var all: set<object> := {};
      for i := 0 to cfg.shards
        invariant |made| == i && fresh(all)
        invariant forall k | 0 <= k < i :: made[k].Repr <= all && made[k].Valid()
        invariant forall k | 0 <= k < i :: made[k].Entries() == [] && made[k].evictor.limits == cfg.limits
        invariant forall k, j | 0 <= k < j < i :: made[k].Repr !! made[j].Repr
      {
        var s := new Shard(cfg.limits);
        made := made + [s];
        all := all + s.Repr;
      }
      this.cfg := cfg;
      shards := made;
      state := seq(cfg.shards, _ => []);
      Repr := all + {this};
    }

    method HasKey(key: bytes) returns (r: bool)
      requires Valid()
      ensures S.Answer(r) == S.Answers(state[C.Index(cfg, key)], S.Has(key), 0)
    {
      r := shards[C.Index(cfg, key)].HasKey(key);
    }

    method Set(key: bytes, value: bytes, ttl: int, now: int)
      requires Valid()
      modifies Repr
      ensures Valid() && fresh(Repr - old(Repr))
      ensures var i := C.Index(cfg, key);
              state == old(state)[i := S.Next(cfg.limits, old(state)[i], S.Set(key, value, ttl), now)]
    {
      var i := C.Index(cfg, key);
      shards[i].Set(key, value, ttl, now);
      Follow(i);
    }

    method Get(key: bytes, now: int) returns (r: S.Reply)
      requires Valid()
      modifies Repr
      ensures Valid() && fresh(Repr - old(Repr))
      ensures var i := C.Index(cfg, key);
              && state == old(state)[i := S.Next(cfg.limits, old(state)[i], S.Get(key), now)]
              && r == S.Answers(old(state)[i], S.Get(key), now)
    {
      var i := C.Index(cfg, key);
      r := shards[i].Get(key, now);
      Follow(i);
    }

    method TTL(key: bytes, now: int) returns (r: int)
      requires Valid()
      modifies Repr
      ensures Valid() && fresh(Repr - old(Repr))
      ensures var i := C.Index(cfg, key);
              && state == old(state)[i := S.Next(cfg.limits, old(state)[i], S.Ttl(key), now)]
              && S.Seconds(r) == S.Answers(old(state)[i], S.Ttl(key), now)
    {
      var i := C.Index(cfg, key);
      r := shards[i].TTL(key, now);
      Follow(i);
    }

    method Delete(key: bytes) returns (r: bool)
      requires Valid()
      modifies Repr
      ensures Valid() && fresh(Repr - old(Repr))
      ensures var i := C.Index(cfg, key);
              && state == old(state)[i := S.Next(cfg.limits, old(state)[i], S.Delete(key), 0)]
              && S.Answer(r) == S.Answers(old(state)[i], S.Delete(key), 0)
    {
      var i := C.Index(cfg, key);
      r := shards[i].Delete(key);
      Follow(i);
    }

    /** One shard's turn in the background sweep. */
    method CleanupShard(i: nat, now: int)
      requires Valid() && i < |shards|
      modifies Repr
      ensures Valid() && fresh(Repr - old(Repr))
      ensures state == old(state)[i := S.Next(cfg.limits, old(state)[i], S.Cleanup, now)]
    {
      shards[i].CleanupExpired(now);
      Follow(i);
    }

    /** `Restore` of one shard; `order` is the order in which the map was visited. */
    method RestoreShard(i: nat, items: map<bytes, Item>) returns (ghost order: seq<Entry>)
      requires Valid() && i < |shards|
      modifies Repr
      ensures Valid() && fresh(Repr - old(Repr)) && Lists(order, items)
      ensures state == old(state)[i := AddAll(cfg.limits, old(state)[i], order)]
    {
      order := shards[i].Restore(items);
      Follow(i);
    }

    /** `orders` is the order in which every shard shows its keys to this call. */
    method Scan(cursor: int, pattern: bytes, count: int, now: int)
      returns (r: Outcome, ghost orders: seq<seq<bytes>>)
      requires Valid()
      ensures C.Shows(orders, state, now) && r == ScanAny(orders, cursor, pattern, count)
    {
      var n := |shards|;
      var i, offset := Quot(cursor, STRIDE), Rem(cursor, STRIDE);
      orders := AnyOrders(now);
      var keys: seq<bytes> := [];
      CursorParts(cursor);
      if i > n {
        return Answer(Reply([], 0)), orders;
      }
      ghost var seen := if i >= 0 then orders[..i] else [];
      NothingScanned(seen, cursor, pattern, count);
      while i < n
        invariant i <= n && ScannedSoFar(seen, cursor, pattern, count, keys, i, offset)
        invariant C.ShownSoFar(seen, state, now) && C.Shows(orders, state, now)
      {
        if i < 0 {
          return Panic, orders;
        }
        var found;
        found, seen, orders := ScanOne(i, offset, cursor, pattern, count, keys, seen, now);
        if found.panicked {
          return Panic, orders;
        }
        keys := keys + found.keys;
        if |keys| >= count {
          return Answer(Reply(keys, i * STRIDE + found.nextOffset)), orders;
        }
        offset := 0;
        i := i + 1;
      }
      AllScanned(seen, cursor, pattern, count, keys, offset);
      return Answer(Reply(keys, 0)), seen;
    }

    ghost method AnyOrders(now: int) returns (orders: seq<seq<bytes>>)
      requires Valid()
      ensures C.Shows(orders, state, now)
    {
      orders := ShowRest([], now);
    }

    /** Some orders for the shards behind those that have shown theirs. */
    ghost method ShowRest(seen: seq<seq<bytes>>, now: int) returns (orders: seq<seq<bytes>>)
      requires Valid() && C.ShownSoFar(seen, state, now)
      ensures C.Shows(orders, state, now) && seen <= orders
    {
      forall i | 0 <= i < |shards| ensures Distinct(state[i]) {
        assert shards[i].Valid() && state[i] == shards[i].Entries();
      }
      C.SomeOrdersShow(seen, state, now);
      orders := seen + C.SomeOrders(state[|seen|..], now);
    }

    /** One shard's turn in `Scan`. */
    method ScanOne(i: nat, offset: int, cursor: int, pattern: bytes, count: int, keys: seq<bytes>,
                   ghost before: seq<seq<bytes>>, now: int)
      returns (r: ShardReply, ghost seen: seq<seq<bytes>>, ghost orders: seq<seq<bytes>>)
      requires Valid() && i < |shards| && C.ShownSoFar(before, state, now)
      requires ScannedSoFar(before, cursor, pattern, count, keys, i, offset)
      ensures C.ShownSoFar(seen, state, now) && C.Shows(orders, state, now)
      ensures r.panicked ==> ScanAny(orders, cursor, pattern, count) == Panic
      ensures !r.panicked ==>
                if |keys + r.keys| >= count then
                  ScanAny(orders, cursor, pattern, count) == Answer(Reply(keys + r.keys, i * STRIDE + r.nextOffset))
                else ScannedSoFar(seen, cursor, pattern, count, keys + r.keys, i + 1, 0)
    {
      ghost var order;
      r, order := shards[i].Scan(offset, pattern, count - |keys|, now);
      seen := before + [order];
      ShardScanned(before, cursor, pattern, count, keys, i, offset, order, r);
      orders := ShowRest(seen, now);
    }

    method Size() returns (total: nat)
      requires Valid()
      ensures total == C.TotalSize(state)
    {
      total := 0;
      var i := 0;
      while i < |shards|
        invariant 0 <= i <= |shards|
        invariant total == C.TotalSize(state[..i])
      {
        var n := shards[i].evictor.Len();
        total := total + n;
        TotalSizeSnoc(state[..i], state[i]);
        assert state[..i + 1] == state[..i] + [state[i]];
        i := i + 1;
      }
      assert state[..i] == state;
    }

    method TotalCapacity() returns (n: int)
      requires Valid()
      ensures n == cfg.limits.capacity * cfg.shards
    {
      n := shards[0].evictor.limits.capacity * |shards|;
    }
  }

  lemma {:induction false} TotalSizeSnoc(st: seq<seq<Entry>>, es: seq<Entry>)
    ensures C.TotalSize(st + [es]) == C.TotalSize(st) + |es|
  {
    if st == [] {
      assert ([] + [es])[1..] == [];
    } else {
      assert (st + [es])[1..] == st[1..] + [es];
      TotalSizeSnoc(st[1..], es);
    }
  }
}
