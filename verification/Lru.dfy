/** What the LRU of `internal/engine/lru.go` computes, on values: the entries in recency
    order, most recently used first. */
module Lru {
  import opened Bytes

  /** `expiration` is a deadline in nanoseconds, 0 for none. */
  datatype Item = Item(value: bytes, expiration: int)

  datatype Entry = Entry(key: bytes, item: Item)

  /** A limit that is not positive is off. */
  datatype Limits = Limits(capacity: int, maxMemory: int)

  const UNLIMITED := Limits(0, 0)

  function Size(key: bytes, item: Item): nat {
    |key| + |item.value|
  }

  function Mem(es: seq<Entry>): nat {
    if es == [] then 0 else Size(es[0].key, es[0].item) + Mem(es[1..])
  }

  function Keys(es: seq<Entry>): set<bytes> {
    set i | 0 <= i < |es| :: es[i].key
  }

  predicate Distinct(es: seq<Entry>) {
    forall i, j | 0 <= i < j < |es| :: es[i].key != es[j].key
  }

  function Find(es: seq<Entry>, key: bytes): Option<Item> {
    if es == [] then None
    else if es[0].key == key then Some(es[0].item)
    else Find(es[1..], key)
  }

  function Without(es: seq<Entry>, key: bytes): seq<Entry> {
    if es == [] then []
    else if es[0].key == key then Without(es[1..], key)
    else [es[0]] + Without(es[1..], key)
  }

  function MoveToFront(es: seq<Entry>, key: bytes): seq<Entry> {
    match Find(es, key)
    case Some(item) => [Entry(key, item)] + Without(es, key)
    case None => es
  }

  function DropLast(es: seq<Entry>): seq<Entry>
    requires es != []
  {
    es[..|es| - 1]
  }

  /** The memory loop of `Add`: the oldest entries go until `need` more bytes fit. */
  function MakeRoom(es: seq<Entry>, need: nat, maxMemory: int): seq<Entry> {
    if maxMemory > 0 && es != [] && Mem(es) + need > maxMemory
    then MakeRoom(DropLast(es), need, maxMemory)
    else es
  }

  /** A full cache gives up its oldest entry. */
  function Trimmed(lim: Limits, es: seq<Entry>): seq<Entry> {
    if lim.capacity > 0 && |es| >= lim.capacity then DropLast(es) else es
  }

  /** `Add` of an item: memory first, then an update in place or, when the cache is full,
      one more eviction and an insertion in front. */
  function Add(lim: Limits, es: seq<Entry>, e: Entry): seq<Entry> {
    var roomy := MakeRoom(es, Size(e.key, e.item), lim.maxMemory);
    if Find(roomy, e.key).Some? then [e] + Without(roomy, e.key)
    else [e] + Trimmed(lim, roomy)
  }

  /** The memory guard of `Add` stays shut. */
  predicate MemoryFits(lim: Limits, es: seq<Entry>, e: Entry) {
    lim.maxMemory <= 0 || Mem(es) + Size(e.key, e.item) <= lim.maxMemory
  }

  /** Neither eviction guard of `Add` opens. */
  predicate EvictsNothing(lim: Limits, es: seq<Entry>, e: Entry) {
    && MemoryFits(lim, es, e)
    && (lim.capacity <= 0 || |es| < lim.capacity || Find(es, e.key).Some?)
  }

  /** The state every reachable LRU is in. */
  predicate Bounded(lim: Limits, es: seq<Entry>) {
    && Distinct(es)
    && (lim.capacity > 0 ==> |es| <= lim.capacity)
    && (lim.maxMemory > 0 ==> Mem(es) <= lim.maxMemory || |es| == 1)
  }

  // ---------- Properties of the parts ----------

  lemma {:induction false} MemAppend(a: seq<Entry>, b: seq<Entry>)
    ensures Mem(a + b) == Mem(a) + Mem(b)
  {
    if a == [] {
      assert a + b == b;
    } else {
      assert (a + b)[1..] == a[1..] + b;
      MemAppend(a[1..], b);
    }
  }

  lemma {:induction false} MemOfPrefix(es: seq<Entry>, n: nat, m: nat)
    requires n <= m <= |es|
    ensures Mem(es[..n]) <= Mem(es[..m]) <= Mem(es)
  {
    if m > 0 {
      assert es[..m][1..] == es[1..][..m - 1];
      if n > 0 {
        assert es[..n][1..] == es[1..][..n - 1];
      }
      MemOfPrefix(es[1..], if n > 0 then n - 1 else 0, m - 1);
    }
  }

  lemma {:induction false} FindIff(es: seq<Entry>, key: bytes)
    ensures Find(es, key).Some? <==> key in Keys(es)
    ensures Find(es, key).Some? ==> Entry(key, Find(es, key).value) in es
  {
    if es != [] {
      FindIff(es[1..], key);
      if es[0].key == key {
        assert es[0] == Entry(key, es[0].item);
      } else {
        KeysOfTail(es);
      }
    }
  }

  lemma KeysOfTail(es: seq<Entry>)
    requires es != []
    ensures Keys(es) == {es[0].key} + Keys(es[1..])
  {
    forall k | k in Keys(es) ensures k == es[0].key || k in Keys(es[1..]) {
      var i :| 0 <= i < |es| && es[i].key == k;
      if i > 0 {
        assert es[1..][i - 1].key == k;
      }
    }
    forall k | k in Keys(es[1..]) ensures k in Keys(es) {
      var i :| 0 <= i < |es[1..]| && es[1..][i].key == k;
      assert es[i + 1].key == k;
    }
    assert es[0].key in Keys(es);
  }

  /** With distinct keys, looking a key up finds the entry that carries it. */
  lemma {:induction false} FindOfMember(es: seq<Entry>, e: Entry)
    requires Distinct(es) && e in es
    ensures Find(es, e.key) == Some(e.item)
  {
    if es[0] != e {
      var i :| 1 <= i < |es| && es[i] == e;
      assert es[1..][i - 1] == e;
      FindOfMember(es[1..], e);
    }
  }

  lemma {:induction false} WithoutMembers(es: seq<Entry>, key: bytes)
    ensures forall e :: e in Without(es, key) <==> e in es && e.key != key
  {
    if es != [] {
      WithoutMembers(es[1..], key);
    }
  }

  lemma {:induction false} WithoutShrinks(es: seq<Entry>, key: bytes)
    ensures |Without(es, key)| <= |es| && Mem(Without(es, key)) <= Mem(es)
    ensures Find(es, key).None? ==> Without(es, key) == es
  {
    if es != [] {
      WithoutShrinks(es[1..], key);
      if es[0].key != key {
        MemInFront(es[0], Without(es[1..], key));
      }
    }
  }

  lemma {:induction false} WithoutDistinct(es: seq<Entry>, key: bytes)
    requires Distinct(es)
    ensures Distinct(Without(es, key))
  {
    if es != [] {
      WithoutDistinct(es[1..], key);
      WithoutMembers(es[1..], key);
      if es[0].key != key {
        DistinctInFront(es[0], Without(es[1..], key));
      }
    }
  }

  lemma DistinctInFront(e: Entry, es: seq<Entry>)
    requires Distinct(es) && forall x | x in es :: x.key != e.key
    ensures Distinct([e] + es)
  {
    assert forall i | 0 <= i < |es| :: es[i] in es;
  }

  /** Removing a key that is there takes out one entry and exactly its size. */
  lemma {:induction false} WithoutCounts(es: seq<Entry>, key: bytes)
    requires Distinct(es) && Find(es, key).Some?
    ensures |Without(es, key)| == |es| - 1
    ensures Mem(Without(es, key)) == Mem(es) - Size(key, Find(es, key).value)
  {
    if es[0].key == key {
      FindIff(es[1..], key);
      WithoutShrinks(es[1..], key);
    } else {
      WithoutCounts(es[1..], key);
      var w := Without(es[1..], key);
      assert ([es[0]] + w)[1..] == w;
    }
  }

  lemma {:induction false} FindWithout(es: seq<Entry>, key: bytes, k: bytes)
    ensures Find(Without(es, key), k) == if k == key then None else Find(es, k)
  {
    if es != [] {
      FindWithout(es[1..], key, k);
      var w := Without(es[1..], key);
      assert ([es[0]] + w)[1..] == w;
    }
  }

  lemma FindInFront(e: Entry, es: seq<Entry>, k: bytes)
    ensures Find([e] + es, k) == if k == e.key then Some(e.item) else Find(es, k)
  {
    assert ([e] + es)[1..] == es;
  }

  lemma MemInFront(e: Entry, es: seq<Entry>)
    ensures Mem([e] + es) == Size(e.key, e.item) + Mem(es)
  {
    assert ([e] + es)[1..] == es;
  }

  // ---------- Eviction ----------

  /** `MakeRoom` keeps the longest prefix that leaves room, or nothing. */
  lemma {:induction false} MakeRoomKeepsPrefix(es: seq<Entry>, need: nat, maxMemory: int)
    ensures var n := |MakeRoom(es, need, maxMemory)|;
            && n <= |es| && MakeRoom(es, need, maxMemory) == es[..n]
            && (n < |es| ==> maxMemory > 0 && Mem(es[..n + 1]) + need > maxMemory)
            && (maxMemory > 0 && n > 0 ==> Mem(es[..n]) + need <= maxMemory)
  {
    if maxMemory > 0 && es != [] && Mem(es) + need > maxMemory {
      var shorter := DropLast(es);
      MakeRoomKeepsPrefix(shorter, need, maxMemory);
      var n := |MakeRoom(shorter, need, maxMemory)|;
      assert shorter[..n] == es[..n];
      if n + 1 <= |shorter| {
        assert shorter[..n + 1] == es[..n + 1];
      } else {
        assert es[..n + 1] == es;
      }
    } else {
      assert es[..|es|] == es;
    }
  }

  /** `n` entries of the old recency order may stay when `e` comes in: the memory limit
      counts the new size on top of the old total, even when `e` replaces an entry, and
      the capacity must leave a place for `e` unless it has one already. */
  predicate MayKeep(lim: Limits, es: seq<Entry>, e: Entry, n: nat)
    requires n <= |es|
  {
    && (lim.maxMemory <= 0 || n == 0 || Mem(es[..n]) + Size(e.key, e.item) <= lim.maxMemory)
    && (lim.capacity <= 0 || n < lim.capacity || e.key in Keys(es[..n]))
  }

  predicate KeepsLongest(lim: Limits, es: seq<Entry>, e: Entry, n: nat)
    requires n <= |es|
  {
    MayKeep(lim, es, e, n) && forall m | n < m <= |es| :: !MayKeep(lim, es, e, m)
  }

  /** Exact eviction: `Add` keeps the longest prefix of the old recency order that it may
      keep, in the same order, apart from the key it moves to the front. */
  lemma ExactEviction(lim: Limits, es: seq<Entry>, e: Entry) returns (n: nat)
    requires Bounded(lim, es)
    ensures n <= |es| && KeepsLongest(lim, es, e, n)
    ensures Add(lim, es, e) == [e] + Without(es[..n], e.key)
  {
    var roomy := MakeRoom(es, Size(e.key, e.item), lim.maxMemory);
    n := |roomy|;
    MakeRoomKeepsPrefix(es, Size(e.key, e.item), lim.maxMemory);
    FindIff(roomy, e.key);
    WithoutShrinks(roomy, e.key);
    NoneBehind(lim, es, e, n);
    if Find(roomy, e.key).None? && lim.capacity > 0 && n >= lim.capacity {
      OneFewer(lim, es, e, n);
      n := n - 1;
    }
  }

  /** Where the memory limit ends, no longer prefix may be kept. */
  lemma NoneBehind(lim: Limits, es: seq<Entry>, e: Entry, n: nat)
    requires n <= |es|
    requires n < |es| ==> lim.maxMemory > 0 && Mem(es[..n + 1]) + Size(e.key, e.item) > lim.maxMemory
    ensures forall m | n < m <= |es| :: !MayKeep(lim, es, e, m)
  {
    forall m | n < m <= |es| ensures !MayKeep(lim, es, e, m) {
      MemOfPrefix(es, n + 1, m);
    }
  }

  /** A full cache keeps one entry less. */
  lemma OneFewer(lim: Limits, es: seq<Entry>, e: Entry, n: nat)
    requires Bounded(lim, es) && n <= |es| && lim.capacity > 0 && n >= lim.capacity
    requires lim.maxMemory > 0 && n > 0 ==> Mem(es[..n]) + Size(e.key, e.item) <= lim.maxMemory
    requires Find(es[..n], e.key).None?
    ensures KeepsLongest(lim, es, e, n - 1) && DropLast(es[..n]) == Without(es[..n - 1], e.key)
  {
    FindIff(es[..n], e.key);
    assert !MayKeep(lim, es, e, n);
    assert es[..n][..n - 1] == es[..n - 1];
    FindInPrefix(es[..n], n - 1, e.key);
    WithoutShrinks(es[..n - 1], e.key);
    MemOfPrefix(es, n - 1, n);
  }

  /** The entries that eviction for `key` may cost: all but that of `key` itself, when it is
      the oldest. */
  function Rivals(es: seq<Entry>, key: bytes): seq<Entry> {
    if es != [] && es[|es| - 1].key == key then DropLast(es) else es
  }

  /** Exactly when `Add` costs no other key its place: when there are no rivals, or neither
      eviction guard opens on them. */
  lemma OthersStayExactly(lim: Limits, es: seq<Entry>, e: Entry)
    requires Bounded(lim, es)
    ensures (forall k | k != e.key :: Find(Add(lim, es, e), k) == Find(es, k))
            <==> Rivals(es, e.key) == [] || EvictsNothing(lim, Rivals(es, e.key), e)
  {
    var n := ExactEviction(lim, es, e);
    var rivals := Rivals(es, e.key);
    var m := |rivals|;
    assert rivals == es[..m] by {
      assert es[..|es|] == es;
    }
    FindIff(rivals, e.key);
    assert MayKeep(lim, es, e, m) <==> m == 0 || EvictsNothing(lim, rivals, e);
    if n >= m {
      MemOfPrefix(es, m, n);
      if n > m {
        assert m < |es| && es[..n] == es;
      }
      forall k | k != e.key ensures Find(Add(lim, es, e), k) == Find(es, k) {
        FoundInKept(es, n, e, k);
      }
    } else {
      LostBehindKept(es, n, e, m - 1);
      assert es[m - 1].key != e.key;
    }
  }

  /** What `Add` keeps is found, but for the key itself. */
  lemma FoundInKept(es: seq<Entry>, n: nat, e: Entry, k: bytes)
    requires Distinct(es) && |Rivals(es, e.key)| <= n <= |es| && k != e.key
    ensures Find([e] + Without(es[..n], e.key), k) == Find(es, k)
  {
    FindInFront(e, Without(es[..n], e.key), k);
    FindWithout(es[..n], e.key, k);
    FindInPrefix(es, n, k);
    FindIff(es, k);
    if Find(es, k).Some? {
      var x := Entry(k, Find(es, k).value);
      var i :| 0 <= i < |es| && es[i] == x;
      assert i < n && es[..n][i] == x;
      FindOfMember(es[..n], x);
    }
  }

  /** What is evicted is not found any more. */
  lemma LostBehindKept(es: seq<Entry>, n: nat, e: Entry, i: nat)
    requires Distinct(es) && n <= i < |es|
    ensures Find(es, es[i].key) == Some(es[i].item)
    ensures es[i].key != e.key ==> Find([e] + Without(es[..n], e.key), es[i].key).None?
  {
    var k := es[i].key;
    assert es[i] in es;
    FindOfMember(es, es[i]);
    FindInFront(e, Without(es[..n], e.key), k);
    FindWithout(es[..n], e.key, k);
    FindIff(es[..n], k);
  }

  lemma AddIsBounded(lim: Limits, es: seq<Entry>, e: Entry)
    requires Bounded(lim, es)
    ensures Bounded(lim, Add(lim, es, e))
  {
    var n := ExactEviction(lim, es, e);
    var kept := Without(es[..n], e.key);
    WithoutDistinct(es[..n], e.key);
    WithoutMembers(es[..n], e.key);
    WithoutShrinks(es[..n], e.key);
    DistinctInFront(e, kept);
    MemInFront(e, kept);
    if e.key in Keys(es[..n]) {
      FindIff(es[..n], e.key);
      WithoutCounts(es[..n], e.key);
    }
  }

  lemma RemoveIsBounded(lim: Limits, es: seq<Entry>, key: bytes)
    requires Bounded(lim, es)
    ensures Bounded(lim, Without(es, key))
  {
    WithoutDistinct(es, key);
    WithoutShrinks(es, key);
  }

  lemma MoveToFrontIsBounded(lim: Limits, es: seq<Entry>, key: bytes)
    requires Bounded(lim, es)
    ensures Bounded(lim, MoveToFront(es, key))
    ensures Mem(MoveToFront(es, key)) == Mem(es) && |MoveToFront(es, key)| == |es|
  {
    if Find(es, key).Some? {
      var e := Entry(key, Find(es, key).value);
      WithoutDistinct(es, key);
      WithoutMembers(es, key);
      WithoutCounts(es, key);
      DistinctInFront(e, Without(es, key));
      MemInFront(e, Without(es, key));
    }
  }

  /** The newest entry is always there, whatever had to go. */
  lemma AddFinds(lim: Limits, es: seq<Entry>, e: Entry)
    ensures Find(Add(lim, es, e), e.key) == Some(e.item)
  {
    var tail := Add(lim, es, e)[1..];
    FindInFront(e, tail, e.key);
    assert Add(lim, es, e) == [e] + tail;
  }

  /** What `Add` leaves of the other keys was there before, unchanged; all of it stays when
      neither eviction guard opens. */
  lemma AddFindsOthers(lim: Limits, es: seq<Entry>, e: Entry, k: bytes)
    requires k != e.key
    ensures Find(Add(lim, es, e), k).Some? ==> Find(Add(lim, es, e), k) == Find(es, k)
    ensures EvictsNothing(lim, es, e) ==> Find(Add(lim, es, e), k) == Find(es, k)
  {
    var roomy := MakeRoom(es, Size(e.key, e.item), lim.maxMemory);
    MakeRoomKeepsPrefix(es, Size(e.key, e.item), lim.maxMemory);
    FindInPrefix(es, |roomy|, k);
    FindWithout(roomy, e.key, k);
    FindInFront(e, Without(roomy, e.key), k);
    FindInFront(e, roomy, k);
    if lim.capacity > 0 && |roomy| >= lim.capacity {
      FindInPrefix(roomy, |roomy| - 1, k);
      FindInFront(e, DropLast(roomy), k);
    }
  }

  lemma {:induction false} FindInPrefix(es: seq<Entry>, n: nat, k: bytes)
    requires n <= |es|
    ensures Find(es[..n], k).Some? ==> Find(es[..n], k) == Find(es, k)
  {
    if n > 0 {
      assert es[..n][1..] == es[1..][..n - 1];
      FindInPrefix(es[1..], n - 1, k);
    }
  }

  /** Taking the entry at a position out is taking its key out. */
  lemma {:induction false} WithoutAt(es: seq<Entry>, at: nat)
    requires Distinct(es) && at < |es|
    ensures Find(es, es[at].key) == Some(es[at].item)
    ensures Without(es, es[at].key) == es[..at] + es[at + 1..]
  {
    if at == 0 {
      FindIff(es[1..], es[0].key);
      WithoutShrinks(es[1..], es[0].key);
    } else {
      WithoutAt(es[1..], at - 1);
      assert es[..at] + es[at + 1..] == [es[0]] + (es[1..][..at - 1] + es[1..][at..]);
    }
  }

  /** Part of what is in a list takes no more places and no more bytes than all of it. */
  lemma {:induction false} PartFits(part: seq<Entry>, es: seq<Entry>)
    requires Distinct(part) && Distinct(es)
    requires forall e | e in part :: e in es
    ensures |part| <= |es| && Mem(part) <= Mem(es)
    decreases |part|
  {
    if part != [] {
      var e, rest := part[0], part[1..];
      FindOfMember(es, e);
      WithoutCounts(es, e.key);
      WithoutDistinct(es, e.key);
      WithoutMembers(es, e.key);
      forall x | x in rest ensures x in Without(es, e.key) {
        var i :| 0 <= i < |rest| && rest[i] == x;
        assert part[i + 1] == x && x in part;
      }
      PartFits(rest, Without(es, e.key));
    }
  }

  lemma PrefixIsBounded(lim: Limits, es: seq<Entry>, n: nat)
    requires Bounded(lim, es) && n <= |es|
    ensures Bounded(lim, es[..n])
  {
    MemOfPrefix(es, n, |es|);
    if |es| == 1 && n == 1 {
      assert es[..n] == es;
    }
  }

  lemma MemSnoc(es: seq<Entry>, e: Entry)
    ensures Mem(es + [e]) == Mem(es) + Size(e.key, e.item)
  {
    MemAppend(es, [e]);
    MemInFront(e, []);
    assert [e] + [] == [e];
  }

  lemma MemOfLast(es: seq<Entry>)
    requires es != []
    ensures var last := es[|es| - 1]; Mem(es) == Mem(DropLast(es)) + Size(last.key, last.item)
  {
    MemSnoc(DropLast(es), es[|es| - 1]);
    assert DropLast(es) + [es[|es| - 1]] == es;
  }

  // ---------- Lists of entries as maps ----------

  function ToMap(es: seq<Entry>): map<bytes, Item> {
    if es == [] then map[] else ToMap(es[1..])[es[0].key := es[0].item]
  }

  lemma {:induction false} ToMapFinds(es: seq<Entry>, key: bytes)
    ensures key in ToMap(es) <==> Find(es, key).Some?
    ensures key in ToMap(es) ==> ToMap(es)[key] == Find(es, key).value
  {
    if es != [] {
      ToMapFinds(es[1..], key);
    }
  }

  lemma SameFindsSameMap(es: seq<Entry>, m: map<bytes, Item>)
    requires forall k :: k in m <==> Find(es, k).Some?
    requires forall k | k in m :: Find(es, k) == Some(m[k])
    ensures ToMap(es) == m
  {
    forall k ensures k in ToMap(es) <==> k in m
             ensures k in m ==> k in ToMap(es) && ToMap(es)[k] == m[k] {
      ToMapFinds(es, k);
    }
  }

  /** `es` lists the items of `m`, each once, in some order. */
  ghost predicate Lists(es: seq<Entry>, m: map<bytes, Item>) {
    Distinct(es) && ToMap(es) == m
  }

  /** Adding entries one after the other. */
  function AddAll(lim: Limits, es: seq<Entry>, added: seq<Entry>): seq<Entry> {
    if added == [] then es
    else Add(lim, AddAll(lim, es, added[..|added| - 1]), added[|added| - 1])
  }

  lemma ListsOneMore(es: seq<Entry>, m: map<bytes, Item>, key: bytes, item: Item)
    requires Lists(es, m) && key !in m
    ensures Lists(es + [Entry(key, item)], m[key := item])
  {
    var e := Entry(key, item);
    ToMapFinds(es, key);
    FindIff(es, key);
    forall i | 0 <= i < |es| ensures es[i].key != key {
      assert es[i].key in Keys(es);
    }
    ToMapSnoc(es, e);
  }

  lemma {:induction false} ToMapSnoc(es: seq<Entry>, e: Entry)
    requires e.key !in ToMap(es)
    ensures ToMap(es + [e]) == ToMap(es)[e.key := e.item]
  {
    if es == [] {
      assert ([] + [e])[1..] == [];
    } else {
      assert (es + [e])[1..] == es[1..] + [e];
      ToMapSnoc(es[1..], e);
    }
  }

  // ---------- In terms of positions and bytes ----------

  /** Memory is counted in bytes of keys and values. */
  lemma MemIsBytes(k: bytes, v: bytes, deadline: int, es: seq<Entry>)
    ensures Mem([]) == 0
    ensures Mem([Entry(k, Item(v, deadline))] + es) == |k| + |v| + Mem(es)
  {
    MemInFront(Entry(k, Item(v, deadline)), es);
  }

  /** A use takes the entry from its place and puts it in front; a removal only takes it;
      the others keep their order. */
  lemma MovesExactly(a: seq<Entry>, e: Entry, b: seq<Entry>)
    requires Distinct(a + [e] + b)
    ensures MoveToFront(a + [e] + b, e.key) == [e] + a + b
    ensures Without(a + [e] + b, e.key) == a + b
  {
    var es := a + [e] + b;
    assert es[|a|] == e && es[..|a|] == a && es[|a| + 1..] == b;
    WithoutAt(es, |a|);
    assert [e] + (a + b) == [e] + a + b;
  }

  /** A new entry goes in front of all that may stay. */
  lemma AddsInFront(lim: Limits, es: seq<Entry>, e: Entry)
    requires Bounded(lim, es) && EvictsNothing(lim, es, e) && Find(es, e.key).None?
    ensures Add(lim, es, e) == [e] + es
  {
  }
}
