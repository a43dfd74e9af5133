/** The LRU of `internal/engine/lru.go` in its own form: a map of list elements, a doubly
    linked recency list and a running byte count, all updated in place.  Every method is
    tied to what module `Lru` computes on the list of entries. */
module LruCache {
  import opened Bytes
  import opened Lru

  /** A list element together with the cache entry it carries. */
  class Element {
    var prev: Element?
    var next: Element?
    const key: bytes
    var item: Item
    var size: nat

    constructor (key: bytes, item: Item, size: nat)
      ensures this.key == key && this.item == item && this.size == size
    {
      this.key := key;
      this.item := item;
      this.size := size;
      prev, next := null, null;
    }
  }

  /** The part of `container/list` the LRU uses. */
  class List {
    var front: Element?
    var back: Element?
    var len: nat
    ghost var nodes: seq<Element>

    ghost function At(i: int): (e: Element?)
      reads `nodes
      ensures e != null ==> e in nodes
    {
      if 0 <= i < |nodes| then nodes[i] else null
    }

    ghost predicate Linked(i: nat)
      requires i < |nodes|
      reads this, nodes
    {
      nodes[i].prev == At(i - 1) && nodes[i].next == At(i + 1)
    }

    ghost predicate Valid()
      reads this, nodes
    {
      && len == |nodes|
      && (forall i, j | 0 <= i < j < |nodes| :: nodes[i] != nodes[j])
      && front == At(0) && back == At(|nodes| - 1)
      && (forall i | 0 <= i < |nodes| :: Linked(i))
    }

    constructor ()
      ensures Valid() && nodes == []
    {
      front, back, len, nodes := null, null, 0, [];
    }

    method PushFront(e: Element)
      requires Valid() && e !in nodes
      modifies this, e`prev, e`next, nodes`prev
      ensures Valid() && nodes == [e] + old(nodes)
    {
      e.prev := null;
      e.next := front;
      if front == null {
        back := e;
      } else {
        front.prev := e;
      }
      front := e;
      len := len + 1;
      nodes := [e] + nodes;
      forall i | 0 <= i < |nodes| ensures Linked(i) {
        assert i > 0 ==> old(Linked(i - 1)) && nodes[i] == old(nodes)[i - 1];
      }
    }

    /** `at` is where `e` stands, known to the proof only. */
    method Remove(e: Element, ghost at: nat)
      requires Valid() && at < |nodes| && nodes[at] == e
      modifies this, nodes`prev, nodes`next
      ensures Valid() && nodes == old(nodes)[..at] + old(nodes)[at + 1..]
    {
      assert Linked(at);
      Bypass(e, at);
      nodes := nodes[..at] + nodes[at + 1..];
      forall i | 0 <= i < |nodes| ensures Linked(i) {
        var j := if i < at then i else i + 1;
        assert nodes[i] == old(nodes)[j] && old(Linked(j));
      }
    }

    /** Makes the neighbours of `e`, and the ends of the list, skip it. */
    method Bypass(e: Element, ghost at: nat)
      requires Valid() && at < |nodes| && nodes[at] == e
      modifies `front, `back, `len, nodes`prev, nodes`next
      ensures len == old(len) - 1
      ensures front == (if at == 0 then At(1) else At(0))
      ensures back == (if at == |nodes| - 1 then At(|nodes| - 2) else At(|nodes| - 1))
      ensures forall i | 0 <= i < |nodes| && i != at ::
                && nodes[i].prev == (if i == at + 1 then At(at - 1) else old(nodes[i].prev))
                && nodes[i].next == (if i == at - 1 then At(at + 1) else old(nodes[i].next))
    {
      assert Linked(at);
      if e.prev == null {
        front := e.next;
      } else {
        e.prev.next := e.next;
      }
      if e.next == null {
        back := e.prev;
      } else {
        e.next.prev := e.prev;
      }
      len := len - 1;
    }

    method MoveToFront(e: Element, ghost at: nat)
      requires Valid() && at < |nodes| && nodes[at] == e
      modifies this, nodes`prev, nodes`next
      ensures Valid() && nodes == [e] + (old(nodes)[..at] + old(nodes)[at + 1..])
    {
      Remove(e, at);
      PushFront(e);
    }
  }

  ghost predicate Within(a: seq<Element>, b: seq<Element>) {
    forall i | 0 <= i < |a| :: a[i] in b
  }

  class LRU {
    const limits: Limits
    var currentMem: int
    var items: map<bytes, Element>
    const order: List
    /** The abstract value: the entries, most recently used first. */
    ghost var entries: seq<Entry>

    /** The element at a position carries the entry at that position, under its key. */
    ghost predicate Holds(i: nat)
      requires i < |order.nodes| == |entries|
      reads `items, `entries, order, order.nodes
    {
      var e := order.nodes[i];
      && entries[i] == Entry(e.key, e.item) && e.size == Size(e.key, e.item)
      && e.key in items && items[e.key] == e
    }

    /** Map and list hold the same elements. */
    ghost predicate Shape()
      reads `items, `entries, order, order.nodes
    {
      && order.Valid() && |order.nodes| == |entries|
      && (forall i | 0 <= i < |entries| :: Holds(i))
      && (forall k | k in items :: items[k] in order.nodes && items[k].key == k)
    }

    ghost predicate Valid()
      reads this, order, order.nodes
    {
      Shape() && currentMem == Mem(entries) && Bounded(limits, entries)
    }

    constructor (limits: Limits)
      ensures Valid() && fresh(order) && this.limits == limits && entries == []
    {
      this.limits := limits;
      currentMem := 0;
      items := map[];
      order := new List();
      entries := [];
    }

    ghost function Position(e: Element): (at: nat)
      requires e in order.nodes
      reads order
      ensures at < |order.nodes| && order.nodes[at] == e
    {
      var at :| 0 <= at < |order.nodes| && order.nodes[at] == e;
      at
    }

    lemma ShapeIsDistinct()
      requires Shape()
      ensures Distinct(entries)
    {
      forall i, j | 0 <= i < j < |entries| ensures entries[i].key != entries[j].key {
        assert Holds(i) && Holds(j);
      }
    }

    /** The map knows exactly the keys of the list. */
    lemma Lookup(key: bytes)
      requires Shape()
      ensures key in items <==> Find(entries, key).Some?
      ensures key in items ==> Find(entries, key) == Some(items[key].item)
    {
      FindIff(entries, key);
      ShapeIsDistinct();
      if key in items {
        var at := Position(items[key]);
        assert Holds(at);
        WithoutAt(entries, at);
      }
      forall i | 0 <= i < |entries| ensures entries[i].key in items {
        assert Holds(i);
      }
    }

    method Has(key: bytes) returns (r: bool)
      requires Valid()
      ensures r <==> Find(entries, key).Some?
    {
      Lookup(key);
      r := key in items;
    }

    method Len() returns (n: nat)
      requires Valid()
      ensures n == |entries|
    {
      n := order.len;
    }

    method MemoryUsage() returns (n: int)
      requires Valid()
      ensures n == Mem(entries)
    {
      n := currentMem;
    }

    /** Takes the element at a position out of the list and the map. */
    method Unlink(elem: Element, ghost at: nat)
      requires Shape() && at < |entries| && order.nodes[at] == elem
      modifies `items, `entries, order, order.nodes`prev, order.nodes`next
      ensures Shape() && Within(order.nodes, old(order.nodes))
      ensures entries == old(entries)[..at] + old(entries)[at + 1..]
    {
      assert Holds(at);
      order.Remove(elem, at);
      items := items - {elem.key};
      entries := entries[..at] + entries[at + 1..];
      forall i | 0 <= i < |entries| ensures Holds(i) {
        var j := if i < at then i else i + 1;
        assert old(Holds(j)) && order.nodes[i] == old(order.nodes)[j];
      }
    }

    /** Moves the element at a position to the front. */
    method Promote(elem: Element, ghost at: nat)
      requires Shape() && at < |entries| && order.nodes[at] == elem
      modifies `entries, order, order.nodes`prev, order.nodes`next
      ensures Shape() && Within(order.nodes, old(order.nodes)) && [elem] <= order.nodes
      ensures entries == [old(entries)[at]] + (old(entries)[..at] + old(entries)[at + 1..])
    {
      assert Holds(at);
      order.MoveToFront(elem, at);
      entries := [entries[at]] + (entries[..at] + entries[at + 1..]);
      forall i | 0 <= i < |entries| ensures Holds(i) {
        var j := if i == 0 then at else if i <= at then i - 1 else i;
        assert old(Holds(j)) && order.nodes[i] == old(order.nodes)[j];
      }
    }

    /** Gives the front element a new item. */
    method Rewrite(elem: Element, item: Item, size: nat)
      requires Shape() && |entries| > 0 && order.nodes[0] == elem
      requires size == Size(elem.key, item)
      modifies `entries, elem`item, elem`size
      ensures Shape()
      ensures entries == [Entry(elem.key, item)] + old(entries)[1..]
    {
      assert Holds(0);
      elem.item := item;
      elem.size := size;
      entries := [Entry(elem.key, item)] + entries[1..];
      forall i | 0 <= i < |entries| ensures order.Linked(i) && Holds(i) {
        assert old(order.Linked(i)) && old(Holds(i));
      }
    }

    /** Puts a new element in front of the list and into the map. */
    method Link(key: bytes, item: Item, size: nat)
      requires Shape() && key !in items && size == Size(key, item)
      modifies `items, `entries, order, order.nodes`prev
      ensures Shape() && entries == [Entry(key, item)] + old(entries)
      ensures forall i | 0 <= i < |order.nodes| :: order.nodes[i] in old(order.nodes) || fresh(order.nodes[i])
    {
      var elem := new Element(key, item, size);
      order.PushFront(elem);
      items := items[key := elem];
      entries := [Entry(key, item)] + entries;
      forall i | 0 <= i < |entries| ensures Holds(i) {
        assert i > 0 ==> old(Holds(i - 1)) && order.nodes[i] == old(order.nodes)[i - 1];
      }
    }

    method Get(key: bytes) returns (r: Option<Item>)
      requires Valid()
      modifies this, order, order.nodes
      ensures Valid() && Within(order.nodes, old(order.nodes))
      ensures r == Find(old(entries), key)
      ensures entries == MoveToFront(old(entries), key)
    {
      Lookup(key);
      if key in items {
        var elem := items[key];
        ghost var at := Position(elem);
        assert Holds(at);
        WithoutAt(entries, at);
        MoveToFrontIsBounded(limits, entries, key);
        Promote(elem, at);
        return Some(elem.item);
      }
      return None;
    }

    method Remove(key: bytes) returns (r: bool)
      requires Valid()
      modifies this, order, order.nodes
      ensures Valid() && Within(order.nodes, old(order.nodes))
      ensures r <==> Find(old(entries), key).Some?
      ensures entries == Without(old(entries), key)
    {
      Lookup(key);
      if key in items {
        var elem := items[key];
        ghost var at := Position(elem);
        assert Holds(at);
        WithoutAt(entries, at);
        WithoutCounts(entries, key);
        RemoveIsBounded(limits, entries, key);
        currentMem := currentMem - elem.size;
        Unlink(elem, at);
        return true;
      }
      WithoutShrinks(entries, key);
      return false;
    }

    method RemoveOldest()
      requires Valid()
      modifies this, order, order.nodes
      ensures Valid() && Within(order.nodes, old(order.nodes))
      ensures entries == if old(entries) == [] then [] else DropLast(old(entries))
    {
      var elem := order.back;
      if elem != null {
        ghost var at := |entries| - 1;
        assert Holds(at);
        MemOfLast(entries);
        PrefixIsBounded(limits, entries, at);
        currentMem := currentMem - elem.size;
        Unlink(elem, at);
        assert entries == DropLast(old(entries));
      }
    }

    method Add(key: bytes, value: Item)
      requires Valid()
      modifies this, order, order.nodes
      ensures Valid()
      ensures forall i | 0 <= i < |order.nodes| :: order.nodes[i] in old(order.nodes) || fresh(order.nodes[i])
      ensures entries == Lru.Add(limits, old(entries), Entry(key, value))
    {
      var itemSize := Size(key, value);
      AddIsBounded(limits, entries, Entry(key, value));
      if limits.maxMemory > 0 && currentMem + itemSize > limits.maxMemory {
        EvictFor(itemSize);
      }
      Lookup(key);
      if key in items {
        Replace(key, value, itemSize);
        return;
      }
      Push(key, value, itemSize);
    }

    /** The eviction loop of `Add`. */
    method EvictFor(itemSize: nat)
      requires Valid() && limits.maxMemory > 0
      modifies this, order, order.nodes
      ensures Valid() && Within(order.nodes, old(order.nodes))
      ensures entries == MakeRoom(old(entries), itemSize, limits.maxMemory)
    {
      while currentMem + itemSize > limits.maxMemory && order.len > 0
        invariant Valid() && Within(order.nodes, old(order.nodes))
        invariant MakeRoom(entries, itemSize, limits.maxMemory)
                  == MakeRoom(old(entries), itemSize, limits.maxMemory)
        decreases order.len
      {
        RemoveOldest();
      }
    }

    /** The update branch of `Add`. */
    method Replace(key: bytes, value: Item, itemSize: nat)
      requires Valid() && key in items && itemSize == Size(key, value)
      requires Bounded(limits, [Entry(key, value)] + Without(entries, key))
      modifies this, order, order.nodes
      ensures Valid() && Within(order.nodes, old(order.nodes))
      ensures entries == [Entry(key, value)] + Without(old(entries), key)
    {
      var elem := items[key];
      ghost var at := Position(elem);
      assert Holds(at);
      Lookup(key);
      ShapeIsDistinct();
      WithoutAt(entries, at);
      WithoutCounts(entries, key);
      MemInFront(Entry(key, value), Without(entries, key));
      Promote(elem, at);
      currentMem := currentMem - elem.size;
      Rewrite(elem, value, itemSize);
      currentMem := currentMem + itemSize;
    }

    /** The insertion branch of `Add`. */
    method Push(key: bytes, value: Item, itemSize: nat)
      requires Valid() && key !in items && itemSize == Size(key, value)
      requires Bounded(limits, [Entry(key, value)] + Trimmed(limits, entries))
      modifies this, order, order.nodes
      ensures Valid()
      ensures forall i | 0 <= i < |order.nodes| :: order.nodes[i] in old(order.nodes) || fresh(order.nodes[i])
      ensures entries == [Entry(key, value)] + Trimmed(limits, old(entries))
    {
      if limits.capacity > 0 && order.len >= limits.capacity {
        Lookup(key);
        FindInPrefix(entries, |entries| - 1, key);
        RemoveOldest();
        Lookup(key);
      }
      MemInFront(Entry(key, value), entries);
      Link(key, value, itemSize);
      currentMem := currentMem + itemSize;
    }
  }
}
