/** A bigger cache never loses a hit.  Run the same operations on two shards that differ
    only in capacity, such that the larger one never runs short of memory: what the smaller
    one holds, the larger one holds too, in the same order of recency. */
module StackInclusion {
  import opened Bytes
  import opened Lru
  import opened Shard

  /** `a` is `b` with some entries left out. */
  predicate Subsequence(a: seq<Entry>, b: seq<Entry>) {
    if a == [] then true
    else if b == [] then false
    else if a[0] == b[0] then Subsequence(a[1..], b[1..])
    else Subsequence(a, b[1..])
  }

  /** A capacity that is not positive is unlimited. */
  predicate AtLeast(big: int, small: int) {
    big <= 0 || (0 < small && small <= big)
  }

  /** The induction hypothesis: besides inclusion, the smaller cache must not have more
      free places than the larger one. */
  predicate Included(small: int, a: seq<Entry>, big: int, b: seq<Entry>) {
    && Distinct(a) && Distinct(b) && Subsequence(a, b)
    && (small > 0 ==> |a| <= small)
    && (big > 0 ==> |b| <= big && small - |a| <= big - |b|)
  }

  lemma {:induction false} SubsequenceMembers(a: seq<Entry>, b: seq<Entry>)
    requires Subsequence(a, b)
    ensures forall e | e in a :: e in b
    ensures |a| <= |b|
    decreases b
  {
    if a != [] {
      assert b == [b[0]] + b[1..];
      if a[0] == b[0] {
        assert a == [a[0]] + a[1..];
        SubsequenceMembers(a[1..], b[1..]);
      } else {
        SubsequenceMembers(a, b[1..]);
      }
    }
  }

  lemma {:induction false} SubsequenceOfTail(a: seq<Entry>, b: seq<Entry>)
    requires b != [] && Subsequence(a, b[1..])
    ensures Subsequence(a, b)
    decreases |b|, |a|
  {
    if a != [] && a[0] == b[0] {
      SubsequenceTail(a, b[1..]);
    }
  }

  lemma {:induction false} SubsequenceTail(a: seq<Entry>, b: seq<Entry>)
    requires a != [] && Subsequence(a, b)
    ensures Subsequence(a[1..], b)
    decreases |b|, |a|
  {
    if a[0] == b[0] {
      SubsequenceOfTail(a[1..], b);
    } else {
      SubsequenceTail(a, b[1..]);
      SubsequenceOfTail(a[1..], b);
    }
  }

  lemma SubsequenceInFront(e: Entry, a: seq<Entry>, b: seq<Entry>)
    requires Subsequence(a, b)
    ensures Subsequence([e] + a, [e] + b)
  {
    assert ([e] + a)[1..] == a && ([e] + b)[1..] == b;
  }

  lemma {:induction false} SubsequenceWithout(a: seq<Entry>, b: seq<Entry>, key: bytes)
    requires Subsequence(a, b)
    ensures Subsequence(Without(a, key), Without(b, key))
    decreases b
  {
    if a != [] {
      if a[0] == b[0] {
        SubsequenceWithout(a[1..], b[1..], key);
        if a[0].key != key {
          SubsequenceInFront(a[0], Without(a[1..], key), Without(b[1..], key));
        }
      } else {
        SubsequenceWithout(a, b[1..], key);
        if b[0].key != key {
          assert Without(b, key)[1..] == Without(b[1..], key);
          SubsequenceOfTail(Without(a, key), Without(b, key));
        }
      }
    }
  }

  lemma {:induction false} SubsequenceUnexpired(a: seq<Entry>, b: seq<Entry>, now: int)
    requires Subsequence(a, b)
    ensures Subsequence(Unexpired(a, now), Unexpired(b, now))
    decreases b
  {
    if a != [] {
      if a[0] == b[0] {
        SubsequenceUnexpired(a[1..], b[1..], now);
        if !IsExpired(a[0].item, now) {
          SubsequenceInFront(a[0], Unexpired(a[1..], now), Unexpired(b[1..], now));
        }
      } else {
        SubsequenceUnexpired(a, b[1..], now);
        if !IsExpired(b[0].item, now) {
          assert Unexpired(b, now)[1..] == Unexpired(b[1..], now);
          SubsequenceOfTail(Unexpired(a, now), Unexpired(b, now));
        }
      }
    }
  }

  /** Cleaning up never gives the smaller cache more places than the larger. */
  lemma {:induction false} UnexpiredCounts(a: seq<Entry>, b: seq<Entry>, now: int)
    requires Subsequence(a, b)
    ensures |a| - |Unexpired(a, now)| <= |b| - |Unexpired(b, now)|
    decreases b
  {
    if b != [] {
      if a != [] && a[0] == b[0] {
        UnexpiredCounts(a[1..], b[1..], now);
      } else {
        UnexpiredCounts(a, b[1..], now);
      }
    }
  }

  /** Both lose their oldest entry, or only the smaller one does. */
  lemma {:induction false} SubsequenceDropLast(a: seq<Entry>, b: seq<Entry>)
    requires a != [] && Subsequence(a, b)
    ensures Subsequence(DropLast(a), b)
    ensures Subsequence(DropLast(a), DropLast(b))
    decreases b
  {
    var a', b' := DropLast(a), DropLast(b);
    if a[0] == b[0] {
      if |a| > 1 {
        SubsequenceDropLast(a[1..], b[1..]);
        assert DropLast(a[1..]) == a'[1..];
        assert b' != [] && DropLast(b[1..]) == b'[1..];
      }
    } else {
      SubsequenceDropLast(a, b[1..]);
      SubsequenceOfTail(a', b);
      assert DropLast(b[1..]) == b'[1..];
      SubsequenceOfTail(a', b');
    }
  }

  lemma FindIncluded(a: seq<Entry>, b: seq<Entry>, key: bytes)
    requires Distinct(b) && Subsequence(a, b) && Find(a, key).Some?
    ensures Find(b, key) == Find(a, key)
  {
    FindIff(a, key);
    SubsequenceMembers(a, b);
    FindOfMember(b, Entry(key, Find(a, key).value));
  }

  lemma AddIncluded(small: int, a: seq<Entry>, big: int, b: seq<Entry>, e: Entry)
    requires AtLeast(big, small) && Included(small, a, big, b)
    ensures Included(small, Add(Limits(small, 0), a, e), big, Add(Limits(big, 0), b, e))
  {
    AddIsBounded(Limits(small, 0), a, e);
    AddIsBounded(Limits(big, 0), b, e);
    SubsequenceMembers(a, b);
    SubsequenceWithout(a, b, e.key);
    if Find(b, e.key).Some? {
      WithoutCounts(b, e.key);
      if Find(a, e.key).Some? {
        WithoutCounts(a, e.key);
        SubsequenceInFront(e, Without(a, e.key), Without(b, e.key));
      } else {
        WithoutShrinks(a, e.key);
        PushIncluded(small, a, e, Without(b, e.key));
      }
    } else {
      if Find(a, e.key).Some? {
        FindIncluded(a, b, e.key);
      }
      var b' := if big > 0 && |b| >= big then DropLast(b) else b;
      var a' := if small > 0 && |a| >= small then DropLast(a) else a;
      if a' != a {
        SubsequenceDropLast(a, b);
      }
      SubsequenceInFront(e, a', b');
    }
  }

  lemma PushIncluded(small: int, a: seq<Entry>, e: Entry, b: seq<Entry>)
    requires Subsequence(a, b) && Find(a, e.key).None?
    ensures Subsequence(Add(Limits(small, 0), a, e), [e] + b)
  {
    if small > 0 && |a| >= small {
      SubsequenceDropLast(a, b);
      SubsequenceInFront(e, DropLast(a), b);
    } else {
      SubsequenceInFront(e, a, b);
    }
  }

  lemma RemoveIncluded(small: int, a: seq<Entry>, big: int, b: seq<Entry>, key: bytes)
    requires AtLeast(big, small) && Included(small, a, big, b)
    ensures Included(small, Without(a, key), big, Without(b, key))
  {
    SubsequenceWithout(a, b, key);
    WithoutDistinct(a, key);
    WithoutDistinct(b, key);
    WithoutShrinks(a, key);
    WithoutShrinks(b, key);
    if Find(a, key).Some? {
      FindIncluded(a, b, key);
      WithoutCounts(a, key);
      WithoutCounts(b, key);
    }
  }

  lemma LookIncluded(small: int, a: seq<Entry>, big: int, b: seq<Entry>, key: bytes, now: int)
    requires AtLeast(big, small) && Included(small, a, big, b)
    ensures Included(small, Look(a, key, now), big, Look(b, key, now))
  {
    RemoveIncluded(small, a, big, b, key);
    MoveToFrontIsBounded(UNLIMITED, a, key);
    MoveToFrontIsBounded(UNLIMITED, b, key);
    SubsequenceWithout(a, b, key);
    if Find(a, key).Some? {
      FindIncluded(a, b, key);
      SubsequenceInFront(Entry(key, Find(a, key).value), Without(a, key), Without(b, key));
    } else if Find(b, key).Some? {
      WithoutShrinks(a, key);
      var front := MoveToFront(b, key);
      assert front[1..] == Without(b, key);
      SubsequenceOfTail(a, front);
    }
  }

  lemma NextIncluded(small: int, a: seq<Entry>, big: int, b: seq<Entry>, op: Op, now: int)
    requires AtLeast(big, small) && Included(small, a, big, b)
    ensures Included(small, Next(Limits(small, 0), a, op, now), big, Next(Limits(big, 0), b, op, now))
  {
    match op
    case Set(k, v, ttl) => AddIncluded(small, a, big, b, Entry(k, NewItem(v, ttl, now)));
    case Get(k) => LookIncluded(small, a, big, b, k, now);
    case Ttl(k) => LookIncluded(small, a, big, b, k, now);
    case Has(_) =>
    case Delete(k) => RemoveIncluded(small, a, big, b, k);
    case Cleanup =>
      UnexpiredIsBounded(UNLIMITED, a, now);
      UnexpiredIsBounded(UNLIMITED, b, now);
      SubsequenceUnexpired(a, b, now);
      UnexpiredCounts(a, b, now);
  }

  datatype Call = Call(op: Op, now: int)

  /** A shard of the given limits after the calls, from empty. */
  function Run(lim: Limits, calls: seq<Call>): seq<Entry> {
    if calls == [] then []
    else
      var last := calls[|calls| - 1];
      Next(lim, Run(lim, calls[..|calls| - 1]), last.op, last.now)
  }

  lemma {:induction false} RunIncluded(small: int, big: int, calls: seq<Call>)
    requires AtLeast(big, small)
    ensures Included(small, Run(Limits(small, 0), calls), big, Run(Limits(big, 0), calls))
  {
    if calls != [] {
      var last := calls[|calls| - 1];
      var before := calls[..|calls| - 1];
      RunIncluded(small, big, before);
      NextIncluded(small, Run(Limits(small, 0), before), big, Run(Limits(big, 0), before), last.op, last.now);
    }
  }

  /** No Set of the run opens the memory guard.  Without a memory limit none can. */
  predicate NeverShort(lim: Limits, calls: seq<Call>) {
    calls == []
    || (var before, last := calls[..|calls| - 1], calls[|calls| - 1];
        NeverShort(lim, before)
        && (last.op.Set? ==> MemoryFits(lim, Run(lim, before), SetEntry(last))))
  }

  function SetEntry(c: Call): Entry
    requires c.op.Set?
  {
    Entry(c.op.key, NewItem(c.op.value, c.op.ttl, c.now))
  }

  lemma {:induction false} UnlimitedIsNeverShort(lim: Limits, calls: seq<Call>)
    requires lim.maxMemory <= 0
    ensures NeverShort(lim, calls)
  {
    if calls != [] {
      UnlimitedIsNeverShort(lim, calls[..|calls| - 1]);
    }
  }

  /** A step that does not open the memory guard is the step without a memory limit. */
  lemma StepWithoutMemory(capacity: int, m: int, es: seq<Entry>, c: Call)
    requires c.op.Set? ==> MemoryFits(Limits(capacity, m), es, SetEntry(c))
    ensures Next(Limits(capacity, m), es, c.op, c.now) == Next(Limits(capacity, 0), es, c.op, c.now)
  {
  }

  /** When the larger cache is never short of memory, neither is the smaller one: what it
      holds is part of what the larger one holds.  Both runs are then the runs without a
      memory limit. */
  lemma {:induction false} RunsWithoutMemory(small: int, big: int, m: int, calls: seq<Call>)
    requires AtLeast(big, small) && NeverShort(Limits(big, m), calls)
    ensures Run(Limits(big, m), calls) == Run(Limits(big, 0), calls)
    ensures Run(Limits(small, m), calls) == Run(Limits(small, 0), calls)
    ensures NeverShort(Limits(small, m), calls)
  {
    if calls != [] {
      var before, last := calls[..|calls| - 1], calls[|calls| - 1];
      var a, b := Run(Limits(small, 0), before), Run(Limits(big, 0), before);
      RunsWithoutMemory(small, big, m, before);
      RunIncluded(small, big, before);
      SubsequenceMembers(a, b);
      PartFits(a, b);
      StepWithoutMemory(big, m, b, last);
      StepWithoutMemory(small, m, a, last);
    }
  }

  /** Stack inclusion: after any calls that never leave the larger cache short of memory, the
      recency list of the smaller cache is a subsequence of the larger one's, and every read
      that hits in the smaller cache gets the same answer from the larger. */
  lemma BiggerCacheKeepsEveryHit(small: int, big: int, m: int, calls: seq<Call>, key: bytes, now: int)
    requires AtLeast(big, small) && NeverShort(Limits(big, m), calls)
    ensures var a, b := Run(Limits(small, m), calls), Run(Limits(big, m), calls);
            && Subsequence(a, b)
            && (Answers(a, Get(key), now).Hit? ==> Answers(b, Get(key), now) == Answers(a, Get(key), now))
  {
    var a, b := Run(Limits(small, 0), calls), Run(Limits(big, 0), calls);
    RunsWithoutMemory(small, big, m, calls);
    RunIncluded(small, big, calls);
    if Find(a, key).Some? {
      FindIncluded(a, b, key);
    }
  }

  // ---------- Short of memory it fails ----------

  const A: Entry := Entry([65], Item([0, 0, 0, 0, 0], 0))
  const B: Entry := Entry([66], Item([0], 0))
  const C: Entry := Entry([67], Item([0], 0))
  const D: Entry := Entry([68], Item([0, 0, 0], 0))

  function Put(e: Entry): Call {
    Call(Set(e.key, e.item.value, 0), 0)
  }

  const FIVE_CALLS: seq<Call> := [Put(A), Put(B), Put(C), Call(Get(A.key), 0), Put(D)]

  lemma OneMoreCall(lim: Limits, calls: seq<Call>, n: nat)
    requires n < |calls|
    ensures Run(lim, calls[..n + 1]) == Next(lim, Run(lim, calls[..n]), calls[n].op, calls[n].now)
  {
    assert calls[..n + 1][..n] == calls[..n];
  }

  lemma MemOfOne(x: Entry)
    ensures Mem([x]) == Size(x.key, x.item)
  {
    assert [x][1..] == [];
  }

  lemma MemOfTwo(x: Entry, y: Entry)
    ensures Mem([x, y]) == Size(x.key, x.item) + Size(y.key, y.item)
  {
    MemOfOne(y);
    assert [x, y][1..] == [y];
  }

  lemma MemOfThree(x: Entry, y: Entry, z: Entry)
    ensures Mem([x, y, z]) == Size(x.key, x.item) + Size(y.key, y.item) + Size(z.key, z.item)
  {
    MemOfTwo(y, z);
    assert [x, y, z][1..] == [y, z];
  }

  /** A new entry for which the memory suffices. */
  lemma PutOne(lim: Limits, es: seq<Entry>, e: Entry)
    requires (forall x | x in es :: x.key != e.key) && e.item.expiration == 0
    requires Mem(es) + Size(e.key, e.item) <= lim.maxMemory
    ensures Next(lim, es, Put(e).op, 0) == [e] + Trimmed(lim, es)
  {
    assert Find(es, e.key).None? by {
      FindIff(es, e.key);
    }
  }

  /** Both caches begin alike. */
  lemma FirstTwo(lim: Limits)
    requires lim == Limits(2, 10) || lim == Limits(3, 10)
    ensures Run(lim, FIVE_CALLS[..1]) == [A]
    ensures Run(lim, FIVE_CALLS[..2]) == [B, A]
  {
    assert FIVE_CALLS[..0] == [];
    OneMoreCall(lim, FIVE_CALLS, 0);
    PutOne(lim, [], A);
    OneMoreCall(lim, FIVE_CALLS, 1);
    MemOfOne(A);
    PutOne(lim, [A], B);
  }

  lemma SmallRun()
    ensures Run(Limits(2, 10), FIVE_CALLS) == [D, C]
  {
    var lim, calls := Limits(2, 10), FIVE_CALLS;
    assert calls[..5] == calls;
    FirstTwo(lim);
    OneMoreCall(lim, calls, 2);
    MemOfTwo(B, A);
    PutOne(lim, [B, A], C);
    assert Run(lim, calls[..3]) == [C, B];
    OneMoreCall(lim, calls, 3);
    FindIff([C, B], A.key);
    assert Run(lim, calls[..4]) == [C, B];
    OneMoreCall(lim, calls, 4);
    MemOfTwo(C, B);
    PutOne(lim, [C, B], D);
  }

  lemma FirstThree()
    ensures Run(Limits(3, 10), FIVE_CALLS[..3]) == [C, B, A]
  {
    var lim := Limits(3, 10);
    FirstTwo(lim);
    OneMoreCall(lim, FIVE_CALLS, 2);
    MemOfTwo(B, A);
    PutOne(lim, [B, A], C);
  }

  lemma BigRun()
    ensures Run(Limits(3, 10), FIVE_CALLS[..4]) == [A, C, B]
    ensures Run(Limits(3, 10), FIVE_CALLS) == [D, A]
  {
    var lim, calls := Limits(3, 10), FIVE_CALLS;
    assert calls[..5] == calls;
    FirstThree();
    OneMoreCall(lim, calls, 3);
    ReadMovesOldest();
    OneMoreCall(lim, calls, 4);
    LastPut();
  }

  lemma ReadMovesOldest()
    ensures Next(Limits(3, 10), [C, B, A], Get(A.key), 0) == [A, C, B]
  {
    assert [C, B, A][1..] == [B, A] && [B, A][1..] == [A] && [A][1..] == [];
    assert Without([A], A.key) == [];
    assert Without([B, A], A.key) == [B];
    assert Without([C, B, A], A.key) == [C, B];
    assert Find([A], A.key) == Some(A.item);
    assert Find([B, A], A.key) == Some(A.item);
    assert Find([C, B, A], A.key) == Some(A.item);
  }

  lemma LastPut()
    ensures Next(Limits(3, 10), [A, C, B], Put(D).op, 0) == [D, A]
  {
    MemOfThree(A, C, B);
    MemOfTwo(A, C);
    MemOfOne(A);
    assert DropLast([A, C, B]) == [A, C] && DropLast([A, C]) == [A];
    assert MakeRoom([A], 4, 10) == [A];
    assert MakeRoom([A, C], 4, 10) == [A];
    assert MakeRoom([A, C, B], 4, 10) == [A];
    FindIff([A], D.key);
  }

  lemma NeverShortOneMore(lim: Limits, calls: seq<Call>, n: nat)
    requires n < |calls|
    ensures NeverShort(lim, calls[..n + 1])
            <==> NeverShort(lim, calls[..n])
                 && (calls[n].op.Set? ==> MemoryFits(lim, Run(lim, calls[..n]), SetEntry(calls[n])))
  {
    assert calls[..n + 1][..n] == calls[..n];
  }

  /** The last Set of the five calls is the first that opens the guard of the bigger cache. */
  lemma OnlyTheLastIsShort()
    ensures NeverShort(Limits(3, 10), FIVE_CALLS[..4]) && !NeverShort(Limits(3, 10), FIVE_CALLS)
  {
    var lim, calls := Limits(3, 10), FIVE_CALLS;
    FirstTwo(lim);
    BigRun();
    assert calls[..0] == [] && calls[..5] == calls;
    NeverShortOneMore(lim, calls, 0);
    MemOfOne(A);
    NeverShortOneMore(lim, calls, 1);
    MemOfTwo(B, A);
    NeverShortOneMore(lim, calls, 2);
    NeverShortOneMore(lim, calls, 3);
    MemOfThree(A, C, B);
    NeverShortOneMore(lim, calls, 4);
  }

  /** Short of memory, a bigger cache can lose a hit: keeping A made it pay for D with C.  The
      last Set is the one that opens its memory guard. */
  lemma MemoryLimitBreaksInclusion()
    ensures NeverShort(Limits(3, 10), FIVE_CALLS[..4]) && !NeverShort(Limits(3, 10), FIVE_CALLS)
    ensures Answers(Run(Limits(2, 10), FIVE_CALLS), Get(C.key), 0) == Hit(C.item.value)
    ensures Answers(Run(Limits(3, 10), FIVE_CALLS), Get(C.key), 0) == Miss
  {
    SmallRun();
    BigRun();
    assert [D, C][1..] == [C];
    assert Find([C], C.key) == Some(C.item);
    FindIff([D, A], C.key);
    OnlyTheLastIsShort();
  }
}
