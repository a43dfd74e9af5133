/** LRANGE and ZRANGE: index windows with negative positions, `internal/engine/list.go` and
    `internal/engine/sortedset.go`. */
module Ranges {
  import opened Bytes

  /** Negative positions count from the end. */
  function Resolve(i: int, length: nat): int {
    if i < 0 then length + i else i
  }

  predicate InWindow(i: int, start: int, stop: int, length: nat) {
    0 <= i < length && Resolve(start, length) <= i <= Resolve(stop, length)
  }

  /** Normalise, clip, slice. */
  function Window<T>(s: seq<T>, start: int, stop: int): seq<T> {
    var lo := Resolve(start, |s|);
    var hi := Resolve(stop, |s|);
    var from := if lo < 0 then 0 else lo;
    var to := if hi >= |s| then |s| - 1 else hi;
    if from > to then [] else s[from..to + 1]
  }

  /** The elements that a scan of the first `n` positions puts into the window. */
  function Picked<T>(s: seq<T>, start: int, stop: int, n: nat): seq<T>
    requires n <= |s|
  {
    if n == 0 then []
    else Picked(s, start, stop, n - 1) + if InWindow(n - 1, start, stop, |s|) then [s[n - 1]] else []
  }

  lemma OneMoreOfSlice<T>(s: seq<T>, from: nat, n: nat)
    requires from < n <= |s|
    ensures s[from..n] == (if from > n - 2 then [] else s[from..n - 1]) + [s[n - 1]]
  {
  }

  lemma {:induction false} PickedIsSlice<T>(s: seq<T>, start: int, stop: int, n: nat)
    requires n <= |s|
    ensures var lo, hi := Resolve(start, |s|), Resolve(stop, |s|);
            var from := if lo < 0 then 0 else lo;
            var to := if hi >= n then n - 1 else hi;
            Picked(s, start, stop, n) == if from > to then [] else s[from..to + 1]
  {
    if n > 0 {
      PickedIsSlice(s, start, stop, n - 1);
      var lo := Resolve(start, |s|);
      var from := if lo < 0 then 0 else lo;
      if InWindow(n - 1, start, stop, |s|) {
        OneMoreOfSlice(s, from, n);
      } else {
        assert Picked(s, start, stop, n) == Picked(s, start, stop, n - 1);
      }
    }
  }

  /** The window consists of exactly the elements between the two positions, both included
      and both counted from the end when negative, in list order. */
  lemma WindowIsPicked<T>(s: seq<T>, start: int, stop: int)
    ensures Window(s, start, stop) == Picked(s, start, stop, |s|)
  {
    PickedIsSlice(s, start, stop, |s|);
  }

  /** `LRange`: one pass along the nodes of the list, with an index.  The list is its values. */
  method LRange(items: seq<bytes>, start0: int, stop0: int) returns (result: seq<bytes>)
    ensures result == Picked(items, start0, stop0, |items|)
  {
    var start, stop := start0, stop0;
    var length := |items|;
    PickedIsSlice(items, start0, stop0, |items|);
    if length == 0 {
      return [];
    }
    if start < 0 {
      start := length + start;
    }
    if stop < 0 {
      stop := length + stop;
    }
    if start < 0 {
      start := 0;
    }
    if stop >= length {
      stop := length - 1;
    }
    if start > stop {
      return [];
    }
    result := Walk(items, start, stop);
  }

  /** The pass along the list, which stops behind the window. */
  method Walk(items: seq<bytes>, start: nat, stop: nat) returns (result: seq<bytes>)
    requires start <= stop < |items|
    ensures result == items[start..stop + 1]
  {
    result := [];
    var i := 0;
    while i < |items|
      invariant 0 <= i <= |items|
      invariant i <= start ==> result == []
      invariant start < i <= stop ==> result == items[start..i]
      invariant stop < i ==> result == items[start..stop + 1]
    {
      if start <= i <= stop {
        result := result + [items[i]];
      }
      if i > stop {
        break;
      }
      i := i + 1;
    }
  }

  // ---------- Sorted sets ----------

  datatype Member = Member(name: bytes, score: real)

  /** What sorting may leave: the members of the map by score, ties in any order. */
  ghost predicate Arranged(ms: seq<Member>, members: map<bytes, real>) {
    && (forall i, j | 0 <= i < j < |ms| :: ms[i].name != ms[j].name && ms[i].score <= ms[j].score)
    && (forall i | 0 <= i < |ms| :: ms[i].name in members && members[ms[i].name] == ms[i].score)
    && (forall m | m in members :: exists i :: 0 <= i < |ms| && ms[i].name == m)
  }

  function Names(ms: seq<Member>): set<bytes> {
    set i | 0 <= i < |ms| :: ms[i].name
  }

  lemma {:induction false} NamesCount(ms: seq<Member>)
    requires forall i, j | 0 <= i < j < |ms| :: ms[i].name != ms[j].name
    ensures |Names(ms)| == |ms|
  {
    if ms == [] {
      assert Names(ms) == {};
    } else {
      var n := |ms| - 1;
      NamesCount(ms[..n]);
      assert Names(ms) == Names(ms[..n]) + {ms[n].name};
    }
  }

  lemma SubsetCount(a: set<bytes>, b: set<bytes>)
    requires a <= b
    ensures |a| <= |b|
  {
    assert b == a + (b - a);
  }

  function Below(members: map<bytes, real>, x: real): set<bytes> {
    set m | m in members && members[m] < x
  }

  /** The first members, up to one below `x`, all are below `x`. */
  lemma PrefixIsBelow(a: seq<Member>, members: map<bytes, real>, i: nat, x: real)
    requires Arranged(a, members) && i < |a| && a[i].score < x
    ensures i < |Below(members, x)|
  {
    var names := Names(a[..i + 1]);
    NamesCount(a[..i + 1]);
    forall m | m in names ensures m in Below(members, x) {
      var j :| 0 <= j < |a[..i + 1]| && a[..i + 1][j].name == m;
      assert a[j].name == m && a[j].score <= a[i].score;
    }
    SubsetCount(names, Below(members, x));
  }

  /** What is below the score of rank `i` comes before rank `i`. */
  lemma BelowIsPrefix(b: seq<Member>, members: map<bytes, real>, i: nat)
    requires Arranged(b, members) && i < |b|
    ensures |Below(members, b[i].score)| <= i
  {
    var names := Names(b[..i]);
    NamesCount(b[..i]);
    forall m | m in Below(members, b[i].score) ensures m in names {
      var j :| 0 <= j < |b| && b[j].name == m;
      assert j < i;
      assert b[..i][j].name == m;
    }
    SubsetCount(Below(members, b[i].score), names);
  }

  lemma RankIsNotBelow(a: seq<Member>, b: seq<Member>, members: map<bytes, real>, i: nat)
    requires Arranged(a, members) && Arranged(b, members) && i < |a| && i < |b|
    ensures b[i].score <= a[i].score
  {
    if a[i].score < b[i].score {
      PrefixIsBelow(a, members, i, b[i].score);
      BelowIsPrefix(b, members, i);
    }
  }

  lemma ArrangedCount(ms: seq<Member>, members: map<bytes, real>)
    requires Arranged(ms, members)
    ensures |ms| == |members|
  {
    NamesCount(ms);
    assert Names(ms) == members.Keys;
  }

  /** ZRANGE answers with the same scores at the same ranks however ties and the visiting
      order of the map fall out. */
  lemma RangeScoresAreFixed(a: seq<Member>, b: seq<Member>, members: map<bytes, real>, start: int, stop: int)
    requires Arranged(a, members) && Arranged(b, members)
    ensures |a| == |b| == |members|
    ensures var v, w := Window(a, start, stop), Window(b, start, stop);
            |v| == |w| && forall i | 0 <= i < |v| :: v[i].score == w[i].score
  {
    ArrangedCount(a, members);
    ArrangedCount(b, members);
    forall i | 0 <= i < |a| ensures a[i].score == b[i].score {
      RankIsNotBelow(a, b, members, i);
      RankIsNotBelow(b, a, members, i);
    }
    WindowsAgree(a, b, start, stop);
  }

  lemma WindowsAgree(a: seq<Member>, b: seq<Member>, start: int, stop: int)
    requires |a| == |b| && forall i | 0 <= i < |a| :: a[i].score == b[i].score
    ensures var v, w := Window(a, start, stop), Window(b, start, stop);
            |v| == |w| && forall i | 0 <= i < |v| :: v[i].score == w[i].score
  {
  }

  /** Positions in numbers: from `a` to `b`, both included, whether counted from the front or
      from the end. */
  lemma WindowInNumbers<T>(s: seq<T>, a: nat, b: nat)
    requires a <= b < |s|
    ensures Window(s, a, b) == s[a..b + 1]
    ensures Window(s, a - |s|, b) == s[a..b + 1]
    ensures Window(s, a, b - |s|) == s[a..b + 1]
    ensures Window(s, a - |s|, b - |s|) == s[a..b + 1]
    ensures a < b ==> Window(s, b, a) == []
  {
  }

  /** A window that reaches too far on one side is cut off there; one that lies outside
      altogether is empty. */
  lemma WindowTooFar<T>(s: seq<T>, a: nat, far: nat, other: int)
    requires a < |s|
    ensures Window(s, a, |s| + far) == s[a..]
    ensures Window(s, -|s| - 1 - far, a) == s[..a + 1]
    ensures Window(s, |s| + far, other) == [] && Window(s, other, -|s| - 1 - far) == []
  {
  }
}
