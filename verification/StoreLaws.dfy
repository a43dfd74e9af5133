/** What the write commands do to the data, said in terms of their arguments: which value a
    key, field or member has afterwards, in which order, and what is replied.  The folds of
    module `Store` are not mentioned in what is promised here. */
module StoreLaws {
  import opened Bytes
  import opened Lru
  import opened Commands
  import opened Store
  import opened Conservation

  // ---------- Pairs ----------

  /** The two arguments of the j-th pair. */
  function First(pairs: seq<bytes>, j: nat): bytes
    requires 2 * j + 1 < |pairs|
  {
    pairs[2 * j]
  }

  function Second(pairs: seq<bytes>, j: nat): bytes
    requires 2 * j + 1 < |pairs|
  {
    pairs[2 * j + 1]
  }

  /** Of the pairs before number `n`, the j-th is the last that begins like it. */
  predicate LastFirst(pairs: seq<bytes>, j: nat, n: nat)
    requires 2 * n <= |pairs|
  {
    j < n && forall i | j < i < n :: First(pairs, i) != First(pairs, j)
  }

  predicate NoFirst(pairs: seq<bytes>, k: bytes, n: nat)
    requires 2 * n <= |pairs|
  {
    forall i | 0 <= i < n :: First(pairs, i) != k
  }

  lemma Shifted(pairs: seq<bytes>)
    requires |pairs| >= 2
    ensures forall i: nat | 2 * i + 1 < |pairs| - 2 ::
              First(pairs[2..], i) == First(pairs, i + 1) && Second(pairs[2..], i) == Second(pairs, i + 1)
  {
  }

  lemma {:induction false} PutPairsKeeps(m: map<bytes, bytes>, pairs: seq<bytes>, k: bytes)
    requires |pairs| % 2 == 0 && NoFirst(pairs, k, |pairs| / 2)
    ensures SameAt(PutPairs(m, pairs), m, k)
    decreases |pairs|
  {
    if |pairs| >= 2 {
      assert First(pairs, 0) != k;
      Shifted(pairs);
      PutPairsKeeps(m[pairs[0] := pairs[1]], pairs[2..], k);
    }
  }

  lemma {:induction false} PutPairsStores(m: map<bytes, bytes>, pairs: seq<bytes>, j: nat)
    requires |pairs| % 2 == 0 && LastFirst(pairs, j, |pairs| / 2)
    ensures var r := PutPairs(m, pairs); First(pairs, j) in r && r[First(pairs, j)] == Second(pairs, j)
    decreases |pairs|
  {
    Shifted(pairs);
    if j == 0 {
      PutPairsKeeps(m[pairs[0] := pairs[1]], pairs[2..], First(pairs, 0));
    } else {
      PutPairsStores(m[pairs[0] := pairs[1]], pairs[2..], j - 1);
    }
  }

  lemma {:induction false} SetPairsKeeps(m: map<bytes, Item>, pairs: seq<bytes>, k: bytes)
    requires |pairs| % 2 == 0 && NoFirst(pairs, k, |pairs| / 2)
    ensures SameAt(SetPairs(m, pairs), m, k)
    decreases |pairs|
  {
    if |pairs| >= 2 {
      assert First(pairs, 0) != k;
      Shifted(pairs);
      SetPairsKeeps(m[pairs[0] := Item(pairs[1], 0)], pairs[2..], k);
    }
  }

  lemma {:induction false} SetPairsStores(m: map<bytes, Item>, pairs: seq<bytes>, j: nat)
    requires |pairs| % 2 == 0 && LastFirst(pairs, j, |pairs| / 2)
    ensures var r := SetPairs(m, pairs); First(pairs, j) in r && r[First(pairs, j)] == Item(Second(pairs, j), 0)
    decreases |pairs|
  {
    Shifted(pairs);
    if j == 0 {
      SetPairsKeeps(m[pairs[0] := Item(pairs[1], 0)], pairs[2..], First(pairs, 0));
    } else {
      SetPairsStores(m[pairs[0] := Item(pairs[1], 0)], pairs[2..], j - 1);
    }
  }

  // ---------- Scores ----------

  /** The scores of the first `n` pairs are floats, that of the next one, if any, is not. */
  predicate GoodScores(pf: FloatParser, pairs: seq<bytes>, n: nat)
    requires |pairs| % 2 == 0 && 2 * n <= |pairs|
  {
    && (forall i | 0 <= i < n :: pf(First(pairs, i)).Some?)
    && (2 * n < |pairs| ==> pf(First(pairs, n)).None?)
  }

  /** Of the pairs before number `n`, the j-th is the last that names its member. */
  predicate LastSecond(pairs: seq<bytes>, j: nat, n: nat)
    requires 2 * n <= |pairs|
  {
    j < n && forall i | j < i < n :: Second(pairs, i) != Second(pairs, j)
  }

  predicate NoSecond(pairs: seq<bytes>, k: bytes, n: nat)
    requires 2 * n <= |pairs|
  {
    forall i | 0 <= i < n :: Second(pairs, i) != k
  }

  lemma {:induction false} AddScoresKeeps(pf: FloatParser, z: map<bytes, Score>, pairs: seq<bytes>, n: nat, k: bytes)
    requires |pairs| % 2 == 0 && 2 * n <= |pairs| && GoodScores(pf, pairs, n) && NoSecond(pairs, k, n)
    ensures SameAt(AddScores(pf, z, pairs).scores, z, k) && (AddScores(pf, z, pairs).ok <==> 2 * n == |pairs|)
    decreases |pairs|
  {
    if |pairs| >= 2 && n > 0 {
      assert pf(First(pairs, 0)).Some? && Second(pairs, 0) != k;
      Shifted(pairs);
      AddScoresKeeps(pf, z[pairs[1] := pf(pairs[0]).value], pairs[2..], n - 1, k);
    } else if |pairs| >= 2 {
      assert pf(First(pairs, 0)).None?;
    }
  }

  lemma {:induction false} AddScoresStores(pf: FloatParser, z: map<bytes, Score>, pairs: seq<bytes>, n: nat, j: nat)
    requires |pairs| % 2 == 0 && 2 * n <= |pairs| && GoodScores(pf, pairs, n) && LastSecond(pairs, j, n)
    ensures var r := AddScores(pf, z, pairs).scores;
            Second(pairs, j) in r && pf(First(pairs, j)) == Some(r[Second(pairs, j)])
    decreases |pairs|
  {
    Shifted(pairs);
    assert pf(First(pairs, 0)).Some?;
    var z' := z[pairs[1] := pf(pairs[0]).value];
    if j == 0 {
      AddScoresKeeps(pf, z', pairs[2..], n - 1, Second(pairs, 0));
    } else {
      AddScoresStores(pf, z', pairs[2..], n - 1, j - 1);
    }
  }

  // ---------- Keys, members and values ----------

  lemma {:induction false} RemoveAllLeaves<V>(m: map<bytes, V>, keys: seq<bytes>)
    ensures forall k :: k in RemoveAll(m, keys) <==> k in m && k !in keys
    ensures forall k | k in RemoveAll(m, keys) :: RemoveAll(m, keys)[k] == m[k]
  {
    if keys != [] {
      RemoveAllLeaves(m - {keys[0]}, keys[1..]);
      assert keys == [keys[0]] + keys[1..];
    }
  }

  lemma {:induction false} AddMembersGives(s: set<bytes>, ms: seq<bytes>)
    ensures forall x :: x in AddMembers(s, ms) <==> x in s || x in ms
    decreases |ms|
  {
    if ms != [] {
      AddMembersGives(s + {ms[0]}, ms[1..]);
      assert ms == [ms[0]] + ms[1..];
    }
  }

  lemma {:induction false} RemoveMembersLeaves(s: set<bytes>, ms: seq<bytes>)
    ensures forall x :: x in RemoveMembers(s, ms) <==> x in s && x !in ms
    decreases |ms|
  {
    if ms != [] {
      RemoveMembersLeaves(s - {ms[0]}, ms[1..]);
      assert ms == [ms[0]] + ms[1..];
    }
  }

  /** The last value pushed stands first. */
  lemma {:induction false} PushFrontOrder(l: seq<bytes>, vs: seq<bytes>)
    ensures var r := PushFront(l, vs);
            && |r| == |vs| + |l| && r[|vs|..] == l
            && forall i | 0 <= i < |vs| :: r[i] == vs[|vs| - 1 - i]
    decreases |vs|
  {
    if vs != [] {
      var r := PushFront(l, vs);
      PushFrontOrder([vs[0]] + l, vs[1..]);
      assert r[|vs| - 1..] == [vs[0]] + l;
      assert r[|vs| - 1..][0] == vs[0] && r[|vs| - 1..][1..] == r[|vs|..];
      forall i | 0 <= i < |vs| ensures r[i] == vs[|vs| - 1 - i] {
        if i < |vs| - 1 {
          assert r[i] == vs[1..][|vs| - 2 - i];
        } else {
          assert r[i] == r[|vs| - 1..][0];
        }
      }
    }
  }

  /** DEL, HDEL and ZREM count what they find, once each. */
  lemma {:induction false} CountPresentCounts<V>(m: map<bytes, V>, keys: seq<bytes>)
    ensures CountPresent(m, keys) == |set k | k in keys && k in m|
  {
    if keys != [] {
      var m' := m - {keys[0]};
      CountPresentCounts(m', keys[1..]);
      var all, rest := set k | k in keys && k in m, set k | k in keys[1..] && k in m';
      assert keys == [keys[0]] + keys[1..];
      if keys[0] in m {
        assert all == rest + {keys[0]};
      } else {
        assert all == rest;
      }
    }
  }

  // ---------- Refusals ----------

  /** Too few arguments, or an odd number where pairs are asked for. */
  predicate Refused(c: Command)
    requires IsWrite(c.name)
  {
    var n := |c.args|;
    match c.name
    case DEL | LPOP | RPOP => n == 0
    case MSET | MSETNX => n == 0 || n % 2 == 1
    case HSET | ZADD => n < 3 || n % 2 == 0
    case _ => n < 2
  }

  /** These are the commands a handler refuses; they change nothing and are not logged. */
  lemma RefusedExactly(pf: FloatParser, s: State, c: Command, now: int)
    requires IsWrite(c.name)
    ensures var o := Live(pf, s, c, now);
            && (o.reply == WrongArguments <==> Refused(c))
            && (o.reply == WrongArguments ==> o.state == s && !o.logged)
  {
  }

  // ---------- Strings ----------

  /** SET stores the value; its deadline is the subject of module Deadlines. */
  lemma SetStores(pf: FloatParser, s: State, k: bytes, v: bytes, opts: seq<bytes>, now: int)
    ensures var o := Live(pf, s, Command(SET, [k, v] + opts), now);
            && o.reply == OK && o.logged && k in o.state.strings && o.state.strings[k].value == v
            && (opts == [] ==> o.state.strings[k] == Item(v, 0))
  {
  }

  lemma DelRemoves(pf: FloatParser, s: State, keys: seq<bytes>, now: int)
    requires keys != []
    ensures var o := Live(pf, s, Command(DEL, keys), now);
            && o.reply == Int(|set k | k in keys && k in s.strings|) && o.logged
            && (forall k :: k in o.state.strings <==> k in s.strings && k !in keys)
            && (forall k | k in o.state.strings :: o.state.strings[k] == s.strings[k])
  {
    RemoveAllLeaves(s.strings, keys);
    CountPresentCounts(s.strings, keys);
  }

  /** After MSET a key holds the value behind its last mention, without a deadline. */
  lemma MSetStores(pf: FloatParser, s: State, pairs: seq<bytes>, j: nat, now: int)
    requires |pairs| % 2 == 0 && LastFirst(pairs, j, |pairs| / 2)
    ensures var o := Live(pf, s, Command(MSET, pairs), now);
            && o.reply == OK && o.logged && First(pairs, j) in o.state.strings
            && o.state.strings[First(pairs, j)] == Item(Second(pairs, j), 0)
  {
    SetPairsStores(s.strings, pairs, j);
  }

  lemma {:induction false} EvensAre(args: seq<bytes>)
    ensures |Evens(args)| == (|args| + 1) / 2
    ensures forall j | 0 <= j < |Evens(args)| :: Evens(args)[j] == args[2 * j]
    decreases |args|
  {
    if |args| >= 2 {
      EvensAre(args[2..]);
    }
  }

  /** MSETNX does nothing if some key to be set is held, expired or not, and what MSET does
      otherwise. */
  lemma MSetNXStores(pf: FloatParser, s: State, pairs: seq<bytes>, now: int)
    requires |pairs| >= 2 && |pairs| % 2 == 0
    ensures var o := Live(pf, s, Command(MSETNX, pairs), now);
            if exists j | 0 <= j < |pairs| / 2 :: First(pairs, j) in s.strings then
              o == Outcome(s, Int(0), false)
            else
              o.reply == Int(1) && o.logged && o.state == Live(pf, s, Command(MSET, pairs), now).state
  {
    EvensAre(pairs);
    assert AnyKey(s.strings, pairs) <==> exists j | 0 <= j < |pairs| / 2 :: First(pairs, j) in s.strings by {
      if AnyKey(s.strings, pairs) {
        var k :| k in Evens(pairs) && k in s.strings;
        var j :| 0 <= j < |Evens(pairs)| && Evens(pairs)[j] == k;
        assert First(pairs, j) == k;
      }
      if j :| 0 <= j < |pairs| / 2 && First(pairs, j) in s.strings {
        assert Evens(pairs)[j] == First(pairs, j);
      }
    }
  }

  /** APPEND puts the argument behind a value that is there and not past its deadline, and
      stores the argument alone otherwise; a deadline is given up in both cases. */
  lemma AppendStores(pf: FloatParser, s: State, k: bytes, tail: bytes, now: int)
    ensures var o := Live(pf, s, Command(APPEND, [k, tail]), now);
            var alive := k in s.strings && (s.strings[k].expiration == 0 || now <= s.strings[k].expiration);
            var value := if alive then s.strings[k].value + tail else tail;
            && o.reply == Int(|value|) && o.logged && k in o.state.strings && o.state.strings[k] == Item(value, 0)
  {
  }

  // ---------- Hashes ----------

  /** After HSET a field holds the value behind its last mention. */
  lemma HSetStores(pf: FloatParser, s: State, k: bytes, pairs: seq<bytes>, j: nat, now: int)
    requires |pairs| % 2 == 0 && LastFirst(pairs, j, |pairs| / 2)
    ensures var o := Live(pf, s, Command(HSET, [k] + pairs), now);
            && o.logged && k in o.state.hashes && First(pairs, j) in o.state.hashes[k]
            && o.state.hashes[k][First(pairs, j)] == Second(pairs, j)
  {
    assert ([k] + pairs)[1..] == pairs;
    PutPairsStores(GetOr(s.hashes, k, map[]), pairs, j);
  }

  /** A field that HSET does not mention stays as it was. */
  lemma HSetKeeps(pf: FloatParser, s: State, k: bytes, pairs: seq<bytes>, f: bytes, now: int)
    requires pairs != [] && |pairs| % 2 == 0 && NoFirst(pairs, f, |pairs| / 2)
    ensures var o := Live(pf, s, Command(HSET, [k] + pairs), now);
            k in o.state.hashes && SameAt(o.state.hashes[k], GetOr(s.hashes, k, map[]), f)
  {
    assert ([k] + pairs)[1..] == pairs;
    PutPairsKeeps(GetOr(s.hashes, k, map[]), pairs, f);
  }

  lemma HDelRemoves(pf: FloatParser, s: State, k: bytes, fields: seq<bytes>, now: int)
    requires fields != []
    ensures var o := Live(pf, s, Command(HDEL, [k] + fields), now);
            var h, h' := GetOr(s.hashes, k, map[]), GetOr(o.state.hashes, k, map[]);
            && o.reply == Int(|set f | f in fields && f in h|) && (o.logged <==> k in s.hashes)
            && (forall f :: f in h' <==> f in h && f !in fields)
            && (forall f | f in h' :: h'[f] == h[f])
  {
    var h: map<bytes, bytes> := GetOr(s.hashes, k, map[]);
    assert ([k] + fields)[1..] == fields;
    RemoveAllLeaves(h, fields);
    CountPresentCounts(h, fields);
    if k !in s.hashes {
      assert (set f | f in fields && f in h) == {};
    }
  }

  // ---------- Lists ----------

  /** LPUSH puts one value after the other in front: they end up in reverse order. */
  lemma LPushOrder(pf: FloatParser, s: State, k: bytes, vs: seq<bytes>, now: int)
    requires vs != []
    ensures var o, l := Live(pf, s, Command(LPUSH, [k] + vs), now), GetOr(s.lists, k, []);
            && o.reply == Int(|l| + |vs|) && o.logged && k in o.state.lists && |o.state.lists[k]| == |vs| + |l|
            && (forall i | 0 <= i < |vs| :: o.state.lists[k][i] == vs[|vs| - 1 - i])
            && o.state.lists[k][|vs|..] == l
  {
    assert ([k] + vs)[1..] == vs;
    PushFrontOrder(GetOr(s.lists, k, []), vs);
  }

  /** RPUSH puts them behind, in order. */
  lemma RPushOrder(pf: FloatParser, s: State, k: bytes, vs: seq<bytes>, now: int)
    requires vs != []
    ensures var o, l := Live(pf, s, Command(RPUSH, [k] + vs), now), GetOr(s.lists, k, []);
            o.reply == Int(|l| + |vs|) && o.logged && k in o.state.lists && o.state.lists[k] == l + vs
  {
    assert ([k] + vs)[1..] == vs;
  }

  /** LPOP replies the first value and takes it away, RPOP the last; from an empty list
      both reply null and are not logged. */
  lemma PopTakes(pf: FloatParser, s: State, k: bytes, more: seq<bytes>, now: int)
    ensures var l, args := GetOr(s.lists, k, []), [k] + more;
            var left, right := Live(pf, s, Command(LPOP, args), now), Live(pf, s, Command(RPOP, args), now);
            if l == [] then left == Outcome(s, Null, false) && right == Outcome(s, Null, false)
            else
              && left.logged && left.reply.Bulk? && [left.reply.value] + GetOr(left.state.lists, k, []) == l
              && right.logged && right.reply.Bulk? && GetOr(right.state.lists, k, []) + [right.reply.value] == l
  {
  }

  // ---------- Sets ----------

  lemma SAddAdds(pf: FloatParser, s: State, k: bytes, ms: seq<bytes>, now: int)
    requires ms != []
    ensures var o := Live(pf, s, Command(SADD, [k] + ms), now);
            && o.logged && k in o.state.sets
            && forall x :: x in o.state.sets[k] <==> x in GetOr(s.sets, k, {}) || x in ms
  {
    assert ([k] + ms)[1..] == ms;
    AddMembersGives(GetOr(s.sets, k, {}), ms);
  }

  lemma SRemRemoves(pf: FloatParser, s: State, k: bytes, ms: seq<bytes>, now: int)
    requires ms != []
    ensures var o := Live(pf, s, Command(SREM, [k] + ms), now);
            && (o.logged <==> k in s.sets)
            && forall x :: x in GetOr(o.state.sets, k, {}) <==> x in GetOr(s.sets, k, {}) && x !in ms
  {
    assert ([k] + ms)[1..] == ms;
    RemoveMembersLeaves(GetOr(s.sets, k, {}), ms);
  }

  // ---------- Sorted sets ----------

  /** ZADD takes its pairs, score first, up to the first score that is no float.  A member
      has the score of its last mention among those. */
  lemma ZAddStores(pf: FloatParser, s: State, k: bytes, pairs: seq<bytes>, n: nat, j: nat, now: int)
    requires |pairs| % 2 == 0 && 2 * n <= |pairs| && GoodScores(pf, pairs, n) && LastSecond(pairs, j, n)
    ensures var o := Live(pf, s, Command(ZADD, [k] + pairs), now);
            && k in o.state.zsets && Second(pairs, j) in o.state.zsets[k]
            && pf(First(pairs, j)) == Some(o.state.zsets[k][Second(pairs, j)])
  {
    assert ([k] + pairs)[1..] == pairs;
    AddScoresStores(pf, GetOr(s.zsets, k, map[]), pairs, n, j);
  }

  /** A member that they do not mention stays as it was; the command is logged, and not
      answered with an error, exactly when all scores are floats. */
  lemma ZAddKeeps(pf: FloatParser, s: State, k: bytes, pairs: seq<bytes>, n: nat, m: bytes, now: int)
    requires pairs != [] && |pairs| % 2 == 0 && 2 * n <= |pairs| && GoodScores(pf, pairs, n) && NoSecond(pairs, m, n)
    ensures var o := Live(pf, s, Command(ZADD, [k] + pairs), now);
            && k in o.state.zsets && SameAt(o.state.zsets[k], GetOr(s.zsets, k, map[]), m)
            && (o.logged <==> 2 * n == |pairs|) && (o.reply == NotAFloat <==> 2 * n < |pairs|)
  {
    assert ([k] + pairs)[1..] == pairs;
    AddScoresKeeps(pf, GetOr(s.zsets, k, map[]), pairs, n, m);
  }

  lemma ZRemRemoves(pf: FloatParser, s: State, k: bytes, ms: seq<bytes>, now: int)
    requires ms != []
    ensures var o := Live(pf, s, Command(ZREM, [k] + ms), now);
            var z, z' := GetOr(s.zsets, k, map[]), GetOr(o.state.zsets, k, map[]);
            && o.reply == Int(|set m | m in ms && m in z|) && (o.logged <==> k in s.zsets)
            && (forall m :: m in z' <==> m in z && m !in ms)
            && (forall m | m in z' :: z'[m] == z[m])
  {
    var z: map<bytes, Score> := GetOr(s.zsets, k, map[]);
    assert ([k] + ms)[1..] == ms;
    RemoveAllLeaves(z, ms);
    CountPresentCounts(z, ms);
    if k !in s.zsets {
      assert (set m | m in ms && m in z) == {};
    }
  }

  // ---------- Replay ----------

  /** Replay does what the handler did, but for SET, which knows EX only, and for APPEND,
      which it skips. */
  lemma ReplayIsLive(pf: FloatParser, s: State, c: Command, now: int, later: int)
    requires IsWrite(c.name) && !c.name.SET?
    ensures Replay(pf, s, c, later) == if c.name.APPEND? then s else Live(pf, s, c, now).state
  {
    match c.name
    case HSET | HDEL => HashesReplayedAlike(s, c.args);
    case LPUSH | RPUSH | LPOP | RPOP => ListsReplayedAlike(s, c.args);
    case SADD | SREM | ZADD | ZREM => SetsReplayedAlike(pf, s, c.args);
    case _ =>
  }

  lemma HashesReplayedAlike(s: State, args: seq<bytes>)
    ensures ReplayHSet(s, args) == HandleHSet(s, args).state && ReplayHDel(s, args) == HandleHDel(s, args).state
  {
  }

  lemma ListsReplayedAlike(s: State, args: seq<bytes>)
    ensures forall left :: ReplayPush(s, left, args) == HandlePush(s, left, args).state
    ensures forall left :: ReplayPop(s, left, args) == HandlePop(s, left, args).state
  {
  }

  lemma SetsReplayedAlike(pf: FloatParser, s: State, args: seq<bytes>)
    ensures ReplaySAdd(s, args) == HandleSAdd(s, args).state && ReplaySRem(s, args) == HandleSRem(s, args).state
    ensures ReplayZAdd(pf, s, args) == HandleZAdd(pf, s, args).state && ReplayZRem(s, args) == HandleZRem(s, args).state
  {
  }

  // ---------- Which keys a command can change ----------

  /** What can be read under `k` is the same; an empty collection is as good as none. */
  predicate ReadsAlike(s: State, t: State, k: bytes) {
    && SameAt(s.strings, t.strings, k)
    && GetOr(s.hashes, k, map[]) == GetOr(t.hashes, k, map[])
    && GetOr(s.lists, k, []) == GetOr(t.lists, k, [])
    && GetOr(s.sets, k, {}) == GetOr(t.sets, k, {})
    && GetOr(s.zsets, k, map[]) == GetOr(t.zsets, k, map[])
  }

  ghost predicate Changes(pf: FloatParser, c: Command, s: State, now: int, k: bytes)
    requires IsWrite(c.name)
  {
    !ReadsAlike(s, Live(pf, s, c, now).state, k)
  }

  /** In some state, at some time, the command changes what can be read under `k`. */
  ghost predicate CanChange(pf: FloatParser, c: Command, k: bytes)
    requires IsWrite(c.name)
  {
    exists s, now :: Changes(pf, c, s, now, k)
  }

  /** Neither refused nor a ZADD that stops at its first score. */
  predicate Effective(pf: FloatParser, c: Command)
    requires IsWrite(c.name)
  {
    !Refused(c) && (c.name.ZADD? ==> pf(c.args[1]).Some?)
  }

  lemma {:induction false} SetPairsHolds(m: map<bytes, Item>, pairs: seq<bytes>, k: bytes)
    requires |pairs| % 2 == 0 && (k in Evens(pairs) || k in m)
    ensures k in SetPairs(m, pairs)
    decreases |pairs|
  {
    if |pairs| >= 2 {
      SetPairsHolds(m[pairs[0] := Item(pairs[1], 0)], pairs[2..], k);
    }
  }

  lemma StringsCanChange(pf: FloatParser, c: Command, k: bytes)
    requires OnStrings(c.name) && !Refused(c)
    requires if c.name.DEL? then k in c.args else k in ExtractKeys(c.name, c.args)
    ensures CanChange(pf, c, k)
  {
    if c.name.DEL? {
      var s := EMPTY.(strings := map[k := Item([], 0)]);
      RemoveAllLeaves(s.strings, c.args);
      assert Changes(pf, c, s, 0, k);
    } else {
      if c.name.MSET? || c.name.MSETNX? {
        SetPairsHolds(map[], c.args, k);
      }
      assert Changes(pf, c, EMPTY, 0, k);
    }
  }

  lemma {:induction false} PutPairsHolds(m: map<bytes, bytes>, pairs: seq<bytes>, f: bytes)
    requires f in m || (|pairs| >= 2 && f == pairs[0])
    ensures f in PutPairs(m, pairs)
    decreases |pairs|
  {
    if |pairs| >= 2 {
      PutPairsHolds(m[pairs[0] := pairs[1]], pairs[2..], f);
    }
  }

  lemma HSetCanChange(pf: FloatParser, c: Command)
    requires c.name.HSET? && !Refused(c)
    ensures CanChange(pf, c, c.args[0])
  {
    var k, pairs := c.args[0], c.args[1..];
    PutPairsHolds(map[], pairs, pairs[0]);
    assert pairs[0] in GetOr(HandleHSet(EMPTY, c.args).state.hashes, k, map[]);
    assert Changes(pf, c, EMPTY, 0, k);
  }

  lemma HDelCanChange(pf: FloatParser, c: Command)
    requires c.name.HDEL? && !Refused(c)
    ensures CanChange(pf, c, c.args[0])
  {
    var k, fields := c.args[0], c.args[1..];
    var none: map<bytes, bytes> := map[];
    var h := none[fields[0] := []];
    var s := EMPTY.(hashes := map[k := h]);
    RemoveAllLeaves(h, fields);
    assert fields[0] in h && fields[0] !in RemoveAll(h, fields);
    assert GetOr(HandleHDel(s, c.args).state.hashes, k, none) == RemoveAll(h, fields) != h;
    assert Changes(pf, c, s, 0, k);
  }

  lemma ListsCanChange(pf: FloatParser, c: Command)
    requires OnLists(c.name) && !Refused(c)
    ensures CanChange(pf, c, c.args[0])
  {
    var k, vs := c.args[0], c.args[1..];
    if c.name.LPUSH? || c.name.RPUSH? {
      PushFrontOrder([], vs);
      assert [] + vs == vs;
      assert Changes(pf, c, EMPTY, 0, k);
    } else {
      assert Changes(pf, c, EMPTY.(lists := map[k := [[]]]), 0, k);
    }
  }

  lemma SetsCanChange(pf: FloatParser, c: Command)
    requires OnSets(c.name) && !Refused(c)
    ensures CanChange(pf, c, c.args[0])
  {
    var k, ms := c.args[0], c.args[1..];
    if c.name.SADD? {
      AddMembersGives({}, ms);
      assert ms[0] in AddMembers({}, ms);
      assert Changes(pf, c, EMPTY, 0, k);
    } else {
      RemoveMembersLeaves({ms[0]}, ms);
      assert ms[0] !in RemoveMembers({ms[0]}, ms);
      assert Changes(pf, c, EMPTY.(sets := map[k := {ms[0]}]), 0, k);
    }
  }

  lemma SortedSetsCanChange(pf: FloatParser, c: Command)
    requires OnSortedSets(c.name) && Effective(pf, c)
    ensures CanChange(pf, c, c.args[0])
  {
    var k, ms := c.args[0], c.args[1..];
    var none: map<bytes, Score> := map[];
    if c.name.ZADD? {
      assert ms[0] == c.args[1];
      ScoresKeep(pf, none[ms[1] := pf(ms[0]).value], ms[2..], ms[1]);
      assert ms[1] in AddScores(pf, none, ms).scores;
      assert Changes(pf, c, EMPTY, 0, k);
    } else {
      var z := none[ms[0] := 0];
      RemoveAllLeaves(z, ms);
      assert ms[0] in z && ms[0] !in RemoveAll(z, ms);
      assert Changes(pf, c, EMPTY.(zsets := map[k := z]), 0, k);
    }
  }

  lemma {:induction false} ScoresKeep(pf: FloatParser, z: map<bytes, Score>, pairs: seq<bytes>, m: bytes)
    requires m in z
    ensures m in AddScores(pf, z, pairs).scores
    decreases |pairs|
  {
    if |pairs| >= 2 && pf(pairs[0]).Some? {
      ScoresKeep(pf, z[pairs[1] := pf(pairs[0]).value], pairs[2..], m);
    }
  }

  /** Whatever `extractKeys` reports of a command that takes effect, the command can change. */
  lemma ReportedCanChange(pf: FloatParser, c: Command, k: bytes)
    requires IsWrite(c.name) && Effective(pf, c) && k in ExtractKeys(c.name, c.args)
    ensures CanChange(pf, c, k)
  {
    match c.name
    case SET | DEL | MSET | MSETNX | APPEND => StringsCanChange(pf, c, k);
    case HSET => HSetCanChange(pf, c);
    case HDEL => HDelCanChange(pf, c);
    case LPUSH | RPUSH | LPOP | RPOP => ListsCanChange(pf, c);
    case SADD | SREM => SetsCanChange(pf, c);
    case ZADD | ZREM => SortedSetsCanChange(pf, c);
  }

  lemma IdleChangesNothing(pf: FloatParser, s: State, c: Command, now: int, k: bytes)
    requires IsWrite(c.name) && !Effective(pf, c)
    ensures !Changes(pf, c, s, now, k)
  {
    RefusedExactly(pf, s, c, now);
    if !Refused(c) {
      assert c.args[1..][0] == c.args[1];
    }
  }

  /** What `extractKeys` reports, exactly: a write command can change what is read under a
      key if and only if it takes effect and the key is reported; for DEL, if and only if
      the key is one of its arguments, of which only the first is reported. */
  lemma ReportedExactly(pf: FloatParser, c: Command, k: bytes)
    requires IsWrite(c.name)
    ensures CanChange(pf, c, k)
            <==> Effective(pf, c) && if c.name.DEL? then k in c.args else k in ExtractKeys(c.name, c.args)
    ensures c.name.DEL? && c.args != [] ==> ExtractKeys(c.name, c.args) == [c.args[0]]
  {
    if CanChange(pf, c, k) {
      var s, now :| Changes(pf, c, s, now, k);
      ChangedIsReported(pf, c, s, now, k);
    } else if Effective(pf, c) {
      if c.name.DEL? && k in c.args {
        StringsCanChange(pf, c, k);
      } else if k in ExtractKeys(c.name, c.args) {
        ReportedCanChange(pf, c, k);
      }
    }
  }

  lemma ChangedIsReported(pf: FloatParser, c: Command, s: State, now: int, k: bytes)
    requires IsWrite(c.name) && Changes(pf, c, s, now, k)
    ensures Effective(pf, c) && if c.name.DEL? then k in c.args else k in ExtractKeys(c.name, c.args)
  {
    if !Effective(pf, c) {
      IdleChangesNothing(pf, s, c, now, k);
    }
    if c.name.DEL? {
      RemoveAllLeaves(s.strings, c.args);
    } else if k !in ExtractKeys(c.name, c.args) {
      ChangesOnlyNamed(pf, s, c, now, k);
    }
  }
}
