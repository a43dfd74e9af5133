/** Bookkeeping over whole runs: cardinalities are exactly what the replies add up to, and
    commands change only the keys that the watch mechanism knows they name. */
module Conservation {
  import opened Bytes
  import opened Lru
  import opened Commands
  import opened Store
  import opened Aof

  // ---------- Replies add up ----------

  datatype Kind = Hashes | Lists | Sets | SortedSets

  /** HLEN, LLEN, SCARD and ZCARD. */
  function Cardinality(s: State, kind: Kind, k: bytes): nat {
    match kind
    case Hashes => |GetOr(s.hashes, k, map[])|
    case Lists => |GetOr(s.lists, k, [])|
    case Sets => |GetOr(s.sets, k, {})|
    case SortedSets => |GetOr(s.zsets, k, map[])|
  }

  function IntReply(r: Reply): int {
    if r.Int? then r.n else 0
  }

  /** What a client that sees command and reply books for key `k`. */
  function Booked(kind: Kind, c: Command, r: Reply, k: bytes): int {
    if c.args == [] || c.args[0] != k then 0
    else
      match kind
      case Hashes => if c.name.HSET? then IntReply(r) else if c.name.HDEL? then -IntReply(r) else 0
      case Sets => if c.name.SADD? then IntReply(r) else if c.name.SREM? then -IntReply(r) else 0
      case SortedSets => if c.name.ZADD? then IntReply(r) else if c.name.ZREM? then -IntReply(r) else 0
      case Lists =>
        if (c.name.LPUSH? || c.name.RPUSH?) && r.Int? then |c.args| - 1
        else if (c.name.LPOP? || c.name.RPOP?) && r.Bulk? then -1
        else 0
  }

  /** The books of one command balance. */
  ghost predicate Balances(kind: Kind, s: State, c: Command, o: Outcome, k: bytes) {
    Cardinality(o.state, kind, k) == Cardinality(s, kind, k) + Booked(kind, c, o.reply, k)
  }

  lemma PutAt<V>(m: map<bytes, V>, key: bytes, v: V, k: bytes, default: V)
    ensures GetOr(m[key := v], k, default) == if k == key then v else GetOr(m, k, default)
  {
  }

  lemma HSetBalances(s: State, c: Command, k: bytes)
    requires c.name.HSET?
    ensures Balances(Hashes, s, c, HandleHSet(s, c.args), k)
  {
    if |c.args| >= 1 {
      var h := GetOr(s.hashes, c.args[0], map[]);
      CountNewPairsIsGrowth(h, c.args[1..]);
      PutAt(s.hashes, c.args[0], PutPairs(h, c.args[1..]), k, map[]);
    }
  }

  lemma HDelBalances(s: State, c: Command, k: bytes)
    requires c.name.HDEL?
    ensures Balances(Hashes, s, c, HandleHDel(s, c.args), k)
  {
    if |c.args| >= 1 && c.args[0] in s.hashes {
      CountPresentIsLoss(s.hashes[c.args[0]], c.args[1..]);
    }
  }

  lemma PushBalances(s: State, c: Command, k: bytes)
    requires c.name.LPUSH? || c.name.RPUSH?
    ensures Balances(Lists, s, c, HandlePush(s, c.name.LPUSH?, c.args), k)
  {
    if |c.args| >= 1 {
      PushFrontCounts(GetOr(s.lists, c.args[0], []), c.args[1..]);
    }
  }

  lemma PopBalances(s: State, c: Command, k: bytes)
    requires c.name.LPOP? || c.name.RPOP?
    ensures Balances(Lists, s, c, HandlePop(s, c.name.LPOP?, c.args), k)
  {
  }

  lemma SAddBalances(s: State, c: Command, k: bytes)
    requires c.name.SADD?
    ensures Balances(Sets, s, c, HandleSAdd(s, c.args), k)
  {
    if |c.args| >= 1 {
      var ms := GetOr(s.sets, c.args[0], {});
      CountAddedIsGrowth(ms, c.args[1..]);
      PutAt(s.sets, c.args[0], AddMembers(ms, c.args[1..]), k, {});
    }
  }

  lemma SRemBalances(s: State, c: Command, k: bytes)
    requires c.name.SREM?
    ensures Balances(Sets, s, c, HandleSRem(s, c.args), k)
  {
    if |c.args| >= 1 && c.args[0] in s.sets {
      CountRemovedIsLoss(s.sets[c.args[0]], c.args[1..]);
    }
  }

  lemma ZAddBalances(pf: FloatParser, s: State, c: Command, k: bytes)
    requires c.name.ZADD? && !StopsHalfway(pf, c.args)
    ensures Balances(SortedSets, s, c, HandleZAdd(pf, s, c.args), k)
  {
    var args := c.args;
    if |args| >= 3 && (|args| - 1) % 2 == 0 {
      var z := GetOr(s.zsets, args[0], map[]);
      ScoresAreBooked(pf, z, args);
      PutAt(s.zsets, args[0], AddScores(pf, z, args[1..]).scores, k, map[]);
    }
  }

  lemma ScoresAreBooked(pf: FloatParser, z: map<bytes, Score>, args: seq<bytes>)
    requires |args| >= 3 && (|args| - 1) % 2 == 0 && !StopsHalfway(pf, args)
    ensures var r := AddScores(pf, z, args[1..]); |r.scores| == |z| + if r.ok then r.added else 0
  {
    CountScoresIsGrowth(pf, z, args[1..]);
    ScoresOk(pf, map[], z, args[1..]);
    assert args[1..][0] == args[1];
  }

  lemma ZRemBalances(s: State, c: Command, k: bytes)
    requires c.name.ZREM?
    ensures Balances(SortedSets, s, c, HandleZRem(s, c.args), k)
  {
    if |c.args| >= 1 && c.args[0] in s.zsets {
      CountPresentIsLoss(s.zsets[c.args[0]], c.args[1..]);
    }
  }

  lemma OwnKindBalances(pf: FloatParser, kind: Kind, s: State, c: Command, now: int, k: bytes)
    requires IsWrite(c.name) && Bookable(pf, kind, c) && Concerns(kind, c.name)
    ensures Balances(kind, s, c, Live(pf, s, c, now), k)
  {
    match c.name
    case HSET => HSetBalances(s, c, k);
    case HDEL => HDelBalances(s, c, k);
    case LPUSH | RPUSH => PushBalances(s, c, k);
    case LPOP | RPOP => PopBalances(s, c, k);
    case SADD => SAddBalances(s, c, k);
    case SREM => SRemBalances(s, c, k);
    case ZADD => ZAddBalances(pf, s, c, k);
    case ZREM => ZRemBalances(s, c, k);
  }

  predicate Concerns(kind: Kind, n: Name) {
    match kind
    case Hashes => OnHashes(n)
    case Lists => OnLists(n)
    case Sets => OnSets(n)
    case SortedSets => OnSortedSets(n)
  }

  /** Not a ZADD that stops half-way: the client is not told how many members it added. */
  predicate Bookable(pf: FloatParser, kind: Kind, c: Command) {
    kind.SortedSets? && c.name.ZADD? ==> !StopsHalfway(pf, c.args)
  }

  lemma CommandBalances(pf: FloatParser, kind: Kind, s: State, c: Command, now: int, k: bytes)
    requires IsWrite(c.name) && Bookable(pf, kind, c)
    ensures Balances(kind, s, c, Live(pf, s, c, now), k)
  {
    if Concerns(kind, c.name) {
      OwnKindBalances(pf, kind, s, c, now, k);
    } else {
      OneKeyspace(pf, s, c, now);
    }
  }

  lemma HalfwayIsUnbooked(pf: FloatParser, c: Command)
    requires c.name.ZADD? && StopsHalfway(pf, c.args)
    ensures !Balances(SortedSets, EMPTY, c, Live(pf, EMPTY, c, 0), c.args[0])
  {
    var pairs := c.args[1..];
    var none: map<bytes, Score> := map[];
    assert pairs[0] == c.args[1];
    ScoresKeepMembers(pf, none[pairs[1] := pf(pairs[0]).value], pairs[2..]);
    assert pairs[1] in AddScores(pf, none, pairs).scores.Keys;
  }

  /** The reply of a command says by how much a cardinality changes, in every state and for
      every key, if and only if the command is not such a ZADD. */
  lemma BooksExactly(pf: FloatParser, kind: Kind, c: Command)
    requires IsWrite(c.name)
    ensures (forall s, now, k :: Balances(kind, s, c, Live(pf, s, c, now), k)) <==> Bookable(pf, kind, c)
  {
    if Bookable(pf, kind, c) {
      forall s, now, k ensures Balances(kind, s, c, Live(pf, s, c, now), k) {
        CommandBalances(pf, kind, s, c, now, k);
      }
    } else {
      HalfwayIsUnbooked(pf, c);
    }
  }

  predicate AllBookable(pf: FloatParser, kind: Kind, reqs: seq<Request>) {
    forall i | 0 <= i < |reqs| :: Bookable(pf, kind, reqs[i].command)
  }

  function BookedInAll(pf: FloatParser, kind: Kind, reqs: seq<Request>, k: bytes): int
    requires IsRun(reqs)
  {
    if reqs == [] then 0
    else
      var before, last := reqs[..|reqs| - 1], reqs[|reqs| - 1];
      BookedInAll(pf, kind, before, k)
      + Booked(kind, last.command, Live(pf, LiveRun(pf, before), last.command, last.now).reply, k)
  }

  /** Conservation: after any run, HLEN, SCARD and ZCARD are the sum of the replies that
      added minus the sum of the replies that removed, and LLEN is the number of values
      pushed minus the number of pops that returned one; for ZCARD, no ZADD of the run may
      stop half-way. */
  lemma {:induction false} RepliesAddUp(pf: FloatParser, kind: Kind, reqs: seq<Request>, k: bytes)
    requires IsRun(reqs) && AllBookable(pf, kind, reqs)
    ensures Cardinality(LiveRun(pf, reqs), kind, k) == BookedInAll(pf, kind, reqs, k)
  {
    if reqs != [] {
      var before, last := reqs[..|reqs| - 1], reqs[|reqs| - 1];
      assert AllBookable(pf, kind, before);
      RepliesAddUp(pf, kind, before, k);
      CommandBalances(pf, kind, LiveRun(pf, before), last.command, last.now, k);
    }
  }

  // ---------- Commands change only what they name ----------

  predicate SameAt<V(==)>(m: map<bytes, V>, m': map<bytes, V>, k: bytes) {
    (k in m <==> k in m') && (k in m ==> m[k] == m'[k])
  }

  /** All five keyspaces agree on `k`. */
  predicate AgreeAt(s: State, t: State, k: bytes) {
    && SameAt(s.strings, t.strings, k) && SameAt(s.hashes, t.hashes, k)
    && SameAt(s.lists, t.lists, k) && SameAt(s.sets, t.sets, k) && SameAt(s.zsets, t.zsets, k)
  }

  /** A DEL of several keys, of which the watch mechanism is told the first only. */
  predicate NamesTooFew(c: Command) {
    c.name.DEL? && exists i | 0 <= i < |c.args| :: c.args[i] != c.args[0]
  }

  lemma {:induction false} RemoveAllElsewhere<V>(m: map<bytes, V>, keys: seq<bytes>, k: bytes)
    ensures k !in keys ==> SameAt(RemoveAll(m, keys), m, k)
    ensures k in keys ==> k !in RemoveAll(m, keys)
  {
    if keys != [] {
      RemoveAllElsewhere(m - {keys[0]}, keys[1..], k);
      RemoveAllShrinks(m - {keys[0]}, keys[1..]);
    }
  }

  lemma {:induction false} RemoveAllShrinks<V>(m: map<bytes, V>, keys: seq<bytes>)
    ensures RemoveAll(m, keys).Keys <= m.Keys
  {
    if keys != [] {
      RemoveAllShrinks(m - {keys[0]}, keys[1..]);
    }
  }

  lemma {:induction false} SetPairsElsewhere(m: map<bytes, Item>, pairs: seq<bytes>, k: bytes)
    requires k !in Evens(pairs)
    ensures SameAt(SetPairs(m, pairs), m, k)
    decreases |pairs|
  {
    if |pairs| >= 2 {
      SetPairsElsewhere(m[pairs[0] := Item(pairs[1], 0)], pairs[2..], k);
    }
  }

  lemma DelElsewhere(s: State, args: seq<bytes>, k: bytes)
    requires forall i | 0 <= i < |args| :: args[i] != k
    ensures SameAt(HandleDel(s, args).state.strings, s.strings, k)
  {
    RemoveAllElsewhere(s.strings, args, k);
  }

  lemma StringsElsewhere(pf: FloatParser, s: State, c: Command, now: int, k: bytes)
    requires OnStrings(c.name) && !NamesTooFew(c) && k !in ExtractKeys(c.name, c.args)
    ensures SameAt(Live(pf, s, c, now).state.strings, s.strings, k)
  {
    match c.name
    case DEL => DelElsewhere(s, c.args, k);
    case MSET => SetPairsElsewhere(s.strings, c.args, k);
    case MSETNX => SetPairsElsewhere(s.strings, c.args, k);
    case _ =>
  }

  lemma HashesElsewhere(pf: FloatParser, s: State, c: Command, now: int, k: bytes)
    requires OnHashes(c.name) && (c.args == [] || k != c.args[0])
    ensures SameAt(Live(pf, s, c, now).state.hashes, s.hashes, k)
  {
  }

  lemma ListsElsewhere(pf: FloatParser, s: State, c: Command, now: int, k: bytes)
    requires OnLists(c.name) && (c.args == [] || k != c.args[0])
    ensures SameAt(Live(pf, s, c, now).state.lists, s.lists, k)
  {
  }

  lemma SetsElsewhere(pf: FloatParser, s: State, c: Command, now: int, k: bytes)
    requires OnSets(c.name) && (c.args == [] || k != c.args[0])
    ensures SameAt(Live(pf, s, c, now).state.sets, s.sets, k)
  {
  }

  lemma SortedSetsElsewhere(pf: FloatParser, s: State, c: Command, now: int, k: bytes)
    requires OnSortedSets(c.name) && (c.args == [] || k != c.args[0])
    ensures SameAt(Live(pf, s, c, now).state.zsets, s.zsets, k)
  {
  }

  lemma ChangesOnlyNamed(pf: FloatParser, s: State, c: Command, now: int, k: bytes)
    requires IsWrite(c.name) && !NamesTooFew(c) && k !in ExtractKeys(c.name, c.args)
    ensures AgreeAt(Live(pf, s, c, now).state, s, k)
  {
    OneKeyspace(pf, s, c, now);
    if OnStrings(c.name) {
      StringsElsewhere(pf, s, c, now, k);
    } else if OnHashes(c.name) {
      HashesElsewhere(pf, s, c, now, k);
    } else if OnLists(c.name) {
      ListsElsewhere(pf, s, c, now, k);
    } else if OnSets(c.name) {
      SetsElsewhere(pf, s, c, now, k);
    } else {
      SortedSetsElsewhere(pf, s, c, now, k);
    }
  }

  ghost predicate LeavesAlone(pf: FloatParser, c: Command, s: State, now: int, k: bytes)
    requires IsWrite(c.name)
  {
    AgreeAt(Live(pf, s, c, now).state, s, k)
  }

  /** What `extractKeys` misses, exactly: a write command leaves every key alone that
      `extractKeys` does not report, in every state, unless it is a DEL of several keys. */
  lemma ExtractKeysExactly(pf: FloatParser, c: Command)
    requires IsWrite(c.name)
    ensures (forall s, now, k | k !in ExtractKeys(c.name, c.args) :: LeavesAlone(pf, c, s, now, k))
            <==> !NamesTooFew(c)
  {
    if NamesTooFew(c) {
      var i :| 0 <= i < |c.args| && c.args[i] != c.args[0];
      var k := c.args[i];
      var s := EMPTY.(strings := map[k := Item([], 0)]);
      RemoveAllElsewhere(s.strings, c.args, k);
      assert !LeavesAlone(pf, c, s, 0, k);
    } else {
      forall s, now, k | k !in ExtractKeys(c.name, c.args) ensures LeavesAlone(pf, c, s, now, k) {
        ChangesOnlyNamed(pf, s, c, now, k);
      }
    }
  }
}
