/** The five keyspaces and the write commands on them: what the live handlers of
    `internal/handler` do, and what the replay of `internal/persistence/aof.go` does.
    Both limits are off here, so the string keyspace is the map that module `Cache` shows
    an unlimited cache to be. */
module Store {
  import opened Bytes
  import opened Lru
  import opened Commands
  import S = Shard

  /** A score is the bit pattern of a float; parsing one is a parameter of the model. */
  type Score = nat

  type FloatParser = bytes -> Option<Score>

  datatype State = State(
    strings: map<bytes, Item>,
    hashes: map<bytes, map<bytes, bytes>>,
    lists: map<bytes, seq<bytes>>,
    sets: map<bytes, set<bytes>>,
    zsets: map<bytes, map<bytes, Score>>)

  const EMPTY := State(map[], map[], map[], map[], map[])

  datatype Reply = OK | Int(n: int) | Bulk(value: bytes) | Null | WrongArguments | NotAFloat

  /** What a handler does: the new state, its reply, and whether it logs the command. */
  datatype Outcome = Outcome(state: State, reply: Reply, logged: bool)

  function GetOr<K, V>(m: map<K, V>, k: K, default: V): V {
    if k in m then m[k] else default
  }

  // ---------- The loops, as folds ----------

  /** Values written in pairs; later pairs overwrite earlier ones. */
  function PutPairs(m: map<bytes, bytes>, pairs: seq<bytes>): map<bytes, bytes>
    decreases |pairs|
  {
    if |pairs| < 2 then m else PutPairs(m[pairs[0] := pairs[1]], pairs[2..])
  }

  /** The running count of HSET: fields that were not there when their turn came. */
  function CountNewPairs(m: map<bytes, bytes>, pairs: seq<bytes>): nat
    decreases |pairs|
  {
    if |pairs| < 2 then 0
    else (if pairs[0] in m then 0 else 1) + CountNewPairs(m[pairs[0] := pairs[1]], pairs[2..])
  }

  function SetPairs(m: map<bytes, Item>, pairs: seq<bytes>): map<bytes, Item>
    decreases |pairs|
  {
    if |pairs| < 2 then m else SetPairs(m[pairs[0] := Item(pairs[1], 0)], pairs[2..])
  }

  function RemoveAll<V>(m: map<bytes, V>, keys: seq<bytes>): map<bytes, V> {
    if keys == [] then m else RemoveAll(m - {keys[0]}, keys[1..])
  }

  /** The running count of DEL, HDEL and ZREM. */
  function CountPresent<V>(m: map<bytes, V>, keys: seq<bytes>): nat {
    if keys == [] then 0
    else (if keys[0] in m then 1 else 0) + CountPresent(m - {keys[0]}, keys[1..])
  }

  function AddMembers(s: set<bytes>, ms: seq<bytes>): set<bytes>
    decreases |ms|
  {
    if ms == [] then s else AddMembers(s + {ms[0]}, ms[1..])
  }

  function CountAdded(s: set<bytes>, ms: seq<bytes>): nat
    decreases |ms|
  {
    if ms == [] then 0 else (if ms[0] in s then 0 else 1) + CountAdded(s + {ms[0]}, ms[1..])
  }

  function RemoveMembers(s: set<bytes>, ms: seq<bytes>): set<bytes>
    decreases |ms|
  {
    if ms == [] then s else RemoveMembers(s - {ms[0]}, ms[1..])
  }

  function CountRemoved(s: set<bytes>, ms: seq<bytes>): nat
    decreases |ms|
  {
    if ms == [] then 0 else (if ms[0] in s then 1 else 0) + CountRemoved(s - {ms[0]}, ms[1..])
  }

  function PushFront(l: seq<bytes>, vs: seq<bytes>): seq<bytes>
    decreases |vs|
  {
    if vs == [] then l else PushFront([vs[0]] + l, vs[1..])
  }

  /** The result of a ZADD loop: it stops at the first score that is no float. */
  datatype Scored = Scored(scores: map<bytes, Score>, added: nat, ok: bool)

  function AddScores(pf: FloatParser, z: map<bytes, Score>, pairs: seq<bytes>): Scored
    decreases |pairs|
  {
    if |pairs| < 2 then Scored(z, 0, true)
    else
      match pf(pairs[0])
      case None => Scored(z, 0, false)
      case Some(score) =>
        var rest := AddScores(pf, z[pairs[1] := score], pairs[2..]);
        rest.(added := (if pairs[1] in z then 0 else 1) + rest.added)
  }

  // ---------- Live handlers ----------

  const EX: bytes := [69, 88]
  const PX: bytes := [80, 88]

  /** The time to live in nanoseconds that SET understands: EX in seconds, PX in
      milliseconds.  `time.Duration` arithmetic wraps around at 64 bits. */
  function LiveTtl(args: seq<bytes>): int {
    if |args| < 4 then 0
    else if ToUpper(args[2]) == EX then
      (match ParseInt(args[3])
       case Some(secs) => Wrap64(secs * 1_000_000_000)
       case None => 0)
    else if ToUpper(args[2]) == PX then
      (match ParseInt(args[3])
       case Some(ms) => Wrap64(ms * 1_000_000)
       case None => 0)
    else 0
  }

  /** Whether some key of a list of pairs is there. */
  predicate AnyKey(m: map<bytes, Item>, pairs: seq<bytes>) {
    exists k :: k in Evens(pairs) && k in m
  }

  function HandleSet(s: State, args: seq<bytes>, now: int): Outcome {
    if |args| < 2 then Outcome(s, WrongArguments, false)
    else Outcome(s.(strings := s.strings[args[0] := S.NewItem(args[1], LiveTtl(args), now)]), OK, true)
  }

  function HandleDel(s: State, args: seq<bytes>): Outcome {
    if |args| < 1 then Outcome(s, WrongArguments, false)
    else Outcome(s.(strings := RemoveAll(s.strings, args)), Int(CountPresent(s.strings, args)), true)
  }

  function HandleMSet(s: State, args: seq<bytes>): Outcome {
    if |args| < 2 || |args| % 2 != 0 then Outcome(s, WrongArguments, false)
    else Outcome(s.(strings := SetPairs(s.strings, args)), OK, true)
  }

  function HandleMSetNX(s: State, args: seq<bytes>): Outcome {
    if |args| < 2 || |args| % 2 != 0 then Outcome(s, WrongArguments, false)
    else if AnyKey(s.strings, args) then Outcome(s, Int(0), false)
    else Outcome(s.(strings := SetPairs(s.strings, args)), Int(1), true)
  }

  /** APPEND reads with GET, so an expired value does not count. */
  function HandleAppend(s: State, args: seq<bytes>, now: int): Outcome {
    if |args| < 2 then Outcome(s, WrongArguments, false)
    else
      var k := args[0];
      var found := k in s.strings && !S.IsExpired(s.strings[k], now);
      var value := if found then s.strings[k].value + args[1] else args[1];
      Outcome(s.(strings := s.strings[k := Item(value, 0)]), Int(|value|), true)
  }

  function HandleHSet(s: State, args: seq<bytes>): Outcome {
    if |args| < 3 || (|args| - 1) % 2 != 0 then Outcome(s, WrongArguments, false)
    else
      var h := GetOr(s.hashes, args[0], map[]);
      Outcome(s.(hashes := s.hashes[args[0] := PutPairs(h, args[1..])]),
              Int(CountNewPairs(h, args[1..])), true)
  }

  function HandleHDel(s: State, args: seq<bytes>): Outcome {
    if |args| < 2 then Outcome(s, WrongArguments, false)
    else if args[0] !in s.hashes then Outcome(s, Int(0), false)
    else
      var h := s.hashes[args[0]];
      Outcome(s.(hashes := s.hashes[args[0] := RemoveAll(h, args[1..])]),
              Int(CountPresent(h, args[1..])), true)
  }

  function HandlePush(s: State, left: bool, args: seq<bytes>): Outcome {
    if |args| < 2 then Outcome(s, WrongArguments, false)
    else
      var l := GetOr(s.lists, args[0], []);
      var l' := if left then PushFront(l, args[1..]) else l + args[1..];
      Outcome(s.(lists := s.lists[args[0] := l']), Int(|l'|), true)
  }

  /** A pop that finds nothing is not logged. */
  function HandlePop(s: State, left: bool, args: seq<bytes>): Outcome {
    if |args| < 1 then Outcome(s, WrongArguments, false)
    else
      var l := GetOr(s.lists, args[0], []);
      if l == [] then Outcome(s, Null, false)
      else if left then Outcome(s.(lists := s.lists[args[0] := l[1..]]), Bulk(l[0]), true)
      else Outcome(s.(lists := s.lists[args[0] := l[..|l| - 1]]), Bulk(l[|l| - 1]), true)
  }

  function HandleSAdd(s: State, args: seq<bytes>): Outcome {
    if |args| < 2 then Outcome(s, WrongArguments, false)
    else
      var ms := GetOr(s.sets, args[0], {});
      Outcome(s.(sets := s.sets[args[0] := AddMembers(ms, args[1..])]),
              Int(CountAdded(ms, args[1..])), true)
  }

  function HandleSRem(s: State, args: seq<bytes>): Outcome {
    if |args| < 2 then Outcome(s, WrongArguments, false)
    else if args[0] !in s.sets then Outcome(s, Int(0), false)
    else
      var ms := s.sets[args[0]];
      Outcome(s.(sets := s.sets[args[0] := RemoveMembers(ms, args[1..])]),
              Int(CountRemoved(ms, args[1..])), true)
  }

  /** A bad score ends ZADD with an error: the pairs before it stay, and nothing is logged. */
  function HandleZAdd(pf: FloatParser, s: State, args: seq<bytes>): Outcome {
    if |args| < 3 || (|args| - 1) % 2 != 0 then Outcome(s, WrongArguments, false)
    else
      var r := AddScores(pf, GetOr(s.zsets, args[0], map[]), args[1..]);
      Outcome(s.(zsets := s.zsets[args[0] := r.scores]), if r.ok then Int(r.added) else NotAFloat, r.ok)
  }

  function HandleZRem(s: State, args: seq<bytes>): Outcome {
    if |args| < 2 then Outcome(s, WrongArguments, false)
    else if args[0] !in s.zsets then Outcome(s, Int(0), false)
    else
      var z := s.zsets[args[0]];
      Outcome(s.(zsets := s.zsets[args[0] := RemoveAll(z, args[1..])]),
              Int(CountPresent(z, args[1..])), true)
  }

  function Live(pf: FloatParser, s: State, c: Command, now: int): Outcome
    requires IsWrite(c.name)
  {
    match c.name
    case SET => HandleSet(s, c.args, now)
    case DEL => HandleDel(s, c.args)
    case MSET => HandleMSet(s, c.args)
    case MSETNX => HandleMSetNX(s, c.args)
    case APPEND => HandleAppend(s, c.args, now)
    case HSET => HandleHSet(s, c.args)
    case HDEL => HandleHDel(s, c.args)
    case LPUSH => HandlePush(s, true, c.args)
    case RPUSH => HandlePush(s, false, c.args)
    case LPOP => HandlePop(s, true, c.args)
    case RPOP => HandlePop(s, false, c.args)
    case SADD => HandleSAdd(s, c.args)
    case SREM => HandleSRem(s, c.args)
    case ZADD => HandleZAdd(pf, s, c.args)
    case ZREM => HandleZRem(s, c.args)
  }

  // ---------- Replay ----------

  /** Replay knows EX only. */
  function ReplayTtl(args: seq<bytes>): int {
    if |args| >= 4 && ToUpper(args[2]) == EX then
      match ParseInt(args[3])
      case Some(secs) => Wrap64(secs * 1_000_000_000)
      case None => 0
    else 0
  }

  function ReplaySet(s: State, args: seq<bytes>, now: int): State {
    if |args| < 2 then s
    else s.(strings := s.strings[args[0] := S.NewItem(args[1], ReplayTtl(args), now)])
  }

  function ReplayDel(s: State, args: seq<bytes>): State {
    if |args| < 1 then s else s.(strings := RemoveAll(s.strings, args))
  }

  function ReplayMSet(s: State, args: seq<bytes>): State {
    if |args| < 2 || |args| % 2 != 0 then s else s.(strings := SetPairs(s.strings, args))
  }

  function ReplayMSetNX(s: State, args: seq<bytes>): State {
    if |args| < 2 || |args| % 2 != 0 || AnyKey(s.strings, args) then s
    else s.(strings := SetPairs(s.strings, args))
  }

  function ReplayHSet(s: State, args: seq<bytes>): State {
    if |args| < 3 || (|args| - 1) % 2 != 0 then s
    else s.(hashes := s.hashes[args[0] := PutPairs(GetOr(s.hashes, args[0], map[]), args[1..])])
  }

  function ReplayHDel(s: State, args: seq<bytes>): State {
    if |args| < 2 || args[0] !in s.hashes then s
    else s.(hashes := s.hashes[args[0] := RemoveAll(s.hashes[args[0]], args[1..])])
  }

  function ReplayPush(s: State, left: bool, args: seq<bytes>): State {
    if |args| < 2 then s
    else
      var l := GetOr(s.lists, args[0], []);
      s.(lists := s.lists[args[0] := if left then PushFront(l, args[1..]) else l + args[1..]])
  }

  function ReplayPop(s: State, left: bool, args: seq<bytes>): State {
    if |args| < 1 || GetOr(s.lists, args[0], []) == [] then s
    else
      var l := s.lists[args[0]];
      s.(lists := s.lists[args[0] := if left then l[1..] else l[..|l| - 1]])
  }

  function ReplaySAdd(s: State, args: seq<bytes>): State {
    if |args| < 2 then s
    else s.(sets := s.sets[args[0] := AddMembers(GetOr(s.sets, args[0], {}), args[1..])])
  }

  function ReplaySRem(s: State, args: seq<bytes>): State {
    if |args| < 2 || args[0] !in s.sets then s
    else s.(sets := s.sets[args[0] := RemoveMembers(s.sets[args[0]], args[1..])])
  }

  /** A bad score stops the replay of ZADD, too; the pairs before it stay. */
  function ReplayZAdd(pf: FloatParser, s: State, args: seq<bytes>): State {
    if |args| < 3 || (|args| - 1) % 2 != 0 then s
    else
      var z := GetOr(s.zsets, args[0], map[]);
      s.(zsets := s.zsets[args[0] := AddScores(pf, z, args[1..]).scores])
  }

  function ReplayZRem(s: State, args: seq<bytes>): State {
    if |args| < 2 || args[0] !in s.zsets then s
    else s.(zsets := s.zsets[args[0] := RemoveAll(s.zsets[args[0]], args[1..])])
  }

  /** `replayCommand` on a parsed command.  A malformed command is skipped, and so is one
      it has no case for: APPEND among them. */
  function Replay(pf: FloatParser, s: State, c: Command, now: int): State {
    match c.name
    case SET => ReplaySet(s, c.args, now)
    case DEL => ReplayDel(s, c.args)
    case MSET => ReplayMSet(s, c.args)
    case MSETNX => ReplayMSetNX(s, c.args)
    case HSET => ReplayHSet(s, c.args)
    case HDEL => ReplayHDel(s, c.args)
    case LPUSH => ReplayPush(s, true, c.args)
    case RPUSH => ReplayPush(s, false, c.args)
    case LPOP => ReplayPop(s, true, c.args)
    case RPOP => ReplayPop(s, false, c.args)
    case SADD => ReplaySAdd(s, c.args)
    case SREM => ReplaySRem(s, c.args)
    case ZADD => ReplayZAdd(pf, s, c.args)
    case ZREM => ReplayZRem(s, c.args)
    case _ => s
  }

  // ---------- Keyspaces are separate ----------

  predicate OnStrings(n: Name) {
    n.SET? || n.DEL? || n.MSET? || n.MSETNX? || n.APPEND?
  }

  predicate OnHashes(n: Name) {
    n.HSET? || n.HDEL?
  }

  predicate OnLists(n: Name) {
    n.LPUSH? || n.RPUSH? || n.LPOP? || n.RPOP?
  }

  predicate OnSets(n: Name) {
    n.SADD? || n.SREM?
  }

  predicate OnSortedSets(n: Name) {
    n.ZADD? || n.ZREM?
  }

  /** `s` and `t` agree on every keyspace but those the command works on. */
  predicate OthersKept(n: Name, s: State, t: State) {
    && (OnStrings(n) || t.strings == s.strings)
    && (OnHashes(n) || t.hashes == s.hashes)
    && (OnLists(n) || t.lists == s.lists)
    && (OnSets(n) || t.sets == s.sets)
    && (OnSortedSets(n) || t.zsets == s.zsets)
  }

  lemma StringsAlone(pf: FloatParser, s: State, c: Command, now: int)
    requires OnStrings(c.name)
    ensures OthersKept(c.name, s, Live(pf, s, c, now).state)
  {
  }

  lemma HashesAlone(pf: FloatParser, s: State, c: Command, now: int)
    requires OnHashes(c.name)
    ensures OthersKept(c.name, s, Live(pf, s, c, now).state)
  {
  }

  lemma ListsAlone(pf: FloatParser, s: State, c: Command, now: int)
    requires OnLists(c.name)
    ensures OthersKept(c.name, s, Live(pf, s, c, now).state)
  {
    if c.name.LPUSH? || c.name.RPUSH? {
      PushAlone(s, c.name.LPUSH?, c.args);
    } else {
      PopAlone(s, c.name.LPOP?, c.args);
    }
  }

  lemma PushAlone(s: State, left: bool, args: seq<bytes>)
    ensures OthersKept(LPUSH, s, HandlePush(s, left, args).state)
  {
  }

  lemma PopAlone(s: State, left: bool, args: seq<bytes>)
    ensures OthersKept(LPOP, s, HandlePop(s, left, args).state)
  {
  }

  lemma SetsAlone(pf: FloatParser, s: State, c: Command, now: int)
    requires OnSets(c.name)
    ensures OthersKept(c.name, s, Live(pf, s, c, now).state)
  {
  }

  lemma SortedSetsAlone(pf: FloatParser, s: State, c: Command, now: int)
    requires OnSortedSets(c.name)
    ensures OthersKept(c.name, s, Live(pf, s, c, now).state)
  {
  }

  /** A write command works on one keyspace; the other four stay as they are. */
  lemma OneKeyspace(pf: FloatParser, s: State, c: Command, now: int)
    requires IsWrite(c.name)
    ensures OthersKept(c.name, s, Live(pf, s, c, now).state)
  {
    match c.name
    case SET | DEL | MSET | MSETNX | APPEND => StringsAlone(pf, s, c, now);
    case HSET | HDEL => HashesAlone(pf, s, c, now);
    case LPUSH | RPUSH | LPOP | RPOP => ListsAlone(pf, s, c, now);
    case SADD | SREM => SetsAlone(pf, s, c, now);
    case ZADD | ZREM => SortedSetsAlone(pf, s, c, now);
  }

  // ---------- Counting ----------

  lemma {:induction false} CountNewPairsIsGrowth(m: map<bytes, bytes>, pairs: seq<bytes>)
    ensures |PutPairs(m, pairs)| == |m| + CountNewPairs(m, pairs)
    decreases |pairs|
  {
    if |pairs| >= 2 {
      PutOne(m, pairs[0], pairs[1]);
      CountNewPairsIsGrowth(m[pairs[0] := pairs[1]], pairs[2..]);
    }
  }

  lemma PutOne<V>(m: map<bytes, V>, k: bytes, v: V)
    ensures |m[k := v]| == |m| + if k in m then 0 else 1
  {
    assert m[k := v].Keys == m.Keys + {k};
  }

  lemma RemoveOne<V>(m: map<bytes, V>, k: bytes)
    ensures |m - {k}| == |m| - if k in m then 1 else 0
  {
    assert (m - {k}).Keys == m.Keys - {k};
    assert |(m - {k}).Keys| == |m - {k}| && |m.Keys| == |m|;
  }

  lemma {:induction false} CountPresentIsLoss<V>(m: map<bytes, V>, keys: seq<bytes>)
    ensures |RemoveAll(m, keys)| + CountPresent(m, keys) == |m|
  {
    if keys != [] {
      RemoveOne(m, keys[0]);
      CountPresentIsLoss(m - {keys[0]}, keys[1..]);
    }
  }

  lemma {:induction false} CountAddedIsGrowth(s: set<bytes>, ms: seq<bytes>)
    ensures |AddMembers(s, ms)| == |s| + CountAdded(s, ms)
    decreases |ms|
  {
    if ms != [] {
      CountAddedIsGrowth(s + {ms[0]}, ms[1..]);
      assert ms[0] in s ==> s + {ms[0]} == s;
    }
  }

  lemma {:induction false} CountRemovedIsLoss(s: set<bytes>, ms: seq<bytes>)
    ensures |RemoveMembers(s, ms)| + CountRemoved(s, ms) == |s|
    decreases |ms|
  {
    if ms != [] {
      CountRemovedIsLoss(s - {ms[0]}, ms[1..]);
      assert ms[0] !in s ==> s - {ms[0]} == s;
    }
  }

  lemma {:induction false} CountScoresIsGrowth(pf: FloatParser, z: map<bytes, Score>, pairs: seq<bytes>)
    ensures var r := AddScores(pf, z, pairs); |r.scores| == |z| + r.added
    decreases |pairs|
  {
    if |pairs| >= 2 && pf(pairs[0]).Some? {
      var score := pf(pairs[0]).value;
      PutOne(z, pairs[1], score);
      CountScoresIsGrowth(pf, z[pairs[1] := score], pairs[2..]);
    }
  }

  lemma {:induction false} PushFrontCounts(l: seq<bytes>, vs: seq<bytes>)
    ensures |PushFront(l, vs)| == |l| + |vs|
    decreases |vs|
  {
    if vs != [] {
      PushFrontCounts([vs[0]] + l, vs[1..]);
    }
  }
}
