/** The append-only file: what replaying the log restores (`internal/persistence/aof.go`). */
module Aof {
  import opened Bytes
  import opened Resp
  import opened Commands
  import opened Store
  import S = Shard

  // ---------- One command ----------

  /** Two keyspaces hold the same collections.  An empty one is as good as none. */
  ghost predicate Same<V>(m: map<bytes, V>, m': map<bytes, V>, empty: V) {
    forall k :: GetOr(m, k, empty) == GetOr(m', k, empty)
  }

  /** Two states hold the same data. */
  ghost predicate SameContents(s: State, t: State) {
    && s.strings == t.strings
    && Same(s.hashes, t.hashes, map[])
    && Same(s.lists, t.lists, [])
    && Same(s.sets, t.sets, {})
    && Same(s.zsets, t.zsets, map[])
  }

  lemma PutBoth<V>(m: map<bytes, V>, m': map<bytes, V>, k: bytes, v: V, empty: V)
    requires Same(m, m', empty)
    ensures Same(m[k := v], m'[k := v], empty)
  {
    var n, n' := m[k := v], m'[k := v];
    forall x ensures GetOr(n, x, empty) == GetOr(n', x, empty) {
      assert GetOr(m, x, empty) == GetOr(m', x, empty);
    }
  }

  lemma PutLeft<V>(m: map<bytes, V>, m': map<bytes, V>, k: bytes, v: V, empty: V)
    requires Same(m, m', empty) && v == GetOr(m, k, empty)
    ensures Same(m[k := v], m', empty)
  {
    var n := m[k := v];
    forall x ensures GetOr(n, x, empty) == GetOr(m', x, empty) {
      assert GetOr(m, x, empty) == GetOr(m', x, empty);
    }
  }

  /** ZADD stops half-way: the first score is a float, a later one is not. */
  predicate StopsHalfway(pf: FloatParser, args: seq<bytes>) {
    |args| >= 3 && (|args| - 1) % 2 == 0 && pf(args[1]).Some? && !AddScores(pf, map[], args[1..]).ok
  }

  /** Commands whose effect the log keeps: no SET with a deadline, whether by EX or by PX,
      no APPEND, and no ZADD that stops half-way. */
  predicate Durable(pf: FloatParser, c: Command) {
    match c.name
    case SET => LiveTtl(c.args) <= 0
    case APPEND => |c.args| < 2
    case ZADD => !StopsHalfway(pf, c.args)
    case _ => true
  }

  lemma {:induction false} RemoveFromNothing<V>(keys: seq<bytes>)
    ensures RemoveAll<V>(map[], keys) == map[]
  {
    if keys != [] {
      var nothing: map<bytes, V> := map[];
      assert nothing - {keys[0]} == nothing;
      RemoveFromNothing<V>(keys[1..]);
    }
  }

  lemma {:induction false} RemoveMembersFromNothing(ms: seq<bytes>)
    ensures RemoveMembers({}, ms) == {}
    decreases |ms|
  {
    if ms != [] {
      assert {} - {ms[0]} == {};
      RemoveMembersFromNothing(ms[1..]);
    }
  }

  /** Whether the scores are good does not depend on the sorted set. */
  lemma {:induction false} ScoresOk(pf: FloatParser, z: map<bytes, Score>, z': map<bytes, Score>, pairs: seq<bytes>)
    ensures AddScores(pf, z, pairs).ok == AddScores(pf, z', pairs).ok
    decreases |pairs|
  {
    if |pairs| >= 2 && pf(pairs[0]).Some? {
      var score := pf(pairs[0]).value;
      ScoresOk(pf, z[pairs[1] := score], z'[pairs[1] := score], pairs[2..]);
    }
  }

  /** `o` is what the live handler did on `s`, `r` what replaying the command does to `t`.
      The restored state, which replays only what was logged, still matches. */
  ghost predicate Matches(o: Outcome, t: State, r: State) {
    SameContents(o.state, if o.logged then r else t)
  }

  lemma AppendMatches(s: State, t: State, args: seq<bytes>, now: int)
    requires SameContents(s, t) && |args| < 2
    ensures Matches(HandleAppend(s, args, now), t, t)
  {
  }

  lemma SetMatches(s: State, t: State, args: seq<bytes>, now: int, later: int)
    requires SameContents(s, t) && LiveTtl(args) <= 0
    ensures Matches(HandleSet(s, args, now), t, ReplaySet(t, args, later))
  {
  }

  lemma HSetMatches(s: State, t: State, args: seq<bytes>)
    requires SameContents(s, t)
    ensures Matches(HandleHSet(s, args), t, ReplayHSet(t, args))
  {
    if |args| >= 3 {
      var none: map<bytes, bytes> := map[];
      var h := GetOr(s.hashes, args[0], none);
      assert h == GetOr(t.hashes, args[0], none);
      PutBoth(s.hashes, t.hashes, args[0], PutPairs(h, args[1..]), none);
    }
  }

  lemma HDelMatches(s: State, t: State, args: seq<bytes>)
    requires SameContents(s, t)
    ensures Matches(HandleHDel(s, args), t, ReplayHDel(t, args))
  {
    if |args| >= 2 {
      var none: map<bytes, bytes> := map[];
      var h := GetOr(s.hashes, args[0], none);
      assert h == GetOr(t.hashes, args[0], none);
      RemoveFromNothing<bytes>(args[1..]);
      PutBoth(s.hashes, t.hashes, args[0], RemoveAll(h, args[1..]), none);
      PutLeft(s.hashes, t.hashes, args[0], h, none);
    }
  }

  lemma PushMatches(s: State, t: State, left: bool, args: seq<bytes>)
    requires SameContents(s, t)
    ensures Matches(HandlePush(s, left, args), t, ReplayPush(t, left, args))
  {
    if |args| >= 2 {
      var l := GetOr(s.lists, args[0], []);
      assert l == GetOr(t.lists, args[0], []);
      PutBoth(s.lists, t.lists, args[0], if left then PushFront(l, args[1..]) else l + args[1..], []);
    }
  }

  lemma PopMatches(s: State, t: State, left: bool, args: seq<bytes>)
    requires SameContents(s, t)
    ensures Matches(HandlePop(s, left, args), t, ReplayPop(t, left, args))
  {
    if |args| >= 1 {
      var l := GetOr(s.lists, args[0], []);
      assert l == GetOr(t.lists, args[0], []);
      if l != [] {
        PutBoth(s.lists, t.lists, args[0], if left then l[1..] else l[..|l| - 1], []);
      }
    }
  }

  lemma SAddMatches(s: State, t: State, args: seq<bytes>)
    requires SameContents(s, t)
    ensures Matches(HandleSAdd(s, args), t, ReplaySAdd(t, args))
  {
    if |args| >= 2 {
      var ms := GetOr(s.sets, args[0], {});
      assert ms == GetOr(t.sets, args[0], {});
      PutBoth(s.sets, t.sets, args[0], AddMembers(ms, args[1..]), {});
    }
  }

  lemma SRemMatches(s: State, t: State, args: seq<bytes>)
    requires SameContents(s, t)
    ensures Matches(HandleSRem(s, args), t, ReplaySRem(t, args))
  {
    if |args| >= 2 {
      var ms := GetOr(s.sets, args[0], {});
      assert ms == GetOr(t.sets, args[0], {});
      RemoveMembersFromNothing(args[1..]);
      PutBoth(s.sets, t.sets, args[0], RemoveMembers(ms, args[1..]), {});
      PutLeft(s.sets, t.sets, args[0], ms, {});
    }
  }

  lemma ZAddMatches(pf: FloatParser, s: State, t: State, args: seq<bytes>)
    requires SameContents(s, t) && !StopsHalfway(pf, args)
    ensures Matches(HandleZAdd(pf, s, args), t, ReplayZAdd(pf, t, args))
  {
    if |args| >= 3 {
      var none: map<bytes, Score> := map[];
      var z := GetOr(s.zsets, args[0], none);
      assert z == GetOr(t.zsets, args[0], none);
      ScoresOk(pf, none, z, args[1..]);
      PutBoth(s.zsets, t.zsets, args[0], AddScores(pf, z, args[1..]).scores, none);
      PutLeft(s.zsets, t.zsets, args[0], z, none);
    }
  }

  lemma ZRemMatches(s: State, t: State, args: seq<bytes>)
    requires SameContents(s, t)
    ensures Matches(HandleZRem(s, args), t, ReplayZRem(t, args))
  {
    if |args| >= 2 {
      var none: map<bytes, Score> := map[];
      var z := GetOr(s.zsets, args[0], none);
      assert z == GetOr(t.zsets, args[0], none);
      RemoveFromNothing<Score>(args[1..]);
      PutBoth(s.zsets, t.zsets, args[0], RemoveAll(z, args[1..]), none);
      PutLeft(s.zsets, t.zsets, args[0], z, none);
    }
  }

  /** The simulation between the live store `s` and the restored one `t`. */
  ghost predicate Follows(pf: FloatParser, s: State, t: State, c: Command, now: int, later: int)
    requires IsWrite(c.name)
  {
    Matches(Live(pf, s, c, now), t, Replay(pf, t, c, later))
  }

  lemma StringsFollow(pf: FloatParser, s: State, t: State, c: Command, now: int, later: int)
    requires SameContents(s, t) && Durable(pf, c)
    requires c.name.SET? || c.name.DEL? || c.name.MSET? || c.name.MSETNX? || c.name.APPEND?
    ensures Follows(pf, s, t, c, now, later)
  {
    match c.name
    case SET => SetMatches(s, t, c.args, now, later);
    case APPEND => AppendMatches(s, t, c.args, now);
    case _ =>
  }

  lemma HashesAndListsFollow(pf: FloatParser, s: State, t: State, c: Command, now: int, later: int)
    requires SameContents(s, t)
    requires c.name.HSET? || c.name.HDEL? || c.name.LPUSH? || c.name.RPUSH? || c.name.LPOP? || c.name.RPOP?
    ensures Follows(pf, s, t, c, now, later)
  {
    match c.name
    case HSET => HSetMatches(s, t, c.args);
    case HDEL => HDelMatches(s, t, c.args);
    case LPUSH => PushMatches(s, t, true, c.args);
    case RPUSH => PushMatches(s, t, false, c.args);
    case LPOP => PopMatches(s, t, true, c.args);
    case RPOP => PopMatches(s, t, false, c.args);
  }

  lemma SetsFollow(pf: FloatParser, s: State, t: State, c: Command, now: int, later: int)
    requires SameContents(s, t) && Durable(pf, c)
    requires c.name.SADD? || c.name.SREM? || c.name.ZADD? || c.name.ZREM?
    ensures Follows(pf, s, t, c, now, later)
  {
    match c.name
    case SADD => SAddMatches(s, t, c.args);
    case SREM => SRemMatches(s, t, c.args);
    case ZADD => ZAddMatches(pf, s, t, c.args);
    case ZREM => ZRemMatches(s, t, c.args);
  }

  /** From equal contents a durable command, replayed at any time, leaves equal contents. */
  lemma ReplayFollows(pf: FloatParser, s: State, t: State, c: Command, now: int, later: int)
    requires IsWrite(c.name) && SameContents(s, t) && Durable(pf, c)
    ensures Follows(pf, s, t, c, now, later)
  {
    match c.name
    case SET | DEL | MSET | MSETNX | APPEND => StringsFollow(pf, s, t, c, now, later);
    case HSET | HDEL | LPUSH | RPUSH | LPOP | RPOP => HashesAndListsFollow(pf, s, t, c, now, later);
    case SADD | SREM | ZADD | ZREM => SetsFollow(pf, s, t, c, now, later);
  }

  /** ZADD that stops half-way keeps its first pair. */
  lemma {:induction false} ScoresKeepMembers(pf: FloatParser, z: map<bytes, Score>, pairs: seq<bytes>)
    ensures z.Keys <= AddScores(pf, z, pairs).scores.Keys
    decreases |pairs|
  {
    if |pairs| >= 2 && pf(pairs[0]).Some? {
      ScoresKeepMembers(pf, z[pairs[1] := pf(pairs[0]).value], pairs[2..]);
    }
  }

  lemma NotDurableShows(pf: FloatParser, c: Command)
    requires IsWrite(c.name) && !Durable(pf, c)
    ensures !Follows(pf, EMPTY, EMPTY, c, 0, 1)
  {
    var live := Live(pf, EMPTY, c, 0).state;
    if c.name.ZADD? {
      var k, pairs := c.args[0], c.args[1..];
      var none: map<bytes, Score> := map[];
      assert pairs[0] == c.args[1];
      ScoresKeepMembers(pf, none[pairs[1] := pf(pairs[0]).value], pairs[2..]);
      assert pairs[1] in GetOr(live.zsets, k, map[]);
      assert GetOr(EMPTY.zsets, k, map[]) == map[];
    } else if c.name.SET? {
      DeadlineMoves(EMPTY, EMPTY, c.args, 0, 1);
    } else {
      assert c.args[0] in live.strings;
    }
  }

  /** A SET with a deadline: replay knows EX only and starts it anew, so that the deadline
      moves by the time that has passed; under PX it is gone. */
  lemma DeadlineMoves(s: State, t: State, args: seq<bytes>, now: int, later: int)
    requires LiveTtl(args) > 0
    ensures var k := args[0];
            var live, restored := HandleSet(s, args, now).state.strings, ReplaySet(t, args, later).strings;
            && k in live && k in restored && restored[k].value == live[k].value
            && live[k].expiration == now + LiveTtl(args)
            && restored[k].expiration
               == if ToUpper(args[2]) == EX then live[k].expiration + (later - now) else 0
  {
    assert EX != PX by {
      assert EX[0] != PX[0];
    }
  }

  /** Which commands the log keeps, exactly: replaying what was logged, at any later time,
      gives what the live handler did in every state, if and only if the command is not a
      SET with a deadline, not an APPEND, and not a ZADD that stops half-way. */
  lemma DurableExactly(pf: FloatParser, c: Command)
    requires IsWrite(c.name)
    ensures (forall s, now, later | now <= later :: Follows(pf, s, s, c, now, later)) <==> Durable(pf, c)
  {
    if Durable(pf, c) {
      forall s, now, later | now <= later ensures Follows(pf, s, s, c, now, later) {
        ReplayFollows(pf, s, s, c, now, later);
      }
    } else {
      NotDurableShows(pf, c);
    }
  }

  // ---------- Runs ----------

  datatype Request = Request(command: Command, now: int)

  /** A run is a sequence of write commands.  Commands that only read are left out: they
      write nothing, but GET and TTL remove an item past its deadline, which a later MSETNX
      or DEL can notice.  No item of a durable run has a deadline. */
  predicate IsRun(reqs: seq<Request>) {
    forall i | 0 <= i < |reqs| :: IsWrite(reqs[i].command.name)
  }

  /** The live state after a run from state `s`. */
  function LiveFrom(pf: FloatParser, s: State, reqs: seq<Request>): State
    requires IsRun(reqs)
    decreases |reqs|
  {
    if reqs == [] then s
    else
      var last := reqs[|reqs| - 1];
      Live(pf, LiveFrom(pf, s, reqs[..|reqs| - 1]), last.command, last.now).state
  }

  /** The live state after a run from empty. */
  function LiveRun(pf: FloatParser, reqs: seq<Request>): State
    requires IsRun(reqs)
  {
    LiveFrom(pf, EMPTY, reqs)
  }

  /** The commands that a run from state `s` logged. */
  function LoggedFrom(pf: FloatParser, s: State, reqs: seq<Request>): seq<Command>
    requires IsRun(reqs)
    ensures forall c | c in LoggedFrom(pf, s, reqs) :: IsWrite(c.name)
    decreases |reqs|
  {
    if reqs == [] then []
    else
      var before, last := reqs[..|reqs| - 1], reqs[|reqs| - 1];
      LoggedFrom(pf, s, before)
      + if Live(pf, LiveFrom(pf, s, before), last.command, last.now).logged then [last.command] else []
  }

  function Logged(pf: FloatParser, reqs: seq<Request>): seq<Command>
    requires IsRun(reqs)
    ensures forall c | c in Logged(pf, reqs) :: IsWrite(c.name)
  {
    LoggedFrom(pf, EMPTY, reqs)
  }

  /** Commands replayed onto state `t` one after the other; `clock(i)` is the time of the i-th. */
  function ReplayFrom(pf: FloatParser, t: State, cs: seq<Command>, clock: nat -> int): State
    decreases |cs|
  {
    if cs == [] then t
    else
      var n := |cs| - 1;
      Replay(pf, ReplayFrom(pf, t, cs[..n], clock), cs[n], clock(n))
  }

  function ReplayAll(pf: FloatParser, cs: seq<Command>, clock: nat -> int): State {
    ReplayFrom(pf, EMPTY, cs, clock)
  }

  predicate AllDurable(pf: FloatParser, reqs: seq<Request>) {
    forall i | 0 <= i < |reqs| :: Durable(pf, reqs[i].command)
  }

  /** Replaying the log of a run, at any times, follows the live state from any state with
      the same contents. */
  lemma {:induction false} LogFollowsRun(pf: FloatParser, s: State, t: State, reqs: seq<Request>, clock: nat -> int)
    requires IsRun(reqs) && AllDurable(pf, reqs) && SameContents(s, t)
    ensures SameContents(LiveFrom(pf, s, reqs), ReplayFrom(pf, t, LoggedFrom(pf, s, reqs), clock))
    decreases |reqs|
  {
    if reqs != [] {
      var before, last := reqs[..|reqs| - 1], reqs[|reqs| - 1];
      assert IsRun(before) && AllDurable(pf, before);
      LogFollowsRun(pf, s, t, before, clock);
      var log, live := LoggedFrom(pf, s, before), LiveFrom(pf, s, before);
      var n := |log|;
      ReplayFollows(pf, live, ReplayFrom(pf, t, log, clock), last.command, last.now, clock(n));
      if Live(pf, live, last.command, last.now).logged {
        assert LoggedFrom(pf, s, reqs)[..n] == log && LoggedFrom(pf, s, reqs)[n] == last.command;
      } else {
        assert LoggedFrom(pf, s, reqs) == log;
      }
    }
  }

  /** From empty, replaying the log restores the live state. */
  lemma LogRestoresRun(pf: FloatParser, reqs: seq<Request>, clock: nat -> int)
    requires IsRun(reqs) && AllDurable(pf, reqs)
    ensures SameContents(LiveRun(pf, reqs), ReplayAll(pf, Logged(pf, reqs), clock))
  {
    LogFollowsRun(pf, EMPTY, EMPTY, reqs, clock);
  }

  // ---------- Bytes ----------

  /** The log as `LogCommand` writes it. */
  function Entries(cs: seq<Command>): (vs: seq<Value>)
    requires forall c | c in cs :: IsWrite(c.name)
    ensures |vs| == |cs|
  {
    if cs == [] then [] else [LogEntry(cs[0])] + Entries(cs[1..])
  }

  /** The read loop of `Load`: it ends at the first read that fails. */
  datatype Loaded = Loaded(values: seq<Value>, panicked: bool)

  function Load(s: bytes): Loaded
    decreases |s|
  {
    match ParseValue(s, 0)
    case Failed(_, _) => Loaded([], false)
    case Panicked => Loaded([], true)
    case Parsed(v, rest) =>
      var more := Load(rest);
      Loaded([v] + more.values, more.panicked)
  }

  /** `replayCommand` skips a value that is no command. */
  function CommandsIn(vs: seq<Value>): seq<Command> {
    if vs == [] then []
    else if IsCommand(vs[0]) then [ParseCommand(vs[0])] + CommandsIn(vs[1..])
    else CommandsIn(vs[1..])
  }

  lemma {:induction false} CommandsOfEntries(cs: seq<Command>)
    requires forall c | c in cs :: IsWrite(c.name)
    ensures CommandsIn(Entries(cs)) == cs
  {
    if cs != [] {
      ParseLogEntry(cs[0]);
      CommandsOfEntries(cs[1..]);
      assert Entries(cs)[1..] == Entries(cs[1..]);
    }
  }

  predicate Writable(v: Value) {
    Sendable(v, MAX_DEPTH) && NoEmptyBulk(v)
  }

  lemma EncodeAllPrefix(vs: seq<Value>, k: nat)
    requires 0 < k <= |vs|
    ensures vs[..k] == [vs[0]] + vs[1..][..k - 1]
    ensures EncodeAll(vs[..k]) == Encode(vs[0]) + EncodeAll(vs[1..][..k - 1])
  {
    assert vs[..k][1..] == vs[1..][..k - 1];
  }

  lemma CutFirst(vs: seq<Value>, cut: bytes)
    requires vs != [] && Writable(vs[0])
    requires cut <= EncodeAll(vs) && |cut| < |Encode(vs[0])|
    ensures Load(cut) == Loaded([], false) && |cut| < |EncodeAll(vs[..1])|
  {
    assert cut < Encode(vs[0]) by {
      assert EncodeAll(vs)[..|cut|] == cut;
    }
    CutValueFails(vs[0], cut, 0);
    EncodeAllPrefix(vs, 1);
  }

  /** A log that is cut off anywhere: the complete leading entries come back, and nothing
      else; the read of the cut entry fails without a panic. */
  lemma {:induction false} CutLogLoads(vs: seq<Value>, cut: bytes) returns (k: nat)
    requires forall i | 0 <= i < |vs| :: Writable(vs[i])
    requires cut <= EncodeAll(vs)
    ensures k <= |vs| && Load(cut) == Loaded(vs[..k], false)
    ensures EncodeAll(vs[..k]) <= cut
    ensures k < |vs| ==> |cut| < |EncodeAll(vs[..k + 1])|
  {
    if vs == [] {
      k := 0;
    } else if |cut| < |Encode(vs[0])| {
      CutFirst(vs, cut);
      k := 0;
    } else {
      var first := Encode(vs[0]);
      var rest := cut[|first|..];
      assert cut == first + rest && rest <= EncodeAll(vs[1..]);
      assert forall i | 0 <= i < |vs[1..]| :: vs[1..][i] == vs[i + 1];
      var n := CutLogLoads(vs[1..], rest);
      CutOneMore(vs, rest, n);
      k := n + 1;
    }
  }

  /** A complete entry in front of a cut log. */
  lemma CutOneMore(vs: seq<Value>, rest: bytes, n: nat)
    requires vs != [] && Writable(vs[0]) && n <= |vs| - 1
    requires Load(rest) == Loaded(vs[1..][..n], false) && EncodeAll(vs[1..][..n]) <= rest
    requires n < |vs| - 1 ==> |rest| < |EncodeAll(vs[1..][..n + 1])|
    ensures var cut := Encode(vs[0]) + rest;
            && Load(cut) == Loaded(vs[..n + 1], false) && EncodeAll(vs[..n + 1]) <= cut
            && (n + 1 < |vs| ==> |cut| < |EncodeAll(vs[..n + 2])|)
  {
    ParseEncode(vs[0], rest, 0);
    EncodeAllPrefix(vs, n + 1);
    if n + 1 < |vs| {
      EncodeAllPrefix(vs, n + 2);
    }
  }

  // ---------- Crash recovery ----------

  predicate GoodArgument(a: bytes) {
    0 < |a| <= MAX_BULK
  }

  /** Commands whose log entry can be read back: no argument is empty. */
  predicate GoodArguments(c: Command) {
    |c.args| < MAX_ARRAY && forall i | 0 <= i < |c.args| :: GoodArgument(c.args[i])
  }

  lemma {:induction false} BulksAreWritable(args: seq<bytes>)
    requires forall i | 0 <= i < |args| :: GoodArgument(args[i])
    ensures AllSendable(Bulks(args), MAX_DEPTH - 1) && NoneEmpty(Bulks(args))
  {
    if args != [] {
      assert GoodArgument(args[0]);
      BulksAreWritable(args[1..]);
      assert Bulks(args)[1..] == Bulks(args[1..]);
    }
  }

  lemma EntryIsWritable(c: Command)
    requires IsWrite(c.name) && GoodArguments(c)
    ensures Writable(LogEntry(c))
  {
    WriteNameRoundTrip(c.name);
    BulksAreWritable(c.args);
    var es := LogEntry(c).elems;
    assert es[1..] == Bulks(c.args) && es[0] == BulkString(Ascii(WriteText(c.name)));
    assert Sendable(es[0], MAX_DEPTH - 1) && NoEmptyBulk(es[0]);
    assert AllSendable(es, MAX_DEPTH - 1) && NoneEmpty(es);
  }

  lemma {:induction false} EntriesAreWritable(cs: seq<Command>)
    requires forall c | c in cs :: IsWrite(c.name) && GoodArguments(c)
    ensures forall i | 0 <= i < |cs| :: Entries(cs)[i] == LogEntry(cs[i]) && Writable(Entries(cs)[i])
  {
    if cs != [] {
      EntryIsWritable(cs[0]);
      EntriesAreWritable(cs[1..]);
      forall i | 0 < i < |cs| ensures Entries(cs)[i] == LogEntry(cs[i]) && Writable(Entries(cs)[i]) {
        assert Entries(cs)[i] == Entries(cs[1..])[i - 1] && cs[i] == cs[1..][i - 1];
      }
    }
  }

  lemma {:induction false} EntriesOfPrefix(cs: seq<Command>, k: nat)
    requires forall c | c in cs :: IsWrite(c.name)
    requires k <= |cs|
    ensures Entries(cs)[..k] == Entries(cs[..k])
  {
    if k > 0 {
      EntriesOfPrefix(cs[1..], k - 1);
      assert cs[..k][1..] == cs[1..][..k - 1];
    }
  }

  /** The requests behind the first `k` logged commands. */
  lemma {:induction false} RunBehindLog(pf: FloatParser, reqs: seq<Request>, k: nat) returns (m: nat)
    requires IsRun(reqs) && k <= |Logged(pf, reqs)|
    ensures m <= |reqs| && Logged(pf, reqs[..m]) == Logged(pf, reqs)[..k]
    ensures m < |reqs| ==> k < |Logged(pf, reqs)| && Logged(pf, reqs[..m + 1]) == Logged(pf, reqs)[..k + 1]
  {
    if k == |Logged(pf, reqs)| {
      m := |reqs|;
      assert reqs[..m] == reqs;
    } else {
      var before := reqs[..|reqs| - 1];
      var log := Logged(pf, before);
      assert log <= Logged(pf, reqs) && |Logged(pf, reqs)| <= |log| + 1;
      m := RunBehindLog(pf, before, k);
      assert before[..m] == reqs[..m];
      if m < |before| {
        assert before[..m + 1] == reqs[..m + 1];
      } else {
        assert before[..m] == before && reqs[..m + 1] == reqs;
      }
    }
  }

  function LogBytes(pf: FloatParser, reqs: seq<Request>): bytes
    requires IsRun(reqs)
  {
    EncodeAll(Entries(Logged(pf, reqs)))
  }

  predicate AllGood(reqs: seq<Request>) {
    forall i | 0 <= i < |reqs| :: GoodArguments(reqs[i].command)
  }

  lemma {:induction false} LoggedAreGood(pf: FloatParser, reqs: seq<Request>)
    requires IsRun(reqs) && AllGood(reqs)
    ensures forall c | c in Logged(pf, reqs) :: GoodArguments(c)
  {
    if reqs != [] {
      LoggedAreGood(pf, reqs[..|reqs| - 1]);
    }
  }

  /** Crash recovery.  However the log is cut off, loading it restores the live state as it
      stood after some request, namely the last one before the first command whose log
      entry is incomplete; a log that was not cut restores the final state. */
  lemma CrashRecovery(pf: FloatParser, reqs: seq<Request>, cut: bytes, clock: nat -> int) returns (m: nat)
    requires IsRun(reqs) && AllDurable(pf, reqs) && AllGood(reqs)
    requires cut <= LogBytes(pf, reqs)
    ensures m <= |reqs| && !Load(cut).panicked
    ensures CommandsIn(Load(cut).values) == Logged(pf, reqs[..m])
    ensures SameContents(LiveRun(pf, reqs[..m]), ReplayAll(pf, CommandsIn(Load(cut).values), clock))
    ensures LogBytes(pf, reqs[..m]) <= cut
    ensures m < |reqs| ==> |cut| < |LogBytes(pf, reqs[..m + 1])|
    ensures cut == LogBytes(pf, reqs) ==> Logged(pf, reqs[..m]) == Logged(pf, reqs)
  {
    var log := Logged(pf, reqs);
    LoggedAreGood(pf, reqs);
    EntriesAreWritable(log);
    var k := CutLogLoads(Entries(log), cut);
    m := RunBehindLog(pf, reqs, k);
    EntriesOfPrefix(log, k);
    CommandsOfEntries(log[..k]);
    LogRestoresRun(pf, reqs[..m], clock);
    if m < |reqs| {
      EntriesOfPrefix(log, k + 1);
    }
    if cut == LogBytes(pf, reqs) {
      if k < |log| {
        EncodeAllGrows(Entries(log), k + 1);
      }
      assert log[..|log|] == log;
    }
  }

  lemma {:induction false} EncodeAllGrows(vs: seq<Value>, k: nat)
    requires k <= |vs|
    ensures |EncodeAll(vs[..k])| <= |EncodeAll(vs)|
  {
    if k > 0 {
      EncodeAllPrefix(vs, k);
      EncodeAllGrows(vs[1..], k - 1);
    }
  }

  /** The whole log restores the final state. */
  lemma ReplayReproducesLiveState(pf: FloatParser, reqs: seq<Request>, clock: nat -> int)
    requires IsRun(reqs) && AllDurable(pf, reqs) && AllGood(reqs)
    ensures Load(LogBytes(pf, reqs)) == Loaded(Entries(Logged(pf, reqs)), false)
    ensures SameContents(LiveRun(pf, reqs), ReplayAll(pf, CommandsIn(Load(LogBytes(pf, reqs)).values), clock))
  {
    var log := Logged(pf, reqs);
    LoggedAreGood(pf, reqs);
    EntriesAreWritable(log);
    var k := CutLogLoads(Entries(log), LogBytes(pf, reqs));
    if k < |log| {
      EncodeAllGrows(Entries(log), k + 1);
    }
    assert Entries(log)[..|log|] == Entries(log);
    CommandsOfEntries(log);
    LogRestoresRun(pf, reqs, clock);
  }

  // ---------- Empty arguments ----------

  predicate IsFlat(es: seq<Value>) {
    forall i | 0 <= i < |es| :: es[i].BulkString?
  }

  /** Whether an entry is read back: no element is empty, or only the last one is. */
  predicate Readable(v: Value) {
    v.Array? && (v.elems == [] || NoneEmpty(v.elems[..|v.elems| - 1]))
  }

  /** A bulk string is read, and the rest of the array after it: after an empty one the
      rest begins with the CRLF that was left behind. */
  lemma BulkFirst(es: seq<Value>, rest: bytes, depth: nat)
    requires es != [] && es[0].BulkString? && |es[0].str| <= MAX_BULK
    ensures var tail := EncodeAll(es[1..]) + rest;
            ParseMany(EncodeAll(es) + rest, |es|, depth)
            == match ParseMany(if es[0].str == [] then CRLF + tail else tail, |es| - 1, depth)
               case Parsed(vs, r) => Parsed([es[0]] + vs, r)
               case Failed(f, leak) => Failed(f, leak)
               case Panicked => Panicked
  {
    var tail := EncodeAll(es[1..]) + rest;
    assert EncodeAll(es) + rest == Encode(es[0]) + tail;
    ParseBulkStringOf(es[0].str, tail, depth);
  }

  lemma EmptyFirst(es: seq<Value>, rest: bytes, depth: nat)
    requires es != [] && es[0] == BulkString([])
    ensures var p := ParseMany(EncodeAll(es) + rest, |es|, depth);
            if |es| == 1 then p == Parsed(es, CRLF + rest) else p.Failed?
  {
    BulkFirst(es, rest, depth);
    if |es| == 1 {
      assert EncodeAll(es[1..]) + rest == rest;
      assert [es[0]] + [] == es;
    } else {
      CRLFIsNoStream(EncodeAll(es[1..]) + rest, |es| - 1, depth);
    }
  }

  lemma NoneEmptyInit(es: seq<Value>)
    requires |es| > 1
    ensures NoneEmpty(es[..|es| - 1]) <==> NoEmptyBulk(es[0]) && NoneEmpty(es[1..][..|es| - 2])
  {
    var init := es[..|es| - 1];
    assert init[1..] == es[1..][..|es| - 2] && init[0] == es[0];
  }

  lemma {:induction false} FlatWithEmpty(es: seq<Value>, rest: bytes, depth: nat)
    requires 0 < depth <= MAX_DEPTH && AllSendable(es, MAX_DEPTH - depth) && IsFlat(es) && !NoneEmpty(es)
    ensures var p := ParseMany(EncodeAll(es) + rest, |es|, depth);
            if NoneEmpty(es[..|es| - 1]) then p == Parsed(es, CRLF + rest) else p.Failed?
  {
    if |es| > 1 {
      NoneEmptyInit(es);
    }
    if es[0].str == [] {
      EmptyFirst(es, rest, depth);
    } else {
      BulkFirst(es, rest, depth);
      FlatWithEmpty(es[1..], rest, depth);
      assert es == [es[0]] + es[1..];
    }
  }

  /** How many entries of a log come back when arguments may be empty. */
  function Recovered(vs: seq<Value>): (n: nat)
    ensures n <= |vs|
  {
    if vs == [] then 0
    else if NoEmptyBulk(vs[0]) then 1 + Recovered(vs[1..])
    else if Readable(vs[0]) then 1
    else 0
  }

  /** Data loss, exactly: the first command with an empty argument ends the load.  That
      command itself comes back if only its last argument is empty, and is lost otherwise;
      every command after it is lost in both cases. */
  lemma {:induction false} EmptyArgumentEndsLoad(vs: seq<Value>)
    requires forall i | 0 <= i < |vs| :: vs[i].Array? && IsFlat(vs[i].elems) && Sendable(vs[i], MAX_DEPTH)
    ensures Load(EncodeAll(vs)) == Loaded(vs[..Recovered(vs)], false)
  {
    if vs != [] {
      if NoEmptyBulk(vs[0]) {
        EmptyArgumentEndsLoad(vs[1..]);
        WholeEntryLoads(vs);
      } else {
        EmptyEntryEndsLoad(vs);
      }
    }
  }

  lemma WholeEntryLoads(vs: seq<Value>)
    requires vs != [] && Sendable(vs[0], MAX_DEPTH) && NoEmptyBulk(vs[0])
    requires Load(EncodeAll(vs[1..])) == Loaded(vs[1..][..Recovered(vs[1..])], false)
    ensures Load(EncodeAll(vs)) == Loaded(vs[..Recovered(vs)], false)
  {
    ParseEncode(vs[0], EncodeAll(vs[1..]), 0);
    assert vs[..Recovered(vs)] == [vs[0]] + vs[1..][..Recovered(vs[1..])];
  }

  lemma EmptyEntryParses(es: seq<Value>, tail: bytes)
    requires |es| <= MAX_ARRAY && AllSendable(es, MAX_DEPTH - 1) && IsFlat(es) && !NoneEmpty(es)
    ensures var p := ParseValue(Encode(Array(es)) + tail, 0);
            if NoneEmpty(es[..|es| - 1]) then p == Parsed(Array(es), CRLF + tail) else p.Failed?
  {
    ParseArrayOf(es, tail, 0);
    FlatWithEmpty(es, tail, 1);
  }

  lemma EmptyEntryEndsLoad(vs: seq<Value>)
    requires vs != [] && vs[0].Array? && IsFlat(vs[0].elems) && Sendable(vs[0], MAX_DEPTH) && !NoEmptyBulk(vs[0])
    ensures Load(EncodeAll(vs)) == Loaded(vs[..Recovered(vs)], false)
  {
    var tail := EncodeAll(vs[1..]);
    EmptyEntryParses(vs[0].elems, tail);
    CRLFIsNoValue(tail, 0);
    assert Load(CRLF + tail) == Loaded([], false);
    assert vs[..1] == [vs[0]] + [];
  }
}
