/** What a restart makes of a log that was cut off: the program reopens the same file for
    appending (`internal/persistence/aof.go`, `Start`), so that what it logs from then on
    stands right behind the cut. */
module AofRestart {
  import opened Bytes
  import opened Resp
  import opened Commands
  import opened Store
  import opened Aof

  // ---------- Loading in two parts ----------

  ghost predicate AllWritable(vs: seq<Value>) {
    forall i | 0 <= i < |vs| :: Writable(vs[i])
  }

  lemma FailedReadEndsLoad(s: bytes)
    requires ParseValue(s, 0).Failed?
    ensures Load(s) == Loaded([], false)
  {
  }

  lemma LoadFirst(v: Value, rest: bytes)
    requires Writable(v)
    ensures Load(Encode(v) + rest) == Loaded([v] + Load(rest).values, Load(rest).panicked)
  {
    ParseEncode(v, rest, 0);
  }

  lemma Associates<T>(a: seq<T>, b: seq<T>, c: seq<T>)
    ensures a + b + c == a + (b + c)
  {
  }

  /** Complete entries come back whatever follows them. */
  lemma {:induction false} LoadBehind(vs: seq<Value>, rest: bytes)
    requires AllWritable(vs)
    ensures Load(EncodeAll(vs) + rest) == Loaded(vs + Load(rest).values, Load(rest).panicked)
  {
    if vs == [] {
      assert EncodeAll(vs) + rest == rest && vs + Load(rest).values == Load(rest).values;
    } else {
      assert Writable(vs[0]);
      Associates(Encode(vs[0]), EncodeAll(vs[1..]), rest);
      LoadFirst(vs[0], EncodeAll(vs[1..]) + rest);
      LoadBehind(vs[1..], rest);
      Associates([vs[0]], vs[1..], Load(rest).values);
      assert [vs[0]] + vs[1..] == vs;
    }
  }

  lemma LoadAll(vs: seq<Value>)
    requires AllWritable(vs)
    ensures Load(EncodeAll(vs)) == Loaded(vs, false)
  {
    LoadBehind(vs, []);
    assert EncodeAll(vs) + [] == EncodeAll(vs);
    assert Load([]) == Loaded([], false) && vs + [] == vs;
  }

  /** Entries appended behind a cut log.  The `k` complete entries always come back.  Behind
      a clean cut the appended entries do, too; behind a torn entry the rest of the load
      begins with the torn bytes. */
  lemma AppendedBehindCut(vs: seq<Value>, cut: bytes, ws: seq<Value>) returns (k: nat)
    requires AllWritable(vs) && AllWritable(ws) && cut <= EncodeAll(vs)
    ensures k <= |vs| && EncodeAll(vs[..k]) <= cut
    ensures k < |vs| ==> |cut| < |EncodeAll(vs[..k + 1])|
    ensures var torn := cut[|EncodeAll(vs[..k])|..];
            var l := Load(torn + EncodeAll(ws));
            && Load(cut + EncodeAll(ws)) == Loaded(vs[..k] + l.values, l.panicked)
            && (torn == [] ==> l == Loaded(ws, false))
  {
    k := CutLogLoads(vs, cut);
    var whole := EncodeAll(vs[..k]);
    var torn := cut[|whole|..];
    assert cut == whole + torn;
    Associates(whole, torn, EncodeAll(ws));
    LoadBehind(vs[..k], torn + EncodeAll(ws));
    if torn == [] {
      assert torn + EncodeAll(ws) == EncodeAll(ws);
      LoadAll(ws);
    }
  }

  // ---------- A clean cut ----------

  lemma SameIsSymmetric(s: State, t: State)
    requires SameContents(s, t)
    ensures SameContents(t, s)
  {
    SameBack(s.hashes, t.hashes, map[]);
    SameBack(s.lists, t.lists, []);
    SameBack(s.sets, t.sets, {});
    SameBack(s.zsets, t.zsets, map[]);
  }

  lemma SameBack<V>(m: map<bytes, V>, m': map<bytes, V>, empty: V)
    requires Same(m, m', empty)
    ensures Same(m', m, empty)
  {
    forall k ensures GetOr(m', k, empty) == GetOr(m, k, empty) {
      assert GetOr(m, k, empty) == GetOr(m', k, empty);
    }
  }

  lemma SameOnward<V>(a: map<bytes, V>, b: map<bytes, V>, c: map<bytes, V>, empty: V)
    requires Same(a, b, empty) && Same(b, c, empty)
    ensures Same(a, c, empty)
  {
    forall k ensures GetOr(a, k, empty) == GetOr(c, k, empty) {
      assert GetOr(a, k, empty) == GetOr(b, k, empty) && GetOr(b, k, empty) == GetOr(c, k, empty);
    }
  }

  lemma SameIsTransitive(s: State, t: State, u: State)
    requires SameContents(s, t) && SameContents(t, u)
    ensures SameContents(s, u)
  {
    SameOnward(s.hashes, t.hashes, u.hashes, map[]);
    SameOnward(s.lists, t.lists, u.lists, []);
    SameOnward(s.sets, t.sets, u.sets, {});
    SameOnward(s.zsets, t.zsets, u.zsets, map[]);
  }

  /** The clock of a replay of which `n` commands are done. */
  function Onwards(clock: nat -> int, n: nat): nat -> int {
    (i: nat) => clock(n + i)
  }

  lemma {:induction false} ReplayInTwoParts(pf: FloatParser, t: State, cs: seq<Command>, ds: seq<Command>, clock: nat -> int)
    ensures ReplayFrom(pf, t, cs + ds, clock)
            == ReplayFrom(pf, ReplayFrom(pf, t, cs, clock), ds, Onwards(clock, |cs|))
    decreases |ds|
  {
    if ds == [] {
      assert cs + ds == cs;
    } else {
      var n := |ds| - 1;
      assert (cs + ds)[..|cs| + n] == cs + ds[..n];
      ReplayInTwoParts(pf, t, cs, ds[..n], clock);
    }
  }

  lemma {:induction false} EntriesAppend(cs: seq<Command>, ds: seq<Command>)
    requires forall c | c in cs :: IsWrite(c.name)
    requires forall d | d in ds :: IsWrite(d.name)
    ensures Entries(cs + ds) == Entries(cs) + Entries(ds)
  {
    if cs == [] {
      assert cs + ds == ds;
      assert [] + Entries(ds) == Entries(ds);
    } else {
      var both, rest := cs + ds, cs[1..];
      assert both[0] == cs[0] && both[1..] == rest + ds;
      EntriesAppend(rest, ds);
      Associates([LogEntry(cs[0])], Entries(rest), Entries(ds));
    }
  }

  lemma {:induction false} LoggedFromAreGood(pf: FloatParser, s: State, reqs: seq<Request>)
    requires IsRun(reqs) && AllGood(reqs)
    ensures forall c | c in LoggedFrom(pf, s, reqs) :: GoodArguments(c)
    decreases |reqs|
  {
    if reqs != [] {
      LoggedFromAreGood(pf, s, reqs[..|reqs| - 1]);
    }
  }

  lemma LogIsWritable(cs: seq<Command>)
    requires forall c | c in cs :: IsWrite(c.name) && GoodArguments(c)
    ensures AllWritable(Entries(cs)) && CommandsIn(Entries(cs)) == cs
  {
    EntriesAreWritable(cs);
    CommandsOfEntries(cs);
  }

  /** The bytes that a run from state `s` logs. */
  function BytesFrom(pf: FloatParser, s: State, reqs: seq<Request>): bytes
    requires IsRun(reqs)
  {
    EncodeAll(Entries(LoggedFrom(pf, s, reqs)))
  }

  /** Crash, restart, more commands, restart.  The first load gives the state after some
      request, as CrashRecovery says.  If the log had been cut between two entries, the
      second load restores what the second run left; both loads may take place at any time. */
  lemma RestartRestoresBothRuns(pf: FloatParser, reqs: seq<Request>, cut: bytes, more: seq<Request>,
                                clock: nat -> int, clock': nat -> int) returns (m: nat)
    requires IsRun(reqs) && AllDurable(pf, reqs) && AllGood(reqs)
    requires IsRun(more) && AllDurable(pf, more) && AllGood(more)
    requires cut <= LogBytes(pf, reqs)
    ensures m <= |reqs| && LogBytes(pf, reqs[..m]) <= cut
    ensures m < |reqs| ==> |cut| < |LogBytes(pf, reqs[..m + 1])|
    ensures var restored := ReplayAll(pf, CommandsIn(Load(cut).values), clock);
            && SameContents(LiveRun(pf, reqs[..m]), restored)
            && (cut == LogBytes(pf, reqs[..m]) ==>
                  SameContents(LiveFrom(pf, restored, more),
                               ReplayAll(pf, CommandsIn(Load(cut + BytesFrom(pf, restored, more)).values), clock')))
  {
    m := CrashRecovery(pf, reqs, cut, clock);
    var restored := ReplayAll(pf, CommandsIn(Load(cut).values), clock);
    if cut == LogBytes(pf, reqs[..m]) {
      var done := reqs[..m];
      var log, log' := Logged(pf, done), LoggedFrom(pf, restored, more);
      LoggedAreGood(pf, done);
      LoggedFromAreGood(pf, restored, more);
      LogIsWritable(log + log');
      EntriesAppend(log, log');
      EncodeAllSplits(Entries(log), Entries(log'));
      LoadAll(Entries(log + log'));
      LogRestoresRun(pf, done, clock');
      var again := ReplayAll(pf, log, clock');
      SameIsSymmetric(LiveRun(pf, done), restored);
      SameIsTransitive(restored, LiveRun(pf, done), again);
      ReplayInTwoParts(pf, EMPTY, log, log', clock');
      LogFollowsRun(pf, restored, again, more, Onwards(clock', |log|));
    }
  }

  lemma {:induction false} EncodeAllSplits(vs: seq<Value>, ws: seq<Value>)
    ensures EncodeAll(vs + ws) == EncodeAll(vs) + EncodeAll(ws)
  {
    if vs == [] {
      assert vs + ws == ws;
    } else {
      assert (vs + ws)[1..] == vs[1..] + ws;
      EncodeAllSplits(vs[1..], ws);
    }
  }

  // ---------- An entry torn between two of its elements ----------

  /** The beginning of an entry of `n` elements: those in `done` are complete. */
  function Torn(done: seq<Value>, n: nat): bytes {
    Header(ARRAY, FormatInt(n)) + EncodeAll(done)
  }

  predicate Elements(vs: seq<Value>) {
    AllSendable(vs, MAX_DEPTH - 1) && NoneEmpty(vs)
  }

  lemma {:induction false} JoinedAreElements(vs: seq<Value>, ws: seq<Value>)
    requires Elements(vs) && Elements(ws)
    ensures Elements(vs + ws)
  {
    if vs == [] {
      assert vs + ws == ws;
    } else {
      assert (vs + ws)[1..] == vs[1..] + ws;
      JoinedAreElements(vs[1..], ws);
    }
  }

  lemma Regroup(a: bytes, b: bytes, c: bytes, d: bytes)
    ensures a + b + (c + d) == a + (b + c) + d
  {
  }

  lemma TornThen(done: seq<Value>, taken: seq<Value>, left: seq<Value>)
    ensures Torn(done, |done| + |taken|) + EncodeAll(taken + left)
            == Encode(Array(done + taken)) + EncodeAll(left)
  {
    EncodeAllSplits(taken, left);
    EncodeAllSplits(done, taken);
    var count := Header(ARRAY, FormatInt(|done| + |taken|));
    Regroup(count, EncodeAll(done), EncodeAll(taken), EncodeAll(left));
  }

  /** An entry torn between two elements swallows as many of the following entries as it
      lacks elements, and all entries behind them come back. */
  lemma TornEntrySwallows(done: seq<Value>, taken: seq<Value>, left: seq<Value>, n: nat)
    requires Elements(done) && Elements(taken) && AllWritable(left) && n == |done| + |taken| && n <= MAX_ARRAY
    ensures Load(Torn(done, n) + EncodeAll(taken + left)) == Loaded([Array(done + taken)] + left, false)
  {
    TornThen(done, taken, left);
    JoinedAreElements(done, taken);
    LoadFirst(Array(done + taken), EncodeAll(left));
    LoadAll(left);
  }

  lemma {:induction false} FailsBehind(vs: seq<Value>, bad: bytes, n: nat, depth: nat)
    requires depth <= MAX_DEPTH && AllSendable(vs, MAX_DEPTH - depth) && NoneEmpty(vs) && |vs| < n
    requires ParseValue(bad, depth).Failed?
    ensures ParseMany(EncodeAll(vs) + bad, n, depth).Failed?
  {
    if vs == [] {
      assert EncodeAll(vs) + bad == bad;
    } else {
      var tail := EncodeAll(vs[1..]) + bad;
      Associates(Encode(vs[0]), EncodeAll(vs[1..]), bad);
      ParseEncode(vs[0], tail, depth);
      FailsBehind(vs[1..], bad, n - 1, depth);
    }
  }

  lemma ArrayFails(n: nat, body: bytes)
    requires n <= MAX_ARRAY && ParseMany(body, n, 1).Failed?
    ensures ParseValue(Header(ARRAY, FormatInt(n)) + body, 0).Failed?
  {
    HeaderThen(ARRAY, FormatInt(n), body);
    ParseLengthOf(n, body);
  }

  lemma EndsTooEarly(vs: seq<Value>, n: nat)
    requires Elements(vs) && |vs| < n <= MAX_ARRAY
    ensures ParseValue(Torn(vs, n), 0).Failed?
  {
    FailsBehind(vs, [], n, 1);
    assert EncodeAll(vs) + [] == EncodeAll(vs);
    ArrayFails(n, EncodeAll(vs));
  }

  lemma TornOnward(done: seq<Value>, ws: seq<Value>, n: nat)
    ensures Torn(done, n) + EncodeAll(ws) == Torn(done + ws, n)
  {
    EncodeAllSplits(done, ws);
    Associates(Header(ARRAY, FormatInt(n)), EncodeAll(done), EncodeAll(ws));
  }

  /** When fewer entries follow than it lacks elements, all of them are lost. */
  lemma TornEntryLosesAll(done: seq<Value>, ws: seq<Value>, n: nat)
    requires Elements(done) && Elements(ws) && |done| + |ws| < n <= MAX_ARRAY
    ensures Load(Torn(done, n) + EncodeAll(ws)) == Loaded([], false)
  {
    JoinedAreElements(done, ws);
    EndsTooEarly(done + ws, n);
    FailedReadEndsLoad(Torn(done + ws, n));
    TornOnward(done, ws, n);
  }

  lemma {:induction false} NestedAreNoArguments(vs: seq<Value>)
    requires forall i | 0 <= i < |vs| :: vs[i].Array?
    ensures ArgsOf(vs) == []
  {
    if vs != [] {
      NestedAreNoArguments(vs[1..]);
    }
  }

  lemma {:induction false} ArgsOfJoined(vs: seq<Value>, ws: seq<Value>)
    ensures ArgsOf(vs + ws) == ArgsOf(vs) + ArgsOf(ws)
  {
    if vs == [] {
      assert vs + ws == ws;
    } else {
      assert (vs + ws)[1..] == vs[1..] + ws;
      ArgsOfJoined(vs[1..], ws);
    }
  }

  /** What is replayed in place of the torn entry, whatever it has swallowed: the command
      with the arguments that were complete.  A torn DEL still deletes its first keys. */
  lemma TornCommandIsReplayedShort(complete: Command, taken: seq<Value>)
    requires IsWrite(complete.name) && forall i | 0 <= i < |taken| :: taken[i].Array?
    ensures var v := Array(LogEntry(complete).elems + taken);
            IsCommand(v) && ParseCommand(v) == complete
  {
    ParseLogEntry(complete);
    var es := LogEntry(complete).elems;
    assert (es + taken)[1..] == es[1..] + taken && (es + taken)[0] == es[0];
    ArgsOfJoined(es[1..], taken);
    NestedAreNoArguments(taken);
  }

  lemma {:induction false} EntriesAreElements(cs: seq<Command>)
    requires forall c | c in cs :: IsWrite(c.name) && GoodArguments(c)
    ensures Elements(Entries(cs)) && forall i | 0 <= i < |cs| :: Entries(cs)[i].Array?
  {
    if cs != [] {
      var v := LogEntry(cs[0]);
      EntryIsElement(cs[0]);
      EntriesAreElements(cs[1..]);
      assert Entries(cs) == [v] + Entries(cs[1..]);
      assert ([v] + Entries(cs[1..]))[1..] == Entries(cs[1..]);
    }
  }

  lemma EntryIsElement(c: Command)
    requires IsWrite(c.name) && GoodArguments(c)
    ensures LogEntry(c).Array? && Elements(LogEntry(c).elems)
    ensures Sendable(LogEntry(c), MAX_DEPTH - 1) && NoEmptyBulk(LogEntry(c))
  {
    EntryIsWritable(c);
    WriteNameRoundTrip(c.name);
    BulksAreFlat(c.args);
    FlatIsShallow(LogEntry(c).elems);
  }

  lemma {:induction false} BulksAreFlat(args: seq<bytes>)
    ensures IsFlat(Bulks(args))
  {
    if args != [] {
      BulksAreFlat(args[1..]);
    }
  }

  lemma {:induction false} FlatIsShallow(es: seq<Value>)
    requires AllSendable(es, MAX_DEPTH - 1) && IsFlat(es)
    ensures AllSendable(es, MAX_DEPTH - 2)
  {
    if es != [] {
      assert IsFlat(es[1..]);
      FlatIsShallow(es[1..]);
    }
  }

  /** A log torn inside a command of `n` elements, behind its name and the arguments of
      `complete`: when fewer commands follow than it lacks arguments, nothing comes back. */
  lemma TornCommandLosesAll(complete: Command, n: nat, more: seq<Command>)
    requires IsWrite(complete.name) && GoodArguments(complete)
    requires 1 + |complete.args| + |more| < n <= MAX_ARRAY
    requires forall c | c in more :: IsWrite(c.name) && GoodArguments(c)
    ensures Load(Torn(LogEntry(complete).elems, n) + EncodeAll(Entries(more))) == Loaded([], false)
  {
    EntryIsElement(complete);
    EntriesAreElements(more);
    TornEntryLosesAll(LogEntry(complete).elems, Entries(more), n);
  }

  /** Otherwise the commands in `taken`, one for each argument it lacks, are lost; the torn
      command is replayed with the arguments it has, and then all the others. */
  lemma TornCommandSwallows(complete: Command, n: nat, taken: seq<Command>, left: seq<Command>)
    requires IsWrite(complete.name) && GoodArguments(complete)
    requires n == 1 + |complete.args| + |taken| && n <= MAX_ARRAY
    requires forall c | c in taken :: IsWrite(c.name) && GoodArguments(c)
    requires forall c | c in left :: IsWrite(c.name) && GoodArguments(c)
    ensures var l := Load(Torn(LogEntry(complete).elems, n) + EncodeAll(Entries(taken) + Entries(left)));
            !l.panicked && CommandsIn(l.values) == [complete] + left
  {
    EntryIsElement(complete);
    EntriesAreElements(taken);
    LogIsWritable(left);
    ElementCount(complete);
    TornEntrySwallows(LogEntry(complete).elems, Entries(taken), Entries(left), n);
    ShortThenOthers(complete, Entries(taken), left);
  }

  lemma ElementCount(c: Command)
    requires IsWrite(c.name)
    ensures LogEntry(c).Array? && |LogEntry(c).elems| == 1 + |c.args|
  {
    WriteNameRoundTrip(c.name);
  }

  lemma ShortThenOthers(complete: Command, taken: seq<Value>, left: seq<Command>)
    requires IsWrite(complete.name) && forall i | 0 <= i < |taken| :: taken[i].Array?
    requires forall c | c in left :: IsWrite(c.name)
    ensures CommandsIn([Array(LogEntry(complete).elems + taken)] + Entries(left)) == [complete] + left
  {
    var v := Array(LogEntry(complete).elems + taken);
    TornCommandIsReplayedShort(complete, taken);
    CommandsOfEntries(left);
    assert ([v] + Entries(left))[1..] == Entries(left);
  }

  // ---------- An entry torn inside a length line ----------

  const STAR: byte := 42

  lemma {:induction false} DigitsOnly(s: bytes)
    ensures ParseDigits(s).Some? ==> forall i | 0 <= i < |s| :: IsDigit(s[i])
  {
    if s != [] && IsDigit(s[|s| - 1]) && |s| > 1 {
      DigitsOnly(s[..|s| - 1]);
    }
  }

  /** A number with the type byte of an array in it is none. */
  lemma StarIsNoDigit(s: bytes, i: nat)
    requires i < |s| && s[i] == STAR
    ensures ParseInt(s).None?
  {
    var signed := s[0] == 43 || s[0] == 45;
    DigitsOnly(if signed then s[1..] else s);
    if signed {
      assert s[1..][i - 1] == STAR;
    }
  }

  /** A length line whose end is missing runs on into the entry behind it. */
  lemma TornLength(part: bytes, w: Value, rest: bytes)
    requires LF !in part && w.Array?
    ensures ParseLength(part + (Encode(w) + rest)) == Failed(InvalidFormat, 0)
  {
    var count := FormatInt(|w.elems|);
    var tail := EncodeAll(w.elems) + rest;
    var text := part + [STAR] + count;
    var line := text + [CR];
    assert part + (Encode(w) + rest) == line + [LF] + tail;
    ReadLineOf(line, tail);
    assert (line + [LF])[..|text|] == text;
    StarIsNoDigit(text, |part|);
  }

  lemma SplitFirst(tag: byte, part: bytes, a: bytes, b: bytes)
    ensures var s := [tag] + part + (a + b); s[0] == tag && s[1..] == part + (a + b)
  {
  }

  /** An entry torn inside its count loses everything behind it. */
  lemma TornCountEndsLoad(part: bytes, ws: seq<Value>)
    requires LF !in part && ws != [] && ws[0].Array?
    ensures Load([ARRAY] + part + EncodeAll(ws)) == Loaded([], false)
  {
    SplitFirst(ARRAY, part, Encode(ws[0]), EncodeAll(ws[1..]));
    TornLength(part, ws[0], EncodeAll(ws[1..]));
    FailedReadEndsLoad([ARRAY] + part + EncodeAll(ws));
  }

  lemma TornBulkFails(part: bytes, ws: seq<Value>, depth: nat)
    requires LF !in part && ws != [] && ws[0].Array?
    ensures ParseValue([BULK] + part + EncodeAll(ws), depth).Failed?
  {
    SplitFirst(BULK, part, Encode(ws[0]), EncodeAll(ws[1..]));
    TornLength(part, ws[0], EncodeAll(ws[1..]));
  }

  lemma RegroupFive(a: bytes, b: bytes, c: bytes, d: bytes, e: bytes)
    ensures a + b + c + d + e == a + (b + (c + d + e))
  {
  }

  /** So does an entry torn inside the length of the element behind those in `done`. */
  lemma TornElementLengthEndsLoad(done: seq<Value>, n: nat, part: bytes, ws: seq<Value>)
    requires Elements(done) && |done| < n <= MAX_ARRAY
    requires LF !in part && ws != [] && ws[0].Array?
    ensures Load(Torn(done, n) + [BULK] + part + EncodeAll(ws)) == Loaded([], false)
  {
    var bad := [BULK] + part + EncodeAll(ws);
    TornBulkFails(part, ws, 1);
    FailsBehind(done, bad, n, 1);
    ArrayFails(n, EncodeAll(done) + bad);
    RegroupFive(Header(ARRAY, FormatInt(n)), EncodeAll(done), [BULK], part, EncodeAll(ws));
    FailedReadEndsLoad(Torn(done, n) + [BULK] + part + EncodeAll(ws));
  }

  // ---------- An entry torn inside an argument ----------

  ghost function Prefixed(vs: seq<Value>, p: Parse<seq<Value>>): Parse<seq<Value>> {
    match p
    case Parsed(ws, rest) => Parsed(vs + ws, rest)
    case _ => p
  }

  lemma ReadBefore(v: Value, vs: seq<Value>, tail: bytes, k: nat, p: Parse<seq<Value>>)
    requires Sendable(v, MAX_DEPTH - 1) && NoEmptyBulk(v) && ParseMany(tail, k, 1) == Prefixed(vs, p)
    ensures ParseMany(Encode(v) + tail, k + 1, 1) == Prefixed([v] + vs, p)
  {
    ParseEncode(v, tail, 1);
    if p.Parsed? {
      assert [v] + (vs + p.value) == [v] + vs + p.value;
    }
  }

  lemma PrefixedByNothing(p: Parse<seq<Value>>)
    ensures Prefixed([], p) == p
  {
    if p.Parsed? {
      assert [] + p.value == p.value;
    }
  }

  /** Elements that are complete are read whatever follows. */
  lemma {:induction false} ReadOn(vs: seq<Value>, rest: bytes, m: nat)
    requires Elements(vs)
    ensures ParseMany(EncodeAll(vs) + rest, |vs| + m, 1) == Prefixed(vs, ParseMany(rest, m, 1))
  {
    var p := ParseMany(rest, m, 1);
    if vs == [] {
      assert EncodeAll(vs) + rest == rest;
      PrefixedByNothing(p);
    } else {
      var tail := EncodeAll(vs[1..]) + rest;
      ReadOn(vs[1..], rest, m);
      ReadBefore(vs[0], vs[1..], tail, |vs[1..]| + m, p);
      Associates(Encode(vs[0]), EncodeAll(vs[1..]), rest);
      assert [vs[0]] + vs[1..] == vs;
    }
  }

  /** A bulk string of `len` bytes, as far as it was written: `part`. */
  function TornBulk(len: nat, part: bytes): bytes {
    Header(BULK, FormatInt(len)) + part
  }

  lemma BulkTakes(len: nat, s: bytes)
    requires 0 < len <= MAX_BULK
    ensures ParseValue(TornBulk(len, s), 1)
            == if |s| < len + 2 then Failed(InvalidFormat, 0) else Parsed(BulkString(s[..len]), s[len + 2..])
  {
    HeaderThen(BULK, FormatInt(len), s);
    ParseLengthOf(len, s);
  }

  lemma PrefixedTwice(a: seq<Value>, b: seq<Value>, p: Parse<seq<Value>>)
    ensures Prefixed(a, Prefixed(b, p)) == Prefixed(a + b, p)
  {
    if p.Parsed? {
      assert a + (b + p.value) == a + b + p.value;
    }
  }

  lemma BulkThenOthers(len: nat, s: bytes, m: nat)
    requires 0 < len <= MAX_BULK && m > 0
    ensures ParseMany(TornBulk(len, s), m, 1)
            == if |s| < len + 2 then Failed(InvalidFormat, 0)
               else Prefixed([BulkString(s[..len])], ParseMany(s[len + 2..], m - 1, 1))
  {
    BulkTakes(len, s);
  }

  /** An entry of `n` elements torn inside the bytes of the element behind those in `done`.
      If enough bytes follow, that element is completed with them, whatever they are, and
      two more are taken for its line end; reading goes on behind those. */
  lemma TornElementTakes(done: seq<Value>, n: nat, len: nat, part: bytes, rest: bytes)
    requires Elements(done) && |done| < n <= MAX_ARRAY && 0 < len <= MAX_BULK
    ensures var s := part + rest;
            ParseMany(EncodeAll(done) + (TornBulk(len, part) + rest), n, 1)
            == if |s| < len + 2 then Failed(InvalidFormat, 0)
               else Prefixed(done + [BulkString(s[..len])], ParseMany(s[len + 2..], n - |done| - 1, 1))
  {
    var s, m := part + rest, n - |done|;
    Associates(Header(BULK, FormatInt(len)), part, rest);
    ReadOn(done, TornBulk(len, s), m);
    BulkThenOthers(len, s, m);
    if |s| >= len + 2 {
      PrefixedTwice(done, [BulkString(s[..len])], ParseMany(s[len + 2..], m - 1, 1));
    }
  }

  lemma WholeArray(done: seq<Value>, n: nat, len: nat, part: bytes, rest: bytes)
    requires n <= MAX_ARRAY
    ensures ParseValue(Torn(done, n) + TornBulk(len, part) + rest, 0)
            == match ParseMany(EncodeAll(done) + (TornBulk(len, part) + rest), n, 1)
               case Parsed(vs, rest') => Parsed(Array(vs), rest')
               case Failed(_, leak) => Failed(InvalidFormat, leak)
               case Panicked => Panicked
  {
    var count, bulk := Header(ARRAY, FormatInt(n)), TornBulk(len, part);
    var body := EncodeAll(done) + (bulk + rest);
    Associates(count, EncodeAll(done), bulk);
    Associates(count, EncodeAll(done) + bulk, rest);
    Associates(EncodeAll(done), bulk, rest);
    HeaderThen(ARRAY, FormatInt(n), body);
    ParseLengthOf(n, body);
  }

  /** The log torn inside the last argument of a command, of which the others are those of
      `complete`.  If too little follows, nothing more comes back.  Otherwise the command is
      replayed with an argument made up of what was written of it and of the bytes that
      follow, and the load goes on in the middle of those. */
  lemma TornArgumentIsMadeUp(complete: Command, len: nat, part: bytes, rest: bytes)
    requires IsWrite(complete.name) && GoodArguments(complete) && |complete.args| + 2 <= MAX_ARRAY
    requires 0 < len <= MAX_BULK
    ensures var s := part + rest;
            var l := Load(Torn(LogEntry(complete).elems, |complete.args| + 2) + TornBulk(len, part) + rest);
            if |s| < len + 2 then l == Loaded([], false)
            else
              var more := Load(s[len + 2..]);
              && l.panicked == more.panicked
              && CommandsIn(l.values)
                 == [Command(complete.name, complete.args + [s[..len]])] + CommandsIn(more.values)
  {
    var s, done, n := part + rest, LogEntry(complete).elems, |complete.args| + 2;
    EntryIsElement(complete);
    WholeArray(done, n, len, part, rest);
    TornElementTakes(done, n, len, part, rest);
    if |s| >= len + 2 {
      var arg := s[..len];
      var v, more := Array(done + [BulkString(arg)]), Load(s[len + 2..]).values;
      assert v.elems + [] == v.elems;
      MadeUpCommand(complete, arg);
      assert ([v] + more)[1..] == more;
    }
  }

  lemma MadeUpCommand(complete: Command, arg: bytes)
    requires IsWrite(complete.name)
    ensures var v := Array(LogEntry(complete).elems + [BulkString(arg)]);
            IsCommand(v) && ParseCommand(v) == Command(complete.name, complete.args + [arg])
  {
    ParseLogEntry(complete);
    var es := LogEntry(complete).elems;
    assert (es + [BulkString(arg)])[1..] == es[1..] + [BulkString(arg)];
    ArgsOfJoined(es[1..], [BulkString(arg)]);
    assert [BulkString(arg)][1..] == [];
  }

  /** An entry without its first byte or its first two is no value. */
  lemma BeheadedEntryFails(w: Value, rest: bytes, m: nat)
    requires w.Array? && 1 <= m <= 2
    ensures |Encode(w)| > 2 && ParseValue((Encode(w) + rest)[m..], 0).Failed?
  {
    var count := FormatInt(|w.elems|);
    assert Encode(w) == [ARRAY] + count + CRLF + EncodeAll(w.elems);
    assert IsDigit(Digits(|w.elems|)[0]);
    if |count| > 1 {
      assert IsDigit(Digits(|w.elems|)[1]);
    }
    var head := (Encode(w) + rest)[m..][0];
    assert head == if m <= |count| then count[m - 1] else CR;
  }

  /** Torn inside the line end of its last argument, at least one byte of which is missing,
      a command comes back as it was logged, and everything behind it is lost. */
  lemma TornLineEndLosesRest(complete: Command, arg: bytes, part: bytes, ws: seq<Value>)
    requires IsWrite(complete.name) && GoodArguments(complete) && |complete.args| + 2 <= MAX_ARRAY
    requires GoodArgument(arg) && arg <= part < arg + CRLF && ws != [] && ws[0].Array?
    ensures var l := Load(Torn(LogEntry(complete).elems, |complete.args| + 2) + TornBulk(|arg|, part) + EncodeAll(ws));
            !l.panicked && CommandsIn(l.values) == [Command(complete.name, complete.args + [arg])]
  {
    var s, m := part + EncodeAll(ws), |arg| + 2 - |part|;
    BeheadedEntryFails(ws[0], EncodeAll(ws[1..]), m);
    assert s[..|arg|] == part[..|arg|] == arg;
    assert s[|arg| + 2..] == EncodeAll(ws)[m..];
    FailedReadEndsLoad(s[|arg| + 2..]);
    TornArgumentIsMadeUp(complete, |arg|, part, EncodeAll(ws));
  }
}
