/** What a transaction amounts to: nothing until EXEC, then its commands one by one; and
    what the watch guarantee means for the data of the five keyspaces. */
module TxRuns {
  import opened Bytes
  import opened Commands
  import opened Transactions
  import opened TxEffects
  import opened OptimisticLocking
  import Store
  import Conservation
  import StoreLaws
  import Lru
  import Shard

  // ---------- EXEC is a fold ----------

  /** Requests of one connection, one after the other: `processPipeline`. */
  function HandleAll<C(==), D, R>(h: Handlers<D, R>, s: State<C, D>, c: C, cmds: seq<Command>, now: int)
    : (State<C, D>, seq<Reply<R>>)
    requires c in s.conns
    decreases cmds
  {
    if cmds == [] then (s, [])
    else
      var (s1, r) := Handle(h, s, c, cmds[0], now);
      HandleOwn(h, s, c, cmds[0], now);
      var (s2, rs) := HandleAll(h, s1, c, cmds[1..], now);
      (s2, [r] + rs)
  }

  lemma {:induction false} OrdinaryCommandsAreProcessed<C, D, R>(h: Handlers<D, R>, s: State<C, D>, c: C,
                                                                 cmds: seq<Command>, now: int)
    requires c in s.conns && !s.conns[c].inTx
    requires forall i | 0 <= i < |cmds| :: Ordinary(cmds[i])
    ensures HandleAll(h, s, c, cmds, now) == ProcessAll(h, s, cmds, now)
    decreases cmds
  {
    if cmds != [] {
      HandleOwn(h, s, c, cmds[0], now);
      OrdinaryCommandsAreProcessed(h, Handle(h, s, c, cmds[0], now).0, c, cmds[1..], now);
    }
  }

  /** A committed EXEC gives the state and the replies of ending the transaction and then
      sending the queued commands as requests of their own, in order, one reply for each. */
  lemma ExecIsTheQueueOneByOne<C, D, R>(h: Handlers<D, R>, s: State<C, D>, c: C, now: int)
    requires GoodQueues(s) && Commits(h, s, c, now)
    ensures var k := s.conns[c];
            var (s1, rs) := HandleAll(h, Update(s, c, k.(inTx := false, queue := [])), c, k.queue, now);
            Handle(h, s, c, EXECUTE, now) == (s1, Results(rs)) && |rs| == |k.queue|
  {
    var k := s.conns[c];
    var s0 := Update(s, c, k.(inTx := false, queue := []));
    OrdinaryCommandsAreProcessed(h, s0, c, k.queue, now);
    ProcessAllMarks(h, s0, k.queue, now);
  }

  // ---------- The queue is what was sent ----------

  /** The ordinary commands that `c` sends in a run. */
  function Sent<C(==)>(es: seq<Event<C>>, c: C): seq<Command> {
    if es == [] then []
    else
      var e := es[|es| - 1];
      Sent(es[..|es| - 1], c) + if e.Request? && e.c == c && Ordinary(e.command) then [e.command] else []
  }

  /** `c` neither ends its transaction nor leaves. */
  predicate StaysInTx<C(==)>(es: seq<Event<C>>, c: C) {
    forall i | 0 <= i < |es| && es[i].c == c ::
      !es[i].Disconnect?
      && (es[i].Request? ==> !es[i].command.name.EXEC? && !es[i].command.name.DISCARD?)
  }

  lemma {:induction false} QueueIsWhatWasSent<C, D, R>(h: Handlers<D, R>, s: State<C, D>, es: seq<Event<C>>, c: C)
    requires Acts(s, c) && s.conns[c].inTx && StaysInTx(es, c)
    ensures var t := Run(h, s, es);
            Acts(t, c) && t.conns[c].inTx && t.conns[c].queue == s.conns[c].queue + Sent(es, c)
  {
    if es == [] {
      assert s.conns[c].queue + [] == s.conns[c].queue;
    } else {
      var init, e := es[..|es| - 1], es[|es| - 1];
      assert forall i | 0 <= i < |init| :: init[i] == es[i];
      QueueIsWhatWasSent(h, s, init, c);
      QueueStep(h, Run(h, s, init), e, c);
    }
  }

  lemma QueueStep<C, D, R>(h: Handlers<D, R>, s: State<C, D>, e: Event<C>, c: C)
    requires Acts(s, c) && s.conns[c].inTx
    requires e.c == c ==> !e.Disconnect?
    requires e.c == c && e.Request? ==> !e.command.name.EXEC? && !e.command.name.DISCARD?
    ensures var t := Step(h, s, e);
            && Acts(t, c) && t.conns[c].inTx
            && t.conns[c].queue == s.conns[c].queue
                 + if e.Request? && e.c == c && Ordinary(e.command) then [e.command] else []
  {
    assert s.conns[c].queue + [] == s.conns[c].queue;
    if e.Request? && Acts(s, e.c) {
      if e.c == c {
        HandleOwn(h, s, c, e.command, e.now);
      } else {
        HandleOthers(h, s, e.c, e.command, e.now, c);
      }
    }
  }

  const BEGIN := Command(MULTI, [])

  /** MULTI, then any interleaving in which `c` sends what it likes, then an EXEC that
      commits: exactly the ordinary commands that `c` sent in between are run, in that
      order, from the state at EXEC, and one reply comes back for each. */
  lemma TransactionRunsWhatWasSent<C, D, R>(h: Handlers<D, R>, s: State<C, D>, es: seq<Event<C>>, c: C, now: int)
    requires Inv(s) && Acts(s, c) && !s.conns[c].inTx && StaysInTx(es, c)
    requires Commits(h, Run(h, Handle(h, s, c, BEGIN, now).0, es), c, now)
    ensures var t := Run(h, Handle(h, s, c, BEGIN, now).0, es);
            var free := Update(t, c, t.conns[c].(inTx := false, queue := []));
            var (after, replies) := HandleAll(h, free, c, Sent(es, c), now);
            Handle(h, t, c, EXECUTE, now) == (after, Results(replies)) && |replies| == |Sent(es, c)|
  {
    var s1 := Handle(h, s, c, BEGIN, now).0;
    assert s1 == Step(h, s, Request(c, BEGIN, now));
    StepKeepsInv(h, s, Request(c, BEGIN, now));
    RunKeepsInv(h, s1, es, |es|);
    assert es[..|es|] == es;
    QueueIsWhatWasSent(h, s1, es, c);
    assert [] + Sent(es, c) == Sent(es, c);
    ExecIsTheQueueOneByOne(h, Run(h, s1, es), c, now);
  }

  // ---------- Nobody notices a transaction before EXEC ----------

  predicate SameButFor<C(==), D(==)>(s: State<C, D>, t: State<C, D>, c: C) {
    && s.data == t.data && s.watchers == t.watchers && s.conns.Keys == t.conns.Keys && c in s.conns
    && forall x | x in s.conns && x != c :: s.conns[x] == t.conns[x]
  }

  function NotBy<C(==)>(es: seq<Event<C>>, c: C): seq<Event<C>> {
    if es == [] then []
    else NotBy(es[..|es| - 1], c) + if es[|es| - 1].c == c then [] else [es[|es| - 1]]
  }

  lemma {:induction false} ProcessAllSeesDataOnly<C, D, R>(h: Handlers<D, R>, s: State<C, D>, t: State<C, D>,
                                                           cmds: seq<Command>, now: int)
    requires s.data == t.data
    ensures ProcessAll(h, s, cmds, now).0.data == ProcessAll(h, t, cmds, now).0.data
    ensures ProcessAll(h, s, cmds, now).1 == ProcessAll(h, t, cmds, now).1
    decreases cmds
  {
    if cmds != [] {
      MarkWatchedIsMarked(s, ExtractKeys(cmds[0].name, cmds[0].args));
      MarkWatchedIsMarked(t, ExtractKeys(cmds[0].name, cmds[0].args));
      ProcessAllSeesDataOnly(h, Process(h, s, cmds[0], now).0, Process(h, t, cmds[0], now).0, cmds[1..], now);
    }
  }

  lemma {:induction false} WatchAllSeesTableOnly<C, D>(s: State<C, D>, t: State<C, D>, x: C, keys: seq<bytes>)
    requires x in s.conns && x in t.conns && s.watchers == t.watchers
    ensures WatchAll(s, x, keys).watchers == WatchAll(t, x, keys).watchers
    decreases keys
  {
    if keys != [] {
      WatchAllSeesTableOnly(WatchOne(s, x, keys[0]), WatchOne(t, x, keys[0]), x, keys[1..]);
    }
  }

  lemma DataOfRequest<C, D, R>(h: Handlers<D, R>, s: State<C, D>, c: C, cmd: Command, now: int)
    requires c in s.conns
    ensures Handle(h, s, c, cmd, now).0.data == ProcessAll(h, s, Runs(s, c, cmd), now).0.data
  {
    if RunsCommands(s, c, cmd) {
      var k := s.conns[c];
      if k.inTx {
        ProcessAllSeesDataOnly(h, s, Update(s, c, k.(inTx := false, queue := [])), k.queue, now);
      } else {
        assert ProcessAll(h, Process(h, s, cmd, now).0, [cmd][1..], now).0 == Process(h, s, cmd, now).0;
      }
    } else if cmd.name.WATCH? {
      WatchAllDoes(s, c, cmd.args);
    }
  }

  /** Requests of others do the same whatever the state of `c`. */
  lemma OthersActAlike<C, D, R>(h: Handlers<D, R>, s: State<C, D>, t: State<C, D>, x: C, cmd: Command, now: int, c: C)
    requires SameButFor(s, t, c) && x in s.conns && x != c
    ensures SameButFor(Handle(h, s, x, cmd, now).0, Handle(h, t, x, cmd, now).0, c)
  {
    var s1, t1 := Handle(h, s, x, cmd, now).0, Handle(h, t, x, cmd, now).0;
    assert s1.data == t1.data by {
      DataOfRequest(h, s, x, cmd, now);
      DataOfRequest(h, t, x, cmd, now);
      ProcessAllSeesDataOnly(h, s, t, Runs(s, x, cmd), now);
    }
    TablesAlike(h, s, t, x, cmd, now, c);
    HandleKeepsConns(h, s, x, cmd, now);
    HandleKeepsConns(h, t, x, cmd, now);
    forall y | y in s1.conns && y != c ensures s1.conns[y] == t1.conns[y] {
      ConnsAlike(h, s, t, x, cmd, now, c, y);
    }
  }

  lemma ConnsAlike<C, D, R>(h: Handlers<D, R>, s: State<C, D>, t: State<C, D>, x: C, cmd: Command, now: int, c: C, y: C)
    requires SameButFor(s, t, c) && x in s.conns && x != c && y in s.conns && y != c
    ensures var s1, t1 := Handle(h, s, x, cmd, now).0, Handle(h, t, x, cmd, now).0;
            y in s1.conns && y in t1.conns && s1.conns[y] == t1.conns[y]
  {
    if y == x {
      HandleOwn(h, s, x, cmd, now);
      HandleOwn(h, t, x, cmd, now);
    } else {
      HandleOthers(h, s, x, cmd, now, y);
      HandleOthers(h, t, x, cmd, now, y);
    }
  }

  lemma RunsAlike<C, D, R>(h: Handlers<D, R>, s: State<C, D>, t: State<C, D>, x: C, cmd: Command, now: int, c: C)
    requires SameButFor(s, t, c) && x in s.conns && x != c && RunsCommands(s, x, cmd)
    ensures Handle(h, s, x, cmd, now).0.watchers == Handle(h, t, x, cmd, now).0.watchers
  {
    HandleRuns(h, s, x, cmd, now);
    HandleRuns(h, t, x, cmd, now);
  }

  lemma TablesAlike<C, D, R>(h: Handlers<D, R>, s: State<C, D>, t: State<C, D>, x: C, cmd: Command, now: int, c: C)
    requires SameButFor(s, t, c) && x in s.conns && x != c
    ensures Handle(h, s, x, cmd, now).0.watchers == Handle(h, t, x, cmd, now).0.watchers
  {
    if RunsCommands(s, x, cmd) {
      RunsAlike(h, s, t, x, cmd, now, c);
    } else if cmd.name.WATCH? {
      WatchAllSeesTableOnly(s, t, x, cmd.args);
    }
  }

  lemma OwnRequestsAreQuiet<C, D, R>(h: Handlers<D, R>, s: State<C, D>, c: C, cmd: Command, now: int)
    requires c in s.conns && s.conns[c].inTx && !cmd.name.EXEC? && !cmd.name.DISCARD?
    ensures SameButFor(Handle(h, s, c, cmd, now).0, s, c)
    ensures Ordinary(cmd) ==> Handle(h, s, c, cmd, now).1 == Queued
  {
  }

  lemma OthersStepAlike<C, D, R>(h: Handlers<D, R>, s: State<C, D>, t: State<C, D>, e: Event<C>, c: C)
    requires SameButFor(s, t, c) && e.c != c
    ensures SameButFor(Step(h, s, e), Step(h, t, e), c)
  {
    if e.Request? && Acts(s, e.c) {
      OthersActAlike(h, s, t, e.c, e.command, e.now, c);
    }
  }

  lemma OwnStepIsQuiet<C, D, R>(h: Handlers<D, R>, s: State<C, D>, t: State<C, D>, e: Event<C>, c: C)
    requires SameButFor(s, t, c) && s.conns[c].inTx && e.c == c && StaysInTx([e], c)
    ensures SameButFor(Step(h, s, e), t, c)
  {
    assert [e][0] == e;
    if e.Request? {
      OwnRequestsAreQuiet(h, s, c, e.command, e.now);
    }
  }

  /** Isolation.  Up to its EXEC or DISCARD a transaction leaves no trace: the data, the
      watch table and every other connection are as if `c` had sent nothing at all. */
  lemma {:induction false} TransactionLeavesNoTrace<C, D, R>(h: Handlers<D, R>, s: State<C, D>, es: seq<Event<C>>, c: C)
    requires Acts(s, c) && s.conns[c].inTx && StaysInTx(es, c)
    ensures SameButFor(Run(h, s, es), Run(h, s, NotBy(es, c)), c)
  {
    if es != [] {
      var init, e := es[..|es| - 1], es[|es| - 1];
      assert forall i | 0 <= i < |init| :: init[i] == es[i];
      TransactionLeavesNoTrace(h, s, init, c);
      QueueIsWhatWasSent(h, s, init, c);
      NotByRuns(h, s, init, e, c);
      assert es == init + [e];
      if e.c == c {
        OwnStepIsQuiet(h, Run(h, s, init), Run(h, s, NotBy(init, c)), e, c);
      } else {
        OthersStepAlike(h, Run(h, s, init), Run(h, s, NotBy(init, c)), e, c);
      }
    }
  }

  lemma NotByRuns<C, D, R>(h: Handlers<D, R>, s: State<C, D>, init: seq<Event<C>>, e: Event<C>, c: C)
    ensures Run(h, s, NotBy(init + [e], c))
            == if e.c == c then Run(h, s, NotBy(init, c)) else Step(h, Run(h, s, NotBy(init, c)), e)
  {
    assert (init + [e])[..|init|] == init;
    var kept := NotBy(init, c) + [e];
    assert kept[..|kept| - 1] == NotBy(init, c);
    assert NotBy(init, c) + [] == NotBy(init, c);
  }

  // ---------- What EXEC does to its own watches ----------

  /** A committed EXEC keeps its watches.  If it writes a key it watches itself, the
      connection is dirty afterwards and its next transaction aborts without cause. */
  lemma OwnWriteAbortsTheNext<C, D, R>(h: Handlers<D, R>, s: State<C, D>, c: C, k: bytes, now: int, later: int)
    requires Inv(s) && Commits(h, s, c, now)
    requires k in s.conns[c].watched && k in AllWritten(h, s.conns[c].queue)
    ensures var s1 := Handle(h, s, c, EXECUTE, now).0;
            && Acts(s1, c) && s1.conns[c].dirty && k in s1.conns[c].watched
            && var s2 := Handle(h, s1, c, BEGIN, later).0;
               Acts(s2, c) && Handle(h, s2, c, EXECUTE, later).1 == Aborted
  {
    HandleOwn(h, s, c, EXECUTE, now);
    assert Listed(s.watchers, k, c);
    var s1 := Handle(h, s, c, EXECUTE, now).0;
    HandleOwn(h, s1, c, BEGIN, later);
  }

  // ---------- The guarantee for the data ----------

  /** Strings past their deadline may be gone, nothing else has changed. */
  ghost predicate OnlyExpiredGone(d: Store.State, d': Store.State, now: int) {
    && d' == d.(strings := d'.strings)
    && (forall k | k in d'.strings :: k in d.strings && d'.strings[k] == d.strings[k])
    && (forall k | k in d.strings && k !in d'.strings :: Shard.IsExpired(d.strings[k], now))
  }

  /** The write commands do what module Store says; all others leave the data alone, but for
      items past their deadline, which GET and TTL remove. */
  ghost predicate Faithful<R>(h: Handlers<Store.State, R>, pf: Store.FloatParser) {
    forall d: Store.State, cmd: Command, now: int ::
      if IsWrite(cmd.name) then h.run(d, cmd, now).0 == Store.Live(pf, d, cmd, now).state
      else OnlyExpiredGone(d, h.run(d, cmd, now).0, now)
  }

  /** What a read of a string at time `now` can see. */
  function Seen(m: map<bytes, Lru.Item>, k: bytes, now: int): Option<Lru.Item> {
    if k in m && !Shard.IsExpired(m[k], now) then Some(m[k]) else None
  }

  /** The two states agree at `k` on all that is alive at time `now`. */
  predicate AgreeAlive(s: Store.State, t: Store.State, k: bytes, now: int) {
    && Seen(s.strings, k, now) == Seen(t.strings, k, now)
    && Conservation.SameAt(s.hashes, t.hashes, k) && Conservation.SameAt(s.lists, t.lists, k)
    && Conservation.SameAt(s.sets, t.sets, k) && Conservation.SameAt(s.zsets, t.zsets, k)
  }

  /** None is a DEL of several different keys, of which `extractKeys` reports the first. */
  predicate NamesAll(cmds: seq<Command>) {
    forall i | 0 <= i < |cmds| :: !Conservation.NamesTooFew(cmds[i])
  }

  lemma {:induction false} ProcessAllElsewhere<C, R>(h: Handlers<Store.State, R>, pf: Store.FloatParser,
                                                     s: State<C, Store.State>, cmds: seq<Command>, t: int,
                                                     k: bytes, now: int)
    requires Faithful(h, pf) && NamesAll(cmds) && k !in AllWritten(h, cmds) && t <= now
    ensures AgreeAlive(ProcessAll(h, s, cmds, t).0.data, s.data, k, now)
    decreases cmds
  {
    if cmds != [] {
      var s1 := Process(h, s, cmds[0], t).0;
      assert AgreeAlive(s1.data, s.data, k, now) by {
        ProcessElsewhere(h, pf, s, cmds[0], t, k, now);
      }
      ProcessAllElsewhere(h, pf, s1, cmds[1..], t, k, now);
    }
  }

  lemma ProcessElsewhere<C, R>(h: Handlers<Store.State, R>, pf: Store.FloatParser, s: State<C, Store.State>,
                               cmd: Command, t: int, k: bytes, now: int)
    requires Faithful(h, pf) && !Conservation.NamesTooFew(cmd) && k !in KeysWritten(h, cmd) && t <= now
    ensures AgreeAlive(Process(h, s, cmd, t).0.data, s.data, k, now)
  {
    MarkWatchedIsMarked(s, ExtractKeys(cmd.name, cmd.args));
    if IsWrite(cmd.name) && h.registered(cmd.name) {
      Conservation.ChangesOnlyNamed(pf, s.data, cmd, t, k);
    }
  }

  /** No event of the run runs a DEL of several keys. */
  ghost predicate NamesAllIn<C, D, R>(h: Handlers<D, R>, s: State<C, D>, es: seq<Event<C>>) {
    forall i | 0 <= i < |es| && es[i].Request? && Acts(At(h, s, es, i), es[i].c) ::
      NamesAll(Runs(At(h, s, es, i), es[i].c, es[i].command))
  }

  predicate NotAfter<C>(es: seq<Event<C>>, now: int) {
    forall i | 0 <= i < |es| && es[i].Request? :: es[i].now <= now
  }

  lemma {:induction false} RunElsewhere<C, R>(h: Handlers<Store.State, R>, pf: Store.FloatParser,
                                              s: State<C, Store.State>, es: seq<Event<C>>, n: nat, k: bytes, now: int)
    requires Faithful(h, pf) && NamesAllIn(h, s, es) && NotAfter(es, now) && n <= |es|
    requires forall i | 0 <= i < |es| :: !WritesAt(h, s, es, i, k)
    ensures AgreeAlive(At(h, s, es, n).data, s.data, k, now)
  {
    if n == 0 {
      assert es[..0] == [];
    } else {
      var t, e := At(h, s, es, n - 1), es[n - 1];
      RunElsewhere(h, pf, s, es, n - 1, k, now);
      AtStep(h, s, es, n - 1);
      assert !WritesAt(h, s, es, n - 1, k);
      StepElsewhere(h, pf, t, e, k, now);
    }
  }

  lemma StepElsewhere<C, R>(h: Handlers<Store.State, R>, pf: Store.FloatParser, s: State<C, Store.State>,
                            e: Event<C>, k: bytes, now: int)
    requires Faithful(h, pf) && k !in Written(h, s, e)
    requires e.Request? && Acts(s, e.c) ==> e.now <= now && NamesAll(Runs(s, e.c, e.command))
    ensures AgreeAlive(Step(h, s, e).data, s.data, k, now)
  {
    if e.Request? && Acts(s, e.c) {
      DataOfRequest(h, s, e.c, e.command, e.now);
      ProcessAllElsewhere(h, pf, s, Runs(s, e.c, e.command), e.now, k, now);
    }
  }

  /** What WATCH is for.  If `c` watches `k` throughout a run and EXEC then commits, every
      keyspace holds at `k` what it held when the run began, save a string that is past its
      deadline by then, whatever all connections did, provided nobody deleted several keys
      with one DEL. */
  lemma CommitMeansUnchanged<C, R>(h: Handlers<Store.State, R>, pf: Store.FloatParser, s: State<C, Store.State>,
                                   es: seq<Event<C>>, c: C, k: bytes, now: int)
    requires Faithful(h, pf) && Inv(s) && StaysWatched(h, s, es, c, k) && NamesAllIn(h, s, es)
    requires NotAfter(es, now) && Commits(h, Run(h, s, es), c, now)
    ensures AgreeAlive(Run(h, s, es).data, s.data, k, now)
  {
    CommitMeansUntouched(h, s, es, c, k, now);
    RunElsewhere(h, pf, s, es, |es|, k, now);
    assert es[..|es|] == es;
  }

  /** Why that proviso is needed: the later keys of a DEL vanish, and who watches them does
      not become dirty, so that EXEC commits on changed data. */
  lemma DelOfLaterKeysGoesUnseen<C, R>(h: Handlers<Store.State, R>, pf: Store.FloatParser, s: State<C, Store.State>,
                                       c: C, x: C, a: bytes, k: bytes, now: int)
    requires Faithful(h, pf) && h.registered(DEL) && a != k && x != c
    requires Acts(s, x) && !s.conns[x].inTx && Acts(s, c) && s.conns[c].inTx && k in s.conns[c].watched
    requires !s.conns[c].dirty && !Listed(s.watchers, a, c)
    ensures var t := Step(h, s, Request(x, Command(DEL, [a, k]), now));
            Acts(t, c) && k in t.conns[c].watched && Commits(h, t, c, now) && k !in t.data.strings
  {
    var cmd := Command(DEL, [a, k]);
    HandleOthers(h, s, x, cmd, now, c);
    OneWritten(h, cmd);
    DataOfRequest(h, s, x, cmd, now);
    MarkWatchedIsMarked(s, ExtractKeys(DEL, cmd.args));
    Conservation.RemoveAllElsewhere(s.data.strings, cmd.args, k);
  }

  // ---------- What makes an EXEC abort ----------

  lemma {:induction false} SomeCommandWrote<D, R>(h: Handlers<D, R>, cmds: seq<Command>, k: bytes) returns (cmd: Command)
    requires k in AllWritten(h, cmds)
    ensures cmd in cmds && k in KeysWritten(h, cmd)
  {
    if k in KeysWritten(h, cmds[0]) {
      cmd := cmds[0];
    } else {
      cmd := SomeCommandWrote(h, cmds[1..], k);
    }
  }

  /** The j-th event ran `cmd`, which names the key `k` that `c` had a WATCH outstanding for. */
  ghost predicate Hit<C, D, R>(h: Handlers<D, R>, data: D, es: seq<Event<C>>, j: nat, c: C, cmd: Command, k: bytes)
    requires j < |es|
  {
    var s := At(h, Start(data), es, j);
    && Armed(h, Start(data), es, j, c, k)
    && es[j].Request? && Acts(s, es[j].c) && cmd in Runs(s, es[j].c, es[j].command)
    && h.registered(cmd.name) && IsWrite(cmd.name) && k in ExtractKeys(cmd.name, cmd.args)
  }

  /** No false alarms, but for commands that have no effect: behind an EXEC that aborts there
      is a write command that names a key for which the connection had a WATCH outstanding,
      and unless that command is refused, or is a ZADD that stops at its first score, it is
      one that can change what is read under this key. */
  lemma AbortHasCause<C, D, R>(h: Handlers<D, R>, pf: Store.FloatParser, data: D, es: seq<Event<C>>, c: C, now: int)
    returns (j: nat, cmd: Command, k: bytes)
    requires var s := Run(h, Start(data), es); Acts(s, c) && Handle(h, s, c, EXECUTE, now).1 == Aborted
    ensures j < |es| && Hit(h, data, es, j, c, cmd, k)
    ensures StoreLaws.Effective(pf, cmd) ==> StoreLaws.CanChange(pf, cmd, k)
  {
    var s := Start<C, D>(data);
    AbortsExactly(h, data, es, c, now);
    j :| 0 <= j < |es| && HitAt(h, s, es, j, c) && NotReset(h, s, es, j, |es|, c);
    k :| WritesAt(h, s, es, j, k) && Armed(h, s, es, j, c, k);
    cmd := SomeCommandWrote(h, Runs(At(h, s, es, j), es[j].c, es[j].command), k);
    StoreLaws.ReportedExactly(pf, cmd, k);
  }

  /** The other way round: a transaction commits if no write command was run that could
      change a key for which the connection had a WATCH outstanding, and none without effect
      that named one. */
  lemma UntouchedCommits<C, D, R>(h: Handlers<D, R>, pf: Store.FloatParser, data: D, es: seq<Event<C>>, c: C, now: int)
    requires var s := Run(h, Start(data), es); Acts(s, c) && s.conns[c].inTx
    requires forall j, cmd, k | 0 <= j < |es| && Hit(h, data, es, j, c, cmd, k) ::
               StoreLaws.Effective(pf, cmd) && !StoreLaws.CanChange(pf, cmd, k)
    ensures Commits(h, Run(h, Start(data), es), c, now)
  {
    AbortsExactly(h, data, es, c, now);
    if Handle(h, Run(h, Start(data), es), c, EXECUTE, now).1 == Aborted {
      var j, cmd, k := AbortHasCause(h, pf, data, es, c, now);
    }
  }

  /** Why commands without effect are named: watchers are marked before the handler looks at
      the arguments, so that a refused command changes nothing and yet makes EXEC abort. */
  lemma RefusedWriteAborts<C, R>(h: Handlers<Store.State, R>, pf: Store.FloatParser, s: State<C, Store.State>,
                                 c: C, x: C, cmd: Command, k: bytes, now: int)
    requires Faithful(h, pf) && h.registered(cmd.name) && IsWrite(cmd.name) && StoreLaws.Refused(cmd)
    requires k in ExtractKeys(cmd.name, cmd.args) && Listed(s.watchers, k, c) && x != c
    requires Acts(s, x) && !s.conns[x].inTx && Acts(s, c) && s.conns[c].inTx
    ensures var t := Step(h, s, Request(x, cmd, now));
            t.data == s.data && Acts(t, c) && Handle(h, t, c, EXECUTE, now).1 == Aborted
  {
    StoreLaws.RefusedExactly(pf, s.data, cmd, now);
    HandleOthers(h, s, x, cmd, now, c);
    OneWritten(h, cmd);
    DataOfRequest(h, s, x, cmd, now);
    MarkWatchedIsMarked(s, ExtractKeys(cmd.name, cmd.args));
  }
}
