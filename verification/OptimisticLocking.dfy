/** Whole-run properties of WATCH, MULTI, EXEC and DISCARD, for any interleaving of any
    number of connections. */
module OptimisticLocking {
  import opened Bytes
  import opened Commands
  import opened Transactions
  import opened TxEffects

  // ---------- One step ----------

  predicate Acts<C(==), D>(s: State<C, D>, c: C) {
    c in s.conns && s.conns[c].open
  }

  /** The event is a request of the open connection `c` for a command of that name. */
  predicate Asks<C(==), D>(s: State<C, D>, e: Event<C>, c: C, name: Name) {
    e.Request? && e.c == c && Acts(s, c) && e.command.name == name
  }

  /** The event is a DISCARD by `c`, or an EXEC that aborts. */
  predicate ResetsIn<C(==), D>(s: State<C, D>, e: Event<C>, c: C) {
    (Asks(s, e, c, DISCARD) || (Asks(s, e, c, EXEC) && s.conns[c].dirty)) && s.conns[c].inTx
  }

  /** The event is a WATCH by `c` that takes effect on `k`. */
  predicate WatchesIn<C(==), D>(s: State<C, D>, e: Event<C>, c: C, k: bytes) {
    Asks(s, e, c, WATCH) && !s.conns[c].inTx && k in e.command.args
  }

  predicate LeavesIn<C(==), D>(s: State<C, D>, e: Event<C>, c: C, k: bytes) {
    e.Disconnect? && e.c == c && Acts(s, c) && k in s.conns[c].watched
  }

  lemma StepTable<C, D, R>(h: Handlers<D, R>, s: State<C, D>, e: Event<C>, c: C, k: bytes)
    ensures Listed(Step(h, s, e).watchers, k, c)
            <==> WatchesIn(s, e, c, k)
                 || (Listed(s.watchers, k, c) && k !in Written(h, s, e) && !LeavesIn(s, e, c, k))
  {
    if e.Request? && Acts(s, e.c) {
      HandleTable(h, s, e.c, e.command, e.now, k, c);
    }
  }

  lemma StepFlags<C, D, R>(h: Handlers<D, R>, s: State<C, D>, e: Event<C>, c: C)
    requires c in s.conns
    ensures var s1 := Step(h, s, e);
            && c in s1.conns
            && s1.conns[c].dirty ==
                 ((s.conns[c].dirty || WatchesAny(s.watchers, Written(h, s, e), c)) && !ResetsIn(s, e, c))
            && (ResetsIn(s, e, c) ==> s1.conns[c].watched == {})
            && (forall k | k in s1.conns[c].watched :: k in s.conns[c].watched || WatchesIn(s, e, c, k))
  {
    NobodyWatchesNothing(s.watchers, c);
    if e.Request? && Acts(s, e.c) {
      if e.c == c {
        HandleOwn(h, s, c, e.command, e.now);
      } else {
        HandleOthers(h, s, e.c, e.command, e.now, c);
      }
    }
  }

  /** New connections are fresh. */
  lemma StepArrivals<C, D, R>(h: Handlers<D, R>, s: State<C, D>, e: Event<C>, c: C)
    requires c !in s.conns && c in Step(h, s, e).conns
    ensures Step(h, s, e).conns[c] == FRESH
  {
    if e.Request? && Acts(s, e.c) {
      HandleOthers(h, s, e.c, e.command, e.now, c);
    }
  }

  // ---------- The invariant ----------

  predicate NoDup<T(==)>(ts: seq<T>) {
    forall i, j | 0 <= i < j < |ts| :: ts[i] != ts[j]
  }

  /** Lists are never empty and never hold a connection twice. */
  predicate GoodTable<C(==)>(w: map<bytes, seq<C>>) {
    forall k | k in w :: w[k] != [] && NoDup(w[k])
  }

  /** A watched key of an open connection leads to it, or it already is dirty. */
  predicate WatchedIsListed<C(==), D>(s: State<C, D>) {
    forall c, k | c in s.conns && s.conns[c].open && k in s.conns[c].watched ::
      Listed(s.watchers, k, c) || s.conns[c].dirty
  }

  predicate ListedIsKnown<C(==), D>(s: State<C, D>) {
    forall k | k in s.watchers :: forall c | c in s.watchers[k] :: c in s.conns
  }

  /** Only ordinary commands are queued, and only in a transaction. */
  predicate GoodQueues<C(==), D>(s: State<C, D>) {
    forall c | c in s.conns ::
      (s.conns[c].inTx || s.conns[c].queue == [])
      && forall i | 0 <= i < |s.conns[c].queue| :: Ordinary(s.conns[c].queue[i])
  }

  predicate Inv<C(==), D>(s: State<C, D>) {
    GoodTable(s.watchers) && WatchedIsListed(s) && ListedIsKnown(s) && GoodQueues(s)
  }

  lemma {:induction false} ExceptNoDup<C>(cs: seq<C>, c: C)
    requires NoDup(cs)
    ensures NoDup(Except(cs, c))
  {
    if cs != [] {
      var rest := Except(cs[1..], c);
      ExceptNoDup(cs[1..], c);
      forall i | 0 <= i < |rest| ensures rest[i] != cs[0] {
        assert rest[i] in rest;
        var j :| 0 <= j < |cs[1..]| && cs[1..][j] == rest[i];
        assert cs[j + 1] == rest[i];
      }
    }
  }

  lemma AddKeepsTable<C>(w: map<bytes, seq<C>>, key: bytes, c: C)
    requires GoodTable(w)
    ensures GoodTable(AddWatcher(w, key, c))
  {
    if key in w {
      ExceptNoDup(w[key], c);
    }
  }

  lemma {:induction false} WatchAllKeepsTable<C, D>(s: State<C, D>, c: C, keys: seq<bytes>)
    requires c in s.conns && GoodTable(s.watchers)
    ensures GoodTable(WatchAll(s, c, keys).watchers)
    decreases keys
  {
    if keys != [] {
      AddKeepsTable(s.watchers, keys[0], c);
      WatchAllKeepsTable(WatchOne(s, c, keys[0]), c, keys[1..]);
    }
  }

  lemma LeavingKeepsTable<C>(w: map<bytes, seq<C>>, keys: set<bytes>, c: C)
    requires GoodTable(w)
    ensures GoodTable(LeaveTable(w, keys, c))
  {
    forall k | k in w ensures NoDup(Except(w[k], c)) {
      ExceptNoDup(w[k], c);
    }
  }

  lemma StepKeepsTable<C, D, R>(h: Handlers<D, R>, s: State<C, D>, e: Event<C>)
    requires GoodTable(s.watchers)
    ensures GoodTable(Step(h, s, e).watchers)
  {
    if e.Request? && Acts(s, e.c) {
      if RunsCommands(s, e.c, e.command) {
        HandleRuns(h, s, e.c, e.command, e.now);
      } else if e.command.name.WATCH? {
        WatchAllKeepsTable(s, e.c, e.command.args);
      }
    } else if e.Disconnect? && Acts(s, e.c) {
      LeavingKeepsTable(s.watchers, s.conns[e.c].watched, e.c);
    }
  }

  lemma StepKeepsOpenness<C, D, R>(h: Handlers<D, R>, s: State<C, D>, e: Event<C>, c: C)
    requires c in s.conns
    ensures c in Step(h, s, e).conns
    ensures Step(h, s, e).conns[c].open == (s.conns[c].open && !(e.Disconnect? && e.c == c))
  {
    if e.Request? && Acts(s, e.c) {
      if e.c == c {
        HandleOwn(h, s, c, e.command, e.now);
      } else {
        HandleOthers(h, s, e.c, e.command, e.now, c);
      }
    }
  }

  lemma StepKeepsWatched<C, D, R>(h: Handlers<D, R>, s: State<C, D>, e: Event<C>, c: C, k: bytes)
    requires WatchedIsListed(s)
    requires var s1 := Step(h, s, e); c in s1.conns && s1.conns[c].open && k in s1.conns[c].watched
    ensures Listed(Step(h, s, e).watchers, k, c) || Step(h, s, e).conns[c].dirty
  {
    if c !in s.conns {
      StepArrivals(h, s, e, c);
    } else {
      StepKeepsOpenness(h, s, e, c);
      StepFlags(h, s, e, c);
      StepTable(h, s, e, c, k);
    }
  }

  lemma StepKeepsQueues<C, D, R>(h: Handlers<D, R>, s: State<C, D>, e: Event<C>, c: C)
    requires GoodQueues(s) && c in Step(h, s, e).conns
    ensures var k := Step(h, s, e).conns[c];
            (k.inTx || k.queue == []) && forall i | 0 <= i < |k.queue| :: Ordinary(k.queue[i])
  {
    if c !in s.conns {
      StepArrivals(h, s, e, c);
    } else if e.Request? && Acts(s, e.c) {
      if e.c == c {
        HandleOwn(h, s, c, e.command, e.now);
      } else {
        HandleOthers(h, s, e.c, e.command, e.now, c);
      }
    }
  }

  lemma StepKeepsInv<C, D, R>(h: Handlers<D, R>, s: State<C, D>, e: Event<C>)
    requires Inv(s)
    ensures Inv(Step(h, s, e))
  {
    var s1 := Step(h, s, e);
    StepKeepsTable(h, s, e);
    forall c, k | c in s1.conns && s1.conns[c].open && k in s1.conns[c].watched
      ensures Listed(s1.watchers, k, c) || s1.conns[c].dirty
    {
      StepKeepsWatched(h, s, e, c, k);
    }
    forall k, c | k in s1.watchers && c in s1.watchers[k] ensures c in s1.conns {
      StepTable(h, s, e, c, k);
      if c in s.conns {
        StepFlags(h, s, e, c);
      }
    }
    forall c | c in s1.conns
      ensures (s1.conns[c].inTx || s1.conns[c].queue == [])
              && forall i | 0 <= i < |s1.conns[c].queue| :: Ordinary(s1.conns[c].queue[i])
    {
      StepKeepsQueues(h, s, e, c);
    }
  }

  /** The watch table is sound in every state that any run reaches. */
  lemma {:induction false} EveryReachableStateIsGood<C, D, R>(h: Handlers<D, R>, data: D, es: seq<Event<C>>)
    ensures Inv(Run(h, Start(data), es))
  {
    if es != [] {
      EveryReachableStateIsGood(h, data, es[..|es| - 1]);
      StepKeepsInv(h, Run(h, Start(data), es[..|es| - 1]), es[|es| - 1]);
    }
  }

  /** A dirty flag is cleared only together with the watched keys, and only by an EXEC that
      aborts or a DISCARD of the connection itself. */
  lemma DirtyGoesWithWatched<C, D, R>(h: Handlers<D, R>, s: State<C, D>, e: Event<C>, c: C)
    requires c in s.conns && s.conns[c].dirty
    ensures var s1 := Step(h, s, e);
            && c in s1.conns
            && (!s1.conns[c].dirty <==> ResetsIn(s, e, c))
            && (!s1.conns[c].dirty ==> s1.conns[c].watched == {} && s1.conns[c].queue == [] && !s1.conns[c].inTx)
  {
    StepFlags(h, s, e, c);
    if ResetsIn(s, e, c) {
      HandleOwn(h, s, c, e.command, e.now);
    }
  }

  // ---------- Safety: what a committed EXEC may rely on ----------

  function At<C(==), D, R>(h: Handlers<D, R>, s: State<C, D>, es: seq<Event<C>>, i: nat): State<C, D>
    requires i <= |es|
  {
    Run(h, s, es[..i])
  }

  lemma AtStep<C, D, R>(h: Handlers<D, R>, s: State<C, D>, es: seq<Event<C>>, i: nat)
    requires i < |es|
    ensures At(h, s, es, i + 1) == Step(h, At(h, s, es, i), es[i])
  {
    assert es[..i + 1][..i] == es[..i];
  }

  lemma {:induction false} RunKeepsInv<C, D, R>(h: Handlers<D, R>, s: State<C, D>, es: seq<Event<C>>, i: nat)
    requires Inv(s) && i <= |es|
    ensures Inv(At(h, s, es, i))
  {
    if i > 0 {
      RunKeepsInv(h, s, es, i - 1);
      AtStep(h, s, es, i - 1);
      StepKeepsInv(h, At(h, s, es, i - 1), es[i - 1]);
    } else {
      assert es[..0] == [];
    }
  }

  /** Connection `c` is open and watches `k` in every state of the run. */
  ghost predicate StaysWatched<C, D, R>(h: Handlers<D, R>, s: State<C, D>, es: seq<Event<C>>, c: C, k: bytes) {
    forall i | 0 <= i <= |es| :: Acts(At(h, s, es, i), c) && k in At(h, s, es, i).conns[c].watched
  }

  ghost predicate WatchesAt<C, D, R>(h: Handlers<D, R>, s: State<C, D>, es: seq<Event<C>>, i: nat, c: C, k: bytes)
    requires i < |es|
  {
    WatchesIn(At(h, s, es, i), es[i], c, k)
  }

  ghost predicate LeavesAt<C, D, R>(h: Handlers<D, R>, s: State<C, D>, es: seq<Event<C>>, i: nat, c: C, k: bytes)
    requires i < |es|
  {
    LeavesIn(At(h, s, es, i), es[i], c, k)
  }

  ghost predicate ResetsAt<C, D, R>(h: Handlers<D, R>, s: State<C, D>, es: seq<Event<C>>, i: nat, c: C)
    requires i < |es|
  {
    ResetsIn(At(h, s, es, i), es[i], c)
  }

  ghost predicate WritesAt<C, D, R>(h: Handlers<D, R>, s: State<C, D>, es: seq<Event<C>>, i: nat, k: bytes)
    requires i < |es|
  {
    k in Written(h, At(h, s, es, i), es[i])
  }

  lemma WriteMakesDirty<C, D, R>(h: Handlers<D, R>, s: State<C, D>, e: Event<C>, c: C, k: bytes)
    requires WatchedIsListed(s) && Acts(s, c) && k in s.conns[c].watched
    requires c in Step(h, s, e).conns && k in Step(h, s, e).conns[c].watched
    requires s.conns[c].dirty || k in Written(h, s, e)
    ensures c in Step(h, s, e).conns && Step(h, s, e).conns[c].dirty
  {
    StepFlags(h, s, e, c);
    if !s.conns[c].dirty {
      assert Listed(s.watchers, k, c);
    }
  }

  lemma NoticedAtOnce<C, D, R>(h: Handlers<D, R>, s: State<C, D>, es: seq<Event<C>>, c: C, k: bytes, m: nat)
    requires Inv(s) && StaysWatched(h, s, es, c, k) && m < |es|
    requires At(h, s, es, m).conns[c].dirty || WritesAt(h, s, es, m, k)
    ensures At(h, s, es, m + 1).conns[c].dirty
  {
    RunKeepsInv(h, s, es, m);
    AtStep(h, s, es, m);
    WriteMakesDirty(h, At(h, s, es, m), es[m], c, k);
  }

  /** Once written while watched, dirty for as long as it is watched. */
  lemma {:induction false} WrittenIsNoticed<C, D, R>(h: Handlers<D, R>, s: State<C, D>, es: seq<Event<C>>,
                                                     c: C, k: bytes, i: nat, n: nat)
    requires Inv(s) && StaysWatched(h, s, es, c, k)
    requires i < n <= |es| && WritesAt(h, s, es, i, k)
    ensures At(h, s, es, n).conns[c].dirty
    decreases n
  {
    if i < n - 1 {
      WrittenIsNoticed(h, s, es, c, k, i, n - 1);
    }
    NoticedAtOnce(h, s, es, c, k, n - 1);
  }

  const EXECUTE := Command(EXEC, [])

  predicate Commits<C(==), D, R>(h: Handlers<D, R>, s: State<C, D>, c: C, now: int) {
    Acts(s, c) && Handle(h, s, c, EXECUTE, now).1.Results?
  }

  /** Optimistic locking over whole runs.  Let `c` watch `k` throughout any run, whatever it
      and all other connections do.  If an EXEC then runs its queue, no write command that
      names `k` has run in between, neither on its own nor inside anybody's EXEC. */
  lemma CommitMeansUntouched<C, D, R>(h: Handlers<D, R>, s: State<C, D>, es: seq<Event<C>>, c: C, k: bytes, now: int)
    requires Inv(s) && StaysWatched(h, s, es, c, k)
    requires Commits(h, Run(h, s, es), c, now)
    ensures forall i | 0 <= i < |es| :: !WritesAt(h, s, es, i, k)
  {
    assert es[..|es|] == es;
    forall i | 0 <= i < |es| ensures !WritesAt(h, s, es, i, k) {
      if WritesAt(h, s, es, i, k) {
        WrittenIsNoticed(h, s, es, c, k, i, |es|);
      }
    }
  }

  // ---------- The exact condition for a dirty flag ----------

  /** Between `i` and `n` nobody wrote `k`, and `c` did not leave while watching it. */
  ghost predicate Undisturbed<C, D, R>(h: Handlers<D, R>, s: State<C, D>, es: seq<Event<C>>, i: nat, n: nat,
                                           c: C, k: bytes)
    requires n <= |es|
  {
    forall j | i < j < n :: !WritesAt(h, s, es, j, k) && !LeavesAt(h, s, es, j, c, k)
  }

  /** Some WATCH of `k` by `c` before `n` is still undisturbed. */
  ghost predicate Armed<C, D, R>(h: Handlers<D, R>, s: State<C, D>, es: seq<Event<C>>, n: nat, c: C, k: bytes)
    requires n <= |es|
  {
    exists i | 0 <= i < n :: WatchesAt(h, s, es, i, c, k) && Undisturbed(h, s, es, i, n, c, k)
  }

  /** The table holds exactly the WATCHes that no write has used up.  Neither EXEC nor
      DISCARD nor UNWATCH takes anything out of it. */
  lemma {:induction false} TableIsArmed<C, D, R>(h: Handlers<D, R>, data: D, es: seq<Event<C>>, n: nat, c: C, k: bytes)
    requires n <= |es|
    ensures Listed(At(h, Start(data), es, n).watchers, k, c) <==> Armed(h, Start(data), es, n, c, k)
  {
    var s := Start(data);
    if n == 0 {
      assert es[..0] == [];
    } else {
      TableIsArmed(h, data, es, n - 1, c, k);
      AtStep(h, s, es, n - 1);
      StepTable(h, At(h, s, es, n - 1), es[n - 1], c, k);
      ArmedOneMore(h, s, es, n - 1, c, k);
    }
  }

  lemma UndisturbedOneMore<C, D, R>(h: Handlers<D, R>, s: State<C, D>, es: seq<Event<C>>, i: nat, n: nat, c: C, k: bytes)
    requires i <= n < |es|
    ensures Undisturbed(h, s, es, i, n + 1, c, k)
            <==> i == n || (Undisturbed(h, s, es, i, n, c, k) && !WritesAt(h, s, es, n, k)
                            && !LeavesAt(h, s, es, n, c, k))
  {
  }

  lemma ArmedOneMore<C, D, R>(h: Handlers<D, R>, s: State<C, D>, es: seq<Event<C>>, n: nat, c: C, k: bytes)
    requires n < |es|
    ensures Armed(h, s, es, n + 1, c, k)
            <==> WatchesAt(h, s, es, n, c, k)
                 || (Armed(h, s, es, n, c, k) && !WritesAt(h, s, es, n, k)
                     && !LeavesAt(h, s, es, n, c, k))
  {
    if Armed(h, s, es, n + 1, c, k) {
      var i :| 0 <= i < n + 1 && WatchesAt(h, s, es, i, c, k) && Undisturbed(h, s, es, i, n + 1, c, k);
      UndisturbedOneMore(h, s, es, i, n, c, k);
    } else {
      UndisturbedOneMore(h, s, es, n, n, c, k);
      if Armed(h, s, es, n, c, k) {
        var i :| 0 <= i < n && WatchesAt(h, s, es, i, c, k) && Undisturbed(h, s, es, i, n, c, k);
        UndisturbedOneMore(h, s, es, i, n, c, k);
      }
    }
  }

  /** At `j` a key was written for which a WATCH of `c` was armed. */
  ghost predicate HitAt<C, D, R>(h: Handlers<D, R>, s: State<C, D>, es: seq<Event<C>>, j: nat, c: C)
    requires j < |es|
  {
    exists k :: WritesAt(h, s, es, j, k) && Armed(h, s, es, j, c, k)
  }

  /** Between `j` and `n`, `c` had neither an aborted EXEC nor a DISCARD. */
  ghost predicate NotReset<C, D, R>(h: Handlers<D, R>, s: State<C, D>, es: seq<Event<C>>, j: nat, n: nat, c: C)
    requires n <= |es|
  {
    forall m | j < m < n :: !ResetsAt(h, s, es, m, c)
  }

  ghost predicate HitBefore<C, D, R>(h: Handlers<D, R>, s: State<C, D>, es: seq<Event<C>>, n: nat, c: C)
    requires n <= |es|
  {
    exists j | 0 <= j < n :: HitAt(h, s, es, j, c) && NotReset(h, s, es, j, n, c)
  }

  lemma DirtyOneMore<C, D, R>(h: Handlers<D, R>, data: D, es: seq<Event<C>>, m: nat, c: C)
    requires m < |es| && c in At(h, Start(data), es, m).conns
    ensures var s := Start(data);
            && c in At(h, s, es, m + 1).conns
            && (At(h, s, es, m + 1).conns[c].dirty
                <==> HitAt(h, s, es, m, c)
                     || (At(h, s, es, m).conns[c].dirty && !ResetsAt(h, s, es, m, c)))
  {
    var s := Start<C, D>(data);
    AtStep(h, s, es, m);
    HitNowIsListed(h, data, es, m, c);
    StepFlags(h, At(h, s, es, m), es[m], c);
    NoResetWhileWriting(h, At(h, s, es, m), es[m], c);
  }

  lemma HitIsKnown<C, D, R>(h: Handlers<D, R>, data: D, es: seq<Event<C>>, m: nat, c: C)
    requires m < |es|
    ensures HitAt(h, Start(data), es, m, c) ==> c in At(h, Start(data), es, m).conns
  {
    HitNowIsListed(h, data, es, m, c);
    EveryReachableStateIsGood(h, data, es[..m]);
  }

  lemma HitNowIsListed<C, D, R>(h: Handlers<D, R>, data: D, es: seq<Event<C>>, m: nat, c: C)
    requires m < |es|
    ensures var t := At(h, Start(data), es, m);
            HitAt(h, Start(data), es, m, c) <==> WatchesAny(t.watchers, Written(h, t, es[m]), c)
  {
    var s := Start<C, D>(data);
    forall k | WritesAt(h, s, es, m, k)
      ensures Listed(At(h, s, es, m).watchers, k, c) <==> Armed(h, s, es, m, c, k)
    {
      TableIsArmed(h, data, es, m, c, k);
    }
  }

  lemma NotResetOneMore<C, D, R>(h: Handlers<D, R>, s: State<C, D>, es: seq<Event<C>>, j: nat, m: nat, c: C)
    requires j <= m < |es|
    ensures NotReset(h, s, es, j, m + 1, c)
            <==> j == m || (NotReset(h, s, es, j, m, c) && !ResetsAt(h, s, es, m, c))
  {
  }

  lemma NoResetWhileWriting<C, D, R>(h: Handlers<D, R>, s: State<C, D>, e: Event<C>, c: C)
    ensures WatchesAny(s.watchers, Written(h, s, e), c) ==> !ResetsIn(s, e, c)
  {
  }

  /** Who is dirty has been hit. */
  lemma {:induction false} CauseOfDirty<C, D, R>(h: Handlers<D, R>, data: D, es: seq<Event<C>>, n: nat, c: C)
    returns (j: nat)
    requires n <= |es|
    requires c in At(h, Start(data), es, n).conns && At(h, Start(data), es, n).conns[c].dirty
    ensures j < n && HitAt(h, Start(data), es, j, c) && NotReset(h, Start(data), es, j, n, c)
  {
    var s := Start<C, D>(data);
    assert n > 0;
    if c in At(h, s, es, n - 1).conns {
      DirtyOneMore(h, data, es, n - 1, c);
    } else {
      AtStep(h, s, es, n - 1);
      StepArrivals(h, At(h, s, es, n - 1), es[n - 1], c);
    }
    if HitAt(h, s, es, n - 1, c) {
      j := n - 1;
    } else {
      j := CauseOfDirty(h, data, es, n - 1, c);
    }
    NotResetOneMore(h, s, es, j, n - 1, c);
  }

  lemma DirtyAfter<C, D, R>(h: Handlers<D, R>, data: D, es: seq<Event<C>>, m: nat, c: C)
    requires m < |es| && c in At(h, Start(data), es, m).conns
    requires HitAt(h, Start(data), es, m, c)
             || (At(h, Start(data), es, m).conns[c].dirty && !ResetsAt(h, Start(data), es, m, c))
    ensures c in At(h, Start(data), es, m + 1).conns && At(h, Start(data), es, m + 1).conns[c].dirty
  {
    DirtyOneMore(h, data, es, m, c);
  }

  /** Who has been hit stays dirty until it is reset. */
  lemma {:induction false} HitMeansDirty<C, D, R>(h: Handlers<D, R>, data: D, es: seq<Event<C>>, j: nat, n: nat, c: C)
    requires j < n <= |es| && HitAt(h, Start(data), es, j, c) && NotReset(h, Start(data), es, j, n, c)
    ensures c in At(h, Start(data), es, n).conns && At(h, Start(data), es, n).conns[c].dirty
    decreases n
  {
    var m := n - 1;
    if j < m {
      NotResetOneMore(h, Start(data), es, j, m, c);
      HitMeansDirty(h, data, es, j, m, c);
    } else {
      HitIsKnown(h, data, es, j, c);
    }
    DirtyAfter(h, data, es, m, c);
  }

  /** When a connection is dirty, exactly: a key it had watched was written later, and it
      has had neither an aborted EXEC nor a DISCARD since. */
  lemma DirtyExactly<C, D, R>(h: Handlers<D, R>, data: D, es: seq<Event<C>>, n: nat, c: C)
    requires n <= |es| && c in At(h, Start(data), es, n).conns
    ensures At(h, Start(data), es, n).conns[c].dirty <==> HitBefore(h, Start(data), es, n, c)
  {
    var s := Start<C, D>(data);
    if At(h, s, es, n).conns[c].dirty {
      var j := CauseOfDirty(h, data, es, n, c);
      assert HitBefore(h, s, es, n, c);
    } else if HitBefore(h, s, es, n, c) {
      var j :| 0 <= j < n && HitAt(h, s, es, j, c) && NotReset(h, s, es, j, n, c);
      HitMeansDirty(h, data, es, j, n, c);
    }
  }

  /** Which transactions abort, exactly, over whole runs from the start of the server. */
  lemma AbortsExactly<C, D, R>(h: Handlers<D, R>, data: D, es: seq<Event<C>>, c: C, now: int)
    requires var s := Run(h, Start(data), es); Acts(s, c) && s.conns[c].inTx
    ensures var s := Run(h, Start(data), es);
            && (Handle(h, s, c, EXECUTE, now).1 == Aborted <==> HitBefore(h, Start(data), es, |es|, c))
            && (Commits(h, s, c, now) <==> !HitBefore(h, Start(data), es, |es|, c))
  {
    assert es[..|es|] == es;
    DirtyExactly(h, data, es, |es|, c);
  }
}
