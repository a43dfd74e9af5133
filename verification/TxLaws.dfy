/** The commands of transactions one by one: the reply, and all that is different afterwards.
    From these, when a connection is in a transaction and which keys it watches, over whole
    runs. */
module TxLaws {
  import opened Bytes
  import opened Commands
  import opened Transactions
  import opened TxEffects
  import opened OptimisticLocking

  // ---------- One request ----------

  /** All that is different is the connection `c`. */
  function With<C(==), D>(s: State<C, D>, c: C, k: Conn): State<C, D> {
    State(s.conns[c := k], s.watchers, s.data)
  }

  lemma MultiDoes<C, D, R>(h: Handlers<D, R>, s: State<C, D>, c: C, args: seq<bytes>, now: int)
    requires c in s.conns
    ensures var k := s.conns[c];
            Handle(h, s, c, Command(MULTI, args), now)
            == if args != [] then (s, Refused(WrongArguments))
               else if k.inTx then (s, Ok)
               else (With(s, c, Conn(k.open, true, [], k.watched, k.dirty)), Ok)
  {
  }

  /** An EXEC that does not run the queue. */
  lemma ExecRefuses<C, D, R>(h: Handlers<D, R>, s: State<C, D>, c: C, args: seq<bytes>, now: int)
    requires c in s.conns && (s.conns[c].inTx ==> s.conns[c].dirty)
    ensures var k := s.conns[c];
            Handle(h, s, c, Command(EXEC, args), now)
            == if k.inTx then (With(s, c, Conn(k.open, false, [], {}, false)), Aborted)
               else (s, Refused(ExecWithoutMulti))
  {
  }

  /** An EXEC that does: it answers with the replies of the queued commands in order, and
      leaves the connection outside a transaction, with the keys it watched. */
  lemma ExecRuns<C, D, R>(h: Handlers<D, R>, s: State<C, D>, c: C, args: seq<bytes>, now: int)
    requires c in s.conns && s.conns[c].inTx && !s.conns[c].dirty
    ensures var k := s.conns[c];
            var (s1, r) := Handle(h, s, c, Command(EXEC, args), now);
            && r.Results? && |r.replies| == |k.queue|
            && c in s1.conns && s1.conns[c] == Conn(k.open, false, [], k.watched, s1.conns[c].dirty)
  {
    HandleOwn(h, s, c, Command(EXEC, args), now);
    ExecMarks(h, s, c, now);
    assert s.conns[c].watched + {} == s.conns[c].watched;
  }

  lemma DiscardDoes<C, D, R>(h: Handlers<D, R>, s: State<C, D>, c: C, args: seq<bytes>, now: int)
    requires c in s.conns
    ensures var k := s.conns[c];
            Handle(h, s, c, Command(DISCARD, args), now)
            == if k.inTx then (With(s, c, Conn(k.open, false, [], {}, false)), Ok)
               else (s, Refused(DiscardWithoutMulti))
  {
  }

  lemma WatchDoes<C, D, R>(h: Handlers<D, R>, s: State<C, D>, c: C, args: seq<bytes>, now: int)
    requires c in s.conns
    ensures var k := s.conns[c];
            var (s1, r) := Handle(h, s, c, Command(WATCH, args), now);
            if args == [] then s1 == s && r == Refused(WrongArguments)
            else if k.inTx then s1 == s && r == Ok
            else
              && r == Ok && s1.data == s.data
              && s1.conns == s.conns[c := Conn(k.open, false, k.queue, k.watched + (set a | a in args), k.dirty)]
              && forall key, x :: Listed(s1.watchers, key, x) <==> (x == c && key in args) || Listed(s.watchers, key, x)
  {
    if args != [] && !s.conns[c].inTx {
      WatchAllDoes(s, c, args);
      forall key, x
        ensures Listed(WatchAll(s, c, args).watchers, key, x) <==> (x == c && key in args) || Listed(s.watchers, key, x)
      {
        WatchAllLists(s, c, args, key, x);
      }
    }
  }

  lemma UnwatchDoes<C, D, R>(h: Handlers<D, R>, s: State<C, D>, c: C, args: seq<bytes>, now: int)
    requires c in s.conns
    ensures var k := s.conns[c];
            Handle(h, s, c, Command(UNWATCH, args), now) == (With(s, c, Conn(k.open, k.inTx, k.queue, {}, k.dirty)), Ok)
  {
  }

  lemma AuthDoes<C, D, R>(h: Handlers<D, R>, s: State<C, D>, c: C, args: seq<bytes>, now: int)
    requires c in s.conns
    ensures Handle(h, s, c, Command(AUTH, args), now) == (s, Refused(NoPassword))
  {
  }

  /** Any other command is queued in a transaction.  Outside of one an unknown command is
      refused, and another one is run, its reply sent and its data kept. */
  lemma OthersDo<C, D, R>(h: Handlers<D, R>, s: State<C, D>, c: C, cmd: Command, now: int)
    requires c in s.conns && cmd.name !in {MULTI, EXEC, DISCARD, WATCH, UNWATCH, AUTH}
    ensures var k := s.conns[c];
            var (s1, r) := Handle(h, s, c, cmd, now);
            if k.inTx then r == Queued && s1 == With(s, c, Conn(k.open, true, k.queue + [cmd], k.watched, k.dirty))
            else if !h.registered(cmd.name) then r == Refused(UnknownCommand) && s1 == s
            else r == Answer(h.run(s.data, cmd, now).1) && s1.data == h.run(s.data, cmd, now).0
  {
    if !s.conns[c].inTx {
      MarkWatchedIsMarked(s, ExtractKeys(cmd.name, cmd.args));
    }
  }

  // ---------- In a transaction, exactly ----------

  /** The i-th event is a MULTI of `c`. */
  ghost predicate BeginsAt<C, D, R>(h: Handlers<D, R>, s: State<C, D>, es: seq<Event<C>>, i: nat, c: C)
    requires i < |es|
  {
    Asks(At(h, s, es, i), es[i], c, MULTI) && es[i].command.args == []
  }

  /** It is an EXEC or a DISCARD of `c`. */
  ghost predicate EndsAt<C, D, R>(h: Handlers<D, R>, s: State<C, D>, es: seq<Event<C>>, i: nat, c: C)
    requires i < |es|
  {
    Asks(At(h, s, es, i), es[i], c, EXEC) || Asks(At(h, s, es, i), es[i], c, DISCARD)
  }

  ghost predicate Begun<C, D, R>(h: Handlers<D, R>, s: State<C, D>, es: seq<Event<C>>, n: nat, c: C)
    requires n <= |es|
  {
    exists i | 0 <= i < n :: BeginsAt(h, s, es, i, c) && NotEnded(h, s, es, i, n, c)
  }

  ghost predicate NotEnded<C, D, R>(h: Handlers<D, R>, s: State<C, D>, es: seq<Event<C>>, i: nat, n: nat, c: C)
    requires n <= |es|
  {
    forall j | i < j < n :: !EndsAt(h, s, es, j, c)
  }

  lemma NotEndedOneMore<C, D, R>(h: Handlers<D, R>, s: State<C, D>, es: seq<Event<C>>, i: nat, n: nat, c: C)
    requires i <= n < |es|
    ensures NotEnded(h, s, es, i, n + 1, c) <==> i == n || (NotEnded(h, s, es, i, n, c) && !EndsAt(h, s, es, n, c))
  {
  }

  lemma BegunOneMore<C, D, R>(h: Handlers<D, R>, s: State<C, D>, es: seq<Event<C>>, n: nat, c: C)
    requires n < |es|
    ensures Begun(h, s, es, n + 1, c)
            <==> BeginsAt(h, s, es, n, c) || (Begun(h, s, es, n, c) && !EndsAt(h, s, es, n, c))
  {
    if Begun(h, s, es, n + 1, c) {
      var i :| 0 <= i < n + 1 && BeginsAt(h, s, es, i, c) && NotEnded(h, s, es, i, n + 1, c);
      NotEndedOneMore(h, s, es, i, n, c);
    } else {
      NotEndedOneMore(h, s, es, n, n, c);
      if Begun(h, s, es, n, c) {
        var i :| 0 <= i < n && BeginsAt(h, s, es, i, c) && NotEnded(h, s, es, i, n, c);
        NotEndedOneMore(h, s, es, i, n, c);
      }
    }
  }

  lemma StepInTx<C, D, R>(h: Handlers<D, R>, s: State<C, D>, e: Event<C>, c: C)
    ensures var s1 := Step(h, s, e);
            (c in s1.conns && s1.conns[c].inTx)
            <==> (Asks(s, e, c, MULTI) && e.command.args == [])
                 || (c in s.conns && s.conns[c].inTx && !Asks(s, e, c, EXEC) && !Asks(s, e, c, DISCARD))
  {
    if c !in s.conns && c in Step(h, s, e).conns {
      StepArrivals(h, s, e, c);
    } else if e.Request? && Acts(s, e.c) && c in s.conns {
      if e.c == c {
        HandleOwn(h, s, c, e.command, e.now);
      } else {
        HandleOthers(h, s, e.c, e.command, e.now, c);
      }
    } else if c in s.conns {
      StepKeepsOpenness(h, s, e, c);
    }
  }

  /** In any run, a connection is in a transaction if and only if it has sent a MULTI without
      arguments, and neither EXEC nor DISCARD since. */
  lemma {:induction false} InTxExactly<C, D, R>(h: Handlers<D, R>, data: D, es: seq<Event<C>>, n: nat, c: C)
    requires n <= |es|
    ensures var t := At(h, Start(data), es, n);
            c in t.conns && t.conns[c].inTx <==> Begun(h, Start(data), es, n, c)
  {
    var s := Start<C, D>(data);
    if n == 0 {
      assert es[..0] == [];
    } else {
      InTxExactly(h, data, es, n - 1, c);
      AtStep(h, s, es, n - 1);
      StepInTx(h, At(h, s, es, n - 1), es[n - 1], c);
      BegunOneMore(h, s, es, n - 1, c);
    }
  }

  // ---------- Watched, exactly ----------

  /** `c` gives up its watched keys: by UNWATCH, by a DISCARD in a transaction, or by an EXEC
      that aborts. */
  ghost predicate ForgetsAt<C, D, R>(h: Handlers<D, R>, s: State<C, D>, es: seq<Event<C>>, i: nat, c: C)
    requires i < |es|
  {
    Forgets(At(h, s, es, i), es[i], c)
  }

  predicate Forgets<C(==), D>(s: State<C, D>, e: Event<C>, c: C) {
    Asks(s, e, c, UNWATCH) || ResetsIn(s, e, c)
  }

  ghost predicate NotForgotten<C, D, R>(h: Handlers<D, R>, s: State<C, D>, es: seq<Event<C>>, i: nat, n: nat, c: C)
    requires n <= |es|
  {
    forall j | i < j < n :: !ForgetsAt(h, s, es, j, c)
  }

  ghost predicate Remembered<C, D, R>(h: Handlers<D, R>, s: State<C, D>, es: seq<Event<C>>, n: nat, c: C, k: bytes)
    requires n <= |es|
  {
    exists i | 0 <= i < n :: WatchesAt(h, s, es, i, c, k) && NotForgotten(h, s, es, i, n, c)
  }

  lemma NotForgottenOneMore<C, D, R>(h: Handlers<D, R>, s: State<C, D>, es: seq<Event<C>>, i: nat, n: nat, c: C)
    requires i <= n < |es|
    ensures NotForgotten(h, s, es, i, n + 1, c)
            <==> i == n || (NotForgotten(h, s, es, i, n, c) && !ForgetsAt(h, s, es, n, c))
  {
  }

  lemma RememberedOneMore<C, D, R>(h: Handlers<D, R>, s: State<C, D>, es: seq<Event<C>>, n: nat, c: C, k: bytes)
    requires n < |es|
    ensures Remembered(h, s, es, n + 1, c, k)
            <==> WatchesAt(h, s, es, n, c, k) || (Remembered(h, s, es, n, c, k) && !ForgetsAt(h, s, es, n, c))
  {
    if Remembered(h, s, es, n + 1, c, k) {
      var i :| 0 <= i < n + 1 && WatchesAt(h, s, es, i, c, k) && NotForgotten(h, s, es, i, n + 1, c);
      NotForgottenOneMore(h, s, es, i, n, c);
    } else {
      NotForgottenOneMore(h, s, es, n, n, c);
      if Remembered(h, s, es, n, c, k) {
        var i :| 0 <= i < n && WatchesAt(h, s, es, i, c, k) && NotForgotten(h, s, es, i, n, c);
        NotForgottenOneMore(h, s, es, i, n, c);
      }
    }
  }

  lemma StepWatched<C, D, R>(h: Handlers<D, R>, s: State<C, D>, e: Event<C>, c: C, k: bytes)
    ensures var s1 := Step(h, s, e);
            (c in s1.conns && k in s1.conns[c].watched)
            <==> WatchesIn(s, e, c, k) || (c in s.conns && k in s.conns[c].watched && !Forgets(s, e, c))
  {
    if c !in s.conns && c in Step(h, s, e).conns {
      StepArrivals(h, s, e, c);
    } else if e.Request? && Acts(s, e.c) && c in s.conns {
      if e.c == c {
        HandleOwn(h, s, c, e.command, e.now);
      } else {
        HandleOthers(h, s, e.c, e.command, e.now, c);
      }
    } else if c in s.conns {
      StepKeepsOpenness(h, s, e, c);
    }
  }

  /** In any run, a connection watches a key if and only if it has sent a WATCH of it outside
      a transaction, and has not given up its watched keys since.  A committed EXEC does not
      give them up. */
  lemma {:induction false} WatchedExactly<C, D, R>(h: Handlers<D, R>, data: D, es: seq<Event<C>>, n: nat, c: C, k: bytes)
    requires n <= |es|
    ensures var t := At(h, Start(data), es, n);
            c in t.conns && k in t.conns[c].watched <==> Remembered(h, Start(data), es, n, c, k)
  {
    var s := Start<C, D>(data);
    if n == 0 {
      assert es[..0] == [];
    } else {
      WatchedExactly(h, data, es, n - 1, c, k);
      AtStep(h, s, es, n - 1);
      StepWatched(h, At(h, s, es, n - 1), es[n - 1], c, k);
      RememberedOneMore(h, s, es, n - 1, c, k);
    }
  }
}
