/** The same transactions in the form of the program: connections and a server as objects
    whose methods update their fields.  Every method is tied to what module `Transactions`
    computes; the connection objects themselves are the identities in its states. */
module TxServer {
  import opened Bytes
  import opened Commands
  import opened Transactions
  import opened TxEffects
  import TxRuns
  import Resp

  function Parsed(vs: seq<Resp.Value>): (cmds: seq<Command>)
    requires forall i | 0 <= i < |vs| :: IsCommand(vs[i])
    ensures |cmds| == |vs| && forall i | 0 <= i < |vs| :: cmds[i] == ParseCommand(vs[i])
  {
    if vs == [] then [] else [ParseCommand(vs[0])] + Parsed(vs[1..])
  }

  class Connection {
    var inTransaction: bool
    var queuedCommands: seq<Resp.Value>
    var watchedKeys: set<bytes>
    var dirty: bool
    var closed: bool

    /** The abstract value of the fields above. */
    ghost var value: Conn

    ghost predicate Valid()
      reads this
    {
      && (forall i | 0 <= i < |queuedCommands| :: IsCommand(queuedCommands[i]))
      && value == Conn(!closed, inTransaction, Parsed(queuedCommands), watchedKeys, dirty)
    }

    constructor ()
      ensures Valid() && value == FRESH
    {
      inTransaction, queuedCommands, watchedKeys, dirty, closed := false, [], {}, false, false;
      value := FRESH;
    }

    method ResetTransaction()
      requires Valid()
      modifies this
      ensures Valid() && value == Reset(old(value))
    {
      inTransaction, queuedCommands, watchedKeys, dirty := false, [], {}, false;
      value := Reset(value);
    }

    method WatchKey(key: bytes)
      requires Valid()
      modifies this
      ensures Valid() && value == old(value).(watched := old(value).watched + {key})
    {
      watchedKeys := watchedKeys + {key};
      value := value.(watched := value.watched + {key});
    }

    method MarkDirty()
      requires Valid()
      modifies this
      ensures Valid() && value == old(value).(dirty := true)
    {
      dirty := true;
      value := value.(dirty := true);
    }

    method Begin()
      requires Valid()
      modifies this
      ensures Valid() && value == old(value).(inTx := true, queue := [])
    {
      inTransaction, queuedCommands := true, [];
      value := value.(inTx := true, queue := []);
    }

    method Enqueue(v: Resp.Value)
      requires Valid() && IsCommand(v)
      modifies this
      ensures Valid() && value == old(value).(queue := old(value).queue + [ParseCommand(v)])
    {
      queuedCommands := queuedCommands + [v];
      value := value.(queue := value.queue + [ParseCommand(v)]);
      assert Parsed(queuedCommands) == value.queue;
    }

    /** EXEC takes the queue and ends the transaction. */
    method TakeQueue() returns (commands: seq<Resp.Value>)
      requires Valid()
      modifies this
      ensures forall i | 0 <= i < |commands| :: IsCommand(commands[i])
      ensures Parsed(commands) == old(value).queue
      ensures Valid() && value == old(value).(inTx := false, queue := [])
    {
      commands := queuedCommands;
      inTransaction, queuedCommands := false, [];
      value := value.(inTx := false, queue := []);
    }

    method Unwatch()
      requires Valid()
      modifies this
      ensures Valid() && value == old(value).(watched := {})
    {
      watchedKeys := {};
      value := value.(watched := {});
    }

    method Close()
      requires Valid()
      modifies this
      ensures Valid() && value == old(value).(open := false)
    {
      closed := true;
      value := value.(open := false);
    }
  }

  class Server<D, R> {
    const handlers: Handlers<D, R>
    var watchers: map<bytes, seq<Connection>>
    var data: D
    /** Every connection there has been, and the value of each. */
    ghost var conns: set<Connection>
    ghost var known: map<Connection, Conn>

    ghost predicate Valid()
      reads this, conns
    {
      && known.Keys == conns
      && (forall c | c in conns :: c.Valid() && known[c] == c.value)
      && (forall k | k in watchers :: forall c | c in watchers[k] :: c in conns)
    }

    ghost function Now(): State<Connection, D>
      reads this
    {
      State(known, watchers, data)
    }

    constructor (handlers: Handlers<D, R>, data: D)
      ensures Valid() && this.handlers == handlers && Now() == Start(data)
    {
      this.handlers := handlers;
      watchers := map[];
      this.data := data;
      conns, known := {}, map[];
    }

    method Accept() returns (c: Connection)
      requires Valid()
      modifies this
      ensures Valid() && fresh(c) && conns == old(conns) + {c}
      ensures Now() == Step(handlers, old(Now()), Connect(c))
    {
      c := new Connection();
      conns, known := conns + {c}, known[c := FRESH];
    }

    // ---------- The watcher table ----------

    method RemoveWatcher(key: bytes, c: Connection)
      requires Valid()
      modifies this`watchers
      ensures Valid() && watchers == Transactions.RemoveWatcher(old(watchers), key, c)
    {
      if key in watchers {
        var list := watchers[key];
        var left: seq<Connection> := [];
        var i := 0;
        while i < |list|
          invariant 0 <= i <= |list|
          invariant Except(list, c) == left + Except(list[i..], c)
        {
          if list[i] != c {
            left := left + [list[i]];
          }
          i := i + 1;
        }
        assert left + [] == left;
        if |left| == 0 {
          watchers := watchers - {key};
        } else {
          watchers := watchers[key := left];
        }
      }
    }

    method AddWatcher(key: bytes, c: Connection)
      requires Valid() && c in conns
      modifies this`watchers
      ensures Valid() && watchers == Transactions.AddWatcher(old(watchers), key, c)
    {
      RemoveWatcher(key, c);
      watchers := watchers[key := (if key in watchers then watchers[key] else []) + [c]];
    }

    /** The inner loop of `markWatchedKeysDirty`. */
    method MarkDirty(list: seq<Connection>)
      requires Valid() && forall c | c in list :: c in conns
      modifies this`known, conns
      ensures Valid() && known == Dirty(old(known), list)
    {
      assert Dirty(known, []) == known;
      var i := 0;
      while i < |list|
        invariant 0 <= i <= |list| && Valid()
        invariant known == Dirty(old(known), list[..i])
      {
        MarkOne(list[i]);
        DirtyOneMore(old(known), list, i);
        i := i + 1;
      }
      assert list[..i] == list;
    }

    method MarkOne(c: Connection)
      requires Valid() && c in conns
      modifies this`known, c
      ensures Valid() && known == old(known)[c := old(known)[c].(dirty := true)]
    {
      c.MarkDirty();
      known := known[c := c.value];
    }

    lemma DirtyOneMore(m: map<Connection, Conn>, list: seq<Connection>, i: nat)
      requires i < |list| && list[i] in m
      ensures Dirty(m, list[..i + 1]) == Dirty(m, list[..i])[list[i] := Dirty(m, list[..i])[list[i]].(dirty := true)]
    {
      assert list[..i + 1] == list[..i] + [list[i]];
    }

    /** One turn of the outer loop. */
    method MarkKey(key: bytes)
      requires Valid()
      modifies this`watchers, this`known, conns
      ensures Valid() && data == old(data)
      ensures Now() == MarkWatched(old(Now()), [key])
    {
      assert [key][1..] == [];
      if key in watchers {
        MarkDirty(watchers[key]);
        watchers := watchers - {key};
      }
    }

    method MarkWatchedKeysDirty(keys: seq<bytes>)
      requires Valid()
      modifies this`watchers, this`known, conns
      ensures Valid() && Now() == MarkWatched(old(Now()), keys)
    {
      var i := 0;
      while i < |keys|
        invariant 0 <= i <= |keys| && Valid()
        invariant MarkWatched(Now(), keys[i..]) == MarkWatched(old(Now()), keys)
      {
        MarkOneOfMany(Now(), keys, i);
        MarkKey(keys[i]);
        i := i + 1;
      }
    }

    lemma MarkOneOfMany(s: State<Connection, D>, keys: seq<bytes>, i: nat)
      requires i < |keys|
      ensures MarkWatched(s, keys[i..]) == MarkWatched(MarkWatched(s, [keys[i]]), keys[i + 1..])
    {
      assert keys[i..][1..] == keys[i + 1..] && [keys[i]][1..] == [];
    }

    // ---------- Commands ----------

    /** `processCommand`. */
    method ProcessCommand(value: Resp.Value, now: int) returns (r: Reply<R>)
      requires Valid()
      modifies this`watchers, this`data, this`known, conns
      ensures Valid()
      ensures IsCommand(value) ==> (Now(), r) == Process(handlers, old(Now()), ParseCommand(value), now)
      ensures !IsCommand(value) ==> (Now(), r) == (old(Now()), Refused(InvalidCommand))
    {
      if !IsCommand(value) {
        return Refused(InvalidCommand);
      }
      var cmd := ParseCommand(value);
      r := RunCommand(cmd, now);
    }

    method RunCommand(cmd: Command, now: int) returns (r: Reply<R>)
      requires Valid()
      modifies this`watchers, this`data, this`known, conns
      ensures Valid() && (Now(), r) == Process(handlers, old(Now()), cmd, now)
    {
      if !handlers.registered(cmd.name) {
        return Refused(UnknownCommand);
      }
      if IsWrite(cmd.name) {
        MarkWatchedKeysDirty(ExtractKeys(cmd.name, cmd.args));
      }
      var outcome := handlers.run(data, cmd, now);
      data := outcome.0;
      return Answer(outcome.1);
    }

    method HandleMulti(c: Connection, args: seq<bytes>) returns (r: Reply<R>)
      requires Valid() && c in conns
      modifies this`known, c
      ensures Valid() && (Now(), r) == Multi(old(Now()), c, args)
    {
      if |args| > 0 {
        return Refused(WrongArguments);
      }
      if !c.inTransaction {
        c.Begin();
        known := known[c := c.value];
      }
      return Ok;
    }

    method HandleExec(c: Connection, now: int) returns (r: Reply<R>)
      requires Valid() && c in conns
      modifies this`watchers, this`data, this`known, conns
      ensures Valid() && (Now(), r) == Exec(handlers, old(Now()), c, now)
    {
      if !c.inTransaction {
        return Refused(ExecWithoutMulti);
      }
      if c.dirty {
        c.ResetTransaction();
        known := known[c := c.value];
        return Aborted;
      }
      r := RunQueue(c, now);
    }

    /** EXEC of a transaction that is not dirty. */
    method RunQueue(c: Connection, now: int) returns (r: Reply<R>)
      requires Valid() && c in conns && c.inTransaction && !c.dirty
      modifies this`watchers, this`data, this`known, conns
      ensures Valid() && (Now(), r) == Exec(handlers, old(Now()), c, now)
    {
      var commands := c.TakeQueue();
      known := known[c := c.value];
      var results := ProcessQueue(commands, now);
      return Results(results);
    }

    /** The loop of EXEC: one result for each command, errors included. */
    method ProcessQueue(commands: seq<Resp.Value>, now: int) returns (results: seq<Reply<R>>)
      requires Valid() && forall i | 0 <= i < |commands| :: IsCommand(commands[i])
      modifies this`watchers, this`data, this`known, conns
      ensures Valid() && (Now(), results) == ProcessAll(handlers, old(Now()), Parsed(commands), now)
    {
      results := [];
      ghost var all := ProcessAll(handlers, Now(), Parsed(commands), now);
      assert commands[0..] == commands && [] + all.1 == all.1;
      var i := 0;
      while i < |commands|
        invariant 0 <= i <= |commands| && Valid()
        invariant all.0 == ProcessAll(handlers, Now(), Parsed(commands[i..]), now).0
        invariant all.1 == results + ProcessAll(handlers, Now(), Parsed(commands[i..]), now).1
      {
        ghost var left := Parsed(commands[i..]);
        assert left[1..] == Parsed(commands[i + 1..]);
        QueueStep(Now(), left, results, now);
        var result := ProcessCommand(commands[i], now);
        results := results + [result];
        i := i + 1;
      }
      assert results + [] == results;
    }

    lemma QueueStep(s: State<Connection, D>, left: seq<Command>, results: seq<Reply<R>>, now: int)
      requires left != []
      ensures var (s1, r) := Process(handlers, s, left[0], now);
              && ProcessAll(handlers, s, left, now).0 == ProcessAll(handlers, s1, left[1..], now).0
              && results + ProcessAll(handlers, s, left, now).1
                 == results + [r] + ProcessAll(handlers, s1, left[1..], now).1
    {
      var (s1, r) := Process(handlers, s, left[0], now);
      var rest := ProcessAll(handlers, s1, left[1..], now).1;
      assert results + ([r] + rest) == results + [r] + rest;
    }

    method HandleDiscard(c: Connection) returns (r: Reply<R>)
      requires Valid() && c in conns
      modifies this`known, c
      ensures Valid() && (Now(), r) == Discard(old(Now()), c)
    {
      if !c.inTransaction {
        return Refused(DiscardWithoutMulti);
      }
      c.ResetTransaction();
      known := known[c := c.value];
      return Ok;
    }

    method HandleWatch(c: Connection, args: seq<bytes>) returns (r: Reply<R>)
      requires Valid() && c in conns
      modifies this`watchers, this`known, c
      ensures Valid() && (Now(), r) == Watch(old(Now()), c, args)
    {
      if |args| < 1 {
        return Refused(WrongArguments);
      }
      if c.inTransaction {
        return Ok;
      }
      var i := 0;
      while i < |args|
        invariant 0 <= i <= |args| && Valid()
        invariant WatchAll(Now(), c, args[i..]) == WatchAll(old(Now()), c, args)
      {
        WatchKey(c, args[i]);
        i := i + 1;
      }
      return Ok;
    }

    /** One turn of the loop of WATCH. */
    method WatchKey(c: Connection, key: bytes)
      requires Valid() && c in conns
      modifies this`watchers, this`known, c
      ensures Valid() && Now() == WatchOne(old(Now()), c, key)
    {
      c.WatchKey(key);
      known := known[c := c.value];
      AddWatcher(key, c);
    }

    method HandleUnwatch(c: Connection) returns (r: Reply<R>)
      requires Valid() && c in conns
      modifies this`known, c
      ensures Valid() && (Now(), r) == Unwatch(old(Now()), c)
    {
      c.Unwatch();
      known := known[c := c.value];
      return Ok;
    }

    /** `processCommandWithTx`. */
    method ProcessCommandWithTx(c: Connection, value: Resp.Value, now: int) returns (r: Reply<R>)
      requires Valid() && c in conns
      modifies this`watchers, this`data, this`known, conns
      ensures Valid()
      ensures IsCommand(value) ==> (Now(), r) == Handle(handlers, old(Now()), c, ParseCommand(value), now)
      ensures !IsCommand(value) ==> (Now(), r) == (old(Now()), Refused(InvalidCommand))
    {
      if !IsCommand(value) {
        return Refused(InvalidCommand);
      }
      r := HandleCommand(c, value, ParseCommand(value), now);
    }

    method HandleCommand(c: Connection, value: Resp.Value, cmd: Command, now: int) returns (r: Reply<R>)
      requires Valid() && c in conns && IsCommand(value) && cmd == ParseCommand(value)
      modifies this`watchers, this`data, this`known, conns
      ensures Valid() && (Now(), r) == Handle(handlers, old(Now()), c, cmd, now)
    {
      if cmd.name.AUTH? {
        return Refused(NoPassword);
      }
      if IsTxName(cmd.name) {
        r := HandleTxCmd(c, cmd, now);
        TxOutcomeIsHandle(old(Now()), c, cmd, now, (Now(), r));
      } else {
        r := HandleOrdinary(c, value, cmd, now);
      }
    }

    /** Ordinary commands wait in a transaction and run outside of one. */
    method HandleOrdinary(c: Connection, value: Resp.Value, cmd: Command, now: int) returns (r: Reply<R>)
      requires Valid() && c in conns && IsCommand(value) && cmd == ParseCommand(value) && Ordinary(cmd)
      modifies this`watchers, this`data, this`known, conns
      ensures Valid() && (Now(), r) == Handle(handlers, old(Now()), c, cmd, now)
    {
      if c.inTransaction {
        Enqueue(c, value, cmd);
        r := Queued;
      } else {
        r := RunCommand(cmd, now);
      }
    }

    method Enqueue(c: Connection, value: Resp.Value, cmd: Command)
      requires Valid() && c in conns && IsCommand(value) && cmd == ParseCommand(value) && Ordinary(cmd)
      requires c.inTransaction
      modifies this`known, c
      ensures Valid()
      ensures var k := old(Now()).conns[c]; Now() == Update(old(Now()), c, k.(queue := k.queue + [cmd]))
    {
      c.Enqueue(value);
      known := known[c := c.value];
    }

    /** EXEC and DISCARD give up the keys they name.  There are none, so nothing leaves the table. */
    method ForgetNamedKeys(c: Connection, cmd: Command)
      requires Valid() && (cmd.name.EXEC? || cmd.name.DISCARD?)
      modifies this`watchers
      ensures Valid() && Now() == old(Now())
    {
      RemoveWatcherByKeys(ExtractKeys(cmd.name, cmd.args), c);
    }

    ghost predicate TxOutcome(s: State<Connection, D>, c: Connection, cmd: Command, now: int,
                              o: (State<Connection, D>, Reply<R>))
      requires c in s.conns
    {
      match cmd.name
      case MULTI => o == Multi(s, c, cmd.args)
      case WATCH => o == Watch(s, c, cmd.args)
      case UNWATCH => o == Unwatch(s, c)
      case EXEC => o == Exec(handlers, s, c, now)
      case DISCARD => o == Discard(s, c)
      case _ => true
    }

    lemma TxOutcomeIsHandle(s: State<Connection, D>, c: Connection, cmd: Command, now: int,
                            o: (State<Connection, D>, Reply<R>))
      requires c in s.conns && IsTxName(cmd.name) && TxOutcome(s, c, cmd, now, o)
      ensures o == Handle(handlers, s, c, cmd, now)
    {
    }

    /** `handleTxCmd` for the transaction commands. */
    method HandleTxCmd(c: Connection, cmd: Command, now: int) returns (r: Reply<R>)
      requires Valid() && c in conns && IsTxName(cmd.name)
      modifies this`watchers, this`data, this`known, conns
      ensures Valid()
      ensures TxOutcome(old(Now()), c, cmd, now, (Now(), r))
    {
      match cmd.name
      case MULTI => r := HandleMulti(c, cmd.args);
      case WATCH => r := HandleWatch(c, cmd.args);
      case UNWATCH => r := HandleUnwatch(c);
      case EXEC =>
        ForgetNamedKeys(c, cmd);
        r := HandleExec(c, now);
      case DISCARD =>
        ForgetNamedKeys(c, cmd);
        r := HandleDiscard(c);
    }

    method RemoveWatcherByKeys(keys: seq<bytes>, c: Connection)
      requires Valid()
      modifies this`watchers
      ensures Valid() && watchers == LeaveLists(old(watchers), keys, c)
    {
      var i := 0;
      while i < |keys|
        invariant 0 <= i <= |keys| && Valid()
        invariant LeaveLists(watchers, keys[i..], c) == LeaveLists(old(watchers), keys, c)
      {
        assert keys[i..][1..] == keys[i + 1..];
        RemoveWatcher(keys[i], c);
        i := i + 1;
      }
    }

    // ---------- A whole input value ----------

    /** `processPipeline`: one reply for each element, errors included. */
    method ProcessPipeline(c: Connection, values: seq<Resp.Value>, now: int) returns (results: seq<Reply<R>>)
      requires Valid() && c in conns
      modifies this`watchers, this`data, this`known, conns
      ensures Valid() && (Now(), results) == HandleValues(handlers, old(Now()), c, values, now)
    {
      results := [];
      var i := 0;
      while i < |values|
        invariant 0 <= i <= |values| && Valid()
        invariant (Now(), results) == HandleValues(handlers, old(Now()), c, values[..i], now)
      {
        HandleValuesSnoc(handlers, old(Now()), c, values, i, now);
        var r := ProcessCommandWithTx(c, values[i], now);
        results := results + [r];
        i := i + 1;
      }
      assert values[..i] == values;
    }

    /** What the connection loop does with a value it has read. */
    method Serve(c: Connection, value: Resp.Value, now: int) returns (results: seq<Reply<R>>)
      requires Valid() && c in conns
      modifies this`watchers, this`data, this`known, conns
      ensures Valid() && (Now(), results) == HandleValues(handlers, old(Now()), c, Dispatch(value), now)
    {
      if IsCommand(value) && Resp.IsArray(value.elems[0]) {
        results := ProcessPipeline(c, value.elems, now);
      } else {
        OneValue(handlers, Now(), c, value, now);
        var r := ProcessCommandWithTx(c, value, now);
        results := [r];
      }
    }

    /** The end of a connection: `Close` and `cleanupWatchers`. */
    method Disconnect(c: Connection)
      requires Valid() && c in conns && !c.closed
      modifies this`watchers, this`known, c
      ensures Valid() && Now() == Step(handlers, old(Now()), Event.Disconnect(c))
    {
      c.Close();
      known := known[c := c.value];
      CleanupWatchers(c);
    }

    method CleanupWatchers(c: Connection)
      requires Valid() && c in conns
      modifies this`watchers
      ensures Valid() && watchers == LeaveTable(old(watchers), c.watchedKeys, c)
    {
      var keys := c.watchedKeys;
      ghost var done: set<bytes> := {};
      assert LeaveTable(watchers, {}, c) == watchers;
      while keys != {}
        invariant Valid() && done + keys == c.watchedKeys && done !! keys
        invariant watchers == LeaveTable(old(watchers), done, c)
        decreases keys
      {
        var key :| key in keys;
        keys := keys - {key};
        LeaveOneMore(old(watchers), done, key, c);
        RemoveWatcher(key, c);
        done := done + {key};
      }
      assert done == c.watchedKeys;
    }
  }

  /** An array whose first element is an array is a pipeline; anything else is one request. */
  function Dispatch(v: Resp.Value): seq<Resp.Value> {
    if IsCommand(v) && Resp.IsArray(v.elems[0]) then v.elems else [v]
  }

  lemma DispatchByFirst(v: Resp.Value, vs: seq<Resp.Value>, inner: seq<Resp.Value>)
    ensures Dispatch(Resp.Array([Resp.Array(inner)] + vs)) == [Resp.Array(inner)] + vs
    ensures Dispatch(Resp.Array([Resp.NullArray] + vs)) == [Resp.NullArray] + vs
    ensures !v.Array? && !v.NullArray? ==> Dispatch(Resp.Array([v] + vs)) == [Resp.Array([v] + vs)]
    ensures !v.Array? ==> Dispatch(v) == [v]
    ensures Dispatch(Resp.Array([])) == [Resp.Array([])]
  {
  }

  function HandleValue<C(==), D, R>(h: Handlers<D, R>, s: State<C, D>, c: C, v: Resp.Value, now: int)
    : (State<C, D>, Reply<R>)
    requires c in s.conns
  {
    if IsCommand(v) then Handle(h, s, c, ParseCommand(v), now) else (s, Refused(InvalidCommand))
  }

  lemma HandleValueKeeps<C, D, R>(h: Handlers<D, R>, s: State<C, D>, c: C, v: Resp.Value, now: int)
    requires c in s.conns
    ensures var s1 := HandleValue(h, s, c, v, now).0;
            c in s1.conns && s1.conns[c].open == s.conns[c].open
  {
    if IsCommand(v) {
      HandleOwn(h, s, c, ParseCommand(v), now);
    }
  }

  function HandleValues<C(==), D, R>(h: Handlers<D, R>, s: State<C, D>, c: C, vs: seq<Resp.Value>, now: int)
    : (r: (State<C, D>, seq<Reply<R>>))
    requires c in s.conns
    ensures c in r.0.conns && r.0.conns[c].open == s.conns[c].open && |r.1| == |vs|
  {
    if vs == [] then (s, [])
    else
      var n := |vs| - 1;
      var (s1, rs) := HandleValues(h, s, c, vs[..n], now);
      HandleValueKeeps(h, s1, c, vs[n], now);
      var (s2, r) := HandleValue(h, s1, c, vs[n], now);
      (s2, rs + [r])
  }

  lemma HandleValuesSnoc<C, D, R>(h: Handlers<D, R>, s: State<C, D>, c: C, vs: seq<Resp.Value>, i: nat, now: int)
    requires c in s.conns && i < |vs|
    ensures var (s1, rs) := HandleValues(h, s, c, vs[..i], now);
            var (s2, r) := HandleValue(h, s1, c, vs[i], now);
            HandleValues(h, s, c, vs[..i + 1], now) == (s2, rs + [r])
  {
    assert vs[..i + 1][..i] == vs[..i];
  }

  lemma OneValue<C, D, R>(h: Handlers<D, R>, s: State<C, D>, c: C, v: Resp.Value, now: int)
    requires c in s.conns
    ensures var (s1, r) := HandleValue(h, s, c, v, now); HandleValues(h, s, c, [v], now) == (s1, [r])
  {
    var vs := [v];
    assert vs[..|vs| - 1] == [] && vs[|vs| - 1] == v;
    assert HandleValues(h, s, c, vs[..|vs| - 1], now) == (s, []);
    var (s1, r) := HandleValue(h, s, c, v, now);
    assert [] + [r] == [r];
  }

  /** The requests that an input value stands for. */
  function Requests<C>(c: C, vs: seq<Resp.Value>, now: int): seq<Event<C>> {
    if vs == [] then []
    else
      var n := |vs| - 1;
      Requests(c, vs[..n], now) + if IsCommand(vs[n]) then [Request(c, ParseCommand(vs[n]), now)] else []
  }

  /** Serving a value is a stretch of a run, so that everything proved about runs holds of
      the server's methods. */
  lemma {:induction false} ServingIsRunning<C, D, R>(h: Handlers<D, R>, s: State<C, D>, c: C, vs: seq<Resp.Value>, now: int)
    requires c in s.conns && s.conns[c].open
    ensures HandleValues(h, s, c, vs, now).0 == Run(h, s, Requests(c, vs, now))
  {
    if vs != [] {
      var n := |vs| - 1;
      ServingIsRunning(h, s, c, vs[..n], now);
      var es := Requests(c, vs[..n], now);
      if IsCommand(vs[n]) {
        var longer := es + [Request(c, ParseCommand(vs[n]), now)];
        assert longer[..|longer| - 1] == es;
      } else {
        assert es + [] == es;
      }
    }
  }

  lemma LeaveOneMore<C>(w: map<bytes, seq<C>>, done: set<bytes>, key: bytes, c: C)
    requires key !in done
    ensures LeaveTable(w, done + {key}, c) == Transactions.RemoveWatcher(LeaveTable(w, done, c), key, c)
  {
  }

  function LeaveLists<C(==)>(w: map<bytes, seq<C>>, keys: seq<bytes>, c: C): map<bytes, seq<C>>
    decreases keys
  {
    if keys == [] then w else LeaveLists(Transactions.RemoveWatcher(w, keys[0], c), keys[1..], c)
  }
}
