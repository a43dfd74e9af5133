/** WATCH, MULTI, EXEC and DISCARD: `internal/server/transaction.go` with the parts of
    `connection.go` and `server.go` it works on.  Any number of connections share a table of
    watchers; every request is one atomic step.  What the other commands do to the data is
    a parameter. */
module Transactions {
  import opened Bytes
  import opened Commands

  /** The transaction fields of a connection. */
  datatype Conn = Conn(open: bool, inTx: bool, queue: seq<Command>, watched: set<bytes>, dirty: bool)

  const FRESH := Conn(true, false, [], {}, false)

  /** `watchers` lists, for each key, the connections to be told of a write. */
  datatype State<C(==), D> = State(conns: map<C, Conn>, watchers: map<bytes, seq<C>>, data: D)

  /** The registered commands and what running one of them does. */
  datatype Handlers<!D, R> = Handlers(registered: Name -> bool, run: (D, Command, int) -> (D, R))

  datatype Refusal =
    InvalidCommand | UnknownCommand | WrongArguments | ExecWithoutMulti | DiscardWithoutMulti | NoPassword

  datatype Reply<R> =
    | Ok
    | Queued
    | Aborted
    | Results(replies: seq<Reply<R>>)
    | Refused(why: Refusal)
    | Answer(value: R)

  predicate IsTxName(n: Name) {
    n.MULTI? || n.EXEC? || n.DISCARD? || n.WATCH? || n.UNWATCH?
  }

  /** A command that is queued in a transaction and run outside of one. */
  predicate Ordinary(cmd: Command) {
    !IsTxName(cmd.name) && !cmd.name.AUTH?
  }

  // ---------- The watcher table ----------

  function Except<C(==)>(cs: seq<C>, c: C): (r: seq<C>)
    ensures c !in r
    ensures forall x | x in r :: x in cs
    ensures forall x | x in cs && x != c :: x in r
  {
    if cs == [] then []
    else if cs[0] == c then Except(cs[1..], c)
    else [cs[0]] + Except(cs[1..], c)
  }

  /** `removeWatcherUnsafe`: an emptied list goes with its key. */
  function RemoveWatcher<C(==)>(w: map<bytes, seq<C>>, key: bytes, c: C): map<bytes, seq<C>> {
    if key !in w then w
    else
      var left := Except(w[key], c);
      if left == [] then w - {key} else w[key := left]
  }

  /** `cleanupWatchers`: out of the lists of all these keys. */
  function LeaveTable<C(==)>(w: map<bytes, seq<C>>, keys: set<bytes>, c: C): map<bytes, seq<C>> {
    map k | k in w && (k in keys ==> Except(w[k], c) != []) :: if k in keys then Except(w[k], c) else w[k]
  }

  function AddWatcher<C(==)>(w: map<bytes, seq<C>>, key: bytes, c: C): map<bytes, seq<C>> {
    var others := RemoveWatcher(w, key, c);
    others[key := (if key in others then others[key] else []) + [c]]
  }

  /** The connections of a list become dirty. */
  function Dirty<C(==)>(conns: map<C, Conn>, cs: seq<C>): map<C, Conn> {
    map c | c in conns :: if c in cs then conns[c].(dirty := true) else conns[c]
  }

  /** `markWatchedKeysDirty`: who watches a written key becomes dirty and leaves the table. */
  function MarkWatched<C(==), D>(s: State<C, D>, keys: seq<bytes>): State<C, D>
    decreases keys
  {
    if keys == [] then s
    else if keys[0] !in s.watchers then MarkWatched(s, keys[1..])
    else
      MarkWatched(s.(conns := Dirty(s.conns, s.watchers[keys[0]]), watchers := s.watchers - {keys[0]}),
                  keys[1..])
  }

  // ---------- Commands ----------

  /** `processCommand`. */
  function Process<C(==), D, R>(h: Handlers<D, R>, s: State<C, D>, cmd: Command, now: int): (State<C, D>, Reply<R>) {
    if !h.registered(cmd.name) then (s, Refused(UnknownCommand))
    else
      var s1 := if IsWrite(cmd.name) then MarkWatched(s, ExtractKeys(cmd.name, cmd.args)) else s;
      var (d, r) := h.run(s1.data, cmd, now);
      (s1.(data := d), Answer(r))
  }

  /** The loop of EXEC. */
  function ProcessAll<C(==), D, R>(h: Handlers<D, R>, s: State<C, D>, cmds: seq<Command>, now: int)
    : (State<C, D>, seq<Reply<R>>)
    decreases cmds
  {
    if cmds == [] then (s, [])
    else
      var (s1, r) := Process(h, s, cmds[0], now);
      var (s2, rs) := ProcessAll(h, s1, cmds[1..], now);
      (s2, [r] + rs)
  }

  function Update<C(==), D>(s: State<C, D>, c: C, conn: Conn): State<C, D> {
    s.(conns := s.conns[c := conn])
  }

  /** `ResetTransaction`. */
  function Reset(k: Conn): Conn {
    Conn(k.open, false, [], {}, false)
  }

  function WatchOne<C(==), D>(s: State<C, D>, c: C, key: bytes): State<C, D>
    requires c in s.conns
  {
    State(s.conns[c := s.conns[c].(watched := s.conns[c].watched + {key})], AddWatcher(s.watchers, key, c), s.data)
  }

  function WatchAll<C(==), D>(s: State<C, D>, c: C, keys: seq<bytes>): State<C, D>
    requires c in s.conns
    decreases keys
  {
    if keys == [] then s else WatchAll(WatchOne(s, c, keys[0]), c, keys[1..])
  }

  function Multi<C(==), D, R>(s: State<C, D>, c: C, args: seq<bytes>): (State<C, D>, Reply<R>)
    requires c in s.conns
  {
    if |args| > 0 then (s, Refused(WrongArguments))
    else if s.conns[c].inTx then (s, Ok)
    else (Update(s, c, s.conns[c].(inTx := true, queue := [])), Ok)
  }

  /** WATCH inside a transaction is accepted and ignored. */
  function Watch<C(==), D, R>(s: State<C, D>, c: C, args: seq<bytes>): (State<C, D>, Reply<R>)
    requires c in s.conns
  {
    if |args| < 1 then (s, Refused(WrongArguments))
    else if s.conns[c].inTx then (s, Ok)
    else (WatchAll(s, c, args), Ok)
  }

  /** UNWATCH leaves the table and the dirty flag as they are. */
  function Unwatch<C(==), D, R>(s: State<C, D>, c: C): (State<C, D>, Reply<R>)
    requires c in s.conns
  {
    (Update(s, c, s.conns[c].(watched := {})), Ok)
  }

  /** A committed EXEC ends the transaction but keeps the watched keys, the dirty flag and
      the entries of the table. */
  function Exec<C(==), D, R>(h: Handlers<D, R>, s: State<C, D>, c: C, now: int): (State<C, D>, Reply<R>)
    requires c in s.conns
  {
    var k := s.conns[c];
    if !k.inTx then (s, Refused(ExecWithoutMulti))
    else if k.dirty then (Update(s, c, Reset(k)), Aborted)
    else
      var (s1, rs) := ProcessAll(h, Update(s, c, k.(inTx := false, queue := [])), k.queue, now);
      (s1, Results(rs))
  }

  function Discard<C(==), D, R>(s: State<C, D>, c: C): (State<C, D>, Reply<R>)
    requires c in s.conns
  {
    if !s.conns[c].inTx then (s, Refused(DiscardWithoutMulti))
    else (Update(s, c, Reset(s.conns[c])), Ok)
  }

  /** `processCommandWithTx`, for a value that is a command, on a server without a password. */
  function Handle<C(==), D, R>(h: Handlers<D, R>, s: State<C, D>, c: C, cmd: Command, now: int)
    : (State<C, D>, Reply<R>)
    requires c in s.conns
  {
    match cmd.name
    case AUTH => (s, Refused(NoPassword))
    case MULTI => Multi(s, c, cmd.args)
    case WATCH => Watch(s, c, cmd.args)
    case UNWATCH => Unwatch(s, c)
    case EXEC => Exec(h, s, c, now)
    case DISCARD => Discard(s, c)
    case _ =>
      if s.conns[c].inTx then (Update(s, c, s.conns[c].(queue := s.conns[c].queue + [cmd])), Queued)
      else Process(h, s, cmd, now)
  }

  // ---------- Runs ----------

  /** A connection is closed.  Keys it no longer watches keep it in their lists. */
  function Leave<C(==), D>(s: State<C, D>, c: C): State<C, D>
    requires c in s.conns
  {
    State(s.conns[c := s.conns[c].(open := false)], LeaveTable(s.watchers, s.conns[c].watched, c), s.data)
  }

  datatype Event<C> =
    | Connect(c: C)
    | Request(c: C, command: Command, now: int)
    | Disconnect(c: C)

  /** Requests of connections that are not open do not happen. */
  function Step<C(==), D, R>(h: Handlers<D, R>, s: State<C, D>, e: Event<C>): State<C, D> {
    match e
    case Connect(c) => if c in s.conns then s else Update(s, c, FRESH)
    case Request(c, cmd, now) => if c in s.conns && s.conns[c].open then Handle(h, s, c, cmd, now).0 else s
    case Disconnect(c) => if c in s.conns && s.conns[c].open then Leave(s, c) else s
  }

  function Start<C(==), D>(data: D): State<C, D> {
    State(map[], map[], data)
  }

  function Run<C(==), D, R>(h: Handlers<D, R>, s: State<C, D>, es: seq<Event<C>>): State<C, D> {
    if es == [] then s else Step(h, Run(h, s, es[..|es| - 1]), es[|es| - 1])
  }

  // ---------- Which keys a step writes, as the watch mechanism sees it ----------

  function SetOf(keys: seq<bytes>): set<bytes> {
    set k | k in keys
  }

  function KeysWritten<D, R>(h: Handlers<D, R>, cmd: Command): set<bytes> {
    if h.registered(cmd.name) && IsWrite(cmd.name) then SetOf(ExtractKeys(cmd.name, cmd.args)) else {}
  }

  function AllWritten<D, R>(h: Handlers<D, R>, cmds: seq<Command>): set<bytes> {
    if cmds == [] then {} else KeysWritten(h, cmds[0]) + AllWritten(h, cmds[1..])
  }

  /** The commands that a request actually runs. */
  function Runs<C(==), D>(s: State<C, D>, c: C, cmd: Command): seq<Command>
    requires c in s.conns
  {
    if cmd.name.EXEC? && s.conns[c].inTx && !s.conns[c].dirty then s.conns[c].queue
    else if Ordinary(cmd) && !s.conns[c].inTx then [cmd]
    else []
  }

  function Written<C(==), D, R>(h: Handlers<D, R>, s: State<C, D>, e: Event<C>): set<bytes> {
    if e.Request? && e.c in s.conns && s.conns[e.c].open then AllWritten(h, Runs(s, e.c, e.command)) else {}
  }
}
