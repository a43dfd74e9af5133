/** What one request does to the transaction state: of its own connection, of all others, and
    of the watcher table. */
module TxEffects {
  import opened Bytes
  import opened Commands
  import opened Transactions

  // ---------- Marking in one go ----------

  predicate Listed<C(==)>(w: map<bytes, seq<C>>, k: bytes, c: C) {
    k in w && c in w[k]
  }

  predicate WatchesAny<C(==)>(w: map<bytes, seq<C>>, ks: set<bytes>, c: C) {
    exists k :: k in ks && Listed(w, k, c)
  }

  /** All watchers of `ks` are dirty and the keys are out of the table. */
  function Marked<C(==), D>(s: State<C, D>, ks: set<bytes>): State<C, D> {
    s.(conns := map c | c in s.conns ::
                  if WatchesAny(s.watchers, ks, c) then s.conns[c].(dirty := true) else s.conns[c],
       watchers := s.watchers - ks)
  }

  lemma MarkedNothing<C, D>(s: State<C, D>)
    ensures Marked(s, {}) == s
  {
    assert Marked(s, {}).conns == s.conns;
  }

  lemma MarkedTwice<C, D>(s: State<C, D>, a: set<bytes>, b: set<bytes>)
    ensures Marked(Marked(s, a), b) == Marked(s, a + b)
  {
    var w := s.watchers;
    assert w - a - b == w - (a + b);
    forall c | c in s.conns
      ensures WatchesAny(w, a + b, c) <==> WatchesAny(w, a, c) || WatchesAny(w - a, b, c)
    {
      if WatchesAny(w, a + b, c) {
        var k :| k in a + b && Listed(w, k, c);
        assert Listed(w, k, c) && (k !in a ==> Listed(w - a, k, c));
      }
      if WatchesAny(w - a, b, c) {
        var k :| k in b && Listed(w - a, k, c);
        assert k in a + b && Listed(w, k, c);
      }
      if WatchesAny(w, a, c) {
        var k :| k in a && Listed(w, k, c);
        assert k in a + b;
      }
    }
    assert Marked(Marked(s, a), b).conns == Marked(s, a + b).conns;
  }

  lemma MarkedOne<C, D>(s: State<C, D>, k: bytes)
    ensures Marked(s, {k}) == if k in s.watchers
                              then s.(conns := Dirty(s.conns, s.watchers[k]), watchers := s.watchers - {k}) else s
  {
    forall c | c in s.conns ensures WatchesAny(s.watchers, {k}, c) <==> Listed(s.watchers, k, c) {
      if Listed(s.watchers, k, c) {
        assert k in {k};
      }
    }
    if k in s.watchers {
      assert Marked(s, {k}).conns == Dirty(s.conns, s.watchers[k]);
    } else {
      assert Marked(s, {k}).conns == s.conns;
    }
  }

  /** The loop over the keys amounts to marking them all at once. */
  lemma {:induction false} MarkWatchedIsMarked<C, D>(s: State<C, D>, keys: seq<bytes>)
    ensures MarkWatched(s, keys) == Marked(s, SetOf(keys))
    decreases keys
  {
    if keys == [] {
      MarkedNothing(s);
      assert SetOf(keys) == {};
    } else {
      MarkedOne(s, keys[0]);
      MarkWatchedIsMarked(Marked(s, {keys[0]}), keys[1..]);
      MarkedTwice(s, {keys[0]}, SetOf(keys[1..]));
      assert SetOf(keys) == {keys[0]} + SetOf(keys[1..]);
    }
  }

  lemma ProcessMarks<C, D, R>(h: Handlers<D, R>, s: State<C, D>, cmd: Command, now: int)
    ensures var s1 := Process(h, s, cmd, now).0;
            s1 == Marked(s, KeysWritten(h, cmd)).(data := s1.data)
  {
    MarkedNothing(s);
    MarkWatchedIsMarked(s, ExtractKeys(cmd.name, cmd.args));
  }

  lemma {:induction false} ProcessAllMarks<C, D, R>(h: Handlers<D, R>, s: State<C, D>, cmds: seq<Command>, now: int)
    ensures var (s1, rs) := ProcessAll(h, s, cmds, now);
            |rs| == |cmds| && s1 == Marked(s, AllWritten(h, cmds)).(data := s1.data)
    decreases cmds
  {
    if cmds == [] {
      MarkedNothing(s);
    } else {
      var s1 := Process(h, s, cmds[0], now).0;
      ProcessMarks(h, s, cmds[0], now);
      ProcessAllMarks(h, s1, cmds[1..], now);
      MarkedTwice(s, KeysWritten(h, cmds[0]), AllWritten(h, cmds[1..]));
      var a := Marked(s, KeysWritten(h, cmds[0]));
      assert Marked(a.(data := s1.data), AllWritten(h, cmds[1..])) == Marked(a, AllWritten(h, cmds[1..])).(data := s1.data);
    }
  }

  lemma {:induction false} WatchAllDoes<C, D>(s: State<C, D>, c: C, keys: seq<bytes>)
    requires c in s.conns
    ensures var s1 := WatchAll(s, c, keys);
            && s1.conns == s.conns[c := s.conns[c].(watched := s.conns[c].watched + SetOf(keys))]
            && s1.data == s.data
    decreases keys
  {
    var k := s.conns[c];
    if keys == [] {
      assert k.watched + SetOf(keys) == k.watched;
    } else {
      WatchAllDoes(WatchOne(s, c, keys[0]), c, keys[1..]);
      assert k.watched + {keys[0]} + SetOf(keys[1..]) == k.watched + SetOf(keys);
    }
  }

  /** WATCH puts the connection into the lists of the keys and changes no other entry. */
  lemma {:induction false} WatchAllLists<C, D>(s: State<C, D>, c: C, keys: seq<bytes>, k: bytes, x: C)
    requires c in s.conns
    ensures Listed(WatchAll(s, c, keys).watchers, k, x) <==> (x == c && k in keys) || Listed(s.watchers, k, x)
    decreases keys
  {
    if keys != [] {
      WatchAllLists(WatchOne(s, c, keys[0]), c, keys[1..], k, x);
      assert Listed(AddWatcher(s.watchers, keys[0], c), k, x)
        <==> (x == c && k == keys[0]) || Listed(s.watchers, k, x);
    }
  }

  lemma ExecMarks<C, D, R>(h: Handlers<D, R>, s: State<C, D>, c: C, now: int)
    requires c in s.conns && s.conns[c].inTx && !s.conns[c].dirty
    ensures var (s1, r) := Exec(h, s, c, now);
            var k := s.conns[c];
            && s1 == Marked(Update(s, c, k.(inTx := false, queue := [])), AllWritten(h, k.queue)).(data := s1.data)
            && r.Results? && |r.replies| == |k.queue|
  {
    var k := s.conns[c];
    ProcessAllMarks(h, Update(s, c, k.(inTx := false, queue := [])), k.queue, now);
  }

  // ---------- What a request does to the transaction state ----------

  /** An EXEC that aborts and a DISCARD clear everything. */
  predicate Resets<C(==), D>(s: State<C, D>, c: C, cmd: Command)
    requires c in s.conns
  {
    s.conns[c].inTx
    && (cmd.name.DISCARD? || (cmd.name.EXEC? && s.conns[c].dirty))
  }

  /** The keys a WATCH takes effect on. */
  function NewWatches<C(==), D>(s: State<C, D>, c: C, cmd: Command): set<bytes>
    requires c in s.conns
  {
    if cmd.name.WATCH? && !s.conns[c].inTx then SetOf(cmd.args) else {}
  }

  /** The queue after a request. */
  function Queue<C(==), D>(s: State<C, D>, c: C, cmd: Command): seq<Command>
    requires c in s.conns
  {
    var k := s.conns[c];
    if k.inTx && (cmd.name.EXEC? || cmd.name.DISCARD?) then []
    else if cmd.name.MULTI? && cmd.args == [] && !k.inTx then []
    else if k.inTx && Ordinary(cmd) then k.queue + [cmd]
    else k.queue
  }

  predicate InTx<C(==), D>(s: State<C, D>, c: C, cmd: Command)
    requires c in s.conns
  {
    if cmd.name.MULTI? then s.conns[c].inTx || cmd.args == []
    else s.conns[c].inTx && !cmd.name.EXEC? && !cmd.name.DISCARD?
  }

  /** The whole transaction state of the requesting connection after its request. */
  function OwnAfter<C(==), D, R>(h: Handlers<D, R>, s: State<C, D>, c: C, cmd: Command): Conn
    requires c in s.conns
  {
    var k := s.conns[c];
    var gone := Resets(s, c, cmd);
    Conn(k.open, InTx(s, c, cmd), Queue(s, c, cmd),
         if gone || cmd.name.UNWATCH? then {} else k.watched + NewWatches(s, c, cmd),
         !gone && (k.dirty || WatchesAny(s.watchers, AllWritten(h, Runs(s, c, cmd)), c)))
  }

  lemma OneWritten<D, R>(h: Handlers<D, R>, cmd: Command)
    ensures AllWritten(h, [cmd]) == KeysWritten(h, cmd)
  {
    assert AllWritten(h, [cmd]) == KeysWritten(h, cmd) + AllWritten(h, [cmd][1..]);
  }

  lemma NobodyWatchesNothing<C>(w: map<bytes, seq<C>>, c: C)
    ensures !WatchesAny(w, {}, c)
  {
  }

  predicate RunsCommands<C(==), D>(s: State<C, D>, c: C, cmd: Command)
    requires c in s.conns
  {
    if s.conns[c].inTx then cmd.name.EXEC? && !s.conns[c].dirty else Ordinary(cmd)
  }

  /** A request that runs commands marks the watchers of what they write, and changes data. */
  lemma HandleRuns<C, D, R>(h: Handlers<D, R>, s: State<C, D>, c: C, cmd: Command, now: int)
    requires c in s.conns && RunsCommands(s, c, cmd)
    ensures var s1, k := Handle(h, s, c, cmd, now).0, s.conns[c];
            var mine := k.(inTx := false, queue := if k.inTx then [] else k.queue);
            s1 == Marked(Update(s, c, mine), AllWritten(h, Runs(s, c, cmd))).(data := s1.data)
  {
    if s.conns[c].inTx {
      ExecMarks(h, s, c, now);
    } else {
      ProcessMarks(h, s, cmd, now);
      OneWritten(h, cmd);
      assert Update(s, c, s.conns[c]).conns == s.conns;
    }
  }

  lemma HandleOwn<C, D, R>(h: Handlers<D, R>, s: State<C, D>, c: C, cmd: Command, now: int)
    requires c in s.conns
    ensures var s1 := Handle(h, s, c, cmd, now).0;
            c in s1.conns && s1.conns[c] == OwnAfter(h, s, c, cmd)
  {
    if RunsCommands(s, c, cmd) {
      HandleRuns(h, s, c, cmd, now);
    } else {
      NobodyWatchesNothing(s.watchers, c);
      if cmd.name.WATCH? {
        WatchAllDoes(s, c, cmd.args);
      }
    }
    assert s.conns[c].watched + {} == s.conns[c].watched;
  }

  /** Everybody else only ever becomes dirty. */
  lemma HandleOthers<C, D, R>(h: Handlers<D, R>, s: State<C, D>, c: C, cmd: Command, now: int, x: C)
    requires c in s.conns && x != c
    ensures var s1 := Handle(h, s, c, cmd, now).0;
            && (x in s1.conns <==> x in s.conns)
            && (x in s.conns ==>
                  s1.conns[x] == if WatchesAny(s.watchers, AllWritten(h, Runs(s, c, cmd)), x)
                                 then s.conns[x].(dirty := true) else s.conns[x])
  {
    if RunsCommands(s, c, cmd) {
      HandleRuns(h, s, c, cmd, now);
    } else {
      NobodyWatchesNothing(s.watchers, x);
      if cmd.name.WATCH? {
        WatchAllDoes(s, c, cmd.args);
      }
    }
  }

  /** Entries of the table come from WATCH and go with a write, with nothing else. */
  lemma HandleTable<C, D, R>(h: Handlers<D, R>, s: State<C, D>, c: C, cmd: Command, now: int, k: bytes, x: C)
    requires c in s.conns
    ensures Listed(Handle(h, s, c, cmd, now).0.watchers, k, x)
            <==> (x == c && k in NewWatches(s, c, cmd))
                 || (Listed(s.watchers, k, x) && k !in AllWritten(h, Runs(s, c, cmd)))
  {
    if RunsCommands(s, c, cmd) {
      HandleRuns(h, s, c, cmd, now);
    } else if cmd.name.WATCH? {
      WatchAllLists(s, c, cmd.args, k, x);
    }
  }

  lemma HandleKeepsConns<C, D, R>(h: Handlers<D, R>, s: State<C, D>, c: C, cmd: Command, now: int)
    requires c in s.conns
    ensures Handle(h, s, c, cmd, now).0.conns.Keys == s.conns.Keys
  {
    if RunsCommands(s, c, cmd) {
      HandleRuns(h, s, c, cmd, now);
    } else if cmd.name.WATCH? {
      WatchAllDoes(s, c, cmd.args);
    }
  }
}
