/** Evictions and the watch mechanism.  A Set that makes room removes keys that no command
    names, and nobody who watches them is told: what is left of the guarantees when the
    strings are in the sharded cache with its limits. */
module Evictions {
  import opened Bytes
  import opened Lru
  import opened Commands
  import opened Transactions
  import opened TxEffects
  import opened OptimisticLocking
  import opened Strings
  import Conservation
  import Store
  import TxRuns
  import S = Shard
  import Cache

  // ---------- One command ----------

  /** A key that is not written is untouched, or it is gone. */
  predicate KeptOrGone(before: Option<Item>, after: Option<Item>) {
    after == before || after.None?
  }

  lemma OthersKeptOrGone(cfg: Cache.Config, st: Shards, op: S.Op, now: int, k: bytes)
    requires |st| == cfg.shards > 0 && Cache.WellPlaced(cfg, st)
    requires op.Set? && op.key != k
    ensures KeptOrGone(Held(cfg, st, k), Held(cfg, Apply(cfg, st, op, now), k))
    ensures SetFits(cfg, st, op.key, op.value, op.ttl, now) ==> Held(cfg, Apply(cfg, st, op, now), k) == Held(cfg, st, k)
  {
    var i := Cache.Index(cfg, op.key);
    if Cache.Index(cfg, k) == i {
      S.NextFinds(cfg.limits, st[i], op, now, k);
    }
  }

  lemma OthersKeptByGet(cfg: Cache.Config, st: Shards, key: bytes, now: int, k: bytes)
    requires |st| == cfg.shards > 0 && key != k
    ensures Held(cfg, Apply(cfg, st, S.Get(key), now), k) == Held(cfg, st, k)
  {
    S.LookFinds(st[Cache.Index(cfg, key)], key, now, k);
  }

  lemma {:induction false} SetAllElsewhere(cfg: Cache.Config, st: Shards, pairs: seq<bytes>, now: int, k: bytes)
    requires |st| == cfg.shards > 0 && Cache.WellPlaced(cfg, st) && k !in Evens(pairs)
    ensures Cache.WellPlaced(cfg, SetAll(cfg, st, pairs, now))
    ensures KeptOrGone(Held(cfg, st, k), Held(cfg, SetAll(cfg, st, pairs, now), k))
    ensures AllFit(cfg, st, pairs, now) ==> Held(cfg, SetAll(cfg, st, pairs, now), k) == Held(cfg, st, k)
    decreases |pairs|
  {
    if |pairs| >= 2 {
      var op := S.Set(pairs[0], pairs[1], 0);
      ApplyIsWellPlaced(cfg, st, op, now);
      OthersKeptOrGone(cfg, st, op, now, k);
      SetAllElsewhere(cfg, Apply(cfg, st, op, now), pairs[2..], now, k);
    }
  }

  lemma {:induction false} DeleteAllElsewhere(cfg: Cache.Config, st: Shards, keys: seq<bytes>, k: bytes)
    requires |st| == cfg.shards > 0 && Cache.WellPlaced(cfg, st) && k !in keys
    ensures Cache.WellPlaced(cfg, DeleteAll(cfg, st, keys))
    ensures Held(cfg, DeleteAll(cfg, st, keys), k) == Held(cfg, st, k)
    decreases keys
  {
    if keys != [] {
      var op := S.Delete(keys[0]);
      ApplyIsWellPlaced(cfg, st, op, 0);
      FindWithout(st[Cache.Index(cfg, keys[0])], keys[0], k);
      DeleteAllElsewhere(cfg, Apply(cfg, st, op, 0), keys[1..], k);
    }
  }

  lemma AppendElsewhere(cfg: Cache.Config, st: Shards, args: seq<bytes>, now: int, k: bytes)
    requires |st| == cfg.shards > 0 && Cache.WellPlaced(cfg, st) && |args| >= 2 && k != args[0]
    ensures var c := Command(APPEND, args);
            var st' := OnCache(cfg, st, c, now).shards;
            && Cache.WellPlaced(cfg, st') && KeptOrGone(Held(cfg, st, k), Held(cfg, st', k))
            && (CommandFits(cfg, st, c, now) ==> Held(cfg, st', k) == Held(cfg, st, k))
  {
    var got := Apply(cfg, st, S.Get(args[0]), now);
    var op := S.Set(args[0], Appended(Held(cfg, st, args[0]), args[1], now), 0);
    ApplyIsWellPlaced(cfg, st, S.Get(args[0]), now);
    OthersKeptByGet(cfg, st, args[0], now, k);
    ApplyIsWellPlaced(cfg, got, op, now);
    OthersKeptOrGone(cfg, got, op, now, k);
  }

  /** Under any limits: what a string command does to a key that `extractKeys` does not
      report, unless it is a DEL of several keys.  The key keeps its item or it is evicted,
      and it keeps it when no Set of the command opens an eviction guard. */
  lemma UnreportedKeptOrEvicted(cfg: Cache.Config, st: Shards, c: Command, now: int, k: bytes)
    requires |st| == cfg.shards > 0 && Cache.WellPlaced(cfg, st) && Store.OnStrings(c.name)
    requires !Conservation.NamesTooFew(c) && k !in ExtractKeys(c.name, c.args)
    ensures var st' := OnCache(cfg, st, c, now).shards;
            && Cache.WellPlaced(cfg, st') && KeptOrGone(Held(cfg, st, k), Held(cfg, st', k))
            && (CommandFits(cfg, st, c, now) ==> Held(cfg, st', k) == Held(cfg, st, k))
  {
    var args := c.args;
    match c.name
    case SET =>
      if |args| >= 2 {
        ApplyIsWellPlaced(cfg, st, S.Set(args[0], args[1], Store.LiveTtl(args)), now);
        OthersKeptOrGone(cfg, st, S.Set(args[0], args[1], Store.LiveTtl(args)), now, k);
      }
    case DEL => DeleteAllElsewhere(cfg, st, args, k);
    case MSET => SetAllElsewhere(cfg, st, args, now, k);
    case MSETNX => SetAllElsewhere(cfg, st, args, now, k);
    case APPEND =>
      if |args| >= 2 {
        AppendElsewhere(cfg, st, args, now, k);
      }
  }

  /** Exactly when a SET leaves all keys alone that it does not name: when the shard of its
      key holds no rivals for the place, or neither eviction guard opens on them. */
  lemma SetSparesOthersExactly(cfg: Cache.Config, st: Shards, args: seq<bytes>, now: int)
    requires |st| == cfg.shards > 0 && Cache.WellPlaced(cfg, st) && |args| >= 2
    ensures var c, rivals := Command(SET, args), Rivals(st[Cache.Index(cfg, args[0])], args[0]);
            var e := Entry(args[0], S.NewItem(args[1], Store.LiveTtl(args), now));
            (forall k | k !in ExtractKeys(SET, args) ::
               Held(cfg, OnCache(cfg, st, c, now).shards, k) == Held(cfg, st, k))
            <==> rivals == [] || EvictsNothing(cfg.limits, rivals, e)
  {
    var i := Cache.Index(cfg, args[0]);
    var e := Entry(args[0], S.NewItem(args[1], Store.LiveTtl(args), now));
    var st' := OnCache(cfg, st, Command(SET, args), now).shards;
    OthersStayExactly(cfg.limits, st[i], e);
    if k :| k != args[0] && Find(st'[i], k) != Find(st[i], k) {
      AddFindsOthers(cfg.limits, st[i], e, k);
      FindIff(st[i], k);
      assert Cache.Index(cfg, k) == i && Held(cfg, st', k) != Held(cfg, st, k);
    }
  }

  // ---------- Transactions on the cache ----------

  /** The data of the server: strings in the shards, and the collections. */
  datatype Data = Data(shards: Shards, rest: Store.State)

  predicate Sound(cfg: Cache.Config, d: Data) {
    |d.shards| == cfg.shards > 0 && Cache.WellPlaced(cfg, d.shards)
  }

  /** Strings past their deadline may be gone, nothing else has changed. */
  ghost predicate OnlyExpiredGone(cfg: Cache.Config, d: Data, d': Data, now: int)
    requires Sound(cfg, d)
  {
    && Sound(cfg, d') && d'.rest == d.rest
    && forall k :: KeptOrExpired(Held(cfg, d.shards, k), Held(cfg, d'.shards, k), now)
  }

  predicate KeptOrExpired(before: Option<Item>, after: Option<Item>, now: int) {
    after == before || (after.None? && before.Some? && S.IsExpired(before.value, now))
  }

  /** The write commands do what modules Strings and Store say; all others leave the data
      alone, but for items past their deadline, and for the recency of what they look up. */
  ghost predicate Faithful<R>(h: Handlers<Data, R>, pf: Store.FloatParser, cfg: Cache.Config) {
    forall d: Data, cmd: Command, now: int | Sound(cfg, d) ::
      var d' := h.run(d, cmd, now).0;
      if Store.OnStrings(cmd.name) then d' == Data(OnCache(cfg, d.shards, cmd, now).shards, d.rest)
      else if IsWrite(cmd.name) then d' == Data(d.shards, Store.Live(pf, d.rest, cmd, now).state)
      else OnlyExpiredGone(cfg, d, d', now)
  }

  /** No Set of these commands, run one after the other, opens an eviction guard. */
  predicate AllFitIn<C, R>(h: Handlers<Data, R>, cfg: Cache.Config, s: State<C, Data>, cmds: seq<Command>, now: int)
    decreases cmds
  {
    cmds == []
    || (&& Sound(cfg, s.data)
        && (h.registered(cmds[0].name) && Store.OnStrings(cmds[0].name) ==>
              CommandFits(cfg, s.data.shards, cmds[0], now))
        && AllFitIn(h, cfg, Process(h, s, cmds[0], now).0, cmds[1..], now))
  }

  /** Between two moments the collections under `k` have stayed as they were, and the string
      has, too, or it is gone: past its deadline by `now`, or perhaps evicted. */
  predicate Kept(cfg: Cache.Config, d: Data, d': Data, k: bytes, now: int, fits: bool)
    requires Sound(cfg, d) && Sound(cfg, d')
  {
    && Conservation.SameAt(d.rest.hashes, d'.rest.hashes, k) && Conservation.SameAt(d.rest.lists, d'.rest.lists, k)
    && Conservation.SameAt(d.rest.sets, d'.rest.sets, k) && Conservation.SameAt(d.rest.zsets, d'.rest.zsets, k)
    && var before, after := Held(cfg, d.shards, k), Held(cfg, d'.shards, k);
       if fits then KeptOrExpired(before, after, now) else KeptOrGone(before, after)
  }

  lemma ProcessKeeps<C, R>(h: Handlers<Data, R>, pf: Store.FloatParser, cfg: Cache.Config, s: State<C, Data>,
                           cmd: Command, t: int, k: bytes, now: int)
    requires Faithful(h, pf, cfg) && Sound(cfg, s.data) && t <= now
    requires !Conservation.NamesTooFew(cmd) && k !in KeysWritten(h, cmd)
    ensures var d' := Process(h, s, cmd, t).0.data;
            && Sound(cfg, d')
            && Kept(cfg, s.data, d', k, now,
                    h.registered(cmd.name) && Store.OnStrings(cmd.name) ==> CommandFits(cfg, s.data.shards, cmd, t))
  {
    MarkWatchedIsMarked(s, ExtractKeys(cmd.name, cmd.args));
    if h.registered(cmd.name) {
      if Store.OnStrings(cmd.name) {
        UnreportedKeptOrEvicted(cfg, s.data.shards, cmd, t, k);
      } else if IsWrite(cmd.name) {
        Conservation.ChangesOnlyNamed(pf, s.data.rest, cmd, t, k);
      }
    }
  }

  lemma {:induction false} ProcessAllKeeps<C, R>(h: Handlers<Data, R>, pf: Store.FloatParser, cfg: Cache.Config,
                                                 s: State<C, Data>, cmds: seq<Command>, t: int, k: bytes, now: int)
    requires Faithful(h, pf, cfg) && Sound(cfg, s.data) && t <= now
    requires TxRuns.NamesAll(cmds) && k !in AllWritten(h, cmds)
    ensures var d' := ProcessAll(h, s, cmds, t).0.data;
            Sound(cfg, d') && Kept(cfg, s.data, d', k, now, AllFitIn(h, cfg, s, cmds, t))
    decreases cmds
  {
    if cmds != [] {
      ProcessKeeps(h, pf, cfg, s, cmds[0], t, k, now);
      ProcessAllKeeps(h, pf, cfg, Process(h, s, cmds[0], t).0, cmds[1..], t, k, now);
    }
  }

  /** No Set that the event runs opens an eviction guard. */
  predicate EventFits<C(==), R>(h: Handlers<Data, R>, cfg: Cache.Config, s: State<C, Data>, e: Event<C>) {
    e.Request? && Acts(s, e.c) ==> AllFitIn(h, cfg, s, Runs(s, e.c, e.command), e.now)
  }

  ghost predicate RunEvictsNothing<C, R>(h: Handlers<Data, R>, cfg: Cache.Config, s: State<C, Data>, es: seq<Event<C>>) {
    forall i | 0 <= i < |es| :: EventFits(h, cfg, OptimisticLocking.At(h, s, es, i), es[i])
  }

  lemma StepKeeps<C, R>(h: Handlers<Data, R>, pf: Store.FloatParser, cfg: Cache.Config, s: State<C, Data>,
                        e: Event<C>, k: bytes, now: int)
    requires Faithful(h, pf, cfg) && Sound(cfg, s.data) && k !in Written(h, s, e)
    requires e.Request? && Acts(s, e.c) ==> e.now <= now && TxRuns.NamesAll(Runs(s, e.c, e.command))
    ensures var d' := Step(h, s, e).data;
            Sound(cfg, d') && Kept(cfg, s.data, d', k, now, EventFits(h, cfg, s, e))
  {
    if e.Request? && Acts(s, e.c) {
      TxRuns.DataOfRequest(h, s, e.c, e.command, e.now);
      ProcessAllKeeps(h, pf, cfg, s, Runs(s, e.c, e.command), e.now, k, now);
    }
  }

  lemma {:induction false} RunKeeps<C, R>(h: Handlers<Data, R>, pf: Store.FloatParser, cfg: Cache.Config,
                                          s: State<C, Data>, es: seq<Event<C>>, n: nat, k: bytes, now: int)
    requires Faithful(h, pf, cfg) && Sound(cfg, s.data) && TxRuns.NamesAllIn(h, s, es) && TxRuns.NotAfter(es, now)
    requires n <= |es| && forall i | 0 <= i < |es| :: !WritesAt(h, s, es, i, k)
    ensures var d' := OptimisticLocking.At(h, s, es, n).data;
            Sound(cfg, d') && Kept(cfg, s.data, d', k, now, RunEvictsNothing(h, cfg, s, es))
  {
    if n == 0 {
      assert es[..0] == [];
    } else {
      RunKeeps(h, pf, cfg, s, es, n - 1, k, now);
      AtStep(h, s, es, n - 1);
      assert !WritesAt(h, s, es, n - 1, k);
      StepKeeps(h, pf, cfg, OptimisticLocking.At(h, s, es, n - 1), es[n - 1], k, now);
    }
  }

  /** What WATCH is worth on the cache.  If `c` watches `k` throughout a run and EXEC then
      commits, the collections under `k` are what they were when the run began, and the
      string under `k` is, too, or it is gone: past its deadline, or evicted by some Set.
      In a run in which no Set opens an eviction guard it can only be past its deadline. */
  lemma CommitMeansKeptOrEvicted<C, R>(h: Handlers<Data, R>, pf: Store.FloatParser, cfg: Cache.Config,
                                       s: State<C, Data>, es: seq<Event<C>>, c: C, k: bytes, now: int)
    requires Faithful(h, pf, cfg) && Sound(cfg, s.data) && Inv(s) && StaysWatched(h, s, es, c, k)
    requires TxRuns.NamesAllIn(h, s, es) && TxRuns.NotAfter(es, now) && Commits(h, Run(h, s, es), c, now)
    ensures var d' := Run(h, s, es).data;
            Sound(cfg, d') && Kept(cfg, s.data, d', k, now, RunEvictsNothing(h, cfg, s, es))
  {
    CommitMeansUntouched(h, s, es, c, k, now);
    RunKeeps(h, pf, cfg, s, es, |es|, k, now);
    assert es[..|es|] == es;
  }

  /** Why the second half is needed: in a full shard of one place, another connection's SET
      of another key evicts `k`, and who watches it does not become dirty, so that EXEC
      commits although the string is gone. */
  lemma EvictedWhileWatched<C, R>(h: Handlers<Data, R>, pf: Store.FloatParser, cfg: Cache.Config, s: State<C, Data>,
                                  c: C, x: C, a: bytes, v: bytes, k: bytes, now: int)
    requires Faithful(h, pf, cfg) && Sound(cfg, s.data) && h.registered(SET) && a != k && x != c
    requires cfg.limits.capacity == 1 && Cache.Index(cfg, a) == Cache.Index(cfg, k) && Held(cfg, s.data.shards, k).Some?
    requires Acts(s, x) && !s.conns[x].inTx && Acts(s, c) && s.conns[c].inTx && k in s.conns[c].watched
    requires !s.conns[c].dirty && !Listed(s.watchers, a, c)
    ensures var t := Step(h, s, Request(x, Command(SET, [a, v]), now));
            && Sound(cfg, t.data) && Held(cfg, t.data.shards, k).None?
            && Acts(t, c) && k in t.conns[c].watched && Commits(h, t, c, now)
  {
    var cmd := Command(SET, [a, v]);
    HandleOthers(h, s, x, cmd, now, c);
    OneWritten(h, cmd);
    TxRuns.DataOfRequest(h, s, x, cmd, now);
    MarkWatchedIsMarked(s, ExtractKeys(SET, cmd.args));
    OnePlace(cfg, s.data.shards, a, v, k, now);
  }

  lemma OnePlace(cfg: Cache.Config, st: Shards, a: bytes, v: bytes, k: bytes, now: int)
    requires |st| == cfg.shards > 0 && Cache.WellPlaced(cfg, st) && a != k
    requires cfg.limits.capacity == 1 && Cache.Index(cfg, a) == Cache.Index(cfg, k)
    ensures var st' := Apply(cfg, st, S.Set(a, v, 0), now);
            Cache.WellPlaced(cfg, st') && Held(cfg, st', k).None?
  {
    var i, st' := Cache.Index(cfg, a), Apply(cfg, st, S.Set(a, v, 0), now);
    ApplyIsWellPlaced(cfg, st, S.Set(a, v, 0), now);
    AddFinds(cfg.limits, st[i], Entry(a, S.NewItem(v, 0, now)));
    FindIff(st'[i], a);
    FindIff(st'[i], k);
  }
}
