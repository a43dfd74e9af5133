/** The string commands on the sharded cache (`internal/handler/string.go`, `batch.go`), and
    why module `Store` may treat the cache as a map: while no Set evicts, it is one. */
module Strings {
  import opened Bytes
  import opened Lru
  import opened Commands
  import opened Store
  import opened Aof
  import S = Shard
  import C = Cache

  type Shards = seq<seq<Entry>>

  // ---------- Calls of the cache ----------

  /** One call, which touches the shard that its key selects. */
  function Apply(cfg: C.Config, st: Shards, op: S.Op, now: int): (r: Shards)
    requires |st| == cfg.shards > 0 && !op.Cleanup?
    ensures |r| == cfg.shards
  {
    var i := C.Index(cfg, op.key);
    st[i := S.Next(cfg.limits, st[i], op, now)]
  }

  function Held(cfg: C.Config, st: Shards, key: bytes): Option<Item>
    requires |st| == cfg.shards > 0
  {
    Find(st[C.Index(cfg, key)], key)
  }

  /** The loop of MSET and MSETNX. */
  function SetAll(cfg: C.Config, st: Shards, pairs: seq<bytes>, now: int): (r: Shards)
    requires |st| == cfg.shards > 0
    ensures |r| == cfg.shards
    decreases |pairs|
  {
    if |pairs| < 2 then st else SetAll(cfg, Apply(cfg, st, S.Set(pairs[0], pairs[1], 0), now), pairs[2..], now)
  }

  /** One turn of that loop, from position `i`. */
  lemma SetAllStep(cfg: C.Config, st: Shards, args: seq<bytes>, i: nat, now: int)
    requires |st| == cfg.shards > 0 && i + 1 < |args|
    ensures SetAll(cfg, st, args[i..], now)
            == SetAll(cfg, Apply(cfg, st, S.Set(args[i], args[i + 1], 0), now), args[i + 2..], now)
  {
    assert args[i..][2..] == args[i + 2..];
  }

  /** The loop of DEL. */
  function DeleteAll(cfg: C.Config, st: Shards, keys: seq<bytes>): (r: Shards)
    requires |st| == cfg.shards > 0
    ensures |r| == cfg.shards
    decreases keys
  {
    if keys == [] then st else DeleteAll(cfg, Apply(cfg, st, S.Delete(keys[0]), 0), keys[1..])
  }

  function CountHeld(cfg: C.Config, st: Shards, keys: seq<bytes>): nat
    requires |st| == cfg.shards > 0
    decreases keys
  {
    if keys == [] then 0
    else
      (if Held(cfg, st, keys[0]).Some? then 1 else 0)
      + CountHeld(cfg, Apply(cfg, st, S.Delete(keys[0]), 0), keys[1..])
  }

  /** One turn of that loop, which is at position `i`. */
  lemma {:induction false} DeleteOneMore(cfg: C.Config, st: Shards, keys: seq<bytes>, i: nat)
    requires |st| == cfg.shards > 0 && i < |keys|
    ensures var st' := DeleteAll(cfg, st, keys[..i]);
            && DeleteAll(cfg, st, keys[..i + 1]) == Apply(cfg, st', S.Delete(keys[i]), 0)
            && CountHeld(cfg, st, keys[..i + 1])
               == CountHeld(cfg, st, keys[..i]) + if Held(cfg, st', keys[i]).Some? then 1 else 0
    decreases i
  {
    assert keys[..i + 1][1..] == keys[1..][..i];
    if i > 0 {
      assert keys[..i][1..] == keys[1..][..i - 1];
      DeleteOneMore(cfg, Apply(cfg, st, S.Delete(keys[0]), 0), keys[1..], i - 1);
    }
  }

  /** The existence test of MSETNX, which does not look at deadlines. */
  predicate AnyHeld(cfg: C.Config, st: Shards, pairs: seq<bytes>)
    requires |st| == cfg.shards > 0
  {
    exists k :: k in Evens(pairs) && Held(cfg, st, k).Some?
  }

  /** What APPEND writes: the old value counts unless it is past its deadline. */
  function Appended(found: Option<Item>, tail: bytes, now: int): bytes {
    if found.Some? && !S.IsExpired(found.value, now) then found.value.value + tail else tail
  }

  // ---------- Commands ----------

  datatype Effect = Effect(shards: Shards, reply: Reply, logged: bool)

  /** A handler of a string command on the cache. */
  function OnCache(cfg: C.Config, st: Shards, c: Command, now: int): (e: Effect)
    requires |st| == cfg.shards > 0 && OnStrings(c.name)
    ensures |e.shards| == cfg.shards
  {
    var args := c.args;
    match c.name
    case SET =>
      if |args| < 2 then Effect(st, WrongArguments, false)
      else Effect(Apply(cfg, st, S.Set(args[0], args[1], LiveTtl(args)), now), OK, true)
    case DEL =>
      if |args| < 1 then Effect(st, WrongArguments, false)
      else Effect(DeleteAll(cfg, st, args), Int(CountHeld(cfg, st, args)), true)
    case MSET =>
      if |args| < 2 || |args| % 2 != 0 then Effect(st, WrongArguments, false)
      else Effect(SetAll(cfg, st, args, now), OK, true)
    case MSETNX =>
      if |args| < 2 || |args| % 2 != 0 then Effect(st, WrongArguments, false)
      else if AnyHeld(cfg, st, args) then Effect(st, Int(0), false)
      else Effect(SetAll(cfg, st, args, now), Int(1), true)
    case APPEND =>
      if |args| < 2 then Effect(st, WrongArguments, false)
      else
        var value := Appended(Held(cfg, st, args[0]), args[1], now);
        Effect(Apply(cfg, Apply(cfg, st, S.Get(args[0]), now), S.Set(args[0], value, 0), now), Int(|value|), true)
  }

  // ---------- No Set evicts ----------

  /** A Set that opens no eviction guard. */
  predicate SetFits(cfg: C.Config, st: Shards, key: bytes, value: bytes, ttl: int, now: int)
    requires |st| == cfg.shards > 0
  {
    EvictsNothing(cfg.limits, st[C.Index(cfg, key)], Entry(key, S.NewItem(value, ttl, now)))
  }

  predicate AllFit(cfg: C.Config, st: Shards, pairs: seq<bytes>, now: int)
    requires |st| == cfg.shards > 0
    decreases |pairs|
  {
    |pairs| < 2
    || (SetFits(cfg, st, pairs[0], pairs[1], 0, now)
        && AllFit(cfg, Apply(cfg, st, S.Set(pairs[0], pairs[1], 0), now), pairs[2..], now))
  }

  /** The Sets of a command, as far as it gets to them, open no eviction guard. */
  predicate CommandFits(cfg: C.Config, st: Shards, c: Command, now: int)
    requires |st| == cfg.shards > 0
  {
    var args := c.args;
    match c.name
    case SET => |args| < 2 || SetFits(cfg, st, args[0], args[1], LiveTtl(args), now)
    case MSET => |args| % 2 != 0 || AllFit(cfg, st, args, now)
    case MSETNX => |args| % 2 != 0 || AnyHeld(cfg, st, args) || AllFit(cfg, st, args, now)
    case APPEND =>
      |args| < 2
      || SetFits(cfg, Apply(cfg, st, S.Get(args[0]), now), args[0],
                 Appended(Held(cfg, st, args[0]), args[1], now), 0, now)
    case _ => true
  }

  // ---------- The cache is the map of module Store ----------

  function At(m: map<bytes, Item>, k: bytes): Option<Item> {
    if k in m then Some(m[k]) else None
  }

  /** The shards hold exactly the items of `m`. */
  ghost predicate Holds(cfg: C.Config, st: Shards, m: map<bytes, Item>) {
    && |st| == cfg.shards > 0
    && C.WellPlaced(cfg, st)
    && (forall k :: Held(cfg, st, k) == At(m, k))
  }

  lemma ApplyIsWellPlaced(cfg: C.Config, st: Shards, op: S.Op, now: int)
    requires |st| == cfg.shards > 0 && !op.Cleanup? && C.WellPlaced(cfg, st)
    ensures C.WellPlaced(cfg, Apply(cfg, st, op, now))
  {
    var i := C.Index(cfg, op.key);
    S.NextIsBounded(cfg.limits, st[i], op, now);
    forall e | e in S.Next(cfg.limits, st[i], op, now) ensures C.Index(cfg, e.key) == i {
      C.NextMembers(cfg.limits, st[i], op, now, e);
    }
  }

  lemma SetHolds(cfg: C.Config, st: Shards, m: map<bytes, Item>, key: bytes, value: bytes, ttl: int, now: int)
    requires Holds(cfg, st, m) && SetFits(cfg, st, key, value, ttl, now)
    ensures Holds(cfg, Apply(cfg, st, S.Set(key, value, ttl), now), m[key := S.NewItem(value, ttl, now)])
  {
    var op := S.Set(key, value, ttl);
    var i := C.Index(cfg, key);
    var st' := Apply(cfg, st, op, now);
    ApplyIsWellPlaced(cfg, st, op, now);
    forall k ensures Held(cfg, st', k) == At(m[key := S.NewItem(value, ttl, now)], k) {
      assert Held(cfg, st, k) == At(m, k);
      if C.Index(cfg, k) == i {
        S.NextFinds(cfg.limits, st[i], op, now, k);
      }
    }
  }

  lemma DeleteHolds(cfg: C.Config, st: Shards, m: map<bytes, Item>, key: bytes)
    requires Holds(cfg, st, m)
    ensures Holds(cfg, Apply(cfg, st, S.Delete(key), 0), m - {key})
  {
    var op := S.Delete(key);
    var i := C.Index(cfg, key);
    var st' := Apply(cfg, st, op, 0);
    ApplyIsWellPlaced(cfg, st, op, 0);
    forall k ensures Held(cfg, st', k) == At(m - {key}, k) {
      assert Held(cfg, st, k) == At(m, k);
      if C.Index(cfg, k) == i {
        S.NextFinds(cfg.limits, st[i], op, 0, k);
      }
    }
  }

  /** A Get drops the item when it is past its deadline. */
  lemma GetHolds(cfg: C.Config, st: Shards, m: map<bytes, Item>, key: bytes, now: int)
    requires Holds(cfg, st, m)
    ensures Holds(cfg, Apply(cfg, st, S.Get(key), now),
                  if key in m && S.IsExpired(m[key], now) then m - {key} else m)
  {
    var op := S.Get(key);
    var i := C.Index(cfg, key);
    var st' := Apply(cfg, st, op, now);
    var m' := if key in m && S.IsExpired(m[key], now) then m - {key} else m;
    ApplyIsWellPlaced(cfg, st, op, now);
    assert Held(cfg, st, key) == At(m, key);
    forall k ensures Held(cfg, st', k) == At(m', k) {
      assert Held(cfg, st, k) == At(m, k);
      if C.Index(cfg, k) == i {
        S.LookFinds(st[i], key, now, k);
      }
    }
  }

  lemma {:induction false} SetAllHolds(cfg: C.Config, st: Shards, m: map<bytes, Item>, pairs: seq<bytes>, now: int)
    requires Holds(cfg, st, m) && AllFit(cfg, st, pairs, now)
    ensures Holds(cfg, SetAll(cfg, st, pairs, now), SetPairs(m, pairs))
    decreases |pairs|
  {
    if |pairs| >= 2 {
      SetHolds(cfg, st, m, pairs[0], pairs[1], 0, now);
      SetAllHolds(cfg, Apply(cfg, st, S.Set(pairs[0], pairs[1], 0), now), m[pairs[0] := Item(pairs[1], 0)], pairs[2..], now);
    }
  }

  lemma {:induction false} DeleteAllHolds(cfg: C.Config, st: Shards, m: map<bytes, Item>, keys: seq<bytes>)
    requires Holds(cfg, st, m)
    ensures Holds(cfg, DeleteAll(cfg, st, keys), RemoveAll(m, keys))
    ensures CountHeld(cfg, st, keys) == CountPresent(m, keys)
    decreases keys
  {
    if keys != [] {
      assert Held(cfg, st, keys[0]) == At(m, keys[0]);
      DeleteHolds(cfg, st, m, keys[0]);
      DeleteAllHolds(cfg, Apply(cfg, st, S.Delete(keys[0]), 0), m - {keys[0]}, keys[1..]);
    }
  }

  lemma AnyHeldIsAnyKey(cfg: C.Config, st: Shards, m: map<bytes, Item>, pairs: seq<bytes>)
    requires Holds(cfg, st, m)
    ensures AnyHeld(cfg, st, pairs) <==> AnyKey(m, pairs)
  {
    forall k ensures Held(cfg, st, k).Some? <==> k in m {
      assert Held(cfg, st, k) == At(m, k);
    }
  }

  lemma AppendHolds(cfg: C.Config, st: Shards, s: State, args: seq<bytes>, now: int)
    requires Holds(cfg, st, s.strings) && |args| >= 2 && CommandFits(cfg, st, Command(APPEND, args), now)
    ensures var e, o := OnCache(cfg, st, Command(APPEND, args), now), HandleAppend(s, args, now);
            Holds(cfg, e.shards, o.state.strings) && e.reply == o.reply && e.logged == o.logged
  {
    var m, key := s.strings, args[0];
    var m' := if key in m && S.IsExpired(m[key], now) then m - {key} else m;
    var value := Appended(Held(cfg, st, key), args[1], now);
    assert Held(cfg, st, key) == At(m, key);
    GetHolds(cfg, st, m, key, now);
    SetHolds(cfg, Apply(cfg, st, S.Get(key), now), m', key, value, 0, now);
    assert m'[key := Item(value, 0)] == m[key := Item(value, 0)];
  }

  /** One command: while no Set evicts, the handler on the cache replies, logs and leaves
      the strings as module Store says. */
  lemma CommandRefinesStore(pf: FloatParser, cfg: C.Config, st: Shards, s: State, c: Command, now: int)
    requires Holds(cfg, st, s.strings) && OnStrings(c.name) && CommandFits(cfg, st, c, now)
    ensures var e, o := OnCache(cfg, st, c, now), Live(pf, s, c, now);
            Holds(cfg, e.shards, o.state.strings) && e.reply == o.reply && e.logged == o.logged
  {
    var args := c.args;
    match c.name
    case SET =>
      if |args| >= 2 {
        SetHolds(cfg, st, s.strings, args[0], args[1], LiveTtl(args), now);
      }
    case DEL => DeleteAllHolds(cfg, st, s.strings, args);
    case MSET =>
      if |args| % 2 == 0 {
        SetAllHolds(cfg, st, s.strings, args, now);
      }
    case MSETNX =>
      AnyHeldIsAnyKey(cfg, st, s.strings, args);
      if |args| % 2 == 0 && !AnyHeld(cfg, st, args) {
        SetAllHolds(cfg, st, s.strings, args, now);
      }
    case APPEND =>
      if |args| >= 2 {
        AppendHolds(cfg, st, s, args, now);
      }
  }

  // ---------- Runs ----------

  function NoShards(cfg: C.Config): (r: Shards)
    ensures |r| == cfg.shards
  {
    seq(cfg.shards, _ => [])
  }

  /** The cache after a run of write commands, of which only the string commands touch it. */
  function CacheRun(cfg: C.Config, reqs: seq<Request>): (st: Shards)
    requires cfg.shards > 0
    ensures |st| == cfg.shards
  {
    if reqs == [] then NoShards(cfg)
    else
      var st, last := CacheRun(cfg, reqs[..|reqs| - 1]), reqs[|reqs| - 1];
      if OnStrings(last.command.name) then OnCache(cfg, st, last.command, last.now).shards else st
  }

  predicate RunFits(cfg: C.Config, reqs: seq<Request>)
    requires cfg.shards > 0
  {
    reqs == []
    || (var before, last := reqs[..|reqs| - 1], reqs[|reqs| - 1];
        RunFits(cfg, before) && CommandFits(cfg, CacheRun(cfg, before), last.command, last.now))
  }

  lemma {:induction false} RunFitsBefore(cfg: C.Config, reqs: seq<Request>, m: nat)
    requires cfg.shards > 0 && RunFits(cfg, reqs) && m <= |reqs|
    ensures RunFits(cfg, reqs[..m])
  {
    if m < |reqs| {
      RunFitsBefore(cfg, reqs[..|reqs| - 1], m);
      assert reqs[..|reqs| - 1][..m] == reqs[..m];
    } else {
      assert reqs[..m] == reqs;
    }
  }

  /** Whole runs: under any limits and any number of shards, as long as no Set evicts, the
      cache holds the strings that module Store computes, so that what is proved about those,
      replay in particular, is about the cache. */
  lemma {:induction false} RunRefinesStore(pf: FloatParser, cfg: C.Config, reqs: seq<Request>)
    requires cfg.shards > 0 && IsRun(reqs) && RunFits(cfg, reqs)
    ensures Holds(cfg, CacheRun(cfg, reqs), LiveRun(pf, reqs).strings)
  {
    if reqs != [] {
      var before, last := reqs[..|reqs| - 1], reqs[|reqs| - 1];
      var s := LiveRun(pf, before);
      RunRefinesStore(pf, cfg, before);
      if OnStrings(last.command.name) {
        CommandRefinesStore(pf, cfg, CacheRun(cfg, before), s, last.command, last.now);
      } else {
        OneKeyspace(pf, s, last.command, last.now);
      }
    }
  }

  // ---------- Where a sweep shows ----------

  /** The background sweep's turn at shard `i`, at time `t`. */
  function Sweep(cfg: C.Config, st: Shards, i: nat, t: int): (r: Shards)
    requires |st| == cfg.shards > 0 && i < |st|
    ensures |r| == cfg.shards
  {
    st[i := S.Unexpired(st[i], t)]
  }

  /** The key is held in that shard and past its deadline at that time. */
  predicate SweptOut(cfg: C.Config, st: Shards, i: nat, t: int, k: bytes)
    requires |st| == cfg.shards > 0
  {
    C.Index(cfg, k) == i && Held(cfg, st, k).Some? && S.IsExpired(Held(cfg, st, k).value, t)
  }

  lemma SweepHolds(cfg: C.Config, st: Shards, i: nat, t: int, k: bytes)
    requires |st| == cfg.shards > 0 && i < |st| && Distinct(st[i])
    ensures Held(cfg, Sweep(cfg, st, i, t), k) == if SweptOut(cfg, st, i, t, k) then None else Held(cfg, st, k)
  {
    if C.Index(cfg, k) == i {
      S.FindUnexpired(st[i], t, k);
    }
  }

  /** MSETNX answers differently behind a sweep, exactly: if it would have found some of its
      keys, and the sweep took out all that it would have found. */
  lemma SweepShowsInMSetNX(cfg: C.Config, st: Shards, i: nat, t: int, args: seq<bytes>, now: int)
    requires |st| == cfg.shards > 0 && i < |st| && Distinct(st[i])
    requires |args| >= 2 && |args| % 2 == 0
    ensures var c := Command(MSETNX, args);
            OnCache(cfg, Sweep(cfg, st, i, t), c, now).reply != OnCache(cfg, st, c, now).reply
            <==> AnyHeld(cfg, st, args)
                 && forall k | k in Evens(args) && Held(cfg, st, k).Some? :: SweptOut(cfg, st, i, t, k)
  {
    var swept := Sweep(cfg, st, i, t);
    forall k ensures Held(cfg, swept, k) == if SweptOut(cfg, st, i, t, k) then None else Held(cfg, st, k) {
      SweepHolds(cfg, st, i, t, k);
    }
  }

  function HeldKeys(cfg: C.Config, st: Shards, keys: seq<bytes>): set<bytes>
    requires |st| == cfg.shards > 0
  {
    set k | k in keys && Held(cfg, st, k).Some?
  }

  /** DEL counts every key that is held once, however often it is named. */
  lemma {:induction false} CountHeldIsCardinality(cfg: C.Config, st: Shards, keys: seq<bytes>)
    requires |st| == cfg.shards > 0
    ensures CountHeld(cfg, st, keys) == |HeldKeys(cfg, st, keys)|
    decreases keys
  {
    if keys != [] {
      var st', all := Apply(cfg, st, S.Delete(keys[0]), 0), HeldKeys(cfg, st, keys);
      CountHeldIsCardinality(cfg, st', keys[1..]);
      forall k ensures Held(cfg, st', k) == if k == keys[0] then None else Held(cfg, st, k) {
        FindWithout(st[C.Index(cfg, keys[0])], keys[0], k);
      }
      assert HeldKeys(cfg, st', keys[1..]) == all - {keys[0]} by {
        assert keys == [keys[0]] + keys[1..];
      }
      if Held(cfg, st, keys[0]).Some? {
        assert keys[0] in all;
      } else {
        assert all - {keys[0]} == all;
      }
    }
  }

  lemma SmallerSet(a: set<bytes>, b: set<bytes>)
    requires a <= b
    ensures |a| != |b| <==> exists k :: k in b && k !in a
  {
    assert b == a + (b - a);
    if b - a != {} {
      var k :| k in b - a;
    }
  }

  /** DEL answers differently behind a sweep, exactly: if the sweep took out one of its keys. */
  lemma SweepShowsInDel(cfg: C.Config, st: Shards, i: nat, t: int, keys: seq<bytes>, now: int)
    requires |st| == cfg.shards > 0 && i < |st| && Distinct(st[i]) && keys != []
    ensures var c := Command(DEL, keys);
            OnCache(cfg, Sweep(cfg, st, i, t), c, now).reply != OnCache(cfg, st, c, now).reply
            <==> exists k :: k in keys && SweptOut(cfg, st, i, t, k)
  {
    var swept := Sweep(cfg, st, i, t);
    CountHeldIsCardinality(cfg, st, keys);
    CountHeldIsCardinality(cfg, swept, keys);
    forall k ensures Held(cfg, swept, k) == if SweptOut(cfg, st, i, t, k) then None else Held(cfg, st, k) {
      SweepHolds(cfg, st, i, t, k);
    }
    var a, b := HeldKeys(cfg, swept, keys), HeldKeys(cfg, st, keys);
    SmallerSet(a, b);
    assert forall k :: k in b && k !in a <==> k in keys && SweptOut(cfg, st, i, t, k);
  }

  // ---------- Replay on the cache ----------

  /** `replayCommand` for the string commands on the cache. */
  function ReplayOnCache(cfg: C.Config, st: Shards, c: Command, now: int): (r: Shards)
    requires |st| == cfg.shards > 0
    ensures |r| == cfg.shards
  {
    var args := c.args;
    match c.name
    case SET => if |args| < 2 then st else Apply(cfg, st, S.Set(args[0], args[1], ReplayTtl(args)), now)
    case DEL => if |args| < 1 then st else DeleteAll(cfg, st, args)
    case MSET => if |args| < 2 || |args| % 2 != 0 then st else SetAll(cfg, st, args, now)
    case MSETNX => if |args| < 2 || |args| % 2 != 0 || AnyHeld(cfg, st, args) then st else SetAll(cfg, st, args, now)
    case _ => st
  }

  function ReplayAllOnCache(cfg: C.Config, st: Shards, cs: seq<Command>, clock: nat -> int): (r: Shards)
    requires |st| == cfg.shards > 0
    ensures |r| == cfg.shards
    decreases |cs|
  {
    if cs == [] then st
    else
      var n := |cs| - 1;
      ReplayOnCache(cfg, ReplayAllOnCache(cfg, st, cs[..n], clock), cs[n], clock(n))
  }

  lemma SameEntries(cfg: C.Config, st: Shards, st': Shards, m: map<bytes, Item>, i: nat)
    requires Holds(cfg, st, m) && Holds(cfg, st', m) && i < cfg.shards
    ensures forall e | e in st[i] :: e in st'[i]
  {
    forall e | e in st[i] ensures e in st'[i] {
      FindOfMember(st[i], e);
      assert Held(cfg, st, e.key) == At(m, e.key) == Held(cfg, st', e.key);
      FindIff(st'[i], e.key);
    }
  }

  /** Two caches that hold the same strings use the same places and bytes in every shard. */
  lemma SameUse(cfg: C.Config, st: Shards, st': Shards, m: map<bytes, Item>, i: nat)
    requires Holds(cfg, st, m) && Holds(cfg, st', m) && i < cfg.shards
    ensures |st[i]| == |st'[i]| && Mem(st[i]) == Mem(st'[i])
  {
    SameEntries(cfg, st, st', m, i);
    SameEntries(cfg, st', st, m, i);
    PartFits(st[i], st'[i]);
    PartFits(st'[i], st[i]);
  }

  /** So a Set that opens no eviction guard in the one opens none in the other. */
  lemma SetFitsAlike(cfg: C.Config, st: Shards, st': Shards, m: map<bytes, Item>, key: bytes, value: bytes,
                     ttl: int, ttl': int, now: int, later: int)
    requires Holds(cfg, st, m) && Holds(cfg, st', m)
    ensures SetFits(cfg, st, key, value, ttl, now) <==> SetFits(cfg, st', key, value, ttl', later)
  {
    SameUse(cfg, st, st', m, C.Index(cfg, key));
    assert Held(cfg, st, key) == At(m, key) == Held(cfg, st', key);
  }

  lemma {:induction false} AllFitAlike(cfg: C.Config, st: Shards, st': Shards, m: map<bytes, Item>, pairs: seq<bytes>,
                                       now: int, later: int)
    requires Holds(cfg, st, m) && Holds(cfg, st', m) && AllFit(cfg, st, pairs, now)
    ensures AllFit(cfg, st', pairs, later)
    decreases |pairs|
  {
    if |pairs| >= 2 {
      SetFitsAlike(cfg, st, st', m, pairs[0], pairs[1], 0, 0, now, later);
      SetHolds(cfg, st, m, pairs[0], pairs[1], 0, now);
      SetHolds(cfg, st', m, pairs[0], pairs[1], 0, later);
      AllFitAlike(cfg, Apply(cfg, st, S.Set(pairs[0], pairs[1], 0), now),
                  Apply(cfg, st', S.Set(pairs[0], pairs[1], 0), later),
                  m[pairs[0] := Item(pairs[1], 0)], pairs[2..], now, later);
    }
  }

  lemma MSetNXReplayed(cfg: C.Config, st: Shards, st': Shards, s: State, args: seq<bytes>, now: int, later: int)
    requires Holds(cfg, st, s.strings) && Holds(cfg, st', s.strings)
    requires CommandFits(cfg, st, Command(MSETNX, args), now)
    ensures var c, o := Command(MSETNX, args), HandleMSetNX(s, args);
            && CommandFits(cfg, st', c, later)
            && (if o.logged then Holds(cfg, ReplayOnCache(cfg, st', c, later), o.state.strings)
                else o.state.strings == s.strings)
  {
    var m := s.strings;
    AnyHeldIsAnyKey(cfg, st, m, args);
    AnyHeldIsAnyKey(cfg, st', m, args);
    if |args| % 2 == 0 && !AnyHeld(cfg, st, args) {
      AllFitAlike(cfg, st, st', m, args, now, later);
      SetAllHolds(cfg, st', m, args, later);
    }
  }

  /** One command replayed: it opens no eviction guard either, and the restored cache holds
      the strings that the live handler left. */
  lemma ReplayHolds(pf: FloatParser, cfg: C.Config, st: Shards, st': Shards, s: State, c: Command, now: int, later: int)
    requires Holds(cfg, st, s.strings) && Holds(cfg, st', s.strings)
    requires OnStrings(c.name) && Durable(pf, c) && CommandFits(cfg, st, c, now)
    ensures var o := Live(pf, s, c, now);
            && CommandFits(cfg, st', c, later)
            && (if o.logged then Holds(cfg, ReplayOnCache(cfg, st', c, later), o.state.strings)
                else o.state.strings == s.strings)
  {
    var m, args := s.strings, c.args;
    match c.name
    case SET =>
      if |args| >= 2 {
        SetFitsAlike(cfg, st, st', m, args[0], args[1], LiveTtl(args), LiveTtl(args), now, later);
        SetHolds(cfg, st', m, args[0], args[1], ReplayTtl(args), later);
      }
    case DEL => DeleteAllHolds(cfg, st', m, args);
    case MSET =>
      if |args| % 2 == 0 {
        AllFitAlike(cfg, st, st', m, args, now, later);
        SetAllHolds(cfg, st', m, args, later);
      }
    case MSETNX => MSetNXReplayed(cfg, st, st', s, args, now, later);
    case APPEND =>
  }

  /** No Set of the replay opens an eviction guard. */
  predicate ReplayFits(cfg: C.Config, cs: seq<Command>, clock: nat -> int)
    requires cfg.shards > 0
    decreases |cs|
  {
    cs == []
    || (var n := |cs| - 1;
        && ReplayFits(cfg, cs[..n], clock)
        && CommandFits(cfg, ReplayAllOnCache(cfg, NoShards(cfg), cs[..n], clock), cs[n], clock(n)))
  }

  /** Loading into a cache of the same configuration evicts nothing: after a durable run in
      which no Set opened an eviction guard, none opens one in the replay of its log, and
      the restored cache holds exactly the strings that the live one holds. */
  lemma {:induction false} ReplayRestoresCache(pf: FloatParser, cfg: C.Config, reqs: seq<Request>, clock: nat -> int)
    requires cfg.shards > 0 && IsRun(reqs) && AllDurable(pf, reqs) && RunFits(cfg, reqs)
    ensures var cs := Logged(pf, reqs);
            && ReplayFits(cfg, cs, clock)
            && Holds(cfg, ReplayAllOnCache(cfg, NoShards(cfg), cs, clock), LiveRun(pf, reqs).strings)
            && Holds(cfg, CacheRun(cfg, reqs), LiveRun(pf, reqs).strings)
  {
    RunRefinesStore(pf, cfg, reqs);
    if reqs != [] {
      var before, last := reqs[..|reqs| - 1], reqs[|reqs| - 1];
      var c, s := last.command, LiveRun(pf, before);
      assert IsRun(before) && AllDurable(pf, before);
      ReplayRestoresCache(pf, cfg, before, clock);
      var cs := Logged(pf, before);
      var st' := ReplayAllOnCache(cfg, NoShards(cfg), cs, clock);
      assert cs + [] == cs && (cs + [c])[..|cs|] == cs;
      if OnStrings(c.name) {
        ReplayHolds(pf, cfg, CacheRun(cfg, before), st', s, c, last.now, clock(|cs|));
      } else {
        OneKeyspace(pf, s, c, last.now);
      }
    }
  }
}
