/** `replayCommand` and `Load` of `internal/persistence/aof.go` in their own form: a loop
    that reads values from the file and replays them onto the cache and the collections. */
module AofFile {
  import opened Bytes
  import opened Commands
  import opened Store
  import opened Strings
  import Aof
  import C = Cache
  import Resp
  import RespStream
  import H = Handlers
  import SH = StringHandlers

  /** A state without its strings. */
  function Collections(s: State): State {
    s.(strings := map[])
  }

  class AOF {
    const strings: SH.StringHandler
    const collections: H.Handler

    ghost predicate Valid()
      reads this, strings, strings.cache, strings.cache.Repr
    {
      strings.Valid() && collections !in strings.cache.Repr
    }

    constructor (strings: SH.StringHandler, collections: H.Handler)
      requires strings.Valid() && collections !in strings.cache.Repr
      ensures Valid() && this.strings == strings && this.collections == collections
    {
      this.strings := strings;
      this.collections := collections;
    }

    /** `replayCommand`. */
    method ReplayCommand(c: Command, now: int)
      requires Valid()
      modifies collections, strings.cache.Repr
      ensures Valid() && fresh(strings.cache.Repr - old(strings.cache.Repr))
      ensures strings.cache.state == ReplayOnCache(strings.cache.cfg, old(strings.cache.state), c, now)
      ensures collections.View() == Collections(Replay(collections.parseFloat, old(collections.View()), c, now))
    {
      if OnStrings(c.name) {
        strings.ReplayString(c, now);
      } else {
        collections.ReplayCollections(c, now);
      }
    }

    /** One turn of the load loop: a value that is no command is skipped. */
    method ReplayValue(v: Resp.Value, ghost done: seq<Command>, clock: nat -> int, count: nat,
                       ghost st: Shards, ghost t: State)
      requires Valid() && count == |done| && |st| == strings.cache.cfg.shards && t == Collections(t)
      requires strings.cache.state == ReplayAllOnCache(strings.cache.cfg, st, done, clock)
      requires collections.View() == Collections(Aof.ReplayFrom(collections.parseFloat, t, done, clock))
      modifies collections, strings.cache.Repr
      ensures Valid() && fresh(strings.cache.Repr - old(strings.cache.Repr))
      ensures strings.cache.state == ReplayAllOnCache(strings.cache.cfg, st, done + CommandOf(v), clock)
      ensures collections.View()
              == Collections(Aof.ReplayFrom(collections.parseFloat, t, done + CommandOf(v), clock))
    {
      ReplayStep(collections.parseFloat, strings.cache.cfg, st, t, done, v, clock);
      if IsCommand(v) {
        ReplayCommand(ParseCommand(v), clock(count));
      }
    }

    /** `AOF.Load`: read a value, replay it, until a read fails.  `clock(i)` is the time at
        which the i-th command is replayed; `false` stands for a panic. */
    method Load(file: bytes, clock: nat -> int) returns (ok: bool)
      requires Valid()
      modifies collections, strings.cache.Repr
      ensures Valid() && fresh(strings.cache.Repr - old(strings.cache.Repr))
      ensures ok == !Aof.Load(file).panicked
      ensures var cs := Aof.CommandsIn(Aof.Load(file).values);
              && strings.cache.state == ReplayAllOnCache(strings.cache.cfg, old(strings.cache.state), cs, clock)
              && collections.View()
                 == Collections(Aof.ReplayFrom(collections.parseFloat, old(collections.View()), cs, clock))
    {
      var parser := new RespStream.RESPParser(file);
      ghost var done: seq<Command> := [];
      ghost var all, panicked := Rest(file), Aof.Load(file).panicked;
      ghost var st, t := strings.cache.state, collections.View();
      var count := 0;
      assert done + all == all;
      while true
        invariant Valid() && fresh(strings.cache.Repr - old(strings.cache.Repr))
        invariant fresh(parser) && parser !in strings.cache.Repr
        invariant parser.depth == 0 && count == |done|
        invariant panicked == Aof.Load(parser.input).panicked
        invariant all == done + Rest(parser.input)
        invariant strings.cache.state == ReplayAllOnCache(strings.cache.cfg, st, done, clock)
        invariant collections.View() == Collections(Aof.ReplayFrom(collections.parseFloat, t, done, clock))
        decreases |parser.input|
      {
        LoadStep(done, parser.input);
        var val := parser.Read();
        if !val.Done? {
          return val.Fail?;
        }
        ReplayValue(val.value, done, clock, count, st, t);
        done := done + CommandOf(val.value);
        count := if IsCommand(val.value) then count + 1 else count;
      }
    }
  }

  /** The commands still to be replayed. */
  ghost function Rest(s: bytes): seq<Command> {
    Aof.CommandsIn(Aof.Load(s).values)
  }

  function CommandOf(v: Resp.Value): seq<Command> {
    if IsCommand(v) then [ParseCommand(v)] else []
  }

  lemma LoadStep(done: seq<Command>, s: bytes)
    ensures match Resp.ParseValue(s, 0)
            case Parsed(v, rest) =>
              && done + Rest(s) == done + CommandOf(v) + Rest(rest)
              && Aof.Load(s).panicked == Aof.Load(rest).panicked
            case Failed(_, _) => done + Rest(s) == done && !Aof.Load(s).panicked
            case Panicked => done + Rest(s) == done && Aof.Load(s).panicked
  {
    match Resp.ParseValue(s, 0)
    case Parsed(v, rest) =>
      var more := Aof.Load(rest).values;
      assert ([v] + more)[1..] == more;
      assert Rest(s) == CommandOf(v) + Rest(rest);
      assert done + (CommandOf(v) + Rest(rest)) == done + CommandOf(v) + Rest(rest);
    case _ =>
      assert Rest(s) == [] && done + [] == done;
  }

  lemma StringsReplayed(pf: FloatParser, t: State, c: Command, now: int)
    requires OnStrings(c.name)
    ensures Collections(Replay(pf, t, c, now)) == Collections(t)
  {
    match c.name
    case SET => assert Collections(ReplaySet(t, c.args, now)) == Collections(t);
    case DEL => assert Collections(ReplayDel(t, c.args)) == Collections(t);
    case MSET => assert Collections(ReplayMSet(t, c.args)) == Collections(t);
    case MSETNX => assert Collections(ReplayMSetNX(t, c.args)) == Collections(t);
    case APPEND =>
  }

  lemma HashesReplayed(t: State, args: seq<bytes>)
    ensures Collections(ReplayHSet(t, args)) == Collections(ReplayHSet(Collections(t), args))
    ensures Collections(ReplayHDel(t, args)) == Collections(ReplayHDel(Collections(t), args))
  {
  }

  lemma PushReplayed(t: State, left: bool, args: seq<bytes>)
    ensures Collections(ReplayPush(t, left, args)) == Collections(ReplayPush(Collections(t), left, args))
  {
  }

  lemma PopReplayed(t: State, left: bool, args: seq<bytes>)
    ensures Collections(ReplayPop(t, left, args)) == Collections(ReplayPop(Collections(t), left, args))
  {
  }

  lemma ZAddReplayed(pf: FloatParser, t: State, args: seq<bytes>)
    ensures Collections(ReplayZAdd(pf, t, args)) == Collections(ReplayZAdd(pf, Collections(t), args))
  {
  }

  lemma ZRemReplayed(t: State, args: seq<bytes>)
    ensures Collections(ReplayZRem(t, args)) == Collections(ReplayZRem(Collections(t), args))
  {
  }

  lemma SAddReplayed(t: State, args: seq<bytes>)
    ensures Collections(Store.ReplaySAdd(t, args)) == Collections(Store.ReplaySAdd(Collections(t), args))
  {
  }

  lemma SRemReplayed(t: State, args: seq<bytes>)
    ensures Collections(Store.ReplaySRem(t, args)) == Collections(Store.ReplaySRem(Collections(t), args))
  {
  }

  lemma SetsReplayed(pf: FloatParser, t: State, c: Command, now: int)
    requires OnSets(c.name) || OnSortedSets(c.name)
    ensures Collections(Replay(pf, t, c, now)) == Collections(Replay(pf, Collections(t), c, now))
  {
    match c.name
    case SADD => SAddReplayed(t, c.args);
    case SREM => SRemReplayed(t, c.args);
    case ZADD => ZAddReplayed(pf, t, c.args);
    case ZREM => ZRemReplayed(t, c.args);
  }

  lemma ListsReplayed(pf: FloatParser, t: State, c: Command, now: int)
    requires OnLists(c.name)
    ensures Collections(Replay(pf, t, c, now)) == Collections(Replay(pf, Collections(t), c, now))
  {
    match c.name
    case LPUSH | RPUSH => PushReplayed(t, c.name.LPUSH?, c.args);
    case LPOP | RPOP => PopReplayed(t, c.name.LPOP?, c.args);
  }

  /** What replay does to collections does not depend on the strings. */
  lemma CollectionsAlone(pf: FloatParser, t: State, c: Command, now: int)
    ensures Collections(Replay(pf, t, c, now)) == Collections(Replay(pf, Collections(t), c, now))
  {
    if OnStrings(c.name) {
      StringsReplayed(pf, t, c, now);
      StringsReplayed(pf, Collections(t), c, now);
    } else if OnHashes(c.name) {
      HashesReplayed(t, c.args);
    } else if OnLists(c.name) {
      ListsReplayed(pf, t, c, now);
    } else if OnSets(c.name) || OnSortedSets(c.name) {
      SetsReplayed(pf, t, c, now);
    }
  }

  lemma ReplayStep(pf: FloatParser, cfg: C.Config, st: Shards, t: State, done: seq<Command>, v: Resp.Value,
                   clock: nat -> int)
    requires |st| == cfg.shards > 0
    ensures var longer, n := done + CommandOf(v), |done|;
            var st', t' := ReplayAllOnCache(cfg, st, done, clock), Aof.ReplayFrom(pf, t, done, clock);
            if IsCommand(v) then
              && ReplayAllOnCache(cfg, st, longer, clock) == ReplayOnCache(cfg, st', ParseCommand(v), clock(n))
              && Collections(Aof.ReplayFrom(pf, t, longer, clock))
                 == Collections(Replay(pf, Collections(t'), ParseCommand(v), clock(n)))
            else longer == done
  {
    var longer := done + CommandOf(v);
    if IsCommand(v) {
      assert longer[..|done|] == done;
      CollectionsAlone(pf, Aof.ReplayFrom(pf, t, done, clock), ParseCommand(v), clock(|done|));
    } else {
      assert longer == done;
    }
  }

  /** What Load promises comes to this.  The log of a durable run in which no Set opened an
      eviction guard, cut off anywhere and loaded into an empty cache of the same
      configuration, evicts nothing there and gives a cache that holds exactly the strings
      that the live one held at an earlier moment, and the same collections; an uncut log
      gives the final ones. */
  lemma LoadRestoresCache(pf: FloatParser, cfg: C.Config, reqs: seq<Aof.Request>, cut: bytes, clock: nat -> int)
    returns (m: nat)
    requires cfg.shards > 0 && Aof.IsRun(reqs) && Aof.AllDurable(pf, reqs) && Aof.AllGood(reqs)
    requires RunFits(cfg, reqs) && cut <= Aof.LogBytes(pf, reqs)
    ensures m <= |reqs| && Aof.LogBytes(pf, reqs[..m]) <= cut
    ensures m < |reqs| ==> |cut| < |Aof.LogBytes(pf, reqs[..m + 1])|
    ensures var cs, live := Aof.CommandsIn(Aof.Load(cut).values), Aof.LiveRun(pf, reqs[..m]);
            && ReplayFits(cfg, cs, clock)
            && Holds(cfg, ReplayAllOnCache(cfg, NoShards(cfg), cs, clock), live.strings)
            && Holds(cfg, CacheRun(cfg, reqs[..m]), live.strings)
            && Aof.SameContents(Collections(live), Collections(Aof.ReplayAll(pf, cs, clock)))
  {
    m := Aof.CrashRecovery(pf, reqs, cut, clock);
    var before := reqs[..m];
    assert Aof.AllDurable(pf, before);
    RunFitsBefore(cfg, reqs, m);
    ReplayRestoresCache(pf, cfg, before, clock);
  }
}
