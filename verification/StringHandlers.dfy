/** The string handlers of `internal/handler/string.go` and `batch.go` in their own form:
    step by step on the sharded cache, then the log. */
module StringHandlers {
  import opened Bytes
  import opened Lru
  import opened Commands
  import opened Store
  import opened Strings
  import S = Shard
  import C = ShardCache
  import Resp
  import Handlers

  class StringHandler {
    const cache: C.Cache
    var log: bytes

    ghost predicate Valid()
      reads this, cache, cache.Repr
    {
      cache.Valid() && this !in cache.Repr
    }

    /** What the handlers have done so far: the cache is at `e.shards`, and so on. */
    ghost predicate Did(e: Effect, reply: Reply, c: Command, oldLog: bytes)
      requires IsWrite(c.name)
      reads this, cache
    {
      && cache.state == e.shards && reply == e.reply
      && log == oldLog + if e.logged then Resp.Encode(LogEntry(c)) else []
    }

    constructor (cache: C.Cache)
      requires cache.Valid()
      ensures Valid() && this.cache == cache && log == []
    {
      this.cache := cache;
      log := [];
    }

    method LogCommand(c: Command)
      requires IsWrite(c.name)
      modifies `log
      ensures log == old(log) + Resp.Encode(LogEntry(c))
    {
      var entry := Handlers.FormatEntry(c);
      log := log + entry;
    }

    method Set(args: seq<bytes>, now: int) returns (r: Reply)
      requires Valid()
      modifies this, cache.Repr
      ensures Valid() && fresh(cache.Repr - old(cache.Repr))
      ensures Did(OnCache(cache.cfg, old(cache.state), Command(SET, args), now), r, Command(SET, args), old(log))
    {
      if |args| < 2 {
        return WrongArguments;
      }
      var ttl := 0;
      if |args| >= 4 {
        var n := ParseInt(args[3]);
        if ToUpper(args[2]) == EX {
          if n.Some? {
            ttl := Wrap64(n.value * 1_000_000_000);
          }
        } else if ToUpper(args[2]) == PX {
          if n.Some? {
            ttl := Wrap64(n.value * 1_000_000);
          }
        }
      }
      cache.Set(args[0], args[1], ttl, now);
      LogCommand(Command(SET, args));
      r := OK;
    }

    method Delete(args: seq<bytes>, now: int) returns (r: Reply)
      requires Valid()
      modifies this, cache.Repr
      ensures Valid() && fresh(cache.Repr - old(cache.Repr))
      ensures Did(OnCache(cache.cfg, old(cache.state), Command(DEL, args), now), r, Command(DEL, args), old(log))
    {
      if |args| < 1 {
        return WrongArguments;
      }
      var count := DeleteKeys(args);
      LogCommand(Command(DEL, args));
      r := Int(count);
    }

    /** The counting loop of DEL. */
    method DeleteKeys(keys: seq<bytes>) returns (count: nat)
      requires Valid()
      modifies cache.Repr
      ensures Valid() && fresh(cache.Repr - old(cache.Repr)) && log == old(log)
      ensures cache.state == DeleteAll(cache.cfg, old(cache.state), keys)
      ensures count == CountHeld(cache.cfg, old(cache.state), keys)
    {
      count := 0;
      var i := 0;
      ghost var st := cache.state;
      while i < |keys|
        invariant 0 <= i <= |keys| && Valid() && fresh(cache.Repr - old(cache.Repr)) && log == old(log)
        invariant cache.state == DeleteAll(cache.cfg, st, keys[..i])
        invariant count == CountHeld(cache.cfg, st, keys[..i])
      {
        DeleteOneMore(cache.cfg, st, keys, i);
        var deleted := DeleteKey(keys[i]);
        if deleted {
          count := count + 1;
        }
        i := i + 1;
      }
      assert keys[..i] == keys;
    }

    method DeleteKey(key: bytes) returns (deleted: bool)
      requires Valid()
      modifies cache.Repr
      ensures Valid() && fresh(cache.Repr - old(cache.Repr)) && log == old(log)
      ensures cache.state == Apply(cache.cfg, old(cache.state), S.Delete(key), 0)
      ensures deleted <==> Held(cache.cfg, old(cache.state), key).Some?
    {
      deleted := cache.Delete(key);
    }

    method MSet(args: seq<bytes>, now: int) returns (r: Reply)
      requires Valid()
      modifies this, cache.Repr
      ensures Valid() && fresh(cache.Repr - old(cache.Repr))
      ensures Did(OnCache(cache.cfg, old(cache.state), Command(MSET, args), now), r, Command(MSET, args), old(log))
    {
      if |args| < 2 {
        return WrongArguments;
      }
      if |args| % 2 != 0 {
        return WrongArguments;
      }
      SetKeys(args, now);
      LogCommand(Command(MSET, args));
      r := OK;
    }

    /** The step-by-two loop of MSET and MSETNX. */
    method SetKeys(args: seq<bytes>, now: int)
      requires Valid() && |args| % 2 == 0
      modifies cache.Repr
      ensures Valid() && fresh(cache.Repr - old(cache.Repr)) && log == old(log)
      ensures cache.state == SetAll(cache.cfg, old(cache.state), args, now)
    {
      var i := 0;
      while i < |args|
        invariant 0 <= i <= |args| && i % 2 == 0
        invariant Valid() && fresh(cache.Repr - old(cache.Repr)) && log == old(log)
        invariant SetAll(cache.cfg, cache.state, args[i..], now) == SetAll(cache.cfg, old(cache.state), args, now)
      {
        SetAllStep(cache.cfg, cache.state, args, i, now);
        cache.Set(args[i], args[i + 1], 0, now);
        i := i + 2;
      }
    }

    method MSetNX(args: seq<bytes>, now: int) returns (r: Reply)
      requires Valid()
      modifies this, cache.Repr
      ensures Valid() && fresh(cache.Repr - old(cache.Repr))
      ensures Did(OnCache(cache.cfg, old(cache.state), Command(MSETNX, args), now), r, Command(MSETNX, args), old(log))
    {
      if |args| < 2 {
        return WrongArguments;
      }
      if |args| % 2 != 0 {
        return WrongArguments;
      }
      var exist := AnyExists(args);
      if exist {
        return Int(0);
      }
      SetKeys(args, now);
      LogCommand(Command(MSETNX, args));
      r := Int(1);
    }

    /** The existence test of MSETNX. */
    method AnyExists(args: seq<bytes>) returns (r: bool)
      requires Valid() && |args| % 2 == 0
      ensures r <==> AnyHeld(cache.cfg, cache.state, args)
    {
      var i := 0;
      while i < |args|
        invariant 0 <= i <= |args| && i % 2 == 0 && Valid()
        invariant forall k :: k in Evens(args) <==> k in Evens(args[..i]) || k in Evens(args[i..])
        invariant forall k | k in Evens(args[..i]) :: Held(cache.cfg, cache.state, k).None?
      {
        assert args[i..][2..] == args[i + 2..];
        Handlers.EvensOfPair(args, i);
        var exists' := cache.HasKey(args[i]);
        if exists' {
          assert args[i] in Evens(args[i..]);
          return true;
        }
        i := i + 2;
      }
      return false;
    }

    method Append(args: seq<bytes>, now: int) returns (r: Reply)
      requires Valid()
      modifies this, cache.Repr
      ensures Valid() && fresh(cache.Repr - old(cache.Repr))
      ensures Did(OnCache(cache.cfg, old(cache.state), Command(APPEND, args), now), r, Command(APPEND, args), old(log))
    {
      if |args| < 2 {
        return WrongArguments;
      }
      var key, newVal := args[0], args[1];
      var found := cache.Get(key, now);
      if found.Hit? {
        newVal := found.value + args[1];
      }
      cache.Set(key, newVal, 0, now);
      LogCommand(Command(APPEND, args));
      r := Int(|newVal|);
    }

    /** The cases of `replayCommand` for strings. */
    method ReplayString(c: Command, now: int)
      requires Valid() && OnStrings(c.name)
      modifies cache.Repr
      ensures Valid() && fresh(cache.Repr - old(cache.Repr)) && log == old(log)
      ensures cache.state == ReplayOnCache(cache.cfg, old(cache.state), c, now)
    {
      var args := c.args;
      match c.name {
        case SET =>
          if |args| < 2 {
            return;
          }
          var ttl := 0;
          if |args| >= 4 && ToUpper(args[2]) == EX {
            var secs := ParseInt(args[3]);
            if secs.Some? {
              ttl := Wrap64(secs.value * 1_000_000_000);
            }
          }
          cache.Set(args[0], args[1], ttl, now);
        case DEL =>
          if |args| < 1 {
            return;
          }
          var _ := DeleteKeys(args);
        case MSET =>
          if |args| < 2 || |args| % 2 != 0 {
            return;
          }
          SetKeys(args, now);
        case MSETNX =>
          if |args| < 2 || |args| % 2 != 0 {
            return;
          }
          var exist := AnyExists(args);
          if !exist {
            SetKeys(args, now);
          }
        case APPEND =>
      }
    }
  }
}
