/** Deadlines in numbers: until when a value that SET stores is found, what TTL says of it
    meanwhile, and what replay makes of the same command. */
module Deadlines {
  import opened Bytes
  import opened Lru
  import opened Commands
  import opened Store
  import opened Strings
  import S = Shard
  import C = Cache

  lemma OptionNames(b: bytes)
    ensures ToUpper(b) == EX <==> Spells(b, "EX")
    ensures ToUpper(b) == PX <==> Spells(b, "PX")
    ensures !(Spells(b, "EX") && Spells(b, "PX"))
  {
    UpperSpells(b, "EX");
    UpperSpells(b, "PX");
    assert Ascii("EX") == [69, 88] && Ascii("PX") == [80, 88];
  }

  // ---------- What SET stores ----------

  /** The moment that lies `ttl` nanoseconds ahead, computed in 64 bits; 0, which is no
      deadline, when that many are not positive. */
  function Ahead(now: int, ttl: int): int {
    if Wrap64(ttl) > 0 then now + Wrap64(ttl) else 0
  }

  /** The deadline that arguments of SET ask for: seconds behind EX, milliseconds behind PX;
      none when the option or the number cannot be read. */
  function Asked(args: seq<bytes>, now: int): int {
    if |args| < 4 || ParseInt(args[3]).None? then 0
    else if Spells(args[2], "EX") then Ahead(now, ParseInt(args[3]).value * 1_000_000_000)
    else if Spells(args[2], "PX") then Ahead(now, ParseInt(args[3]).value * 1_000_000)
    else 0
  }

  lemma SetStoresDeadline(pf: FloatParser, s: State, args: seq<bytes>, now: int)
    requires |args| >= 2
    ensures Live(pf, s, Command(SET, args), now).state
            == s.(strings := s.strings[args[0] := Item(args[1], Asked(args, now))])
  {
    if |args| >= 4 {
      OptionNames(args[2]);
    }
  }

  /** A number of units that stays within 64 bits. */
  predicate Fits(n: int, unit: int) {
    0 < n && n * unit <= 0x7FFF_FFFF_FFFF_FFFF
  }

  /** SET with PX, or with EX, and a positive number, in any case of the option, followed by
      whatever. */
  lemma AskedInNumbers(k: bytes, v: bytes, opt: bytes, n: int, more: seq<bytes>, now: int)
    ensures var args := [k, v, opt, FormatInt(n)] + more;
            && (Spells(opt, "PX") && Fits(n, 1_000_000) ==> Asked(args, now) == now + n * 1_000_000)
            && (Spells(opt, "EX") && Fits(n, 1_000_000_000) ==> Asked(args, now) == now + n * 1_000_000_000)
  {
    var args := [k, v, opt, FormatInt(n)] + more;
    assert args[2] == opt && args[3] == FormatInt(n);
    OptionNames(opt);
    if Fits(n, 1_000_000) || Fits(n, 1_000_000_000) {
      ParseIntRoundTrip(n);
    }
  }

  lemma SetPX(pf: FloatParser, s: State, k: bytes, v: bytes, opt: bytes, ms: int, more: seq<bytes>, now: int)
    requires Spells(opt, "PX") && 0 < ms && ms * 1_000_000 <= 0x7FFF_FFFF_FFFF_FFFF
    ensures Live(pf, s, Command(SET, [k, v, opt, FormatInt(ms)] + more), now).state.strings
            == s.strings[k := Item(v, now + ms * 1_000_000)]
  {
    AskedInNumbers(k, v, opt, ms, more, now);
    SetStoresDeadline(pf, s, [k, v, opt, FormatInt(ms)] + more, now);
  }

  lemma SetEX(pf: FloatParser, s: State, k: bytes, v: bytes, opt: bytes, secs: int, more: seq<bytes>, now: int)
    requires Spells(opt, "EX") && 0 < secs && secs * 1_000_000_000 <= 0x7FFF_FFFF_FFFF_FFFF
    ensures Live(pf, s, Command(SET, [k, v, opt, FormatInt(secs)] + more), now).state.strings
            == s.strings[k := Item(v, now + secs * 1_000_000_000)]
  {
    AskedInNumbers(k, v, opt, secs, more, now);
    SetStoresDeadline(pf, s, [k, v, opt, FormatInt(secs)] + more, now);
  }

  /** A number of seconds that is a multiple of 2^55 wraps around to a time to live of 0: the
      value never expires. */
  lemma HugeTimesWrap(pf: FloatParser, s: State, k: bytes, v: bytes, opt: bytes, times: int, now: int)
    requires Spells(opt, "EX") && -0x100 <= times < 0x100
    ensures Live(pf, s, Command(SET, [k, v, opt, FormatInt(times * 0x80_0000_0000_0000)]), now).state.strings
            == s.strings[k := Item(v, 0)]
  {
    var secs := times * 0x80_0000_0000_0000;
    var args := [k, v, opt, FormatInt(secs)];
    ParseIntRoundTrip(secs);
    WrapsToZero(secs * 1_000_000_000, times * 1_953_125);
    SetStoresDeadline(pf, s, args, now);
  }

  lemma WrapsToZero(i: int, times: int)
    requires i == times * 0x1_0000_0000_0000_0000
    ensures Wrap64(i) == 0
  {
  }

  // ---------- Replay ----------

  /** Replay of EX counts from its own clock; replay of PX stores the value for good. */
  lemma ReplayStoresDeadline(pf: FloatParser, s: State, k: bytes, v: bytes, opt: bytes, n: int, more: seq<bytes>, later: int)
    requires Fits(n, 1_000_000_000)
    ensures var t := Replay(pf, s, Command(SET, [k, v, opt, FormatInt(n)] + more), later);
            && (Spells(opt, "EX") ==> t == s.(strings := s.strings[k := Item(v, later + n * 1_000_000_000)]))
            && (!Spells(opt, "EX") ==> t == s.(strings := s.strings[k := Item(v, 0)]))
  {
    var args := [k, v, opt, FormatInt(n)] + more;
    assert args[0] == k && args[1] == v && args[2] == opt && args[3] == FormatInt(n);
    OptionNames(opt);
    ParseIntRoundTrip(n);
  }

  // ---------- On the cache ----------

  /** Under any limits, the handler of SET makes one call: a Set that leaves the value with
      the deadline asked for. */
  lemma SetOnCache(cfg: C.Config, st: Shards, args: seq<bytes>, now: int)
    requires |st| == cfg.shards > 0 && C.WellPlaced(cfg, st) && |args| >= 2
    ensures var st' := OnCache(cfg, st, Command(SET, args), now).shards;
            Held(cfg, st', args[0]) == Some(Item(args[1], Asked(args, now)))
  {
    var k := args[0];
    var es := st[C.Index(cfg, k)];
    S.NextFinds(cfg.limits, es, S.Set(k, args[1], LiveTtl(args)), now, k);
    if |args| >= 4 {
      OptionNames(args[2]);
    }
  }

  lemma ReplayOnTheCache(cfg: C.Config, st: Shards, k: bytes, v: bytes, opt: bytes, n: int, more: seq<bytes>, later: int)
    requires |st| == cfg.shards > 0 && C.WellPlaced(cfg, st) && Fits(n, 1_000_000_000)
    ensures var st' := ReplayOnCache(cfg, st, Command(SET, [k, v, opt, FormatInt(n)] + more), later);
            Held(cfg, st', k) == Some(Item(v, if Spells(opt, "EX") then later + n * 1_000_000_000 else 0))
  {
    var args := [k, v, opt, FormatInt(n)] + more;
    assert args[0] == k && args[1] == v && args[2] == opt && args[3] == FormatInt(n);
    OptionNames(opt);
    ParseIntRoundTrip(n);
    S.NextFinds(cfg.limits, st[C.Index(cfg, k)], S.Set(k, v, ReplayTtl(args)), later, k);
  }

  // ---------- Reads over runs ----------

  lemma {:induction false} LastWriteIs(evs: seq<C.Event>, i: nat, key: bytes)
    requires i < |evs| && C.WritesAt(evs, i, key) && C.UnwrittenSince(evs, i, key)
    ensures C.LastWrite(evs, key) == if evs[i].op.Set? then Some(S.NewItem(evs[i].op.value, evs[i].op.ttl, evs[i].now))
                                     else None
  {
    var n := |evs| - 1;
    if i < n {
      C.UnwrittenOneMore(evs, i, key);
      assert C.WritesAt(evs[..n], i, key);
      LastWriteIs(evs[..n], i, key);
    }
  }

  lemma {:induction false} NeverWritten(evs: seq<C.Event>, key: bytes)
    requires forall i | 0 <= i < |evs| :: !C.WritesAt(evs, i, key)
    ensures C.LastWrite(evs, key) == None
  {
    if evs != [] {
      var n := |evs| - 1;
      assert forall i | 0 <= i < n :: C.WritesAt(evs[..n], i, key) == C.WritesAt(evs, i, key);
      NeverWritten(evs[..n], key);
      assert !C.WritesAt(evs, n, key);
    }
  }

  /** No deadline, or one that is not past. */
  predicate Alive(deadline: int, now: int) {
    deadline == 0 || now <= deadline
  }

  /** A read of a key after any run: the value of the last Set up to its deadline and not
      past it, unless another Set has evicted it, as none does while all values fit. */
  lemma ReadUntilDeadline(cfg: C.Config, evs: seq<C.Event>, i: nat, key: bytes, now: int)
    requires cfg.shards > 0 && C.InOrder(evs) && i < |evs| && evs[|evs| - 1].now <= now
    requires evs[i].op.Set? && evs[i].op.key == key && C.UnwrittenSince(evs, i, key)
    ensures var ttl := evs[i].op.ttl;
            var deadline := if ttl > 0 then evs[i].now + ttl else 0;
            var get, left := C.ReadAfter(cfg, evs, key, now), C.TtlAfter(cfg, evs, key, now);
            if Alive(deadline, now) && !C.Evicted(cfg, evs, key) then
              && get == S.Hit(evs[i].op.value)
              && left.Seconds? && if deadline == 0 then left.n == -1 else S.SecondsOf(left.n, deadline - now)
            else get == S.Miss && left == S.Seconds(-2)
    ensures C.Roomy(cfg, evs) ==> !C.Evicted(cfg, evs, key)
  {
    assert C.WritesAt(evs, i, key);
    LastWriteIs(evs, i, key);
    FoundExactly(cfg, evs, key, now);
    S.AnswersInNumbers(C.After(cfg, evs)[C.Index(cfg, key)], key, now);
    if C.Roomy(cfg, evs) {
      C.RoomyEvictsNothing(cfg, evs, key);
    }
  }

  /** What the cache holds of a value whose time is not up. */
  lemma FoundExactly(cfg: C.Config, evs: seq<C.Event>, key: bytes, now: int)
    requires cfg.shards > 0 && C.InOrder(evs) && evs != [] && evs[|evs| - 1].now <= now
    ensures var found, last := C.FindAfter(cfg, evs, key), C.LastWrite(evs, key);
            && (found.Some? ==> found == last)
            && (last.Some? && Alive(last.value.expiration, now) ==> (found.None? <==> C.Evicted(cfg, evs, key)))
            && (C.Evicted(cfg, evs, key) ==> found.None?)
  {
    C.FoundWasWritten(cfg, evs, key);
    C.MissingIsExpiredOrEvicted(cfg, evs, key);
    if C.Evicted(cfg, evs, key) {
      C.EvictedIsMissing(cfg, evs, key);
    }
  }

  /** A key never set, or deleted and not set since, is a miss, and its time left is -2. */
  lemma ReadOfNothing(cfg: C.Config, evs: seq<C.Event>, key: bytes, now: int)
    requires cfg.shards > 0
    requires (forall i | 0 <= i < |evs| :: !C.WritesAt(evs, i, key))
             || exists i: nat | i < |evs| :: C.WritesAt(evs, i, key) && evs[i].op.Delete? && C.UnwrittenSince(evs, i, key)
    ensures C.ReadAfter(cfg, evs, key, now) == S.Miss && C.TtlAfter(cfg, evs, key, now) == S.Seconds(-2)
  {
    if forall i | 0 <= i < |evs| :: !C.WritesAt(evs, i, key) {
      NeverWritten(evs, key);
    } else {
      var i: nat :| i < |evs| && C.WritesAt(evs, i, key) && evs[i].op.Delete? && C.UnwrittenSince(evs, i, key);
      LastWriteIs(evs, i, key);
    }
    C.FoundWasWritten(cfg, evs, key);
    S.AnswersInNumbers(C.After(cfg, evs)[C.Index(cfg, key)], key, now);
  }

  // ---------- From the command to the read ----------

  /** The nanoseconds of one unit of the option, PX or EX. */
  predicate Unit(opt: bytes, unit: int) {
    (Spells(opt, "PX") && unit == 1_000_000) || (Spells(opt, "EX") && unit == 1_000_000_000)
  }

  lemma UnitsOf(args: seq<bytes>, n: int, unit: int)
    requires |args| >= 4 && Unit(args[2], unit) && Fits(n, unit) && args[3] == FormatInt(n)
    ensures LiveTtl(args) == n * unit
  {
    OptionNames(args[2]);
    ParseIntRoundTrip(n);
  }

  /** After any calls, the handler of such a SET makes one Set with that many units. */
  lemma SetIsOneCall(cfg: C.Config, evs: seq<C.Event>, k: bytes, v: bytes, opt: bytes, n: int, unit: int,
                     more: seq<bytes>, now: int)
    requires cfg.shards > 0 && Unit(opt, unit) && Fits(n, unit)
    ensures OnCache(cfg, C.After(cfg, evs), Command(SET, [k, v, opt, FormatInt(n)] + more), now).shards
            == C.After(cfg, evs + [C.Event(S.Set(k, v, n * unit), now, 0)])
  {
    var args, ev := [k, v, opt, FormatInt(n)] + more, C.Event(S.Set(k, v, n * unit), now, 0);
    assert args[0] == k && args[1] == v && args[2] == opt && args[3] == FormatInt(n);
    UnitsOf(args, n, unit);
    assert (evs + [ev])[..|evs|] == evs;
  }

  /** SET with PX or EX, in any run of calls from an empty cache in which it is not set or
      deleted again: a GET hits up to `now + n` units and misses after that, unless the value
      has been evicted, which it is not while all values fit. */
  lemma SetThenGet(cfg: C.Config, before: seq<C.Event>, after: seq<C.Event>, k: bytes, v: bytes, opt: bytes, n: int,
                   unit: int, more: seq<bytes>, now: int, t: int)
    requires cfg.shards > 0 && Unit(opt, unit) && Fits(n, unit) && now >= 0
    requires forall ev | ev in after :: !C.Writes(ev.op, k)
    requires var evs := before + [C.Event(S.Set(k, v, n * unit), now, 0)] + after;
             C.InOrder(evs) && evs[|evs| - 1].now <= t
    ensures var set1 := before + [C.Event(S.Set(k, v, n * unit), now, 0)];
            var evs := set1 + after;
            && OnCache(cfg, C.After(cfg, before), Command(SET, [k, v, opt, FormatInt(n)] + more), now).shards
               == C.After(cfg, set1)
            && C.ReadAfter(cfg, evs, k, t)
               == (if t <= now + n * unit && !C.Evicted(cfg, evs, k) then S.Hit(v) else S.Miss)
            && (C.Roomy(cfg, evs) ==> !C.Evicted(cfg, evs, k))
  {
    var evs := before + [C.Event(S.Set(k, v, n * unit), now, 0)] + after;
    SetIsOneCall(cfg, before, k, v, opt, n, unit, more, now);
    forall j | |before| < j < |evs| ensures !C.WritesAt(evs, j, k) {
      assert evs[j] in after;
    }
    assert n * unit > 0;
    ReadUntilDeadline(cfg, evs, |before|, k, t);
  }
}
