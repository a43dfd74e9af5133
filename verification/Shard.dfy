/** One shard's string keyspace (`internal/engine/shard.go`, `item.go`): an LRU whose items
    carry deadlines.  Every operation takes the time of the call. */
module Shard {
  import opened Bytes
  import opened Lru

  const SECOND: int := 1_000_000_000

  /** `NewItem`: a time to live that is not positive means no deadline. */
  function NewItem(value: bytes, ttl: int, now: int): Item {
    Item(value, if ttl > 0 then now + ttl else 0)
  }

  predicate IsExpired(item: Item, now: int) {
    item.expiration != 0 && now > item.expiration
  }

  /** `Item.TTL` in nanoseconds, -1 for none. */
  function TimeLeft(item: Item, now: int): int {
    if item.expiration == 0 then -1
    else if item.expiration - now < 0 then 0
    else item.expiration - now
  }

  const TWO53: int := 0x20_0000_0000_0000

  /** The largest power of two up to `n`. */
  function TopBit(n: nat): nat {
    if n < 2 then n else 2 * TopBit(n / 2)
  }

  /** `int64(d.Seconds())`: the seconds and the nanoseconds are added as float64, rounded to
      53 bits, and the sum is cut off.  The last nanoseconds before a whole second are lost
      to rounding when they are no more than half a unit in the last place, which is the top
      bit of the seconds over 2^53. */
  function WholeSeconds(d: nat): nat {
    var secs := d / SECOND;
    if (SECOND - d % SECOND) * TWO53 <= SECOND * TopBit(secs) then secs + 1 else secs
  }

  function Pow2(k: nat): nat {
    if k == 0 then 1 else 2 * Pow2(k - 1)
  }

  lemma {:induction false} TopBitIsBelow(n: nat, k: nat)
    requires n < 2 * Pow2(k)
    ensures TopBit(n) <= Pow2(k)
  {
    if n >= 2 && k > 0 {
      TopBitIsBelow(n / 2, k - 1);
    }
  }

  lemma Pow2Of24()
    ensures Pow2(23) == 0x80_0000 && Pow2(24) == 0x100_0000
  {
    assert Pow2(6) == 64;
    assert Pow2(12) == 4096;
    assert Pow2(18) == 0x4_0000;
  }

  /** Below 2^24 seconds, about 194 days, these are the whole seconds that are left. */
  lemma ShortTimesAreFloored(d: nat)
    requires d / 1_000_000_000 < 0x100_0000
    ensures WholeSeconds(d) == d / 1_000_000_000
  {
    Pow2Of24();
    TopBitIsBelow(d / SECOND, 23);
  }

  lemma {:induction false} TopBitExactly(n: nat, k: nat)
    requires Pow2(k) <= n < 2 * Pow2(k)
    ensures TopBit(n) == Pow2(k)
  {
    if k > 0 {
      TopBitExactly(n / 2, k - 1);
    } else {
      assert n == 1;
    }
  }

  /** When one second too many is reported, exactly: when no more nanoseconds are missing to
      the next whole second than half a unit in the last place of the seconds. */
  lemma RoundedUpExactly(d: nat, k: nat)
    requires Pow2(k) <= d / 1_000_000_000 < 2 * Pow2(k)
    ensures var missing := 1_000_000_000 - d % 1_000_000_000;
            WholeSeconds(d) == d / 1_000_000_000
                               + if missing * 0x20_0000_0000_0000 <= 1_000_000_000 * Pow2(k) then 1 else 0
  {
    TopBitExactly(d / 1_000_000_000, k);
  }

  /** At 2^24 seconds and a nanosecond short of one more, one second too many is reported;
      with two nanoseconds missing it is not. */
  lemma LongTimesMayBeRoundedUp()
    ensures WholeSeconds(0x100_0000 * 1_000_000_000 + 999_999_999) == 0x100_0001
    ensures WholeSeconds(0x100_0000 * 1_000_000_000 + 999_999_998) == 0x100_0000
  {
    Pow2Of24();
    RoundedUpExactly(0x100_0000 * 1_000_000_000 + 999_999_999, 24);
    RoundedUpExactly(0x100_0000 * 1_000_000_000 + 999_999_998, 24);
  }

  datatype Op =
    | Set(key: bytes, value: bytes, ttl: int)
    | Get(key: bytes)
    | Ttl(key: bytes)
    | Has(key: bytes)
    | Delete(key: bytes)
    | Cleanup

  datatype Reply = Done | Hit(value: bytes) | Miss | Answer(yes: bool) | Seconds(n: int)

  /** `GetItems` and `GetKeys` leave out what has expired; `CleanupExpired` removes it. */
  function Unexpired(es: seq<Entry>, now: int): seq<Entry> {
    if es == [] then []
    else if IsExpired(es[0].item, now) then Unexpired(es[1..], now)
    else [es[0]] + Unexpired(es[1..], now)
  }

  /** `keys` are the keys of the unexpired entries, each once, in some order. */
  ghost predicate Enumerates(keys: seq<bytes>, es: seq<Entry>, now: int) {
    && (forall i, j | 0 <= i < j < |keys| :: keys[i] != keys[j])
    && (forall k :: k in keys <==> Find(Unexpired(es, now), k).Some?)
  }

  /** A lookup moves the entry to the front, and drops it when it has expired. */
  function Look(es: seq<Entry>, key: bytes, now: int): seq<Entry> {
    match Find(es, key)
    case Some(item) => if IsExpired(item, now) then Without(es, key) else MoveToFront(es, key)
    case None => es
  }

  function Next(lim: Limits, es: seq<Entry>, op: Op, now: int): seq<Entry> {
    match op
    case Set(k, v, ttl) => Add(lim, es, Entry(k, NewItem(v, ttl, now)))
    case Get(k) => Look(es, k, now)
    case Ttl(k) => Look(es, k, now)
    case Has(_) => es
    case Delete(k) => Without(es, k)
    case Cleanup => Unexpired(es, now)
  }

  function Answers(es: seq<Entry>, op: Op, now: int): Reply {
    match op
    case Set(_, _, _) => Done
    case Get(k) => GetAnswer(Find(es, k), now)
    case Ttl(k) => TtlAnswer(Find(es, k), now)
    case Has(k) => Answer(Find(es, k).Some?)
    case Delete(k) => Answer(Find(es, k).Some?)
    case Cleanup => Done
  }

  function GetAnswer(found: Option<Item>, now: int): Reply {
    match found
    case Some(item) => if IsExpired(item, now) then Miss else Hit(item.value)
    case None => Miss
  }

  function TtlAnswer(found: Option<Item>, now: int): Reply {
    match found
    case Some(item) =>
      if IsExpired(item, now) then Seconds(-2)
      else if TimeLeft(item, now) < 0 then Seconds(-1)
      else Seconds(WholeSeconds(TimeLeft(item, now)))
    case None => Seconds(-2)
  }

  /** The seconds left of `left` nanoseconds: whole ones, or from 2^24 seconds on perhaps one
      more. */
  predicate SecondsOf(n: int, left: int) {
    && left / 1_000_000_000 <= n <= left / 1_000_000_000 + 1
    && (left < 0x100_0000 * 1_000_000_000 ==> n == left / 1_000_000_000)
  }

  /** What GET and TTL answer: a miss and -2 for a key that is not there or past its deadline,
      the value and -1 without a deadline, the value and the seconds left up to it. */
  lemma AnswersInNumbers(es: seq<Entry>, key: bytes, now: int)
    ensures var get, ttl := Answers(es, Get(key), now), Answers(es, Ttl(key), now);
            match Find(es, key)
            case None => get == Miss && ttl == Seconds(-2)
            case Some(Item(value, deadline)) =>
              if deadline == 0 then get == Hit(value) && ttl == Seconds(-1)
              else if now > deadline then get == Miss && ttl == Seconds(-2)
              else get == Hit(value) && ttl.Seconds? && SecondsOf(ttl.n, deadline - now)
  {
    if Find(es, key).Some? && !IsExpired(Find(es, key).value, now) && Find(es, key).value.expiration != 0 {
      SecondsAreRounded(Find(es, key).value.expiration - now);
    }
  }

  lemma SecondsAreRounded(left: nat)
    ensures SecondsOf(WholeSeconds(left), left)
  {
    if left / 1_000_000_000 < 0x100_0000 {
      ShortTimesAreFloored(left);
    }
  }

  // ---------- Every reachable state respects the limits ----------

  lemma {:induction false} UnexpiredMembers(es: seq<Entry>, now: int)
    ensures forall e :: e in Unexpired(es, now) <==> e in es && !IsExpired(e.item, now)
  {
    if es != [] {
      UnexpiredMembers(es[1..], now);
    }
  }

  lemma {:induction false} UnexpiredIsBounded(lim: Limits, es: seq<Entry>, now: int)
    requires Distinct(es)
    ensures Distinct(Unexpired(es, now))
    ensures |Unexpired(es, now)| <= |es| && Mem(Unexpired(es, now)) <= Mem(es)
    ensures Bounded(lim, es) ==> Bounded(lim, Unexpired(es, now))
  {
    if es != [] {
      UnexpiredIsBounded(lim, es[1..], now);
      UnexpiredMembers(es[1..], now);
      if !IsExpired(es[0].item, now) {
        DistinctInFront(es[0], Unexpired(es[1..], now));
        MemInFront(es[0], Unexpired(es[1..], now));
      }
    }
  }

  /** The keys in recency order. */
  function KeyList(es: seq<Entry>): seq<bytes> {
    seq(|es|, i requires 0 <= i < |es| => es[i].key)
  }

  lemma RecencyOrderEnumerates(es: seq<Entry>, now: int)
    requires Distinct(es)
    ensures Enumerates(KeyList(Unexpired(es, now)), es, now)
  {
    var live := Unexpired(es, now);
    UnexpiredIsBounded(UNLIMITED, es, now);
    forall k ensures k in KeyList(live) <==> Find(live, k).Some? {
      FindIff(live, k);
      assert forall i | 0 <= i < |live| :: KeyList(live)[i] == live[i].key;
      if k in Keys(live) {
        var i :| 0 <= i < |live| && live[i].key == k;
        assert KeyList(live)[i] == k;
      }
    }
  }

  /** What every operation keeps: distinct keys, at most `capacity` of them, and at most
      `maxMemory` bytes unless a single oversized item is all there is. */
  lemma NextIsBounded(lim: Limits, es: seq<Entry>, op: Op, now: int)
    requires Bounded(lim, es)
    ensures Bounded(lim, Next(lim, es, op, now))
  {
    match op
    case Set(k, v, ttl) => AddIsBounded(lim, es, Entry(k, NewItem(v, ttl, now)));
    case Get(k) => LookIsBounded(lim, es, k, now);
    case Ttl(k) => LookIsBounded(lim, es, k, now);
    case Has(_) =>
    case Delete(k) => RemoveIsBounded(lim, es, k);
    case Cleanup => UnexpiredIsBounded(lim, es, now);
  }

  lemma LookIsBounded(lim: Limits, es: seq<Entry>, key: bytes, now: int)
    requires Bounded(lim, es)
    ensures Bounded(lim, Look(es, key, now))
  {
    RemoveIsBounded(lim, es, key);
    MoveToFrontIsBounded(lim, es, key);
  }

  lemma {:induction false} FindUnexpired(es: seq<Entry>, now: int, k: bytes)
    requires Distinct(es)
    ensures Find(Unexpired(es, now), k)
            == match Find(es, k)
               case Some(item) => if IsExpired(item, now) then None else Some(item)
               case None => None
  {
    if es != [] {
      FindUnexpired(es[1..], now, k);
      FindInFront(es[0], Unexpired(es[1..], now), k);
      FindIff(es[1..], k);
      UnexpiredMembers(es[1..], now);
    }
  }

  /** How one operation changes what a lookup of `k` finds. */
  lemma NextFinds(lim: Limits, es: seq<Entry>, op: Op, now: int, k: bytes)
    requires Distinct(es)
    ensures var before, after := Find(es, k), Find(Next(lim, es, op, now), k);
            match op
            case Set(key, v, ttl) =>
              if k == key then after == Some(NewItem(v, ttl, now))
              else (after.Some? ==> after == before)
                   && (EvictsNothing(lim, es, Entry(key, NewItem(v, ttl, now))) ==> after == before)
            case Delete(key) => after == if k == key then None else before
            case Has(_) => after == before
            case _ => after == before || (after.None? && before.Some? && IsExpired(before.value, now))
  {
    match op
    case Set(key, v, ttl) =>
      var e := Entry(key, NewItem(v, ttl, now));
      if k == key {
        AddFinds(lim, es, e);
      } else {
        AddFindsOthers(lim, es, e, k);
      }
    case Get(key) => LookFinds(es, key, now, k);
    case Ttl(key) => LookFinds(es, key, now, k);
    case Has(_) =>
    case Delete(key) => FindWithout(es, key, k);
    case Cleanup => FindUnexpired(es, now, k);
  }

  lemma LookFinds(es: seq<Entry>, key: bytes, now: int, k: bytes)
    ensures Find(Look(es, key, now), k)
            == if k == key && Find(es, k).Some? && IsExpired(Find(es, k).value, now) then None
               else Find(es, k)
  {
    FindWithout(es, key, k);
    if Find(es, key).Some? {
      FindInFront(Entry(key, Find(es, key).value), Without(es, key), k);
    }
  }
}
