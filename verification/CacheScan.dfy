/** SCAN on the states the cache reaches: what module `Scan` takes as given about the keys
    holds of every one of them. */
module CacheScan {
  import opened Bytes
  import opened Lru
  import opened Pattern
  import opened Scan
  import S = Shard
  import C = Cache

  lemma EnumeratedAlike(a: seq<bytes>, b: seq<bytes>, es: seq<Entry>, now: int)
    requires S.Enumerates(a, es, now) && S.Enumerates(b, es, now)
    ensures multiset(a) == multiset(b)
  {
    forall k ensures multiset(a)[k] == multiset(b)[k] {
      OnceOrNever(a, k);
      OnceOrNever(b, k);
    }
  }

  lemma {:induction false} OnceOrNever(keys: seq<bytes>, k: bytes)
    requires forall i, j | 0 <= i < j < |keys| :: keys[i] != keys[j]
    ensures multiset(keys)[k] == if k in keys then 1 else 0
  {
    if keys != [] {
      OnceOrNever(keys[1..], k);
      assert keys == [keys[0]] + keys[1..];
      assert multiset(keys) == multiset{keys[0]} + multiset(keys[1..]);
    }
  }

  /** Any two orders in which a cache shows its keys are shuffles of each other. */
  lemma ShownAlike(st: seq<seq<Entry>>, a: seq<seq<bytes>>, b: seq<seq<bytes>>, now: int)
    requires C.Shows(a, st, now) && C.Shows(b, st, now)
    ensures Shuffles(a, b)
  {
    forall i | 0 <= i < |a| ensures multiset(b[i]) == multiset(a[i]) {
      EnumeratedAlike(b[i], a[i], st[i], now);
    }
  }

  /** No key shows in two places. */
  lemma ShownIsDistinct(cfg: C.Config, st: seq<seq<Entry>>, order: seq<seq<bytes>>, now: int)
    requires |st| == cfg.shards > 0 && C.WellPlaced(cfg, st) && C.Shows(order, st, now)
    ensures AllDistinct(order)
  {
    forall i, j | 0 <= i < |order| && 0 <= j < |order[i]| ensures C.Index(cfg, order[i][j]) == i {
      var k := order[i][j];
      assert k in order[i];
      S.FindUnexpired(st[i], now, k);
      FindIff(st[i], k);
    }
  }

  /** The n-th call sees the keys in the order `orders(n)`. */
  ghost predicate AllShow(st: seq<seq<Entry>>, orders: nat -> seq<seq<bytes>>, now: int) {
    forall n: nat :: C.Shows(orders(n), st, now)
  }

  lemma ShownIsShuffled(st: seq<seq<Entry>>, base: seq<seq<bytes>>, orders: nat -> seq<seq<bytes>>, now: int)
    requires C.Shows(base, st, now)
    ensures AllShow(st, orders, now) <==> AllShuffle(base, orders)
  {
    if AllShow(st, orders, now) {
      forall n: nat ensures Shuffles(base, orders(n)) {
        ShownAlike(st, base, orders(n), now);
      }
    }
    if AllShuffle(base, orders) {
      forall n: nat ensures C.Shows(orders(n), st, now) {
        ShuffledShows(st, base, orders(n), now);
      }
    }
  }

  lemma ShuffledShows(st: seq<seq<Entry>>, base: seq<seq<bytes>>, order: seq<seq<bytes>>, now: int)
    requires C.Shows(base, st, now) && Shuffles(base, order)
    ensures C.Shows(order, st, now)
  {
    forall i | 0 <= i < |st| ensures S.Enumerates(order[i], st[i], now) {
      assert S.Enumerates(base[i], st[i], now) && multiset(order[i]) == multiset(base[i]);
      forall k ensures k in order[i] <==> k in base[i] {
        SameMembers(order[i], base[i], k);
      }
      NoRepeats(base[i], order[i]);
    }
  }

  lemma NoRepeats(a: seq<bytes>, b: seq<bytes>)
    requires multiset(a) == multiset(b) && forall i, j | 0 <= i < j < |a| :: a[i] != a[j]
    ensures forall i, j | 0 <= i < j < |b| :: b[i] != b[j]
  {
    forall i, j | 0 <= i < j < |b| ensures b[i] != b[j] {
      OnceOrNever(a, b[j]);
      assert b == b[..j] + [b[j]] + b[j + 1..];
      assert multiset(b) == multiset(b[..j]) + multiset{b[j]} + multiset(b[j + 1..]);
      assert b[j] !in multiset(b[..j]);
      assert b[..j][i] == b[i] && b[i] in b[..j];
    }
  }

  lemma ShownCount(keys: seq<bytes>, es: seq<Entry>, now: int)
    requires Distinct(es) && S.Enumerates(keys, es, now)
    ensures |keys| == |S.Unexpired(es, now)|
  {
    var listed := S.KeyList(S.Unexpired(es, now));
    S.RecencyOrderEnumerates(es, now);
    EnumeratedAlike(keys, listed, es, now);
    SameMembers(keys, listed, []);
  }

  /** SCAN on any reachable state of the cache, with `base` any order in which the cache may
      show its keys at time `now`.  If every call may see an order of its own, iterations
      are complete for all patterns and COUNTs if and only if no shard holds more than one
      unexpired item; if all calls see this order, if and only if none holds more than
      10000. */
  lemma CacheScanDomain(cfg: C.Config, evs: seq<C.Event>, base: seq<seq<bytes>>, now: int)
    requires cfg.shards > 0 && C.Shows(base, C.After(cfg, evs), now)
    ensures var st := C.After(cfg, evs);
            && (forall orders :: AllShow(st, orders, now) <==> AllShuffle(base, orders))
            && (AlwaysComplete(base) <==> forall i | 0 <= i < |st| :: |S.Unexpired(st[i], now)| <= 1)
            && ((forall pattern: bytes, count: int | count >= 1 :: Complete(base, pattern, count))
                <==> forall i | 0 <= i < |st| :: |S.Unexpired(st[i], now)| <= 10000)
  {
    var st := C.After(cfg, evs);
    C.AfterIsWellPlaced(cfg, evs);
    forall orders ensures AllShow(st, orders, now) <==> AllShuffle(base, orders) {
      ShownIsShuffled(st, base, orders, now);
    }
    forall i | 0 <= i < |st| ensures |base[i]| == |S.Unexpired(st[i], now)| {
      ShownCount(base[i], st[i], now);
    }
    ShownIsDistinct(cfg, st, base, now);
    ShuffledScanDomain(base);
    ScanDomain(base);
  }
}
