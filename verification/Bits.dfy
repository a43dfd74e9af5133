/** How a key's hash selects a shard: `getShard` masks the hash with the shard count minus
    one, and `Validate` accepts only powers of two. */
module Bits {
  import opened Arithmetic

  /** The bitwise conjunction of two naturals. */
  function And(a: nat, b: nat): nat {
    if a == 0 || b == 0 then 0
    else (if a % 2 == 1 && b % 2 == 1 then 1 else 0) + 2 * And(a / 2, b / 2)
  }

  lemma {:induction false} AndIsBelow(a: nat, b: nat)
    ensures And(a, b) <= b && And(a, b) <= a
  {
    if a > 0 && b > 0 {
      AndIsBelow(a / 2, b / 2);
    }
  }

  lemma {:induction false} AndWithItself(a: nat)
    ensures And(a, a) == a
  {
    if a > 0 {
      AndWithItself(a / 2);
    }
  }

  lemma {:induction false} AndTwice(a: nat, b: nat)
    ensures And(And(a, b), b) == And(a, b)
  {
    if a > 0 && b > 0 {
      AndTwice(a / 2, b / 2);
      assert And(a, b) / 2 == And(a / 2, b / 2);
    }
  }

  predicate IsPowerOfTwo(n: nat) {
    n == 1 || (n > 1 && n % 2 == 0 && IsPowerOfTwo(n / 2))
  }

  /** The test `Validate` makes on the shard count is exactly "a power of two". */
  lemma {:induction false} ValidShardCount(n: nat)
    requires n > 0
    ensures And(n, n - 1) == 0 <==> IsPowerOfTwo(n)
  {
    if n > 1 {
      if n % 2 == 0 {
        ValidShardCount(n / 2);
      } else {
        AndWithItself(n / 2);
        assert (n - 1) / 2 == n / 2;
      }
    }
  }

  lemma ModuloHalves(h: nat, m: nat)
    requires m > 0
    ensures h % (2 * m) == h % 2 + 2 * ((h / 2) % m)
  {
    var q, r := (h / 2) / m, (h / 2) % m;
    DivisionSplits(h / 2, m);
    assert 2 * (m * q) == (2 * m) * q;
    RemainderIs(h, 2 * m, q, h % 2 + 2 * r);
  }

  /** For a power of two, the mask computes the remainder. */
  lemma {:induction false} MaskIsModulo(h: nat, n: nat)
    requires IsPowerOfTwo(n)
    ensures And(h, n - 1) == h % n
  {
    if n > 1 {
      var m := n / 2;
      MaskIsModulo(h / 2, m);
      ModuloHalves(h, m);
      assert (n - 1) / 2 == m - 1 && (n - 1) % 2 == 1;
      MaskStep(h, n - 1);
    }
  }

  lemma MaskStep(h: nat, mask: nat)
    requires mask % 2 == 1
    ensures And(h, mask) == h % 2 + 2 * And(h / 2, mask / 2)
  {
  }

  ghost predicate Selects(n: nat, h: nat, i: nat)
    requires n > 0
  {
    And(h, n - 1) == i
  }

  ghost predicate IsSelected(n: nat, i: nat)
    requires n > 0
  {
    exists h: nat :: Selects(n, h, i)
  }

  /** Every shard can be selected if and only if their number is a power of two; for any
      other number the mask leaves some shards without a single key. */
  lemma EveryShardIsUsed(n: nat)
    requires n > 0
    ensures (forall i: nat | i < n :: IsSelected(n, i)) <==> IsPowerOfTwo(n)
  {
    if IsPowerOfTwo(n) {
      forall i: nat | i < n ensures IsSelected(n, i) {
        MaskIsModulo(i, n);
        RemainderIs(i, n, 0, i);
        assert Selects(n, i, i);
      }
    }
    if forall i: nat | i < n :: IsSelected(n, i) {
      var mask: nat := n - 1;
      forall i: nat | i <= mask ensures Fits(i, mask) {
        assert IsSelected(n, i);
        var h: nat :| Selects(n, h, i);
        AndTwice(h, mask);
      }
      FullMask(mask);
    }
  }

  /** All the bits of `i` are bits of `mask`. */
  predicate Fits(i: nat, mask: nat) {
    And(i, mask) == i
  }

  lemma {:induction false} FullMask(m: nat)
    requires forall i: nat | i <= m :: Fits(i, m)
    ensures IsPowerOfTwo(m + 1)
  {
    if m > 0 {
      assert Fits(1, m);
      var half := m / 2;
      forall i: nat | i <= half ensures Fits(i, half) {
        assert Fits(2 * i, m);
      }
      FullMask(half);
      assert (m + 1) / 2 == half + 1;
    }
  }
}
