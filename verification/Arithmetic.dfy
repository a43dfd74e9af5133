/** Products and quotients, in steps small enough to be followed. */
module Arithmetic {

  lemma Distribute(a: nat, x: nat, y: nat)
    ensures a * (x + y) == a * x + a * y
  {
  }

  lemma Regroup(a: nat, b: nat, p: nat)
    ensures a * (b * p) == (a * b) * p
  {
  }

  lemma RemainderBound(a: nat, b: nat, t: nat, r: nat)
    requires t < b && r < a
    ensures a * t + r < a * b
  {
    MulMonotone(a, t + 1, b);
    Distribute(a, t, 1);
  }

  lemma DivisionSplits(n: nat, d: nat)
    requires d > 0
    ensures n == d * (n / d) + n % d && n % d < d
  {
  }

  lemma Combined(a: nat, b: nat, p: nat, t: nat, q: nat)
    requires q == b * p + t
    ensures a * q == (a * b) * p + a * t
  {
    Distribute(a, b * p, t);
    Regroup(a, b, p);
  }

  lemma DivideTwice(n: nat, a: nat, b: nat)
    requires a > 0 && b > 0 && a * b > 0
    ensures n / a / b == n / (a * b)
  {
    var q, r := n / a, n % a;
    DivisionSplits(n, a);
    NextDigit(n, a, b, q, r);
  }

  lemma NextDigit(n: nat, a: nat, b: nat, q: nat, r: nat)
    requires a > 0 && b > 0 && a * b > 0 && n == a * q + r && r < a
    ensures q / b == n / (a * b)
  {
    var p, t := q / b, q % b;
    DivisionSplits(q, b);
    Combined(a, b, p, t, q);
    RemainderBound(a, b, t, r);
    QuotientIs(n, a * b, p, a * t + r);
  }

  lemma {:induction false} MulMonotone(a: nat, x: nat, y: nat)
    requires x <= y
    ensures a * x <= a * y
    decreases y
  {
    if x < y {
      MulMonotone(a, x, y - 1);
      assert a * y == a * (y - 1) + a;
    }
  }

  lemma QuotientIs(n: nat, d: nat, q: nat, r: nat)
    requires d > 0 && n == d * q + r && r < d
    ensures n / d == q
  {
    var p := n / d;
    DivisionSplits(n, d);
    if p < q {
      MulMonotone(d, p + 1, q);
      Distribute(d, p, 1);
    } else if q < p {
      MulMonotone(d, q + 1, p);
      Distribute(d, q, 1);
    }
  }

  lemma RemainderIs(n: nat, d: nat, q: nat, r: nat)
    requires n == d * q + r && r < d
    ensures n % d == r
  {
    QuotientIs(n, d, q, r);
    DivisionSplits(n, d);
  }
}
