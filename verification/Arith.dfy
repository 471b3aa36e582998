/** The few facts about products and quotients the proofs share. */
module Arith {

  lemma MulLe(a: int, b: int, c: int)
    requires a <= b && 0 <= c
    ensures a * c <= b * c
  {
  }

  lemma MulAssoc(a: int, b: int, c: int)
    ensures a * b * c == a * (b * c)
  {
  }

  lemma MulRearrange(a: int, b: int, c: int, d: int)
    ensures (a * b) * (c * d) == (a * c) * (b * d)
  {
  }

  lemma DivMod(v: nat, d: nat)
    requires d > 0
    ensures v == (v / d) * d + v % d
  {
  }

  /** A quotient is the only number with its remainder in range. */
  lemma QuotientOf(v: nat, q: nat, d: nat, r: nat)
    requires r < d && v == q * d + r
    ensures v / d == q && v % d == r
  {
    var q' := v / d;
    assert v == q' * d + v % d;
    if q' < q {
      MulLe(q' + 1, q, d);
      assert false;
    } else if q' > q {
      MulLe(q + 1, q', d);
      assert false;
    }
  }

  /** Remainders count up and start over. */
  lemma RemainderNext(k: nat, m: nat)
    requires m > 0
    ensures (k + 1) % m == if k % m == m - 1 then 0 else k % m + 1
  {
    var (q, r) := (k / m, k % m);
    DivMod(k, m);
    if r == m - 1 {
      QuotientOf(k + 1, q + 1, m, 0);
    } else {
      QuotientOf(k + 1, q, m, r + 1);
    }
  }

  /** Comparing with a quotient is comparing a product. */
  lemma FloorBound(h: nat, n: nat, d: nat)
    requires d > 0
    ensures h <= n / d <==> h * d <= n
  {
    var q := n / d;
    assert n == q * d + n % d;
    if h <= q {
      MulLe(h, q, d);
    } else {
      MulLe(q + 1, h, d);
    }
  }

  lemma QuotientLe(n: nat, d: nat)
    requires d > 0
    ensures n / d <= n
  {
    var q := n / d;
    DivMod(n, d);
    MulLe(1, d, q);
    assert q * d == d * q;
  }

  lemma QuotientAntitone(n: nat, d: nat, e: nat)
    requires 0 < d <= e
    ensures n / e <= n / d
  {
    var q := n / e;
    FloorBound(q, n, e);
    MulLe(d, e, q);
    FloorBound(q, n, d);
  }
}
