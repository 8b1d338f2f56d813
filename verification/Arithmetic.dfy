/** Products and remainders of natural numbers. */
module Arithmetic {
  lemma MulMonotone(a: nat, b: nat, w: nat)
    requires a <= b
    ensures a * w <= b * w
  {
    assert b * w == a * w + (b - a) * w;
  }

  lemma MulStrict(a: nat, b: nat, w: nat)
    requires a < b && w > 0
    ensures a * w < b * w
  {
    MulMonotone(a + 1, b, w);
    assert (a + 1) * w == a * w + w;
  }

  lemma MulCancel(a: nat, b: nat, w: nat)
    requires w > 0 && a * w <= b * w
    ensures a <= b
  {
    if b < a { MulStrict(b, a, w); }
  }

  lemma Wrapped(a: nat, n: nat)
    requires n > 0 && a < 2 * n
    ensures a % n == if a < n then a else a - n
  {
  }

  lemma {:induction false} Multiple(q: nat, n: nat, r: nat)
    requires r < n
    ensures (q * n + r) % n == r
  {
    if q > 0 {
      Multiple(q - 1, n, r);
      var a := (q - 1) * n + r;
      assert q * n + r == a + n;
      AddOnce(a, n);
    }
  }

  lemma AddOnce(a: nat, n: nat)
    requires n > 0
    ensures (a + n) % n == a % n
  {
    var q, q2 := a / n, (a + n) / n;
    assert (q + 1) * n == q * n + n && (q + 2) * n == q * n + 2 * n;
    if q2 > q + 1 { MulMonotone(q + 2, q2, n); }
    if q2 < q + 1 { MulMonotone(q2, q, n); }
  }
}
