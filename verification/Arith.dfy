/** Facts about products, quotients and remainders that the solver does not find by itself. */
module Arith {

  lemma {:induction false} MulAtLeast(q: nat, n: nat)
    requires q >= 1
    ensures q * n >= n
  {
    assert q * n == (q - 1) * n + n;
    assert (q - 1) * n >= 0;
  }

  lemma {:induction false} DivModUnique(x: nat, n: nat, q: nat, r: nat)
    requires r < n && x == q * n + r
    ensures x / n == q && x % n == r
  {
    var q', r' := x / n, x % n;
    assert x == q' * n + r';
    assert (q - q') * n == r' - r;
    if q > q' {
      assert (q - q') * n >= n by { MulAtLeast(q - q', n); }
    } else if q < q' {
      assert (q' - q) * n >= n by { MulAtLeast(q' - q, n); }
    }
  }

  lemma {:induction false} DivTwice(v: nat, b: nat)
    requires b > 0
    ensures v / 256 / b == v / (256 * b)
  {
    var q, r := v / (256 * b), v % (256 * b);
    var x := q * b;
    assert v == q * (256 * b) + r == 256 * x + r;
    assert v / 256 == x + r / 256;
    DivModUnique(v / 256, b, q, r / 256);
  }

  lemma {:induction false} DivBounds(q: nat, w: nat)
    requires w > 0
    ensures w * (q / w) <= q < w * (q / w) + w
  {
    assert q == q / w * w + q % w;
  }

  lemma {:induction false} MoreIsMore(w: nat, a: nat, b: nat)
    requires a <= b
    ensures w * a <= w * b
  {
    assert w * b == w * a + w * (b - a);
  }
}
