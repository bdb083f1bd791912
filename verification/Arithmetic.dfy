/** Small facts about integers and reals. */
module Arithmetic {

  function Max(a: int, b: int): int {
    if a < b then b else a
  }

  lemma TimesMonotone(a: int, b: int, m: nat)
    requires a <= b
    ensures a * m <= b * m
  {
  }

  lemma RealTimesMonotone(p: real, x: real, y: real)
    requires p >= 0.0 && x <= y
    ensures p * x <= p * y
  {
  }

  /** A quotient and remainder are determined by the number they make. */
  lemma DivMod(n: int, d: nat, q: int, r: int)
    requires d > 0 && 0 <= r < d
    ensures n == q * d + r <==> n / d == q && n % d == r
  {
    if n == q * d + r {
      assert (n / d - q) * d == r - n % d;
      if n / d - q >= 1 {
        TimesMonotone(1, n / d - q, d);
      } else if n / d - q <= -1 {
        TimesMonotone(n / d - q, -1, d);
      }
    }
  }

  lemma OneStride(d: int, stride: int)
    requires stride > 0
    ensures (d - stride) % stride == d % stride
    ensures 0 <= d < stride ==> (d % stride == 0 <==> d == 0)
  {
    var q := d / stride;
    assert d - stride == (q - 1) * stride + d % stride;
    DivMod(d - stride, stride, q - 1, d % stride);
  }
}
