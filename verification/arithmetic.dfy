// Integer facts shared by the models: quotients, remainders, and the
// two's-complement conversions the C sources rely on.
module Arithmetic {

  const INT_MAX: int := 0x7fff_ffff
  const INT_RANGE: int := 0x1_0000_0000

  // The value a C compiler stores in an `int` when given any integer.
  function ToInt(x: int): (r: int)
    ensures -INT_MAX - 1 <= r <= INT_MAX
    ensures (r - x) % INT_RANGE == 0
  {
    var low := x % INT_RANGE;
    if low <= INT_MAX then low else low - INT_RANGE
  }

  function Min(a: int, b: int): int { if a < b then a else b }

  function Max(a: int, b: int): int { if a < b then b else a }

  function Abs(a: int): int { if a < 0 then -a else a }

  lemma AtLeastOneMultiple(a: int, m: int)
    requires 1 <= a && 0 < m
    ensures m <= a * m
  {
    assert (a - 1) * m >= 0;
  }

  lemma MultiplesOrdered(a: int, b: int, m: int)
    requires a <= b && 0 <= m
    ensures a * m <= b * m
  {
    assert b * m - a * m == (b - a) * m;
    if a < b && 0 < m {
      AtLeastOneMultiple(b - a, m);
    }
  }

  // Quotient and remainder are the only pair that fits.
  lemma DivModUnique(x: int, m: int, q: int, r: int)
    requires 0 <= r < m
    requires x == q * m + r
    ensures x / m == q && x % m == r
  {
    var q', r' := x / m, x % m;
    assert q' * m + r' == x;
    assert (q - q') * m == q * m - q' * m == r' - r;
    assert (q' - q) * m == q' * m - q * m == r - r';
    if q' < q {
      AtLeastOneMultiple(q - q', m);
    } else if q' > q {
      AtLeastOneMultiple(q' - q, m);
    }
  }

  lemma ModSucc(x: int, m: int)
    requires 0 < m
    ensures (x + 1) % m == if x % m == m - 1 then 0 else x % m + 1
  {
    var q, r := x / m, x % m;
    assert x == q * m + r;
    if r == m - 1 {
      assert (q + 1) * m == q * m + m;
      DivModUnique(x + 1, m, q + 1, 0);
    } else {
      DivModUnique(x + 1, m, q, r + 1);
    }
  }

  // Comparing a multiple of m with d is comparing its factor with d / m.
  lemma MultipleFits(q: int, m: int, d: int)
    requires 0 < m
    ensures q * m <= d <==> q <= d / m
  {
    var t, r := d / m, d % m;
    assert d == t * m + r;
    assert (q - t) * m == q * m - t * m;
    if q > t {
      AtLeastOneMultiple(q - t, m);
    } else if q < t {
      AtLeastOneMultiple(t - q, m);
      assert (t - q) * m == -((q - t) * m);
    }
  }

  lemma QuotientIsNat(a: nat, m: nat)
    requires 0 < m
    ensures 0 <= a / m
  {
    MultipleFits(0, m, a);
  }

  lemma NegatedMultiple(a: int, m: int)
    ensures -a * m == -(a * m)
  {
  }

  lemma MultipleHasNoRemainder(k: int, m: int)
    requires 0 < m
    ensures (k * m) % m == 0
  {
    DivModUnique(k * m, m, k, 0);
  }
}
