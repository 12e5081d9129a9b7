/** Exact-real counterparts of the Python and numpy scalar operations that the
    simulation scripts rely on: the floored float remainder `%`, `int()`,
    `round()`, `min`/`max` and `np.clip`. Floating-point rounding is not
    modelled; every operation here is exact over `real`. */
module Numerics {

  /** `np.pi`: the IEEE double nearest to pi, written out as a decimal. */
  const PI: real := 3.141592653589793

  /** One full turn, `2 * np.pi`. */
  const TAU: real := 2.0 * PI

  function Abs(x: real): (r: real)
    ensures 0.0 <= r
    ensures r == x || r == -x
    ensures r >= x && r >= -x
  {
    if x < 0.0 then -x else x
  }

  function Min(a: real, b: real): (r: real)
    ensures r <= a && r <= b
    ensures r == a || r == b
  {
    if a <= b then a else b
  }

  function Max(a: real, b: real): (r: real)
    ensures a <= r && b <= r
    ensures r == a || r == b
  {
    if a >= b then a else b
  }

  /** `np.clip(x, lo, hi)`, which numpy evaluates as `min(max(x, lo), hi)`. */
  function Clip(x: real, lo: real, hi: real): (r: real)
    ensures lo <= hi ==> lo <= r <= hi
    ensures lo <= x <= hi ==> r == x
    ensures x < lo && lo <= hi ==> r == lo
    ensures hi < x && lo <= hi ==> r == hi
  {
    Min(Max(x, lo), hi)
  }

  /** `k` whole periods of length `m`. */
  function Multiple(k: int, m: real): real {
    k as real * m
  }

  lemma MultipleAdd(j: int, k: int, m: real)
    ensures Multiple(j, m) + Multiple(k, m) == Multiple(j + k, m)
  {
  }

  /** `a` and `b` differ by a whole number of periods `m`. */
  ghost predicate Congruent(a: real, b: real, m: real) {
    exists k: int :: a - b == Multiple(k, m)
  }

  /** Python's float remainder `x % m` for a positive modulus: the result of
      floored division, so it always lies in `[0, m)`. */
  function FMod(x: real, m: real): (r: real)
    requires 0.0 < m
    ensures 0.0 <= r < m
    ensures Congruent(x, r, m)
  {
    var q := (x / m).Floor;
    FloorDivBounds(x, m);
    var r := x - m * (q as real);
    assert x - r == Multiple(q, m);
    r
  }

  /** Floored division brackets `x` between consecutive multiples of `m`. */
  lemma FloorDivBounds(x: real, m: real)
    requires 0.0 < m
    ensures m * ((x / m).Floor as real) <= x
    ensures x < m * ((x / m).Floor as real) + m
  {
    var y := x / m;
    var lo := y.Floor as real;
    var hi := lo + 1.0;
    assert lo <= y < hi;
    assert m * y == x;
    MulLeftMono(m, lo, y);
    assert m * lo <= x;
    MulLeftStrict(m, y, hi);
    assert x < m * hi;
    assert m * hi == m * lo + m;
  }

  lemma MulLeftMono(m: real, a: real, b: real)
    requires 0.0 < m && a <= b
    ensures m * a <= m * b
  {
    assert m * b - m * a == m * (b - a);
  }

  lemma MulLeftStrict(m: real, a: real, b: real)
    requires 0.0 < m && a < b
    ensures m * a < m * b
  {
    assert m * b - m * a == m * (b - a);
  }

  /** Multiplying by a non-negative factor keeps order. */
  lemma MulNonNegMono(c: real, a: real, b: real)
    requires 0.0 <= c && a <= b
    ensures c * a <= c * b
  {
    assert c * b - c * a == c * (b - a);
  }

  lemma PositiveProduct(a: real, b: real)
    requires 0.0 < a && 0.0 < b
    ensures 0.0 < a * b
  {
  }

  /** Squaring is strictly monotone on non-negative numbers. */
  lemma SquareLess(s: real, t: real)
    ensures 0.0 <= s < t ==> s * s < t * t
  {
    if 0.0 <= s < t {
      PositiveProduct(t - s, t + s);
      assert t * t - s * s == (t - s) * (t + s);
    }
  }

  lemma SquareLeq(s: real, t: real)
    requires 0.0 <= s <= t
    ensures s * s <= t * t
  {
    MulNonNegMono(s, s, t);
    MulNonNegMono(t, s, t);
  }

  /** Between non-negative numbers, comparing squares compares the numbers. */
  lemma RootLeq(s: real, t: real)
    requires 0.0 <= s && 0.0 <= t
    requires s * s <= t * t
    ensures s <= t
  {
    SquareLess(t, s);
  }

  /** A number whose square is at most `n^2` lies in `[-n, n]`. */
  lemma SquareBounded(x: real, n: real)
    requires 0.0 <= n && x * x <= n * n
    ensures -n <= x <= n
  {
    SquareLess(n, x);
    SquareLess(n, -x);
    assert (-x) * (-x) == x * x;
  }

  /** One more copy of `c` in a repeated sum. */
  lemma SuccTimes(n: real, c: real)
    ensures (n + 1.0) * c == n * c + c
  {
  }

  /** The mean of `n` equal terms is the term. */
  lemma MeanOfEqual(n: real, c: real)
    requires 0.0 < n
    ensures (n * c) / n == c
  {
  }

  /** A sum of `n` terms from `[-1, 1]`, divided by `n`, stays in `[-1, 1]`. */
  lemma MeanBound(s: real, n: real)
    requires 0.0 < n && -n <= s <= n
    ensures -1.0 <= s / n <= 1.0
  {
    var q := s / n;
    assert (1.0 - q) * n == n - s;
    assert (q + 1.0) * n == s + n;
    NegativeFactor(1.0 - q, n);
    NegativeFactor(q + 1.0, n);
  }

  lemma NegativeFactor(a: real, n: real)
    requires 0.0 < n
    ensures a < 0.0 ==> a * n < 0.0
  {
  }

  /** A whole multiple of a positive period that is strictly shorter than the
      period is zero. */
  lemma SmallMultipleIsZero(d: int, m: real)
    requires 0.0 < m
    requires -m < Multiple(d, m) < m
    ensures d == 0
  {
    MultipleBound(d, m);
  }

  lemma MultipleBound(d: int, m: real)
    requires 0.0 < m
    ensures d >= 1 ==> Multiple(d, m) >= m
    ensures d <= -1 ==> Multiple(d, m) <= -m
  {
    if d >= 1 {
      assert Multiple(d, m) - m == (d - 1) as real * m;
      assert (d - 1) as real * m >= 0.0;
    } else if d <= -1 {
      assert -Multiple(d, m) - m == (-d - 1) as real * m;
      assert (-d - 1) as real * m >= 0.0;
    }
  }

  /** The remainder is the only value in `[0, m)` congruent to `x`. */
  lemma {:induction false} FModUnique(x: real, m: real, r: real)
    requires 0.0 < m
    requires 0.0 <= r < m
    requires Congruent(x, r, m)
    ensures r == FMod(x, m)
  {
    var k: int :| x - r == Multiple(k, m);
    var f := FMod(x, m);
    var j: int :| x - f == Multiple(j, m);
    MultipleAdd(k, -j, m);
    SmallMultipleIsZero(k - j, m);
  }

  /** Values already in `[0, m)` are left alone. */
  lemma FModOfInRange(x: real, m: real)
    requires 0.0 < m
    requires 0.0 <= x < m
    ensures FMod(x, m) == x
  {
    assert x - x == Multiple(0, m);
    FModUnique(x, m, x);
  }

  /** The remainder depends only on the residue class. */
  lemma FModOfCongruent(x: real, y: real, m: real)
    requires 0.0 < m
    requires Congruent(x, y, m)
    ensures FMod(x, m) == FMod(y, m)
  {
    var k: int :| x - y == Multiple(k, m);
    var f := FMod(y, m);
    var j: int :| y - f == Multiple(j, m);
    MultipleAdd(k, j, m);
    FModUnique(x, m, f);
  }

  /** Taking the remainder twice is the same as taking it once. */
  lemma FModIdempotent(x: real, m: real)
    requires 0.0 < m
    ensures FMod(FMod(x, m), m) == FMod(x, m)
  {
    FModOfInRange(FMod(x, m), m);
  }

  /** Congruence is symmetric. */
  lemma CongruentSymmetric(a: real, b: real, m: real)
    requires Congruent(a, b, m)
    ensures Congruent(b, a, m)
  {
    var k: int :| a - b == Multiple(k, m);
    assert b - a == Multiple(-k, m);
  }

  /** Congruence is transitive. */
  lemma CongruentTransitive(a: real, b: real, c: real, m: real)
    requires Congruent(a, b, m) && Congruent(b, c, m)
    ensures Congruent(a, c, m)
  {
    var k: int :| a - b == Multiple(k, m);
    var j: int :| b - c == Multiple(j, m);
    MultipleAdd(k, j, m);
  }

  /** Congruence survives adding the same amount to both sides. */
  lemma CongruentShift(a: real, b: real, c: real, m: real)
    requires Congruent(a, b, m)
    ensures Congruent(a + c, b + c, m)
  {
    var k: int :| a - b == Multiple(k, m);
    assert (a + c) - (b + c) == Multiple(k, m);
  }

  /** Congruence survives negating both sides. */
  lemma CongruentNegate(a: real, b: real, m: real)
    requires Congruent(a, b, m)
    ensures Congruent(-a, -b, m)
  {
    var k: int :| a - b == Multiple(k, m);
    assert -a - -b == Multiple(-k, m);
  }

  /** Every value is congruent to itself and to itself plus one period. */
  lemma CongruentPeriod(a: real, m: real)
    ensures Congruent(a, a, m)
    ensures Congruent(a + m, a, m)
  {
    assert a - a == Multiple(0, m);
    assert (a + m) - a == Multiple(1, m);
  }

  /** Python's `int()` applied to a float: truncation toward zero. */
  function Trunc(x: real): (n: int)
    ensures 0.0 <= x ==> 0 <= n && n as real <= x < n as real + 1.0
    ensures x < 0.0 ==> n <= 0 && n as real - 1.0 < x <= n as real
  {
    if x >= 0.0 then x.Floor else -((-x).Floor)
  }

  /** Python's built-in `round()` on a float: to the nearest integer, ties to
      the even neighbour. */
  function RoundHalfEven(x: real): (n: int)
    ensures Abs(x - n as real) <= 0.5
    ensures Abs(x - n as real) == 0.5 ==> n % 2 == 0
  {
    var f := x.Floor;
    var frac := x - f as real;
    if frac < 0.5 then f
    else if frac > 0.5 then f + 1
    else if f % 2 == 0 then f
    else f + 1
  }

  /** Rounding a value of `[lo, hi]` with integral bounds stays in `[lo, hi]`. */
  lemma RoundWithin(x: real, lo: int, hi: int)
    requires lo as real <= x <= hi as real
    ensures lo <= RoundHalfEven(x) <= hi
  {
    var n := RoundHalfEven(x);
    assert n as real <= x + 0.5 && x - 0.5 <= n as real;
  }
}
