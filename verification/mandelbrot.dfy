/** `Mandelbrot.py`: the escape-time iteration `z <- z^2 + c` from `z = 0`,
    and the image that samples it on an evenly spaced grid. Complex numbers
    are plane vectors. The escape test `abs(z) > 2` is evaluated as
    `|z|^2 > 4`, which `EscapedIsAbsAboveTwo` shows to be the same test. */
module Mandelbrot {
  import opened Numerics
  import opened Vectors
  import opened Collections

  /** The complex square `(x + iy)^2`. */
  function Sq(z: Vec): Vec {
    var a, b := z.x, z.y;
    Vec(a * a - b * b, 2.0 * a * b)
  }

  /** One iteration `z * z + c`. */
  function Iterate(c: Vec, z: Vec): Vec {
    Add(Sq(z), c)
  }

  /** The reference orbit: `z_0 = 0`, `z_(k+1) = z_k^2 + c`. */
  function Orbit(c: Vec, k: nat): Vec {
    if k == 0 then Vec(0.0, 0.0) else Iterate(c, Orbit(c, k - 1))
  }

  /** `abs(z) > 2`, squared. */
  predicate Escaped(z: Vec) {
    Dot(z, z) > 4.0
  }

  /** The squared test is the script's test: `|z|^2 > 4` exactly when
      `abs(z) > 2`. */
  lemma EscapedIsAbsAboveTwo(m: Maths, z: Vec)
    requires m.Valid()
    ensures Escaped(z) <==> m.Norm(z) > 2.0
  {
    var r := m.Norm(z);
    SquareLess(2.0, r);
    SquareLess(r, 2.0);
  }

  /** The `k`-th orbit point of `c` has escaped. */
  predicate EscapedAt(c: Vec, k: nat) {
    Escaped(Orbit(c, k))
  }

  /** The loop of `mandelbrot` from iteration `n`, with `z` the `n`-th
      orbit point: return the first `n` whose point has escaped, or
      `max_int` when the range runs out. */
  function EscapeLoop(c: Vec, z: Vec, n: int, maxIter: int): (r: int)
    requires 0 <= n && z == Orbit(c, n)
    ensures n <= maxIter ==> n <= r <= maxIter
    ensures maxIter < n ==> r == maxIter
    ensures r < maxIter ==> 0 <= r && EscapedAt(c, r)
    ensures forall k :: n <= k < r ==> !EscapedAt(c, k)
    decreases maxIter - n
  {
    if maxIter <= n then maxIter
    else if Escaped(z) then n
    else EscapeLoop(c, Iterate(c, z), n + 1, maxIter)
  }

  /** `mandelbrot(c, max_int)`: the index of the first escaped orbit point
      below `max_int`, else `max_int`. */
  function EscapeTime(c: Vec, maxIter: int): (r: int)
    ensures 0 <= maxIter ==> 0 <= r <= maxIter
    ensures maxIter < 0 ==> r == maxIter
    ensures r < maxIter ==> EscapedAt(c, r)
    ensures forall k :: 0 <= k < r ==> !EscapedAt(c, k)
  {
    var z := Orbit(c, 0);
    EscapeLoop(c, z, 0, maxIter)
  }

  /** Since `z_0 = 0` never escapes, any positive `max_int` scores at
      least 1. */
  lemma EscapeTimeAtLeastOne(c: Vec, maxIter: int)
    requires 1 <= maxIter
    ensures 1 <= EscapeTime(c, maxIter)
  {
    StartNotEscaped(c);
  }

  /** `z_0 = 0` is inside radius 2. */
  lemma StartNotEscaped(c: Vec)
    ensures !EscapedAt(c, 0)
  {
  }

  /** The escape time is the only index with its two properties: any `n`
      in `[0, max_int]` before which nothing escaped, and at which the orbit
      has escaped unless `n == max_int`, is the escape time. */
  lemma EscapeTimeIsFirstEscape(c: Vec, maxIter: int, n: int)
    requires 0 <= n <= maxIter
    requires n < maxIter ==> EscapedAt(c, n)
    requires forall k :: 0 <= k < n ==> !EscapedAt(c, k)
    ensures EscapeTime(c, maxIter) == n
  {
  }

  /** `|z^2| = |z|^2`. */
  lemma NormSq(m: Maths, z: Vec)
    requires m.Valid()
    ensures m.Norm(Sq(z)) == m.Norm(z) * m.Norm(z)
  {
    var r := m.Norm(z);
    var s := Sq(z);
    assert Dot(s, s) == Dot(z, z) * Dot(z, z);
    ProductSquare(r, r);
    SquareRootUnique(m.Norm(s), r * r);
  }

  /** `|z^2| <= |z^2 + c| + |c|`. */
  lemma IterateTriangle(m: Maths, c: Vec, z: Vec)
    requires m.Valid()
    ensures m.Norm(Sq(z)) <= m.Norm(Iterate(c, z)) + m.Norm(c)
  {
    var negC := Scale(-1.0, c);
    NormScale(m, -1.0, c);
    assert Add(Iterate(c, z), negC) == Sq(z);
    NormTriangle(m, Iterate(c, z), negC);
  }

  /** The arithmetic core: `r^2 - |c| >= r^2 - r = r (r - 1) > r` for
      `r > 2`. */
  lemma Growth(r: real, nc: real, ns: real, ni: real)
    requires r > 2.0 && nc <= r && ns == r * r && ns <= ni + nc
    ensures ni > r
  {
    PositiveProduct(r, r - 2.0);
    assert r * r - r - r == r * (r - 2.0);
  }

  /** The escape radius is sound: once an orbit point is outside radius 2
      and at least as far out as `c`, the next point is further out still. */
  lemma EscapeGrows(m: Maths, c: Vec, z: Vec)
    requires m.Valid()
    requires m.Norm(z) > 2.0 && m.Norm(c) <= m.Norm(z)
    ensures m.Norm(Iterate(c, z)) > m.Norm(z)
  {
    NormSq(m, z);
    IterateTriangle(m, c, z);
    Growth(m.Norm(z), m.Norm(c), m.Norm(Sq(z)), m.Norm(Iterate(c, z)));
  }

  /** An escaped orbit never comes back: if `c` lies inside radius 2 and
      the orbit has left it at step `k`, it stays outside, and keeps moving
      out, at every later step. So returning at the first escape never
      misjudges a point. */
  lemma {:induction false} EscapedStaysEscaped(m: Maths, c: Vec, k: nat, j: nat)
    requires m.Valid() && m.Norm(c) <= 2.0
    requires EscapedAt(c, k) && k <= j
    ensures EscapedAt(c, j)
    ensures m.Norm(Orbit(c, k)) <= m.Norm(Orbit(c, j))
    decreases j - k
  {
    if k < j {
      EscapedIsAbsAboveTwo(m, Orbit(c, k));
      EscapeGrows(m, c, Orbit(c, k));
      assert Orbit(c, k + 1) == Iterate(c, Orbit(c, k));
      EscapedIsAbsAboveTwo(m, Orbit(c, k + 1));
      EscapedStaysEscaped(m, c, k + 1, j);
    }
  }

  /** The origin's orbit stays at 0. */
  lemma {:induction false} OriginFixed(k: nat)
    ensures Orbit(Vec(0.0, 0.0), k) == Vec(0.0, 0.0)
  {
    if k > 0 {
      OriginFixed(k - 1);
    }
  }

  /** `c = 0` is in the set: it scores `max_int`. */
  lemma OriginInSet(maxIter: int)
    requires 0 <= maxIter
    ensures EscapeTime(Vec(0.0, 0.0), maxIter) == maxIter
  {
    forall k | 0 <= k < maxIter
      ensures !EscapedAt(Vec(0.0, 0.0), k)
    {
      OriginFixed(k);
    }
    EscapeTimeIsFirstEscape(Vec(0.0, 0.0), maxIter, maxIter);
  }

  /** `z_1 = 0^2 + c = c`. */
  lemma FirstPoint(c: Vec)
    ensures Orbit(c, 1) == c
  {
  }

  /** A point outside radius 2 is `z_1` itself, so it escapes at step 1. */
  lemma FarPointEscapesAtOnce(m: Maths, c: Vec, maxIter: int)
    requires m.Valid() && m.Norm(c) > 2.0 && 1 <= maxIter
    ensures EscapeTime(c, maxIter) == 1
  {
    EscapedIsAbsAboveTwo(m, c);
    EscapesAtOnce(c, maxIter);
  }

  /** The squared form of the previous lemma. */
  lemma EscapesAtOnce(c: Vec, maxIter: int)
    requires Escaped(c) && 1 <= maxIter
    ensures EscapeTime(c, maxIter) == 1
  {
    assert EscapedAt(c, 1) by {
      FirstPoint(c);
    }
    assert forall k :: 0 <= k < 1 ==> !EscapedAt(c, k) by {
      StartNotEscaped(c);
    }
    EscapeTimeIsFirstEscape(c, maxIter, 1);
  }

  /** `np.linspace(a, b, n)`: `n` evenly spaced samples from `a` to `b`,
      both ends included (a single sample is `a`). */
  function Linspace(a: real, b: real, n: nat): (r: seq<real>)
    ensures |r| == n
    ensures 1 <= n ==> r[0] == a
    ensures 2 <= n ==> r[n - 1] == b
    ensures 2 <= n ==> forall i :: 0 <= i < n - 1 ==> r[i + 1] - r[i] == (b - a) / (n - 1) as real
  {
    var step := if n <= 1 then 0.0 else (b - a) / (n - 1) as real;
    var r := seq(n, i requires 0 <= i < n => a + i as real * step);
    if 2 <= n then
      assert (n - 1) as real * step == b - a;
      r
    else r
  }

  /** The plotted window of the complex plane. */
  datatype Window = Window(xMin: real, xMax: real, yMin: real, yMax: real)

  /** The escape times of the grid: row `i`, column `j` is the point
      `xs[j] + i ys[i]`. Rows are only indexed into `ys` when there are
      columns to fill. */
  function Grid(xs: seq<real>, ys: seq<real>, rows: nat, maxIter: int): (g: seq<seq<int>>)
    requires |xs| == 0 || rows <= |ys|
    ensures |g| == rows
    ensures forall i :: 0 <= i < rows ==> |g[i]| == |xs|
    ensures forall i, j :: 0 <= i < rows && 0 <= j < |xs| ==> g[i][j] == EscapeTime(Vec(xs[j], ys[i]), maxIter)
  {
    seq(rows, i requires 0 <= i < rows =>
      seq(|xs|, j requires 0 <= j < |xs| => EscapeTime(Vec(xs[j], ys[i]), maxIter)))
  }

  /** `mandelbrot_set` as written: the imaginary axis is sampled with
      `width` points instead of `height`. Row `i` reads `y[i]`, so the loop
      fails with an index error once `height > width` (and there is a
      column to fill); otherwise the rows cover only part of the window. */
  function MandelbrotSetAsWritten(w: Window, width: nat, height: nat, maxIter: int): (r: Option<seq<seq<int>>>)
    ensures r.None? <==> 1 <= width < height
    ensures r.Some? ==> |r.value| == height && forall i :: 0 <= i < height ==> |r.value[i]| == width
  {
    var xs := Linspace(w.xMin, w.xMax, width);
    var ys := Linspace(w.yMin, w.yMax, width);
    if 1 <= width < height then None
    else Some(Grid(xs, ys, height, maxIter))
  }

  /** For a wide image the top row of the as-written image samples an
      imaginary part strictly below `y_max`. */
  lemma AsWrittenMissesTop(w: Window, width: nat, height: nat, maxIter: int)
    requires 2 <= height < width && w.yMin < w.yMax
    ensures exists y :: (y < w.yMax &&
      MandelbrotSetAsWritten(w, width, height, maxIter).value[height - 1][0] ==
      EscapeTime(Vec(w.xMin, y), maxIter))
  {
    var ys := Linspace(w.yMin, w.yMax, width);
    var y := ys[height - 1];
    assert y < w.yMax by {
      var step := (w.yMax - w.yMin) / (width - 1) as real;
      assert step * (width - 1) as real == w.yMax - w.yMin;
      assert 0.0 < step by {
        if step <= 0.0 {
          MulNonNegMono((width - 1) as real, step, 0.0);
        }
      }
      TopRowGap(ys, height - 1, width - 1, step);
    }
    assert MandelbrotSetAsWritten(w, width, height, maxIter).value[height - 1][0] ==
      EscapeTime(Vec(w.xMin, y), maxIter);
  }

  /** In an evenly spaced sequence with positive step, every sample before
      the last is below the last. */
  lemma {:induction false} TopRowGap(ys: seq<real>, i: nat, last: nat, step: real)
    requires i < last < |ys| && 0.0 < step
    requires forall k :: 0 <= k < last ==> ys[k + 1] - ys[k] == step
    ensures ys[i] < ys[last]
    decreases last - i
  {
    if i + 1 < last {
      TopRowGap(ys, i + 1, last, step);
    }
  }

  /** `mandelbrot_set` with the imaginary axis sampled by `height`: every
      image size is defined, and row `i` samples the `i`-th of `height`
      evenly spaced imaginary parts. */
  function MandelbrotSet(w: Window, width: nat, height: nat, maxIter: int): (r: seq<seq<int>>)
    ensures |r| == height && forall i :: 0 <= i < height ==> |r[i]| == width
    ensures forall i, j :: 0 <= i < height && 0 <= j < width ==>
      r[i][j] == EscapeTime(Vec(Linspace(w.xMin, w.xMax, width)[j], Linspace(w.yMin, w.yMax, height)[i]), maxIter)
  {
    Grid(Linspace(w.xMin, w.xMax, width), Linspace(w.yMin, w.yMax, height), height, maxIter)
  }

  /** The corrected image spans the whole window: its corners are the
      window's corners. */
  lemma CorrectedCoversWindow(w: Window, width: nat, height: nat, maxIter: int)
    requires 2 <= width && 2 <= height
    ensures MandelbrotSet(w, width, height, maxIter)[0][0] == EscapeTime(Vec(w.xMin, w.yMin), maxIter)
    ensures MandelbrotSet(w, width, height, maxIter)[height - 1][width - 1] == EscapeTime(Vec(w.xMax, w.yMax), maxIter)
    ensures MandelbrotSet(w, width, height, maxIter)[height - 1][0] == EscapeTime(Vec(w.xMin, w.yMax), maxIter)
  {
  }

  /** A point within radius 2 scores 2 when `max_int` is 2: neither `z_0`
      nor `z_1 = c` has escaped. */
  lemma InsideScoresTwo(c: Vec)
    requires Dot(c, c) <= 4.0
    ensures EscapeTime(c, 2) == 2
  {
    var z0 := Orbit(c, 0);
    var z1 := Iterate(c, z0);
    assert z1 == Orbit(c, 1);
    assert z1 == c by { FirstPoint(c); }
    var z2 := Iterate(c, z1);
    assert z2 == Orbit(c, 2);
    assert EscapeLoop(c, z2, 2, 2) == 2;
    assert EscapeLoop(c, z1, 1, 2) == EscapeLoop(c, z2, 2, 2);
    assert EscapeLoop(c, z0, 0, 2) == EscapeLoop(c, z1, 1, 2);
  }

  /** `-2 + 0i` stays on the circle of radius 2 for two steps. */
  lemma OnAxisScore()
    ensures EscapeTime(Vec(-2.0, 0.0), 2) == 2
  {
    InsideScoresTwo(Vec(-2.0, 0.0));
  }

  /** `-2 + 1.5i` lies outside radius 2 and escapes at step 1. */
  lemma AboveScore()
    ensures EscapeTime(Vec(-2.0, 1.5), 2) == 1
  {
    EscapesAtOnce(Vec(-2.0, 1.5), 2);
  }

  /** The two definitions disagree on a concrete image: for the script's
      window with a 3 x 2 image and `max_int = 2`, the as-written top-left
      pixel samples `-2 + 0i` (score 2) where the corrected one samples
      `-2 + 1.5i` (score 1). */
  lemma AsWrittenDiffers()
    ensures MandelbrotSetAsWritten(Window(-2.0, 1.0, -1.5, 1.5), 3, 2, 2).value[1][0] == 2
    ensures MandelbrotSet(Window(-2.0, 1.0, -1.5, 1.5), 3, 2, 2)[1][0] == 1
  {
    AsWrittenPixel();
    CorrectedPixel();
  }

  lemma AsWrittenPixel()
    ensures MandelbrotSetAsWritten(Window(-2.0, 1.0, -1.5, 1.5), 3, 2, 2).value[1][0] == 2
  {
    var xs := Linspace(-2.0, 1.0, 3);
    var ys := Linspace(-1.5, 1.5, 3);
    assert xs[0] == -2.0;
    assert ys[1] == ys[0] + (1.5 - -1.5) / 2.0;
    assert Grid(xs, ys, 2, 2)[1][0] == EscapeTime(Vec(xs[0], ys[1]), 2);
    OnAxisScore();
  }

  lemma CorrectedPixel()
    ensures MandelbrotSet(Window(-2.0, 1.0, -1.5, 1.5), 3, 2, 2)[1][0] == 1
  {
    var xs := Linspace(-2.0, 1.0, 3);
    var ys := Linspace(-1.5, 1.5, 2);
    assert xs[0] == -2.0 && ys[1] == 1.5;
    AboveScore();
  }
}
