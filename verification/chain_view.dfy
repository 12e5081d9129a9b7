/** The drawing-side view of a filament chain in `cyano_sim.py` and
    `umwelt.py`: `unwrap_and_plot` removes jumps of a whole box width between
    consecutive points, and `cyano_sim.py`'s `smooth_points` replaces the chain
    by its moving average. */
module ChainView {
  import opened Numerics
  import opened Vectors

  /** `(d + box / 2) % box - box / 2`: the representative of `d` in
      `[-box / 2, box / 2)`. */
  function Wrap(d: real, box: real): (w: real)
    requires 0.0 < box
    ensures -box / 2.0 <= w < box / 2.0
    ensures Congruent(w, d, box)
  {
    var h := box / 2.0;
    var r := FMod(d + h, box);
    assert Congruent(r - h, d, box) by {
      CongruentSymmetric(d + h, r, box);
      CongruentShift(r, d + h, -h, box);
    }
    r - h
  }

  /** Values already in `[-box / 2, box / 2)` are their own representative. */
  lemma WrapOfInRange(d: real, box: real)
    requires 0.0 < box
    requires -box / 2.0 <= d < box / 2.0
    ensures Wrap(d, box) == d
  {
    FModOfInRange(d + box / 2.0, box);
  }

  /** The representative depends only on the residue class. */
  lemma WrapOfCongruent(a: real, b: real, box: real)
    requires 0.0 < box
    requires Congruent(a, b, box)
    ensures Wrap(a, box) == Wrap(b, box)
  {
    CongruentShift(a, b, box / 2.0, box);
    FModOfCongruent(a + box / 2.0, b + box / 2.0, box);
  }

  /** `Wrap` on both coordinates, as numpy applies it to a delta vector. */
  function WrapVec(d: Vec, box: real): (w: Vec)
    requires 0.0 < box
    ensures HalfBox(w, box)
    ensures CongruentVec(w, d, box)
  {
    Vec(Wrap(d.x, box), Wrap(d.y, box))
  }

  /** Both coordinates in `[-box / 2, box / 2)`. */
  predicate HalfBox(d: Vec, box: real) {
    -box / 2.0 <= d.x < box / 2.0 && -box / 2.0 <= d.y < box / 2.0
  }

  /** Two points that differ by whole box widths on each axis. */
  ghost predicate CongruentVec(a: Vec, b: Vec, box: real) {
    Congruent(a.x, b.x, box) && Congruent(a.y, b.y, box)
  }

  /** Measuring a step from a point congruent to the original predecessor
      gives the same wrapped step. */
  lemma WrapStep(p: Vec, a: Vec, b: Vec, box: real)
    requires 0.0 < box
    requires CongruentVec(a, b, box)
    ensures WrapVec(Sub(p, a), box) == WrapVec(Sub(p, b), box)
  {
    CongruentNegate(a.x, b.x, box);
    CongruentShift(-a.x, -b.x, p.x, box);
    assert -a.x + p.x == p.x - a.x && -b.x + p.x == p.x - b.x;
    WrapOfCongruent(p.x - a.x, p.x - b.x, box);
    CongruentNegate(a.y, b.y, box);
    CongruentShift(-a.y, -b.y, p.y, box);
    assert -a.y + p.y == p.y - a.y && -b.y + p.y == p.y - b.y;
    WrapOfCongruent(p.y - a.y, p.y - b.y, box);
  }

  /** Stepping from `a` by the wrapped difference `p - a` lands on a point
      congruent to `p`. */
  lemma WrappedLanding(p: Vec, a: Vec, box: real)
    requires 0.0 < box
    ensures CongruentVec(Add(a, WrapVec(Sub(p, a), box)), p, box)
  {
    var w := WrapVec(Sub(p, a), box);
    CongruentShift(w.x, p.x - a.x, a.x, box);
    assert w.x + a.x == Add(a, w).x && p.x - a.x + a.x == p.x;
    CongruentShift(w.y, p.y - a.y, a.y, box);
    assert w.y + a.y == Add(a, w).y && p.y - a.y + a.y == p.y;
  }

  /** Every step of the chain is shorter than half the box on each axis:
      the chain does not cross a periodic boundary. */
  predicate SmallSteps(points: seq<Vec>, box: real) {
    forall k :: 1 <= k < |points| ==> HalfBox(Sub(points[k], points[k - 1]), box)
  }

  /** `unwrap_and_plot`: walk the chain from the head and replace every
      point by its predecessor plus the wrapped step. The loop updates the
      copy in place, so each step is measured from the already moved
      predecessor; because that predecessor is congruent to the original
      one, every step is still the wrapped original step. A chain that
      crosses no boundary is left as it is. */
  method Unwrap(points: seq<Vec>, box: real) returns (q: seq<Vec>)
    requires 0.0 < box
    ensures |q| == |points|
    ensures 0 < |points| ==> q[0] == points[0]
    ensures forall i :: 1 <= i < |q| ==> Sub(q[i], q[i - 1]) == WrapVec(Sub(points[i], points[i - 1]), box)
    ensures forall i :: 1 <= i < |q| ==> HalfBox(Sub(q[i], q[i - 1]), box)
    ensures forall i :: 0 <= i < |q| ==> CongruentVec(q[i], points[i], box)
    ensures SmallSteps(points, box) ==> q == points
  {
    q := points;
    if |points| == 0 {
      return;
    }
    CongruentPeriod(points[0].x, box);
    CongruentPeriod(points[0].y, box);
    var i := 1;
    while i < |q|
      invariant |q| == |points| && 1 <= i <= |q|
      invariant q[0] == points[0]
      invariant forall k :: i <= k < |q| ==> q[k] == points[k]
      invariant forall k :: 1 <= k < i ==> Sub(q[k], q[k - 1]) == WrapVec(Sub(points[k], points[k - 1]), box)
      invariant forall k :: 0 <= k < i ==> CongruentVec(q[k], points[k], box)
      invariant SmallSteps(points, box) ==> q == points
    {
      var prev := q[i - 1];
      var delta := WrapVec(Sub(points[i], prev), box);
      WrapStep(points[i], prev, points[i - 1], box);
      WrappedLanding(points[i], prev, box);
      if SmallSteps(points, box) {
        WrapVecOfInRange(Sub(points[i], points[i - 1]), box);
        assert Add(prev, delta) == points[i];
      }
      q := q[i := Add(prev, delta)];
      i := i + 1;
    }
  }

  lemma WrapVecOfInRange(d: Vec, box: real)
    requires 0.0 < box
    requires HalfBox(d, box)
    ensures WrapVec(d, box) == d
  {
    WrapOfInRange(d.x, box);
    WrapOfInRange(d.y, box);
  }

  /** `a[0] + ... + a[|a| - 1]`, the reference sum of a run of points. */
  function VecSum(a: seq<Vec>): Vec {
    if |a| == 0 then Zero else Add(VecSum(a[..|a| - 1]), a[|a| - 1])
  }

  /** The sum of a concatenation is the sum of the sums. */
  lemma {:induction false} VecSumConcat(a: seq<Vec>, b: seq<Vec>)
    ensures VecSum(a + b) == Add(VecSum(a), VecSum(b))
    decreases |b|
  {
    if |b| == 0 {
      assert a + b == a;
    } else {
      var front := b[..|b| - 1];
      assert (a + b)[..|a + b| - 1] == a + front;
      VecSumConcat(a, front);
    }
  }

  /** A sum over a prefix splits at any index. */
  lemma VecSumSplit(a: seq<Vec>, i: nat, j: nat)
    requires i <= j <= |a|
    ensures VecSum(a[..j]) == Add(VecSum(a[..i]), VecSum(a[i..j]))
  {
    assert a[..j] == a[..i] + a[i..j];
    VecSumConcat(a[..i], a[i..j]);
  }

  /** `v / n` on both coordinates. */
  function Div(v: Vec, n: real): Vec
    requires n != 0.0
  {
    Vec(v.x / n, v.y / n)
  }

  /** `np.cumsum(a, axis=0)`: entry `i` is the sum of `a[0..i]`. */
  method CumSum(a: seq<Vec>) returns (c: seq<Vec>)
    ensures |c| == |a|
    ensures forall i :: 0 <= i < |c| ==> c[i] == VecSum(a[..i + 1])
  {
    c := [];
    var total := Zero;
    var i := 0;
    while i < |a|
      invariant 0 <= i <= |a| && |c| == i
      invariant total == VecSum(a[..i])
      invariant forall k :: 0 <= k < i ==> c[k] == VecSum(a[..k + 1])
    {
      assert a[..i + 1][..i] == a[..i];
      total := Add(total, a[i]);
      c := c + [total];
      i := i + 1;
    }
  }

  /** `moving_average`: take the cumulative sum, subtract the sum lagging
      `n` behind, and divide the entries from `n - 1` on by `n`. Entry `k` of
      the result is the mean of the window `a[k..k + n]`. */
  method MovingAverage(a: seq<Vec>, n: nat) returns (r: seq<Vec>)
    requires 1 <= n <= |a|
    ensures |r| == |a| - n + 1
    ensures forall k :: 0 <= k < |r| ==> r[k] == Div(VecSum(a[k..k + n]), n as real)
  {
    var c := CumSum(a);
    var ret := c[..n] + seq(|a| - n, k requires 0 <= k < |a| - n => Sub(c[k + n], c[k]));
    r := seq(|a| - n + 1, k requires 0 <= k < |a| - n + 1 => Div(ret[k + n - 1], n as real));
    forall k | 0 <= k < |r|
      ensures r[k] == Div(VecSum(a[k..k + n]), n as real)
    {
      assert r[k] == Div(ret[k + n - 1], n as real);
      if k == 0 {
        assert ret[n - 1] == c[n - 1];
      } else {
        assert ret[k + n - 1] == Sub(c[k + n - 1], c[k - 1]);
      }
      WindowFromCumSum(a, c, n, k);
    }
  }

  /** Window `k` is the difference of the cumulative sums at its two ends. */
  lemma WindowFromCumSum(a: seq<Vec>, c: seq<Vec>, n: nat, k: nat)
    requires 1 <= n && k + n <= |a| && |c| == |a|
    requires forall i :: 0 <= i < |c| ==> c[i] == VecSum(a[..i + 1])
    ensures k == 0 ==> c[n - 1] == VecSum(a[k..k + n])
    ensures 0 < k ==> Sub(c[k + n - 1], c[k - 1]) == VecSum(a[k..k + n])
  {
    if k == 0 {
      assert a[..n] == a[0..n];
    } else {
      VecSumSplit(a, k, k + n);
      VecSumDifference(VecSum(a[..k + n]), VecSum(a[..k]), VecSum(a[k..k + n]));
    }
  }

  lemma VecSumDifference(total: Vec, front: Vec, back: Vec)
    requires total == Add(front, back)
    ensures Sub(total, front) == back
  {
  }

  /** `smooth_points` of `cyano_sim.py`: a chain shorter than the window is
      returned as it is, otherwise its moving average. The source's window is
      5. */
  method Smooth(points: seq<Vec>, window: nat) returns (r: seq<Vec>)
    requires 1 <= window
    ensures |points| < window ==> r == points
    ensures window <= |points| ==> |r| == |points| - window + 1
    ensures window <= |points| ==> forall k :: 0 <= k < |r| ==>
      r[k] == Div(VecSum(points[k..k + window]), window as real)
  {
    if |points| < window {
      return points;
    }
    r := MovingAverage(points, window);
  }

  /** A run of `n` copies of `p` sums to `n p`. */
  lemma {:induction false} VecSumConstant(a: seq<Vec>, p: Vec)
    requires forall k :: 0 <= k < |a| ==> a[k] == p
    ensures VecSum(a) == Scale(|a| as real, p)
  {
    if |a| > 0 {
      VecSumConstant(a[..|a| - 1], p);
    }
  }

  /** Smoothing leaves a run of identical points alone: every window mean of
      a constant chain is that point. */
  lemma WindowMeanConstant(a: seq<Vec>, p: Vec, k: nat, n: nat)
    requires 1 <= n && k + n <= |a|
    requires forall i :: 0 <= i < |a| ==> a[i] == p
    ensures Div(VecSum(a[k..k + n]), n as real) == p
  {
    VecSumConstant(a[k..k + n], p);
  }

  /** A window of width 1 is the point itself. */
  lemma WindowMeanSingle(a: seq<Vec>, k: nat)
    requires k < |a|
    ensures Div(VecSum(a[k..k + 1]), 1.0) == a[k]
  {
    assert a[k..k + 1][..0] == [];
  }
}
