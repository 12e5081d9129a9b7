/** Chain relaxation: after the head has moved, every later point is pulled
    back toward segment length relative to its predecessor, which has
    already been updated in the same pass. `sim_2.py` and `umwelt.py` halve
    the length error; `cyano_sim.py` snaps each segment to length and then
    blends each direction with the previous segment's (bending). No pass ever
    moves `points[0]`. */
module Relaxation {
  import opened Numerics
  import opened Vectors
  import opened Filaments

  /** The half-step rule for one point `p` behind `anchor`: subtract half the
      excess `(dist - L) / dist * vec` of the segment `vec = p - anchor`.
      The new segment keeps its direction and its length is the mean of the
      old length and `L`, so the length error halves. Segments no longer than
      `EPSILON` are left alone. */
  function HalfStep(m: Maths, anchor: Vec, p: Vec): (q: Vec)
    requires m.Valid()
    ensures var v := Sub(p, anchor); var d := m.Norm(v);
      d > EPSILON ==> Sub(q, anchor) == Scale((d + SEGMENT_LENGTH) / (2.0 * d), v)
    ensures var d := m.Norm(Sub(p, anchor));
      d > EPSILON ==> m.Norm(Sub(q, anchor)) - SEGMENT_LENGTH == (d - SEGMENT_LENGTH) / 2.0
    ensures m.Norm(Sub(p, anchor)) <= EPSILON ==> q == p
  {
    var v := Sub(p, anchor);
    var d := m.Norm(v);
    if d > EPSILON then
      var diff := Scale((d - SEGMENT_LENGTH) / d, v);
      var q := Sub(p, Scale(0.5, diff));
      HalfStepFactor(d, SEGMENT_LENGTH);
      assert Sub(q, anchor) == Scale((d + SEGMENT_LENGTH) / (2.0 * d), v);
      PositiveRescale(m, v, d, (d + SEGMENT_LENGTH) / (2.0 * d));
      q
    else
      p
  }

  lemma HalfStepFactor(d: real, len: real)
    requires 0.0 < d
    ensures 1.0 - 0.5 * ((d - len) / d) == (d + len) / (2.0 * d)
    ensures (d + len) / (2.0 * d) * d == (d + len) / 2.0
  {
    var a := 1.0 - 0.5 * ((d - len) / d);
    var b := (d + len) / (2.0 * d);
    assert (d - len) / d * d == d - len;
    assert a * (2.0 * d) == d + len;
    assert b * (2.0 * d) == d + len;
    CancelPositive(a, b, 2.0 * d);
  }

  lemma CancelPositive(a: real, b: real, c: real)
    requires 0.0 < c && a * c == b * c
    ensures a == b
  {
    assert (a - b) * c == 0.0;
  }

  /** A vector of length `d` scaled by a positive `c` has length `c d`. */
  lemma PositiveRescale(m: Maths, v: Vec, d: real, c: real)
    requires m.Valid()
    requires d == m.Norm(v) && 0.0 <= c
    ensures m.Norm(Scale(c, v)) == c * d
  {
    NormScale(m, c, v);
  }

  /** `q` is `p` after the half-step pass of `sim_2.py` / `umwelt.py`. */
  ghost predicate HalfStepped(m: Maths, p: seq<Vec>, q: seq<Vec>)
    requires m.Valid()
  {
    && |q| == |p|
    && (0 < |p| ==> q[0] == p[0])
    && forall i :: 1 <= i < |p| ==> q[i] == HalfStep(m, q[i - 1], p[i])
  }

  /** The `for i in range(1, n_segments)` half-step loop. */
  method HalfStepRelax(m: Maths, p: seq<Vec>) returns (q: seq<Vec>)
    requires m.Valid()
    ensures HalfStepped(m, p, q)
    ensures AtLength(m, p) ==> q == p
  {
    q := p;
    if |p| == 0 {
      return;
    }
    var i := 1;
    while i < |p|
      invariant 1 <= i <= |p| && |q| == |p|
      invariant q[0] == p[0]
      invariant forall k :: 1 <= k < i ==> q[k] == HalfStep(m, q[k - 1], p[k])
      invariant forall k :: i <= k < |p| ==> q[k] == p[k]
      invariant AtLength(m, p) ==> q[..i] == p[..i]
    {
      if AtLength(m, p) {
        assert q[i - 1] == p[i - 1];
        HalfStepOnLength(m, q[i - 1], q[i]);
      }
      q := q[i := HalfStep(m, q[i - 1], q[i])];
      i := i + 1;
    }
  }

  /** Every segment of the chain already has segment length. */
  ghost predicate AtLength(m: Maths, p: seq<Vec>)
    requires m.Valid()
  {
    forall i :: 1 <= i < |p| ==> m.Norm(Sub(p[i - 1], p[i])) == SEGMENT_LENGTH
  }

  /** A point already at segment length is not moved by the half step. */
  lemma HalfStepOnLength(m: Maths, anchor: Vec, p: Vec)
    requires m.Valid()
    requires m.Norm(Sub(anchor, p)) == SEGMENT_LENGTH
    ensures HalfStep(m, anchor, p) == p
  {
    NormFlip(m, anchor, p);
    var v := Sub(p, anchor);
    var c := (SEGMENT_LENGTH + SEGMENT_LENGTH) / (2.0 * SEGMENT_LENGTH);
    assert c == 1.0;
    assert Scale(c, v) == v;
  }

  /** The distance between two points does not depend on their order. */
  lemma NormFlip(m: Maths, a: Vec, b: Vec)
    requires m.Valid()
    ensures m.Norm(Sub(a, b)) == m.Norm(Sub(b, a))
  {
    assert Sub(b, a) == Scale(-1.0, Sub(a, b));
    NormScale(m, -1.0, Sub(a, b));
  }

  /** Each half step leaves the segment at the mean of its old length
      (measured from the already-moved predecessor) and `L`: the length
      error halves. */
  lemma {:induction false} HalfStepHalvesError(m: Maths, p: seq<Vec>, q: seq<Vec>, i: int)
    requires m.Valid()
    requires HalfStepped(m, p, q)
    requires 1 <= i < |p|
    ensures var d := m.Norm(Sub(p[i], q[i - 1]));
      d > EPSILON ==> m.Norm(Sub(q[i], q[i - 1])) - SEGMENT_LENGTH == (d - SEGMENT_LENGTH) / 2.0
  {
    assert q[i] == HalfStep(m, q[i - 1], p[i]);
  }

  /** The snap rule of `cyano_sim.py`: a point farther than `EPSILON` from
      its predecessor is placed at exactly `L` from it, in the same
      direction. */
  function Snap(m: Maths, anchor: Vec, p: Vec): (q: Vec)
    requires m.Valid()
    ensures var v := Sub(anchor, p); var d := m.Norm(v);
      d > EPSILON ==> Sub(anchor, q) == Scale(SEGMENT_LENGTH / d, v) && m.Norm(Sub(anchor, q)) == SEGMENT_LENGTH
    ensures m.Norm(Sub(anchor, p)) <= EPSILON ==> q == p
  {
    var v := Sub(anchor, p);
    var d := m.Norm(v);
    if d > EPSILON then
      var u := Direction(m, v);
      var q := Sub(anchor, Scale(SEGMENT_LENGTH, u));
      RescaledLength(m, v, SEGMENT_LENGTH);
      q
    else
      p
  }

  /** `direction / distance` when the distance exceeds `EPSILON`, the raw
      vector otherwise. */
  function Direction(m: Maths, v: Vec): (u: Vec)
    requires m.Valid()
    ensures m.Norm(v) > EPSILON ==> m.Norm(u) == 1.0
    ensures m.Norm(u) <= 1.0
    ensures m.Norm(v) > EPSILON ==> Scale(SEGMENT_LENGTH, u) == Scale(SEGMENT_LENGTH / m.Norm(v), v)
    ensures m.Norm(v) <= EPSILON ==> u == v
  {
    var d := m.Norm(v);
    if d > EPSILON then
      RescaledLength(m, v, 1.0);
      Scale(1.0 / d, v)
    else
      v
  }

  ghost predicate Snapped(m: Maths, p: seq<Vec>, q: seq<Vec>)
    requires m.Valid()
  {
    && |q| == |p|
    && (0 < |p| ==> q[0] == p[0])
    && forall i :: 1 <= i < |p| ==> q[i] == Snap(m, q[i - 1], p[i])
  }

  /** The first relaxation loop of `cyano_sim.py`. */
  method SnapRelax(m: Maths, p: seq<Vec>) returns (q: seq<Vec>)
    requires m.Valid()
    ensures Snapped(m, p, q)
    ensures AtLength(m, p) ==> q == p
  {
    q := p;
    if |p| == 0 {
      return;
    }
    var i := 1;
    while i < |p|
      invariant 1 <= i <= |p| && |q| == |p|
      invariant q[0] == p[0]
      invariant forall k :: 1 <= k < i ==> q[k] == Snap(m, q[k - 1], p[k])
      invariant forall k :: i <= k < |p| ==> q[k] == p[k]
      invariant AtLength(m, p) ==> q[..i] == p[..i]
    {
      if AtLength(m, p) {
        assert q[i - 1] == p[i - 1];
        SnapOnLength(m, q[i - 1], q[i]);
      }
      q := q[i := Snap(m, q[i - 1], q[i])];
      i := i + 1;
    }
  }

  /** After the snap pass every segment that was longer than `EPSILON`
      (measured from the already-snapped predecessor) has length `L`. */
  lemma {:induction false} SnapFixesLength(m: Maths, p: seq<Vec>, q: seq<Vec>, i: int)
    requires m.Valid()
    requires Snapped(m, p, q)
    requires 1 <= i < |p|
    ensures m.Norm(Sub(q[i - 1], p[i])) > EPSILON ==> m.Norm(Sub(q[i - 1], q[i])) == SEGMENT_LENGTH
  {
    assert q[i] == Snap(m, q[i - 1], p[i]);
  }

  /** A point already at segment length is not moved by the snap. */
  lemma SnapOnLength(m: Maths, anchor: Vec, p: Vec)
    requires m.Valid()
    requires m.Norm(Sub(anchor, p)) == SEGMENT_LENGTH
    ensures Snap(m, anchor, p) == p
  {
    var v := Sub(anchor, p);
    assert Scale(SEGMENT_LENGTH / SEGMENT_LENGTH, v) == v;
  }

  /** `K * prev_direction + (1 - K) * direction`. */
  function Blend(stiffness: real, prev: Vec, own: Vec): Vec {
    Add(Scale(stiffness, prev), Scale(1.0 - stiffness, own))
  }

  /** The bending rule of `cyano_sim.py` for a point `p` with at least two
      predecessors `before` and `anchor`: its own direction is blended with
      the previous segment's direction and the point is placed `L` behind
      the anchor along the blend, normalised when the blend is longer than
      `EPSILON`. When the previous segment is degenerate the own direction
      is used alone, and a degenerate own direction stays unnormalised. */
  function Bend(m: Maths, stiffness: real, before: Vec, anchor: Vec, p: Vec): (q: Vec)
    requires m.Valid()
    ensures var pv := Sub(before, anchor);
      var b := Blend(stiffness, Direction(m, pv), Direction(m, Sub(anchor, p)));
      m.Norm(pv) > EPSILON && m.Norm(b) > EPSILON ==> Sub(anchor, q) == Scale(SEGMENT_LENGTH / m.Norm(b), b)
    ensures var pv := Sub(before, anchor);
      var b := Blend(stiffness, Direction(m, pv), Direction(m, Sub(anchor, p)));
      m.Norm(pv) > EPSILON && m.Norm(b) <= EPSILON ==> Sub(anchor, q) == Scale(SEGMENT_LENGTH, b)
    ensures m.Norm(Sub(before, anchor)) <= EPSILON && m.Norm(Sub(anchor, p)) > EPSILON ==>
      q == Snap(m, anchor, p)
    ensures m.Norm(Sub(before, anchor)) <= EPSILON && m.Norm(Sub(anchor, p)) <= EPSILON ==>
      q == Sub(anchor, Scale(SEGMENT_LENGTH, Sub(anchor, p)))
    ensures var prev := Direction(m, Sub(before, anchor));
      m.Norm(Sub(before, anchor)) > EPSILON && m.Norm(Blend(stiffness, prev, Direction(m, Sub(anchor, p)))) > EPSILON ==>
      m.Norm(Sub(anchor, q)) == SEGMENT_LENGTH
    ensures (1.0 + EPSILON) / 2.0 < stiffness <= 1.0 && m.Norm(Sub(before, anchor)) > EPSILON ==>
      m.Norm(Sub(anchor, q)) == SEGMENT_LENGTH
    ensures stiffness == 1.0 && m.Norm(Sub(before, anchor)) > EPSILON ==>
      Sub(anchor, q) == Scale(SEGMENT_LENGTH / m.Norm(Sub(before, anchor)), Sub(before, anchor))
    ensures stiffness == 0.0 && m.Norm(Sub(before, anchor)) > EPSILON && m.Norm(Sub(anchor, p)) > EPSILON ==>
      q == Snap(m, anchor, p)
  {
    var own := Direction(m, Sub(anchor, p));
    var prevVec := Sub(before, anchor);
    var dir :=
      if m.Norm(prevVec) > EPSILON then
        var blend := Blend(stiffness, Direction(m, prevVec), own);
        Direction(m, blend)
      else
        own;
    BendLength(m, stiffness, prevVec, own, dir);
    Sub(anchor, Scale(SEGMENT_LENGTH, dir))
  }

  lemma BendLength(m: Maths, stiffness: real, prevVec: Vec, own: Vec, dir: Vec)
    requires m.Valid()
    requires m.Norm(own) <= 1.0
    requires m.Norm(prevVec) > EPSILON ==> dir == Direction(m, Blend(stiffness, Direction(m, prevVec), own))
    ensures m.Norm(prevVec) > EPSILON && m.Norm(Blend(stiffness, Direction(m, prevVec), own)) > EPSILON ==>
      m.Norm(Scale(SEGMENT_LENGTH, dir)) == SEGMENT_LENGTH
    ensures (1.0 + EPSILON) / 2.0 < stiffness <= 1.0 && m.Norm(prevVec) > EPSILON ==>
      m.Norm(Scale(SEGMENT_LENGTH, dir)) == SEGMENT_LENGTH
    ensures stiffness == 1.0 && m.Norm(prevVec) > EPSILON ==>
      Scale(SEGMENT_LENGTH, dir) == Scale(SEGMENT_LENGTH / m.Norm(prevVec), prevVec)
    ensures stiffness == 0.0 && m.Norm(prevVec) > EPSILON && m.Norm(own) == 1.0 ==> dir == own
  {
    if m.Norm(prevVec) > EPSILON {
      var prev := Direction(m, prevVec);
      var blend := Blend(stiffness, prev, own);
      NormScale(m, SEGMENT_LENGTH, dir);
      if (1.0 + EPSILON) / 2.0 < stiffness <= 1.0 {
        BlendLowerBound(m, stiffness, prev, own);
      }
      if stiffness == 1.0 {
        assert blend == prev;
        assert Direction(m, prev) == prev by {
          assert m.Norm(prev) == 1.0;
          assert Scale(1.0 / 1.0, prev) == prev;
        }
      }
      if stiffness == 0.0 && m.Norm(own) == 1.0 {
        assert blend == own;
        assert Scale(1.0 / 1.0, own) == own;
      }
    }
  }

  /** With stiffness above one half, blending a unit direction with a
      direction of length at most 1 cannot shrink below `2 K - 1`. */
  lemma BlendLowerBound(m: Maths, stiffness: real, a: Vec, b: Vec)
    requires m.Valid()
    requires m.Norm(a) == 1.0 && m.Norm(b) <= 1.0
    requires 0.5 < stiffness <= 1.0
    ensures m.Norm(Blend(stiffness, a, b)) >= 2.0 * stiffness - 1.0
  {
    var c := Blend(stiffness, a, b);
    var na, nb, nc := m.Norm(a), m.Norm(b), m.Norm(c);
    NormSquared(m, a, na);
    NormSquared(m, b, nb);
    NormSquared(m, c, nc);
    BlendNormBound(a, b, stiffness, na, nb, c, nc);
  }

  lemma BlendNormBound(a: Vec, b: Vec, k: real, na: real, nb: real, c: Vec, nc: real)
    requires na == 1.0 && na * na == Dot(a, a)
    requires 0.0 <= nb <= 1.0 && nb * nb == Dot(b, b)
    requires c == Blend(k, a, b)
    requires 0.0 <= nc && nc * nc == Dot(c, c)
    requires 0.5 < k <= 1.0
    ensures nc >= 2.0 * k - 1.0
  {
    var j := 1.0 - k;
    var ab := Dot(a, b);
    BlendExpand(a, b, k, j);
    CauchySchwarz(a, b);
    assert ab * ab <= nb * nb;
    SquareBounded(ab, nb);
    ScalarBlend(k, j, ab, nb, nc * nc);
    ScalarRoot(k, j, nb, nc);
  }

  /** `|K a + (1 - K) b|^2` expanded for a unit `a`. */
  lemma BlendExpand(a: Vec, b: Vec, k: real, j: real)
    requires j == 1.0 - k && Dot(a, a) == 1.0
    ensures var c := Blend(k, a, b);
      Dot(c, c) == k * k + 2.0 * k * j * Dot(a, b) + j * j * Dot(b, b)
  {
    BlendAsSum(a, b, k, j);
    SumExpand(a, b, k, j);
  }

  /** A blend with weights `k` and `1 - k` is the sum of the scaled vectors. */
  lemma BlendAsSum(a: Vec, b: Vec, k: real, j: real)
    requires j == 1.0 - k
    ensures Blend(k, a, b) == Add(Scale(k, a), Scale(j, b))
  {
  }

  /** BlendExpand for any pair of weights. */
  lemma SumExpand(a: Vec, b: Vec, k: real, j: real)
    requires Dot(a, a) == 1.0
    ensures var c := Add(Scale(k, a), Scale(j, b));
      Dot(c, c) == k * k + 2.0 * k * j * Dot(a, b) + j * j * Dot(b, b)
  {
    var c := Add(Scale(k, a), Scale(j, b));
    BlendCoordinates(k, j, a.x, a.y, b.x, b.y, c.x, c.y);
  }

  /** BlendExpand on coordinates. */
  lemma BlendCoordinates(k: real, j: real, ax: real, ay: real, bx: real, by_: real, cx: real, cy: real)
    requires cx == k * ax + j * bx && cy == k * ay + j * by_
    requires ax * ax + ay * ay == 1.0
    ensures cx * cx + cy * cy == k * k + 2.0 * k * j * (ax * bx + ay * by_) + j * j * (bx * bx + by_ * by_)
  {
    SquareOfSum(k, j, ax, bx, cx);
    SquareOfSum(k, j, ay, by_, cy);
    Assemble(k * k, 2.0 * k * j, j * j, ax * ax, ay * ay, ax * bx, ay * by_, bx * bx, by_ * by_, cx * cx, cy * cy);
  }

  /** One coordinate of a blend, squared. */
  lemma SquareOfSum(k: real, j: real, u: real, w: real, c: real)
    requires c == k * u + j * w
    ensures c * c == k * k * (u * u) + 2.0 * k * j * (u * w) + j * j * (w * w)
  {
  }

  /** Adding the two squared coordinates of a blend of a unit vector. */
  lemma Assemble(p: real, q: real, r: real, u1: real, u2: real, v1: real, v2: real, w1: real, w2: real,
                 c1: real, c2: real)
    requires c1 == p * u1 + q * v1 + r * w1 && c2 == p * u2 + q * v2 + r * w2
    requires u1 + u2 == 1.0
    ensures c1 + c2 == p + q * (v1 + v2) + r * (w1 + w2)
  {
    assert p * u1 + p * u2 == p * (u1 + u2);
  }

  /** `k^2 + 2 k j ab + j^2 nb^2 >= (k - j nb)^2` when `ab >= -nb`. */
  lemma ScalarBlend(k: real, j: real, ab: real, nb: real, cc: real)
    requires 0.0 <= k && 0.0 <= j
    requires -nb <= ab
    requires cc == k * k + 2.0 * k * j * ab + j * j * (nb * nb)
    ensures cc >= (k - j * nb) * (k - j * nb)
  {
    var w := 2.0 * k * j;
    assert (k - j * nb) * (k - j * nb) == k * k - w * nb + j * j * (nb * nb);
    MulNonNegMono(2.0 * k, 0.0, j);
    assert 0.0 <= w;
    MulNonNegMono(w, -nb, ab);
  }

  /** From `nc^2 >= (k - j nb)^2` with `nb <= 1` and `j = 1 - k`, `nc >= 2k - 1`. */
  lemma ScalarRoot(k: real, j: real, nb: real, nc: real)
    requires 0.5 < k <= 1.0 && j == 1.0 - k
    requires 0.0 <= nb <= 1.0 && 0.0 <= nc
    requires nc * nc >= (k - j * nb) * (k - j * nb)
    ensures nc >= 2.0 * k - 1.0
  {
    var s := k - j * nb;
    MulNonNegMono(j, nb, 1.0);
    assert 2.0 * k - 1.0 <= s;
    SquareLeq(2.0 * k - 1.0, s);
    RootLeq(2.0 * k - 1.0, nc);
  }

  ghost predicate Bent(m: Maths, stiffness: real, p: seq<Vec>, q: seq<Vec>)
    requires m.Valid()
  {
    && |q| == |p|
    && (0 < |p| ==> q[0] == p[0])
    && (1 < |p| ==> q[1] == p[1])
    && forall i :: 2 <= i < |p| ==>
      q[i] == (if stiffness > 0.0 then Bend(m, stiffness, q[i - 2], q[i - 1], p[i]) else p[i])
  }

  /** The second relaxation loop of `cyano_sim.py`. Point 1 is never
      reassigned there (the assignment sits under `if i > 1`). With a
      stiffness comfortably above one half and a non-degenerate first
      segment, every later segment comes out at exactly segment length. */
  method BendRelax(m: Maths, stiffness: real, p: seq<Vec>) returns (q: seq<Vec>)
    requires m.Valid()
    ensures Bent(m, stiffness, p, q)
    ensures stiffness <= 0.0 ==> q == p
    ensures (1.0 + EPSILON) / 2.0 < stiffness <= 1.0 && 1 < |p| && m.Norm(Sub(p[0], p[1])) > EPSILON ==>
      forall i :: 2 <= i < |p| ==> m.Norm(Sub(q[i - 1], q[i])) == SEGMENT_LENGTH
  {
    q := p;
    if stiffness <= 0.0 || |p| <= 2 {
      return;
    }
    var i := 2;
    while i < |p|
      invariant BentUpTo(m, stiffness, p, q, i)
    {
      BendStep(m, stiffness, p, q, i);
      q := q[i := Bend(m, stiffness, q[i - 2], q[i - 1], q[i])];
      i := i + 1;
    }
    assert Bent(m, stiffness, p, q);
    if (1.0 + EPSILON) / 2.0 < stiffness <= 1.0 && m.Norm(Sub(p[0], p[1])) > EPSILON {
      BentLengths(m, stiffness, p, q);
    }
  }

  /** The bending loop has reached point `i`: the points before it are bent,
      the rest are as they came in. */
  ghost predicate BentUpTo(m: Maths, stiffness: real, p: seq<Vec>, q: seq<Vec>, i: int)
    requires m.Valid()
  {
    && 2 <= i <= |p| && |q| == |p|
    && q[0] == p[0] && q[1] == p[1]
    && (forall k :: 2 <= k < i ==> q[k] == Bend(m, stiffness, q[k - 2], q[k - 1], p[k]))
    && (forall k :: i <= k < |p| ==> q[k] == p[k])
  }

  /** Bending point `i` moves the loop on by one point. */
  lemma BendStep(m: Maths, stiffness: real, p: seq<Vec>, q: seq<Vec>, i: int)
    requires m.Valid()
    requires BentUpTo(m, stiffness, p, q, i) && i < |p|
    ensures BentUpTo(m, stiffness, p, q[i := Bend(m, stiffness, q[i - 2], q[i - 1], q[i])], i + 1)
  {
    var r := q[i := Bend(m, stiffness, q[i - 2], q[i - 1], q[i])];
    forall k | 2 <= k < i + 1
      ensures r[k] == Bend(m, stiffness, r[k - 2], r[k - 1], p[k])
    {
      assert r[k - 2] == q[k - 2] && r[k - 1] == q[k - 1];
    }
  }

  /** Every segment of a bent chain from the second on has segment length. */
  lemma BentLengths(m: Maths, stiffness: real, p: seq<Vec>, q: seq<Vec>)
    requires m.Valid()
    requires Bent(m, stiffness, p, q) && 1 < |p|
    requires (1.0 + EPSILON) / 2.0 < stiffness <= 1.0 && m.Norm(Sub(p[0], p[1])) > EPSILON
    ensures forall i :: 2 <= i < |p| ==> m.Norm(Sub(q[i - 1], q[i])) == SEGMENT_LENGTH
  {
    forall k | 2 <= k < |p|
      ensures m.Norm(Sub(q[k - 1], q[k])) == SEGMENT_LENGTH
    {
      BentSegment(m, stiffness, p, q, k);
    }
  }

  /** Along a bent chain, every segment from the second on has segment
      length, given a stiffness above one half and a first segment longer
      than `EPSILON`. */
  lemma {:induction false} BentSegment(m: Maths, stiffness: real, p: seq<Vec>, q: seq<Vec>, i: int)
    requires m.Valid()
    requires Bent(m, stiffness, p, q) && 2 <= i < |p|
    requires (1.0 + EPSILON) / 2.0 < stiffness <= 1.0 && m.Norm(Sub(p[0], p[1])) > EPSILON
    ensures m.Norm(Sub(q[i - 1], q[i])) == SEGMENT_LENGTH
    decreases i
  {
    if i > 2 {
      BentSegment(m, stiffness, p, q, i - 1);
    }
    assert m.Norm(Sub(q[i - 2], q[i - 1])) > EPSILON;
    assert q[i] == Bend(m, stiffness, q[i - 2], q[i - 1], p[i]);
  }

  /** `q` is the chain `p` after the relaxation passes of variant `v`. */
  ghost predicate Relaxed(m: Maths, v: Variant, p: seq<Vec>, q: seq<Vec>)
    requires m.Valid()
  {
    if v == Cyano then
      exists mid :: Snapped(m, p, mid) && Bent(m, BENDING_STIFFNESS, mid, q)
    else
      HalfStepped(m, p, q)
  }

  /** The relaxation passes of `Filament.update` for variant `v`. The head
      is never moved. In `cyano_sim.py`, when the first segment is longer
      than `EPSILON` as the snap pass finds it, every segment behind it
      ends at exactly segment length. */
  method Relax(m: Maths, v: Variant, p: seq<Vec>) returns (q: seq<Vec>)
    requires m.Valid()
    requires 1 < |p|
    ensures Relaxed(m, v, p, q)
    ensures |q| == |p| && q[0] == p[0]
    ensures v == Cyano && m.Norm(Sub(p[0], p[1])) > EPSILON ==>
      forall i :: 2 <= i < |q| ==> m.Norm(Sub(q[i - 1], q[i])) == SEGMENT_LENGTH
  {
    if v == Cyano {
      var mid := SnapRelax(m, p);
      SnapFixesLength(m, p, mid, 1);
      q := BendRelax(m, BENDING_STIFFNESS, mid);
      assert Relaxed(m, v, p, q);
      if m.Norm(Sub(p[0], p[1])) > EPSILON {
        assert m.Norm(Sub(mid[0], mid[1])) > EPSILON;
      }
    } else {
      q := HalfStepRelax(m, p);
    }
  }
}
