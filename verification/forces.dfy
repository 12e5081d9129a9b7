/** The force model shared by the three filament scripts: the folded angle
    difference, the bonding ("sliding") decision, the Lebwohl-Lasher
    alignment torque and the per-filament slide velocity. */
module Forces {
  import opened Numerics
  import opened Vectors
  import opened Collections
  import opened Filaments

  /** `(d + pi) % (2 pi) - pi`: the representative of the angle `d` in
      `[-pi, pi)`. */
  function WrapAngle(d: real): (w: real)
    ensures -PI <= w < PI
    ensures Congruent(w, d, TAU)
  {
    var u := FMod(d + PI, TAU);
    WrapAngleCongruent(d, u);
    u - PI
  }

  lemma WrapAngleCongruent(d: real, u: real)
    requires Congruent(d + PI, u, TAU)
    ensures Congruent(u - PI, d, TAU)
  {
    CongruentSymmetric(d + PI, u, TAU);
    CongruentShift(u, d + PI, -PI, TAU);
  }

  /** The only value of `[-pi, pi)` congruent to `d` is `WrapAngle(d)`. */
  lemma WrapAngleUnique(d: real, v: real)
    requires -PI <= v < PI
    requires Congruent(v, d, TAU)
    ensures v == WrapAngle(d)
  {
    CongruentShift(v, d, PI, TAU);
    CongruentSymmetric(v + PI, d + PI, TAU);
    FModUnique(d + PI, TAU, v + PI);
  }

  /** `dtheta = abs((theta1 - theta2 + pi) % (2 pi) - pi)` after both
      headings are first wrapped into `[0, 2 pi)`: the unsigned angle
      between two headings, folded into `[0, pi]`. */
  function AngleGap(theta1: real, theta2: real): (g: real)
    ensures 0.0 <= g <= PI
    ensures Congruent(g, theta1 - theta2, TAU) || Congruent(-g, theta1 - theta2, TAU)
  {
    var a := FMod(theta1, TAU);
    var b := FMod(theta2, TAU);
    var w := WrapAngle(a - b);
    AngleGapCongruent(theta1, theta2, a, b, w);
    Abs(w)
  }

  lemma AngleGapCongruent(theta1: real, theta2: real, a: real, b: real, w: real)
    requires Congruent(theta1, a, TAU) && Congruent(theta2, b, TAU)
    requires Congruent(w, a - b, TAU)
    ensures Congruent(w, theta1 - theta2, TAU)
    ensures Congruent(-w, -(theta1 - theta2), TAU)
  {
    var k: int :| theta1 - a == Multiple(k, TAU);
    var j: int :| theta2 - b == Multiple(j, TAU);
    var i: int :| w - (a - b) == Multiple(i, TAU);
    MultipleAdd(i, j, TAU);
    MultipleAdd(i + j, -k, TAU);
    assert w - (theta1 - theta2) == Multiple(i + j - k, TAU);
    CongruentNegate(w, theta1 - theta2, TAU);
  }

  /** Negating an angle negates its representative, except at `-pi`, which
      is its own representative's negation modulo a full turn. */
  lemma WrapAngleNegate(d: real)
    ensures WrapAngle(-d) == -WrapAngle(d) || (WrapAngle(d) == -PI && WrapAngle(-d) == -PI)
  {
    var w := WrapAngle(d);
    CongruentNegate(w, d, TAU);
    if w == -PI {
      HalfTurnCongruent(d);
      WrapAngleUnique(-d, -PI);
    } else {
      WrapAngleUnique(-d, -w);
    }
  }

  lemma HalfTurnCongruent(d: real)
    requires Congruent(PI, -d, TAU)
    ensures Congruent(-PI, -d, TAU)
  {
    var k: int :| PI - -d == Multiple(k, TAU);
    MultipleAdd(k, -1, TAU);
    assert -PI - -d == Multiple(k - 1, TAU);
  }

  /** The folded difference does not depend on which heading comes first. */
  lemma AngleGapSymmetric(theta1: real, theta2: real)
    ensures AngleGap(theta1, theta2) == AngleGap(theta2, theta1)
  {
    var a := FMod(theta1, TAU);
    var b := FMod(theta2, TAU);
    assert b - a == -(a - b);
    WrapAngleNegate(a - b);
  }

  /** The bonding rule for one neighbour: nearly parallel headings bond with
      direction +1, nearly antiparallel ones with -1, anything in between
      does not bond. */
  function BondDirection(theta1: real, theta2: real): (r: Option<int>)
    ensures r == Some(1) <==> AngleGap(theta1, theta2) < ANGLE_PARALLEL_THRESHOLD
    ensures r == Some(-1) <==> AngleGap(theta1, theta2) > ANGLE_ANTIPARALLEL_THRESHOLD
    ensures r.Some? ==> IsSign(r.value)
  {
    var g := AngleGap(theta1, theta2);
    if g < ANGLE_PARALLEL_THRESHOLD then Some(1)
    else if g > ANGLE_ANTIPARALLEL_THRESHOLD then Some(-1)
    else None
  }

  /** Two filaments agree on whether and how they would bond with each other. */
  lemma BondDirectionSymmetric(theta1: real, theta2: real)
    ensures BondDirection(theta1, theta2) == BondDirection(theta2, theta1)
  {
    AngleGapSymmetric(theta1, theta2);
  }

  /** Equal headings are parallel: they bond with direction +1. */
  lemma EqualHeadingsBondParallel(theta: real)
    ensures BondDirection(theta, theta) == Some(1)
  {
    var a := FMod(theta, TAU);
    CongruentPeriod(0.0, TAU);
    assert a - a == 0.0;
    WrapAngleUnique(0.0, 0.0);
  }

  /** `sum_j sin(2 (theta_i - theta_j))`. */
  function SinSum(m: Maths, thetaI: real, neighbours: seq<real>): (s: real)
    requires m.Valid()
    ensures -(|neighbours| as real) <= s <= |neighbours| as real
  {
    if |neighbours| == 0 then 0.0
    else
      var last := neighbours[|neighbours| - 1];
      UnitBounds(m, 2.0 * (thetaI - last));
      SinSum(m, thetaI, neighbours[..|neighbours| - 1]) + m.sin(2.0 * (thetaI - last))
  }

  /** `lebwohl_lasher_force`: twice the mean of `sin(2 (theta_i - theta_j))`
      over the neighbours, and 0.0 without neighbours. */
  function LebwohlLasher(m: Maths, thetaI: real, neighbours: seq<real>): (r: real)
    requires m.Valid()
    ensures |neighbours| == 0 ==> r == 0.0
    ensures -2.0 <= r <= 2.0
  {
    if |neighbours| == 0 then 0.0
    else
      var n := |neighbours| as real;
      var s := SinSum(m, thetaI, neighbours);
      MeanBound(s, n);
      2.0 * (s / n)
  }

  /** Against neighbours that all share one heading, the torque is
      `2 sin(2 (theta_i - theta_j))` whatever their number. */
  lemma {:induction false} LebwohlLasherUniform(m: Maths, thetaI: real, neighbours: seq<real>, t: real)
    requires m.Valid()
    requires 0 < |neighbours|
    requires forall j :: 0 <= j < |neighbours| ==> neighbours[j] == t
    ensures LebwohlLasher(m, thetaI, neighbours) == 2.0 * m.sin(2.0 * (thetaI - t))
  {
    SinSumUniform(m, thetaI, neighbours, t);
    var n := |neighbours| as real;
    var x := m.sin(2.0 * (thetaI - t));
    assert SinSum(m, thetaI, neighbours) == n * x;
    MeanOfEqual(n, x);
  }

  lemma {:induction false} SinSumUniform(m: Maths, thetaI: real, neighbours: seq<real>, t: real)
    requires m.Valid()
    requires forall j :: 0 <= j < |neighbours| ==> neighbours[j] == t
    ensures SinSum(m, thetaI, neighbours) == |neighbours| as real * m.sin(2.0 * (thetaI - t))
  {
    if |neighbours| > 0 {
      var k := |neighbours| - 1;
      var x := m.sin(2.0 * (thetaI - t));
      SinSumUniform(m, thetaI, neighbours[..k], t);
      assert SinSum(m, thetaI, neighbours) == SinSum(m, thetaI, neighbours[..k]) + x;
      SuccTimes(k as real, x);
    }
  }

  /** What `calculate_slide_velocity` needs of its arguments: the filament
      and its neighbours are members of the population, every member has a
      head, and there is one uniform draw per neighbour slot. */
  ghost predicate ScanInputs(pop: seq<Filament>, self: nat, neighbours: seq<nat>, draws: seq<real>) {
    && self < |pop|
    && |draws| == |neighbours|
    && (forall k :: 0 <= k < |neighbours| ==> neighbours[k] < |pop|)
    && (forall i :: 0 <= i < |pop| ==> |pop[i].points| > 0)
  }

  /** The neighbour in slot `k` would bond: it is another filament, its head
      is within `SLIDE_DISTANCE`, the draw passes `SLIDE_PROBABILITY` and the
      headings are parallel or antiparallel enough. */
  ghost predicate SlotBonds(m: Maths, pop: seq<Filament>, self: nat, neighbours: seq<nat>, draws: seq<real>, k: int)
    requires m.Valid() && ScanInputs(pop, self, neighbours, draws)
    requires 0 <= k < |neighbours|
  {
    var f, other := pop[self], pop[neighbours[k]];
    && neighbours[k] != self
    && m.Norm(Sub(other.points[0], f.points[0])) <= SLIDE_DISTANCE
    && draws[k] < SLIDE_PROBABILITY
    && BondDirection(f.theta, other.theta).Some?
  }

  /** Slot `k` is the first slot that bonds. */
  ghost predicate FirstBond(m: Maths, pop: seq<Filament>, self: nat, neighbours: seq<nat>, draws: seq<real>, k: int)
    requires m.Valid() && ScanInputs(pop, self, neighbours, draws)
  {
    && 0 <= k < |neighbours|
    && SlotBonds(m, pop, self, neighbours, draws, k)
    && forall i :: 0 <= i < k ==> !SlotBonds(m, pop, self, neighbours, draws, i)
  }

  /** The relation between a frame state and what `calculate_slide_velocity`
      returns for filament `self`: the filament after the call and the slide
      velocity, as SlideVelocity promises them. */
  ghost predicate Slid(m: Maths, pop: seq<Filament>, self: nat, neighbours: seq<nat>, draws: seq<real>,
                       f: Filament, velocity: Vec)
    requires m.Valid() && ScanInputs(pop, self, neighbours, draws)
    requires pop[self].isStuck ==> pop[self].stuckTo < |pop|
  {
    && f == pop[self].(isStuck := f.isStuck, stuckTo := f.stuckTo, stuckDirection := f.stuckDirection)
    && (pop[self].isStuck ==>
      && f == pop[self]
      && velocity == Scale(f.stuckDirection as real * SLIDE_VELOCITY, m.Unit(pop[f.stuckTo].theta)))
    && (!pop[self].isStuck && !f.isStuck ==>
      && f == pop[self]
      && velocity == Zero
      && forall k :: 0 <= k < |neighbours| ==> !SlotBonds(m, pop, self, neighbours, draws, k))
    && (!pop[self].isStuck && f.isStuck ==>
      && f.stuckTo < |pop| && f.stuckTo != self && IsSign(f.stuckDirection)
      && velocity == Scale(f.stuckDirection as real * SLIDE_VELOCITY, m.Unit(pop[f.stuckTo].theta))
      && exists k ::
        && FirstBond(m, pop, self, neighbours, draws, k)
        && f.stuckTo == neighbours[k]
        && Some(f.stuckDirection) == BondDirection(pop[self].theta, pop[neighbours[k]].theta))
  }

  /** `calculate_slide_velocity`. A bonded filament slides along its
      partner's current heading without looking at its neighbours. Otherwise
      the neighbours are scanned in order and the first one that bonds becomes
      the partner: `is_stuck`, `stuck_to` and `stuck_direction` of this
      filament are set and nothing else changes. Without a bond the velocity
      is zero and the filament is unchanged. (`sim_2.py` returns at the first
      bond, the other two scripts add to a zero vector and break; over the
      reals the results coincide.)
      The state returned is the filament after the call. */
  method SlideVelocity(m: Maths, pop: seq<Filament>, self: nat, neighbours: seq<nat>, draws: seq<real>)
    returns (f: Filament, velocity: Vec)
    requires m.Valid()
    requires ScanInputs(pop, self, neighbours, draws)
    requires pop[self].isStuck ==> pop[self].stuckTo < |pop|
    ensures f == pop[self].(isStuck := f.isStuck, stuckTo := f.stuckTo, stuckDirection := f.stuckDirection)
    ensures pop[self].isStuck ==>
      && f == pop[self]
      && velocity == Scale(f.stuckDirection as real * SLIDE_VELOCITY, m.Unit(pop[f.stuckTo].theta))
    ensures !pop[self].isStuck && !f.isStuck ==>
      && f == pop[self]
      && velocity == Zero
      && forall k :: 0 <= k < |neighbours| ==> !SlotBonds(m, pop, self, neighbours, draws, k)
    ensures !pop[self].isStuck && f.isStuck ==>
      exists k :: FirstBond(m, pop, self, neighbours, draws, k)
        && f.stuckTo == neighbours[k]
        && Some(f.stuckDirection) == BondDirection(pop[self].theta, pop[neighbours[k]].theta)
    ensures !pop[self].isStuck && f.isStuck ==> f.stuckTo < |pop| && IsSign(f.stuckDirection)
    ensures !pop[self].isStuck && f.isStuck ==>
      && f.stuckTo != self
      && velocity == Scale(f.stuckDirection as real * SLIDE_VELOCITY, m.Unit(pop[f.stuckTo].theta))
  {
    f := pop[self];
    if f.isStuck {
      var other := pop[f.stuckTo];
      velocity := Scale(f.stuckDirection as real * SLIDE_VELOCITY, m.Unit(other.theta));
      return;
    }
    velocity := Zero;
    var k := 0;
    while k < |neighbours|
      invariant 0 <= k <= |neighbours|
      invariant f == pop[self]
      invariant forall i :: 0 <= i < k ==> !SlotBonds(m, pop, self, neighbours, draws, i)
    {
      var j := neighbours[k];
      if j != self {
        var other := pop[j];
        var dist := m.Norm(Sub(other.points[0], f.points[0]));
        if dist <= SLIDE_DISTANCE && draws[k] < SLIDE_PROBABILITY {
          var bond := BondDirection(f.theta, other.theta);
          if bond.Some? {
            assert FirstBond(m, pop, self, neighbours, draws, k);
            f := f.(isStuck := true, stuckTo := j, stuckDirection := bond.value);
            velocity := Scale(bond.value as real * SLIDE_VELOCITY, m.Unit(other.theta));
            return;
          }
        }
      }
      k := k + 1;
    }
  }
}
