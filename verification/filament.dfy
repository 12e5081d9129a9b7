/** The active filament of `sim_2.py`, `cyano_sim.py` and `umwelt.py`: its
    parameters, its state, its construction and the boundary policy that
    clamps the head into the square domain and mirrors the heading. The
    three scripts share these parts line for line; where they differ
    (time step, heading smoothing, relaxation) the difference is a `Variant`. */
module Filaments {
  import opened Numerics
  import opened Vectors

  // Parameters common to the three scripts.
  const V0_MEAN: real := 3.0
  const CORRELATION_TIME: real := 470.0
  const DELTA_KAPPA: real := 340.0
  /** `D_omega = (v0_mean * delta_kappa) ** 2 / tau`. */
  const D_OMEGA: real := (V0_MEAN * DELTA_KAPPA) * (V0_MEAN * DELTA_KAPPA) / CORRELATION_TIME
  const DOMAIN_SIZE: real := 100.0
  const N_SEGMENTS: nat := 30
  const FILAMENT_LENGTH: real := 15.0
  const SEGMENT_LENGTH: real := FILAMENT_LENGTH / N_SEGMENTS as real
  /** Heads start at least this far from every wall. */
  const MARGIN: real := FILAMENT_LENGTH + 5.0
  const REVERSAL_RATE: real := 0.01

  const SLIDE_PROBABILITY: real := 0.04
  const SLIDE_DISTANCE: real := 3.0
  const SLIDE_VELOCITY: real := 1.5
  const ANGLE_PARALLEL_THRESHOLD: real := PI / 4.0
  const ANGLE_ANTIPARALLEL_THRESHOLD: real := 3.0 * PI / 4.0

  /** Scale applied to the raw Lebwohl-Lasher torque by each driver loop. */
  const ALIGNMENT_STRENGTH: real := 0.02
  /** `cyano_sim.py` only: weight of the previous segment in the bending blend. */
  const BENDING_STIFFNESS: real := 0.99
  /** `cyano_sim.py` only: exponential smoothing factor of the heading. */
  const SMOOTHING_ALPHA: real := 0.2
  /** Segments shorter than this are not renormalised. */
  const EPSILON: real := 0.00000001

  /** Which of the three scripts is being followed. */
  datatype Variant = Sim2 | Cyano | Umwelt

  /** `dt`: 0.2 in `sim_2.py` and `cyano_sim.py`, 0.5 in `umwelt.py`. */
  function Dt(v: Variant): (dt: real)
    ensures 0.0 < dt
  {
    if v == Umwelt then 0.5 else 0.2
  }

  /** One filament. `points[0]` is the head. `stuckTo` is the index of the
      partner in the population (the script holds a reference; `None` before
      any bond is irrelevant because it is read only while `isStuck`).
      `smoothedTheta` is only advanced by the `Cyano` variant. */
  datatype Filament = Filament(
    points: seq<Vec>,
    theta: real,
    smoothedTheta: real,
    polarity: int,
    speed: real,
    isStuck: bool,
    stuckTo: nat,
    stuckDirection: int)

  predicate InBox(p: Vec) {
    0.0 <= p.x <= DOMAIN_SIZE && 0.0 <= p.y <= DOMAIN_SIZE
  }

  predicate IsSign(k: int) {
    k == 1 || k == -1
  }

  /** The invariants every filament of a population of size `n` keeps: a
      full chain, a polarity of +1 or -1, and a bond, once formed, to a
      different member with a direction of +1 or -1. */
  ghost predicate WellFormed(f: Filament, self: nat, n: nat) {
    && |f.points| == N_SEGMENTS
    && IsSign(f.polarity)
    && (f.isStuck ==> f.stuckTo < n && f.stuckTo != self && IsSign(f.stuckDirection))
  }

  ghost predicate WellFormedPopulation(pop: seq<Filament>) {
    forall i :: 0 <= i < |pop| ==> WellFormed(pop[i], i, |pop|)
  }

  /** `Filament.__init__`: the heading is `uniform(0, 2 pi)`, drawn here as
      `2 pi * u`; the head is `rand(2) * (domain_size - 2 margin) + margin`;
      the chain trails straight behind the head at segment spacing. */
  function NewFilament(m: Maths, u: real, rx: real, ry: real): (f: Filament)
    requires m.Valid()
    requires 0.0 <= u < 1.0 && 0.0 <= rx < 1.0 && 0.0 <= ry < 1.0
    ensures |f.points| == N_SEGMENTS
    ensures forall i :: 1 <= i < N_SEGMENTS ==>
      m.Norm(Sub(f.points[i - 1], f.points[i])) == SEGMENT_LENGTH
    ensures forall i :: 1 <= i < N_SEGMENTS ==>
      Sub(f.points[i - 1], f.points[i]) == Scale(SEGMENT_LENGTH, m.Unit(f.theta))
    ensures MARGIN <= f.points[0].x < DOMAIN_SIZE - MARGIN
    ensures MARGIN <= f.points[0].y < DOMAIN_SIZE - MARGIN
    ensures 0.0 <= f.theta < TAU && f.smoothedTheta == f.theta
    ensures f.polarity == 1 && f.speed == V0_MEAN
    ensures !f.isStuck && f.stuckDirection == 0
  {
    var theta := TAU * u;
    var start := Vec(rx * (DOMAIN_SIZE - 2.0 * MARGIN) + MARGIN, ry * (DOMAIN_SIZE - 2.0 * MARGIN) + MARGIN);
    var points := StraightChain(m, start, theta);
    assert TAU * u < TAU * 1.0 by {
      MulLeftStrict(TAU, u, 1.0);
    }
    Filament(points, theta, theta, 1, V0_MEAN, false, 0, 0)
  }

  /** The `i`-th point of a straight chain: `start - i * segment_length * dir`. */
  function Trail(start: Vec, dir: Vec, i: int): Vec {
    Sub(start, Scale(i as real * SEGMENT_LENGTH, dir))
  }

  /** The initial chain of `N_SEGMENTS` points trailing behind `start`. */
  function StraightChain(m: Maths, start: Vec, theta: real): (points: seq<Vec>)
    requires m.Valid()
    ensures |points| == N_SEGMENTS && points[0] == start
    ensures forall i :: 1 <= i < N_SEGMENTS ==>
      Sub(points[i - 1], points[i]) == Scale(SEGMENT_LENGTH, m.Unit(theta))
    ensures forall i :: 1 <= i < N_SEGMENTS ==>
      m.Norm(Sub(points[i - 1], points[i])) == SEGMENT_LENGTH
  {
    var dir := m.Unit(theta);
    var points := seq(N_SEGMENTS, i => Trail(start, dir, i));
    assert points[0] == start;
    forall i | 1 <= i < N_SEGMENTS
      ensures Sub(points[i - 1], points[i]) == Scale(SEGMENT_LENGTH, dir)
    {
      TrailingSpacing(start, dir, i);
    }
    UnitStep(m, theta);
    points
  }

  /** A step of one segment length along a heading is one segment long. */
  lemma UnitStep(m: Maths, theta: real)
    requires m.Valid()
    ensures m.Norm(Scale(SEGMENT_LENGTH, m.Unit(theta))) == SEGMENT_LENGTH
  {
    NormScale(m, SEGMENT_LENGTH, m.Unit(theta));
    UnitBounds(m, theta);
  }

  /** Consecutive points of a straight chain differ by exactly `L d`. */
  lemma TrailingSpacing(start: Vec, dir: Vec, i: int)
    ensures Sub(Trail(start, dir, i - 1), Trail(start, dir, i)) == Scale(SEGMENT_LENGTH, dir)
  {
    var a := (i - 1) as real * SEGMENT_LENGTH;
    var b := i as real * SEGMENT_LENGTH;
    assert b - a == SEGMENT_LENGTH;
    assert b * dir.x - a * dir.x == (b - a) * dir.x;
    assert b * dir.y - a * dir.y == (b - a) * dir.y;
  }

  predicate ExitsX(p: Vec) {
    p.x < 0.0 || p.x > DOMAIN_SIZE
  }

  predicate ExitsY(p: Vec) {
    p.y < 0.0 || p.y > DOMAIN_SIZE
  }

  /** `reflect_if_out_of_bounds`: clamp the head into the square, mirror the
      heading on every wall crossed (`pi - theta` for x, `-theta` for y, both
      on a corner), then wrap the heading into `[0, 2 pi)`. The trailing
      points are not moved. */
  function Reflect(f: Filament): (r: Filament)
    requires |f.points| > 0
    ensures |r.points| == |f.points| && r.points[1..] == f.points[1..]
    ensures r == f.(points := r.points, theta := r.theta)
    ensures InBox(r.points[0])
    ensures 0.0 <= r.theta < TAU
    ensures var h, c := f.points[0], r.points[0];
      && (0.0 <= h.x <= DOMAIN_SIZE ==> c.x == h.x)
      && (0.0 <= h.y <= DOMAIN_SIZE ==> c.y == h.y)
      && (h.x < 0.0 ==> c.x == 0.0) && (h.x > DOMAIN_SIZE ==> c.x == DOMAIN_SIZE)
      && (h.y < 0.0 ==> c.y == 0.0) && (h.y > DOMAIN_SIZE ==> c.y == DOMAIN_SIZE)
    ensures var h := f.points[0];
      && (ExitsX(h) && !ExitsY(h) ==> r.theta == FMod(PI - f.theta, TAU))
      && (!ExitsX(h) && ExitsY(h) ==> r.theta == FMod(-f.theta, TAU))
      && (ExitsX(h) && ExitsY(h) ==> r.theta == FMod(-(PI - f.theta), TAU))
      && (!ExitsX(h) && !ExitsY(h) ==> r.theta == FMod(f.theta, TAU) && r.points == f.points)
  {
    var h := f.points[0];
    var x := if h.x < 0.0 then 0.0 else if h.x > DOMAIN_SIZE then DOMAIN_SIZE else h.x;
    var t1 := if ExitsX(h) then PI - f.theta else f.theta;
    var y := if h.y < 0.0 then 0.0 else if h.y > DOMAIN_SIZE then DOMAIN_SIZE else h.y;
    var t2 := if ExitsY(h) then -t1 else t1;
    var points := f.points[0 := Vec(x, y)];
    assert !ExitsX(h) && !ExitsY(h) ==> points == f.points;
    f.(points := points, theta := FMod(t2, TAU))
  }

  /** Reflecting twice is reflecting once: after the first call the head is
      inside and the heading already wrapped. */
  lemma ReflectIdempotent(f: Filament)
    requires |f.points| > 0
    ensures Reflect(Reflect(f)) == Reflect(f)
  {
    var r := Reflect(f);
    FModOfInRange(r.theta, TAU);
  }

  /** A head that runs out through the right wall while heading along +x
      comes back clamped to the wall with heading exactly `pi`. */
  lemma ReflectAtRightWall(f: Filament)
    requires |f.points| > 0
    requires f.points[0].x > DOMAIN_SIZE && 0.0 <= f.points[0].y <= DOMAIN_SIZE
    requires f.theta == 0.0
    ensures Reflect(f).theta == PI
    ensures Reflect(f).points[0] == Vec(DOMAIN_SIZE, f.points[0].y)
  {
    FModOfInRange(PI, TAU);
  }

  /** Freshly constructed filaments form a well-formed population. */
  lemma NewPopulationWellFormed(pop: seq<Filament>)
    requires forall i :: 0 <= i < |pop| ==>
      |pop[i].points| == N_SEGMENTS && pop[i].polarity == 1 && !pop[i].isStuck
    ensures WellFormedPopulation(pop)
  {
  }
}
