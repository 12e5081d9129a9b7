/** One time step of the filament engine: `Filament.update` (polarity
    reversal, heading update, head motion, chain relaxation, reflection) and
    the per-frame sweep `update(frame)` that feeds every filament its
    alignment torque and slide velocity. */
module Integration {
  import opened Numerics
  import opened Vectors
  import opened Collections
  import opened Filaments
  import opened Forces
  import opened Relaxation

  /** The argument the driver loop passes as `alignment_force`:
      `alignment_strength * raw` in `sim_2.py`, `-alignment_strength * raw`
      in `cyano_sim.py` and `umwelt.py`. */
  function AlignmentArgument(v: Variant, raw: real): (a: real)
    ensures Abs(a) == ALIGNMENT_STRENGTH * Abs(raw)
    ensures v == Sim2 ==> (0.0 < a <==> 0.0 < raw)
    ensures v != Sim2 ==> (0.0 < a <==> raw < 0.0)
  {
    if v == Sim2 then ALIGNMENT_STRENGTH * raw else -(ALIGNMENT_STRENGTH * raw)
  }

  /** How much of the raw torque finally reaches the heading. */
  function NetGain(v: Variant): real {
    if v == Sim2 then 0.02 else 0.0004
  }

  /** `np.sqrt(2 * D_omega * dt) * np.random.normal()`, with the normal draw
      `z` given. */
  function Noise(m: Maths, v: Variant, z: real): real {
    m.sqrt(2.0 * D_OMEGA * Dt(v)) * z
  }

  /** The heading step of `update`: `theta += noise + alignment_force` in
      `sim_2.py`, `theta += noise - 0.02 * alignment_force` in the other two,
      then `theta %= 2 pi`. */
  function NewHeading(v: Variant, theta: real, noise: real, arg: real): (t: real)
    ensures 0.0 <= t < TAU
  {
    if v == Sim2 then FMod(theta + (noise + arg), TAU)
    else FMod(theta + (noise - 0.02 * arg), TAU)
  }

  /** Through the driver, the raw Lebwohl-Lasher torque reaches the heading
      with gain +0.02 in `sim_2.py` and with gain +0.0004 in the other two
      scripts, where the negated argument is scaled by -0.02 a second time. */
  lemma NetAlignment(v: Variant, theta: real, noise: real, raw: real)
    ensures NewHeading(v, theta, noise, AlignmentArgument(v, raw)) == FMod(theta + noise + NetGain(v) * raw, TAU)
  {
  }

  /** The exponentially smoothed heading of `cyano_sim.py`: move
      `smoothed_theta` by `alpha` times the folded difference to `theta`,
      then wrap into `[0, 2 pi)`. */
  function SmoothHeading(theta: real, smoothed: real): (s: real)
    ensures 0.0 <= s < TAU
    ensures Congruent(smoothed + SMOOTHING_ALPHA * WrapAngle(theta - smoothed), s, TAU)
  {
    FMod(smoothed + SMOOTHING_ALPHA * WrapAngle(theta - smoothed), TAU)
  }

  /** Each smoothing step removes exactly a fifth of the folded difference
      between the heading and the smoothed heading. */
  lemma SmoothHeadingContracts(theta: real, smoothed: real)
    ensures WrapAngle(theta - SmoothHeading(theta, smoothed)) == 0.8 * WrapAngle(theta - smoothed)
  {
    var delta := WrapAngle(theta - smoothed);
    var s := SmoothHeading(theta, smoothed);
    var k1: int :| delta - (theta - smoothed) == Multiple(k1, TAU);
    var k2: int :| smoothed + SMOOTHING_ALPHA * delta - s == Multiple(k2, TAU);
    MultipleAdd(k1, -k2, TAU);
    assert 0.8 * delta - (theta - s) == Multiple(k1 - k2, TAU);
    WrapAngleUnique(theta - s, 0.8 * delta);
  }

  /** A smoothed heading that has caught up stays put. */
  lemma SmoothHeadingFixedPoint(theta: real)
    requires 0.0 <= theta < TAU
    ensures SmoothHeading(theta, theta) == theta
  {
    CongruentPeriod(0.0, TAU);
    assert theta - theta == 0.0;
    WrapAngleUnique(0.0, 0.0);
    FModOfInRange(theta, TAU);
  }

  /** `if np.random.rand() < reversal_rate * dt: polarity *= -1`. */
  function Flip(v: Variant, polarity: int, draw: real): (p: int)
    ensures IsSign(polarity) ==> IsSign(p)
    ensures p == -polarity <==> draw < REVERSAL_RATE * Dt(v) || polarity == 0
    ensures p == polarity || p == -polarity
  {
    if draw < REVERSAL_RATE * Dt(v) then -polarity else polarity
  }

  /** `points[0] += (speed * polarity * move_dir + slide_velocity) * dt`. */
  function MoveHead(m: Maths, head: Vec, speed: real, polarity: int, heading: real, slide: Vec, dt: real): (h: Vec) {
    Add(head, Scale(dt, Add(Scale(speed * polarity as real, m.Unit(heading)), slide)))
  }

  /** Without sliding, a non-negative speed moves the head by exactly
      `speed * dt` whichever the polarity. */
  lemma MoveHeadDistance(m: Maths, head: Vec, speed: real, polarity: int, heading: real, dt: real)
    requires m.Valid()
    requires IsSign(polarity) && 0.0 <= speed && 0.0 <= dt
    ensures m.Norm(Sub(MoveHead(m, head, speed, polarity, heading, Zero, dt), head)) == speed * dt
  {
    var u := m.Unit(heading);
    var k := speed * polarity as real;
    var step := Scale(k, u);
    assert Add(step, Zero) == step;
    assert Sub(MoveHead(m, head, speed, polarity, heading, Zero, dt), head) == Scale(dt, step);
    NormScale(m, dt, step);
    NormScale(m, k, u);
    UnitBounds(m, heading);
    assert Abs(k) == speed;
  }

  /** The filament after the heading update and the head step, before any
      relaxation. `cyano_sim.py` moves along the smoothed heading. */
  function Advance(m: Maths, v: Variant, f: Filament, arg: real, slide: Vec, flipDraw: real, z: real): (r: Filament)
    requires m.Valid() && 0 < |f.points|
    ensures |r.points| == |f.points| && r.points[1..] == f.points[1..]
    ensures r.polarity == Flip(v, f.polarity, flipDraw)
    ensures r.theta == NewHeading(v, f.theta, Noise(m, v, z), arg)
    ensures r.smoothedTheta == if v == Cyano then SmoothHeading(r.theta, f.smoothedTheta) else f.smoothedTheta
    ensures r.points[0] ==
      MoveHead(m, f.points[0], f.speed, r.polarity, if v == Cyano then r.smoothedTheta else r.theta, slide, Dt(v))
    ensures r == f.(points := r.points, theta := r.theta, smoothedTheta := r.smoothedTheta, polarity := r.polarity)
  {
    var polarity := Flip(v, f.polarity, flipDraw);
    var theta := NewHeading(v, f.theta, Noise(m, v, z), arg);
    var smoothed := if v == Cyano then SmoothHeading(theta, f.smoothedTheta) else f.smoothedTheta;
    var heading := if v == Cyano then smoothed else theta;
    var head := MoveHead(m, f.points[0], f.speed, polarity, heading, slide, Dt(v));
    f.(points := f.points[0 := head], theta := theta, smoothedTheta := smoothed, polarity := polarity)
  }

  /** `r` is what `Filament.update` makes of `f`: the advanced filament with
      its chain relaxed, then reflected off the walls. */
  ghost predicate Updated(m: Maths, v: Variant, f: Filament, arg: real, slide: Vec, flipDraw: real, z: real, r: Filament)
    requires m.Valid() && 0 < |f.points|
  {
    var a := Advance(m, v, f, arg, slide, flipDraw, z);
    exists q :: Relaxed(m, v, a.points, q) && r == Reflect(a.(points := q))
  }

  /** `Filament.update` of the three scripts. */
  method Update(m: Maths, v: Variant, f: Filament, arg: real, slide: Vec, flipDraw: real, z: real)
    returns (r: Filament)
    requires m.Valid()
    requires |f.points| == N_SEGMENTS
    ensures Updated(m, v, f, arg, slide, flipDraw, z, r)
    ensures |r.points| == N_SEGMENTS
    ensures InBox(r.points[0]) && 0.0 <= r.theta < TAU
    ensures r.polarity == Flip(v, f.polarity, flipDraw)
    ensures IsSign(f.polarity) ==> IsSign(r.polarity)
    ensures r.isStuck == f.isStuck && r.stuckTo == f.stuckTo && r.stuckDirection == f.stuckDirection
    ensures r.speed == f.speed
    ensures v == Cyano ==> r.smoothedTheta == SmoothHeading(NewHeading(v, f.theta, Noise(m, v, z), arg), f.smoothedTheta)
    ensures v != Cyano ==> r.smoothedTheta == f.smoothedTheta
    ensures var a := Advance(m, v, f, arg, slide, flipDraw, z);
      InBox(a.points[0]) ==> r.theta == a.theta && r.points[0] == a.points[0]
    ensures var a := Advance(m, v, f, arg, slide, flipDraw, z);
      v == Cyano && m.Norm(Sub(a.points[0], f.points[1])) > EPSILON ==>
      forall i :: 2 <= i < N_SEGMENTS ==> m.Norm(Sub(r.points[i - 1], r.points[i])) == SEGMENT_LENGTH
  {
    var a := Advance(m, v, f, arg, slide, flipDraw, z);
    var q := Relax(m, v, a.points);
    r := Reflect(a.(points := q));
    TailLengths(m, q, r.points);
    FModOfInRange(a.theta, TAU);
  }

  /** Reflection moves only the head, so the segments behind the first keep
      their lengths. */
  lemma TailLengths(m: Maths, q: seq<Vec>, s: seq<Vec>)
    requires m.Valid()
    requires |q| == |s| && 0 < |q| && s[1..] == q[1..]
    ensures (forall i :: 2 <= i < |q| ==> m.Norm(Sub(q[i - 1], q[i])) == SEGMENT_LENGTH) ==>
      forall i :: 2 <= i < |s| ==> m.Norm(Sub(s[i - 1], s[i])) == SEGMENT_LENGTH
  {
    assert forall i :: 1 <= i < |q| ==> s[i] == s[1..][i - 1];
  }

  /** The neighbour list handed to the force and slide functions:
      `[filaments[i] for i in neighbors_idx if i != filaments.index(f)]`. */
  function Neighbours(candidates: seq<nat>, self: nat): (r: seq<nat>)
    ensures forall j :: j in r <==> j in candidates && j != self
    ensures self !in r
    ensures |r| <= |candidates|
  {
    Keep(candidates, j => j != self)
  }

  /** A candidate list that does not mention the filament is passed on as is. */
  lemma NeighboursWithoutSelf(candidates: seq<nat>, self: nat)
    requires self !in candidates
    ensures Neighbours(candidates, self) == candidates
  {
    KeepAll(candidates, j => j != self);
  }

  /** The headings of the listed neighbours, `[n.theta for n in neighbors]`. */
  function Headings(pop: seq<Filament>, nbrs: seq<nat>): (r: seq<real>)
    requires forall k :: 0 <= k < |nbrs| ==> nbrs[k] < |pop|
    ensures |r| == |nbrs|
  {
    seq(|nbrs|, k requires 0 <= k < |nbrs| => pop[nbrs[k]].theta)
  }

  /** One turn of the per-frame loop: filament `self` of the frame state
      `state` becomes `g`. Its neighbours are the candidates other than
      itself, the raw torque is taken against their headings in `state`, the
      slide is scanned with its slot draws, and `Filament.update` runs with
      the resulting argument and slide velocity. */
  ghost predicate Stepped(m: Maths, v: Variant, state: seq<Filament>, self: nat, candidates: seq<nat>,
                          flipDraw: real, z: real, draws: seq<real>, g: Filament)
    requires m.Valid()
  {
    var nbrs := Neighbours(candidates, self);
    && |nbrs| <= |draws|
    && ScanInputs(state, self, nbrs, draws[..|nbrs|])
    && (state[self].isStuck ==> state[self].stuckTo < |state|)
    && var raw := LebwohlLasher(m, state[self].theta, Headings(state, nbrs));
      exists f, slide :: Slid(m, state, self, nbrs, draws[..|nbrs|], f, slide)
        && 0 < |f.points| && Updated(m, v, f, AlignmentArgument(v, raw), slide, flipDraw, z, g)
  }

  /** A turn that forms no bond leaves the bond fields as they were: only a
      bond sets `stuck_to` and `stuck_direction`. */
  lemma StepKeepsUnbonded(m: Maths, v: Variant, state: seq<Filament>, self: nat, candidates: seq<nat>,
                          flipDraw: real, z: real, draws: seq<real>, g: Filament)
    requires m.Valid() && Stepped(m, v, state, self, candidates, flipDraw, z, draws, g)
    requires !state[self].isStuck && !g.isStuck
    ensures g.stuckTo == state[self].stuckTo && g.stuckDirection == state[self].stuckDirection
  {
    var nbrs := Neighbours(candidates, self);
    var raw := LebwohlLasher(m, state[self].theta, Headings(state, nbrs));
    var f, slide :| Slid(m, state, self, nbrs, draws[..|nbrs|], f, slide)
      && 0 < |f.points| && Updated(m, v, f, AlignmentArgument(v, raw), slide, flipDraw, z, g);
    var a := Advance(m, v, f, AlignmentArgument(v, raw), slide, flipDraw, z);
    var q :| Relaxed(m, v, a.points, q) && g == Reflect(a.(points := q));
  }

  /** The per-frame sweep `update(frame)`. Neighbour candidates come from a
      tree built on the heads at the start of the frame, but each filament
      is updated in place, in order, so a filament reads the current
      (already updated) heading and head of every neighbour that precedes
      it in the population. `flipDraws`, `normals` and `slideDraws` are the
      uniform, normal and per-slot uniform draws of each filament. */
  method Sweep(m: Maths, v: Variant, pop: seq<Filament>, candidates: seq<seq<nat>>,
               flipDraws: seq<real>, normals: seq<real>, slideDraws: seq<seq<real>>)
    returns (next: seq<Filament>)
    requires m.Valid()
    requires WellFormedPopulation(pop)
    requires |candidates| == |pop| && |flipDraws| == |pop| && |normals| == |pop| && |slideDraws| == |pop|
    requires forall i, j :: 0 <= i < |pop| && j in candidates[i] ==> j < |pop|
    requires forall i :: 0 <= i < |pop| ==> |candidates[i]| <= |slideDraws[i]|
    ensures |next| == |pop|
    ensures WellFormedPopulation(next)
    ensures forall i :: 0 <= i < |next| ==> InBox(next[i].points[0]) && 0.0 <= next[i].theta < TAU
    ensures forall i :: 0 <= i < |pop| && pop[i].isStuck ==>
      next[i].isStuck && next[i].stuckTo == pop[i].stuckTo && next[i].stuckDirection == pop[i].stuckDirection
    ensures forall i :: 0 <= i < |pop| ==> next[i].speed == pop[i].speed
    ensures forall i :: 0 <= i < |pop| ==> next[i].polarity == Flip(v, pop[i].polarity, flipDraws[i])
    ensures forall i :: 0 <= i < |pop| ==>
      Stepped(m, v, next[..i] + pop[i..], i, candidates[i], flipDraws[i], normals[i], slideDraws[i], next[i])
  {
    next := pop;
    var i := 0;
    while i < |pop|
      invariant i <= |pop| && Kept(v, pop, next, i, flipDraws)
      invariant AllStepped(m, v, pop, next, i, candidates, flipDraws, normals, slideDraws)
    {
      var g := Turn(m, v, next, pop, i, candidates[i], flipDraws[i], normals[i], slideDraws[i]);
      KeptStep(v, pop, next, g, i, flipDraws);
      StepsKept(m, v, pop, next, g, i, candidates, flipDraws, normals, slideDraws);
      next := next[i := g];
      i := i + 1;
    }
  }

  /** The bookkeeping the sweep has established once the first `i`
      filaments have had their turn: the population stays well formed, the
      updated heads are in the box, bonds and speeds are kept, the filaments
      still to come are untouched and the updated ones reversed on their
      draws. */
  ghost predicate Kept(v: Variant, pop: seq<Filament>, next: seq<Filament>, i: nat, flipDraws: seq<real>)
    requires i <= |pop| == |flipDraws|
  {
    && |next| == |pop|
    && WellFormedPopulation(next)
    && (forall k :: 0 <= k < i ==> InBox(next[k].points[0]) && 0.0 <= next[k].theta < TAU)
    && (forall k :: 0 <= k < |pop| && pop[k].isStuck ==>
      next[k].isStuck && next[k].stuckTo == pop[k].stuckTo && next[k].stuckDirection == pop[k].stuckDirection)
    && (forall k :: 0 <= k < |pop| ==> next[k].speed == pop[k].speed)
    && (forall k :: i <= k < |pop| ==> next[k] == pop[k])
    && (forall k :: 0 <= k < i ==> next[k].polarity == Flip(v, pop[k].polarity, flipDraws[k]))
  }

  /** Each of the first `i` filaments of `next` is its turn's result, taken
      in the frame state that turn saw. */
  ghost predicate AllStepped(m: Maths, v: Variant, pop: seq<Filament>, next: seq<Filament>, i: nat,
                             candidates: seq<seq<nat>>, flipDraws: seq<real>, normals: seq<real>, slideDraws: seq<seq<real>>)
    requires m.Valid()
    requires i <= |next| == |pop| == |candidates| == |flipDraws| == |normals| == |slideDraws|
  {
    forall k :: 0 <= k < i ==>
      Stepped(m, v, next[..k] + pop[k..], k, candidates[k], flipDraws[k], normals[k], slideDraws[k], next[k])
  }

  /** Storing the result of turn `i` keeps the bookkeeping of the turns
      before it and adds that of turn `i`. */
  lemma KeptStep(v: Variant, pop: seq<Filament>, next: seq<Filament>, g: Filament, i: nat, flipDraws: seq<real>)
    requires i < |pop| == |flipDraws|
    requires Kept(v, pop, next, i, flipDraws)
    requires WellFormed(g, i, |next|) && InBox(g.points[0]) && 0.0 <= g.theta < TAU
    requires pop[i].isStuck ==> g.isStuck && g.stuckTo == pop[i].stuckTo && g.stuckDirection == pop[i].stuckDirection
    requires g.speed == pop[i].speed && g.polarity == Flip(v, pop[i].polarity, flipDraws[i])
    ensures Kept(v, pop, next[i := g], i + 1, flipDraws)
  {
  }

  /** The turn of filament `i` in the frame state `state`, where the
      filaments from `i` on are still as the frame found them. */
  method Turn(m: Maths, v: Variant, state: seq<Filament>, pop: seq<Filament>, i: nat, candidates: seq<nat>,
              flipDraw: real, z: real, draws: seq<real>)
    returns (g: Filament)
    requires m.Valid()
    requires WellFormedPopulation(state)
    requires i < |state| == |pop| && forall k :: i <= k < |pop| ==> state[k] == pop[k]
    requires forall j :: j in candidates ==> j < |state|
    requires |candidates| <= |draws|
    ensures WellFormed(g, i, |state|)
    ensures InBox(g.points[0]) && 0.0 <= g.theta < TAU
    ensures pop[i].isStuck ==> g.isStuck && g.stuckTo == pop[i].stuckTo && g.stuckDirection == pop[i].stuckDirection
    ensures g.speed == pop[i].speed
    ensures g.polarity == Flip(v, pop[i].polarity, flipDraw)
    ensures Stepped(m, v, state[..i] + pop[i..], i, candidates, flipDraw, z, draws, g)
  {
    var nbrs := Neighbours(candidates, i);
    assert forall k :: 0 <= k < |nbrs| ==> nbrs[k] in candidates;
    var raw := LebwohlLasher(m, state[i].theta, Headings(state, nbrs));
    var slots := draws[..|nbrs|];
    var f, slide := SlideVelocity(m, state, i, nbrs, slots);
    g := Update(m, v, f, AlignmentArgument(v, raw), slide, flipDraw, z);
    FrameStep(m, v, state, i, candidates, flipDraw, z, draws, f, slide, g);
    FrameState(state, pop, i);
  }

  /** The frame state turn `i` sees: the filaments before it updated, the
      rest as the frame found them. */
  lemma FrameState(state: seq<Filament>, pop: seq<Filament>, i: nat)
    requires i <= |state| == |pop| && forall k :: i <= k < |pop| ==> state[k] == pop[k]
    ensures state[..i] + pop[i..] == state
  {
  }

  /** A turn whose slide scan and update are as SlideVelocity and Update
      promise is a step of the sweep. */
  lemma FrameStep(m: Maths, v: Variant, state: seq<Filament>, i: nat, candidates: seq<nat>,
                  flipDraw: real, z: real, draws: seq<real>, f: Filament, slide: Vec, g: Filament)
    requires m.Valid()
    requires var nbrs := Neighbours(candidates, i);
      && |nbrs| <= |draws|
      && ScanInputs(state, i, nbrs, draws[..|nbrs|])
      && (state[i].isStuck ==> state[i].stuckTo < |state|)
      && Slid(m, state, i, nbrs, draws[..|nbrs|], f, slide)
      && 0 < |f.points|
      && Updated(m, v, f, AlignmentArgument(v, LebwohlLasher(m, state[i].theta, Headings(state, nbrs))), slide, flipDraw, z, g)
    ensures Stepped(m, v, state, i, candidates, flipDraw, z, draws, g)
  {
  }

  /** Replacing filament `i` leaves the earlier turns' frame states as they
      were and completes the turn of `i`. */
  lemma StepsKept(m: Maths, v: Variant, pop: seq<Filament>, next: seq<Filament>, g: Filament, i: nat,
                  candidates: seq<seq<nat>>, flipDraws: seq<real>, normals: seq<real>, slideDraws: seq<seq<real>>)
    requires m.Valid()
    requires i < |next| == |pop| == |candidates| == |flipDraws| == |normals| == |slideDraws|
    requires AllStepped(m, v, pop, next, i, candidates, flipDraws, normals, slideDraws)
    requires Stepped(m, v, next[..i] + pop[i..], i, candidates[i], flipDraws[i], normals[i], slideDraws[i], g)
    ensures AllStepped(m, v, pop, next[i := g], i + 1, candidates, flipDraws, normals, slideDraws)
  {
    var after := next[i := g];
    forall k | 0 <= k < i + 1
      ensures Stepped(m, v, after[..k] + pop[k..], k, candidates[k], flipDraws[k], normals[k], slideDraws[k], after[k])
    {
      assert after[..k] == next[..k];
    }
  }

}
