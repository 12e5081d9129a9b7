/** `Polarisation.py`: optical activity. The polarisation arrow travels along
    `x` in steps of 0.05 over a track of length 10; inside the sample cell it
    is turned in proportion to the path covered (Biot's law), outside it keeps
    its angle, and each pass starts again from angle 0. Sliders and drawing
    are parameters; the frame counter is the animation's argument. */
module Polarisation {
  import opened Numerics
  import opened Vectors
  import opened Collections

  /** The distance the arrow moves per frame. */
  const STEP: real := 0.05
  /** The length of the track; the arrow wraps round after it. */
  const TRACK: real := 10.0

  /** The slider values: where the cell starts, its length, the specific
      rotation in degrees and the concentration. */
  datatype Probe = Probe(start: real, length: real, rotation: real, concentration: real)

  const INITIAL_PROBE: Probe := Probe(3.0, 4.0, 90.0, 1.0)

  datatype Colour = Red | Orange

  /** The drawn arrow: its position on the track, its `(v, w)` direction
      `(-sin, cos)` of the angle, and its colour. */
  datatype Arrow = Arrow(x: real, v: real, w: real, colour: Colour)

  /** The outcome of one `update`: the stored angle and the arrow drawn, or
      nothing when paused. */
  datatype Frame = Frame(angle: real, arrow: Option<Arrow>)

  /** `(frame * 0.05) % 10`. */
  function XPos(frame: int): (x: real)
    ensures 0.0 <= x < TRACK
    ensures Congruent(frame as real * STEP, x, TRACK)
  {
    FMod(frame as real * STEP, TRACK)
  }

  /** The arrow is back where it was every 200 frames. */
  lemma XPosPeriodic(frame: int)
    ensures XPos(frame + 200) == XPos(frame)
  {
    var a := frame as real * STEP;
    assert (frame + 200) as real * STEP == a + TRACK;
    CongruentPeriod(a, TRACK);
    FModOfCongruent(a + TRACK, a, TRACK);
  }

  /** `np.deg2rad`. */
  function DegToRad(d: real): real {
    d * PI / 180.0
  }

  predicate Inside(p: Probe, x: real) {
    p.start <= x <= p.start + p.length
  }

  /** `(x_pos - probe_start) / probe_length`: how far through the cell the
      arrow is. */
  function Progress(p: Probe, x: real): (r: real)
    requires p.length != 0.0
    ensures 0.0 < p.length && Inside(p, x) ==> 0.0 <= r <= 1.0
    ensures x == p.start ==> r == 0.0
    ensures x == p.start + p.length ==> r == 1.0
  {
    var r := (x - p.start) / p.length;
    if 0.0 < p.length && Inside(p, x) then
      assert r * p.length == x - p.start;
      ProgressBounds(r, p.length, x - p.start);
      r
    else r
  }

  lemma ProgressBounds(r: real, len: real, d: real)
    requires 0.0 < len && 0.0 <= d <= len && r * len == d
    ensures 0.0 <= r <= 1.0
  {
    NegativeFactor(r, len);
    if r > 1.0 {
      MulLeftStrict(len, 1.0, r);
    }
  }

  /** The whole cell's rotation `deg2rad(rotation * concentration * length)`. */
  function FullRotation(p: Probe): real {
    DegToRad(p.rotation * p.concentration * p.length)
  }

  /** The angle `update` sets inside the cell. */
  function ProbeAngle(p: Probe, x: real): real
    requires p.length != 0.0
  {
    FullRotation(p) * Progress(p, x)
  }

  /** Biot's law: inside the cell the angle is specific rotation times
      concentration times the path covered so far; the cell length cancels
      out. */
  lemma ProbeAngleIsBiot(p: Probe, x: real)
    requires p.length != 0.0
    ensures ProbeAngle(p, x) == DegToRad(p.rotation * p.concentration * (x - p.start))
  {
    var k := p.rotation * p.concentration;
    var q := (x - p.start) / p.length;
    assert q * p.length == x - p.start;
    assert FullRotation(p) * q == (k * p.length * q) * PI / 180.0;
    assert k * p.length * q == k * (q * p.length);
  }

  /** The arrow enters the cell unturned and leaves it turned by the whole
      cell's rotation, and never by more in between. */
  lemma ProbeAngleEnds(p: Probe, x: real)
    requires 0.0 < p.length && Inside(p, x)
    ensures ProbeAngle(p, p.start) == 0.0
    ensures ProbeAngle(p, p.start + p.length) == FullRotation(p)
    ensures Abs(ProbeAngle(p, x)) <= Abs(FullRotation(p))
  {
    var f := FullRotation(p);
    assert ProbeAngle(p, p.start) == f * 0.0;
    assert ProbeAngle(p, p.start + p.length) == f * 1.0;
    var g := Progress(p, x);
    assert ProbeAngle(p, x) == f * g;
    FractionOfRotation(f, g);
  }

  lemma FractionOfRotation(f: real, g: real)
    requires 0.0 <= g <= 1.0
    ensures Abs(f * g) <= Abs(f)
  {
    if 0.0 <= f {
      MulNonNegMono(f, g, 1.0);
      MulNonNegMono(f, 0.0, g);
    } else {
      MulNonNegMono(-f, g, 1.0);
      MulNonNegMono(-f, 0.0, g);
      assert f * g == -((-f) * g);
    }
  }

  /** `update(frame)` given the pause flag and the angle stored by the
      previous call. Paused: nothing changes and nothing is drawn.
      Otherwise the angle is reset near the start of the track, replaced
      inside the cell, and kept elsewhere; the arrow is red exactly inside
      the cell. */
  function Update(m: Maths, paused: bool, angle: real, frame: int, p: Probe): (f: Frame)
    requires p.length != 0.0
    ensures paused ==> f == Frame(angle, None)
    ensures !paused ==> f.arrow.Some? && f.arrow.value.x == XPos(frame)
    ensures !paused ==> (f.arrow.value.colour == Red <==> Inside(p, XPos(frame)))
    ensures !paused && Inside(p, XPos(frame)) ==> f.angle == ProbeAngle(p, XPos(frame))
    ensures !paused && !Inside(p, XPos(frame)) && STEP <= XPos(frame) ==> f.angle == angle
    ensures !paused && !Inside(p, XPos(frame)) && XPos(frame) < STEP ==> f.angle == 0.0
    ensures m.Valid() && !paused ==>
      f.arrow.value.v * f.arrow.value.v + f.arrow.value.w * f.arrow.value.w == 1.0
  {
    if paused then Frame(angle, None)
    else
      var x := XPos(frame);
      var reset := if x < STEP then 0.0 else angle;
      var inside := Inside(p, x);
      var next := if inside then ProbeAngle(p, x) else reset;
      var colour := if inside then Red else Orange;
      var v, w := -m.sin(next), m.cos(next);
      assert m.Valid() ==> m.cos(next) * m.cos(next) + m.sin(next) * m.sin(next) == 1.0;
      assert v * v == m.sin(next) * m.sin(next);
      Frame(next, Some(Arrow(x, v, w, colour)))
  }

  /** Each pass starts level: on a frame at the start of the track, with
      the cell further along, the angle is 0 whatever came before. */
  lemma PassStartsLevel(m: Maths, angle: real, frame: int, p: Probe)
    requires p.length != 0.0 && STEP <= p.start
    requires frame % 200 == 0
    ensures Update(m, false, angle, frame, p).angle == 0.0
  {
    var k := frame / 200;
    assert frame as real * STEP == Multiple(k, TRACK);
    assert Congruent(frame as real * STEP, 0.0, TRACK);
    FModOfCongruent(frame as real * STEP, 0.0, TRACK);
    FModOfInRange(0.0, TRACK);
  }
}
