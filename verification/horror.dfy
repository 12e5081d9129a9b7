/** `analog_horror.py`: fading sources that keep ringing for their whole
    lifetime, the red/blue colouring of the normalised field, the click rule
    and the expiry filter. */
module Horror {
  import opened Numerics
  import opened Vectors
  import opened Collections
  import opened WaveFields

  /** A source: position, wavelength and start time; its lifetime is the
      script's `max_lifetime`. */
  datatype Source = Source(pos: Vec, wavelength: real, start: real)

  function Phase(s: Source, dist: real, elapsed: real): (phase: real)
    requires s.wavelength != 0.0
    ensures phase == WavePhase(s.wavelength, dist, elapsed)
  {
    PhaseForms(s.wavelength, dist, elapsed);
    2.0 * PI * (dist / s.wavelength - elapsed * WAVE_SPEED / s.wavelength)
  }

  /** `WaveSource.amplitude`: silent once older than the lifetime, else the
      sine of the phase times the fade. There is no gate on the front, and
      none on negative ages, where the fade exceeds 1. */
  function Amplitude(m: Maths, s: Source, p: Vec, t: real): (a: real)
    requires m.Valid() && s.wavelength != 0.0
    ensures Abs(a) <= Fade(t - s.start)
    ensures t - s.start > SOURCE_LIFETIME ==> a == 0.0
    ensures t - s.start <= SOURCE_LIFETIME ==>
      a == m.sin(Phase(s, m.Norm(Sub(s.pos, p)), t - s.start)) * Fade(t - s.start)
  {
    var elapsed := t - s.start;
    var dist := m.Norm(Sub(s.pos, p));
    var phase := Phase(s, dist, elapsed);
    UnitBounds(m, phase);
    Ringing(m.sin(phase), elapsed)
  }

  /** The lifetime gate and fade applied to a sine value `x`. */
  function Ringing(x: real, elapsed: real): (a: real)
    requires -1.0 <= x <= 1.0
    ensures Abs(a) <= Fade(elapsed)
    ensures elapsed > SOURCE_LIFETIME ==> a == 0.0
    ensures 0.0 <= elapsed ==> -1.0 <= a <= 1.0
    ensures elapsed <= SOURCE_LIFETIME ==> a == x * Fade(elapsed)
  {
    if elapsed > SOURCE_LIFETIME then 0.0
    else
      var f := Fade(elapsed);
      FadedBound(x, f);
      x * f
  }

  /** The colour of a normalised sample: positive values shade only blue,
      the rest only red, with intensity `int(|val| * 255)`. */
  function Colour(val: real): (c: Rgb)
    ensures 0.0 < val ==> c.r == 0 && c.g == 0
    ensures val <= 0.0 ==> c.g == 0 && c.b == 0
    ensures -1.0 <= val <= 1.0 ==> IsColour(c)
    ensures 0.0 < val ==> c.b == Trunc(val * 255.0)
    ensures val <= 0.0 ==> c.r == Trunc(-val * 255.0)
  {
    if val > 0.0 then Rgb(0, 0, Trunc(val * 255.0))
    else Rgb(Trunc(-val * 255.0), 0, 0)
  }

  /** Opposite samples get mirrored colours. */
  lemma ColourMirror(val: real)
    requires 0.0 < val
    ensures Colour(-val) == Rgb(Colour(val).b, 0, 0)
  {
  }

  /** A sample farther from zero never shades dimmer, and the extremes of
      the normalised range reach full blue and full red. */
  lemma ColourMonotone(a: real, b: real)
    ensures 0.0 < a <= b ==> Colour(a).b <= Colour(b).b
    ensures b <= a <= 0.0 ==> Colour(a).r <= Colour(b).r
    ensures Colour(1.0) == Rgb(0, 0, 255) && Colour(-1.0) == Rgb(255, 0, 0)
  {
    if 0.0 < a <= b {
      FloorMonotone(a * 255.0, b * 255.0);
    }
    if b <= a <= 0.0 {
      FloorMonotone(-a * 255.0, -b * 255.0);
    }
  }

  lemma FloorMonotone(x: real, y: real)
    requires x <= y
    ensures x.Floor <= y.Floor
  {
  }

  /** `max(5, 150 - press_duration * 100)`. */
  function ClickWavelength(duration: real): (w: real)
    ensures 5.0 <= w
    ensures 0.0 <= duration ==> w <= 150.0
  {
    Max(5.0, 150.0 - duration * 100.0)
  }

  /** A longer press never gives a longer wave, and from a press of 1.45 s
      on every wave has the floor wavelength 5. */
  lemma ClickWavelengthMonotone(d1: real, d2: real)
    requires d1 <= d2
    ensures ClickWavelength(d2) <= ClickWavelength(d1)
    ensures 1.45 <= d2 ==> ClickWavelength(d2) == 5.0
  {
  }

  /** The test a source must pass to stay in the list at time `t`. */
  function Survives(t: real): Source -> bool {
    (s: Source) => t - s.start <= SOURCE_LIFETIME
  }

  /** `[s for s in wave_sources if t - s.start_time <= s.lifetime]`. */
  function Prune(sources: seq<Source>, t: real): (r: seq<Source>)
    ensures |r| <= |sources|
    ensures forall s :: s in r <==> s in sources && t - s.start <= SOURCE_LIFETIME
    ensures forall s :: multiset(r)[s] == if t - s.start <= SOURCE_LIFETIME then multiset(sources)[s] else 0
  {
    KeepCounts(sources, Survives(t));
    Keep(sources, Survives(t))
  }

  /** Sources added at the end of the list are filtered on their own and
      stay behind the older survivors: the filter keeps the list's order. */
  lemma PruneAppend(sources: seq<Source>, added: seq<Source>, t: real)
    ensures Prune(sources + added, t) == Prune(sources, t) + Prune(added, t)
  {
    KeepConcat(sources, added, Survives(t));
  }

  /** Every source the filter drops is silent from then on, so the audio
      and picture of later frames do not miss it. */
  lemma DroppedIsSilent(m: Maths, s: Source, p: Vec, t: real, later: real)
    requires m.Valid() && s.wavelength != 0.0
    requires t - s.start > SOURCE_LIFETIME && t <= later
    ensures Amplitude(m, s, p, later) == 0.0
  {
  }
}
