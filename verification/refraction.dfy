/** `welle_3.py`: fading pulse sources drawn as a refraction of a background
    picture. The model covers the pitch map, the gated and faded amplitude,
    the press-duration wavelength, the clamped pixel the refraction samples,
    the alpha of the blue overlay and the expiry filter. */
module Refraction {
  import opened Numerics
  import opened Vectors
  import opened Collections
  import opened WaveFields

  const WIDTH: int := 600
  const HEIGHT: int := 600
  /** `refr_strength`: the largest offset, in pixels, of a sampled pixel. */
  const REFRACTION_STRENGTH: real := 5.0
  /** Samples with a normalised magnitude up to this are left undrawn. */
  const OVERLAY_THRESHOLD: real := 0.02

  /** A source with the script's fixed lifetime, wave duration and speed. */
  datatype Source = Source(pos: Vec, wavelength: real, start: real)

  /** `wavelength_to_freq` of this script: `22000 / (wavelength + 10)`
      clipped into `[100, 6000]`. */
  function WavelengthToFreq(wavelength: real): (f: real)
    requires wavelength != -10.0
    ensures 100.0 <= f <= 6000.0
  {
    Max(100.0, Min(6000.0, 22000.0 / (wavelength + 10.0)))
  }

  /** For the wavelengths a press can produce the pitch never reaches the
      upper clip: it is at most 2200 and falls as the wave lengthens. */
  lemma WavelengthToFreqBelow(a: real, b: real)
    requires 0.0 <= a <= b
    ensures WavelengthToFreq(a) <= 2200.0
    ensures WavelengthToFreq(b) <= WavelengthToFreq(a)
  {
    QuotientBelow(22000.0, a + 10.0, 10.0);
    QuotientBelow(22000.0, b + 10.0, a + 10.0);
  }

  /** The front has passed distance `dist` at most `WAVE_DURATION` ago and
      the source is within its span. */
  predicate Lit(dist: real, elapsed: real) {
    && 0.0 <= elapsed <= SOURCE_LIFETIME + WAVE_DURATION
    && 0.0 <= elapsed - dist / WAVE_SPEED <= WAVE_DURATION
  }

  /** `WaveSource.amplitude`: 0 outside the lit band, else the sine of the
      phase times the fade. Its magnitude never exceeds the fade, so the
      source goes quiet after `SOURCE_LIFETIME` although the filter keeps
      it for another `WAVE_DURATION`. */
  function Amplitude(m: Maths, s: Source, p: Vec, t: real): (a: real)
    requires m.Valid() && s.wavelength != 0.0
    ensures Abs(a) <= Fade(t - s.start)
    ensures !Lit(m.Norm(Sub(s.pos, p)), t - s.start) ==> a == 0.0
    ensures a != 0.0 ==> 0.0 <= t - s.start < SOURCE_LIFETIME
    ensures var dist := m.Norm(Sub(s.pos, p));
      Lit(dist, t - s.start) ==> a == m.sin(SplitPhase(s.wavelength, dist, t - s.start)) * Fade(t - s.start)
  {
    var dist := m.Norm(Sub(s.pos, p));
    var phase := SplitPhase(s.wavelength, dist, t - s.start);
    UnitBounds(m, phase);
    Pulse(m.sin(phase), dist, t - s.start)
  }

  /** Before the front reaches a pixel the pixel is still, however young the
      source. */
  lemma StillBeforeArrival(m: Maths, s: Source, p: Vec, t: real)
    requires m.Valid() && s.wavelength != 0.0
    requires t - s.start < m.Norm(Sub(s.pos, p)) / WAVE_SPEED
    ensures Amplitude(m, s, p, t) == 0.0
  {
  }

  /** The gating and fading of a sine value `x` taken at distance `dist`,
      `elapsed` seconds after the source started. */
  function Pulse(x: real, dist: real, elapsed: real): (a: real)
    requires -1.0 <= x <= 1.0
    ensures Abs(a) <= Fade(elapsed)
    ensures !Lit(dist, elapsed) ==> a == 0.0
    ensures a != 0.0 ==> 0.0 <= elapsed < SOURCE_LIFETIME
    ensures Lit(dist, elapsed) ==> a == x * Fade(elapsed)
  {
    if elapsed < 0.0 || elapsed > SOURCE_LIFETIME + WAVE_DURATION then 0.0
    else
      var waveAge := elapsed - dist / WAVE_SPEED;
      if waveAge < 0.0 || waveAge > WAVE_DURATION then 0.0
      else
        FadedBound(x, Fade(elapsed));
        x * Fade(elapsed)
  }

  /** `max(20, 250 / (1 + press_duration * 3))`. */
  function PressWavelength(duration: real): (w: real)
    requires 1.0 + duration * 3.0 != 0.0
    ensures 20.0 <= w
    ensures 0.0 <= duration ==> w <= 250.0
  {
    var q := 250.0 / (1.0 + duration * 3.0);
    if 0.0 <= duration then
      QuotientBelow(250.0, 1.0 + duration * 3.0, 1.0);
      Max(20.0, q)
    else Max(20.0, q)
  }

  /** A longer press never gives a longer wave, and from a press of 23/6 s
      on every wave has the floor wavelength 20. */
  lemma PressWavelengthMonotone(d1: real, d2: real)
    requires 0.0 <= d1 <= d2
    ensures PressWavelength(d2) <= PressWavelength(d1)
    ensures 23.0 / 6.0 <= d2 ==> PressWavelength(d2) == 20.0
  {
    QuotientBelow(250.0, 1.0 + d2 * 3.0, 1.0 + d1 * 3.0);
    if 23.0 / 6.0 <= d2 {
      QuotientBelow(250.0, 1.0 + d2 * 3.0, 12.5);
    }
  }

  /** `min(size - 1, max(0, p + int(refr_strength * val)))`: the pixel the
      refraction samples along one axis. */
  function SourcePixel(p: int, val: real, size: int): (q: int)
    requires 1 <= size
    ensures 0 <= q <= size - 1
  {
    var shifted := p + Trunc(REFRACTION_STRENGTH * val);
    if shifted < 0 then 0 else if shifted > size - 1 then size - 1 else shifted
  }

  /** Starting from a pixel on the canvas, a normalised sample moves the
      sampled pixel by at most the refraction strength, and not at all when
      it is silent. */
  lemma SourcePixelNear(p: int, val: real, size: int)
    requires 1 <= size && 0 <= p <= size - 1
    requires -1.0 <= val <= 1.0
    ensures -5 <= SourcePixel(p, val, size) - p <= 5
    ensures val == 0.0 ==> SourcePixel(p, val, size) == p
  {
    var d := Trunc(REFRACTION_STRENGTH * val);
    assert -5.0 <= REFRACTION_STRENGTH * val <= 5.0;
  }

  /** The overlay alpha `int(min(255, 80 + |val| * 100))`, drawn only when
      `|val| > 0.02`. */
  function Overlay(val: real): (alpha: Option<int>)
    ensures alpha.Some? <==> Abs(val) > OVERLAY_THRESHOLD
    ensures alpha.Some? ==> 80 <= alpha.value <= 255
  {
    if Abs(val) > OVERLAY_THRESHOLD then Some(Trunc(Min(255.0, 80.0 + Abs(val) * 100.0)))
    else None
  }

  /** A louder sample never gets a fainter overlay. */
  lemma OverlayMonotone(a: real, b: real)
    requires OVERLAY_THRESHOLD < Abs(a) <= Abs(b)
    ensures Overlay(a).value <= Overlay(b).value
  {
  }

  /** The test a source must pass to stay in the list at time `t`. */
  function Survives(t: real): Source -> bool {
    (s: Source) => t - s.start <= SOURCE_LIFETIME + WAVE_DURATION
  }

  /** `[s for s in wave_sources if t - s.start <= lifetime + wave_duration]`. */
  function Prune(sources: seq<Source>, t: real): (r: seq<Source>)
    ensures |r| <= |sources|
    ensures forall s :: s in r <==> s in sources && t - s.start <= SOURCE_LIFETIME + WAVE_DURATION
    ensures forall s :: multiset(r)[s] == if t - s.start <= SOURCE_LIFETIME + WAVE_DURATION then multiset(sources)[s] else 0
  {
    KeepCounts(sources, Survives(t));
    Keep(sources, Survives(t))
  }

  /** Sources added at the end of the list are filtered on their own and
      stay behind the older survivors: the filter keeps the list's order. */
  lemma PruneAppend(sources: seq<Source>, added: seq<Source>, t: real)
    ensures Prune(sources + added, t) == Prune(sources, t) + Prune(added, t)
  {
    KeepConcat(sources, added, Survives(t));
  }
}
