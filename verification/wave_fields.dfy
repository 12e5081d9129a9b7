/** The pieces the LNDW wave scripts share: the common timing constants, the
    click-duration and wavelength-to-pitch rules that several scripts copy
    verbatim, the linear fade, and the normalisation of an amplitude field
    by its largest magnitude. */
module WaveFields {
  import opened Numerics
  import opened Vectors

  /** Pixels per second at which every wavefront travels. */
  const WAVE_SPEED: real := 100.0
  /** Seconds a wavefront stays visible after passing a point. */
  const WAVE_DURATION: real := 3.0
  /** Seconds a source keeps emitting (`SOURCE_LIFETIME`, `max_lifetime`). */
  const SOURCE_LIFETIME: real := 5.0

  /** An 8-bit colour as pygame receives it. */
  datatype Rgb = Rgb(r: int, g: int, b: int)

  predicate IsByte(k: int) {
    0 <= k <= 255
  }

  predicate IsColour(c: Rgb) {
    IsByte(c.r) && IsByte(c.g) && IsByte(c.b)
  }

  /** `max(20, 100 - duration * 80)`: a short click gives a long wave, a
      press of one second or more the shortest one. */
  function ClickWavelength(duration: real): (w: real)
    ensures 20.0 <= w
    ensures 0.0 <= duration ==> w <= 100.0
    ensures 1.0 <= duration ==> w == 20.0
  {
    Max(20.0, 100.0 - duration * 80.0)
  }

  /** A longer press never gives a longer wave. */
  lemma ClickWavelengthMonotone(d1: real, d2: real)
    requires d1 <= d2
    ensures ClickWavelength(d2) <= ClickWavelength(d1)
  {
  }

  /** `wavelength_to_freq` of `Wasserwelle_2.py` and `analog_horror.py`:
      wavelengths below 1 count as 1, the pitch is `2000 / wavelength`
      clipped into `[200, 1000]`. */
  function WavelengthToFreq(wavelength: real): (f: real)
    ensures 200.0 <= f <= 1000.0
    ensures wavelength <= 2.0 ==> f == 1000.0
    ensures 10.0 <= wavelength ==> f == 200.0
  {
    var w := if wavelength < 1.0 then 1.0 else wavelength;
    QuotientBelow(2000.0, w, 1000.0);
    QuotientBelow(2000.0, w, 10.0);
    Max(200.0, Min(1000.0, 2000.0 / w))
  }

  /** For positive `c` and `w`: `c / w >= k` when `w * k <= c`, and
      `c / w <= c / k` when `k <= w`. */
  lemma QuotientBelow(c: real, w: real, k: real)
    requires 0.0 < c && 0.0 < w
    ensures 0.0 < k && w * k <= c ==> k <= c / w
    ensures 0.0 < k <= w ==> c / w <= c / k
  {
    if 0.0 < k && w * k <= c {
      QuotientAbove(c, w, k);
    }
    if 0.0 < k <= w {
      QuotientAntitone(c, w, k);
    }
  }

  lemma QuotientAbove(c: real, w: real, k: real)
    requires 0.0 < w && 0.0 < k && w * k <= c
    ensures k <= c / w
  {
    var q := c / w;
    assert q * w == c;
    if q < k {
      MulLeftStrict(w, q, k);
      assert w * q < w * k;
    }
  }

  lemma QuotientAntitone(c: real, w: real, k: real)
    requires 0.0 < c && 0.0 < k <= w
    ensures c / w <= c / k
  {
    var q := c / w;
    var p := c / k;
    assert q * w == c;
    assert p * k == c;
    if p < q {
      MulLeftStrict(k, p, q);
      MulNonNegMono(q, k, w);
    }
  }

  /** A longer wave never sounds higher. */
  lemma WavelengthToFreqMonotone(a: real, b: real)
    requires a <= b
    ensures WavelengthToFreq(b) <= WavelengthToFreq(a)
  {
    var wa := if a < 1.0 then 1.0 else a;
    var wb := if b < 1.0 then 1.0 else b;
    QuotientBelow(2000.0, wb, wa);
  }

  /** The phase `2 pi (dist - WAVE_SPEED elapsed) / wavelength` of a sine
      wave travelling outwards, at distance `dist` from its source
      `elapsed` seconds after the start. */
  function WavePhase(wavelength: real, dist: real, elapsed: real): (phase: real)
    requires wavelength != 0.0
  {
    2.0 * PI * ((dist - WAVE_SPEED * elapsed) / wavelength)
  }

  /** A point riding on the front sees a constant phase. */
  lemma PhaseMovesWithFront(wavelength: real, dist: real, elapsed: real, dt: real)
    requires wavelength != 0.0
    ensures WavePhase(wavelength, dist + WAVE_SPEED * dt, elapsed + dt) == WavePhase(wavelength, dist, elapsed)
  {
    assert (dist + WAVE_SPEED * dt) - WAVE_SPEED * (elapsed + dt) == dist - WAVE_SPEED * elapsed;
  }

  /** One wavelength further out the phase is one full turn further on. */
  lemma PhasePeriod(wavelength: real, dist: real, elapsed: real)
    requires wavelength != 0.0
    ensures WavePhase(wavelength, dist + wavelength, elapsed) == WavePhase(wavelength, dist, elapsed) + 2.0 * PI
  {
    var x := dist - WAVE_SPEED * elapsed;
    assert (dist + wavelength) - WAVE_SPEED * elapsed == x + wavelength;
    var q, r := x / wavelength, (x + wavelength) / wavelength;
    assert q * wavelength == x && r * wavelength == x + wavelength;
    assert (r - q - 1.0) * wavelength == 0.0;
  }

  /** The two ways the scripts spell the phase argument agree with the
      common form. */
  lemma PhaseForms(wavelength: real, dist: real, elapsed: real)
    requires wavelength != 0.0
    ensures dist / wavelength - (WAVE_SPEED / wavelength) * elapsed == (dist - WAVE_SPEED * elapsed) / wavelength
    ensures dist / wavelength - elapsed * WAVE_SPEED / wavelength == (dist - WAVE_SPEED * elapsed) / wavelength
  {
  }

  /** The phase as `Interferenz.py` and `welle_3.py` write it,
      `2 pi ((dist / wavelength) - (WAVE_SPEED / wavelength) elapsed)`: the
      travelling-wave phase in another arrangement. */
  function SplitPhase(wavelength: real, dist: real, elapsed: real): (phase: real)
    requires wavelength != 0.0
    ensures phase == WavePhase(wavelength, dist, elapsed)
  {
    PhaseForms(wavelength, dist, elapsed);
    2.0 * PI * ((dist / wavelength) - (WAVE_SPEED / wavelength) * elapsed)
  }

  /** `max(0, 1 - elapsed / lifetime)` with the scripts' lifetime of 5 s. */
  function Fade(elapsed: real): (f: real)
    ensures 0.0 <= f
    ensures 0.0 <= elapsed ==> f <= 1.0
    ensures SOURCE_LIFETIME <= elapsed ==> f == 0.0
    ensures elapsed < SOURCE_LIFETIME ==> 0.0 < f
  {
    Max(0.0, 1.0 - elapsed / SOURCE_LIFETIME)
  }

  /** A sine sample scaled by a fade factor is never louder than the
      fade. */
  lemma FadedBound(x: real, f: real)
    requires -1.0 <= x <= 1.0 && 0.0 <= f
    ensures Abs(x * f) <= f
  {
    MulNonNegMono(f, x, 1.0);
    MulNonNegMono(f, -1.0, x);
  }

  /** The fade only ever decreases with time. */
  lemma FadeMonotone(e1: real, e2: real)
    requires e1 <= e2
    ensures Fade(e2) <= Fade(e1)
  {
  }

  /** `np.max(np.abs(field))`. The field is never empty (it is a grid of
      pixel samples), and numpy rejects an empty one. */
  function MaxAbs(field: seq<real>): (r: real)
    requires 0 < |field|
    ensures forall i :: 0 <= i < |field| ==> Abs(field[i]) <= r
    ensures exists i :: 0 <= i < |field| && Abs(field[i]) == r
  {
    if |field| == 1 then Abs(field[0])
    else
      var rest := MaxAbs(field[1..]);
      assert forall i :: 1 <= i < |field| ==> field[i] == field[1..][i - 1];
      Max(Abs(field[0]), rest)
  }

  /** `max_amp`, replaced by 1 when the whole field is zero. */
  function Divisor(field: seq<real>): (d: real)
    requires 0 < |field|
    ensures 0.0 < d
    ensures forall i :: 0 <= i < |field| ==> Abs(field[i]) <= d || d == 1.0
  {
    var top := MaxAbs(field);
    if top == 0.0 then 1.0 else top
  }

  /** `field / max_amp`: every sample divided by one common positive
      divisor, so every value lands in `[-1, 1]`, the loudest one on exactly
      1 or -1 unless the field is silent, and a silent field stays silent. */
  function Normalise(field: seq<real>): (r: seq<real>)
    requires 0 < |field|
    ensures |r| == |field|
    ensures forall i :: 0 <= i < |r| ==> -1.0 <= r[i] <= 1.0
    ensures (exists i :: 0 <= i < |field| && field[i] != 0.0) ==>
      exists i :: 0 <= i < |r| && Abs(r[i]) == 1.0
    ensures (forall i :: 0 <= i < |field| ==> field[i] == 0.0) ==>
      forall i :: 0 <= i < |r| ==> r[i] == 0.0
    ensures forall i :: 0 <= i < |r| ==> r[i] == field[i] / Divisor(field)
  {
    var d := Divisor(field);
    var r := seq(|field|, i requires 0 <= i < |field| => field[i] / d);
    NormalisedValues(field, d, r);
    r
  }

  lemma NormalisedValues(field: seq<real>, d: real, r: seq<real>)
    requires 0 < |field| && d == Divisor(field)
    requires |r| == |field| && forall i :: 0 <= i < |r| ==> r[i] == field[i] / d
    ensures forall i :: 0 <= i < |r| ==> -1.0 <= r[i] <= 1.0
    ensures (exists i :: 0 <= i < |field| && field[i] != 0.0) ==>
      exists i :: 0 <= i < |r| && Abs(r[i]) == 1.0
  {
    forall i | 0 <= i < |r|
      ensures -1.0 <= r[i] <= 1.0
    {
      ScaledIntoUnit(field[i], MaxAbs(field), d);
    }
    if k :| 0 <= k < |field| && field[k] != 0.0 {
      var j :| 0 <= j < |field| && Abs(field[j]) == MaxAbs(field);
      assert Abs(field[k]) <= Abs(field[j]);
      PeakIsOne(field[j], d);
      assert Abs(r[j]) == 1.0;
    }
  }

  lemma ScaledIntoUnit(v: real, top: real, d: real)
    requires Abs(v) <= top && 0.0 < d
    requires d == top || (top == 0.0 && d == 1.0)
    ensures -1.0 <= v / d <= 1.0
  {
    MeanBound(v, d);
  }

  lemma PeakIsOne(v: real, d: real)
    requires 0.0 < d && Abs(v) == d
    ensures Abs(v / d) == 1.0
  {
    var q := v / d;
    assert q * d == v;
    if v == d {
      assert (q - 1.0) * d == 0.0;
      ZeroFactor(q - 1.0, d);
    } else {
      assert (q + 1.0) * d == 0.0;
      ZeroFactor(q + 1.0, d);
    }
  }

  lemma ZeroFactor(a: real, d: real)
    requires 0.0 < d && a * d == 0.0
    ensures a == 0.0
  {
    if a > 0.0 {
      PositiveProduct(a, d);
    }
    NegativeFactor(a, d);
  }
}
