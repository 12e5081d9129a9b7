/** `Interferenz.py`: sources that send a single sinusoidal pulse, the
    amplitude each contributes at a pixel, the grey level of the summed and
    normalised field, and the filter that drops spent sources. */
module Interference {
  import opened Numerics
  import opened Vectors
  import opened Collections
  import opened WaveFields

  /** A source: click position, wavelength and creation time. */
  datatype Source = Source(pos: Vec, wavelength: real, created: real)

  /** Seconds after creation at which the source stops contributing. */
  const ACTIVE_SPAN: real := SOURCE_LIFETIME + WAVE_DURATION

  /** `is_active`: younger than lifetime plus wave duration. */
  predicate IsActive(s: Source, t: real) {
    t - s.created < ACTIVE_SPAN
  }

  /** A source stops being active once and for all. */
  lemma InactiveStaysInactive(s: Source, t: real, later: real)
    requires !IsActive(s, t) && t <= later
    ensures !IsActive(s, later)
  {
  }

  /** The pulse is on at distance `r`: the source is within its span and the
      front passed `r` no more than `WAVE_DURATION` ago. */
  predicate Lit(r: real, elapsed: real) {
    && 0.0 <= elapsed <= ACTIVE_SPAN
    && 0.0 <= elapsed - r / WAVE_SPEED <= WAVE_DURATION
  }

  /** `WaveSource.amplitude`: the sine of the phase where the pulse is on,
      0 everywhere else. */
  function Amplitude(m: Maths, s: Source, p: Vec, t: real): (a: real)
    requires m.Valid() && s.wavelength != 0.0
    ensures -1.0 <= a <= 1.0
    ensures !Lit(m.Norm(Sub(p, s.pos)), t - s.created) ==> a == 0.0
    ensures Lit(m.Norm(Sub(p, s.pos)), t - s.created) ==>
      a == m.sin(SplitPhase(s.wavelength, m.Norm(Sub(p, s.pos)), t - s.created))
  {
    var r := m.Norm(Sub(p, s.pos));
    var elapsed := t - s.created;
    if elapsed < 0.0 || elapsed > ACTIVE_SPAN then 0.0
    else
      var waveAge := elapsed - r / WAVE_SPEED;
      if waveAge < 0.0 || waveAge > WAVE_DURATION then 0.0
      else
        UnitBounds(m, SplitPhase(s.wavelength, r, elapsed));
        m.sin(SplitPhase(s.wavelength, r, elapsed))
  }

  /** Before the front reaches a pixel the pixel is dark. */
  lemma DarkBeforeArrival(m: Maths, s: Source, p: Vec, t: real)
    requires m.Valid() && s.wavelength != 0.0
    requires t - s.created < m.Norm(Sub(p, s.pos)) / WAVE_SPEED
    ensures Amplitude(m, s, p, t) == 0.0
  {
  }

  /** A source the filter drops stays silent everywhere at every later
      time, so dropping it changes no later frame. */
  lemma DroppedStaysSilent(m: Maths, s: Source, p: Vec, t: real, later: real)
    requires m.Valid() && s.wavelength != 0.0
    requires !IsActive(s, t) && t < later
    ensures Amplitude(m, s, p, later) == 0.0
  {
  }

  /** The test a source must pass to stay in the list at time `t`. */
  function Survives(t: real): Source -> bool {
    (s: Source) => IsActive(s, t)
  }

  /** `[ws for ws in wave_sources if ws.is_active(t)]`: exactly the active
      sources survive, in order. */
  function Prune(sources: seq<Source>, t: real): (r: seq<Source>)
    ensures |r| <= |sources|
    ensures forall s :: s in r <==> s in sources && IsActive(s, t)
    ensures forall s :: multiset(r)[s] == if IsActive(s, t) then multiset(sources)[s] else 0
  {
    KeepCounts(sources, Survives(t));
    Keep(sources, Survives(t))
  }

  /** Sources added at the end of the list are filtered on their own and
      stay behind the older survivors: the filter keeps the list's order. */
  lemma PruneAppend(sources: seq<Source>, added: seq<Source>, t: real)
    ensures Prune(sources + added, t) == Prune(sources, t) + Prune(added, t)
  {
    KeepConcat(sources, added, Survives(t));
  }

  /** `amplitude_sum` at one pixel: at most one unit per source. */
  function AmplitudeSum(m: Maths, sources: seq<Source>, p: Vec, t: real): (a: real)
    requires m.Valid()
    requires forall s :: s in sources ==> s.wavelength != 0.0
    ensures Abs(a) <= |sources| as real
  {
    if |sources| == 0 then 0.0
    else
      AmplitudeSum(m, sources[..|sources| - 1], p, t) + Amplitude(m, sources[|sources| - 1], p, t)
  }

  /** A source clicked after the others adds its own amplitude to the sum. */
  lemma AmplitudeSumAppend(m: Maths, sources: seq<Source>, s: Source, p: Vec, t: real)
    requires m.Valid() && s.wavelength != 0.0
    requires forall x :: x in sources ==> x.wavelength != 0.0
    ensures AmplitudeSum(m, sources + [s], p, t) == AmplitudeSum(m, sources, p, t) + Amplitude(m, s, p, t)
  {
    assert (sources + [s])[..|sources|] == sources;
  }

  /** Pruning after a frame is drawn leaves every later frame unchanged: the
      sum over the survivors equals the sum over the whole list at each pixel
      and each later time. */
  lemma {:induction false} PruneKeepsLaterSum(m: Maths, sources: seq<Source>, p: Vec, t: real, later: real)
    requires m.Valid() && t < later
    requires forall s :: s in sources ==> s.wavelength != 0.0
    ensures AmplitudeSum(m, Prune(sources, t), p, later) == AmplitudeSum(m, sources, p, later)
  {
    if |sources| == 0 {
      assert Prune(sources, t) == [];
    } else {
      var front, last := sources[..|sources| - 1], sources[|sources| - 1];
      assert sources == front + [last];
      PruneAppend(front, [last], t);
      KeepOne(last, Survives(t));
      PruneKeepsLaterSum(m, front, p, t, later);
      var kept := Prune(front, t);
      if IsActive(last, t) {
        assert Prune(sources, t) == kept + [last];
        AmplitudeSumAppend(m, kept, last, p, later);
      } else {
        assert Prune(sources, t) == kept;
        DroppedStaysSilent(m, last, p, t, later);
      }
    }
  }

  /** `int((val + 1) / 2 * 255)` of a normalised sample: the trough is
      black, the crest white and silence the mid grey 127. */
  function Grey(val: real): (g: int)
    requires -1.0 <= val <= 1.0
    ensures IsByte(g)
    ensures val == -1.0 ==> g == 0
    ensures val == 0.0 ==> g == 127
    ensures val == 1.0 ==> g == 255
  {
    Trunc((val + 1.0) / 2.0 * 255.0)
  }

  /** A louder sample is never drawn darker. */
  lemma GreyMonotone(a: real, b: real)
    requires -1.0 <= a <= b <= 1.0
    ensures Grey(a) <= Grey(b)
  {
    var x, y := (a + 1.0) / 2.0 * 255.0, (b + 1.0) / 2.0 * 255.0;
    assert x <= y;
  }

  /** A grey level is within one step of the exact linear map of the sample:
      the drawn image is the field up to truncation. */
  lemma GreyNearLinear(val: real)
    requires -1.0 <= val <= 1.0
    ensures Grey(val) as real <= (val + 1.0) * 127.5 < Grey(val) as real + 1.0
  {
  }

  /** The grey levels of the sampled field after normalisation: all bytes,
      and a silent field is an even mid grey of 127. */
  function Brightness(field: seq<real>): (r: seq<int>)
    requires 0 < |field|
    ensures |r| == |field|
    ensures forall i :: 0 <= i < |r| ==> IsByte(r[i])
    ensures (forall i :: 0 <= i < |field| ==> field[i] == 0.0) ==>
      forall i :: 0 <= i < |r| ==> r[i] == 127
    ensures forall i :: 0 <= i < |r| ==> r[i] == Grey(Normalise(field)[i])
  {
    var vals := Normalise(field);
    seq(|field|, i requires 0 <= i < |field| => Grey(vals[i]))
  }

  /** Normalisation keeps the order of the samples, so a louder point of the
      field is never drawn darker than a quieter one. */
  lemma BrightnessMonotone(field: seq<real>, i: int, j: int)
    requires 0 < |field|
    requires 0 <= i < |field| && 0 <= j < |field|
    requires field[i] <= field[j]
    ensures Brightness(field)[i] <= Brightness(field)[j]
  {
    var vals := Normalise(field);
    var d := Divisor(field);
    DivideMonotone(field[i], field[j], d);
    GreyMonotone(vals[i], vals[j]);
  }

  lemma DivideMonotone(a: real, b: real, d: real)
    requires a <= b && 0.0 < d
    ensures a / d <= b / d
  {
    assert a / d * d == a && b / d * d == b;
  }

  /** The loudest sample of a field that is not silent is drawn black or
      white. */
  lemma PeakIsBlackOrWhite(field: seq<real>)
    requires 0 < |field|
    requires exists i :: 0 <= i < |field| && field[i] != 0.0
    ensures exists i :: 0 <= i < |field| && (Brightness(field)[i] == 0 || Brightness(field)[i] == 255)
  {
    var vals := Normalise(field);
    var i :| 0 <= i < |vals| && Abs(vals[i]) == 1.0;
    assert Brightness(field)[i] == Grey(vals[i]);
  }
}
