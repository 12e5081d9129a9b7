/** The ring-emitting wave source of `Wasserwelle.py` and `Wasserwelle_2.py`
    (both scripts carry the same `WaveSource` class): an append-only list of
    emission timestamps, the rings drawn from it, the expiry rule, and the
    microphone of `Wasserwelle_2.py` that listens for fronts crossing the
    centre of the window. The clock is a parameter. */
module Ripples {
  import opened Numerics
  import opened Vectors
  import opened Collections
  import opened WaveFields

  /** Pixels within which a front counts as arriving at the microphone. */
  const ARRIVAL_TOLERANCE: real := 5.0
  /** `(width // 2, height // 2)` of the 600 x 600 window. */
  const MIC_POS: Vec := Vec(300.0, 300.0)

  /** A source: where it was clicked, its wavelength in pixels, its creation
      time and the emission times of the fronts it has sent so far. */
  datatype Source = Source(pos: Vec, wavelength: real, created: real, waves: seq<real>)

  /** `WaveSource(pos, wavelength)` created at time `now`. */
  function NewSource(pos: Vec, wavelength: real, now: real): (s: Source)
    ensures s.waves == [] && s.created == now
  {
    Source(pos, wavelength, now, [])
  }

  /** The emission time of front `k`: one front per wavelength travelled. */
  function WaveTime(s: Source, k: int): real
    requires s.wavelength != 0.0
  {
    s.created + k as real * s.wavelength / WAVE_SPEED
  }

  /** `int(t_since_start * WAVE_SPEED / wavelength)`. */
  function Expected(s: Source, t: real): int
    requires s.wavelength != 0.0
  {
    Trunc((t - s.created) * WAVE_SPEED / s.wavelength)
  }

  /** The stored timestamps are the emission schedule. */
  predicate Scheduled(s: Source)
    requires s.wavelength != 0.0
  {
    forall k :: 0 <= k < |s.waves| ==> s.waves[k] == WaveTime(s, k)
  }

  /** `WaveSource.update`: while the source is younger than its lifetime,
      append the missing emission times until there are as many as the
      elapsed time calls for. Nothing is ever removed or rewritten. */
  method Update(s: Source, t: real) returns (r: Source)
    requires s.wavelength != 0.0
    ensures r == s.(waves := r.waves)
    ensures |s.waves| <= |r.waves| && r.waves[..|s.waves|] == s.waves
    ensures t - s.created < SOURCE_LIFETIME ==>
      |r.waves| == if Expected(s, t) <= |s.waves| then |s.waves| else Expected(s, t)
    ensures SOURCE_LIFETIME <= t - s.created ==> r == s
    ensures forall k :: |s.waves| <= k < |r.waves| ==> r.waves[k] == WaveTime(s, k)
    ensures Scheduled(s) ==> Scheduled(r)
    ensures 0.0 < s.wavelength ==> forall k :: |s.waves| <= k < |r.waves| ==> r.waves[k] < t
  {
    r := s;
    if t - s.created < SOURCE_LIFETIME {
      var expected := Expected(s, t);
      while |r.waves| < expected
        invariant r == s.(waves := r.waves)
        invariant |s.waves| <= |r.waves| && r.waves[..|s.waves|] == s.waves
        invariant |r.waves| <= expected || r.waves == s.waves
        invariant forall k :: |s.waves| <= k < |r.waves| ==> r.waves[k] == WaveTime(s, k) && k < expected
        decreases expected - |r.waves|
      {
        r := r.(waves := r.waves + [WaveTime(s, |r.waves|)]);
      }
      if 0.0 < s.wavelength {
        forall k | |s.waves| <= k < |r.waves|
          ensures r.waves[k] < t
        {
          EarlierThanNow(s, k, t);
        }
      }
    }
  }

  /** A front whose index is below the expected count was emitted before
      `t`. */
  lemma EarlierThanNow(s: Source, k: nat, t: real)
    requires 0.0 < s.wavelength
    requires k < Expected(s, t)
    ensures WaveTime(s, k) < t
  {
    var x := (t - s.created) * WAVE_SPEED / s.wavelength;
    assert k as real < x;
    var step := s.wavelength / WAVE_SPEED;
    assert x * step == t - s.created;
    assert k as real * s.wavelength / WAVE_SPEED == k as real * step;
    MulLeftStrict(step, k as real, x);
  }

  /** With a positive wavelength the schedule strictly increases. */
  lemma ScheduleIncreasing(s: Source, i: nat, j: nat)
    requires 0.0 < s.wavelength && Scheduled(s)
    requires i < j < |s.waves|
    ensures s.waves[i] < s.waves[j]
  {
    var step := s.wavelength / WAVE_SPEED;
    assert i as real * s.wavelength / WAVE_SPEED == i as real * step;
    assert j as real * s.wavelength / WAVE_SPEED == j as real * step;
    MulLeftStrict(step, i as real, j as real);
  }

  /** The ring radii `draw` renders at time `t`: one circle of radius
      `int(age * WAVE_SPEED)` for every front younger than `WAVE_DURATION`. */
  function Rings(waves: seq<real>, t: real): (radii: seq<int>)
    ensures |radii| <= |waves|
    ensures forall r :: r in radii ==> r < 300
    ensures forall r :: r in radii <==>
      exists k :: 0 <= k < |waves| && t - waves[k] < WAVE_DURATION && r == Trunc((t - waves[k]) * WAVE_SPEED)
  {
    if |waves| == 0 then []
    else
      var front := Rings(waves[..|waves| - 1], t);
      var age := t - waves[|waves| - 1];
      assert forall k :: 0 <= k < |waves| - 1 ==> waves[..|waves| - 1][k] == waves[k];
      front + (if age < WAVE_DURATION then [Trunc(age * WAVE_SPEED)] else [])
  }

  /** `is_expired`: strictly older than the lifetime. */
  predicate IsExpired(s: Source, t: real) {
    t - s.created > SOURCE_LIFETIME
  }

  /** Expiry is final: a source expired at `t` is expired at every later
      time, so a dropped source would never have come back. */
  lemma ExpiryIsFinal(s: Source, t: real, later: real)
    requires IsExpired(s, t) && t <= later
    ensures IsExpired(s, later)
  {
  }

  /** The test a source must pass to stay in the list at time `t`. */
  function Survives(t: real): Source -> bool {
    (s: Source) => !IsExpired(s, t)
  }

  /** `[s for s in wave_sources if not s.is_expired(t)]` of
      `Wasserwelle_2.py`: exactly the sources at most `SOURCE_LIFETIME` old
      survive, in their original order. */
  function Prune(sources: seq<Source>, t: real): (r: seq<Source>)
    ensures |r| <= |sources|
    ensures forall s :: s in r <==> s in sources && t - s.created <= SOURCE_LIFETIME
    ensures forall s :: multiset(r)[s] == if t - s.created <= SOURCE_LIFETIME then multiset(sources)[s] else 0
  {
    KeepCounts(sources, Survives(t));
    Keep(sources, Survives(t))
  }

  /** Sources added at the end of the list are filtered on their own and
      stay behind the older survivors: the filter keeps the list's order. */
  lemma PruneAppend(sources: seq<Source>, added: seq<Source>, t: real)
    ensures Prune(sources + added, t) == Prune(sources, t) + Prune(added, t)
  {
    KeepConcat(sources, added, Survives(t));
  }

  /** A front emitted at `w` is heard at distance `dist` when it is between
      0 and `WAVE_DURATION` old and its radius is within the tolerance of
      the distance. */
  predicate Arrives(w: real, dist: real, t: real) {
    0.0 <= t - w < WAVE_DURATION && Abs((t - w) * WAVE_SPEED - dist) <= ARRIVAL_TOLERANCE
  }

  /** Some front of `s` arrives at the microphone. */
  ghost predicate Heard(m: Maths, s: Source, t: real)
    requires m.Valid()
  {
    exists k :: 0 <= k < |s.waves| && Arrives(s.waves[k], m.Norm(Sub(s.pos, MIC_POS)), t)
  }

  /** The reference: one frequency per source with an arriving front, in
      source order. */
  ghost function HeardFrequencies(m: Maths, sources: seq<Source>, t: real): seq<real>
    requires m.Valid()
  {
    if |sources| == 0 then []
    else
      var last := sources[|sources| - 1];
      HeardFrequencies(m, sources[..|sources| - 1], t) +
        (if Heard(m, last, t) then [WavelengthToFreq(last.wavelength)] else [])
  }

  /** The inner loop of the microphone check: scan the fronts in order and
      stop at the first one that arrives. */
  method FirstArrival(m: Maths, s: Source, t: real) returns (hit: bool)
    requires m.Valid()
    ensures hit <==> Heard(m, s, t)
  {
    var dist := m.Norm(Sub(s.pos, MIC_POS));
    hit := false;
    var k := 0;
    while k < |s.waves|
      invariant 0 <= k <= |s.waves|
      invariant forall j :: 0 <= j < k ==> !Arrives(s.waves[j], dist, t)
    {
      if Arrives(s.waves[k], dist, t) {
        hit := true;
        return;
      }
      k := k + 1;
    }
  }

  /** `freqs_to_play`: for each surviving source, at most one frequency,
      taken from its wavelength, when one of its fronts is crossing the
      microphone. */
  method MicFrequencies(m: Maths, sources: seq<Source>, t: real) returns (freqs: seq<real>)
    requires m.Valid()
    ensures freqs == HeardFrequencies(m, sources, t)
    ensures |freqs| <= |sources|
    ensures forall i :: 0 <= i < |freqs| ==> 200.0 <= freqs[i] <= 1000.0
  {
    freqs := [];
    var i := 0;
    while i < |sources|
      invariant 0 <= i <= |sources|
      invariant freqs == HeardFrequencies(m, sources[..i], t)
      invariant |freqs| <= i
      invariant forall j :: 0 <= j < |freqs| ==> 200.0 <= freqs[j] <= 1000.0
    {
      assert sources[..i + 1][..i] == sources[..i];
      var hit := FirstArrival(m, sources[i], t);
      if hit {
        freqs := freqs + [WavelengthToFreq(sources[i].wavelength)];
      }
      i := i + 1;
    }
    assert sources[..i] == sources;
  }
}
