/** `Punkt_welle.py`: the piecewise map from a visible wavelength (in nm) to
    an RGB colour, the legend that samples it, and the keyboard state of the
    two steerable point sources. The `x ** 0.8` gamma curve is a parameter. */
module Spectrum {
  import opened Numerics
  import opened WaveFields

  /** The gamma curve `x ** 0.8` on `[0, 1]`: it fixes 0 and 1 and stays in
      `[0, 1]`. Nothing else about it is used. */
  datatype Gamma = Gamma(pow: real -> real) {
    ghost predicate Valid() {
      && pow(0.0) == 0.0
      && pow(1.0) == 1.0
      && forall x :: 0.0 <= x <= 1.0 ==> 0.0 <= pow(x) <= 1.0
    }
  }

  /** Colour components before attenuation and gamma. */
  datatype Shade = Shade(r: real, g: real, b: real)

  predicate Visible(wavelength: real) {
    380.0 <= wavelength <= 780.0
  }

  predicate InUnit(x: real) {
    0.0 <= x <= 1.0
  }

  /** The six linear bands between the spectral anchors 380, 440, 490, 510,
      580, 645 and 780 nm. */
  function Band(w: real): (c: Shade)
    requires Visible(w)
    ensures InUnit(c.r) && InUnit(c.g) && InUnit(c.b)
    ensures 645.0 <= w ==> c == Shade(1.0, 0.0, 0.0)
    ensures w < 490.0 ==> c.b == 1.0
    ensures 490.0 <= w < 580.0 ==> c.g == 1.0
    ensures 580.0 <= w ==> c.r == 1.0
  {
    if w < 440.0 then Shade(-(w - 440.0) / (440.0 - 380.0), 0.0, 1.0)
    else if w < 490.0 then Shade(0.0, (w - 440.0) / (490.0 - 440.0), 1.0)
    else if w < 510.0 then Shade(0.0, 1.0, -(w - 510.0) / (510.0 - 490.0))
    else if w < 580.0 then Shade((w - 510.0) / (580.0 - 510.0), 1.0, 0.0)
    else if w < 645.0 then Shade(1.0, -(w - 645.0) / (645.0 - 580.0), 0.0)
    else Shade(1.0, 0.0, 0.0)
  }

  /** Neighbouring bands meet: the colour is continuous at every anchor. */
  lemma BandContinuous()
    ensures Band(440.0) == Shade(0.0, 0.0, 1.0)
    ensures Band(490.0) == Shade(0.0, 1.0, 1.0)
    ensures Band(510.0) == Shade(0.0, 1.0, 0.0)
    ensures Band(580.0) == Shade(1.0, 1.0, 0.0)
    ensures Band(645.0) == Shade(1.0, 0.0, 0.0)
  {
  }

  /** The dimming towards both ends of the visible range. */
  function EdgeFactor(w: real): (f: real)
    requires Visible(w)
    ensures 0.3 <= f <= 1.0
    ensures 420.0 <= w <= 700.0 ==> f == 1.0
    ensures w == 380.0 || w == 780.0 ==> f == 0.3
  {
    if w < 420.0 then 0.3 + 0.7 * (w - 380.0) / (420.0 - 380.0)
    else if w > 700.0 then 0.3 + 0.7 * (780.0 - w) / (780.0 - 700.0)
    else 1.0
  }

  /** `adjust`: `int(round(255 * (component * factor) ** 0.8))`. */
  function Adjust(g: Gamma, component: real, factor: real): (k: int)
    requires g.Valid()
    requires InUnit(component) && InUnit(factor)
    ensures IsByte(k)
    ensures component == 0.0 ==> k == 0
    ensures component * factor == 1.0 ==> k == 255
  {
    MulNonNegMono(component, factor, 1.0);
    var x := component * factor;
    assert 0.0 <= x <= 1.0;
    var y := g.pow(x);
    assert 0.0 <= y <= 1.0;
    var v := 255.0 * y;
    RoundWithin(v, 0, 255);
    assert component == 0.0 ==> component * factor == 0.0;
    RoundHalfEven(v)
  }

  /** `wavelength_to_rgb`: black outside `[380, 780]`, otherwise the band
      colour dimmed at the edges and put through the gamma curve. */
  function WavelengthToRgb(g: Gamma, w: real): (c: Rgb)
    requires g.Valid()
    ensures IsColour(c)
    ensures !Visible(w) ==> c == Rgb(0, 0, 0)
    ensures 645.0 <= w <= 700.0 ==> c == Rgb(255, 0, 0)
  {
    if w < 380.0 || w > 780.0 then Rgb(0, 0, 0)
    else
      var s := Band(w);
      var f := EdgeFactor(w);
      Rgb(Adjust(g, s.r, f), Adjust(g, s.g, f), Adjust(g, s.b, f))
  }

  /** The legend wavelength of row `i` of `h`: `780 - (i / h) * 400`,
      running from 780 at the top down towards 380. */
  function LegendWavelength(i: int, h: int): (w: real)
    requires 0 <= i < h
    ensures 380.0 < w <= 780.0
    ensures i == 0 ==> w == 780.0
  {
    var q := i as real / h as real;
    assert q * h as real == i as real;
    LegendFraction(q, i as real, h as real);
    780.0 - q * (780.0 - 380.0)
  }

  lemma LegendFraction(q: real, i: real, h: real)
    requires 0.0 <= i < h && q * h == i
    ensures 0.0 <= q < 1.0
  {
    if q < 0.0 {
      NegativeFactor(q, h);
    }
    if q >= 1.0 {
      MulNonNegMono(h, 1.0, q);
    }
  }

  /** Lower rows of the legend show shorter wavelengths. */
  lemma LegendDescending(i: int, j: int, h: int)
    requires 0 <= i < j < h
    ensures LegendWavelength(j, h) < LegendWavelength(i, h)
  {
    var qi := i as real / h as real;
    var qj := j as real / h as real;
    assert qi * h as real == i as real && qj * h as real == j as real;
    if qj <= qi {
      MulNonNegMono(h as real, qj, qi);
    }
  }

  /** The keys the script polls every frame. */
  datatype Key = W | A | S | D | I | J | K | L | Q | E | U | O | Escape

  /** Positions (in pixels) and wavelengths of the two sources. */
  datatype Controls = Controls(x1: int, y1: int, wave1: int, x2: int, y2: int, wave2: int)

  const INITIAL: Controls := Controls(100, 250, 30, 100, 350, 30)

  /** The shortest wavelength the Q and U keys can reach. */
  const MIN_WAVE: int := 5

  /** `+5` for the plus key, `-5` for the minus key, applied in the
      script's order (both cancel). */
  function Nudge(keys: set<Key>, minus: Key, plus: Key, v: int): int {
    var a := if minus in keys then v - 5 else v;
    if plus in keys then a + 5 else a
  }

  /** Q/U shorten (never below `MIN_WAVE`), then E/O lengthen. */
  function Tune(keys: set<Key>, shorter: Key, longer: Key, w: int): int {
    var a := if shorter in keys then (if w - 1 < MIN_WAVE then MIN_WAVE else w - 1) else w;
    if longer in keys then a + 1 else a
  }

  /** One frame of keyboard handling. Escape, checked last, restores the
      initial layout whatever else is held. */
  function Step(keys: set<Key>, c: Controls): (n: Controls)
    ensures Escape in keys ==> n == INITIAL
    ensures keys == {} ==> n == c
    ensures MIN_WAVE <= c.wave1 ==> MIN_WAVE <= n.wave1
    ensures MIN_WAVE <= c.wave2 ==> MIN_WAVE <= n.wave2
    ensures Escape !in keys ==> -5 <= n.x1 - c.x1 <= 5 && -5 <= n.y1 - c.y1 <= 5
    ensures Escape !in keys ==> -5 <= n.x2 - c.x2 <= 5 && -5 <= n.y2 - c.y2 <= 5
    ensures Escape !in keys && Q in keys && E !in keys ==> n.wave1 == (if c.wave1 - 1 < MIN_WAVE then MIN_WAVE else c.wave1 - 1)
  {
    if Escape in keys then INITIAL
    else
      Controls(
        Nudge(keys, A, D, c.x1), Nudge(keys, W, S, c.y1), Tune(keys, Q, E, c.wave1),
        Nudge(keys, J, L, c.x2), Nudge(keys, I, K, c.y2), Tune(keys, U, O, c.wave2))
  }

  /** Holding both keys of a pair leaves that coordinate where it is. */
  lemma OppositeKeysCancel(keys: set<Key>, c: Controls)
    requires Escape !in keys && W in keys && S in keys
    ensures Step(keys, c).y1 == c.y1
  {
  }

  /** From the initial layout every reachable state keeps both wavelengths
      at or above `MIN_WAVE`. */
  lemma {:induction false} WavesStayAudible(frames: seq<set<Key>>)
    ensures MIN_WAVE <= Run(frames).wave1 && MIN_WAVE <= Run(frames).wave2
  {
    if |frames| > 0 {
      WavesStayAudible(frames[..|frames| - 1]);
    }
  }

  /** The state after a run of frames, starting from `INITIAL`. */
  function Run(frames: seq<set<Key>>): Controls {
    if |frames| == 0 then INITIAL
    else Step(frames[|frames| - 1], Run(frames[..|frames| - 1]))
  }
}
