/** Plane vectors and the transcendental primitives the scripts call through
    numpy and `math`. Square root, cosine and sine are not computable over
    exact reals, so they travel as function values in a `Maths` record whose
    `Valid()` predicate states the only facts the model relies on. */
module Vectors {
  import opened Numerics

  datatype Vec = Vec(x: real, y: real)

  const Zero: Vec := Vec(0.0, 0.0)

  function Add(a: Vec, b: Vec): Vec {
    Vec(a.x + b.x, a.y + b.y)
  }

  function Sub(a: Vec, b: Vec): Vec {
    Vec(a.x - b.x, a.y - b.y)
  }

  function Scale(k: real, v: Vec): Vec {
    Vec(k * v.x, k * v.y)
  }

  function Dot(a: Vec, b: Vec): real {
    a.x * b.x + a.y * b.y
  }

  lemma DotSelfNonNegative(v: Vec)
    ensures 0.0 <= Dot(v, v)
  {
  }

  /** `sqrt`, `cos` and `sin` as supplied by numpy and `math`. */
  datatype Maths = Maths(sqrt: real -> real, cos: real -> real, sin: real -> real) {

    /** The square root is the non-negative root, and the unit circle
        identity holds. */
    ghost predicate Valid() {
      && (forall x :: 0.0 <= x ==> 0.0 <= sqrt(x) && sqrt(x) * sqrt(x) == x)
      && (forall t :: cos(t) * cos(t) + sin(t) * sin(t) == 1.0)
    }

    /** `np.linalg.norm` of a plane vector, `math.dist` of two points. */
    function Norm(v: Vec): (r: real)
      requires Valid()
      ensures 0.0 <= r
      ensures r * r == Dot(v, v)
    {
      DotSelfNonNegative(v);
      sqrt(Dot(v, v))
    }

    /** `(cos t, sin t)`, the heading vector used for motion. */
    function Unit(t: real): Vec {
      Vec(cos(t), sin(t))
    }
  }

  /** Two non-negative numbers with equal squares are equal. */
  lemma SquareRootUnique(a: real, b: real)
    requires 0.0 <= a && 0.0 <= b
    requires a * a == b * b
    ensures a == b
  {
    SquareLess(a, b);
    SquareLess(b, a);
  }

  /** A number whose square is at most 1 lies in `[-1, 1]`. */
  lemma SquareAtMostOne(a: real)
    requires a * a <= 1.0
    ensures -1.0 <= a <= 1.0
  {
    SquareAboveOne(a);
  }

  lemma SquareAboveOne(a: real)
    ensures a > 1.0 ==> a * a > 1.0
    ensures a < -1.0 ==> a * a > 1.0
  {
    if a > 1.0 {
      assert a * a > 1.0 * a;
    } else if a < -1.0 {
      assert a * a > -a;
    }
  }

  /** Scaling a vector scales its length: `norm(k v) = |k| norm(v)`. */
  lemma NormScale(m: Maths, k: real, v: Vec)
    requires m.Valid()
    ensures m.Norm(Scale(k, v)) == Abs(k) * m.Norm(v)
  {
    DotScale(k, v);
    ScaledRoot(m.Norm(Scale(k, v)), m.Norm(v), k, Dot(v, v));
  }

  /** If `n` is the root of `d` then `|k| n` is the root of `k^2 d`. */
  lemma ScaledRoot(a: real, n: real, k: real, d: real)
    requires 0.0 <= a && 0.0 <= n
    requires n * n == d
    requires a * a == (k * k) * d
    ensures a == Abs(k) * n
  {
    var b := Abs(k) * n;
    ProductSquare(Abs(k), n);
    assert Abs(k) * Abs(k) == k * k;
    assert a * a == b * b;
    SquareRootUnique(a, b);
  }

  lemma DotScale(k: real, v: Vec)
    ensures Dot(Scale(k, v), Scale(k, v)) == (k * k) * Dot(v, v)
  {
  }

  lemma ProductSquare(p: real, q: real)
    ensures (p * q) * (p * q) == (p * p) * (q * q)
  {
  }

  /** Cosine and sine lie in `[-1, 1]` and the heading vector has length 1. */
  lemma UnitBounds(m: Maths, t: real)
    requires m.Valid()
    ensures -1.0 <= m.cos(t) <= 1.0
    ensures -1.0 <= m.sin(t) <= 1.0
    ensures m.Norm(m.Unit(t)) == 1.0
  {
    assert m.cos(t) * m.cos(t) + m.sin(t) * m.sin(t) == 1.0;
    SquareAtMostOne(m.cos(t));
    SquareAtMostOne(m.sin(t));
    SquareRootUnique(m.Norm(m.Unit(t)), 1.0);
  }

  /** `(a . b)^2 <= |a|^2 |b|^2`, from Lagrange's identity in the plane. */
  lemma CauchySchwarz(a: Vec, b: Vec)
    ensures Dot(a, b) * Dot(a, b) <= Dot(a, a) * Dot(b, b)
  {
    var cross := a.x * b.y - a.y * b.x;
    assert Dot(a, a) * Dot(b, b) - Dot(a, b) * Dot(a, b) == cross * cross;
  }

  /** The triangle inequality for the Euclidean norm. */
  lemma NormTriangle(m: Maths, a: Vec, b: Vec)
    requires m.Valid()
    ensures m.Norm(Add(a, b)) <= m.Norm(a) + m.Norm(b)
  {
    var na, nb, nc := m.Norm(a), m.Norm(b), m.Norm(Add(a, b));
    NormSquared(m, a, na);
    NormSquared(m, b, nb);
    NormSquared(m, Add(a, b), nc);
    TriangleScalar(a, b, na, nb, nc);
  }

  lemma NormSquared(m: Maths, v: Vec, n: real)
    requires m.Valid() && n == m.Norm(v)
    ensures 0.0 <= n && n * n == Dot(v, v)
  {
  }

  lemma TriangleScalar(a: Vec, b: Vec, na: real, nb: real, nc: real)
    requires 0.0 <= na && na * na == Dot(a, a)
    requires 0.0 <= nb && nb * nb == Dot(b, b)
    requires 0.0 <= nc && nc * nc == Dot(Add(a, b), Add(a, b))
    ensures nc <= na + nb
  {
    var ab := Dot(a, b);
    CauchySchwarz(a, b);
    ProductSquare(na, nb);
    MulNonNegMono(na, 0.0, nb);
    SquareBounded(ab, na * nb);
    assert Dot(Add(a, b), Add(a, b)) == Dot(a, a) + 2.0 * ab + Dot(b, b);
    assert (na + nb) * (na + nb) == na * na + 2.0 * (na * nb) + nb * nb;
    RootLeq(nc, na + nb);
  }

  /** A vector rescaled to length `len` along itself has length `len`. */
  lemma RescaledLength(m: Maths, v: Vec, len: real)
    requires m.Valid()
    requires 0.0 < m.Norm(v) && 0.0 <= len
    ensures m.Norm(Scale(len / m.Norm(v), v)) == len
  {
    var d := m.Norm(v);
    NormScale(m, len / d, v);
    assert Abs(len / d) == len / d;
    assert len / d * d == len;
  }
}

/** Small collection helpers shared by every script model. */
module Collections {

  /** A value that may be absent; `None` stands for Python's `None` or for a
      numpy result that would be `nan`. */
  datatype Option<T> = None | Some(value: T)

  /** Order-preserving filtering, the list comprehension
      `[s for s in xs if p(s)]` used to drop expired sources or a filament
      from its own neighbour list. */
  function Keep<T(==,!new)>(xs: seq<T>, p: T -> bool): (r: seq<T>)
    ensures |r| <= |xs|
    ensures forall x :: x in r <==> x in xs && p(x)
  {
    if xs == [] then []
    else (if p(xs[0]) then [xs[0]] else []) + Keep(xs[1..], p)
  }

  /** A concatenation is empty exactly when both parts are. */
  lemma ConcatEmpty<T>(a: seq<T>, b: seq<T>)
    ensures a + b == [] <==> a == [] && b == []
  {
    assert |a + b| == |a| + |b|;
  }

  /** Every value that passes survives as often as it occurs; the others
      vanish. */
  lemma {:induction false} KeepCounts<T(!new)>(xs: seq<T>, p: T -> bool)
    ensures forall x :: multiset(Keep(xs, p))[x] == if p(x) then multiset(xs)[x] else 0
  {
    if xs != [] {
      KeepCounts(xs[1..], p);
      assert xs == [xs[0]] + xs[1..];
    }
  }

  /** Filtering a concatenation filters each part and keeps them in order,
      so together with the one-element case it fixes the order of the
      survivors: a value that came first still comes first. */
  lemma {:induction false} KeepConcat<T(!new)>(a: seq<T>, b: seq<T>, p: T -> bool)
    ensures Keep(a + b, p) == Keep(a, p) + Keep(b, p)
  {
    if a == [] {
      assert a + b == b;
    } else {
      assert (a + b)[0] == a[0];
      assert (a + b)[1..] == a[1..] + b;
      KeepConcat(a[1..], b, p);
    }
  }

  /** A single value survives exactly when it passes. */
  lemma KeepOne<T(!new)>(x: T, p: T -> bool)
    ensures Keep([x], p) == if p(x) then [x] else []
  {
    assert [x][1..] == [];
  }

  /** Filtering keeps everything exactly when everything passes. */
  lemma {:induction false} KeepAll<T(!new)>(xs: seq<T>, p: T -> bool)
    requires forall i :: 0 <= i < |xs| ==> p(xs[i])
    ensures Keep(xs, p) == xs
  {
    if xs != [] {
      KeepAll(xs[1..], p);
    }
  }
}
