/**
 * Three-component vectors over exact reals, standing for the engine's FVector.
 *
 * Dafny has no square root, so the Euclidean length (FVector::Size) is not
 * defined here: every operation that needs it takes it as a parameter `size`
 * and requires `IsEuclidean(size)`, which pins it down completely (see
 * EuclideanSizeUnique). Safe normalisation is then defined from that length.
 */
module Vectors {

  datatype Vec = Vec(x: real, y: real, z: real)

  const Zero: Vec := Vec(0.0, 0.0, 0.0)

  function Add(a: Vec, b: Vec): Vec {
    Vec(a.x + b.x, a.y + b.y, a.z + b.z)
  }

  function Sub(a: Vec, b: Vec): Vec {
    Vec(a.x - b.x, a.y - b.y, a.z - b.z)
  }

  /** Vector times scalar; vector divided by scalar s is Scale(v, 1.0 / s). */
  function Scale(v: Vec, k: real): Vec {
    Vec(v.x * k, v.y * k, v.z * k)
  }

  function Dot(a: Vec, b: Vec): real {
    a.x * b.x + a.y * b.y + a.z * b.z
  }

  function Abs(r: real): real {
    if r < 0.0 then -r else r
  }

  function Max(a: real, b: real): real {
    if a >= b then a else b
  }

  /**
   * The properties of FVector::Size this model relies on: `size` is
   * non-negative, vanishes exactly on the zero vector, is homogeneous, and
   * its square is v·v. The Euclidean length has all four; the last one alone
   * determines it (EuclideanSizeUnique).
   */
  ghost predicate IsEuclidean(size: Vec -> real) {
    && (forall v :: 0.0 <= size(v) && (size(v) == 0.0 <==> v == Zero))
    && (forall v {:trigger Dot(v, v)} :: size(v) * size(v) == Dot(v, v))
    && (forall v, k :: size(Scale(v, k)) == Abs(k) * size(v))
  }

  lemma MulPos(a: real, b: real)
    requires 0.0 < a && 0.0 < b
    ensures 0.0 < a * b
  {
  }

  lemma RootUnique(a: real, b: real)
    requires 0.0 <= a && 0.0 <= b && a * a == b * b
    ensures a == b
  {
    assert (a - b) * (a + b) == a * a - b * b;
    if a < b {
      MulPos(b - a, a + b);
    } else if b < a {
      MulPos(a - b, a + b);
    }
  }

  /** Two functions that both satisfy IsEuclidean agree everywhere. */
  lemma EuclideanSizeUnique(size1: Vec -> real, size2: Vec -> real, v: Vec)
    requires IsEuclidean(size1) && IsEuclidean(size2)
    ensures size1(v) == size2(v)
  {
    assert size1(v) * size1(v) == Dot(v, v) == size2(v) * size2(v);
    RootUnique(size1(v), size2(v));
  }

  lemma ScaleScale(v: Vec, a: real, b: real)
    ensures Scale(Scale(v, a), b) == Scale(v, a * b)
  {
    assert (v.x * a) * b == v.x * (a * b);
    assert (v.y * a) * b == v.y * (a * b);
    assert (v.z * a) * b == v.z * (a * b);
  }

  lemma AddScales(v: Vec, a: real, b: real)
    ensures Add(Scale(v, a), Scale(v, b)) == Scale(v, a + b)
  {
    assert v.x * a + v.x * b == v.x * (a + b);
    assert v.y * a + v.y * b == v.y * (a + b);
    assert v.z * a + v.z * b == v.z * (a + b);
  }

  lemma MulNonneg(a: real, b: real)
    requires 0.0 <= a && 0.0 <= b
    ensures 0.0 <= a * b
  {
  }

  /** Dividing by a larger positive number gives a smaller result. */
  lemma DivideByLarger(c: real, a: real, b: real)
    requires 0.0 < c && 0.0 < a < b
    ensures c / b < c / a
  {
    var p, q := c / a, c / b;
    assert p * a == c && q * b == c;
    if p <= 0.0 {
      MulNonneg(-p, a);
    }
    assert 0.0 < p;
    MulPos(p, b - a);
    if p <= q {
      MulNonneg(q - p, b);
    }
  }

  lemma Reciprocal(s: real)
    requires 0.0 < s
    ensures 0.0 < 1.0 / s && (1.0 / s) * s == 1.0
  {
  }

  /**
   * FVector::GetSafeNormal with exact arithmetic: the zero vector maps to
   * zero, every other vector to the unit vector in its direction.
   */
  function SafeNormal(size: Vec -> real, v: Vec): (r: Vec)
    requires IsEuclidean(size)
    ensures size(r) == if v == Zero then 0.0 else 1.0
    ensures Scale(r, size(v)) == v
  {
    var s := size(v);
    if s == 0.0 then
      Zero
    else
      Reciprocal(s);
      ScaleScale(v, 1.0 / s, s);
      assert Scale(v, 1.0) == v;
      Scale(v, 1.0 / s)
  }

  /** A unit vector is its own safe normal. */
  lemma SafeNormalOfUnit(size: Vec -> real, u: Vec)
    requires IsEuclidean(size) && size(u) == 1.0
    ensures SafeNormal(size, u) == u
  {
    assert Scale(u, 1.0 / 1.0) == u;
  }

  /** Reversing a vector reverses its safe normal. */
  lemma SafeNormalNegate(size: Vec -> real, v: Vec)
    requires IsEuclidean(size)
    ensures SafeNormal(size, Scale(v, -1.0)) == Scale(SafeNormal(size, v), -1.0)
  {
    var s := size(v);
    assert size(Scale(v, -1.0)) == s;
    if s != 0.0 {
      ScaleScale(v, -1.0, 1.0 / s);
      ScaleScale(v, 1.0 / s, -1.0);
    }
  }

  /**
   * A unit vector divided by g > 0, then scaled by k > 0 and by c < 0, is
   * (1/g)·k·|c| long.
   */
  lemma ScaledUnitLength(size: Vec -> real, u: Vec, g: real, k: real, c: real)
    requires IsEuclidean(size) && size(u) == 1.0 && 0.0 < g && 0.0 < k && c < 0.0
    ensures size(Scale(Scale(Scale(u, 1.0 / g), k), c)) == (1.0 / g) * k * -c
  {
    var w := Scale(Scale(u, 1.0 / g), k);
    Reciprocal(g);
    assert size(Scale(u, 1.0 / g)) == 1.0 / g;
    assert size(w) == k * (1.0 / g);
    assert size(Scale(w, c)) == -c * (k * (1.0 / g));
  }

  /**
   * The safe normal of a non-zero d, divided by g > 0, then scaled by k > 0
   * and by c < 0, points along -d.
   */
  lemma ScaledNormalReversed(size: Vec -> real, d: Vec, g: real, k: real, c: real)
    requires IsEuclidean(size) && d != Zero && 0.0 < g && 0.0 < k && c < 0.0
    ensures SafeNormal(size, Scale(Scale(Scale(SafeNormal(size, d), 1.0 / g), k), c)) == SafeNormal(size, Scale(d, -1.0))
  {
    var u := SafeNormal(size, d);
    var w := Scale(Scale(u, 1.0 / g), k);
    Reciprocal(g);
    SafeNormalScaleInvariant(size, u, 1.0 / g);
    SafeNormalScaleInvariant(size, Scale(u, 1.0 / g), k);
    SafeNormalOfUnit(size, u);
    ScaleScale(w, -1.0, -c);
    assert Scale(w, c) == Scale(Scale(w, -1.0), -c);
    SafeNormalScaleInvariant(size, Scale(w, -1.0), -c);
    SafeNormalNegate(size, w);
    SafeNormalNegate(size, d);
  }

  /** A unit vector has v·v == 1. */
  lemma UnitDot(size: Vec -> real, v: Vec)
    requires IsEuclidean(size) && size(v) == 1.0
    ensures Dot(v, v) == 1.0
  {
  }

  lemma RecipProduct(k: real, s: real)
    requires 0.0 < k && 0.0 < s
    ensures k * (1.0 / (k * s)) == 1.0 / s
  {
    MulPos(k, s);
    assert (k * s) * (1.0 / (k * s)) == 1.0;
  }

  /** Normalising a positive multiple of v gives the same direction as v. */
  lemma SafeNormalScaleInvariant(size: Vec -> real, v: Vec, k: real)
    requires IsEuclidean(size) && 0.0 < k
    ensures SafeNormal(size, Scale(v, k)) == SafeNormal(size, v)
  {
    var s := size(v);
    var w := Scale(v, k);
    assert size(w) == k * s;
    if s != 0.0 {
      MulPos(k, s);
      var a := 1.0 / (k * s);
      assert SafeNormal(size, w) == Scale(w, a);
      ScaleScale(v, k, a);
      RecipProduct(k, s);
      assert Scale(w, a) == Scale(v, 1.0 / s);
    }
  }

  /** The horizontal part of a vector (z dropped). */
  function Flatten(v: Vec): Vec {
    Vec(v.x, v.y, 0.0)
  }

  /**
   * FVector::GetSafeNormal2D with exact arithmetic: the unit vector along the
   * horizontal part of v, or zero when that part vanishes; z is always 0.
   */
  function SafeNormal2D(size: Vec -> real, v: Vec): (r: Vec)
    requires IsEuclidean(size)
    ensures r.z == 0.0
    ensures size(r) == if v.x == 0.0 && v.y == 0.0 then 0.0 else 1.0
    ensures Scale(r, size(Flatten(v))) == Flatten(v)
  {
    var f := Flatten(v);
    var r := SafeNormal(size, f);
    assert r.z == 0.0 by {
      if f != Zero {
        assert r.z * size(f) == 0.0;
      }
    }
    r
  }
}
