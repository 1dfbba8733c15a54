/** Scene-space vectors and the transcendental functions the scene code
    calls. `Math.sqrt`, `Math.cbrt`, `Math.sin`, `Math.cos` and `Math.acos`
    are kept abstract: they are carried as function values in `MathFns`,
    and each caller requires only the bounds it relies on. */
module Geometry {

  /** A three.js `Vector3`. */
  datatype Vec3 = Vec3(x: real, y: real, z: real)

  function Sq(a: real): (r: real)
    ensures 0.0 <= r
  {
    a * a
  }

  /** Squared distance from the origin. */
  function NormSq(v: Vec3): (r: real)
    ensures 0.0 <= r
  {
    Sq(v.x) + Sq(v.y) + Sq(v.z)
  }

  /** `v` lies on the closed segment between `a` and `b`. */
  predicate Between(a: real, b: real, v: real)
  {
    (a <= v <= b) || (b <= v <= a)
  }

  /** `Vector3.lerpVectors(a, b, t)`: `a + (b - a) * t`, component by component.
      At 0 it is `a`, at 1 it is `b`, and in between every coordinate stays on
      the segment joining the two end points. */
  function Lerp(a: Vec3, b: Vec3, t: real): (r: Vec3)
    ensures t == 0.0 ==> r == a
    ensures t == 1.0 ==> r == b
    ensures 0.0 <= t <= 1.0 ==> Between(a.x, b.x, r.x) && Between(a.y, b.y, r.y) && Between(a.z, b.z, r.z)
  {
    var r := Vec3(a.x + (b.x - a.x) * t, a.y + (b.y - a.y) * t, a.z + (b.z - a.z) * t);
    if 0.0 <= t <= 1.0 then
      LerpCoordinate(a.x, b.x, t);
      LerpCoordinate(a.y, b.y, t);
      LerpCoordinate(a.z, b.z, t);
      r
    else
      r
  }

  lemma LerpCoordinate(a: real, b: real, t: real)
    requires 0.0 <= t <= 1.0
    ensures Between(a, b, a + (b - a) * t)
  {
    if a <= b {
      LerpRising(a, b, t);
    } else {
      LerpFalling(a, b, t);
    }
  }

  lemma LerpRising(a: real, b: real, t: real)
    requires 0.0 <= t <= 1.0 && a <= b
    ensures a <= a + (b - a) * t <= b
  {
  }

  lemma LerpFalling(a: real, b: real, t: real)
    requires 0.0 <= t <= 1.0 && b < a
    ensures b <= a + (b - a) * t <= a
  {
  }

  lemma MulNonNegative(a: real, b: real)
    requires 0.0 <= a && 0.0 <= b
    ensures 0.0 <= a * b
  {
  }

  /** Scaling a non-negative length by a factor in [0, 1] does not lengthen it. */
  lemma ScaleDown(len: real, t: real)
    requires 0.0 <= len && 0.0 <= t <= 1.0
    ensures 0.0 <= len * t <= len
  {
    MulNonNegative(len, t);
    assert len - len * t == len * (1.0 - t);
    MulNonNegative(len, 1.0 - t);
  }

  /** The library functions `Math.sqrt`, `Math.cbrt`, `Math.sin`, `Math.cos`
      and `Math.acos`, left uninterpreted. */
  datatype MathFns = MathFns(
    sqrt: real -> real,
    cbrt: real -> real,
    sin: real -> real,
    cos: real -> real,
    acos: real -> real)

  /** What the model relies on about `Math.sqrt`: non-negative on
      non-negative arguments, and below 1 on [0, 1). */
  ghost predicate SqrtSound(m: MathFns)
  {
    && (forall x :: 0.0 <= x ==> 0.0 <= m.sqrt(x))
    && (forall x :: 0.0 <= x < 1.0 ==> m.sqrt(x) < 1.0)
  }

  /** What the model relies on about `Math.cbrt`: maps [0, 1) into [0, 1). */
  ghost predicate CbrtSound(m: MathFns)
  {
    forall x :: 0.0 <= x < 1.0 ==> 0.0 <= m.cbrt(x) < 1.0
  }

  /** What the model relies on about `Math.sin` and `Math.cos`: the
      Pythagorean identity, taken as a hypothesis. */
  ghost predicate TrigSound(m: MathFns)
  {
    forall a :: Sq(m.sin(a)) + Sq(m.cos(a)) == 1.0
  }

  /** Everything the scene code relies on about the library functions. */
  ghost predicate Sound(m: MathFns)
  {
    SqrtSound(m) && CbrtSound(m) && TrigSound(m)
  }

  /** A factor in [0, 1) scales a non-negative length to a smaller square. */
  lemma ScaledSquare(s: real, len: real)
    requires 0.0 <= s < 1.0 && 0.0 <= len
    ensures 0.0 <= s * len <= len
    ensures Sq(s * len) <= Sq(len)
    ensures 0.0 < len ==> s * len < len
  {
    ScaleDown(len, s);
    assert s * len == len * s;
    ScaleDown(s, s);
    assert Sq(s * len) == (len * len) * (s * s);
    ScaleDown(len * len, s * s);
    if 0.0 < len {
      assert len - s * len == len * (1.0 - s);
    }
  }

  /** A length `r` split along a unit direction `(c, s)` keeps its square. */
  lemma PolarSquare(r: real, c: real, s: real)
    requires Sq(s) + Sq(c) == 1.0
    ensures Sq(r * c) + Sq(r * s) == Sq(r)
  {
    calc {
      Sq(r * c) + Sq(r * s);
      (r * r) * (c * c) + (r * r) * (s * s);
      (r * r) * (c * c + s * s);
      r * r;
    }
  }

  /** A length `r` split along the spherical direction given by the unit
      pairs `(sp, cp)` and `(ct, st)` keeps its square. */
  lemma SphericalSquare(r: real, sp: real, cp: real, ct: real, st: real)
    requires Sq(sp) + Sq(cp) == 1.0
    requires Sq(st) + Sq(ct) == 1.0
    ensures Sq(r * sp * ct) + Sq(r * sp * st) + Sq(r * cp) == Sq(r)
  {
    PolarSquare(r * sp, ct, st);
    assert Sq(r * sp * ct) + Sq(r * sp * st) == Sq(r * sp);
    PolarSquare(r, sp, cp);
    assert Sq(r * sp) + Sq(r * cp) == Sq(r);
  }
}
