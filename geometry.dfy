/**
 * Three-component vectors over the reals, standing for the (x, y, z) triples
 * the JavaScript code keeps in its Float32Array buffers and three.js vectors.
 * Rounding to 32-bit floats is not modelled.
 */
module Geometry {

  datatype Vec3 = Vec3(x: real, y: real, z: real) {

    function Add(o: Vec3): Vec3 { Vec3(x + o.x, y + o.y, z + o.z) }

    function Sub(o: Vec3): Vec3 { Vec3(x - o.x, y - o.y, z - o.z) }

    function Scale(k: real): Vec3 { Vec3(x * k, y * k, z * k) }

    /** Component-wise division, as the source writes `x / r, y / r, z / r`. */
    function Div(k: real): Vec3
      requires k != 0.0
    {
      Vec3(x / k, y / k, z / k)
    }

    function Dot(o: Vec3): real { x * o.x + y * o.y + z * o.z }

    /** The component on `axis` (0 = x, 1 = y, 2 = z), the source's `buf[i3 + axis]`. */
    function At(axis: nat): real
      requires axis < 3
    {
      if axis == 0 then x else if axis == 1 then y else z
    }

    /** This vector with the component on `axis` replaced by `v`. */
    function With(axis: nat, v: real): (r: Vec3)
      requires axis < 3
      ensures r.At(axis) == v
      ensures forall a :: 0 <= a < 3 && a != axis ==> r.At(a) == At(a)
    {
      if axis == 0 then Vec3(v, y, z) else if axis == 1 then Vec3(x, v, z) else Vec3(x, y, v)
    }
  }

  const Zero := Vec3(0.0, 0.0, 0.0)

  /** Squared Euclidean norm, `x*x + y*y + z*z`. */
  function NormSq(v: Vec3): real { v.Dot(v) }

  /** Writing back a component that was read leaves the vector as it was. */
  lemma WithAt(v: Vec3, axis: nat)
    requires axis < 3
    ensures v.With(axis, v.At(axis)) == v
  {
  }

  /** Squared distance between two points. */
  function DistSq(a: Vec3, b: Vec3): real { NormSq(a.Sub(b)) }

  /**
   * The square root the source takes with `Math.sqrt`/`Math.hypot` is a parameter of the
   * model: any function that is a non-negative square root on non-negative arguments.
   */
  ghost predicate IsSqrt(sqrt: real -> real)
  {
    PositiveOnPositive(sqrt) &&
    forall a: real {:trigger sqrt(a)} :: 0.0 <= a ==> 0.0 <= sqrt(a) && sqrt(a) * sqrt(a) == a
  }

  /**
   * The part of `IsSqrt` that definitions need (the root of a positive number is positive,
   * so it may divide); it follows from the second conjunct of `IsSqrt` and is stated on its
   * own so that those definitions do not carry the squares into every proof about them.
   */
  ghost predicate PositiveOnPositive(sqrt: real -> real)
  {
    forall a: real {:trigger sqrt(a)} :: 0.0 < a ==> 0.0 < sqrt(a)
  }

  lemma NormSqNonNegative(v: Vec3)
    ensures 0.0 <= NormSq(v)
  {
    assert v.x * v.x >= 0.0 && v.y * v.y >= 0.0 && v.z * v.z >= 0.0;
  }

  /** Scaling a vector by `k` scales its squared norm by `k * k`. */
  lemma NormSqScale(v: Vec3, k: real)
    ensures NormSq(v.Scale(k)) == k * k * NormSq(v)
  {
    calc {
      NormSq(v.Scale(k));
      (v.x * k) * (v.x * k) + (v.y * k) * (v.y * k) + (v.z * k) * (v.z * k);
      k * k * (v.x * v.x + v.y * v.y + v.z * v.z);
    }
  }

  /** Dividing by `k` is scaling by `1/k`. */
  lemma DivIsScale(v: Vec3, k: real)
    requires k != 0.0
    ensures v.Div(k) == v.Scale(1.0 / k)
  {
  }

  /** A vector divided by its length `r` (`r * r == NormSq(v)`, `r > 0`) has unit length. */
  lemma UnitNormal(v: Vec3, r: real)
    requires 0.0 < r && r * r == NormSq(v)
    ensures NormSq(v.Div(r)) == 1.0
  {
    DivIsScale(v, r);
    NormSqScale(v, 1.0 / r);
    assert (1.0 / r) * (1.0 / r) * (r * r) == 1.0;
  }

  /** Scaling a unit vector by a non-negative length gives a vector of that length. */
  lemma ScaledUnitLength(n: Vec3, len: real)
    requires NormSq(n) == 1.0
    ensures NormSq(n.Scale(len)) == len * len
  {
    NormSqScale(n, len);
  }

  /** The dot product of `v - k n` with itself, expanded. */
  lemma NormSqSubScaled(v: Vec3, n: Vec3, k: real)
    ensures NormSq(v.Sub(n.Scale(k))) == NormSq(v) - 2.0 * k * v.Dot(n) + k * k * NormSq(n)
  {
  }

  /**
   * Specular reflection `v - 2 (v . n) n` across a unit normal keeps the speed and
   * negates the normal component.
   */
  lemma SpecularReflection(v: Vec3, n: Vec3)
    requires NormSq(n) == 1.0
    ensures NormSq(v.Sub(n.Scale(2.0 * v.Dot(n)))) == NormSq(v)
    ensures v.Sub(n.Scale(2.0 * v.Dot(n))).Dot(n) == -v.Dot(n)
  {
    var k := 2.0 * v.Dot(n);
    NormSqSubScaled(v, n, k);
    assert v.Sub(n.Scale(k)).Dot(n) == v.Dot(n) - k * NormSq(n);
  }

  function Abs(v: real): real { if v < 0.0 then -v else v }

  function Min(a: real, b: real): real { if a <= b then a else b }

  function Max(a: real, b: real): real { if a >= b then a else b }

  // Real-arithmetic facts the solver does not find on its own.

  /** Multiplying by a non-negative factor keeps an ordering. */
  lemma MulMonotone(a: real, b: real, c: real)
    requires a <= b && 0.0 <= c
    ensures a * c <= b * c && c * a <= c * b
  {
    assert b * c - a * c == (b - a) * c;
    assert c * b - c * a == c * (b - a);
  }

  /** Multiplying by a positive factor keeps a strict ordering. */
  lemma MulStrict(a: real, b: real, c: real)
    requires a < b && 0.0 < c
    ensures a * c < b * c && c * a < c * b
  {
    var d := b - a;
    assert d * c > 0.0;
    assert b * c - a * c == d * c;
    assert c * b - c * a == c * d;
  }

  /** One more multiple: `(k + 1) * step == k * step + step`. */
  lemma StepMore(k: nat, step: real)
    ensures (k + 1) as real * step == k as real * step + step
  {
  }

  /** Squaring is strictly increasing on the non-negative reals. */
  lemma StrictSquare(a: real, b: real)
    requires 0.0 <= a < b
    ensures a * a < b * b
  {
    calc {
      a * a;
    <= { MulMonotone(a, b, a); }
      b * a;
    < { MulStrict(a, b, b); }
      b * b;
    }
  }

  /** For non-negative `a` and `b`, `a <= b` exactly when `a * a <= b * b`. */
  lemma SquareMonotone(a: real, b: real)
    requires 0.0 <= a && 0.0 <= b
    ensures a <= b <==> a * a <= b * b
  {
    if a <= b {
      calc {
        a * a;
      <= { MulMonotone(a, b, a); }
        b * a;
      <= { MulMonotone(a, b, b); }
        b * b;
      }
    } else {
      StrictSquare(b, a);
    }
  }

  lemma SquarePositive(x: real)
    ensures x * x >= 0.0
    ensures x != 0.0 ==> x * x > 0.0
  {
  }

  /** Only the zero vector has squared norm 0. */
  lemma ZeroNorm(p: Vec3)
    requires NormSq(p) == 0.0
    ensures p == Zero
  {
    SquarePositive(p.x);
    SquarePositive(p.y);
    SquarePositive(p.z);
    if p.x != 0.0 || p.y != 0.0 || p.z != 0.0 {
      calc {
        0.0;
      <
        p.x * p.x + p.y * p.y + p.z * p.z;
      ==
        NormSq(p);
      ==
        0.0;
      }
    }
  }

  /** A non-negative square root of a square is the non-negative base. */
  lemma SqrtOfSquare(sqrt: real -> real, a: real)
    requires IsSqrt(sqrt) && 0.0 <= a
    ensures sqrt(a * a) == a
  {
    var s := sqrt(a * a);
    assert 0.0 <= s && s * s == a * a;
    if s < a {
      StrictSquare(s, a);
    } else if s > a {
      StrictSquare(a, s);
    }
  }
}
