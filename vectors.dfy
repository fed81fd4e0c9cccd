/**
 * The slice of cgmath the renderer uses, over real numbers (f32 rounding is not
 * modelled), and the transcendental functions, which stay uninterpreted: they are
 * fields of a `Maths` record that every computation needing them takes as a
 * parameter, and the few laws a proof needs are stated as predicates on that record.
 */
module Vectors {

  datatype Option<T> = None | Some(value: T)

  datatype Vec3 = Vec3(x: real, y: real, z: real) {
    function Add(o: Vec3): (r: Vec3) { Vec3(x + o.x, y + o.y, z + o.z) }
    function Sub(o: Vec3): (r: Vec3) { Vec3(x - o.x, y - o.y, z - o.z) }
    function Neg(): (r: Vec3) { Vec3(-x, -y, -z) }
    function Scale(k: real): (r: Vec3) { Vec3(x * k, y * k, z * k) }
    function Dot(o: Vec3): (r: real) { x * o.x + y * o.y + z * o.z }
    function Div(k: real): (r: Vec3) requires k != 0.0 { Vec3(x / k, y / k, z / k) }
    function MulElementWise(o: Vec3): (r: Vec3) { Vec3(x * o.x, y * o.y, z * o.z) }
    function Magnitude2(): (r: real) { Dot(this) }
  }

  const Zero: Vec3 := Vec3(0.0, 0.0, 0.0)

  function FromValue(k: real): (r: Vec3) { Vec3(k, k, k) }

  datatype Vec2 = Vec2(x: real, y: real)

  /** A `std::time::Duration`, in seconds. */
  type Duration = r: real | 0.0 <= r

  /** The functions the source takes from f32 and cgmath and that are kept abstract. */
  datatype Maths = Maths(
    sqrt: real -> real,
    sin: real -> real,
    cos: real -> real,
    tan: real -> real,
    atan2: (real, real) -> real,   // atan2(y, x), as `y.atan2(x)`
    asin: real -> real,
    rotate: (real, real, Vec3) -> Vec3  // rotate by yaw about y, composed with pitch about x
  )

  /** The principal square root: non-negative, and squares back to its argument. */
  ghost predicate SqrtLaw(m: Maths) {
    forall x: real {:trigger m.sqrt(x)} :: 0.0 <= x ==> 0.0 <= m.sqrt(x) && m.sqrt(x) * m.sqrt(x) == x
  }

  /** sin and cos of one angle lie on the unit circle. */
  ghost predicate TrigLaw(m: Maths) {
    forall a: real {:trigger m.sin(a)} :: m.sin(a) * m.sin(a) + m.cos(a) * m.cos(a) == 1.0
  }

  /** A rotation preserves length. */
  ghost predicate RotationLaw(m: Maths) {
    forall yaw: real, pitch: real, v: Vec3 {:trigger m.rotate(yaw, pitch, v)} ::
      m.rotate(yaw, pitch, v).Magnitude2() == v.Magnitude2()
  }

  /** A rotation is linear, so in particular it maps -v to the negation of v's image. */
  ghost predicate RotationOddLaw(m: Maths) {
    forall yaw: real, pitch: real, v: Vec3 {:trigger m.rotate(yaw, pitch, v.Neg())} ::
      m.rotate(yaw, pitch, v.Neg()) == m.rotate(yaw, pitch, v).Neg()
  }

  lemma RotationKeepsLength(m: Maths, yaw: real, pitch: real, v: Vec3)
    requires RotationLaw(m)
    ensures m.rotate(yaw, pitch, v).Magnitude2() == v.Magnitude2()
  {
  }

  lemma AddThenSubtract(a: Vec3, b: Vec3)
    ensures a.Add(b).Add(b.Neg()) == a
  {
  }

  function Magnitude(m: Maths, v: Vec3): (r: real) { m.sqrt(v.Magnitude2()) }

  /**
   * cgmath's `normalize`: v scaled by the inverse of its length. For a vector of
   * length zero cgmath yields NaN components; the model yields `Zero` there, and the
   * consumers of a direction treat a zero direction as the NaN one (see Shapes).
   */
  function Normalize(m: Maths, v: Vec3): (r: Vec3) {
    var len := Magnitude(m, v);
    if len == 0.0 then Zero else v.Scale(1.0 / len)
  }

  function Max(a: real, b: real): (r: real) { if a < b then b else a }

  lemma ProductZero(a: real, b: real)
    requires a * b == 0.0
    ensures a == 0.0 || b == 0.0
  {
    if a != 0.0 {
      assert b == (a * b) / a;
    }
  }

  lemma SquareNonNegative(a: real)
    ensures 0.0 <= a * a
    ensures a * a == 0.0 ==> a == 0.0
  {
    if a < 0.0 {
      assert a * a == (-a) * (-a);
    }
    if a * a == 0.0 {
      ProductZero(a, a);
    }
  }

  lemma SquaresNonNegative(v: Vec3)
    ensures 0.0 <= v.Magnitude2()
    ensures v.Magnitude2() == 0.0 <==> v == Zero
  {
    SquareNonNegative(v.x);
    SquareNonNegative(v.y);
    SquareNonNegative(v.z);
  }

  /** The square root of a square is the non-negative base. */
  lemma SqrtOfSquare(m: Maths, k: real)
    requires SqrtLaw(m) && 0.0 <= k
    ensures m.sqrt(k * k) == k
  {
    SquareNonNegative(k);
    var s := m.sqrt(k * k);
    assert 0.0 <= s && s * s == k * k;
    assert (s - k) * (s + k) == s * s - k * k;
    ProductZero(s - k, s + k);
  }

  /** Under the square-root law a vector has length zero exactly when it is Zero. */
  lemma {:induction false} MagnitudeZeroIff(m: Maths, v: Vec3)
    requires SqrtLaw(m)
    ensures 0.0 <= Magnitude(m, v)
    ensures Magnitude(m, v) == 0.0 <==> v == Zero
  {
    SquaresNonNegative(v);
    var s := Magnitude(m, v);
    assert 0.0 <= s && s * s == v.Magnitude2();
    SquareNonNegative(s);
  }

  /** `normalize` of a non-zero vector has unit length. */
  lemma NormalizeIsUnit(m: Maths, v: Vec3)
    requires SqrtLaw(m) && v != Zero
    ensures Normalize(m, v).Magnitude2() == 1.0
  {
    MagnitudeZeroIff(m, v);
    var s := Magnitude(m, v);
    var k := 1.0 / s;
    assert s * s == v.Magnitude2();
    assert k * s == 1.0;
    calc {
      Normalize(m, v).Magnitude2();
      v.Scale(k).Magnitude2();
      (v.x * k) * (v.x * k) + (v.y * k) * (v.y * k) + (v.z * k) * (v.z * k);
      v.Magnitude2() * (k * k);
      (s * s) * (k * k);
      (k * s) * (k * s);
      1.0;
    }
  }

  /** Scaling a unit vector by a non-negative k gives a vector of length exactly k. */
  lemma ScaledUnitMagnitude(m: Maths, u: Vec3, k: real)
    requires SqrtLaw(m) && u.Magnitude2() == 1.0 && 0.0 <= k
    ensures Magnitude(m, u.Scale(k)) == k
  {
    calc {
      u.Scale(k).Magnitude2();
      (u.x * k) * (u.x * k) + (u.y * k) * (u.y * k) + (u.z * k) * (u.z * k);
      u.Magnitude2() * (k * k);
      k * k;
    }
    SqrtOfSquare(m, k);
  }
}
