/** Spheres and ray-sphere intersection (src/core/shapes.rs). */
module Shapes {
  import opened Vectors
  import opened Common

  /** A non-zero vector's normalized form has unit length and a positive dot product with it. */
  lemma OutwardUnit(m: Maths, d: Vec3)
    ensures SqrtLaw(m) && d != Zero ==>
      FromVector3(m, d).Get().Magnitude2() == 1.0 && 0.0 < FromVector3(m, d).Get().Dot(d)
  {
    if SqrtLaw(m) && d != Zero {
      OutwardUnitOf(m, d);
    }
  }

  lemma OutwardUnitOf(m: Maths, d: Vec3)
    requires SqrtLaw(m) && d != Zero
    ensures FromVector3(m, d).Get().Magnitude2() == 1.0
    ensures 0.0 < FromVector3(m, d).Get().Dot(d)
  {
    FromVector3IsUnit(m, d);
    MagnitudeZeroIff(m, d);
    var len := Magnitude(m, d);
    assert len * len == d.Magnitude2();
    var k := 1.0 / len;
    assert FromVector3(m, d).Get() == d.Scale(k);
    assert d.Scale(k).Dot(d) == d.Magnitude2() * k;
    assert d.Magnitude2() * k == len;
  }

  /** The coefficients of a*t*t + b*t + c == 0. */
  datatype Quadratic = Quadratic(a: real, b: real, c: real) {
    function Discriminant(): (r: real) { b * b - 4.0 * a * c }
    function At(t: real): (r: real) { a * t * t + b * t + c }
  }

  /** `f32::min` on values that are not NaN. */
  function Min(a: real, b: real): (r: real) { if a <= b then a else b }

  /**
   * The root-selection step of `intersect`: the smaller of two positive roots, the
   * only positive one, or none at all.
   */
  function SmallestPositive(t1: real, t2: real): (r: Option<real>)
    ensures r.None? <==> t1 <= 0.0 && t2 <= 0.0
    ensures r.Some? ==> 0.0 < r.value && (r.value == t1 || r.value == t2)
    ensures r.Some? ==> (0.0 < t1 ==> r.value <= t1) && (0.0 < t2 ==> r.value <= t2)
  {
    if t1 > 0.0 && t2 > 0.0 then Some(Min(t1, t2))
    else if t1 > 0.0 then Some(t1)
    else if t2 > 0.0 then Some(t2)
    else None
  }

  /** A sphere; the constructor's arguments are in the order of `Sphere::new`. */
  datatype Sphere = Sphere(center: Vec3, radius: real, color: Vec3) {

    /** `set_center`: moves the sphere and changes nothing else about it. */
    function WithCenter(point: Vec3): (r: Sphere)
      ensures r.center == point && r.radius == radius && r.color == color
    {
      this.(center := point)
    }

    /**
     * `normal`: the direction from the centre to the point. Away from the centre it
     * has unit length and points outwards.
     */
    function Normal(m: Maths, point: Vec3): (r: NormalizedVector3)
      ensures SqrtLaw(m) && point != center ==>
        r.Get().Magnitude2() == 1.0 && 0.0 < r.Get().Dot(point.Sub(center))
    {
      var d := point.Sub(center);
      OutwardUnit(m, d);
      FromVector3(m, d)
    }

    /** The quadratic in t whose roots are where `ray` meets the surface. */
    function Coefficients(ray: Ray): (r: Quadratic) {
      var oc := ray.origin.Sub(center);
      var d := ray.direction.Get();
      Quadratic(d.Dot(d), 2.0 * oc.Dot(d), oc.Dot(oc) - radius * radius)
    }

    /** The two roots, the one with the subtracted square root first. */
    function Roots(m: Maths, ray: Ray): (r: (real, real))
      requires Coefficients(ray).a != 0.0
    {
      var q := Coefficients(ray);
      var s := m.sqrt(q.Discriminant());
      ((-q.b - s) / (2.0 * q.a), (-q.b + s) / (2.0 * q.a))
    }

    /**
     * `intersect`. A zero direction (`a == 0`) stands for cgmath's NaN direction
     * from normalizing a zero vector: every comparison with NaN fails, so the
     * source reports no hit there.
     */
    function Intersect(m: Maths, ray: Ray): (r: Option<HitData>)
      ensures Coefficients(ray).Discriminant() < 0.0 ==> r.None?
      ensures r.Some? ==> 0.0 < r.value.t
      ensures r.Some? ==> (Coefficients(ray).a != 0.0 &&
                           (r.value.t == Roots(m, ray).0 || r.value.t == Roots(m, ray).1))
      ensures r.Some? ==> ((0.0 < Roots(m, ray).0 ==> r.value.t <= Roots(m, ray).0) &&
                           (0.0 < Roots(m, ray).1 ==> r.value.t <= Roots(m, ray).1))
      ensures r.None? && Coefficients(ray).a != 0.0 && 0.0 <= Coefficients(ray).Discriminant() ==>
                (Roots(m, ray).0 <= 0.0 && Roots(m, ray).1 <= 0.0)
      ensures r.Some? ==> (r.value.intersection == ray.PositionAt(r.value.t) &&
                           r.value.normal == Normal(m, r.value.intersection) &&
                           r.value.color == color)
    {
      var q := Coefficients(ray);
      if q.Discriminant() < 0.0 || q.a == 0.0 then None
      else
        var (t1, t2) := Roots(m, ray);
        match SmallestPositive(t1, t2)
        case None => None
        case Some(t) =>
          var intersection := ray.PositionAt(t);
          Some(HitData(intersection, t, Normal(m, intersection), color))
    }
  }

  /** The surface equation along a ray is the quadratic of `Coefficients`. */
  lemma SurfaceEquation(s: Sphere, ray: Ray, u: real)
    ensures ray.PositionAt(u).Sub(s.center).Magnitude2() - s.radius * s.radius
         == s.Coefficients(ray).At(u)
  {
    var oc := ray.origin.Sub(s.center);
    var d := ray.direction.Get();
    var p := ray.PositionAt(u).Sub(s.center);
    assert p == Vec3(oc.x + d.x * u, oc.y + d.y * u, oc.z + d.z * u);
    SquareOfSum(oc.x, d.x, u);
    SquareOfSum(oc.y, d.y, u);
    SquareOfSum(oc.z, d.z, u);
  }

  lemma SquareOfSum(o: real, d: real, u: real)
    ensures (o + d * u) * (o + d * u) == o * o + 2.0 * (o * d) * u + (d * d) * (u * u)
  {
  }

  /**
   * With a != 0, u solves the quadratic exactly when 2*a*u + b is plus or minus
   * the square root of the discriminant, that is, when u is one of the two roots.
   */
  lemma RootsAreSolutions(m: Maths, q: Quadratic, u: real)
    requires SqrtLaw(m) && q.a != 0.0 && 0.0 <= q.Discriminant()
    ensures q.At(u) == 0.0 <==>
      u == (-q.b - m.sqrt(q.Discriminant())) / (2.0 * q.a) ||
      u == (-q.b + m.sqrt(q.Discriminant())) / (2.0 * q.a)
  {
    var s := m.sqrt(q.Discriminant());
    var w := 2.0 * q.a * u + q.b;
    assert s * s == q.Discriminant();
    assert w * w - s * s == 4.0 * q.a * q.At(u);
    assert (w - s) * (w + s) == w * w - s * s;
    assert w - s == 0.0 <==> u == (-q.b + s) / (2.0 * q.a);
    assert w + s == 0.0 <==> u == (-q.b - s) / (2.0 * q.a);
    if q.At(u) == 0.0 {
      ProductZero(w - s, w + s);
    } else {
      assert 4.0 * q.a * q.At(u) != 0.0;
    }
  }

  /** A quadratic with a negative discriminant has no real root. */
  lemma NegativeDiscriminantNoRoot(q: Quadratic, u: real)
    requires q.Discriminant() < 0.0
    ensures q.At(u) != 0.0
  {
    var w := 2.0 * q.a * u + q.b;
    assert w * w - q.Discriminant() == 4.0 * q.a * q.At(u);
    SquareNonNegative(w);
  }

  /** A reported hit lies on the sphere's surface. */
  lemma HitLiesOnSurface(m: Maths, s: Sphere, ray: Ray)
    requires SqrtLaw(m)
    ensures s.Intersect(m, ray).Some? ==>
      s.Intersect(m, ray).value.intersection.Sub(s.center).Magnitude2() == s.radius * s.radius
  {
    var r := s.Intersect(m, ray);
    if r.Some? {
      SurfaceEquation(s, ray, r.value.t);
      RootsAreSolutions(m, s.Coefficients(ray), r.value.t);
    }
  }

  /** No point of the surface at a positive parameter comes before a reported hit. */
  lemma HitIsNearest(m: Maths, s: Sphere, ray: Ray, u: real)
    requires SqrtLaw(m)
    requires 0.0 < u && ray.PositionAt(u).Sub(s.center).Magnitude2() == s.radius * s.radius
    ensures s.Intersect(m, ray).Some? ==> s.Intersect(m, ray).value.t <= u
  {
    var q := s.Coefficients(ray);
    SurfaceEquation(s, ray, u);
    if s.Intersect(m, ray).Some? {
      RootsAreSolutions(m, q, u);
    }
  }

  /**
   * For a ray with a direction, "no hit" is exact: no point of the surface lies
   * ahead of the origin at all.
   */
  lemma MissMeansNothingAhead(m: Maths, s: Sphere, ray: Ray, u: real)
    requires SqrtLaw(m) && ray.direction.Get() != Zero
    requires s.Intersect(m, ray).None? && 0.0 < u
    ensures ray.PositionAt(u).Sub(s.center).Magnitude2() != s.radius * s.radius
  {
    var q := s.Coefficients(ray);
    SquaresNonNegative(ray.direction.Get());
    assert q.a != 0.0;
    SurfaceEquation(s, ray, u);
    if q.Discriminant() < 0.0 {
      NegativeDiscriminantNoRoot(q, u);
    } else {
      RootsAreSolutions(m, q, u);
    }
  }

  /** On a sphere of non-zero radius the normal at a hit has unit length. */
  lemma HitNormalIsUnit(m: Maths, s: Sphere, ray: Ray)
    requires SqrtLaw(m) && s.radius != 0.0
    ensures s.Intersect(m, ray).Some? ==> s.Intersect(m, ray).value.normal.Get().Magnitude2() == 1.0
  {
    var r := s.Intersect(m, ray);
    if r.Some? {
      HitLiesOnSurface(m, s, ray);
      SurfacePointIsOffCentre(s, r.value.intersection);
    }
  }

  /** On a sphere of non-zero radius no surface point is the centre. */
  lemma SurfacePointIsOffCentre(s: Sphere, p: Vec3)
    requires s.radius != 0.0 && p.Sub(s.center).Magnitude2() == s.radius * s.radius
    ensures p != s.center
  {
    SquareNonNegative(s.radius);
    assert p.Sub(s.center).Magnitude2() != 0.0;
  }

  /**
   * When both roots are positive the hit is at t1: the square root is
   * non-negative and a = d.d is positive, so t1 <= t2.
   */
  lemma BothPositivePicksFirstRoot(m: Maths, s: Sphere, ray: Ray)
    requires SqrtLaw(m)
    requires s.Coefficients(ray).a != 0.0 && 0.0 <= s.Coefficients(ray).Discriminant()
    requires 0.0 < s.Roots(m, ray).0 && 0.0 < s.Roots(m, ray).1
    ensures s.Intersect(m, ray).Some? && s.Intersect(m, ray).value.t == s.Roots(m, ray).0
  {
    var q := s.Coefficients(ray);
    var sq := m.sqrt(q.Discriminant());
    SquaresNonNegative(ray.direction.Get());
    assert 0.0 < q.a && 0.0 <= sq;
    var (t1, t2) := s.Roots(m, ray);
    assert t2 - t1 == sq / q.a;
  }
}
