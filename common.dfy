/** Rays, normalized directions and hit records (src/core/common.rs). */
module Common {
  import opened Vectors

  /**
   * A direction that went through `FromVector3`. Its field is private in the
   * source, so every value of it in the program was built by normalizing.
   */
  datatype NormalizedVector3 = NormalizedVector3(v: Vec3) {
    function Get(): (r: Vec3) { v }
  }

  function FromVector3(m: Maths, v: Vec3): (r: NormalizedVector3) {
    NormalizedVector3(Normalize(m, v))
  }

  /** `from_vector3(v).get()` is `normalize(v)`, and has unit length for every non-zero v. */
  lemma FromVector3IsUnit(m: Maths, v: Vec3)
    ensures FromVector3(m, v).Get() == Normalize(m, v)
    ensures SqrtLaw(m) && v != Zero ==> FromVector3(m, v).Get().Magnitude2() == 1.0
  {
    if SqrtLaw(m) && v != Zero {
      NormalizeIsUnit(m, v);
    }
  }

  datatype Ray = Ray(origin: Vec3, direction: NormalizedVector3) {
    /** The point reached after travelling t along the direction. */
    function PositionAt(t: real): (r: Vec3) {
      origin.Add(direction.Get().Scale(t))
    }
  }

  /** `Ray::new`: keeps the origin, normalizes the direction. */
  function NewRay(m: Maths, origin: Vec3, direction: Vec3): (r: Ray)
    ensures r.origin == origin
    ensures r.direction == FromVector3(m, direction)
  {
    Ray(origin, FromVector3(m, direction))
  }

  /** Every ray, whatever its direction, starts at its origin and steps additively along its direction. */
  lemma RayIsLine(ray: Ray, t: real, u: real)
    ensures ray.PositionAt(0.0) == ray.origin
    ensures ray.PositionAt(t + u) == ray.PositionAt(t).Add(ray.direction.Get().Scale(u))
  {
  }

  /**
   * A ray starts at its origin, moves along a straight line, and, built from a
   * non-zero direction, is at distance |t| from its origin at parameter t.
   */
  lemma PositionAlongRay(m: Maths, origin: Vec3, direction: Vec3, t: real, u: real)
    requires SqrtLaw(m) && direction != Zero
    ensures NewRay(m, origin, direction).PositionAt(0.0) == origin
    ensures NewRay(m, origin, direction).PositionAt(t + u)
         == NewRay(m, origin, direction).PositionAt(t).Add(Normalize(m, direction).Scale(u))
    ensures NewRay(m, origin, direction).PositionAt(t).Sub(origin).Magnitude2() == t * t
  {
    var r := NewRay(m, origin, direction);
    var d := r.direction.Get();
    FromVector3IsUnit(m, direction);
    calc {
      r.PositionAt(t).Sub(origin).Magnitude2();
      d.Scale(t).Magnitude2();
      (d.x * t) * (d.x * t) + (d.y * t) * (d.y * t) + (d.z * t) * (d.z * t);
      d.Magnitude2() * (t * t);
      t * t;
    }
  }

  /** What a ray reports about the surface it struck. */
  datatype HitData = HitData(intersection: Vec3, t: real, normal: NormalizedVector3, color: Vec3)
}
