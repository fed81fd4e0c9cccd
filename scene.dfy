/**
 * The scene: spheres, point lights, closest-hit search, shading and the per-frame
 * animation (src/core/scene.rs, with the `Light` record of src/core/light.rs).
 */
module Scene {
  import opened Vectors
  import opened Common
  import opened Shapes
  import opened Input
  import opened Movement
  import opened Camera

  /** A point light; `Light::from_position` is the constructor. */
  datatype Light = Light(position: Vec3)

  const AmbientLightColor: Vec3 := Vec3(0.1, 0.1, 0.1)
  const LightOrbitPoint: Vec3 := Vec3(0.0, 1.0, -6.0)
  const LightOrbitRadius: real := 3.0
  const OrbitSpeed: real := 1.0

  /** One step of `min_by` on t: the accumulated hit stays unless the next is strictly nearer. */
  function NearerHit(acc: Option<HitData>, next: Option<HitData>): (r: Option<HitData>) {
    if acc.None? then next
    else if next.None? then acc
    else if next.value.t < acc.value.t then next
    else acc
  }

  /**
   * `intersect`: the per-sphere hits, in insertion order, reduced to the one with
   * the least t. There is none exactly when no sphere is hit, and the chosen t is at
   * most every sphere's.
   */
  function ClosestHit(m: Maths, spheres: seq<Sphere>, ray: Ray): (r: Option<HitData>)
    ensures r.None? <==> forall i :: 0 <= i < |spheres| ==> spheres[i].Intersect(m, ray).None?
    ensures r.Some? ==> forall i :: 0 <= i < |spheres| && spheres[i].Intersect(m, ray).Some? ==>
                          r.value.t <= spheres[i].Intersect(m, ray).value.t
    decreases |spheres|
  {
    if spheres == [] then None
    else
      var n := |spheres| - 1;
      NearerHit(ClosestHit(m, spheres[..n], ray), spheres[n].Intersect(m, ray))
  }

  /**
   * Sphere i reports hit h, and every sphere inserted before it either misses or
   * is hit strictly further away.
   */
  ghost predicate FirstNearestAt(m: Maths, spheres: seq<Sphere>, ray: Ray, i: int, h: HitData) {
    0 <= i < |spheres| && spheres[i].Intersect(m, ray) == Some(h) &&
    forall j :: 0 <= j < i && spheres[j].Intersect(m, ray).Some? ==> h.t < spheres[j].Intersect(m, ray).value.t
  }

  lemma FirstNearestInPrefix(m: Maths, spheres: seq<Sphere>, ray: Ray, n: nat, i: int, h: HitData)
    requires n <= |spheres| && FirstNearestAt(m, spheres[..n], ray, i, h)
    ensures FirstNearestAt(m, spheres, ray, i, h)
  {
    forall j | 0 <= j < i && spheres[j].Intersect(m, ray).Some?
      ensures h.t < spheres[j].Intersect(m, ray).value.t
    {
      assert spheres[..n][j] == spheres[j];
    }
  }

  /**
   * The hit `intersect` returns is some sphere's own hit, and every sphere inserted
   * before that one either misses or is hit strictly further away: on equal t the
   * earliest-inserted sphere wins.
   */
  lemma {:induction false} ClosestHitIsFirstNearest(m: Maths, spheres: seq<Sphere>, ray: Ray)
    ensures ClosestHit(m, spheres, ray).Some? ==>
      exists i :: FirstNearestAt(m, spheres, ray, i, ClosestHit(m, spheres, ray).value)
    decreases |spheres|
  {
    var r := ClosestHit(m, spheres, ray);
    if r.Some? {
      var n := |spheres| - 1;
      var acc := ClosestHit(m, spheres[..n], ray);
      var next := spheres[n].Intersect(m, ray);
      if acc.Some? && r == acc {
        ClosestHitIsFirstNearest(m, spheres[..n], ray);
        var i :| FirstNearestAt(m, spheres[..n], ray, i, acc.value);
        FirstNearestInPrefix(m, spheres, ray, n, i, acc.value);
      } else {
        assert r == next;
        forall j | 0 <= j < n && spheres[j].Intersect(m, ray).Some?
          ensures r.value.t < spheres[j].Intersect(m, ray).value.t
        {
          assert spheres[..n][j] == spheres[j];
        }
        assert FirstNearestAt(m, spheres, ray, n, r.value);
      }
    }
  }

  /** A ray built from a zero direction (cgmath's NaN direction) hits nothing. */
  lemma DegenerateRayHitsNothing(m: Maths, spheres: seq<Sphere>, origin: Vec3, direction: Vec3)
    requires Magnitude(m, direction) == 0.0
    ensures ClosestHit(m, spheres, NewRay(m, origin, direction)).None?
  {
    var ray := NewRay(m, origin, direction);
    assert Normalize(m, direction) == Zero;
    assert ray.direction.Get() == Zero;
    forall i | 0 <= i < |spheres|
      ensures spheres[i].Intersect(m, ray).None?
    {
      ZeroDirectionMisses(m, spheres[i], ray);
    }
  }

  /** A ray whose direction is zero meets no sphere. */
  lemma ZeroDirectionMisses(m: Maths, s: Sphere, ray: Ray)
    requires ray.direction.Get() == Zero
    ensures s.Intersect(m, ray).None?
  {
    assert s.Coefficients(ray).a == Zero.Dot(Zero) == 0.0;
  }

  /** The shadow ray of `trace`: from just above the hit point, towards the light. */
  function ShadowRay(m: Maths, hit: HitData, light: Light): (r: Ray) {
    var intersectionToLight := light.position.Sub(hit.intersection);
    var origin := hit.intersection.Add(hit.normal.Get().Scale(Epsilon));
    NewRay(m, origin, intersectionToLight)
  }

  /** A shadow ray that hits something was built from a direction of non-zero length. */
  lemma ShadowRayHitHasDistance(m: Maths, spheres: seq<Sphere>, hit: HitData, light: Light)
    requires ClosestHit(m, spheres, ShadowRay(m, hit, light)).Some?
    ensures Magnitude(m, light.position.Sub(hit.intersection)) != 0.0
  {
    if Magnitude(m, light.position.Sub(hit.intersection)) == 0.0 {
      DegenerateRayHitsNothing(m, spheres, hit.intersection.Add(hit.normal.Get().Scale(Epsilon)),
                               light.position.Sub(hit.intersection));
    }
  }

  /**
   * What one light adds: the surface colour weighted by the clamped cosine, with
   * inverse-distance falloff, plus a flat 0.15 on every channel.
   */
  function LightTerm(m: Maths, hit: HitData, intersectionToLight: Vec3): (r: Vec3)
    requires Magnitude(m, intersectionToLight) != 0.0
  {
    var distanceToLight2 := intersectionToLight.Magnitude2();
    var cosTheta := Max(Normalize(m, intersectionToLight).Dot(hit.normal.Get()), 0.0);
    hit.color.Scale(cosTheta).Scale(2.0).Div(m.sqrt(distanceToLight2)).Add(FromValue(0.15))
  }

  /**
   * The colour after the lights in order: a light's term is added only when its
   * shadow ray DOES hit something, and skipped when it hits nothing.
   */
  function LitColor(m: Maths, spheres: seq<Sphere>, hit: HitData, lights: seq<Light>, base: Vec3): (r: Vec3)
    decreases |lights|
  {
    if lights == [] then base
    else
      var n := |lights| - 1;
      var before := LitColor(m, spheres, hit, lights[..n], base);
      if ClosestHit(m, spheres, ShadowRay(m, hit, lights[n])).None? then before
      else
        ShadowRayHitHasDistance(m, spheres, hit, lights[n]);
        before.Add(LightTerm(m, hit, lights[n].position.Sub(hit.intersection)))
  }

  /** The colour `trace` returns. */
  function Shade(m: Maths, spheres: seq<Sphere>, lights: seq<Light>, ambient: Vec3, ray: Ray): (r: Vec3) {
    match ClosestHit(m, spheres, ray)
    case None => ambient
    case Some(hit) => LitColor(m, spheres, hit, lights, ambient.MulElementWise(hit.color))
  }

  /**
   * Adding a light to the end adds its term exactly when its shadow ray hits
   * something, and leaves the colour as it was when the shadow ray is clear.
   */
  lemma LightCountsOnlyWhenShadowRayHits(m: Maths, spheres: seq<Sphere>, hit: HitData, lights: seq<Light>, light: Light, base: Vec3)
    ensures ClosestHit(m, spheres, ShadowRay(m, hit, light)).None? ==>
      LitColor(m, spheres, hit, lights + [light], base) == LitColor(m, spheres, hit, lights, base)
    ensures ClosestHit(m, spheres, ShadowRay(m, hit, light)).Some? ==>
      Magnitude(m, light.position.Sub(hit.intersection)) != 0.0 &&
      LitColor(m, spheres, hit, lights + [light], base)
        == LitColor(m, spheres, hit, lights, base).Add(LightTerm(m, hit, light.position.Sub(hit.intersection)))
  {
    assert (lights + [light])[..|lights|] == lights;
    if ClosestHit(m, spheres, ShadowRay(m, hit, light)).Some? {
      ShadowRayHitHasDistance(m, spheres, hit, light);
    }
  }

  /** One more light of a sequence, as the loop of `trace` takes them. */
  lemma LitColorStep(m: Maths, spheres: seq<Sphere>, hit: HitData, lights: seq<Light>, i: nat, base: Vec3)
    requires i < |lights|
    ensures ClosestHit(m, spheres, ShadowRay(m, hit, lights[i])).None? ==>
      LitColor(m, spheres, hit, lights[..i + 1], base) == LitColor(m, spheres, hit, lights[..i], base)
    ensures ClosestHit(m, spheres, ShadowRay(m, hit, lights[i])).Some? ==>
      Magnitude(m, lights[i].position.Sub(hit.intersection)) != 0.0 &&
      LitColor(m, spheres, hit, lights[..i + 1], base)
        == LitColor(m, spheres, hit, lights[..i], base).Add(LightTerm(m, hit, lights[i].position.Sub(hit.intersection)))
  {
    assert lights[..i + 1][..i] == lights[..i];
    if ClosestHit(m, spheres, ShadowRay(m, hit, lights[i])).Some? {
      ShadowRayHitHasDistance(m, spheres, hit, lights[i]);
    }
  }

  /** When every shadow ray is clear, the lights add nothing to the base colour. */
  lemma {:induction false} ClearShadowRaysAddNothing(m: Maths, spheres: seq<Sphere>, hit: HitData, lights: seq<Light>, base: Vec3)
    requires forall i :: 0 <= i < |lights| ==> ClosestHit(m, spheres, ShadowRay(m, hit, lights[i])).None?
    ensures LitColor(m, spheres, hit, lights, base) == base
    decreases |lights|
  {
    if lights != [] {
      var n := |lights| - 1;
      assert ClosestHit(m, spheres, ShadowRay(m, hit, lights[n])).None?;
      ClearShadowRaysAddNothing(m, spheres, hit, lights[..n], base);
    }
  }

  /**
   * `trace` returns the ambient colour on a miss, and the ambient colour times the
   * surface colour on a hit when there are no lights or every shadow ray is clear.
   */
  lemma ShadeWithoutLightTerms(m: Maths, spheres: seq<Sphere>, lights: seq<Light>, ambient: Vec3, ray: Ray)
    ensures ClosestHit(m, spheres, ray).None? ==> Shade(m, spheres, lights, ambient, ray) == ambient
    ensures (ClosestHit(m, spheres, ray).Some? &&
             forall i :: 0 <= i < |lights| ==>
               ClosestHit(m, spheres, ShadowRay(m, ClosestHit(m, spheres, ray).value, lights[i])).None?) ==>
      Shade(m, spheres, lights, ambient, ray) == ambient.MulElementWise(ClosestHit(m, spheres, ray).value.color)
  {
    var h := ClosestHit(m, spheres, ray);
    if h.Some? && (forall i :: 0 <= i < |lights| ==> ClosestHit(m, spheres, ShadowRay(m, h.value, lights[i])).None?) {
      ClearShadowRaysAddNothing(m, spheres, h.value, lights, ambient.MulElementWise(h.value.color));
    }
  }

  /** Where the first light is put at total elapsed time `elapsed`, keeping its height y. */
  function OrbitPosition(m: Maths, elapsed: real, y: real): (r: Vec3) {
    var angle := elapsed * OrbitSpeed;
    Vec3(LightOrbitPoint.x + LightOrbitRadius * m.cos(angle), y, LightOrbitPoint.z + LightOrbitRadius * m.sin(angle))
  }

  /** The orbit is a circle of radius 3 about the orbit point, in the light's own horizontal plane. */
  lemma OrbitStaysOnCircle(m: Maths, elapsed: real, y: real)
    requires TrigLaw(m)
    ensures OrbitPosition(m, elapsed, y).y == y
    ensures var p := OrbitPosition(m, elapsed, y);
            (p.x - LightOrbitPoint.x) * (p.x - LightOrbitPoint.x) +
            (p.z - LightOrbitPoint.z) * (p.z - LightOrbitPoint.z) == LightOrbitRadius * LightOrbitRadius
  {
    var c, s := m.cos(elapsed * OrbitSpeed), m.sin(elapsed * OrbitSpeed);
    assert s * s + c * c == 1.0;
    assert (3.0 * c) * (3.0 * c) + (3.0 * s) * (3.0 * s) == 9.0 * (s * s + c * c);
  }

  class Scene {
    const camera: Camera
    var spheres: seq<Sphere>
    var lights: seq<Light>
    const ambientLightColor: Vec3

    /** `Scene::new`: no spheres, no lights, a dim grey ambient colour. */
    constructor (camera: Camera)
      ensures this.camera == camera
      ensures spheres == [] && lights == []
      ensures ambientLightColor == Vec3(0.1, 0.1, 0.1)
    {
      this.camera := camera;
      spheres, lights := [], [];
      ambientLightColor := AmbientLightColor;
    }

    /** `add_sphere` appends; the spheres already there keep their places. */
    method AddSphere(sphere: Sphere)
      modifies this
      ensures spheres == old(spheres) + [sphere]
      ensures lights == old(lights)
    {
      spheres := spheres + [sphere];
    }

    /** `add_light` appends; the lights already there keep their places. */
    method AddLight(light: Light)
      modifies this
      ensures lights == old(lights) + [light]
      ensures spheres == old(spheres)
    {
      lights := lights + [light];
    }

    /** `intersect`: the closest hit among the scene's own spheres. */
    function Intersect(m: Maths, ray: Ray): (r: Option<HitData>)
      reads this
    {
      ClosestHit(m, spheres, ray)
    }

    /** `trace`: the colour seen along `ray`. */
    method Trace(m: Maths, ray: Ray) returns (color: Vec3)
      ensures color == Shade(m, spheres, lights, ambientLightColor, ray)
    {
      var firstHit := Intersect(m, ray);
      if firstHit.None? {
        return ambientLightColor;
      }
      var hit := firstHit.value;
      ghost var base := ambientLightColor.MulElementWise(hit.color);
      color := ambientLightColor.MulElementWise(hit.color);
      for i := 0 to |lights|
        invariant color == LitColor(m, spheres, hit, lights[..i], base)
      {
        var light := lights[i];
        LitColorStep(m, spheres, hit, lights, i, base);
        var intersectionToLight := light.position.Sub(hit.intersection);
        var origin := hit.intersection.Add(hit.normal.Get().Scale(Epsilon));
        var shadowRay := NewRay(m, origin, intersectionToLight);
        assert shadowRay == ShadowRay(m, hit, light);
        var firstShadowHit := Intersect(m, shadowRay);
        if firstShadowHit.None? {
          continue;
        }
        var distanceToLight2 := intersectionToLight.Magnitude2();
        var cosTheta := Max(Normalize(m, intersectionToLight).Dot(hit.normal.Get()), 0.0);
        var term := hit.color.Scale(cosTheta).Scale(2.0).Div(m.sqrt(distanceToLight2)).Add(FromValue(0.15));
        assert term == LightTerm(m, hit, intersectionToLight);
        color := color.Add(term);
      }
      assert lights[..|lights|] == lights;
    }

    /**
     * `tick`: the camera takes the frame's actions and dt; then, if there is a
     * light, the first light moves to the orbit position for the total elapsed
     * time (keeping its height), and the first sphere's centre follows it. No
     * other light or sphere changes. The first sphere must exist when a light does.
     */
    method Tick(m: Maths, actions: seq<SceneAction>, dt: Duration, totalTime: Duration)
      requires |lights| > 0 ==> |spheres| > 0
      modifies this, camera, camera.movement
      ensures var s := SteerAll(m, camera.Scale(m), Steering(old(camera.yaw), old(camera.pitch), Zero), actions);
              camera.yaw == s.yaw && camera.pitch == s.pitch &&
              camera.movement.velocity == ClampSpeed(m, s.vel.Scale(old(camera.movement.maxSpeed)), old(camera.movement.maxSpeed))
      ensures camera.movement.position == old(camera.movement.position).Add(camera.movement.velocity.Scale(dt))
      ensures camera.movement.maxSpeed == old(camera.movement.maxSpeed)
      ensures old(lights) == [] ==> lights == old(lights) && spheres == old(spheres)
      ensures old(lights) != [] ==>
        var p := OrbitPosition(m, totalTime, old(lights)[0].position.y);
        lights == old(lights)[0 := Light(p)] &&
        spheres == old(spheres)[0 := old(spheres)[0].WithCenter(p)]
    {
      camera.Tick(m, actions, dt);
      if lights == [] {
        return;
      }
      var firstLightPos := lights[0].position;
      var elapsed := totalTime;
      var angle := elapsed * OrbitSpeed;
      var newLightX := LightOrbitPoint.x + LightOrbitRadius * m.cos(angle);
      var newLightZ := LightOrbitPoint.z + LightOrbitRadius * m.sin(angle);
      var newLightPosition := Vec3(newLightX, firstLightPos.y, newLightZ);
      lights := lights[0 := Light(newLightPosition)];
      spheres := spheres[0 := spheres[0].WithCenter(newLightPosition)];
    }
  }

  /** The ray from the origin along -z has that very direction. */
  lemma AxisRay(m: Maths)
    requires SqrtLaw(m)
    ensures NewRay(m, Zero, Vec3(0.0, 0.0, -1.0)).direction.Get() == Vec3(0.0, 0.0, -1.0)
  {
    SqrtOfSquare(m, 1.0);
    assert Vec3(0.0, 0.0, -1.0).Magnitude2() == 1.0 * 1.0;
  }

  /** With a single sphere, `intersect` reports exactly that sphere's hit. */
  lemma ClosestHitOfOne(m: Maths, sphere: Sphere, ray: Ray)
    ensures ClosestHit(m, [sphere], ray) == sphere.Intersect(m, ray)
  {
    assert [sphere][..0] == [];
  }

  /** With one sphere and no light, a ray that hits the sphere is traced to ambient ⊙ the sphere's colour. */
  lemma LoneSphereWithoutLights(m: Maths, sphere: Sphere, ray: Ray, hit: HitData, ambient: Vec3)
    requires sphere.Intersect(m, ray) == Some(hit)
    ensures ClosestHit(m, [sphere], ray) == Some(hit)
    ensures Shade(m, [sphere], [], ambient, ray) == ambient.MulElementWise(hit.color)
  {
    ClosestHitOfOne(m, sphere, ray);
  }

  /** The unit sphere six units down -z is hit by the axis ray at t == 5. */
  lemma AxisRayHitsLoneSphere(m: Maths)
    requires SqrtLaw(m)
    ensures var sphere := Sphere(Vec3(0.0, 0.0, -6.0), 1.0, Vec3(1.0, 1.0, 1.0));
            var hit := sphere.Intersect(m, NewRay(m, Zero, Vec3(0.0, 0.0, -1.0)));
            hit.Some? && hit.value.t == 5.0 && hit.value.color == Vec3(1.0, 1.0, 1.0)
  {
    var ray := NewRay(m, Zero, Vec3(0.0, 0.0, -1.0));
    var sphere := Sphere(Vec3(0.0, 0.0, -6.0), 1.0, Vec3(1.0, 1.0, 1.0));
    AxisRay(m);
    var q := sphere.Coefficients(ray);
    assert q == Quadratic(1.0, -12.0, 35.0);
    assert q.Discriminant() == 2.0 * 2.0;
    SqrtOfSquare(m, 2.0);
    assert sphere.Roots(m, ray) == (5.0, 7.0);
  }

  /**
   * A scene with one white unit sphere six units down the -z axis and no light:
   * the ray from the origin along -z hits it at t == 5, and `trace` gives the
   * ambient colour times white, (0.1, 0.1, 0.1).
   */
  lemma CentreRayOnLoneSphere(m: Maths)
    requires SqrtLaw(m)
    ensures var ray := NewRay(m, Zero, Vec3(0.0, 0.0, -1.0));
            var sphere := Sphere(Vec3(0.0, 0.0, -6.0), 1.0, Vec3(1.0, 1.0, 1.0));
            ClosestHit(m, [sphere], ray).Some? &&
            ClosestHit(m, [sphere], ray).value.t == 5.0 &&
            Shade(m, [sphere], [], AmbientLightColor, ray) == Vec3(0.1, 0.1, 0.1)
  {
    var ray := NewRay(m, Zero, Vec3(0.0, 0.0, -1.0));
    var sphere := Sphere(Vec3(0.0, 0.0, -6.0), 1.0, Vec3(1.0, 1.0, 1.0));
    AxisRayHitsLoneSphere(m);
    var hit := sphere.Intersect(m, ray).value;
    LoneSphereWithoutLights(m, sphere, ray, hit, AmbientLightColor);
    assert AmbientLightColor.MulElementWise(hit.color) == Vec3(0.1, 0.1, 0.1);
  }
}
