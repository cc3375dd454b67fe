/** `IntersectionData`: the per-ray record of which object, if any, a ray
    has hit. Before any hit the object pointer is unset, and `getObject`
    throws rather than hand out a null pointer. */
module Intersection {
  import opened Wrappers
  import opened VecUtils
  import opened Geometry

  /** The identity of a scene object, compared as the tests compare `&S`:
      two spheres with equal fields are still different objects. */
  type ObjectRef = nat

  /** The hit distance is not recorded: computing it needs a square root. */
  datatype IntersectionData = IntersectionData(hitObject: Option<ObjectRef>)

  /** A default-constructed `IntersectionData`. */
  const Unset: IntersectionData := IntersectionData(None)

  /** `getObject` on a record whose pointer was never set throws. */
  datatype AccessError = ObjectNotSet

  /** `IntersectionData::getObject`. */
  function GetObject(d: IntersectionData): (r: Result<ObjectRef, AccessError>)
    ensures r.Success? <==> d.hitObject.Some?
    ensures r.Success? ==> d.hitObject == Some(r.value)
  {
    match d.hitObject
    case None => Failure(ObjectNotSet)
    case Some(o) => Success(o)
  }

  /** `Sphere::Intersect(ray, data)` called on the sphere `s` whose identity
      is `self`: a hit points the record at `self`; a miss leaves the record
      exactly as it was. */
  function Intersect(s: Sphere, self: ObjectRef, ray: Ray, eps: real, d: IntersectionData): (r: IntersectionData)
    ensures Hits(s, ray, eps) ==> GetObject(r) == Success(self)
    ensures !Hits(s, ray, eps) ==> r == d
  {
    if Hits(s, ray, eps) then IntersectionData(Some(self)) else d
  }

  /** One `Intersect` call: the sphere, its identity and the ray. */
  datatype Cast = Cast(sphere: Sphere, self: ObjectRef, ray: Ray)

  /** The record after running `casts` in order, starting from `d`. */
  function IntersectAll(casts: seq<Cast>, eps: real, d: IntersectionData): IntersectionData
    decreases |casts|
  {
    if |casts| == 0 then d
    else IntersectAll(casts[1..], eps, Intersect(casts[0].sphere, casts[0].self, casts[0].ray, eps, d))
  }

  predicate CastHits(c: Cast, eps: real) {
    Hits(c.sphere, c.ray, eps)
  }

  /** After a series of `Intersect` calls the pointer is unset exactly when
      it was unset before and none of the calls hit; when it is set, it is
      either the pointer the record started with or the identity of a
      sphere that one of the calls hit. */
  lemma {:induction false} IntersectAllTracksHits(casts: seq<Cast>, eps: real, d: IntersectionData)
    ensures var r := IntersectAll(casts, eps, d);
      && (r.hitObject.None? <==> d.hitObject.None? && forall i | 0 <= i < |casts| :: !CastHits(casts[i], eps))
      && (r.hitObject.Some? ==>
            || r.hitObject == d.hitObject
            || exists i | 0 <= i < |casts| :: CastHits(casts[i], eps) && casts[i].self == r.hitObject.value)
    decreases |casts|
  {
    if |casts| > 0 {
      var c := casts[0];
      var d' := Intersect(c.sphere, c.self, c.ray, eps, d);
      IntersectAllTracksHits(casts[1..], eps, d');
      var r := IntersectAll(casts, eps, d);
      assert r == IntersectAll(casts[1..], eps, d');
      forall i | 0 <= i < |casts| - 1
        ensures casts[1..][i] == casts[i + 1]
      {
      }
      if r.hitObject.Some? && r.hitObject != d.hitObject && r.hitObject == d'.hitObject {
        assert CastHits(casts[0], eps) && casts[0].self == r.hitObject.value;
      }
    }
  }

  /** Starting from an unset record, `getObject` fails after a series of
      `Intersect` calls exactly when none of them hit, and otherwise names
      a sphere that one of them hit. */
  lemma GetObjectAfterCasts(casts: seq<Cast>, eps: real)
    ensures GetObject(IntersectAll(casts, eps, Unset)).Failure? <==>
      forall i | 0 <= i < |casts| :: !CastHits(casts[i], eps)
    ensures GetObject(IntersectAll(casts, eps, Unset)).Success? ==>
      exists i | 0 <= i < |casts| ::
        CastHits(casts[i], eps) && casts[i].self == GetObject(IntersectAll(casts, eps, Unset)).value
  {
    IntersectAllTracksHits(casts, eps, Unset);
  }

  /** The unit sphere at the origin that the "Test Object Pointer" case
      builds, with a white material. */
  const TestSphere: Sphere := Sphere(1.0, Zero, Material(255, 255, 255))

  /** `TestSphere` is what the constructor call `Sphere S(1, {0,0,0}, mat)`
      builds: the radius passes the guard and the fields are kept. */
  lemma TestSphereConstructed()
    ensures MakeSphere(1.0, Zero, Material(255, 255, 255)) == Success(TestSphere)
  {
  }

  /** The ray from (0, 0, 10) along +x: it passes the sphere at distance 10. */
  const MissingRay: Ray := Ray(Vec3(0.0, 0.0, 10.0), Vec3(1.0, 0.0, 0.0))

  /** The ray from (0, 0, 10) along -z: it meets the sphere at distances 9 and 11. */
  const HittingRay: Ray := Ray(Vec3(0.0, 0.0, 10.0), Vec3(0.0, 0.0, -1.0))

  /** The missing ray runs perpendicular to the line from the sphere's
      centre to its origin, 10 away, so it misses for every `eps`. */
  lemma MissingRayMisses(eps: real)
    ensures !Hits(TestSphere, MissingRay, eps)
  {
    PerpendicularRayMisses(TestSphere, MissingRay, eps);
  }

  /** The hit test's coefficients for a ray from (0, 0, 10) in the plane
      `y == 0` against the unit sphere at the origin. */
  lemma TestRayCoefficients(s: Sphere, ray: Ray)
    requires s.radius == 1.0 && s.center == Zero
    requires ray.origin == Vec3(0.0, 0.0, 10.0) && ray.direction.y == 0.0
    ensures QuadA(ray) == ray.direction.x * ray.direction.x + ray.direction.z * ray.direction.z
    ensures QuadB(s, ray) == 20.0 * ray.direction.z
    ensures QuadC(s, ray) == 99.0
  {
    assert Sub(ray.origin, s.center) == Vec3(0.0, 0.0, 10.0);
  }

  /** The coefficients of the hitting ray's quadratic: `t^2 - 20 t + 99`,
      whose roots are 9 and 11. */
  lemma HittingRayQuadratic()
    ensures QuadA(HittingRay) == 1.0
    ensures QuadB(TestSphere, HittingRay) == -20.0
    ensures QuadC(TestSphere, HittingRay) == 99.0
  {
    TestRayCoefficients(TestSphere, HittingRay);
  }

  /** The hitting ray's far intersection, the sphere's pole `(0, 0, -1)`,
      lies at distance 11, so it hits for every `eps` below that. */
  lemma HittingRayHits(eps: real)
    requires eps < 11.0
    ensures Hits(TestSphere, HittingRay, eps)
  {
    HittingRayQuadratic();
    HitsByCoefficients(TestSphere, HittingRay, eps, 1.0, -20.0, 99.0);
    FarRootBeyond(eps);
  }

  /** `t^2 - 20 t + 99` has its larger root, 11, beyond every `eps < 11`. */
  lemma FarRootBeyond(eps: real)
    requires eps < 11.0
    ensures LargerRootBeyond(1.0, -20.0, 99.0, eps)
  {
    var disc := -20.0 * -20.0 - 4.0 * 1.0 * 99.0;
    var m := 2.0 * 1.0 * eps + -20.0;
    assert disc == 4.0;
    if m >= 0.0 {
      SquareBelow(m, 2.0);
      assert disc > m * m;
    }
  }

  /** Squaring is monotone on the non-negative reals. */
  lemma SquareBelow(m: real, k: real)
    requires 0.0 <= m < k
    ensures m * m < k * k
  {
    ProductPositive(k + m, k - m, (k + m) * (k - m));
    assert (k + m) * (k - m) == k * k - m * m;
  }

  /** "Test Object Pointer", first half: a default-constructed record
      throws, and still throws after the missing ray. */
  lemma MissingRayLeavesPointerUnset(self: ObjectRef, eps: real)
    ensures GetObject(Intersect(TestSphere, self, MissingRay, eps, Unset)).Failure?
  {
    MissingRayMisses(eps);
  }

  /** "Test Object Pointer", second half: after the hitting ray the record
      points at exactly the sphere that was intersected, whatever it held
      before. */
  lemma HittingRaySetsPointer(self: ObjectRef, eps: real, d: IntersectionData)
    requires eps < 11.0
    ensures GetObject(Intersect(TestSphere, self, HittingRay, eps, d)) == Success(self)
  {
    HittingRayHits(eps);
  }
}
