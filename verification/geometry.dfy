/** The scene objects the tests construct: rays, materials, spheres and the
    camera, with the guards their constructors enforce. */
module Geometry {
  import opened Wrappers
  import opened CppInt
  import opened VecUtils

  /** `Ray(origin, direction)`; the direction need not be normalised. */
  datatype Ray = Ray(origin: Vec3, direction: Vec3)

  /** The point `origin + t * direction`. */
  function At(ray: Ray, t: real): Vec3 {
    Add(ray.origin, Scale(t, ray.direction))
  }

  /** `Material(r, g, b)`: a flat surface colour. */
  datatype Material = Material(red: int, green: int, blue: int)

  datatype Sphere = Sphere(radius: real, center: Vec3, material: Material)

  datatype Camera = Camera(width: Uint, height: Uint)

  /** The exceptions thrown by the `Sphere` and `Camera` constructors. */
  datatype ConstructionError = NonPositiveRadius | ZeroCameraDimension

  /** `Sphere(radius, center, material)`: throws unless the radius is
      strictly positive; otherwise the sphere holds exactly its arguments. */
  function MakeSphere(radius: real, center: Vec3, material: Material): (r: Result<Sphere, ConstructionError>)
    ensures r.Success? <==> radius > 0.0
    ensures r.Success? ==> r.value.radius == radius && r.value.center == center && r.value.material == material
  {
    if radius <= 0.0 then Failure(NonPositiveRadius) else Success(Sphere(radius, center, material))
  }

  /** `Camera(width, height)`: throws when either dimension is zero. */
  function MakeCamera(width: Uint, height: Uint): (r: Result<Camera, ConstructionError>)
    ensures r.Success? <==> width != 0 && height != 0
    ensures r.Success? ==> r.value.width == width && r.value.height == height
  {
    if width == 0 || height == 0 then Failure(ZeroCameraDimension) else Success(Camera(width, height))
  }

  /** The guard cases the tests pin: a 100 by 50 camera is accepted, a
      zero width or height is refused, and a sphere of radius -2 is refused
      whatever its centre and material. */
  lemma ConstructorGuardCases(center: Vec3, material: Material)
    ensures MakeCamera(100, 50).Success?
    ensures MakeCamera(0, 50).Failure? && MakeCamera(100, 0).Failure?
    ensures MakeSphere(-2.0, center, material) == Failure(NonPositiveRadius)
  {
  }

  /** Writing `oc` for `origin - center`, the squared distance from the
      sphere's centre to `At(ray, t)`, minus the squared radius, is the
      quadratic `a t^2 + b t + c` with these coefficients. */
  function QuadA(ray: Ray): real {
    Dot(ray.direction, ray.direction)
  }

  function QuadB(s: Sphere, ray: Ray): real {
    2.0 * Dot(ray.direction, Sub(ray.origin, s.center))
  }

  function QuadC(s: Sphere, ray: Ray): real {
    Dot(Sub(ray.origin, s.center), Sub(ray.origin, s.center)) - s.radius * s.radius
  }

  /** Whether `a t^2 + b t + c` (with `a > 0`) has a root beyond `eps`,
      that is, whether its larger root `(-b + sqrt(disc)) / 2a` exceeds
      `eps`. Stated without a square root: `sqrt(disc) > 2 a eps + b` holds
      when the right-hand side is negative, and otherwise exactly when
      `disc` exceeds its square. A double root (`disc == 0`) counts when it
      lies beyond `eps`; with `a == b == 0` the test is always false. */
  predicate LargerRootBeyond(a: real, b: real, c: real, eps: real) {
    var disc := b * b - 4.0 * a * c;
    var m := 2.0 * a * eps + b;
    disc >= 0.0 && (m < 0.0 || disc > m * m)
  }

  /** `Sphere::Intersect`'s hit test: the ray meets the sphere at some
      parameter `t > eps`. A ray with a zero direction never hits: both `a`
      and `b` vanish. */
  predicate Hits(s: Sphere, ray: Ray, eps: real)
    ensures Hits(s, ray, eps) ==> ray.direction != Zero
  {
    LargerRootBeyond(QuadA(ray), QuadB(s, ray), QuadC(s, ray), eps)
  }

  /** A ray that starts outside the sphere and runs perpendicular to the
      line from the centre to its origin never hits: its origin is its
      closest approach. */
  lemma {:induction false} PerpendicularRayMisses(s: Sphere, ray: Ray, eps: real)
    requires Dot(ray.direction, Sub(ray.origin, s.center)) == 0.0
    requires Dot(Sub(ray.origin, s.center), Sub(ray.origin, s.center)) > s.radius * s.radius
    ensures !Hits(s, ray, eps)
  {
    var a, c := QuadA(ray), QuadC(s, ray);
    DotSelfZeroIff(ray.direction);
    assert QuadB(s, ray) == 0.0;
    if a > 0.0 {
      ProductPositive(a, c, a * c);
    }
  }

  /** `Hits` depends on the ray and sphere only through the coefficients. */
  lemma HitsByCoefficients(s: Sphere, ray: Ray, eps: real, a: real, b: real, c: real)
    requires QuadA(ray) == a && QuadB(s, ray) == b && QuadC(s, ray) == c
    ensures Hits(s, ray, eps) <==> LargerRootBeyond(a, b, c, eps)
  {
  }

  /** The squared distance from the centre to the ray point is the quadratic
      with the coefficients above, plus the squared radius. */
  lemma {:induction false} QuadraticExpansion(s: Sphere, ray: Ray, t: real)
    ensures var p := Sub(At(ray, t), s.center);
      Dot(p, p) - s.radius * s.radius == QuadA(ray) * t * t + QuadB(s, ray) * t + QuadC(s, ray)
  {
    var oc := Sub(ray.origin, s.center);
    var d := ray.direction;
    var p := Sub(At(ray, t), s.center);
    assert p == Vec3(oc.x + t * d.x, oc.y + t * d.y, oc.z + t * d.z);
    assert p.x * p.x == oc.x * oc.x + 2.0 * t * d.x * oc.x + t * t * d.x * d.x;
    assert p.y * p.y == oc.y * oc.y + 2.0 * t * d.y * oc.y + t * t * d.y * d.y;
    assert p.z * p.z == oc.z * oc.z + 2.0 * t * d.z * oc.z + t * t * d.z * d.z;
  }

  /** Soundness of a miss: whenever the ray (with a non-zero direction)
      really touches the sphere's surface beyond `eps`, `Hits` reports it. */
  lemma {:induction false} SurfacePointIsHit(s: Sphere, ray: Ray, eps: real, t: real)
    requires ray.direction != Zero
    requires t > eps
    requires var p := Sub(At(ray, t), s.center); Dot(p, p) == s.radius * s.radius
    ensures Hits(s, ray, eps)
  {
    DotSelfPositive(ray.direction);
    QuadraticExpansion(s, ray, t);
    RootBeyond(QuadA(ray), QuadB(s, ray), QuadC(s, ray), t, eps);
  }

  /** The algebra behind `SurfacePointIsHit`, over plain reals: if `t > eps`
      is a root of `a t^2 + b t + c` with `a > 0`, then the larger root
      exceeds `eps`. */
  lemma {:induction false} RootBeyond(a: real, b: real, c: real, t: real, eps: real)
    requires a > 0.0 && t > eps
    requires a * t * t + b * t + c == 0.0
    ensures LargerRootBeyond(a, b, c, eps)
  {
    var disc := b * b - 4.0 * a * c;
    var m := 2.0 * a * eps + b;
    var u := 2.0 * a * t + b;
    DiscriminantAtRoot(a, b, c, t, u);
    SquareSign(u, disc);
    ProductPositive(2.0 * a, t - eps, u - m);
    if m >= 0.0 {
      DifferenceOfSquares(u, m, disc - m * m);
      ProductPositive(u - m, u + m, disc - m * m);
    }
  }

  /** At a root `t`, the discriminant is the square of `2 a t + b`. */
  lemma DiscriminantAtRoot(a: real, b: real, c: real, t: real, u: real)
    requires a * t * t + b * t + c == 0.0 && u == 2.0 * a * t + b
    ensures b * b - 4.0 * a * c == u * u
  {
    assert c == -(a * t * t + b * t);
  }

  lemma DifferenceOfSquares(u: real, m: real, d: real)
    requires d == u * u - m * m
    ensures d == (u - m) * (u + m)
  {
  }
}
