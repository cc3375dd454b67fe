/** The `VecUtils` vector helpers the tests rely on: 3-vectors over the reals
    and a norm that refuses the zero vector. */
module VecUtils {
  import opened Wrappers

  datatype Vec3 = Vec3(x: real, y: real, z: real)

  const Zero: Vec3 := Vec3(0.0, 0.0, 0.0)

  function Add(a: Vec3, b: Vec3): Vec3 {
    Vec3(a.x + b.x, a.y + b.y, a.z + b.z)
  }

  function Sub(a: Vec3, b: Vec3): Vec3 {
    Vec3(a.x - b.x, a.y - b.y, a.z - b.z)
  }

  function Scale(t: real, v: Vec3): Vec3 {
    Vec3(t * v.x, t * v.y, t * v.z)
  }

  function Dot(a: Vec3, b: Vec3): real {
    a.x * b.x + a.y * b.y + a.z * b.z
  }

  /** `norm` of the zero vector throws: the direction is undefined. */
  datatype VecError = ZeroVectorNorm

  /** A Euclidean length. The model's reals have no square root, so the
      length is carried by its square, which determines it uniquely. */
  datatype Magnitude = Magnitude(squared: real)

  /** A product of two positive reals is positive. */
  lemma ProductPositive(a: real, b: real, p: real)
    requires p == a * b && a > 0.0 && b > 0.0
    ensures p > 0.0
  {
  }

  /** A real square `sq == r * r` is never negative, and positive unless
      `r` is zero. */
  lemma SquareSign(r: real, sq: real)
    requires sq == r * r
    ensures sq >= 0.0
    ensures r != 0.0 ==> sq > 0.0
  {
    if r > 0.0 {
      ProductPositive(r, r, sq);
    } else if r < 0.0 {
      ProductPositive(-r, -r, sq);
    }
  }

  /** `a . a` is never negative and vanishes only on the zero vector. */
  lemma {:induction false} DotSelfZeroIff(v: Vec3)
    ensures Dot(v, v) >= 0.0
    ensures Dot(v, v) == 0.0 <==> v == Zero
  {
    var xx, yy, zz := v.x * v.x, v.y * v.y, v.z * v.z;
    SquareSign(v.x, xx);
    SquareSign(v.y, yy);
    SquareSign(v.z, zz);
    assert Dot(v, v) == xx + yy + zz;
  }

  /** Hence `a . a` is strictly positive on every non-zero vector. */
  lemma {:induction false} DotSelfPositive(v: Vec3)
    requires v != Zero
    ensures Dot(v, v) > 0.0
  {
    var xx, yy, zz := v.x * v.x, v.y * v.y, v.z * v.z;
    SquareSign(v.x, xx);
    SquareSign(v.y, yy);
    SquareSign(v.z, zz);
    assert Dot(v, v) == xx + yy + zz;
    assert xx > 0.0 || yy > 0.0 || zz > 0.0;
  }

  /** `VecUtils::norm`: fails on the zero vector and otherwise yields a
      strictly positive length whose square is `v . v`. */
  function Norm(v: Vec3): (r: Result<Magnitude, VecError>)
    ensures r.Failure? <==> v == Zero
    ensures r.Success? ==> r.value.squared > 0.0 && r.value.squared == Dot(v, v)
  {
    if v == Zero then
      Failure(ZeroVectorNorm)
    else
      DotSelfPositive(v);
      Success(Magnitude(Dot(v, v)))
  }

  /** The test case: `norm({0, 0, 0})` throws. */
  lemma NormOfZeroFails()
    ensures Norm(Vec3(0.0, 0.0, 0.0)) == Failure(ZeroVectorNorm)
  {
  }
}
