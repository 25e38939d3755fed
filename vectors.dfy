/**
 Exact three-component vectors. A row of libigl's `FN`, `CN`, `N` and `NN`
 matrices is a `Vec3`; components are `real`, so sums are exact and the order
 in which the source adds neighbour normals does not matter to the model.
 */
module Vectors {

  datatype Vec3 = Vec3(x: real, y: real, z: real)

  /** The zero row that `setZero` writes. */
  const Zero: Vec3 := Vec3(0.0, 0.0, 0.0)

  function Add(a: Vec3, b: Vec3): Vec3 {
    Vec3(a.x + b.x, a.y + b.y, a.z + b.z)
  }

  function Scale(s: real, a: Vec3): Vec3 {
    Vec3(s * a.x, s * a.y, s * a.z)
  }

  function Dot(a: Vec3, b: Vec3): real {
    a.x * b.x + a.y * b.y + a.z * b.z
  }

  /** Two unit vectors never have a dot product above one (Cauchy-Schwarz for unit vectors). */
  lemma UnitDotAtMostOne(u: Vec3, v: Vec3)
    requires Dot(u, u) == 1.0 && Dot(v, v) == 1.0
    ensures Dot(u, v) <= 1.0
  {
    UnitComponents(u.x, u.y, u.z, v.x, v.y, v.z);
  }

  lemma UnitComponents(ux: real, uy: real, uz: real, vx: real, vy: real, vz: real)
    requires ux * ux + uy * uy + uz * uz == 1.0
    requires vx * vx + vy * vy + vz * vz == 1.0
    ensures ux * vx + uy * vy + uz * vz <= 1.0
  {
    ProductBound(ux, vx);
    ProductBound(uy, vy);
    ProductBound(uz, vz);
  }

  /** Each product is at most the mean of the two squares, since 0 <= (a - b)^2. */
  lemma ProductBound(a: real, b: real)
    ensures 2.0 * (a * b) <= a * a + b * b
  {
    assert a * a + b * b - 2.0 * (a * b) == (a - b) * (a - b);
  }

  /** If `b` is `s * a` and `c` is `s * w`, then `b + c * v` is `s * (a + w * v)`. */
  lemma ScaleOverWeightedAdd(s: real, w: real, c: real, a: Vec3, b: Vec3, v: Vec3)
    requires b == Scale(s, a) && c == s * w
    ensures Add(b, Scale(c, v)) == Scale(s, Add(a, Scale(w, v)))
  {
    assert s * a.x + (s * w) * v.x == s * (a.x + w * v.x);
    assert s * a.y + (s * w) * v.y == s * (a.y + w * v.y);
    assert s * a.z + (s * w) * v.z == s * (a.z + w * v.z);
  }
}
