// Three-dimensional point/vector algebra over the reals: the thin layer the
// hexahedron formulas are written in. Points and displacements share one type.
module Vector3 {

  datatype Vec3 = Vec3(x: real, y: real, z: real)

  function Add(a: Vec3, b: Vec3): Vec3 {
    Vec3(a.x + b.x, a.y + b.y, a.z + b.z)
  }

  function Sub(a: Vec3, b: Vec3): Vec3 {
    Vec3(a.x - b.x, a.y - b.y, a.z - b.z)
  }

  function Scale(k: real, a: Vec3): Vec3 {
    Vec3(k * a.x, k * a.y, k * a.z)
  }

  function Dot(a: Vec3, b: Vec3): real {
    a.x * b.x + a.y * b.y + a.z * b.z
  }

  function Cross(a: Vec3, b: Vec3): Vec3 {
    Vec3(a.y * b.z - a.z * b.y, a.z * b.x - a.x * b.z, a.x * b.y - a.y * b.x)
  }

  /** The scalar triple product (a x b) . c, i.e. the determinant of the rows a, b, c. */
  function TripleProduct(a: Vec3, b: Vec3, c: Vec3): real {
    Dot(Cross(a, b), c)
  }

  function Abs(x: real): (r: real)
    ensures r >= 0.0
    ensures r == x || r == -x
  {
    if x < 0.0 then -x else x
  }

  lemma AbsMul(a: real, b: real)
    ensures Abs(a * b) == Abs(a) * Abs(b)
  {
    if a < 0.0 && b < 0.0 {
      assert a * b == (-a) * (-b);
    } else if a < 0.0 {
      assert -(a * b) == (-a) * b;
    } else if b < 0.0 {
      assert -(a * b) == a * (-b);
    }
  }

  lemma MulRegroup(p: real, q: real, s: real, t: real)
    ensures (p * s) * (q * t) == (p * q) * (s * t)
  {
  }

  lemma CrossScale(p: real, q: real, a: Vec3, b: Vec3)
    ensures Cross(Scale(p, a), Scale(q, b)) == Scale(p * q, Cross(a, b))
  {
    MulRegroup(p, q, a.y, b.z); MulRegroup(p, q, a.z, b.y);
    MulRegroup(p, q, a.z, b.x); MulRegroup(p, q, a.x, b.z);
    MulRegroup(p, q, a.x, b.y); MulRegroup(p, q, a.y, b.x);
    var pq := p * q;
    assert pq * (a.y * b.z) - pq * (a.z * b.y) == pq * (a.y * b.z - a.z * b.y);
    assert pq * (a.z * b.x) - pq * (a.x * b.z) == pq * (a.z * b.x - a.x * b.z);
    assert pq * (a.x * b.y) - pq * (a.y * b.x) == pq * (a.x * b.y - a.y * b.x);
  }

  lemma DotScale(p: real, q: real, a: Vec3, b: Vec3)
    ensures Dot(Scale(p, a), Scale(q, b)) == p * q * Dot(a, b)
  {
    MulRegroup(p, q, a.x, b.x);
    MulRegroup(p, q, a.y, b.y);
    MulRegroup(p, q, a.z, b.z);
    var pq := p * q;
    assert pq * (a.x * b.x) + pq * (a.y * b.y) + pq * (a.z * b.z) == pq * (a.x * b.x + a.y * b.y + a.z * b.z);
  }

  /** Scaling all arguments by k scales the triple product by k^3. */
  lemma TripleProductScale(k: real, a: Vec3, b: Vec3, c: Vec3)
    ensures TripleProduct(Scale(k, a), Scale(k, b), Scale(k, c)) == k * k * k * TripleProduct(a, b, c)
  {
    CrossScale(k, k, a, b);
    DotScale(k * k, k, Cross(a, b), c);
    var t := Dot(Cross(a, b), c);
    calc {
      TripleProduct(Scale(k, a), Scale(k, b), Scale(k, c));
      Dot(Cross(Scale(k, a), Scale(k, b)), Scale(k, c));
      Dot(Scale(k * k, Cross(a, b)), Scale(k, c));
      (k * k) * k * t;
    }
  }
}
