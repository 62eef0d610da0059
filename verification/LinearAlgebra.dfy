/** Vectors and 3x3 matrices over the reals, with the laws that the projection and the rotation need. */
module LinearAlgebra {
  datatype Vec = Vec(x: real, y: real, z: real)

  /** A matrix by its columns. */
  datatype Mat = Mat(a: Vec, b: Vec, c: Vec)

  // Products and quotients have names, so that proofs about vectors need not look inside them.
  function Mul(a: real, b: real): real {
    a * b
  }

  function Div(a: real, b: real): real
    requires b != 0.0
  {
    a / b
  }

  function Scale(k: real, v: Vec): Vec {
    Vec(Mul(k, v.x), Mul(k, v.y), Mul(k, v.z))
  }

  function Dot(a: real, b: real, c: real, x: real, y: real, z: real): real {
    a * x + b * y + c * z
  }

  /** m * v */
  function Apply(m: Mat, v: Vec): Vec {
    Vec(Dot(v.x, v.y, v.z, m.a.x, m.b.x, m.c.x), Dot(v.x, v.y, v.z, m.a.y, m.b.y, m.c.y), Dot(v.x, v.y, v.z, m.a.z, m.b.z, m.c.z))
  }

  /** m * n */
  function Times(m: Mat, n: Mat): Mat {
    Mat(Apply(m, n.a), Apply(m, n.b), Apply(m, n.c))
  }

  /** The determinant of the matrix with columns u, v, w. */
  function Det3(u: Vec, v: Vec, w: Vec): real {
    u.x * (v.y * w.z - w.y * v.z) - v.x * (u.y * w.z - w.y * u.z) + w.x * (u.y * v.z - v.y * u.z)
  }

  function Det(m: Mat): real {
    Det3(m.a, m.b, m.c)
  }

  const IDENTITY := Mat(Vec(1.0, 0.0, 0.0), Vec(0.0, 1.0, 0.0), Vec(0.0, 0.0, 1.0))

  /** Each column times its own factor. */
  function Columns(m: Mat, s: Vec): Mat {
    Mat(Scale(s.x, m.a), Scale(s.y, m.b), Scale(s.z, m.c))
  }

  // ---------------------------------------------------------------- laws

  lemma DetColumns(m: Mat, s: Vec)
    ensures Det(Columns(m, s)) == s.x * s.y * s.z * Det(m)
  {
    var u, v, w := m.a, m.b, m.c;
    DetScale1(s.x, u, Scale(s.y, v), Scale(s.z, w));
    DetScale2(s.y, u, v, Scale(s.z, w));
    DetScale3(s.z, u, v, w);
    Product4(s.x, s.y, s.z, Det(m));
  }

  lemma DetScale1(k: real, u: Vec, v: Vec, w: Vec)
    ensures Det3(Scale(k, u), v, w) == k * Det3(u, v, w)
  {
  }

  lemma DetScale2(k: real, u: Vec, v: Vec, w: Vec)
    ensures Det3(u, Scale(k, v), w) == k * Det3(u, v, w)
  {
  }

  lemma DetScale3(k: real, u: Vec, v: Vec, w: Vec)
    ensures Det3(u, v, Scale(k, w)) == k * Det3(u, v, w)
  {
  }

  lemma Product4(a: real, b: real, c: real, d: real)
    ensures a * (b * (c * d)) == a * b * c * d
  {
  }

  lemma DotScale(k: real, a: real, b: real, c: real, x: real, y: real, z: real)
    ensures Dot(Mul(k, a), Mul(k, b), Mul(k, c), x, y, z) == Mul(k, Dot(a, b, c, x, y, z))
  {
  }

  lemma ApplyScale(m: Mat, k: real, v: Vec)
    ensures Apply(m, Scale(k, v)) == Scale(k, Apply(m, v))
  {
    hide Dot, Mul;
    DotScale(k, v.x, v.y, v.z, m.a.x, m.b.x, m.c.x);
    DotScale(k, v.x, v.y, v.z, m.a.y, m.b.y, m.c.y);
    DotScale(k, v.x, v.y, v.z, m.a.z, m.b.z, m.c.z);
  }

  /** One entry of the associative law. */
  lemma DotDot(v: Vec, n: Mat, x: real, y: real, z: real)
    ensures Dot(v.x, v.y, v.z, Dot(n.a.x, n.a.y, n.a.z, x, y, z), Dot(n.b.x, n.b.y, n.b.z, x, y, z), Dot(n.c.x, n.c.y, n.c.z, x, y, z))
            == Dot(Dot(v.x, v.y, v.z, n.a.x, n.b.x, n.c.x), Dot(v.x, v.y, v.z, n.a.y, n.b.y, n.c.y), Dot(v.x, v.y, v.z, n.a.z, n.b.z, n.c.z), x, y, z)
  {
  }

  lemma ApplyTimes(m: Mat, n: Mat, v: Vec)
    ensures Apply(Times(m, n), v) == Apply(m, Apply(n, v))
  {
    hide Dot;
    DotDot(v, n, m.a.x, m.b.x, m.c.x);
    DotDot(v, n, m.a.y, m.b.y, m.c.y);
    DotDot(v, n, m.a.z, m.b.z, m.c.z);
  }

  lemma DotAxis(k: real, x: real, y: real, z: real)
    ensures Dot(k, 0.0, 0.0, x, y, z) == Mul(k, x)
    ensures Dot(0.0, k, 0.0, x, y, z) == Mul(k, y)
    ensures Dot(0.0, 0.0, k, x, y, z) == Mul(k, z)
  {
  }

  lemma ApplyIdentity(v: Vec)
    ensures Apply(IDENTITY, v) == v
  {
  }

  lemma DotColumns(s: Vec, v: Vec, x: real, y: real, z: real)
    ensures Dot(v.x, v.y, v.z, Mul(s.x, x), Mul(s.y, y), Mul(s.z, z))
            == Dot(Mul(s.x, v.x), Mul(s.y, v.y), Mul(s.z, v.z), x, y, z)
  {
  }

  lemma ApplyColumns(m: Mat, s: Vec, v: Vec)
    ensures Apply(Columns(m, s), v) == Apply(m, Vec(Mul(s.x, v.x), Mul(s.y, v.y), Mul(s.z, v.z)))
  {
    hide Dot, Mul;
    DotColumns(s, v, m.a.x, m.b.x, m.c.x);
    DotColumns(s, v, m.a.y, m.b.y, m.c.y);
    DotColumns(s, v, m.a.z, m.b.z, m.c.z);
  }

  /** The determinant picks coordinates out of a product. */
  lemma Coordinates(m: Mat, v: Vec)
    ensures Det3(Apply(m, v), m.b, m.c) == v.x * Det(m)
    ensures Det3(m.a, Apply(m, v), m.c) == v.y * Det(m)
    ensures Det3(m.a, m.b, Apply(m, v)) == v.z * Det(m)
  {
  }

  /** An invertible matrix is injective. */
  lemma Injective(m: Mat, u: Vec, v: Vec)
    requires Det(m) != 0.0 && Apply(m, u) == Apply(m, v)
    ensures u == v
  {
    hide Det3, Apply;
    Coordinates(m, u);
    Coordinates(m, v);
    Cancel(u.x, v.x, Det(m));
    Cancel(u.y, v.y, Det(m));
    Cancel(u.z, v.z, Det(m));
  }

  lemma Cancel(a: real, b: real, d: real)
    requires d != 0.0 && a * d == b * d
    ensures a == b
  {
    assert (a - b) * d == 0.0;
  }
}
