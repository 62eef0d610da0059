/**
 * The camera-projection tool over exact reals: two 3x3 matrices from a rectangle and four mouse clicks, and the
 * projection A * inverse(B) that sends each clicked corner to its corner of the rectangle. Eigen's solver and inverse
 * are known only where the matrix is invertible.
 */
module Homography {
  import opened Bytes
  import opened LinearAlgebra

  // ---------------------------------------------------------------- Eigen

  function Cramer(q: Mat, w: Vec): Vec
    requires Det(q) != 0.0
  {
    Vec(Det3(w, q.b, q.c) / Det(q), Det3(q.a, w, q.c) / Det(q), Det3(q.a, q.b, w) / Det(q))
  }

  // Cramer's rule: the determinants are inner products with the cofactors, and the rows of the matrix meet the
  // cofactors in the determinant or in zero. Again the products have names.

  function Mul3(a: real, b: real, c: real): real {
    a * b * c
  }

  function Minor(a: real, b: real, c: real, d: real): real {
    a * b - c * d
  }

  function Cross(u: Vec, v: Vec): Vec {
    Vec(Minor(u.y, v.z, v.y, u.z), Minor(u.z, v.x, v.z, u.x), Minor(u.x, v.y, v.x, u.y))
  }

  /** The determinant of the matrix with rows u, v, w as its six products. */
  function Rows(u: Vec, v: Vec, w: Vec): real {
    Mul3(u.x, v.y, w.z) - Mul3(u.x, v.z, w.y) + Mul3(u.y, v.z, w.x) - Mul3(u.y, v.x, w.z) + Mul3(u.z, v.x, w.y) - Mul3(u.z, v.y, w.x)
  }

  lemma DetByRows(u: Vec, v: Vec, w: Vec)
    ensures Det3(u, v, w) == Rows(Vec(u.x, v.x, w.x), Vec(u.y, v.y, w.y), Vec(u.z, v.z, w.z))
  {
  }

  lemma Permute(a: real, b: real, c: real)
    ensures Mul3(a, b, c) == Mul3(b, c, a) && Mul3(a, b, c) == Mul3(b, a, c) && Mul3(a, b, c) == Mul3(c, b, a)
  {
  }

  lemma RowsCycle(u: Vec, v: Vec, w: Vec)
    ensures Rows(u, v, w) == Rows(v, w, u)
  {
    hide Mul3;
    Permute(u.x, v.y, w.z);
    Permute(u.x, v.z, w.y);
    Permute(u.y, v.z, w.x);
    Permute(u.y, v.x, w.z);
    Permute(u.z, v.x, w.y);
    Permute(u.z, v.y, w.x);
  }

  lemma RowTwice(u: Vec, w: Vec)
    ensures Rows(u, u, w) == 0.0 && Rows(u, w, u) == 0.0
  {
    hide Mul3;
    Permute(u.x, u.y, w.z);
    Permute(u.x, u.z, w.y);
    Permute(u.y, u.z, w.x);
    Permute(u.x, w.y, u.z);
    Permute(u.x, w.z, u.y);
    Permute(u.y, w.x, u.z);
  }

  lemma Spread(a: real, b: real, c: real, d: real, e: real)
    ensures Mul(a, Minor(b, c, d, e)) == Mul3(a, b, c) - Mul3(a, d, e)
  {
  }

  lemma DotIsSum(a: real, b: real, c: real, x: real, y: real, z: real)
    ensures Dot(a, b, c, x, y, z) == Mul(a, x) + Mul(b, y) + Mul(c, z)
  {
  }

  lemma RowMeetsCofactors(u: Vec, v: Vec, w: Vec)
    ensures Dot(u.x, u.y, u.z, Minor(v.y, w.z, v.z, w.y), Minor(v.z, w.x, v.x, w.z), Minor(v.x, w.y, v.y, w.x)) == Rows(u, v, w)
  {
    hide Dot, Mul, Mul3, Minor;
    DotIsSum(u.x, u.y, u.z, Minor(v.y, w.z, v.z, w.y), Minor(v.z, w.x, v.x, w.z), Minor(v.x, w.y, v.y, w.x));
    Spread(u.x, v.y, w.z, v.z, w.y);
    Spread(u.y, v.z, w.x, v.x, w.z);
    Spread(u.z, v.x, w.y, v.y, w.x);
  }

  lemma Cofactors(u: Vec, v: Vec, w: Vec, p: Vec)
    ensures var c := Cross(v, w); Det3(p, v, w) == Dot(c.x, c.y, c.z, p.x, p.y, p.z)
    ensures var c := Cross(w, u); Det3(u, p, w) == Dot(c.x, c.y, c.z, p.x, p.y, p.z)
    ensures var c := Cross(u, v); Det3(u, v, p) == Dot(c.x, c.y, c.z, p.x, p.y, p.z)
  {
  }

  lemma CofactorRowX(u: Vec, v: Vec, w: Vec)
    ensures var a, b, c := Cross(v, w), Cross(w, u), Cross(u, v); Dot(u.x, v.x, w.x, a.x, b.x, c.x) == Det3(u, v, w)
    ensures var a, b, c := Cross(v, w), Cross(w, u), Cross(u, v); Dot(u.x, v.x, w.x, a.y, b.y, c.y) == 0.0
    ensures var a, b, c := Cross(v, w), Cross(w, u), Cross(u, v); Dot(u.x, v.x, w.x, a.z, b.z, c.z) == 0.0
  {
    hide Dot, Minor, Rows, Det3;
    var x, y, z := Vec(u.x, v.x, w.x), Vec(u.y, v.y, w.y), Vec(u.z, v.z, w.z);
    DetByRows(u, v, w);
    RowMeetsCofactors(x, y, z);
    RowMeetsCofactors(x, z, x);
    RowTwice(x, z);
    RowMeetsCofactors(x, x, y);
    RowTwice(x, y);
  }

  lemma CofactorRowY(u: Vec, v: Vec, w: Vec)
    ensures var a, b, c := Cross(v, w), Cross(w, u), Cross(u, v); Dot(u.y, v.y, w.y, a.x, b.x, c.x) == 0.0
    ensures var a, b, c := Cross(v, w), Cross(w, u), Cross(u, v); Dot(u.y, v.y, w.y, a.y, b.y, c.y) == Det3(u, v, w)
    ensures var a, b, c := Cross(v, w), Cross(w, u), Cross(u, v); Dot(u.y, v.y, w.y, a.z, b.z, c.z) == 0.0
  {
    hide Dot, Minor, Rows, Det3;
    var x, y, z := Vec(u.x, v.x, w.x), Vec(u.y, v.y, w.y), Vec(u.z, v.z, w.z);
    DetByRows(u, v, w);
    RowsCycle(x, y, z);
    RowMeetsCofactors(y, z, x);
    RowMeetsCofactors(y, y, z);
    RowTwice(y, z);
    RowMeetsCofactors(y, x, y);
    RowTwice(y, x);
  }

  lemma CofactorRowZ(u: Vec, v: Vec, w: Vec)
    ensures var a, b, c := Cross(v, w), Cross(w, u), Cross(u, v); Dot(u.z, v.z, w.z, a.x, b.x, c.x) == 0.0
    ensures var a, b, c := Cross(v, w), Cross(w, u), Cross(u, v); Dot(u.z, v.z, w.z, a.y, b.y, c.y) == 0.0
    ensures var a, b, c := Cross(v, w), Cross(w, u), Cross(u, v); Dot(u.z, v.z, w.z, a.z, b.z, c.z) == Det3(u, v, w)
  {
    hide Dot, Minor, Rows, Det3;
    var x, y, z := Vec(u.x, v.x, w.x), Vec(u.y, v.y, w.y), Vec(u.z, v.z, w.z);
    DetByRows(u, v, w);
    RowsCycle(x, y, z);
    RowsCycle(y, z, x);
    RowMeetsCofactors(z, x, y);
    RowMeetsCofactors(z, y, z);
    RowTwice(z, y);
    RowMeetsCofactors(z, z, x);
    RowTwice(z, x);
  }

  lemma DotSymmetric(a: real, b: real, c: real, x: real, y: real, z: real)
    ensures Dot(a, b, c, x, y, z) == Dot(x, y, z, a, b, c)
  {
  }

  lemma CramerRow(u: Vec, v: Vec, w: Vec, p: Vec)
    ensures Dot(Det3(p, v, w), Det3(u, p, w), Det3(u, v, p), u.x, v.x, w.x) == Mul(Det3(u, v, w), p.x)
    ensures Dot(Det3(p, v, w), Det3(u, p, w), Det3(u, v, p), u.y, v.y, w.y) == Mul(Det3(u, v, w), p.y)
    ensures Dot(Det3(p, v, w), Det3(u, p, w), Det3(u, v, p), u.z, v.z, w.z) == Mul(Det3(u, v, w), p.z)
  {
    hide Dot, Det3, Cross, Mul;
    var n, d := Mat(Cross(v, w), Cross(w, u), Cross(u, v)), Det3(u, v, w);
    var d1, d2, d3 := Det3(p, v, w), Det3(u, p, w), Det3(u, v, p);
    Cofactors(u, v, w, p);
    CofactorRowX(u, v, w);
    CofactorRowY(u, v, w);
    CofactorRowZ(u, v, w);
    DotSymmetric(d1, d2, d3, u.x, v.x, w.x);
    DotSymmetric(d1, d2, d3, u.y, v.y, w.y);
    DotSymmetric(d1, d2, d3, u.z, v.z, w.z);
    DotDot(Vec(u.x, v.x, w.x), n, p.x, p.y, p.z);
    DotDot(Vec(u.y, v.y, w.y), n, p.x, p.y, p.z);
    DotDot(Vec(u.z, v.z, w.z), n, p.x, p.y, p.z);
    DotAxis(d, p.x, p.y, p.z);
  }

  lemma DotQuotient(a: real, b: real, c: real, d: real, x: real, y: real, z: real, p: real)
    requires d != 0.0 && Dot(a, b, c, x, y, z) == Mul(d, p)
    ensures Dot(a / d, b / d, c / d, x, y, z) == p
  {
    assert d * (a / d * x + b / d * y + c / d * z) == a * x + b * y + c * z;
  }

  lemma CramerSolves(q: Mat, w: Vec)
    requires Det(q) != 0.0
    ensures Apply(q, Cramer(q, w)) == w
  {
    hide Det3, Dot, Mul;
    CramerRow(q.a, q.b, q.c, w);
    var a, b, c, d := Det3(w, q.b, q.c), Det3(q.a, w, q.c), Det3(q.a, q.b, w), Det(q);
    DotQuotient(a, b, c, d, q.a.x, q.b.x, q.c.x, w.x);
    DotQuotient(a, b, c, d, q.a.y, q.b.y, q.c.y, w.y);
    DotQuotient(a, b, c, d, q.a.z, q.b.z, q.c.z, w.z);
  }

  /** colPivHouseholderQr().solve: the solution if the matrix is invertible, some vector otherwise. */
  method Solve(q: Mat, w: Vec) returns (x: Vec)
    ensures Det(q) != 0.0 ==> Apply(q, x) == w
  {
    if Det(q) != 0.0 {
      x := Cramer(q, w);
      CramerSolves(q, w);
    } else {
      x := *;
    }
  }

  /** inverse(): a right inverse if there is one, some matrix otherwise. */
  method Inverse(m: Mat) returns (r: Mat)
    ensures Det(m) != 0.0 ==> Times(m, r) == IDENTITY
  {
    if Det(m) != 0.0 {
      r := Mat(Cramer(m, IDENTITY.a), Cramer(m, IDENTITY.b), Cramer(m, IDENTITY.c));
      CramerSolves(m, IDENTITY.a);
      CramerSolves(m, IDENTITY.b);
      CramerSolves(m, IDENTITY.c);
    } else {
      r := *;
    }
  }

  // ---------------------------------------------------------------- the tool's matrices

  /** What Config was given. */
  datatype Rectangle = Rectangle(width: real, height: real, posX: real, posY: real)

  /** The corners in the order the user is asked to click them. */
  function Corner(r: Rectangle, k: nat): Vec
    requires k < 4
  {
    if k == 0 then Vec(r.posX, r.posY + r.width, 1.0)
    else if k == 1 then Vec(r.posX, r.posY, 1.0)
    else if k == 2 then Vec(r.posX + r.height, r.posY, 1.0)
    else Vec(r.posX + r.height, r.posY + r.width, 1.0)
  }

  /** A clicked pixel in homogeneous coordinates. */
  function Pixel(p: (int, int)): Vec {
    Vec(p.0 as real, p.1 as real, 1.0)
  }

  /** The first three of four points as columns. */
  function Frame(p: seq<Vec>): Mat
    requires |p| == 4
  {
    Mat(p[0], p[1], p[2])
  }

  /** The matrix built from four points: the first three scaled by a solution for the fourth. */
  ghost predicate BuiltFrom(m: Mat, p: seq<Vec>)
    requires |p| == 4
  {
    exists s: Vec :: (Det(Frame(p)) != 0.0 ==> Apply(Frame(p), s) == p[3]) && m == Columns(Frame(p), s)
  }

  method Build(p: seq<Vec>) returns (m: Mat)
    requires |p| == 4
    ensures BuiltFrom(m, p)
  {
    var s := Solve(Frame(p), p[3]);
    m := Columns(Frame(p), s);
  }

  function Corners(r: Rectangle): seq<Vec> {
    [Corner(r, 0), Corner(r, 1), Corner(r, 2), Corner(r, 3)]
  }

  function Pixels(clicks: seq<(int, int)>): (p: seq<Vec>)
    ensures |p| == |clicks|
  {
    seq(|clicks|, i requires 0 <= i < |clicks| => Pixel(clicks[i]))
  }

  /** v / v(2), which is finite only if v(2) is not zero. */
  function Normalised(v: Vec): Option<Vec> {
    if v.z == 0.0 then None else Some(Vec(Div(v.x, v.z), Div(v.y, v.z), Div(v.z, v.z)))
  }

  /** ProjectMouseClicks. */
  function Project(m: Mat, v: Vec): Option<Vec> {
    Normalised(Apply(m, v))
  }

  // ---------------------------------------------------------------- four points determine the projection

  ghost predicate Collinear(u: Vec, v: Vec, w: Vec) {
    Det3(u, v, w) == 0.0
  }

  ghost predicate NoThreeCollinear(p: seq<Vec>)
    requires |p| == 4
  {
    !Collinear(p[0], p[1], p[2]) && !Collinear(p[3], p[1], p[2]) && !Collinear(p[0], p[3], p[2]) && !Collinear(p[0], p[1], p[3])
  }

  /** The built matrix is invertible exactly when no three of the points are collinear, whatever the solver did. */
  lemma InvertibleIff(m: Mat, p: seq<Vec>)
    requires |p| == 4 && BuiltFrom(m, p)
    ensures Det(m) != 0.0 <==> NoThreeCollinear(p)
  {
    hide Det3, Apply, Columns;
    var q := Frame(p);
    var s: Vec :| (Det(q) != 0.0 ==> Apply(q, s) == p[3]) && m == Columns(q, s);
    DetColumns(q, s);
    if Det(q) != 0.0 {
      Coordinates(q, s);
      ZeroProduct(s.x, Det(q));
      ZeroProduct(s.y, Det(q));
      ZeroProduct(s.z, Det(q));
    }
    ZeroProduct(s.x * s.y * s.z, Det(q));
    ZeroProduct(s.x * s.y, s.z);
    ZeroProduct(s.x, s.y);
  }

  lemma ZeroProduct(a: real, b: real)
    ensures a * b == 0.0 <==> a == 0.0 || b == 0.0
  {
    if a * b == 0.0 && b != 0.0 {
      assert a == a * b / b;
    }
  }

  const UNIT := [Vec(1.0, 0.0, 0.0), Vec(0.0, 1.0, 0.0), Vec(0.0, 0.0, 1.0), Vec(1.0, 1.0, 1.0)]

  /** An invertible built matrix sends the unit vectors to multiples of the first three points, and (1,1,1) to the fourth. */
  lemma BuiltMaps(m: Mat, p: seq<Vec>) returns (s: Vec)
    requires |p| == 4 && BuiltFrom(m, p) && Det(m) != 0.0
    ensures s.x != 0.0 && s.y != 0.0 && s.z != 0.0 && Det(Frame(p)) != 0.0 && m == Columns(Frame(p), s)
    ensures Apply(m, UNIT[0]) == Scale(s.x, p[0]) && Apply(m, UNIT[1]) == Scale(s.y, p[1])
    ensures Apply(m, UNIT[2]) == Scale(s.z, p[2]) && Apply(m, UNIT[3]) == p[3] && Apply(Frame(p), s) == p[3]
  {
    hide Det3, Apply, Columns;
    var q := Frame(p);
    s :| (Det(q) != 0.0 ==> Apply(q, s) == p[3]) && m == Columns(q, s);
    DetColumns(q, s);
    ZeroProduct(s.x * s.y * s.z, Det(q));
    ZeroProduct(s.x * s.y, s.z);
    ZeroProduct(s.x, s.y);
    UnitMaps(q, s);
  }

  lemma UnitMaps(q: Mat, s: Vec)
    ensures var m := Columns(q, s);
            && Apply(m, UNIT[0]) == Scale(s.x, q.a) && Apply(m, UNIT[1]) == Scale(s.y, q.b)
            && Apply(m, UNIT[2]) == Scale(s.z, q.c) && Apply(m, UNIT[3]) == Apply(q, s)
  {
    hide Apply, Columns;
    ApplyColumns(q, s, UNIT[0]);
    ApplyColumns(q, s, UNIT[1]);
    ApplyColumns(q, s, UNIT[2]);
    ApplyColumns(q, s, UNIT[3]);
    Axis(q, s.x);
    Axis(q, s.y);
    Axis(q, s.z);
  }

  lemma Axis(m: Mat, k: real)
    ensures Apply(m, Vec(k, 0.0, 0.0)) == Scale(k, m.a)
    ensures Apply(m, Vec(0.0, k, 0.0)) == Scale(k, m.b)
    ensures Apply(m, Vec(0.0, 0.0, k)) == Scale(k, m.c)
  {
    hide Dot, Mul;
    DotAxis(k, m.a.x, m.b.x, m.c.x);
    DotAxis(k, m.a.y, m.b.y, m.c.y);
    DotAxis(k, m.a.z, m.b.z, m.c.z);
  }

  /** One point: the projection sends a point to the normalised image of the same unit vector. */
  lemma OnePoint(a: Mat, b: Mat, r: Mat, e: Vec, s: real, t: real, pixel: Vec, corner: Vec)
    requires Det(b) != 0.0 && Times(b, r) == IDENTITY && t != 0.0 && s != 0.0 && corner.z == 1.0
    requires Apply(b, e) == Scale(t, pixel) && Apply(a, e) == Scale(s, corner)
    ensures Apply(Times(a, r), pixel) == Scale(s / t, corner) && s / t != 0.0
    ensures Project(Times(a, r), pixel) == Some(corner)
  {
    hide Det3, Apply;
    ApplyTimes(b, r, pixel);
    ApplyIdentity(pixel);
    ApplyScale(b, 1.0 / t, e);
    ScaleBack(t, pixel);
    Injective(b, Apply(r, pixel), Scale(1.0 / t, e));
    ApplyTimes(a, r, pixel);
    ApplyScale(a, 1.0 / t, e);
    ScaleTwice(1.0 / t, s, corner);
    NormalisedScale(s / t, corner);
  }

  lemma ScaleBack(t: real, v: Vec)
    requires t != 0.0
    ensures Scale(1.0 / t, Scale(t, v)) == v
  {
    hide Mul;
    Unscale(t, v.x);
    Unscale(t, v.y);
    Unscale(t, v.z);
  }

  lemma Unscale(t: real, x: real)
    requires t != 0.0
    ensures Mul(1.0 / t, Mul(t, x)) == x
  {
    assert 1.0 / t * t == 1.0;
    assert 1.0 / t * (t * x) == 1.0 / t * t * x;
  }

  lemma ScaleTwice(a: real, s: real, v: Vec)
    ensures Scale(a, Scale(s, v)) == Scale(Mul(s, a), v)
  {
    hide Mul;
    Reorder(a, s, v.x);
    Reorder(a, s, v.y);
    Reorder(a, s, v.z);
  }

  lemma Reorder(a: real, s: real, x: real)
    ensures Mul(a, Mul(s, x)) == Mul(Mul(s, a), x)
  {
  }

  lemma NormalisedScale(k: real, v: Vec)
    requires k != 0.0 && v.z == 1.0
    ensures Normalised(Scale(k, v)) == Some(v)
  {
    hide Mul, Div;
    Requotient(k, v.x);
    Requotient(k, v.y);
    Requotient(k, 1.0);
  }

  lemma Requotient(k: real, x: real)
    requires k != 0.0
    ensures Mul(k, 1.0) == k && Div(Mul(k, x), k) == x
  {
  }

  /** The rectangle's scale vector is (1, -1, 1), and its matrix is invertible. */
  lemma RectangleScale(r: Rectangle, m: Mat)
    requires BuiltFrom(m, Corners(r)) && r.width != 0.0 && r.height != 0.0
    ensures m == Columns(Frame(Corners(r)), Vec(1.0, -1.0, 1.0)) && Det(m) != 0.0
  {
    var q := Frame(Corners(r));
    var one := Vec(1.0, -1.0, 1.0);
    RectangleDet(r);
    var s: Vec :| (Det(q) != 0.0 ==> Apply(q, s) == Corners(r)[3]) && m == Columns(q, s);
    assert Apply(q, one) == Corner(r, 3);
    Injective(q, s, one);
    DetColumns(q, one);
  }

  lemma RectangleDet(r: Rectangle)
    requires r.width != 0.0 && r.height != 0.0
    ensures Det(Frame(Corners(r))) != 0.0
  {
    assert Det(Frame(Corners(r))) == r.width * r.height;
    ZeroProduct(r.width, r.height);
  }

  /** What Save makes of the two matrices. */
  ghost predicate SavedFrom(p: Mat, a: Mat, b: Mat) {
    exists r: Mat :: (Det(b) != 0.0 ==> Times(b, r) == IDENTITY) && p == Times(a, r)
  }

  /**
   * Four-point correctness: with a proper rectangle and no three clicks collinear, projecting each click with the
   * saved matrix divides by no zero and gives exactly its corner.
   */
  lemma ClicksProjectToCorners(rect: Rectangle, clicks: seq<(int, int)>, a: Mat, b: Mat, p: Mat)
    requires |clicks| == 4 && BuiltFrom(a, Corners(rect)) && BuiltFrom(b, Pixels(clicks)) && SavedFrom(p, a, b)
    requires rect.width != 0.0 && rect.height != 0.0 && NoThreeCollinear(Pixels(clicks))
    ensures Det(b) != 0.0
    ensures forall k :: 0 <= k < 4 ==> Project(p, Pixel(clicks[k])) == Some(Corner(rect, k))
  {
    hide Det3, Apply, Project, NoThreeCollinear, Columns, BuiltFrom;
    var pixels, corners := Pixels(clicks), Corners(rect);
    InvertibleIff(b, pixels);
    RectangleScale(rect, a);
    var r: Mat :| (Det(b) != 0.0 ==> Times(b, r) == IDENTITY) && p == Times(a, r);
    var s := BuiltMaps(a, corners);
    var t := BuiltMaps(b, pixels);
    ScaleByOne(corners[3]);
    ScaleByOne(pixels[3]);
    OnePoint(a, b, r, UNIT[0], s.x, t.x, pixels[0], corners[0]);
    OnePoint(a, b, r, UNIT[1], s.y, t.y, pixels[1], corners[1]);
    OnePoint(a, b, r, UNIT[2], s.z, t.z, pixels[2], corners[2]);
    OnePoint(a, b, r, UNIT[3], 1.0, 1.0, pixels[3], corners[3]);
  }

  lemma ScaleByOne(v: Vec)
    ensures Scale(1.0, v) == v
  {
  }

  // ---------------------------------------------------------------- and no other projection does it

  /** m sends every clicked pixel to a nonzero multiple of its corner. */
  ghost predicate MapsClicks(m: Mat, pixels: seq<Vec>, corners: seq<Vec>, l: seq<real>) {
    && |pixels| == |corners| == |l| == 4
    && forall k :: 0 <= k < 4 ==> l[k] != 0.0 && Apply(m, pixels[k]) == Scale(l[k], corners[k])
  }

  /** The four multiples fit together only one way: they are one common factor times s / t. */
  lemma FactorsAgree(m: Mat, b: Mat, q: Mat, corner: Vec, s: Vec, t: Vec, u: Vec, pixels: seq<Vec>, corners: seq<Vec>, l: seq<real>)
    requires |corners| == 4 && q == Frame(corners) && Det(q) != 0.0 && Apply(q, s) == corners[3]
    requires MapsClicks(m, pixels, corners, l)
    requires b == Columns(Frame(pixels), t) && Apply(b, UNIT[3]) == pixels[3]
    requires u == Vec(Mul(t.x, l[0]), Mul(t.y, l[1]), Mul(t.z, l[2]))
    ensures u == Scale(l[3], s)
    ensures forall v: Vec :: Apply(m, Apply(b, v)) == Apply(Columns(q, u), v)
  {
    hide Det3, Apply;
    var mb := Times(m, b);
    assert mb == Columns(q, u) by {
      hide Mul;
      ApplyScale(m, t.x, pixels[0]);
      ApplyScale(m, t.y, pixels[1]);
      ApplyScale(m, t.z, pixels[2]);
      ScaleTwice(t.x, l[0], corners[0]);
      ScaleTwice(t.y, l[1], corners[1]);
      ScaleTwice(t.z, l[2], corners[2]);
      Commute(t, l);
    }
    forall v: Vec ensures Apply(m, Apply(b, v)) == Apply(Columns(q, u), v) {
      ApplyTimes(m, b, v);
    }
    UnitMaps(q, u);
    ApplyScale(q, l[3], s);
    Injective(q, u, Scale(l[3], s));
  }

  lemma Commute(t: Vec, l: seq<real>)
    requires |l| == 4
    ensures Mul(l[0], t.x) == Mul(t.x, l[0]) && Mul(l[1], t.y) == Mul(t.y, l[1]) && Mul(l[2], t.z) == Mul(t.z, l[2])
  {
  }

  /**
   * Up to a factor the saved matrix is the only one that maps the four clicks to the four corners: any other such
   * matrix gives a multiple of its image for every pixel.
   */
  lemma ProjectionIsUnique(rect: Rectangle, clicks: seq<(int, int)>, a: Mat, b: Mat, p: Mat, m: Mat, l: seq<real>, v: Vec)
    requires |clicks| == 4 && BuiltFrom(a, Corners(rect)) && BuiltFrom(b, Pixels(clicks)) && SavedFrom(p, a, b)
    requires rect.width != 0.0 && rect.height != 0.0 && NoThreeCollinear(Pixels(clicks))
    requires MapsClicks(m, Pixels(clicks), Corners(rect), l)
    ensures Apply(m, v) == Scale(l[3], Apply(p, v))
  {
    hide Det3, Apply, NoThreeCollinear, BuiltFrom, MapsClicks, Columns;
    var pixels, corners := Pixels(clicks), Corners(rect);
    InvertibleIff(b, pixels);
    RectangleScale(rect, a);
    var r: Mat :| (Det(b) != 0.0 ==> Times(b, r) == IDENTITY) && p == Times(a, r);
    var s := BuiltMaps(a, corners);
    var t := BuiltMaps(b, pixels);
    assert |l| == 4 by { MapsFour(m, pixels, corners, l); }
    var u := Vec(Mul(t.x, l[0]), Mul(t.y, l[1]), Mul(t.z, l[2]));
    FactorsAgree(m, b, Frame(corners), corners[3], s, t, u, pixels, corners, l);
    // v is b applied to r * v
    ApplyTimes(b, r, v);
    ApplyIdentity(v);
    ApplyTimes(a, r, v);
    ColumnsScale(Frame(corners), l[3], s, Apply(r, v));
  }

  lemma MapsFour(m: Mat, pixels: seq<Vec>, corners: seq<Vec>, l: seq<real>)
    requires MapsClicks(m, pixels, corners, l)
    ensures |l| == 4
  {
  }

  lemma ColumnsScale(q: Mat, k: real, s: Vec, w: Vec)
    ensures Apply(Columns(q, Scale(k, s)), w) == Scale(k, Apply(Columns(q, s), w))
  {
    hide Mul, Apply, Columns;
    ApplyColumns(q, Scale(k, s), w);
    ApplyColumns(q, s, w);
    var sw := Vec(Mul(s.x, w.x), Mul(s.y, w.y), Mul(s.z, w.z));
    ApplyScale(q, k, sw);
    Regroup(k, s, w);
  }

  lemma Regroup(k: real, s: Vec, w: Vec)
    ensures Mul(Mul(k, s.x), w.x) == Mul(k, Mul(s.x, w.x))
    ensures Mul(Mul(k, s.y), w.y) == Mul(k, Mul(s.y, w.y))
    ensures Mul(Mul(k, s.z), w.z) == Mul(k, Mul(s.z, w.z))
  {
  }

  // ---------------------------------------------------------------- the tool

  datatype Event = LeftDown(x: int, y: int) | RightDown | OtherEvent

  /** The clicks collected so far: up to four, a right click starts over. */
  function Collect(clicks: seq<(int, int)>, e: Event): seq<(int, int)> {
    match e
    case LeftDown(x, y) => if |clicks| < 4 then clicks + [(x, y)] else clicks
    case RightDown => []
    case OtherEvent => clicks
  }

  function CollectAll(events: seq<Event>): (clicks: seq<(int, int)>)
    ensures |clicks| <= 4
  {
    if events == [] then [] else Collect(CollectAll(events[..|events| - 1]), events[|events| - 1])
  }

  class MouseParams {
    var points: array2<int>
    var count: nat

    constructor ()
      ensures fresh(points) && Valid() && count == 0
    {
      points := new int[2, 4];
      count := 0;
    }

    ghost predicate Valid()
      reads this
    {
      points.Length0 == 2 && points.Length1 == 4 && count <= 4
    }

    function ClicksUpTo(n: nat): seq<(int, int)>
      requires points.Length0 == 2 && points.Length1 == 4 && n <= 4
      reads this, points
    {
      seq(n, i requires 0 <= i < n && points.Length0 == 2 && points.Length1 == 4 && n <= 4 reads this, points =>
        (points[0, i], points[1, i]))
    }

    /** LogMouseClicks */
    method Log(e: Event)
      requires Valid()
      modifies this`count, points
      ensures Valid() && points == old(points)
      ensures ClicksUpTo(count) == Collect(old(ClicksUpTo(count)), e)
    {
      match e {
        case LeftDown(x, y) =>
          if count < 4 {
            points[0, count] := x;
            points[1, count] := y;
            count := count + 1;
          }
        case RightDown => count := 0;
        case OtherEvent =>
      }
    }
  }

  class CameraProjection {
    var recHeight: real
    var recWidth: real
    var recPosX: real
    var recPosY: real
    var aMatrix: Mat
    var bMatrix: Mat
    var projectionMatrix: Mat

    function Rect(): Rectangle
      reads this`recWidth, this`recHeight, this`recPosX, this`recPosY
    {
      Rectangle(recWidth, recHeight, recPosX, recPosY)
    }

    /** Four values configure the rectangle and its matrix; any other number of values is ignored. */
    method Config(param: seq<real>)
      modifies this`recHeight, this`recWidth, this`recPosX, this`recPosY, this`aMatrix
      ensures if |param| == 4 then
                Rect() == Rectangle(param[0], param[1], param[2], param[3]) && BuiltFrom(aMatrix, Corners(Rect()))
              else Rect() == old(Rect()) && aMatrix == old(aMatrix)
    {
      hide BuiltFrom;
      if |param| != 4 { return; }
      recWidth, recHeight, recPosX, recPosY := param[0], param[1], param[2], param[3];
      aMatrix := Build([Vec(recPosX, recPosY + recWidth, 1.0), Vec(recPosX, recPosY, 1.0), Vec(recPosX + recHeight, recPosY, 1.0),
                        Vec(recPosX + recHeight, recPosY + recWidth, 1.0)]);
    }

    /** The mouse events until a key is pressed; fewer than four clicks cancel the calibration. */
    method Calibrate(events: seq<Event>)
      modifies this`bMatrix
      ensures var clicks := CollectAll(events);
              if |clicks| == 4 then BuiltFrom(bMatrix, Pixels(clicks)) else bMatrix == old(bMatrix)
    {
      hide BuiltFrom, CollectAll, Collect;
      var mouseClick := new MouseParams();
      CollectNone();
      for i := 0 to |events|
        invariant bMatrix == old(bMatrix) && mouseClick.Valid() && fresh(mouseClick) && fresh(mouseClick.points)
        invariant mouseClick.ClicksUpTo(mouseClick.count) == CollectAll(events[..i])
      {
        mouseClick.Log(events[i]);
        CollectStep(events, i);
      }
      assert events[..|events|] == events;
      if mouseClick.count > 3 {
        var p := Pixels(mouseClick.ClicksUpTo(4));
        bMatrix := Build([p[0], p[1], p[2], p[3]]);
        assert [p[0], p[1], p[2], p[3]] == p;
      }
    }

    method Save()
      modifies this`projectionMatrix
      ensures SavedFrom(projectionMatrix, aMatrix, bMatrix)
    {
      var inverse := Inverse(bMatrix);
      projectionMatrix := Times(aMatrix, inverse);
    }
  }

  lemma CollectNone()
    ensures CollectAll([]) == []
  {
  }

  lemma CollectStep(events: seq<Event>, i: nat)
    requires i < |events|
    ensures CollectAll(events[..i + 1]) == Collect(CollectAll(events[..i]), events[i])
  {
    assert events[..i + 1][..i] == events[..i];
  }

  // ---------------------------------------------------------------- which clicks count

  /** The events from `start` on lie behind the last right click. */
  ghost predicate LastRound(events: seq<Event>, start: nat) {
    && start <= |events| && (start > 0 ==> events[start - 1].RightDown?)
    && forall i :: start <= i < |events| ==> !events[i].RightDown?
  }

  /** `at` are the positions of the first left clicks in events[start..end], in order; all of them, or four. */
  ghost predicate FirstLefts(events: seq<Event>, start: nat, end: nat, at: seq<nat>) {
    && end <= |events| && |at| <= 4
    && (forall k :: 0 <= k < |at| ==> start <= at[k] < end && events[at[k]].LeftDown?)
    && (forall j, k :: 0 <= j < k < |at| ==> at[j] < at[k])
    && (forall i :: start <= i < end && events[i].LeftDown? && i !in at ==> |at| == 4 && at[3] < i)
  }

  /** The pixels of the events at these positions. */
  ghost predicate PixelsAt(clicks: seq<(int, int)>, events: seq<Event>, at: seq<nat>) {
    && |clicks| == |at|
    && forall k :: 0 <= k < |at| ==>
      at[k] < |events| && events[at[k]].LeftDown? && clicks[k].0 == events[at[k]].x && clicks[k].1 == events[at[k]].y
  }

  /** How many of these positions lie below n. */
  ghost predicate Below(at: seq<nat>, n: nat, m: nat) {
    m <= |at| && (forall k :: 0 <= k < m ==> at[k] < n) && (forall k :: m <= k < |at| ==> at[k] >= n)
  }

  lemma NoneBelow(events: seq<Event>, start: nat, at: seq<nat>)
    requires LastRound(events, start) && FirstLefts(events, start, |events|, at)
    ensures Below(at, start, 0) && CollectAll(events[..start]) == []
  {
    if start > 0 {
      CollectStep(events, start - 1);
    }
  }

  /** Which of the positions event n is, if any. */
  lemma PlaceOf(events: seq<Event>, start: nat, at: seq<nat>, n: nat, m: nat)
    requires FirstLefts(events, start, |events|, at) && start <= n < |events| && Below(at, n, m)
    ensures events[n].LeftDown? && m < |at| ==> at[m] == n
    ensures events[n].LeftDown? && m == |at| ==> |at| == 4
    ensures !events[n].LeftDown? && m < |at| ==> at[m] != n
  {
    if events[n].LeftDown? && n in at {
      var k :| 0 <= k < |at| && at[k] == n;
      assert k >= m;
    }
  }

  /** What one more event collects. */
  lemma OneMoreBelow(events: seq<Event>, start: nat, at: seq<nat>, n: nat, m: nat) returns (m': nat)
    requires LastRound(events, start) && FirstLefts(events, start, |events|, at)
    requires start <= n < |events| && Below(at, n, m) && PixelsAt(CollectAll(events[..n]), events, at[..m])
    ensures Below(at, n + 1, m') && PixelsAt(CollectAll(events[..n + 1]), events, at[..m'])
  {
    hide CollectAll;
    CollectStep(events, n);
    PlaceOf(events, start, at, n, m);
    assert !events[n].RightDown?;
    var clicks := CollectAll(events[..n]);
    assert |clicks| == m;
    if events[n].LeftDown? && m < |at| {
      m' := m + 1;
      assert at[..m'] == at[..m] + [n];
      OnePixelMore(events, clicks, at[..m], n);
    } else {
      m' := m;
    }
  }

  lemma OnePixelMore(events: seq<Event>, clicks: seq<(int, int)>, at: seq<nat>, n: nat)
    requires PixelsAt(clicks, events, at) && n < |events| && events[n].LeftDown?
    ensures PixelsAt(clicks + [(events[n].x, events[n].y)], events, at + [n])
  {
  }

  /**
   * The collected clicks are the coordinates, in order, of the first four left clicks behind the last right click, or
   * of all of them if there are fewer.
   */
  lemma CollectedAt(events: seq<Event>, start: nat, at: seq<nat>)
    requires LastRound(events, start) && FirstLefts(events, start, |events|, at)
    ensures PixelsAt(CollectAll(events), events, at)
  {
    hide CollectAll, PixelsAt, FirstLefts;
    NoneBelow(events, start, at);
    var n: nat, m: nat := start, 0;
    NoPixels(events);
    assert at[..0] == [];
    while n < |events|
      invariant start <= n <= |events| && Below(at, n, m) && PixelsAt(CollectAll(events[..n]), events, at[..m])
    {
      m := OneMoreBelow(events, start, at, n, m);
      n := n + 1;
    }
    assert events[..n] == events;
    AllBelow(events, start, at, m);
  }

  lemma NoPixels(events: seq<Event>)
    ensures PixelsAt([], events, [])
  {
  }

  lemma AllBelow(events: seq<Event>, start: nat, at: seq<nat>, m: nat)
    requires FirstLefts(events, start, |events|, at) && Below(at, |events|, m)
    ensures at[..m] == at
  {
    if m < |at| {
      EndsBefore(events, start, at, m);
    }
  }

  lemma EndsBefore(events: seq<Event>, start: nat, at: seq<nat>, k: nat)
    requires FirstLefts(events, start, |events|, at) && k < |at|
    ensures at[k] < |events|
  {
  }

  /** There always are such positions. */
  lemma {:induction false} ClickPositions(events: seq<Event>) returns (start: nat, at: seq<nat>)
    ensures LastRound(events, start) && FirstLefts(events, start, |events|, at)
    decreases |events|
  {
    hide LastRound, FirstLefts;
    if events == [] {
      NoRound();
      return 0, [];
    }
    var before, e := events[..|events| - 1], events[|events| - 1];
    assert before + [e] == events;
    if e.RightDown? {
      NewRound(before, e);
      return |events|, [];
    }
    var at': seq<nat>;
    start, at' := ClickPositions(before);
    MoreEvents(before, e, start, at');
    at := if e.LeftDown? && |at'| < 4 then at' + [|before|] else at';
  }

  lemma NoRound()
    ensures LastRound([], 0) && FirstLefts([], 0, 0, [])
  {
  }

  lemma NewRound(before: seq<Event>, e: Event)
    requires e.RightDown?
    ensures var events := before + [e]; LastRound(events, |events|) && FirstLefts(events, |events|, |events|, [])
  {
  }

  lemma MoreEvents(before: seq<Event>, e: Event, start: nat, at: seq<nat>)
    requires LastRound(before, start) && FirstLefts(before, start, |before|, at) && !e.RightDown?
    ensures LastRound(before + [e], start)
    ensures var at' := if e.LeftDown? && |at| < 4 then at + [|before|] else at;
            FirstLefts(before + [e], start, |before| + 1, at')
  {
    var events := before + [e];
    var at' := if e.LeftDown? && |at| < 4 then at + [|before|] else at;
    forall i | start <= i < |before| + 1 && events[i].LeftDown? && i !in at' ensures |at'| == 4 && at'[3] < i {
      if i < |before| {
        assert before[i] == events[i];
        assert i !in at;
      } else {
        assert |at| == 4;
      }
    }
  }

  /** The pixel of a left click. */
  function ClickedAt(e: Event): Vec
    requires e.LeftDown?
  {
    Vec(e.x as real, e.y as real, 1.0)
  }

  /**
   * The workflow of the tool: configure a proper rectangle, make the four left clicks events[at[k]] behind the last
   * right click, of which no three are collinear, save, and click any of the four points again: the point printed is
   * the rectangle's corner.
   */
  method ConfigureCalibrateSave(tool: CameraProjection, param: seq<real>, events: seq<Event>, ghost start: nat, ghost at: seq<nat>)
    requires |param| == 4 && param[0] != 0.0 && param[1] != 0.0
    requires LastRound(events, start) && FirstLefts(events, start, |events|, at) && |at| == 4
    requires NoThreeCollinear([ClickedAt(events[at[0]]), ClickedAt(events[at[1]]), ClickedAt(events[at[2]]), ClickedAt(events[at[3]])])
    modifies tool
    ensures Project(tool.projectionMatrix, ClickedAt(events[at[0]])) == Some(Vec(param[2], param[3] + param[0], 1.0))
    ensures Project(tool.projectionMatrix, ClickedAt(events[at[1]])) == Some(Vec(param[2], param[3], 1.0))
    ensures Project(tool.projectionMatrix, ClickedAt(events[at[2]])) == Some(Vec(param[2] + param[1], param[3], 1.0))
    ensures Project(tool.projectionMatrix, ClickedAt(events[at[3]])) == Some(Vec(param[2] + param[1], param[3] + param[0], 1.0))
  {
    hide NoThreeCollinear, BuiltFrom, SavedFrom, Project, CollectAll;
    ghost var clicks := CollectAll(events);
    CollectedAt(events, start, at);
    assert |clicks| == 4;
    assert Pixels(clicks)
           == [ClickedAt(events[at[0]]), ClickedAt(events[at[1]]), ClickedAt(events[at[2]]), ClickedAt(events[at[3]])];
    tool.Config(param);
    tool.Calibrate(events);
    tool.Save();
    ClicksProjectToCorners(tool.Rect(), clicks, tool.aMatrix, tool.bMatrix, tool.projectionMatrix);
    assert forall k :: 0 <= k < 4 ==> Pixel(clicks[k]) == ClickedAt(events[at[k]]);
  }
}
