/** From a rotation matrix to its quaternion. */
module RotationMatrices {
  import opened Quaternions

  // Entries of a matrix are given row by row below: row a b c, row d e f, row g h i.

  /** A product as a function, so that it can be hidden. */
  function Product(a: real, b: real): real { a * b }

  /** Every entry is its own cofactor. */
  predicate OwnCofactors(a: real, b: real, c: real, d: real, e: real, f: real, g: real, h: real, i: real) {
    && a == e * i - f * h && b == f * g - d * i && c == d * h - e * g
    && d == c * h - b * i && e == a * i - c * g && f == b * g - a * h
    && g == b * f - c * e && h == c * d - a * f && i == a * e - b * d
  }

  /** The rows are orthonormal. */
  predicate Orthonormal(a: real, b: real, c: real, d: real, e: real, f: real, g: real, h: real, i: real) {
    && a * a + b * b + c * c == 1.0 && d * d + e * e + f * f == 1.0 && g * g + h * h + i * i == 1.0
    && a * d + b * e + c * f == 0.0 && a * g + b * h + c * i == 0.0 && d * g + e * h + f * i == 0.0
  }

  lemma PivotW(a: real, b: real, c: real, d: real, e: real, f: real, g: real, h: real, i: real)
    requires OwnCofactors(a, b, c, d, e, f, g, h, i)
    requires Orthonormal(a, b, c, d, e, f, g, h, i) && Orthonormal(a, d, g, b, e, h, c, f, i)
    ensures Product(h - f, h - f) == Product(1.0 + a + e + i, 1.0 + a - e - i)
    ensures Product(h - f, c - g) == Product(1.0 + a + e + i, b + d)
  {
  }

  lemma PivotX(a: real, b: real, c: real, d: real, e: real, f: real, g: real, h: real, i: real)
    requires OwnCofactors(a, b, c, d, e, f, g, h, i)
    requires Orthonormal(a, b, c, d, e, f, g, h, i) && Orthonormal(a, d, g, b, e, h, c, f, i)
    ensures Product(b + d, b + d) == Product(1.0 + a - e - i, 1.0 - a + e - i)
    ensures Product(c + g, c + g) == Product(1.0 + a - e - i, 1.0 - a - e + i)
    ensures Product(b + d, c + g) == Product(1.0 + a - e - i, f + h)
    ensures Product(h - f, b + d) == Product(1.0 + a - e - i, c - g)
    ensures Product(h - f, c + g) == Product(1.0 + a - e - i, d - b)
  {
  }

  /** Cofactors of the first row of an orthogonal matrix with determinant 1 are that row. */
  lemma FirstRow(a: real, b: real, c: real, d: real, e: real, f: real, g: real, h: real, i: real,
                 x: real, y: real, z: real)
    requires Orthonormal(a, d, g, b, e, h, c, f, i)
    requires a * x + b * y + c * z == 1.0 && d * x + e * y + f * z == 0.0 && g * x + h * y + i * z == 0.0
    ensures x == a && y == b && z == c
  {
    FirstEntry(a, b, c, d, e, f, g, h, i, x, y, z);
    FirstEntry(b, c, a, e, f, d, h, i, g, y, z, x);
    FirstEntry(c, a, b, f, d, e, i, g, h, z, x, y);
  }

  lemma FirstEntry(a: real, b: real, c: real, d: real, e: real, f: real, g: real, h: real, i: real,
                   x: real, y: real, z: real)
    requires a * a + d * d + g * g == 1.0 && a * b + d * e + g * h == 0.0 && a * c + d * f + g * i == 0.0
    requires a * x + b * y + c * z == 1.0 && d * x + e * y + f * z == 0.0 && g * x + h * y + i * z == 0.0
    ensures x == a
  {
    Scale(a * x + b * y + c * z, 1.0, a); Scale(d * x + e * y + f * z, 0.0, d); Scale(g * x + h * y + i * z, 0.0, g);
    Scale(a * a + d * d + g * g, 1.0, x); Scale(a * b + d * e + g * h, 0.0, y); Scale(a * c + d * f + g * i, 0.0, z);
  }

  function Determinant(a: real, b: real, c: real, d: real, e: real, f: real, g: real, h: real, i: real): real {
    a * (e * i - f * h) + b * (f * g - d * i) + c * (d * h - e * g)
  }

  /** Expansion along the first row, and the rows that belong to other cofactors. */
  lemma Expansion(a: real, b: real, c: real, d: real, e: real, f: real, g: real, h: real, i: real)
    ensures a * (e * i - f * h) + b * (f * g - d * i) + c * (d * h - e * g) == Determinant(a, b, c, d, e, f, g, h, i)
    ensures d * (e * i - f * h) + e * (f * g - d * i) + f * (d * h - e * g) == 0.0
    ensures g * (e * i - f * h) + h * (f * g - d * i) + i * (d * h - e * g) == 0.0
  {
  }

  lemma FirstRowIsCofactors(a: real, b: real, c: real, d: real, e: real, f: real, g: real, h: real, i: real)
    requires Orthonormal(a, d, g, b, e, h, c, f, i) && Determinant(a, b, c, d, e, f, g, h, i) == 1.0
    ensures a == e * i - f * h && b == f * g - d * i && c == d * h - e * g
  {
    Expansion(a, b, c, d, e, f, g, h, i);
    hide Determinant, Orthonormal;
    FirstRow(a, b, c, d, e, f, g, h, i, e * i - f * h, f * g - d * i, d * h - e * g);
  }

  /** The rows can be turned. */
  lemma Turned(a: real, b: real, c: real, d: real, e: real, f: real, g: real, h: real, i: real)
    requires Orthonormal(a, d, g, b, e, h, c, f, i)
    ensures Orthonormal(d, g, a, e, h, b, f, i, c)
    ensures Determinant(a, b, c, d, e, f, g, h, i) == Determinant(d, e, f, g, h, i, a, b, c)
  {
  }

  lemma RotationOwnsCofactors(a: real, b: real, c: real, d: real, e: real, f: real, g: real, h: real, i: real)
    requires Orthonormal(a, d, g, b, e, h, c, f, i) && Determinant(a, b, c, d, e, f, g, h, i) == 1.0
    ensures OwnCofactors(a, b, c, d, e, f, g, h, i)
  {
    hide Determinant, Orthonormal;
    FirstRowIsCofactors(a, b, c, d, e, f, g, h, i);
    Turned(a, b, c, d, e, f, g, h, i);
    FirstRowIsCofactors(d, e, f, g, h, i, a, b, c);
    Turned(d, e, f, g, h, i, a, b, c);
    FirstRowIsCofactors(g, h, i, a, b, c, d, e, f);
  }

  /** An orthogonal matrix with determinant 1. */
  predicate IsRotation(m: Mat3) {
    && Orthogonal(m)
    && Determinant(m.a0.x, m.a1.x, m.a2.x, m.a0.y, m.a1.y, m.a2.y, m.a0.z, m.a1.z, m.a2.z) == 1.0
  }

  lemma RotationEntries(m: Mat3)
    requires IsRotation(m)
    ensures Orthonormal(m.a0.x, m.a1.x, m.a2.x, m.a0.y, m.a1.y, m.a2.y, m.a0.z, m.a1.z, m.a2.z)
    ensures Orthonormal(m.a0.x, m.a0.y, m.a0.z, m.a1.x, m.a1.y, m.a1.z, m.a2.x, m.a2.y, m.a2.z)
    ensures OwnCofactors(m.a0.x, m.a1.x, m.a2.x, m.a0.y, m.a1.y, m.a2.y, m.a0.z, m.a1.z, m.a2.z)
  {
    hide Determinant;
    var t := m.Transpose();
    assert m.Mul(t) == IDENTITY && t.Mul(m) == IDENTITY;
    assert Orthonormal(m.a0.x, m.a0.y, m.a0.z, m.a1.x, m.a1.y, m.a1.z, m.a2.x, m.a2.y, m.a2.z);
    RotationOwnsCofactors(m.a0.x, m.a1.x, m.a2.x, m.a0.y, m.a1.y, m.a2.y, m.a0.z, m.a1.z, m.a2.z);
  }

  // ----- the quaternion -----

  /** What sqrtf is taken to be. */
  ghost predicate IsSquareRoot(sqrt: real -> real) {
    forall v: real | v >= 0.0 :: sqrt(v) >= 0.0 && sqrt(v) * sqrt(v) == v
  }

  /** Four times the products of the components of a unit quaternion are these entries of its matrix. */
  predicate ProductsAre(q: Quat, m: Mat3) {
    && 4.0 * Product(q.w, q.w) == 1.0 + m.a0.x + m.a1.y + m.a2.z
    && 4.0 * Product(q.x, q.x) == 1.0 + m.a0.x - m.a1.y - m.a2.z
    && 4.0 * Product(q.y, q.y) == 1.0 - m.a0.x + m.a1.y - m.a2.z
    && 4.0 * Product(q.z, q.z) == 1.0 - m.a0.x - m.a1.y + m.a2.z
    && 4.0 * Product(q.w, q.x) == m.a1.z - m.a2.y && 4.0 * Product(q.y, q.z) == m.a1.z + m.a2.y
    && 4.0 * Product(q.w, q.y) == m.a2.x - m.a0.z && 4.0 * Product(q.x, q.z) == m.a2.x + m.a0.z
    && 4.0 * Product(q.w, q.z) == m.a0.y - m.a1.x && 4.0 * Product(q.x, q.y) == m.a0.y + m.a1.x
  }

  lemma FormsAreProducts(a: real, b: real, c: real, d: real)
    ensures Diagonal(a, b) == 1.0 - 2.0 * Product(a, a) - 2.0 * Product(b, b)
    ensures TwiceSum(a, b, c, d) == 2.0 * Product(a, b) + 2.0 * Product(c, d)
    ensures TwiceDifference(a, b, c, d) == 2.0 * Product(a, b) - 2.0 * Product(c, d)
    ensures Squares(a, b, c, d) == Product(a, a) + Product(b, b) + Product(c, c) + Product(d, d)
    ensures Product(a, b) == Product(b, a) && Product(c, d) == Product(d, c)
  {
  }

  /** The products determine the matrix, and are determined by it. */
  lemma ProductsGiveMatrix(q: Quat, m: Mat3)
    ensures ProductsAre(q, m) <==> Unit(q) && q.GetMatrix() == m
  {
    hide Product, Diagonal, TwiceSum, TwiceDifference, Squares;
    FormsAreProducts(q.w, q.x, q.y, q.z);
    FormsAreProducts(q.x, q.y, q.z, q.w);
    FormsAreProducts(q.x, q.z, q.y, q.w);
    FormsAreProducts(q.y, q.z, q.x, q.w);
  }

  function Negated(q: Quat): Quat { Quat(-q.w, -q.x, -q.y, -q.z) }

  lemma SameProducts(a: real, b: real, c: real, d: real)
    requires Product(a, c) == Product(b, d) && Product(a, a) == Product(b, b) && a != 0.0
    ensures b == a || b == -a
    ensures b == a ==> d == c
    ensures b == -a ==> d == -c
  {
    assert (a - b) * (a + b) == 0.0;
    if b == a { assert a * (c - d) == 0.0; }
    if b == -a { assert a * (c + d) == 0.0; }
  }

  lemma ProductsCommute(q: Quat)
    ensures Product(q.x, q.w) == Product(q.w, q.x) && Product(q.y, q.w) == Product(q.w, q.y)
    ensures Product(q.z, q.w) == Product(q.w, q.z) && Product(q.y, q.x) == Product(q.x, q.y)
    ensures Product(q.z, q.x) == Product(q.x, q.z) && Product(q.z, q.y) == Product(q.y, q.z)
    ensures q.w == q.x == q.y == q.z == 0.0 ==> q.Norm2() == 0.0
  {
  }

  /** The matrix determines the quaternion but for its sign. */
  lemma SameMatrix(p: Quat, q: Quat)
    requires Unit(p) && Unit(q) && p.GetMatrix() == q.GetMatrix()
    ensures q == p || q == Negated(p)
  {
    hide Quat.GetMatrix, Product, Quat.Norm2;
    ProductsGiveMatrix(p, p.GetMatrix());
    ProductsGiveMatrix(q, p.GetMatrix());
    ProductsCommute(p); ProductsCommute(q);
    if p.w != 0.0 {
      SameProducts(p.w, q.w, p.x, q.x); SameProducts(p.w, q.w, p.y, q.y); SameProducts(p.w, q.w, p.z, q.z);
    } else if p.x != 0.0 {
      SameProducts(p.x, q.x, p.w, q.w); SameProducts(p.x, q.x, p.y, q.y); SameProducts(p.x, q.x, p.z, q.z);
    } else if p.y != 0.0 {
      SameProducts(p.y, q.y, p.w, q.w); SameProducts(p.y, q.y, p.x, q.x); SameProducts(p.y, q.y, p.z, q.z);
    } else {
      SameProducts(p.z, q.z, p.w, q.w); SameProducts(p.z, q.z, p.x, q.x); SameProducts(p.z, q.z, p.y, q.y);
    }
  }

  // ----- getQuaternion -----

  /** The divisor for the largest component, whose square is p / 4. */
  lemma DivisorIsLarge(sqrt: real -> real, p: real)
    requires IsSquareRoot(sqrt) && p >= 1.0
    ensures sqrt(p) * 2.0 >= 2.0 && Product(sqrt(p) * 2.0, sqrt(p) * 2.0) == 4.0 * p
    ensures 4.0 * Product(0.25 * (sqrt(p) * 2.0), 0.25 * (sqrt(p) * 2.0)) == p
  {
    var r := sqrt(p);
    assert r * r == p;
    if r < 1.0 { SmallerTimes(r, 1.0, r); }
  }

  lemma SmallerTimes(a: real, b: real, c: real)
    requires a <= b && c >= 0.0
    ensures a * c <= b * c
  {
  }

  lemma Quotients(u: real, v: real, uv: real, p: real, s: real)
    requires s >= 2.0 && Product(s, s) == 4.0 * p && Product(u, v) == Product(p, uv)
    ensures 4.0 * Product(u / s, v / s) == uv
  {
    var x, y := u / s, v / s;
    assert x * s == u && y * s == v;
    ProductOfScaled(x, y, s);
    assert Product(u, v) == Product(4.0 * p, x * y) by { assert Product(u, v) == (x * s) * (y * s); }
    assert p * (4.0 * (x * y) - uv) == 0.0;
  }

  lemma ProductOfScaled(x: real, y: real, s: real)
    ensures (x * s) * (y * s) == Product(Product(s, s), x * y)
  {
  }

  lemma QuotientTimesPivot(u: real, s: real)
    requires s >= 2.0
    ensures 4.0 * Product(0.25 * s, u / s) == u == 4.0 * Product(u / s, 0.25 * s)
  {
    assert (u / s) * s == u;
  }

  // The squares and products that the branches rely on, for the four largest components.

  ghost predicate PivotIsW(m: Mat3) {
    var p := 1.0 + m.a0.x + m.a1.y + m.a2.z;
    var u, v, t := m.a1.z - m.a2.y, m.a2.x - m.a0.z, m.a0.y - m.a1.x;
    && Product(u, u) == Product(p, 1.0 + m.a0.x - m.a1.y - m.a2.z)
    && Product(v, v) == Product(p, 1.0 - m.a0.x + m.a1.y - m.a2.z)
    && Product(t, t) == Product(p, 1.0 - m.a0.x - m.a1.y + m.a2.z)
    && Product(u, v) == Product(p, m.a0.y + m.a1.x) && Product(u, t) == Product(p, m.a2.x + m.a0.z)
    && Product(v, t) == Product(p, m.a1.z + m.a2.y)
  }

  ghost predicate PivotIsX(m: Mat3) {
    var p := 1.0 + m.a0.x - m.a1.y - m.a2.z;
    var u, v, t := m.a1.z - m.a2.y, m.a0.y + m.a1.x, m.a2.x + m.a0.z;
    && Product(u, u) == Product(p, 1.0 + m.a0.x + m.a1.y + m.a2.z)
    && Product(v, v) == Product(p, 1.0 - m.a0.x + m.a1.y - m.a2.z)
    && Product(t, t) == Product(p, 1.0 - m.a0.x - m.a1.y + m.a2.z)
    && Product(u, v) == Product(p, m.a2.x - m.a0.z) && Product(u, t) == Product(p, m.a0.y - m.a1.x)
    && Product(v, t) == Product(p, m.a1.z + m.a2.y)
  }

  ghost predicate PivotIsY(m: Mat3) {
    var p := 1.0 + m.a1.y - m.a0.x - m.a2.z;
    var u, v, t := m.a2.x - m.a0.z, m.a0.y + m.a1.x, m.a1.z + m.a2.y;
    && Product(u, u) == Product(p, 1.0 + m.a0.x + m.a1.y + m.a2.z)
    && Product(v, v) == Product(p, 1.0 + m.a0.x - m.a1.y - m.a2.z)
    && Product(t, t) == Product(p, 1.0 - m.a0.x - m.a1.y + m.a2.z)
    && Product(u, v) == Product(p, m.a1.z - m.a2.y) && Product(u, t) == Product(p, m.a0.y - m.a1.x)
    && Product(v, t) == Product(p, m.a2.x + m.a0.z)
  }

  ghost predicate PivotIsZ(m: Mat3) {
    var p := 1.0 + m.a2.z - m.a0.x - m.a1.y;
    var u, v, t := m.a0.y - m.a1.x, m.a2.x + m.a0.z, m.a1.z + m.a2.y;
    && Product(u, u) == Product(p, 1.0 + m.a0.x + m.a1.y + m.a2.z)
    && Product(v, v) == Product(p, 1.0 + m.a0.x - m.a1.y - m.a2.z)
    && Product(t, t) == Product(p, 1.0 - m.a0.x + m.a1.y - m.a2.z)
    && Product(u, v) == Product(p, m.a1.z - m.a2.y) && Product(u, t) == Product(p, m.a2.x - m.a0.z)
    && Product(v, t) == Product(p, m.a0.y + m.a1.x)
  }

  lemma ProductCommutes()
    ensures forall x: real, y: real :: Product(x, y) == Product(y, x)
  {
  }

  lemma PivotIsWFor(a: real, b: real, c: real, d: real, e: real, f: real, g: real, h: real, i: real)
    requires OwnCofactors(a, b, c, d, e, f, g, h, i)
    requires Orthonormal(a, b, c, d, e, f, g, h, i) && Orthonormal(a, d, g, b, e, h, c, f, i)
    ensures PivotIsW(Mat3(Vec3(a, d, g), Vec3(b, e, h), Vec3(c, f, i)))
  {
    hide OwnCofactors, Orthonormal, Product;
    ProductCommutes();
    PivotW(a, b, c, d, e, f, g, h, i);
    AxesTurned(a, b, c, d, e, f, g, h, i);
    PivotW(e, f, d, h, i, g, b, c, a);
    AxesTurned(e, f, d, h, i, g, b, c, a);
    PivotW(i, g, h, c, a, b, f, d, e);
  }

  lemma PivotIsXFor(a: real, b: real, c: real, d: real, e: real, f: real, g: real, h: real, i: real)
    requires OwnCofactors(a, b, c, d, e, f, g, h, i)
    requires Orthonormal(a, b, c, d, e, f, g, h, i) && Orthonormal(a, d, g, b, e, h, c, f, i)
    ensures PivotIsX(Mat3(Vec3(a, d, g), Vec3(b, e, h), Vec3(c, f, i)))
  {
    hide OwnCofactors, Orthonormal, Product;
    ProductCommutes();
    PivotW(a, b, c, d, e, f, g, h, i);
    PivotX(a, b, c, d, e, f, g, h, i);
  }

  lemma PivotIsYFor(a: real, b: real, c: real, d: real, e: real, f: real, g: real, h: real, i: real)
    requires OwnCofactors(a, b, c, d, e, f, g, h, i)
    requires Orthonormal(a, b, c, d, e, f, g, h, i) && Orthonormal(a, d, g, b, e, h, c, f, i)
    ensures PivotIsY(Mat3(Vec3(a, d, g), Vec3(b, e, h), Vec3(c, f, i)))
  {
    hide OwnCofactors, Orthonormal, Product;
    ProductCommutes();
    AxesTurned(a, b, c, d, e, f, g, h, i);
    PivotW(e, f, d, h, i, g, b, c, a);
    PivotX(e, f, d, h, i, g, b, c, a);
  }

  lemma PivotIsZFor(a: real, b: real, c: real, d: real, e: real, f: real, g: real, h: real, i: real)
    requires OwnCofactors(a, b, c, d, e, f, g, h, i)
    requires Orthonormal(a, b, c, d, e, f, g, h, i) && Orthonormal(a, d, g, b, e, h, c, f, i)
    ensures PivotIsZ(Mat3(Vec3(a, d, g), Vec3(b, e, h), Vec3(c, f, i)))
  {
    hide OwnCofactors, Orthonormal, Product;
    ProductCommutes();
    AxesTurned(a, b, c, d, e, f, g, h, i);
    AxesTurned(e, f, d, h, i, g, b, c, a);
    PivotW(i, g, h, c, a, b, f, d, e);
    PivotX(i, g, h, c, a, b, f, d, e);
  }

  lemma RotationHasPivots(m: Mat3)
    requires IsRotation(m)
    ensures PivotIsW(m) && PivotIsX(m) && PivotIsY(m) && PivotIsZ(m)
  {
    RotationEntries(m);
    hide IsRotation, OwnCofactors, Orthonormal, PivotIsW, PivotIsX, PivotIsY, PivotIsZ;
    PivotIsWFor(m.a0.x, m.a1.x, m.a2.x, m.a0.y, m.a1.y, m.a2.y, m.a0.z, m.a1.z, m.a2.z);
    PivotIsXFor(m.a0.x, m.a1.x, m.a2.x, m.a0.y, m.a1.y, m.a2.y, m.a0.z, m.a1.z, m.a2.z);
    PivotIsYFor(m.a0.x, m.a1.x, m.a2.x, m.a0.y, m.a1.y, m.a2.y, m.a0.z, m.a1.z, m.a2.z);
    PivotIsZFor(m.a0.x, m.a1.x, m.a2.x, m.a0.y, m.a1.y, m.a2.y, m.a0.z, m.a1.z, m.a2.z);
  }

  lemma AxesTurned(a: real, b: real, c: real, d: real, e: real, f: real, g: real, h: real, i: real)
    requires OwnCofactors(a, b, c, d, e, f, g, h, i)
    requires Orthonormal(a, b, c, d, e, f, g, h, i) && Orthonormal(a, d, g, b, e, h, c, f, i)
    ensures OwnCofactors(e, f, d, h, i, g, b, c, a)
    ensures Orthonormal(e, f, d, h, i, g, b, c, a) && Orthonormal(e, h, b, f, i, c, d, g, a)
  {
  }

  /** getQuaternion: the quaternion of a rotation matrix. No division by less than 2 happens. */
  method GetQuaternion(m: Mat3, sqrt: real -> real) returns (q: Quat, ghost divisor: real)
    requires IsRotation(m) && IsSquareRoot(sqrt)
    ensures divisor >= 2.0 && Unit(q) && q.GetMatrix() == m
    ensures forall p: Quat | Unit(p) && p.GetMatrix() == m :: q == p || q == Negated(p)
  {
    RotationHasPivots(m);
    hide IsRotation, PivotIsW, PivotIsX, PivotIsY, PivotIsZ, ProductsAre, Product;
    hide Quat.GetMatrix, IsSquareRoot, Quat.Norm2;
    var trace := m.a0.x + m.a1.y + m.a2.z;
    if trace >= 0.0 {
      var s := sqrt(trace + 1.0) * 2.0;
      DivisorIsLarge(sqrt, trace + 1.0);
      q := Quat(0.25 * s, (m.a1.z - m.a2.y) / s, (m.a2.x - m.a0.z) / s, (m.a0.y - m.a1.x) / s);
      divisor := s;
      FromW(m, s);
    } else if m.a0.x >= m.a1.y && m.a0.x >= m.a2.z {
      var s := sqrt(1.0 + m.a0.x - m.a1.y - m.a2.z) * 2.0;
      DivisorIsLarge(sqrt, 1.0 + m.a0.x - m.a1.y - m.a2.z);
      q := Quat((m.a1.z - m.a2.y) / s, 0.25 * s, (m.a0.y + m.a1.x) / s, (m.a2.x + m.a0.z) / s);
      divisor := s;
      FromX(m, s);
    } else if m.a1.y >= m.a0.x && m.a1.y >= m.a2.z {
      var s := sqrt(1.0 + m.a1.y - m.a0.x - m.a2.z) * 2.0;
      DivisorIsLarge(sqrt, 1.0 + m.a1.y - m.a0.x - m.a2.z);
      q := Quat((m.a2.x - m.a0.z) / s, (m.a0.y + m.a1.x) / s, 0.25 * s, (m.a1.z + m.a2.y) / s);
      divisor := s;
      FromY(m, s);
    } else {
      var s := sqrt(1.0 + m.a2.z - m.a0.x - m.a1.y) * 2.0;
      DivisorIsLarge(sqrt, 1.0 + m.a2.z - m.a0.x - m.a1.y);
      q := Quat((m.a0.y - m.a1.x) / s, (m.a2.x + m.a0.z) / s, (m.a1.z + m.a2.y) / s, 0.25 * s);
      divisor := s;
      FromZ(m, s);
    }
    ProductsGiveMatrix(q, m);
    q := Normalized(q, sqrt);
    forall p: Quat | Unit(p) && p.GetMatrix() == m ensures q == p || q == Negated(p) { SameMatrix(p, q); }
  }

  /** A quaternion times a number. */
  function Scaled(q: Quat, f: real): Quat { Quat(q.w * f, q.x * f, q.y * f, q.z * f) }

  /** normalize, for a quaternion that is not zero: the unit quaternion of which q is a positive multiple,
      which is q exactly if q is one itself. */
  method Normalized(q: Quat, sqrt: real -> real) returns (r: Quat)
    requires IsSquareRoot(sqrt) && q.Norm2() > 0.0
    ensures Unit(r) && (r == q <==> Unit(q))
    ensures sqrt(q.Norm2()) > 0.0 && Scaled(r, sqrt(q.Norm2())) == q
  {
    var l := sqrt(q.Norm2());
    assert l >= 0.0 && l * l == q.Norm2();
    if l == 0.0 { assert false; }
    r := Quat(q.w / l, q.x / l, q.y / l, q.z / l);
    ScaledNorm(r, q, l);
    if Unit(q) {
      if l < 1.0 { SmallerTimes(l, 1.0, l); }
      if l > 1.0 { SmallerTimes(1.0, l, l); }
    }
  }

  lemma ScaledNorm(r: Quat, q: Quat, l: real)
    requires l > 0.0 && Product(l, l) == q.Norm2() && q.Norm2() > 0.0
    requires Product(r.w, l) == q.w && Product(r.x, l) == q.x && Product(r.y, l) == q.y && Product(r.z, l) == q.z
    ensures Unit(r)
  {
    hide Product, Squares;
    var c := Product(l, l);
    FormsAreProducts(r.w, r.x, r.y, r.z);
    FormsAreProducts(q.w, q.x, q.y, q.z);
    SquareOfScaled(r.w, l, q.w); SquareOfScaled(r.x, l, q.x); SquareOfScaled(r.y, l, q.y); SquareOfScaled(r.z, l, q.z);
    ProductOfSum(c, Product(r.w, r.w), Product(r.x, r.x), Product(r.y, r.y), Product(r.z, r.z), r.Norm2());
    Cancel(c, r.Norm2());
  }

  lemma ProductOfSum(c: real, p: real, q: real, r: real, s: real, n: real)
    requires n == p + q + r + s
    ensures Product(c, n) == Product(c, p) + Product(c, q) + Product(c, r) + Product(c, s)
  {
    Scale(n, p + q + r + s, c);
  }

  lemma Cancel(c: real, n: real)
    requires c != 0.0 && Product(c, n) == c
    ensures n == 1.0
  {
    assert (c * n) / c == n;
  }

  lemma SquareOfScaled(x: real, l: real, y: real)
    requires Product(x, l) == y
    ensures Product(y, y) == Product(Product(l, l), Product(x, x))
  {
    Square(y, x * l);
    Scale(Product(l, l), l * l, Product(x, x));
    Scale(Product(x, x), x * x, l * l);
  }

  lemma FromW(m: Mat3, s: real)
    requires PivotIsW(m) && s >= 2.0 && Product(s, s) == 4.0 * (m.a0.x + m.a1.y + m.a2.z + 1.0)
    requires 4.0 * Product(0.25 * s, 0.25 * s) == m.a0.x + m.a1.y + m.a2.z + 1.0
    ensures ProductsAre(Quat(0.25 * s, (m.a1.z - m.a2.y) / s, (m.a2.x - m.a0.z) / s, (m.a0.y - m.a1.x) / s), m)
  {
    hide Product;
    var p, u, v, t := 1.0 + m.a0.x + m.a1.y + m.a2.z, m.a1.z - m.a2.y, m.a2.x - m.a0.z, m.a0.y - m.a1.x;
    Quotients(u, u, 1.0 + m.a0.x - m.a1.y - m.a2.z, p, s);
    Quotients(v, v, 1.0 - m.a0.x + m.a1.y - m.a2.z, p, s);
    Quotients(t, t, 1.0 - m.a0.x - m.a1.y + m.a2.z, p, s);
    Quotients(u, v, m.a0.y + m.a1.x, p, s);
    Quotients(u, t, m.a2.x + m.a0.z, p, s);
    Quotients(v, t, m.a1.z + m.a2.y, p, s);
    QuotientTimesPivot(u, s); QuotientTimesPivot(v, s); QuotientTimesPivot(t, s);
  }

  lemma FromX(m: Mat3, s: real)
    requires PivotIsX(m) && s >= 2.0 && Product(s, s) == 4.0 * (1.0 + m.a0.x - m.a1.y - m.a2.z)
    requires 4.0 * Product(0.25 * s, 0.25 * s) == 1.0 + m.a0.x - m.a1.y - m.a2.z
    ensures ProductsAre(Quat((m.a1.z - m.a2.y) / s, 0.25 * s, (m.a0.y + m.a1.x) / s, (m.a2.x + m.a0.z) / s), m)
  {
    hide Product;
    var p, u, v, t := 1.0 + m.a0.x - m.a1.y - m.a2.z, m.a1.z - m.a2.y, m.a0.y + m.a1.x, m.a2.x + m.a0.z;
    Quotients(u, u, 1.0 + m.a0.x + m.a1.y + m.a2.z, p, s);
    Quotients(v, v, 1.0 - m.a0.x + m.a1.y - m.a2.z, p, s);
    Quotients(t, t, 1.0 - m.a0.x - m.a1.y + m.a2.z, p, s);
    Quotients(u, v, m.a2.x - m.a0.z, p, s);
    Quotients(u, t, m.a0.y - m.a1.x, p, s);
    Quotients(v, t, m.a1.z + m.a2.y, p, s);
    QuotientTimesPivot(u, s); QuotientTimesPivot(v, s); QuotientTimesPivot(t, s);
  }

  lemma FromY(m: Mat3, s: real)
    requires PivotIsY(m) && s >= 2.0 && Product(s, s) == 4.0 * (1.0 + m.a1.y - m.a0.x - m.a2.z)
    requires 4.0 * Product(0.25 * s, 0.25 * s) == 1.0 + m.a1.y - m.a0.x - m.a2.z
    ensures ProductsAre(Quat((m.a2.x - m.a0.z) / s, (m.a0.y + m.a1.x) / s, 0.25 * s, (m.a1.z + m.a2.y) / s), m)
  {
    hide Product;
    var p, u, v, t := 1.0 + m.a1.y - m.a0.x - m.a2.z, m.a2.x - m.a0.z, m.a0.y + m.a1.x, m.a1.z + m.a2.y;
    Quotients(u, u, 1.0 + m.a0.x + m.a1.y + m.a2.z, p, s);
    Quotients(v, v, 1.0 + m.a0.x - m.a1.y - m.a2.z, p, s);
    Quotients(t, t, 1.0 - m.a0.x - m.a1.y + m.a2.z, p, s);
    Quotients(u, v, m.a1.z - m.a2.y, p, s);
    Quotients(u, t, m.a0.y - m.a1.x, p, s);
    Quotients(v, t, m.a2.x + m.a0.z, p, s);
    QuotientTimesPivot(u, s); QuotientTimesPivot(v, s); QuotientTimesPivot(t, s);
  }

  lemma FromZ(m: Mat3, s: real)
    requires PivotIsZ(m) && s >= 2.0 && Product(s, s) == 4.0 * (1.0 + m.a2.z - m.a0.x - m.a1.y)
    requires 4.0 * Product(0.25 * s, 0.25 * s) == 1.0 + m.a2.z - m.a0.x - m.a1.y
    ensures ProductsAre(Quat((m.a0.y - m.a1.x) / s, (m.a2.x + m.a0.z) / s, (m.a1.z + m.a2.y) / s, 0.25 * s), m)
  {
    hide Product;
    var p, u, v, t := 1.0 + m.a2.z - m.a0.x - m.a1.y, m.a0.y - m.a1.x, m.a2.x + m.a0.z, m.a1.z + m.a2.y;
    Quotients(u, u, 1.0 + m.a0.x + m.a1.y + m.a2.z, p, s);
    Quotients(v, v, 1.0 + m.a0.x - m.a1.y - m.a2.z, p, s);
    Quotients(t, t, 1.0 - m.a0.x + m.a1.y - m.a2.z, p, s);
    Quotients(u, v, m.a1.z - m.a2.y, p, s);
    Quotients(u, t, m.a2.x - m.a0.z, p, s);
    Quotients(v, t, m.a0.y + m.a1.x, p, s);
    QuotientTimesPivot(u, s); QuotientTimesPivot(v, s); QuotientTimesPivot(t, s);
  }

  // ----- there and back -----

  lemma BothEqual(a: real, u: real, b: real, v: real)
    requires a == u && b == v
    ensures Product(a, b) == u * v
  {
  }

  // The cofactors of the first row of the matrix of a unit quaternion are that row.

  lemma FirstCofactor(w: real, x: real, y: real, z: real)
    requires Squares(w, x, y, z) == 1.0
    ensures Product(Diagonal(x, z), Diagonal(x, y)) - Product(TwiceDifference(y, z, x, w), TwiceSum(y, z, x, w))
            == Diagonal(y, z)
  {
    BothEqual(Diagonal(x, z), 1.0 - 2.0 * x * x - 2.0 * z * z, Diagonal(x, y), 1.0 - 2.0 * x * x - 2.0 * y * y);
    BothEqual(TwiceDifference(y, z, x, w), 2.0 * y * z - 2.0 * x * w, TwiceSum(y, z, x, w), 2.0 * y * z + 2.0 * x * w);
    Scale(w * w + x * x + y * y + z * z, 1.0, 4.0 * x * x);
    hide Product, Squares, TwiceDifference, TwiceSum;
  }

  lemma SecondCofactor(w: real, x: real, y: real, z: real)
    requires Squares(w, x, y, z) == 1.0
    ensures Product(TwiceDifference(y, z, x, w), TwiceDifference(x, z, y, w)) -
            Product(TwiceSum(x, y, z, w), Diagonal(x, y)) == TwiceDifference(x, y, z, w)
  {
    BothEqual(TwiceDifference(y, z, x, w), 2.0 * y * z - 2.0 * x * w,
              TwiceDifference(x, z, y, w), 2.0 * x * z - 2.0 * y * w);
    BothEqual(TwiceSum(x, y, z, w), 2.0 * x * y + 2.0 * z * w, Diagonal(x, y), 1.0 - 2.0 * x * x - 2.0 * y * y);
    Scale(w * w + x * x + y * y + z * z, 1.0, 4.0 * x * y);
    assert TwiceDifference(x, y, z, w) == 2.0 * x * y - 2.0 * z * w;
    hide Product, Squares, TwiceDifference, TwiceSum, Diagonal;
  }

  lemma ThirdCofactor(w: real, x: real, y: real, z: real)
    requires Squares(w, x, y, z) == 1.0
    ensures Product(TwiceSum(x, y, z, w), TwiceSum(y, z, x, w)) - Product(Diagonal(x, z), TwiceDifference(x, z, y, w))
            == TwiceSum(x, z, y, w)
  {
    BothEqual(TwiceSum(x, y, z, w), 2.0 * x * y + 2.0 * z * w, TwiceSum(y, z, x, w), 2.0 * y * z + 2.0 * x * w);
    BothEqual(Diagonal(x, z), 1.0 - 2.0 * x * x - 2.0 * z * z, TwiceDifference(x, z, y, w), 2.0 * x * z - 2.0 * y * w);
    Scale(w * w + x * x + y * y + z * z, 1.0, 4.0 * x * z);
    assert TwiceSum(x, z, y, w) == 2.0 * x * z + 2.0 * y * w;
    hide Product, Squares, TwiceDifference, TwiceSum, Diagonal;
  }

  lemma DeterminantFromCofactors(a: real, b: real, c: real, d: real, e: real, f: real, g: real, h: real, i: real)
    requires a == Product(e, i) - Product(f, h) && b == Product(f, g) - Product(d, i)
    requires c == Product(d, h) - Product(e, g)
    requires a * a + b * b + c * c == 1.0
    ensures Determinant(a, b, c, d, e, f, g, h, i) == 1.0
  {
    Scale(a, e * i - f * h, a);
    Scale(b, f * g - d * i, b);
    Scale(c, d * h - e * g, c);
  }

  /** The matrix of a unit quaternion is a rotation. */
  lemma MatrixIsRotation(q: Quat)
    requires Unit(q)
    ensures IsRotation(q.GetMatrix())
  {
    MatrixIsOrthogonal(q);
    FirstCofactor(q.w, q.x, q.y, q.z);
    SecondCofactor(q.w, q.x, q.y, q.z);
    ThirdCofactor(q.w, q.x, q.y, q.z);
    var m := q.GetMatrix();
    FirstRowIsUnit(m);
    hide Product, Squares, TwiceDifference, TwiceSum, Diagonal, Determinant, Orthogonal;
    DeterminantFromCofactors(m.a0.x, m.a1.x, m.a2.x, m.a0.y, m.a1.y, m.a2.y, m.a0.z, m.a1.z, m.a2.z);
  }

  lemma FirstRowIsUnit(m: Mat3)
    requires Orthogonal(m)
    ensures m.a0.x * m.a0.x + m.a1.x * m.a1.x + m.a2.x * m.a2.x == 1.0
  {
    assert m.Mul(m.Transpose()) == IDENTITY;
  }

  /** A unit quaternion comes back from its matrix but for its sign. */
  method ThereAndBack(q: Quat, sqrt: real -> real) returns (r: Quat)
    requires Unit(q) && IsSquareRoot(sqrt)
    ensures r == q || r == Negated(q)
  {
    MatrixIsRotation(q);
    ghost var s;
    r, s := GetQuaternion(q.GetMatrix(), sqrt);
  }
}
