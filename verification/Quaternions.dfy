/** Quaternions, 3-vectors and 3x3 matrices over exact reals, and the algebra that ties them. */
module Quaternions {

  // The forms that products are made of. They are functions of their own so that the laws below can
  // be taken from polynomial identities on real numbers without multiplying out anything else.

  /** The scalar part of a product of quaternions. */
  function W(a: real, b: real, c: real, d: real, e: real, f: real, g: real, h: real): real {
    a * e - b * f - c * g - d * h
  }

  /** A component of the vector part; the vectors are listed from its own axis on. */
  function V(a: real, b: real, c: real, d: real, e: real, f: real, g: real, h: real): real {
    a * f + e * b + c * h - d * g
  }

  function Squares(w: real, x: real, y: real, z: real): real { w * w + x * x + y * y + z * z }

  function Dot(a: real, b: real, c: real, x: real, y: real, z: real): real { a * x + b * y + c * z }

  function Diagonal(a: real, b: real): real { 1.0 - 2.0 * (a * a + b * b) }

  function TwiceSum(a: real, b: real, c: real, d: real): real { 2.0 * (a * b + c * d) }

  function TwiceDifference(a: real, b: real, c: real, d: real): real { 2.0 * (a * b - c * d) }

  // ----- values -----

  datatype Vec3 = Vec3(x: real, y: real, z: real) {
    function Plus(v: Vec3): Vec3 { Vec3(x + v.x, y + v.y, z + v.z) }
    function Times(f: real): Vec3 { Vec3(x * f, y * f, z * f) }
  }

  const ZERO := Vec3(0.0, 0.0, 0.0)

  /** A matrix by its columns, as C3X3Matrix has them: entry (i, j) is component i of axis j. */
  datatype Mat3 = Mat3(a0: Vec3, a1: Vec3, a2: Vec3) {
    function Apply(v: Vec3): Vec3 {
      Vec3(Dot(a0.x, a1.x, a2.x, v.x, v.y, v.z),
           Dot(a0.y, a1.y, a2.y, v.x, v.y, v.z),
           Dot(a0.z, a1.z, a2.z, v.x, v.y, v.z))
    }

    function Mul(m: Mat3): Mat3 { Mat3(Apply(m.a0), Apply(m.a1), Apply(m.a2)) }

    function Transpose(): Mat3 { Mat3(Vec3(a0.x, a1.x, a2.x), Vec3(a0.y, a1.y, a2.y), Vec3(a0.z, a1.z, a2.z)) }
  }

  const IDENTITY := Mat3(Vec3(1.0, 0.0, 0.0), Vec3(0.0, 1.0, 0.0), Vec3(0.0, 0.0, 1.0))

  /** C4Vector: data[0] is the scalar part. */
  datatype Quat = Quat(w: real, x: real, y: real, z: real) {
    function Mul(q: Quat): Quat {
      Quat(W(w, x, y, z, q.w, q.x, q.y, q.z), V(w, x, y, z, q.w, q.x, q.y, q.z),
           V(w, y, z, x, q.w, q.y, q.z, q.x), V(w, z, x, y, q.w, q.z, q.x, q.y))
    }

    /** getInverse, the inverse of a unit quaternion. */
    function Conjugate(): Quat { Quat(w, -x, -y, -z) }

    function Norm2(): real { Squares(w, x, y, z) }

    /** The product from which Rotate takes the vector part: the vector's scalar part is 1. */
    function Turned(v: Vec3): Quat { Mul(Quat(1.0, v.x, v.y, v.z).Mul(Conjugate())) }

    function Rotate(v: Vec3): Vec3 { Vec3(Turned(v).x, Turned(v).y, Turned(v).z) }

    function GetMatrix(): Mat3 {
      Mat3(Vec3(Diagonal(y, z), TwiceSum(x, y, z, w), TwiceDifference(x, z, y, w)),
           Vec3(TwiceDifference(x, y, z, w), Diagonal(x, z), TwiceSum(y, z, x, w)),
           Vec3(TwiceSum(x, z, y, w), TwiceDifference(y, z, x, w), Diagonal(x, y)))
    }
  }

  const ONE := Quat(1.0, 0.0, 0.0, 0.0)

  predicate Unit(q: Quat) { q.Norm2() == 1.0 }

  lemma Scale(a: real, b: real, c: real)
    requires a == b
    ensures a * c == b * c && c * a == c * b
  {
  }

  // ----- the product -----

  lemma AssociativeW(pw: real, px: real, py: real, pz: real, qw: real, qx: real, qy: real, qz: real,
                     rw: real, rx: real, ry: real, rz: real,
                     sw: real, sx: real, sy: real, sz: real, tw: real, tx: real, ty: real, tz: real)
    requires sw == W(pw, px, py, pz, qw, qx, qy, qz) && sx == V(pw, px, py, pz, qw, qx, qy, qz)
    requires sy == V(pw, py, pz, px, qw, qy, qz, qx) && sz == V(pw, pz, px, py, qw, qz, qx, qy)
    requires tw == W(qw, qx, qy, qz, rw, rx, ry, rz) && tx == V(qw, qx, qy, qz, rw, rx, ry, rz)
    requires ty == V(qw, qy, qz, qx, rw, ry, rz, rx) && tz == V(qw, qz, qx, qy, rw, rz, rx, ry)
    ensures W(sw, sx, sy, sz, rw, rx, ry, rz) == W(pw, px, py, pz, tw, tx, ty, tz)
  {
    Scale(sw, pw * qw - px * qx - py * qy - pz * qz, rw);
    Scale(sx, pw * qx + qw * px + py * qz - pz * qy, rx);
    Scale(sy, pw * qy + qw * py + pz * qx - px * qz, ry);
    Scale(sz, pw * qz + qw * pz + px * qy - py * qx, rz);
    Scale(tw, qw * rw - qx * rx - qy * ry - qz * rz, pw);
    Scale(tx, qw * rx + rw * qx + qy * rz - qz * ry, px);
    Scale(ty, qw * ry + rw * qy + qz * rx - qx * rz, py);
    Scale(tz, qw * rz + rw * qz + qx * ry - qy * rx, pz);
  }

  lemma AssociativeV(pw: real, px: real, py: real, pz: real, qw: real, qx: real, qy: real, qz: real,
                     rw: real, rx: real, ry: real, rz: real,
                     sw: real, sx: real, sy: real, sz: real, tw: real, tx: real, ty: real, tz: real)
    requires sw == W(pw, px, py, pz, qw, qx, qy, qz) && sx == V(pw, px, py, pz, qw, qx, qy, qz)
    requires sy == V(pw, py, pz, px, qw, qy, qz, qx) && sz == V(pw, pz, px, py, qw, qz, qx, qy)
    requires tw == W(qw, qx, qy, qz, rw, rx, ry, rz) && tx == V(qw, qx, qy, qz, rw, rx, ry, rz)
    requires ty == V(qw, qy, qz, qx, rw, ry, rz, rx) && tz == V(qw, qz, qx, qy, rw, rz, rx, ry)
    ensures V(sw, sx, sy, sz, rw, rx, ry, rz) == V(pw, px, py, pz, tw, tx, ty, tz)
  {
    Scale(sw, pw * qw - px * qx - py * qy - pz * qz, rx);
    Scale(sx, pw * qx + qw * px + py * qz - pz * qy, rw);
    Scale(sy, pw * qy + qw * py + pz * qx - px * qz, rz);
    Scale(sz, pw * qz + qw * pz + px * qy - py * qx, ry);
    Scale(tw, qw * rw - qx * rx - qy * ry - qz * rz, px);
    Scale(tx, qw * rx + rw * qx + qy * rz - qz * ry, pw);
    Scale(ty, qw * ry + rw * qy + qz * rx - qx * rz, pz);
    Scale(tz, qw * rz + rw * qz + qx * ry - qy * rx, py);
  }

  /** Turning the axes leaves the scalar part. */
  lemma Cyclic(a: real, b: real, c: real, d: real, e: real, f: real, g: real, h: real)
    ensures W(a, b, c, d, e, f, g, h) == W(a, c, d, b, e, g, h, f) == W(a, d, b, c, e, h, f, g)
  {
  }

  lemma Associative(p: Quat, q: Quat, r: Quat)
    ensures p.Mul(q).Mul(r) == p.Mul(q.Mul(r))
  {
    hide W, V;
    var s, t := p.Mul(q), q.Mul(r);
    Cyclic(p.w, p.x, p.y, p.z, q.w, q.x, q.y, q.z);
    Cyclic(q.w, q.x, q.y, q.z, r.w, r.x, r.y, r.z);
    AssociativeW(p.w, p.x, p.y, p.z, q.w, q.x, q.y, q.z, r.w, r.x, r.y, r.z, s.w, s.x, s.y, s.z, t.w, t.x, t.y, t.z);
    AssociativeV(p.w, p.x, p.y, p.z, q.w, q.x, q.y, q.z, r.w, r.x, r.y, r.z, s.w, s.x, s.y, s.z, t.w, t.x, t.y, t.z);
    AssociativeV(p.w, p.y, p.z, p.x, q.w, q.y, q.z, q.x, r.w, r.y, r.z, r.x, s.w, s.y, s.z, s.x, t.w, t.y, t.z, t.x);
    AssociativeV(p.w, p.z, p.x, p.y, q.w, q.z, q.x, q.y, r.w, r.z, r.x, r.y, s.w, s.z, s.x, s.y, t.w, t.z, t.x, t.y);
  }

  lemma SquaresOfProduct(a: real, b: real, c: real, d: real, e: real, f: real, g: real, h: real)
    ensures Squares(W(a, b, c, d, e, f, g, h), V(a, b, c, d, e, f, g, h),
                    V(a, c, d, b, e, g, h, f), V(a, d, b, c, e, h, f, g))
            == Squares(a, b, c, d) * Squares(e, f, g, h)
  {
    Square(W(a, b, c, d, e, f, g, h), a * e - b * f - c * g - d * h);
    Square(V(a, b, c, d, e, f, g, h), a * f + e * b + c * h - d * g);
    Square(V(a, c, d, b, e, g, h, f), a * g + e * c + d * f - b * h);
    Square(V(a, d, b, c, e, h, f, g), a * h + e * d + b * g - c * f);
    Scale(Squares(a, b, c, d), a * a + b * b + c * c + d * d, Squares(e, f, g, h));
    Scale(Squares(e, f, g, h), e * e + f * f + g * g + h * h, a * a + b * b + c * c + d * d);
  }

  lemma Square(a: real, b: real)
    requires a == b
    ensures a * a == b * b
  {
  }

  lemma NormOfProduct(p: Quat, q: Quat)
    ensures p.Mul(q).Norm2() == p.Norm2() * q.Norm2()
  {
    hide W, V, Squares;
    SquaresOfProduct(p.w, p.x, p.y, p.z, q.w, q.x, q.y, q.z);
  }

  lemma ConjugateForms(a: real, b: real, c: real, d: real, e: real, f: real, g: real, h: real)
    ensures W(a, b, c, d, e, f, g, h) == W(e, -f, -g, -h, a, -b, -c, -d)
    ensures -V(a, b, c, d, e, f, g, h) == V(e, -f, -g, -h, a, -b, -c, -d)
  {
  }

  lemma ConjugateOfProduct(p: Quat, q: Quat)
    ensures p.Mul(q).Conjugate() == q.Conjugate().Mul(p.Conjugate())
  {
    hide W, V;
    ConjugateForms(p.w, p.x, p.y, p.z, q.w, q.x, q.y, q.z);
    ConjugateForms(p.w, p.y, p.z, p.x, q.w, q.y, q.z, q.x);
    ConjugateForms(p.w, p.z, p.x, p.y, q.w, q.z, q.x, q.y);
  }

  lemma InverseForms(a: real, b: real, c: real, d: real)
    ensures W(a, b, c, d, a, -b, -c, -d) == W(a, -b, -c, -d, a, b, c, d) == Squares(a, b, c, d)
    ensures V(a, b, c, d, a, -b, -c, -d) == V(a, -b, -c, -d, a, b, c, d) == 0.0
    ensures W(1.0, 0.0, 0.0, 0.0, a, b, c, d) == W(a, b, c, d, 1.0, 0.0, 0.0, 0.0) == a
    ensures V(1.0, 0.0, 0.0, 0.0, a, b, c, d) == V(a, b, c, d, 1.0, 0.0, 0.0, 0.0) == b
    ensures Squares(a, b, c, d) == Squares(a, c, d, b) == Squares(a, d, b, c) == Squares(a, -b, -c, -d)
  {
  }

  /** The conjugate is the inverse exactly of unit quaternions. */
  lemma ConjugateInverts(q: Quat)
    ensures q.Mul(q.Conjugate()) == q.Conjugate().Mul(q) == Quat(q.Norm2(), 0.0, 0.0, 0.0)
    ensures q.Mul(q.Conjugate()) == ONE <==> Unit(q)
    ensures ONE.Mul(q) == q == q.Mul(ONE) && q.Conjugate().Norm2() == q.Norm2()
  {
    hide W, V, Squares;
    InverseForms(q.w, q.x, q.y, q.z);
    InverseForms(q.w, q.y, q.z, q.x);
    InverseForms(q.w, q.z, q.x, q.y);
  }

  // ----- rotation -----

  /** The parts of (1, v) q', multiplied out. */
  lemma TurnedHalf(w: real, x: real, y: real, z: real, a: real, b: real, c: real)
    ensures W(1.0, a, b, c, w, -x, -y, -z) == w + a * x + b * y + c * z
    ensures V(1.0, a, b, c, w, -x, -y, -z) == w * a - x - b * z + c * y
    ensures V(1.0, b, c, a, w, -y, -z, -x) == w * b - y - c * x + a * z
    ensures V(1.0, c, a, b, w, -z, -x, -y) == w * c - z - a * y + b * x
  {
  }

  /** The scalar part of q (1, v) q'; t is (1, v) q'. */
  lemma TurnedScalar(w: real, x: real, y: real, z: real, a: real, b: real, c: real,
                     tw: real, tx: real, ty: real, tz: real)
    requires tw == w + a * x + b * y + c * z && tx == w * a - x - b * z + c * y
    requires ty == w * b - y - c * x + a * z && tz == w * c - z - a * y + b * x
    ensures W(w, x, y, z, tw, tx, ty, tz) == Squares(w, x, y, z)
  {
    Scale(tw, w + a * x + b * y + c * z, w);
    Scale(tx, w * a - x - b * z + c * y, x);
    Scale(ty, w * b - y - c * x + a * z, y);
    Scale(tz, w * c - z - a * y + b * x, z);
  }

  /** A component of the vector part of q (1, v) q', multiplied out; that of the matrix times v; and
      that of v times the excess of the squared norm. */
  function TurnedPoly(w: real, x: real, y: real, z: real, a: real, b: real, c: real): real {
    w * w * a + x * x * a - y * y * a - z * z * a +
    2.0 * x * y * b - 2.0 * z * w * b + 2.0 * x * z * c + 2.0 * y * w * c
  }

  function AppliedPoly(w: real, x: real, y: real, z: real, a: real, b: real, c: real): real {
    a - 2.0 * y * y * a - 2.0 * z * z * a + 2.0 * x * y * b - 2.0 * z * w * b + 2.0 * x * z * c + 2.0 * y * w * c
  }

  function ExcessPoly(w: real, x: real, y: real, z: real, a: real): real {
    w * w * a + x * x * a + y * y * a + z * z * a - a
  }

  lemma PolysAgree(w: real, x: real, y: real, z: real, a: real, b: real, c: real)
    ensures TurnedPoly(w, x, y, z, a, b, c) == AppliedPoly(w, x, y, z, a, b, c) + ExcessPoly(w, x, y, z, a)
  {
  }

  lemma TurnedVector(w: real, x: real, y: real, z: real, a: real, b: real, c: real,
                     tw: real, tx: real, ty: real, tz: real)
    requires tw == w + a * x + b * y + c * z && tx == w * a - x - b * z + c * y
    requires ty == w * b - y - c * x + a * z && tz == w * c - z - a * y + b * x
    ensures V(w, x, y, z, tw, tx, ty, tz) == TurnedPoly(w, x, y, z, a, b, c)
  {
    var i, j := w * a - x - b * z + c * y, w + a * x + b * y + c * z;
    var k, l := w * c - z - a * y + b * x, w * b - y - c * x + a * z;
    assert V(w, x, y, z, tw, tx, ty, tz) == w * tx + tw * x + y * tz - z * ty;
    Scale(tx, i, w); Scale(tw, j, x); Scale(tz, k, y); Scale(ty, l, z);
    TurnedSum(w, x, y, z, a, b, c);
  }

  lemma TurnedSum(w: real, x: real, y: real, z: real, a: real, b: real, c: real)
    ensures w * (w * a - x - b * z + c * y) + (w + a * x + b * y + c * z) * x
            + y * (w * c - z - a * y + b * x) - z * (w * b - y - c * x + a * z) == TurnedPoly(w, x, y, z, a, b, c)
  {
  }

  lemma ApplyForm(w: real, x: real, y: real, z: real, a: real, b: real, c: real)
    ensures Dot(Diagonal(y, z), TwiceDifference(x, y, z, w), TwiceSum(x, z, y, w), a, b, c) ==
            AppliedPoly(w, x, y, z, a, b, c)
  {
    var d, e, f := Diagonal(y, z), TwiceDifference(x, y, z, w), TwiceSum(x, z, y, w);
    assert Dot(d, e, f, a, b, c) == d * a + e * b + f * c;
    ApplyTerms(w, x, y, z, a, b, c, d, e, f);
  }

  lemma ApplyTerms(w: real, x: real, y: real, z: real, a: real, b: real, c: real, d: real, e: real, f: real)
    requires d == 1.0 - 2.0 * (y * y + z * z) && e == 2.0 * (x * y - z * w) && f == 2.0 * (x * z + y * w)
    ensures d * a == a - 2.0 * y * y * a - 2.0 * z * z * a
    ensures e * b == 2.0 * x * y * b - 2.0 * z * w * b
    ensures f * c == 2.0 * x * z * c + 2.0 * y * w * c
  {
    Scale(d, 1.0 - 2.0 * y * y - 2.0 * z * z, a);
    Scale(e, 2.0 * x * y - 2.0 * z * w, b);
    Scale(f, 2.0 * x * z + 2.0 * y * w, c);
  }

  lemma ExcessForm(w: real, x: real, y: real, z: real, a: real, f: real)
    requires f == Squares(w, x, y, z) - 1.0
    ensures a * f == ExcessPoly(w, x, y, z, a)
  {
    Scale(f, w * w + x * x + y * y + z * z - 1.0, a);
  }

  /** The parts of q (1, v) q'; t is (1, v) q', n the squared norm of q, f its excess. */
  lemma TurnedForms(w: real, x: real, y: real, z: real, a: real, b: real, c: real, n: real, f: real,
                    tw: real, tx: real, ty: real, tz: real)
    requires tw == W(1.0, a, b, c, w, -x, -y, -z) && tx == V(1.0, a, b, c, w, -x, -y, -z)
    requires ty == V(1.0, b, c, a, w, -y, -z, -x) && tz == V(1.0, c, a, b, w, -z, -x, -y)
    requires n == Squares(w, x, y, z) && f == n - 1.0
    ensures W(w, x, y, z, tw, tx, ty, tz) == n
    ensures V(w, x, y, z, tw, tx, ty, tz) ==
            Dot(Diagonal(y, z), TwiceDifference(x, y, z, w), TwiceSum(x, z, y, w), a, b, c) + a * f
  {
    hide *;
    TurnedHalf(w, x, y, z, a, b, c);
    TurnedScalar(w, x, y, z, a, b, c, tw, tx, ty, tz);
    TurnedVector(w, x, y, z, a, b, c, tw, tx, ty, tz);
    ApplyForm(w, x, y, z, a, b, c);
    ExcessForm(w, x, y, z, a, f);
    PolysAgree(w, x, y, z, a, b, c);
  }

  lemma FormsCommute(a: real, b: real, c: real, d: real, e: real, f: real)
    ensures TwiceSum(a, b, c, d) == TwiceSum(b, a, c, d) && TwiceDifference(a, b, c, d) == TwiceDifference(b, a, c, d)
    ensures Diagonal(a, b) == Diagonal(b, a)
    ensures Dot(a, b, c, d, e, f) == Dot(b, c, a, e, f, d) == Dot(c, a, b, f, d, e)
    ensures Squares(a, b, c, d) == Squares(a, c, d, b) == Squares(a, d, b, c)
  {
  }

  /** Rotation is multiplication with the matrix, but for the excess of the squared norm over 1. */
  lemma RotateIsApply(q: Quat, v: Vec3)
    ensures q.Rotate(v) == q.GetMatrix().Apply(v).Plus(v.Times(q.Norm2() - 1.0))
    ensures q.Turned(v).w == q.Norm2()
  {
    var t, m := Quat(1.0, v.x, v.y, v.z).Mul(q.Conjugate()), q.GetMatrix();
    hide W, V, Squares, Dot, Diagonal, TwiceSum, TwiceDifference;
    Cyclic(1.0, v.x, v.y, v.z, q.w, -q.x, -q.y, -q.z);
    Cyclic(q.w, q.x, q.y, q.z, t.w, t.x, t.y, t.z);
    FormsCommute(q.w, q.x, q.y, q.z, 0.0, 0.0);
    var n := q.Norm2();
    var f := n - 1.0;
    TurnedForms(q.w, q.x, q.y, q.z, v.x, v.y, v.z, n, f, t.w, t.x, t.y, t.z);
    TurnedForms(q.w, q.y, q.z, q.x, v.y, v.z, v.x, n, f, t.w, t.y, t.z, t.x);
    TurnedForms(q.w, q.z, q.x, q.y, v.z, v.x, v.y, n, f, t.w, t.z, t.x, t.y);
    FormsCommute(q.x, q.z, q.y, q.w, 0.0, 0.0);
    FormsCommute(q.y, q.x, q.z, q.w, 0.0, 0.0);
    FormsCommute(q.z, q.y, q.x, q.w, 0.0, 0.0);
    FormsCommute(q.y, q.z, q.x, q.w, 0.0, 0.0);
    FormsCommute(m.a0.y, m.a1.y, m.a2.y, v.x, v.y, v.z);
    FormsCommute(m.a0.z, m.a1.z, m.a2.z, v.x, v.y, v.z);
  }

  /** Rotating by q is multiplying with its matrix exactly for unit quaternions. */
  lemma UnitRotates(q: Quat)
    ensures Unit(q) <==> forall v: Vec3 :: q.Rotate(v) == q.GetMatrix().Apply(v)
  {
    if Unit(q) {
      forall v: Vec3 ensures q.Rotate(v) == q.GetMatrix().Apply(v) {
        RotateIsApply(q, v);
        hide Quat.Rotate, Quat.GetMatrix, Mat3.Apply;
      }
    } else {
      var v := Vec3(1.0, 0.0, 0.0);
      RotateIsApply(q, v);
    }
  }

  /** Rotating by a product is rotating twice. */
  lemma RotateByProduct(p: Quat, q: Quat, v: Vec3)
    requires Unit(q)
    ensures p.Mul(q).Rotate(v) == p.Rotate(q.Rotate(v))
  {
    var u, u' := Quat(1.0, v.x, v.y, v.z), q.Turned(v);
    RotateIsApply(q, v);
    hide Quat.Mul, Quat.GetMatrix, Mat3.Apply, Quat.Norm2;
    var pc, qc := p.Conjugate(), q.Conjugate();
    ConjugateOfProduct(p, q);
    assert u' == Quat(1.0, q.Rotate(v).x, q.Rotate(v).y, q.Rotate(v).z);
    Associative(u, qc, pc);
    Associative(p, q, u.Mul(qc.Mul(pc)));
    Associative(q, u.Mul(qc), pc);
    assert p.Mul(q).Turned(v) == p.Mul(u'.Mul(pc));
  }

  lemma Basis(m: Mat3)
    ensures m.Apply(Vec3(1.0, 0.0, 0.0)) == m.a0 && m.Apply(Vec3(0.0, 1.0, 0.0)) == m.a1
    ensures m.Apply(Vec3(0.0, 0.0, 1.0)) == m.a2
  {
  }

  /** The matrix of a product is the product of the matrices. */
  lemma MatrixOfProduct(p: Quat, q: Quat)
    requires Unit(p) && Unit(q)
    ensures p.Mul(q).GetMatrix() == p.GetMatrix().Mul(q.GetMatrix()) && Unit(p.Mul(q))
  {
    NormOfProduct(p, q);
    UnitRotates(p); UnitRotates(q); UnitRotates(p.Mul(q));
    Basis(q.GetMatrix()); Basis(p.Mul(q).GetMatrix());
    hide Quat.Rotate, Quat.GetMatrix, Mat3.Apply, Quat.Mul, Quat.Norm2;
    RotateByProduct(p, q, Vec3(1.0, 0.0, 0.0));
    RotateByProduct(p, q, Vec3(0.0, 1.0, 0.0));
    RotateByProduct(p, q, Vec3(0.0, 0.0, 1.0));
  }

  predicate Orthogonal(m: Mat3) { m.Mul(m.Transpose()) == m.Transpose().Mul(m) == IDENTITY }

  lemma MatrixOfConjugate(q: Quat)
    ensures q.Conjugate().GetMatrix() == q.GetMatrix().Transpose() && ONE.GetMatrix() == IDENTITY
  {
  }

  /** The matrix of a unit quaternion is orthogonal. */
  lemma MatrixIsOrthogonal(q: Quat)
    requires Unit(q)
    ensures Orthogonal(q.GetMatrix())
  {
    ConjugateInverts(q);
    MatrixOfConjugate(q);
    hide Quat.GetMatrix, Quat.Mul, Quat.Norm2, Mat3.Mul, Mat3.Transpose;
    MatrixOfProduct(q, q.Conjugate());
    MatrixOfProduct(q.Conjugate(), q);
  }
}
