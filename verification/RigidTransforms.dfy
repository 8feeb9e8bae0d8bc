/** Rigid transformations as a quaternion and a position (C7Vector) and as a matrix and a position
    (C4X4Matrix): the group they form, and the agreement of the two. */
module RigidTransforms {
  import opened Quaternions
  import opened RotationMatrices

  // ----- matrices act linearly -----

  lemma DotIsLinear(a: real, b: real, c: real, x: real, y: real, z: real, u: real, v: real, w: real, f: real)
    ensures Dot(a, b, c, x + u, y + v, z + w) == Dot(a, b, c, x, y, z) + Dot(a, b, c, u, v, w)
    ensures Dot(a, b, c, -x, -y, -z) == -Dot(a, b, c, x, y, z)
    ensures Dot(a, b, c, 0.0, 0.0, 0.0) == 0.0
  {
  }

  lemma ApplyIsLinear(m: Mat3, u: Vec3, v: Vec3)
    ensures m.Apply(u.Plus(v)) == m.Apply(u).Plus(m.Apply(v))
    ensures m.Apply(Minus(u)) == Minus(m.Apply(u)) && m.Apply(ZERO) == ZERO
  {
    hide Dot;
    DotIsLinear(m.a0.x, m.a1.x, m.a2.x, u.x, u.y, u.z, v.x, v.y, v.z, 0.0);
    DotIsLinear(m.a0.y, m.a1.y, m.a2.y, u.x, u.y, u.z, v.x, v.y, v.z, 0.0);
    DotIsLinear(m.a0.z, m.a1.z, m.a2.z, u.x, u.y, u.z, v.x, v.y, v.z, 0.0);
  }

  function Minus(v: Vec3): Vec3 { Vec3(-v.x, -v.y, -v.z) }

  lemma TimesMinusOne(v: Vec3)
    ensures v.Times(-1.0) == Minus(v)
  {
  }

  /** A row of a times the columns p, q, r of b, applied to a vector. */
  lemma DotOfDots(a: real, b: real, c: real, p: Vec3, q: Vec3, r: Vec3, x: real, y: real, z: real,
                  s: real, t: real, u: real, i: real, j: real, k: real)
    requires s == Dot(a, b, c, p.x, p.y, p.z) && t == Dot(a, b, c, q.x, q.y, q.z) && u == Dot(a, b, c, r.x, r.y, r.z)
    requires i == Dot(p.x, q.x, r.x, x, y, z) && j == Dot(p.y, q.y, r.y, x, y, z) && k == Dot(p.z, q.z, r.z, x, y, z)
    ensures Dot(s, t, u, x, y, z) == Dot(a, b, c, i, j, k)
  {
    Scale(s, a * p.x + b * p.y + c * p.z, x);
    Scale(t, a * q.x + b * q.y + c * q.z, y);
    Scale(u, a * r.x + b * r.y + c * r.z, z);
    Scale(i, p.x * x + q.x * y + r.x * z, a);
    Scale(j, p.y * x + q.y * y + r.y * z, b);
    Scale(k, p.z * x + q.z * y + r.z * z, c);
  }

  /** Applying a product is applying both. */
  lemma ApplyProduct(a: Mat3, b: Mat3, v: Vec3)
    ensures a.Mul(b).Apply(v) == a.Apply(b.Apply(v))
  {
    hide Dot;
    var m, w := a.Mul(b), b.Apply(v);
    DotOfDots(a.a0.x, a.a1.x, a.a2.x, b.a0, b.a1, b.a2, v.x, v.y, v.z, m.a0.x, m.a1.x, m.a2.x, w.x, w.y, w.z);
    DotOfDots(a.a0.y, a.a1.y, a.a2.y, b.a0, b.a1, b.a2, v.x, v.y, v.z, m.a0.y, m.a1.y, m.a2.y, w.x, w.y, w.z);
    DotOfDots(a.a0.z, a.a1.z, a.a2.z, b.a0, b.a1, b.a2, v.x, v.y, v.z, m.a0.z, m.a1.z, m.a2.z, w.x, w.y, w.z);
  }

  lemma IdentityApplies(v: Vec3)
    ensures IDENTITY.Apply(v) == v
  {
  }

  // ----- matrix and position -----

  datatype Affine = Affine(m: Mat3, x: Vec3) {
    function Act(v: Vec3): Vec3 { m.Apply(v).Plus(x) }

    function Mul(a: Affine): Affine { Affine(m.Mul(a.m), m.Apply(a.x).Plus(x)) }

    /** What inverse() leaves: the transpose, and the position turned by it the other way. */
    function Inverse(): Affine { Affine(m.Transpose(), m.Transpose().Apply(Minus(x))) }
  }

  const STAY := Affine(IDENTITY, ZERO)

  /** The product of transformations acts as both do, one after the other. */
  lemma ActOfProduct(a: Affine, b: Affine, v: Vec3)
    ensures a.Mul(b).Act(v) == a.Act(b.Act(v))
  {
    hide Mat3.Apply, Mat3.Mul, Minus;
    ApplyProduct(a.m, b.m, v);
    ApplyIsLinear(a.m, b.m.Apply(v), b.x);
  }

  /** The inverse undoes the transformation on the right exactly when the rows are orthonormal, on the left
      exactly when the columns are. */
  lemma InverseUndoes(a: Affine)
    ensures a.Mul(a.Inverse()) == STAY <==> a.m.Mul(a.m.Transpose()) == IDENTITY
    ensures a.Inverse().Mul(a) == STAY <==> a.m.Transpose().Mul(a.m) == IDENTITY
    ensures Orthogonal(a.m) <==> a.Mul(a.Inverse()) == a.Inverse().Mul(a) == STAY
  {
    hide Mat3.Apply, Mat3.Mul, Mat3.Transpose;
    var t := a.m.Transpose();
    ApplyProduct(a.m, t, Minus(a.x));
    ApplyIsLinear(t, a.x, a.x);
    IdentityApplies(Minus(a.x));
  }

  // ----- quaternion and position -----

  datatype Pose = Pose(q: Quat, x: Vec3) {
    function Act(v: Vec3): Vec3 { x.Plus(q.Rotate(v)) }

    function Mul(p: Pose): Pose { Pose(q.Mul(p.q), x.Plus(q.Rotate(p.x))) }

    function Inverse(): Pose { Pose(q.Conjugate(), q.Conjugate().Rotate(x).Times(-1.0)) }

    function GetMatrix(): Affine { Affine(q.GetMatrix(), x) }
  }

  const NO_MOVE := Pose(ONE, ZERO)

  lemma PlusLaws(u: Vec3, v: Vec3, w: Vec3)
    ensures u.Plus(v) == v.Plus(u) && u.Plus(v).Plus(w) == u.Plus(v.Plus(w))
    ensures u.Plus(Minus(u)) == ZERO && u.Plus(ZERO) == u
  {
  }

  lemma RotateIsLinear(q: Quat, u: Vec3, v: Vec3)
    requires Unit(q)
    ensures q.Rotate(u.Plus(v)) == q.Rotate(u).Plus(q.Rotate(v))
    ensures q.Rotate(Minus(u)) == Minus(q.Rotate(u)) && q.Rotate(ZERO) == ZERO
  {
    hide Quat.Rotate, Quat.GetMatrix, Mat3.Apply, Vec3.Plus, Minus, Quat.Norm2;
    UnitRotates(q);
    ApplyIsLinear(q.GetMatrix(), u, v);
  }

  /** The product acts as both transformations, one after the other. */
  lemma ActOfPoses(a: Pose, b: Pose, v: Vec3)
    requires Unit(a.q) && Unit(b.q)
    ensures a.Mul(b).Act(v) == a.Act(b.Act(v))
  {
    hide Quat.Rotate, Quat.Mul, Quat.Norm2, Vec3.Plus, Minus;
    RotateByProduct(a.q, b.q, v);
    RotateIsLinear(a.q, b.x, b.q.Rotate(v));
    PlusLaws(a.x, a.q.Rotate(b.x), a.q.Rotate(b.q.Rotate(v)));
  }

  lemma UnitsTurn(a: Pose)
    requires Unit(a.q)
    ensures a.Mul(a.Inverse()).x == ZERO == a.Inverse().Mul(a).x
    ensures NO_MOVE.Mul(a).x == a.x == a.Mul(NO_MOVE).x
  {
    hide Quat.Rotate, Quat.Mul, Quat.Norm2, Vec3.Plus, Vec3.Times, Minus, Quat.Conjugate;
    var p := a.q.Conjugate();
    ConjugateInverts(a.q);
    RotateByProduct(a.q, p, a.x);
    OneRotates(a.x);
    RotateIsLinear(a.q, p.Rotate(a.x), a.x);
    RotateIsLinear(p, a.x, a.x);
    TimesMinusOne(p.Rotate(a.x));
    PlusLaws(a.x, ZERO, ZERO);
    PlusLaws(p.Rotate(a.x), ZERO, ZERO);
    PlusLaws(ZERO, a.x, ZERO);
    PlusLaws(Minus(p.Rotate(a.x)), p.Rotate(a.x), ZERO);
  }

  lemma OneRotates(v: Vec3)
    ensures ONE.Rotate(v) == v
  {
    hide Quat.Rotate, Quat.GetMatrix, Mat3.Apply;
    OneIsUnit();
    UnitRotates(ONE);
    MatrixOfConjugate(ONE);
    IdentityApplies(v);
  }

  lemma OneIsUnit()
    ensures Unit(ONE)
  {
    InverseForms(1.0, 0.0, 0.0, 0.0);
  }

  lemma PosesAreClosed(a: Pose, b: Pose)
    requires Unit(a.q) && Unit(b.q)
    ensures Unit(a.Mul(b).q) && Unit(a.Inverse().q)
  {
    hide Quat.Rotate, Quat.Mul, Quat.Norm2, Quat.Conjugate, Vec3.Plus, Vec3.Times;
    NormOfProduct(a.q, b.q);
    ConjugateInverts(a.q);
  }

  lemma PosesAssociate(a: Pose, b: Pose, c: Pose)
    requires Unit(a.q) && Unit(b.q)
    ensures a.Mul(b).Mul(c) == a.Mul(b.Mul(c))
  {
    hide Quat.Rotate, Quat.Mul, Quat.Norm2, Vec3.Plus;
    Associative(a.q, b.q, c.q);
    ActOfPoses(a, b, c.x);
  }

  lemma PosesInvert(a: Pose)
    requires Unit(a.q)
    ensures NO_MOVE.Mul(a) == a == a.Mul(NO_MOVE)
    ensures a.Mul(a.Inverse()) == NO_MOVE == a.Inverse().Mul(a)
  {
    hide Quat.Rotate, Quat.Mul, Quat.Norm2, Quat.Conjugate, Vec3.Plus, Vec3.Times;
    ConjugateInverts(a.q);
    UnitsTurn(a);
  }

  /** Poses with unit quaternions form a group. */
  lemma PosesFormGroup(a: Pose, b: Pose, c: Pose)
    requires Unit(a.q) && Unit(b.q) && Unit(c.q)
    ensures Unit(a.Mul(b).q) && Unit(a.Inverse().q)
    ensures a.Mul(b).Mul(c) == a.Mul(b.Mul(c))
    ensures NO_MOVE.Mul(a) == a == a.Mul(NO_MOVE)
    ensures a.Mul(a.Inverse()) == NO_MOVE == a.Inverse().Mul(a)
  {
    hide *;
    PosesAreClosed(a, b);
    PosesAssociate(a, b, c);
    PosesInvert(a);
  }

  /** getMatrix takes the product and the inverse of poses to those of matrices, and keeps the action. */
  lemma MatrixAgrees(a: Pose, b: Pose, v: Vec3)
    requires Unit(a.q) && Unit(b.q)
    ensures a.Mul(b).GetMatrix() == a.GetMatrix().Mul(b.GetMatrix())
    ensures a.Inverse().GetMatrix() == a.GetMatrix().Inverse()
    ensures a.Act(v) == a.GetMatrix().Act(v)
    ensures a.GetMatrix().Mul(a.GetMatrix().Inverse()) == STAY
  {
    hide Quat.Rotate, Quat.GetMatrix, Quat.Mul, Quat.Norm2, Quat.Conjugate;
    hide Mat3.Apply, Mat3.Mul, Mat3.Transpose, Vec3.Plus, Vec3.Times, Minus, Orthogonal;
    var p := a.q.Conjugate();
    MatrixOfProduct(a.q, b.q);
    MatrixOfConjugate(a.q);
    ConjugateInverts(a.q);
    UnitRotates(a.q);
    UnitRotates(p);
    TimesMinusOne(p.Rotate(a.x));
    ApplyIsLinear(p.GetMatrix(), a.x, a.x);
    PlusLaws(a.x, a.q.Rotate(v), ZERO);
    PlusLaws(a.x, a.q.Rotate(b.x), ZERO);
    MatrixIsOrthogonal(a.q);
    InverseUndoes(a.GetMatrix());
  }

  // ----- the objects -----

  /** The result of setMultResult on its own left operand: each column is computed with those before it
      already overwritten. */
  function OverLeft(a: Affine, b: Affine): Affine {
    var c0 := a.m.Apply(b.m.a0);
    var c1 := Mat3(c0, a.m.a1, a.m.a2).Apply(b.m.a1);
    var c2 := Mat3(c0, c1, a.m.a2).Apply(b.m.a2);
    Affine(Mat3(c0, c1, c2), Mat3(c0, c1, c2).Apply(b.x).Plus(a.x))
  }

  /** A matrix applied to a vector that the result overwrites component by component. */
  function ApplyOver(m: Mat3, v: Vec3, t: Vec3): Vec3 {
    var x := Dot(m.a0.x, m.a1.x, m.a2.x, v.x, v.y, v.z) + t.x;
    var y := Dot(m.a0.y, m.a1.y, m.a2.y, x, v.y, v.z) + t.y;
    Vec3(x, y, Dot(m.a0.z, m.a1.z, m.a2.z, x, y, v.z) + t.z)
  }

  /** The result of setMultResult on its own right operand. */
  function OverRight(a: Affine, b: Affine): Affine {
    Affine(Mat3(ApplyOver(a.m, b.m.a0, ZERO), ApplyOver(a.m, b.m.a1, ZERO), ApplyOver(a.m, b.m.a2, ZERO)),
           ApplyOver(a.m, b.x, a.x))
  }

  /** The result of setMultResult on an object that is both operands: each column is overwritten while it
      is read, and the later ones are computed with those before them already overwritten. */
  function OverBoth(a: Affine): Affine {
    var c0 := ApplyOver(a.m, a.m.a0, ZERO);
    var c1 := ApplyOver(Mat3(c0, a.m.a1, a.m.a2), a.m.a1, ZERO);
    var c2 := ApplyOver(Mat3(c0, c1, a.m.a2), a.m.a2, ZERO);
    Affine(Mat3(c0, c1, c2), ApplyOver(Mat3(c0, c1, c2), a.x, a.x))
  }

  /** What setMultResult leaves, left and right telling which operands are the object itself. */
  function Overwritten(left: bool, right: bool, a: Affine, b: Affine): Affine {
    if left && right then OverBoth(a)
    else if left then OverLeft(a, b)
    else if right then OverRight(a, b)
    else a.Mul(b)
  }

  // ----- when the product comes out all the same -----

  function Difference(u: Vec3, v: Vec3): Vec3 { u.Plus(Minus(v)) }

  /** How the columns of the product differ from those of its left operand. */
  function Change(a: Mat3, b: Mat3): Mat3 {
    var p := a.Mul(b);
    Mat3(Difference(p.a0, a.a0), Difference(p.a1, a.a1), Difference(p.a2, a.a2))
  }

  /** No column or position of b sees a change in the columns overwritten before it. */
  predicate LeftSafe(a: Affine, b: Affine) {
    var d := Change(a.m, b.m);
    && Mat3(d.a0, ZERO, ZERO).Apply(b.m.a1) == ZERO
    && Mat3(d.a0, d.a1, ZERO).Apply(b.m.a2) == ZERO
    && d.Apply(b.x) == ZERO
  }

  /** Overwriting v by w component by component, with rows that bring w + d when nothing is overwritten,
      brings w: the rows do not see that x, and then y, have changed. */
  predicate ComesOut(m: Mat3, v: Vec3, w: Vec3, d: Vec3) {
    && d.x == 0.0
    && d.y + Moved(m.a0.y, v.x, w.x) == 0.0
    && d.z + Moved(m.a0.z, v.x, w.x) + Moved(m.a1.z, v.y, w.y) == 0.0
  }

  /** What a row with this entry brings more when its factor changes from x to u. */
  function Moved(entry: real, x: real, u: real): real { entry * (u - x) }

  predicate RightSafe(a: Affine, b: Affine) {
    var p := a.Mul(b);
    && ComesOut(a.m, b.m.a0, p.m.a0, ZERO) && ComesOut(a.m, b.m.a1, p.m.a1, ZERO)
    && ComesOut(a.m, b.m.a2, p.m.a2, ZERO) && ComesOut(a.m, b.x, p.x, ZERO)
  }

  predicate BothSafe(a: Affine) {
    var p, d := a.Mul(a), Change(a.m, a.m);
    && ComesOut(a.m, a.m.a0, p.m.a0, ZERO)
    && ComesOut(Mat3(p.m.a0, a.m.a1, a.m.a2), a.m.a1, p.m.a1, Mat3(d.a0, ZERO, ZERO).Apply(a.m.a1))
    && ComesOut(Mat3(p.m.a0, p.m.a1, a.m.a2), a.m.a2, p.m.a2, Mat3(d.a0, d.a1, ZERO).Apply(a.m.a2))
    && ComesOut(p.m, a.x, p.x, d.Apply(a.x))
  }

  /** A condition on the operands for the product to come out. */
  predicate ProductIsSafe(left: bool, right: bool, a: Affine, b: Affine) {
    if left && right then BothSafe(a)
    else if left then LeftSafe(a, b)
    else if right then RightSafe(a, b)
    else true
  }

  lemma DotOfSums(a: real, b: real, c: real, d: real, e: real, f: real, x: real, y: real, z: real)
    ensures Dot(a + d, b + e, c + f, x, y, z) == Dot(a, b, c, x, y, z) + Dot(d, e, f, x, y, z)
  {
  }

  lemma SumApplies(a: Mat3, d: Mat3, v: Vec3)
    ensures Mat3(a.a0.Plus(d.a0), a.a1.Plus(d.a1), a.a2.Plus(d.a2)).Apply(v) == a.Apply(v).Plus(d.Apply(v))
  {
    hide Dot;
    DotOfSums(a.a0.x, a.a1.x, a.a2.x, d.a0.x, d.a1.x, d.a2.x, v.x, v.y, v.z);
    DotOfSums(a.a0.y, a.a1.y, a.a2.y, d.a0.y, d.a1.y, d.a2.y, v.x, v.y, v.z);
    DotOfSums(a.a0.z, a.a1.z, a.a2.z, d.a0.z, d.a1.z, d.a2.z, v.x, v.y, v.z);
  }

  lemma DifferenceLaws(u: Vec3, v: Vec3)
    ensures v.Plus(Difference(u, v)) == u && v.Plus(ZERO) == v
  {
  }

  lemma NothingAdded(u: Vec3, v: Vec3)
    ensures u.Plus(v) == u <==> v == ZERO
  {
    if u.Plus(v) == u { assert u.x + v.x == u.x && u.y + v.y == u.y && u.z + v.z == u.z; }
  }

  /** What the columns of a, some of them overwritten by those of the product, bring more than a. */
  lemma OverwrittenColumns(a: Mat3, b: Mat3, v: Vec3)
    ensures var p, d := a.Mul(b), Change(a, b);
      && Mat3(p.a0, a.a1, a.a2).Apply(v) == a.Apply(v).Plus(Mat3(d.a0, ZERO, ZERO).Apply(v))
      && Mat3(p.a0, p.a1, a.a2).Apply(v) == a.Apply(v).Plus(Mat3(d.a0, d.a1, ZERO).Apply(v))
      && p.Apply(v) == a.Apply(v).Plus(d.Apply(v))
  {
    hide Mat3.Apply, Mat3.Mul, Difference, Vec3.Plus;
    var p, d := a.Mul(b), Change(a, b);
    DifferenceLaws(p.a0, a.a0);
    DifferenceLaws(p.a1, a.a1);
    DifferenceLaws(p.a2, a.a2);
    SumApplies(a, Mat3(d.a0, ZERO, ZERO), v);
    SumApplies(a, Mat3(d.a0, d.a1, ZERO), v);
    SumApplies(a, d, v);
  }

  lemma PlusSwaps(u: Vec3, v: Vec3, w: Vec3)
    ensures u.Plus(v).Plus(w) == u.Plus(w).Plus(v)
  {
  }

  /** Over the left operand the product comes out exactly when this is safe. */
  lemma OverLeftIsProduct(a: Affine, b: Affine)
    ensures OverLeft(a, b) == a.Mul(b) <==> LeftSafe(a, b)
  {
    hide Mat3.Apply, Mat3.Mul, Vec3.Plus, Change;
    var p, d := a.Mul(b), Change(a.m, b.m);
    ProductColumns(a.m, b.m);
    OverwrittenColumns(a.m, b.m, b.m.a1);
    OverwrittenColumns(a.m, b.m, b.m.a2);
    OverwrittenColumns(a.m, b.m, b.x);
    NothingAdded(p.m.a1, Mat3(d.a0, ZERO, ZERO).Apply(b.m.a1));
    NothingAdded(p.m.a2, Mat3(d.a0, d.a1, ZERO).Apply(b.m.a2));
    NothingAdded(p.x, d.Apply(b.x));
    PlusSwaps(a.m.Apply(b.x), d.Apply(b.x), a.x);
  }

  lemma ProductColumns(a: Mat3, b: Mat3)
    ensures a.Mul(b) == Mat3(a.Apply(b.a0), a.Apply(b.a1), a.Apply(b.a2))
  {
    hide Mat3.Apply;
  }

  lemma DotShifts(a: real, b: real, c: real, x: real, y: real, z: real, u: real, v: real)
    ensures Dot(a, b, c, u, v, z) == Dot(a, b, c, x, y, z) + Moved(a, x, u) + Moved(b, y, v)
    ensures Dot(a, b, c, u, y, z) == Dot(a, b, c, x, y, z) + Moved(a, x, u)
  {
  }

  lemma OverwritingComesOut(m: Mat3, v: Vec3, t: Vec3, w: Vec3, d: Vec3)
    requires m.Apply(v).Plus(t) == w.Plus(d)
    ensures ApplyOver(m, v, t) == w <==> ComesOut(m, v, w, d)
  {
    hide Dot, Moved;
    DotShifts(m.a0.y, m.a1.y, m.a2.y, v.x, v.y, v.z, w.x, v.y);
    DotShifts(m.a0.z, m.a1.z, m.a2.z, v.x, v.y, v.z, w.x, w.y);
  }

  /** Over the right operand the product comes out exactly when this is safe. */
  lemma OverRightIsProduct(a: Affine, b: Affine)
    ensures OverRight(a, b) == a.Mul(b) <==> RightSafe(a, b)
  {
    hide Mat3.Apply, Mat3.Mul, Vec3.Plus, ApplyOver, ComesOut;
    var p := a.Mul(b);
    ProductColumns(a.m, b.m);
    DifferenceLaws(ZERO, p.m.a0);
    DifferenceLaws(ZERO, p.m.a1);
    DifferenceLaws(ZERO, p.m.a2);
    DifferenceLaws(ZERO, p.x);
    OverwritingComesOut(a.m, b.m.a0, ZERO, p.m.a0, ZERO);
    OverwritingComesOut(a.m, b.m.a1, ZERO, p.m.a1, ZERO);
    OverwritingComesOut(a.m, b.m.a2, ZERO, p.m.a2, ZERO);
    OverwritingComesOut(a.m, b.x, a.x, p.x, ZERO);
  }

  /** Over both operands at once the product comes out exactly when this is safe. */
  lemma OverBothIsProduct(a: Affine)
    ensures OverBoth(a) == a.Mul(a) <==> BothSafe(a)
  {
    hide Mat3.Apply, Mat3.Mul, Vec3.Plus, ApplyOver, ComesOut, Change;
    var p, d, m := a.Mul(a), Change(a.m, a.m), a.m;
    ProductColumns(m, m);
    var m1, m2 := Mat3(p.m.a0, m.a1, m.a2), Mat3(p.m.a0, p.m.a1, m.a2);
    OverwrittenColumns(m, m, m.a1);
    OverwrittenColumns(m, m, m.a2);
    OverwrittenColumns(m, m, a.x);
    DifferenceLaws(ZERO, p.m.a0);
    DifferenceLaws(ZERO, m1.Apply(m.a1));
    DifferenceLaws(ZERO, m2.Apply(m.a2));
    PlusSwaps(m.Apply(a.x), d.Apply(a.x), a.x);
    OverwritingComesOut(m, m.a0, ZERO, p.m.a0, ZERO);
    OverwritingComesOut(m1, m.a1, ZERO, p.m.a1, Mat3(d.a0, ZERO, ZERO).Apply(m.a1));
    OverwritingComesOut(m2, m.a2, ZERO, p.m.a2, Mat3(d.a0, d.a1, ZERO).Apply(m.a2));
    OverwritingComesOut(p.m, a.x, a.x, p.x, d.Apply(a.x));
  }

  /** Whichever operands are overwritten, the product comes out exactly when this is safe. */
  lemma ProductComesOut(left: bool, right: bool, a: Affine, b: Affine)
    requires left && right ==> a == b
    ensures Overwritten(left, right, a, b) == a.Mul(b) <==> ProductIsSafe(left, right, a, b)
  {
    hide OverLeft, OverRight, OverBoth, LeftSafe, RightSafe, BothSafe, Affine.Mul;
    OverLeftIsProduct(a, b);
    OverRightIsProduct(a, b);
    if left && right { OverBothIsProduct(a); }
  }

  class C4X4Matrix {
    var M: Mat3
    var X: Vec3

    constructor (m: Mat3, x: Vec3)
      ensures Value() == Affine(m, x)
    {
      M, X := m, x;
    }

    ghost function Value(): Affine
      reads this
    {
      Affine(M, X)
    }

    /** inverse(), in place: transposes by three exchanges, then turns the position. */
    method Inverse()
      modifies this
      ensures Value() == old(Value().Inverse())
    {
      var tmp := M.a0.y;
      M := M.(a0 := M.a0.(y := M.a1.x));
      M := M.(a1 := M.a1.(x := tmp));
      tmp := M.a0.z;
      M := M.(a0 := M.a0.(z := M.a2.x));
      M := M.(a2 := M.a2.(x := tmp));
      tmp := M.a1.z;
      M := M.(a1 := M.a1.(z := M.a2.y));
      M := M.(a2 := M.a2.(y := tmp));
      var v := Vec3(-X.x, -X.y, -X.z);
      X := X.(x := Dot(M.a0.x, M.a1.x, M.a2.x, v.x, v.y, v.z));
      X := X.(y := Dot(M.a0.y, M.a1.y, M.a2.y, v.x, v.y, v.z));
      X := X.(z := Dot(M.a0.z, M.a1.z, M.a2.z, v.x, v.y, v.z));
    }

    method GetInverse() returns (r: C4X4Matrix)
      ensures fresh(r) && r.Value() == Value().Inverse()
    {
      r := new C4X4Matrix(M, X);
      r.Inverse();
    }

    /** setMultResult(m1, m2). Over distinct objects this is the product, over its own operands exactly
        when that is safe. */
    method SetMultResult(m1: C4X4Matrix, m2: C4X4Matrix)
      modifies this
      ensures Value() == old(Overwritten(this == m1, this == m2, m1.Value(), m2.Value()))
      ensures Value() == old(m1.Value().Mul(m2.Value())) <==>
        old(ProductIsSafe(this == m1, this == m2, m1.Value(), m2.Value()))
    {
      hide Dot, ProductIsSafe;
      ProductComesOut(this == m1, this == m2, m1.Value(), m2.Value());
      M := M.(a0 := M.a0.(x := Dot(m1.M.a0.x, m1.M.a1.x, m1.M.a2.x, m2.M.a0.x, m2.M.a0.y, m2.M.a0.z)));
      M := M.(a0 := M.a0.(y := Dot(m1.M.a0.y, m1.M.a1.y, m1.M.a2.y, m2.M.a0.x, m2.M.a0.y, m2.M.a0.z)));
      M := M.(a0 := M.a0.(z := Dot(m1.M.a0.z, m1.M.a1.z, m1.M.a2.z, m2.M.a0.x, m2.M.a0.y, m2.M.a0.z)));
      M := M.(a1 := M.a1.(x := Dot(m1.M.a0.x, m1.M.a1.x, m1.M.a2.x, m2.M.a1.x, m2.M.a1.y, m2.M.a1.z)));
      M := M.(a1 := M.a1.(y := Dot(m1.M.a0.y, m1.M.a1.y, m1.M.a2.y, m2.M.a1.x, m2.M.a1.y, m2.M.a1.z)));
      M := M.(a1 := M.a1.(z := Dot(m1.M.a0.z, m1.M.a1.z, m1.M.a2.z, m2.M.a1.x, m2.M.a1.y, m2.M.a1.z)));
      M := M.(a2 := M.a2.(x := Dot(m1.M.a0.x, m1.M.a1.x, m1.M.a2.x, m2.M.a2.x, m2.M.a2.y, m2.M.a2.z)));
      M := M.(a2 := M.a2.(y := Dot(m1.M.a0.y, m1.M.a1.y, m1.M.a2.y, m2.M.a2.x, m2.M.a2.y, m2.M.a2.z)));
      M := M.(a2 := M.a2.(z := Dot(m1.M.a0.z, m1.M.a1.z, m1.M.a2.z, m2.M.a2.x, m2.M.a2.y, m2.M.a2.z)));
      X := X.(x := Dot(m1.M.a0.x, m1.M.a1.x, m1.M.a2.x, m2.X.x, m2.X.y, m2.X.z) + m1.X.x);
      X := X.(y := Dot(m1.M.a0.y, m1.M.a1.y, m1.M.a2.y, m2.X.x, m2.X.y, m2.X.z) + m1.X.y);
      X := X.(z := Dot(m1.M.a0.z, m1.M.a1.z, m1.M.a2.z, m2.X.x, m2.X.y, m2.X.z) + m1.X.z);
    }

    /** operator* for matrices. */
    method Times(m: C4X4Matrix) returns (r: C4X4Matrix)
      ensures fresh(r) && r.Value() == Value().Mul(m.Value())
    {
      r := new C4X4Matrix(IDENTITY, ZERO);
      r.SetMultResult(this, m);
    }

    /** operator*= for matrices; the operand may be this object. */
    method TimesAssign(m: C4X4Matrix)
      modifies this
      ensures Value() == old(Value().Mul(m.Value()))
    {
      var r := Times(m);
      M, X := r.M, r.X;
    }

    /** getTransformation: back to a quaternion and a position. */
    method GetTransformation(sqrt: real -> real) returns (r: C7Vector)
      requires IsRotation(M) && IsSquareRoot(sqrt)
      ensures fresh(r) && Unit(r.Q) && r.Value().GetMatrix() == Value()
    {
      var q, s := GetQuaternion(M, sqrt);
      r := new C7Vector(q, X);
    }
  }

  class C7Vector {
    var Q: Quat
    var X: Vec3

    constructor (q: Quat, x: Vec3)
      ensures Value() == Pose(q, x)
    {
      Q, X := q, x;
    }

    ghost function Value(): Pose
      reads this
    {
      Pose(Q, X)
    }

    /** setMultResult: the product, also if this object is an operand. */
    method SetMultResult(v1: C7Vector, v2: C7Vector)
      modifies this
      ensures Value() == old(v1.Value().Mul(v2.Value()))
    {
      X := v1.X.Plus(v1.Q.Rotate(v2.X));
      Q := v1.Q.Mul(v2.Q);
    }

    /** operator*: the product with its quaternion normalized, which is the product exactly if the product
        of the quaternions is a unit quaternion. */
    method Times(v: C7Vector, sqrt: real -> real) returns (r: C7Vector)
      requires IsSquareRoot(sqrt) && Q.Norm2() > 0.0 && v.Q.Norm2() > 0.0
      ensures fresh(r) && Unit(r.Q) && r.X == Value().Mul(v.Value()).x
      ensures var q := Value().Mul(v.Value()).q; sqrt(q.Norm2()) > 0.0 && Scaled(r.Q, sqrt(q.Norm2())) == q
      ensures r.Value() == Value().Mul(v.Value()) <==> Unit(Value().Mul(v.Value()).q)
      ensures Unit(Q) && Unit(v.Q) ==> r.Value() == Value().Mul(v.Value())
    {
      hide Quat.Norm2, Quat.Mul, Quat.Rotate, Scaled;
      var x, q := X.Plus(Q.Rotate(v.X)), Q.Mul(v.Q);
      NormOfProduct(Q, v.Q);
      BothPositive(Q.Norm2(), v.Q.Norm2());
      q := Normalized(q, sqrt);
      r := new C7Vector(q, x);
    }

    /** operator*=; the operand may be this object. */
    method TimesAssign(v: C7Vector)
      modifies this
      ensures Value() == old(Value().Mul(v.Value()))
    {
      X := X.Plus(Q.Rotate(v.X));
      Q := Q.Mul(v.Q);
    }

    method GetInverse() returns (r: C7Vector)
      ensures fresh(r) && r.Value() == Value().Inverse()
    {
      var q := Q.Conjugate();
      r := new C7Vector(q, q.Rotate(X).Times(-1.0));
    }

    method Inverse()
      modifies this
      ensures Value() == old(Value().Inverse())
    {
      var r := GetInverse();
      Q, X := r.Q, r.X;
    }

    method GetMatrix() returns (m: C4X4Matrix)
      ensures fresh(m) && m.Value() == Value().GetMatrix()
    {
      m := new C4X4Matrix(Q.GetMatrix(), X);
    }
  }

  lemma BothPositive(a: real, b: real)
    requires a > 0.0 && b > 0.0
    ensures a * b > 0.0
  {
  }

  /** A quarter turn about the third axis. */
  const QUARTER := Affine(Mat3(Vec3(0.0, 1.0, 0.0), Vec3(-1.0, 0.0, 0.0), Vec3(0.0, 0.0, 1.0)), ZERO)

  /** The product of two quarter turns comes out over neither operand, nor over both. */
  lemma QuarterTurnIsNotSafe()
    ensures OverLeft(QUARTER, QUARTER) != QUARTER.Mul(QUARTER)
    ensures OverRight(QUARTER, QUARTER) != QUARTER.Mul(QUARTER)
    ensures OverBoth(QUARTER) != QUARTER.Mul(QUARTER)
  {
    hide Mat3.Apply, Dot, Vec3.Plus, ApplyOver;
    var m := QUARTER.m;
    QuarterTurns(m.a0);
    QuarterTurns(m.a1);
    QuarterOverLeft(m.Apply(m.a0), m.a1);
    QuarterOverRight(m.a0);
    assert OverLeft(QUARTER, QUARTER).m.a1.x == 1.0;
    assert OverRight(QUARTER, QUARTER).m.a0.y == OverBoth(QUARTER).m.a0.y == -1.0;
  }

  lemma QuarterTurns(v: Vec3)
    ensures QUARTER.m.Apply(v) == Vec3(-v.y, v.x, v.z)
  {
  }

  lemma QuarterOverLeft(c: Vec3, v: Vec3)
    requires c == Vec3(-1.0, 0.0, 0.0)
    ensures Mat3(c, QUARTER.m.a1, QUARTER.m.a2).Apply(v).x == -v.x - v.y
  {
  }

  lemma QuarterOverRight(v: Vec3)
    ensures ApplyOver(QUARTER.m, v, ZERO).y == -v.y
  {
  }

  /** Multiplying by quaternions and converting, and converting and multiplying by matrices, come to the
      same, and inverting in place undoes the result. */
  method ProductThroughMatrices(a: C7Vector, b: C7Vector, sqrt: real -> real) returns (m: C4X4Matrix, n: C4X4Matrix)
    requires Unit(a.Q) && Unit(b.Q) && IsSquareRoot(sqrt)
    ensures m.Value() == n.Value().Inverse() && n.Value() == a.Value().Mul(b.Value()).GetMatrix()
    ensures m.Value().Mul(n.Value()) == n.Value().Mul(m.Value()) == STAY
  {
    var product := a.Times(b, sqrt);
    n := product.GetMatrix();
    var ma := a.GetMatrix();
    var mb := b.GetMatrix();
    m := ma.Times(mb);
    MatrixAgrees(a.Value(), b.Value(), ZERO);
    assert m.Value() == n.Value();
    m.Inverse();
    MatrixIsOrthogonal(product.Q);
    InverseUndoes(n.Value());
  }
}
