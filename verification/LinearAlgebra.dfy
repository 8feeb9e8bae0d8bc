/** Vectors, square matrices and linear systems over exact reals: the vocabulary in which
    the in-place Gauss-Jordan inverse of `MMatrix.dfy` is specified. */
module LinearAlgebra {

  type Vec = seq<real>
  type Mat = seq<seq<real>>

  ghost predicate Shape(m: Mat, rows: nat, cols: nat) {
    |m| == rows && forall r | 0 <= r < rows :: |m[r]| == cols
  }

  /** The sum of the first k products, the partial sum a product loop has accumulated. */
  function DotTo(a: Vec, b: Vec, k: nat): real
    requires k <= |a| && k <= |b|
  {
    if k == 0 then 0.0 else DotTo(a, b, k - 1) + a[k - 1] * b[k - 1]
  }

  function Dot(a: Vec, b: Vec): real
    requires |a| == |b|
  {
    DotTo(a, b, |a|)
  }

  function Column(m: Mat, cols: nat, c: nat): (v: Vec)
    requires Shape(m, |m|, cols) && c < cols
    ensures |v| == |m|
  {
    seq(|m|, r requires 0 <= r < |m| => m[r][c])
  }

  /** The matrix product. */
  ghost function Mul(a: Mat, b: Mat, inner: nat, cols: nat): Mat
    requires Shape(a, |a|, inner) && Shape(b, inner, cols)
  {
    seq(|a|, r requires 0 <= r < |a| =>
      seq(cols, c requires 0 <= c < cols => Dot(a[r], Column(b, cols, c))))
  }

  ghost function Unit(n: nat, j: nat): Vec {
    seq(n, i => if i == j then 1.0 else 0.0)
  }

  ghost function Identity(n: nat): Mat {
    seq(n, i requires 0 <= i < n => Unit(n, i))
  }

  ghost function Zeros(n: nat): Vec {
    seq(n, _ => 0.0)
  }

  /** x solves the linear system m.x == y. */
  ghost predicate Solves(m: Mat, x: Vec, y: Vec)
    requires Shape(m, |m|, |x|) && |y| == |m|
  {
    forall r | 0 <= r < |m| :: y[r] == Dot(m[r], x)
  }

  /** b is a two-sided inverse of the n by n matrix a. */
  ghost predicate AreInverse(a: Mat, b: Mat, n: nat)
    requires Shape(a, n, n) && Shape(b, n, n)
  {
    Mul(a, b, n, n) == Identity(n) && Mul(b, a, n, n) == Identity(n)
  }

  /** a maps a nonzero vector to zero. */
  ghost predicate Singular(a: Mat, n: nat)
    requires Shape(a, n, n)
  {
    exists x: Vec :: |x| == n && x != Zeros(n) && Solves(a, x, Zeros(n))
  }

  // ----- sums of products -----

  lemma {:induction false} DotUpdate(a: Vec, b: Vec, p: nat, t: real, k: nat)
    requires k <= |a| == |b| && p < |b|
    ensures DotTo(a, b[p := t], k) == DotTo(a, b, k) + if p < k then a[p] * (t - b[p]) else 0.0
  {
    if k != 0 {
      DotUpdate(a, b, p, t, k - 1);
      if p == k - 1 {
        assert a[p] * t == a[p] * b[p] + a[p] * (t - b[p]);
      }
    }
  }

  lemma {:induction false} DotCommutes(a: Vec, b: Vec, k: nat)
    requires k <= |a| == |b|
    ensures DotTo(a, b, k) == DotTo(b, a, k)
  {
    if k != 0 { DotCommutes(a, b, k - 1); }
  }

  lemma {:induction false} DotReduce(a: Vec, c: Vec, d: real, reduced: Vec, b: Vec, k: nat)
    requires k <= |a| == |b| == |c| == |reduced|
    requires forall i | 0 <= i < |a| :: reduced[i] == a[i] - c[i] * d
    ensures DotTo(reduced, b, k) == DotTo(a, b, k) - d * DotTo(c, b, k)
  {
    if k != 0 {
      DotReduce(a, c, d, reduced, b, k - 1);
      var i := k - 1;
      assert (a[i] - c[i] * d) * b[i] == a[i] * b[i] - d * (c[i] * b[i]);
      assert d * (DotTo(c, b, i) + c[i] * b[i]) == d * DotTo(c, b, i) + d * (c[i] * b[i]);
    }
  }

  lemma {:induction false} DotIncrease(a: Vec, c: Vec, d: real, increased: Vec, b: Vec, k: nat)
    requires k <= |a| == |b| == |c| == |increased|
    requires forall i | 0 <= i < |a| :: increased[i] == a[i] + d * c[i]
    ensures DotTo(increased, b, k) == DotTo(a, b, k) + d * DotTo(c, b, k)
  {
    if k != 0 {
      DotIncrease(a, c, d, increased, b, k - 1);
      var i := k - 1;
      assert (a[i] + d * c[i]) * b[i] == a[i] * b[i] + d * (c[i] * b[i]);
      assert d * (DotTo(c, b, i) + c[i] * b[i]) == d * DotTo(c, b, i) + d * (c[i] * b[i]);
    }
  }

  lemma {:induction false} DotScale(a: Vec, s: real, scaled: Vec, b: Vec, k: nat)
    requires k <= |a| == |b| == |scaled|
    requires forall i | 0 <= i < |a| :: scaled[i] == a[i] * s
    ensures DotTo(scaled, b, k) == s * DotTo(a, b, k)
  {
    if k != 0 {
      DotScale(a, s, scaled, b, k - 1);
      var i := k - 1;
      assert (a[i] * s) * b[i] == s * (a[i] * b[i]);
      assert s * (DotTo(a, b, i) + a[i] * b[i]) == s * DotTo(a, b, i) + s * (a[i] * b[i]);
    }
  }

  lemma {:induction false} DotZeros(a: Vec, k: nat)
    requires k <= |a|
    ensures DotTo(a, Zeros(|a|), k) == 0.0
  {
    if k != 0 { DotZeros(a, k - 1); }
  }

  lemma DotUnit(a: Vec, j: nat)
    requires j < |a|
    ensures Dot(a, Unit(|a|, j)) == a[j]
  {
    DotZeros(a, |a|);
    DotUpdate(a, Zeros(|a|), j, 1.0, |a|);
    assert Unit(|a|, j) == Zeros(|a|)[j := 1.0];
  }

  // ----- inverses as solved systems -----

  lemma ColumnSolves(b: Mat, n: nat, j: nat)
    requires Shape(b, n, n) && j < n
    ensures Solves(b, Unit(n, j), Column(b, n, j))
  {
    forall r | 0 <= r < n ensures Column(b, n, j)[r] == Dot(b[r], Unit(n, j)) {
      DotUnit(b[r], j);
    }
  }

  /** Half of the theorem: every column of b solves a.x == e_j. */
  lemma SolvingColumnsInvert(a: Mat, b: Mat, n: nat)
    requires Shape(a, n, n) && Shape(b, n, n)
    requires forall x: Vec, y: Vec | |x| == n && |y| == n && Solves(b, y, x) :: Solves(a, x, y)
    ensures Mul(a, b, n, n) == Identity(n)
  {
    forall r, c | 0 <= r < n && 0 <= c < n ensures Mul(a, b, n, n)[r][c] == Identity(n)[r][c] {
      ColumnSolves(b, n, c);
      assert Solves(a, Column(b, n, c), Unit(n, c));
    }
    forall r | 0 <= r < n ensures Mul(a, b, n, n)[r] == Identity(n)[r] {
      assert |Mul(a, b, n, n)[r]| == n == |Identity(n)[r]|;
    }
  }

  /** Two matrices that solve each other's systems, for all vectors, are inverse. */
  lemma SolvingMatricesAreInverse(a: Mat, b: Mat, n: nat)
    requires Shape(a, n, n) && Shape(b, n, n)
    requires forall x: Vec, y: Vec | |x| == n && |y| == n :: Solves(a, x, y) <==> Solves(b, y, x)
    ensures AreInverse(a, b, n)
  {
    SolvingColumnsInvert(a, b, n);
    SolvingColumnsInvert(b, a, n);
  }

  /** The combination of the first k rows of b with the coefficients x. */
  ghost function Combination(x: Vec, b: Mat, cols: nat, k: nat): (v: Vec)
    requires Shape(b, |x|, cols) && k <= |x|
    ensures |v| == cols
  {
    seq(cols, c requires 0 <= c < cols => DotTo(x, Column(b, cols, c), k))
  }

  /** b.y */
  ghost function Image(b: Mat, y: Vec): (v: Vec)
    requires Shape(b, |b|, |y|)
    ensures |v| == |b|
  {
    seq(|b|, r requires 0 <= r < |b| => Dot(b[r], y))
  }

  lemma CombinationOfNothing(x: Vec, b: Mat, cols: nat)
    requires Shape(b, |x|, cols)
    ensures Combination(x, b, cols, 0) == Zeros(cols)
  {
  }

  /** One more row enters a combination as a multiple of that row. */
  lemma CombinationStep(x: Vec, b: Mat, cols: nat, k: nat)
    requires Shape(b, |x|, cols) && 0 < k <= |x|
    ensures forall c | 0 <= c < cols ::
              Combination(x, b, cols, k)[c] == Combination(x, b, cols, k - 1)[c] + x[k - 1] * b[k - 1][c]
  {
    forall c | 0 <= c < cols
      ensures Combination(x, b, cols, k)[c] == Combination(x, b, cols, k - 1)[c] + x[k - 1] * b[k - 1][c]
    {
      var column := Column(b, cols, c);
      assert column[k - 1] == b[k - 1][c];
      hide Column;
      assert DotTo(x, column, k) == DotTo(x, column, k - 1) + x[k - 1] * column[k - 1];
    }
  }

  lemma DotStep(a: Vec, b: Vec, k: nat, last: real)
    requires 0 < k <= |a| && k <= |b| && b[k - 1] == last
    ensures DotTo(a, b, k) == DotTo(a, b, k - 1) + a[k - 1] * last
  {
  }

  lemma DotOfNothing(a: Vec, b: Vec)
    ensures DotTo(a, b, 0) == 0.0
  {
  }

  /** A double sum may be taken in either order. */
  lemma {:induction false} DotTransposes(x: Vec, b: Mat, y: Vec, k: nat)
    requires Shape(b, |x|, |y|) && k <= |x|
    ensures Dot(Combination(x, b, |y|, k), y) == DotTo(x, Image(b, y), k)
  {
    hide Column, Combination, DotTo, Zeros;
    var n := |y|;
    var left, image := Combination(x, b, n, k), Image(b, y);
    if k == 0 {
      CombinationOfNothing(x, b, n);
      DotZeros(y, n);
      DotCommutes(left, y, n);
      DotOfNothing(x, image);
    } else {
      DotTransposes(x, b, y, k - 1);
      CombinationStep(x, b, n, k);
      DotIncrease(Combination(x, b, n, k - 1), b[k - 1], x[k - 1], left, y, n);
      DotStep(x, image, k, DotTo(b[k - 1], y, n));
    }
  }

  // ----- what the product does -----

  lemma MulRow(a: Mat, b: Mat, inner: nat, cols: nat, r: nat)
    requires Shape(a, |a|, inner) && Shape(b, inner, cols) && r < |a|
    ensures Mul(a, b, inner, cols)[r] == Combination(a[r], b, cols, inner)
  {
    hide Column, DotTo;
  }

  /** The product maps a vector as its factors do, one after the other. */
  lemma MulActs(a: Mat, b: Mat, x: Vec, inner: nat)
    requires Shape(a, |a|, inner) && Shape(b, inner, |x|)
    ensures Image(Mul(a, b, inner, |x|), x) == Image(a, Image(b, x))
  {
    hide Mul, Combination, DotTo;
    var product := Mul(a, b, inner, |x|);
    assert Shape(product, |a|, |x|) by { MulShape(a, b, inner, |x|); }
    forall r | 0 <= r < |a| ensures Image(product, x)[r] == Image(a, Image(b, x))[r] {
      MulRow(a, b, inner, |x|, r);
      DotTransposes(a[r], b, x, inner);
    }
  }

  lemma MulShape(a: Mat, b: Mat, inner: nat, cols: nat)
    requires Shape(a, |a|, inner) && Shape(b, inner, cols)
    ensures Shape(Mul(a, b, inner, cols), |a|, cols)
  {
  }

  lemma ColumnOfMul(a: Mat, b: Mat, inner: nat, cols: nat, c: nat)
    requires Shape(a, |a|, inner) && Shape(b, inner, cols) && c < cols
    ensures Shape(Mul(a, b, inner, cols), |a|, cols)
    ensures Column(Mul(a, b, inner, cols), cols, c) == Image(a, Column(b, cols, c))
  {
    hide DotTo;
    MulShape(a, b, inner, cols);
  }

  /** Products of matrices of any fitting shapes associate. */
  lemma MulAssociates(a: Mat, b: Mat, c: Mat, n: nat, m: nat, cols: nat)
    requires Shape(a, |a|, n) && Shape(b, n, m) && Shape(c, m, cols)
    ensures Shape(Mul(a, b, n, m), |a|, m) && Shape(Mul(b, c, m, cols), n, cols)
    ensures Mul(Mul(a, b, n, m), c, m, cols) == Mul(a, Mul(b, c, m, cols), n, cols)
  {
    hide Mul, Image, Column;
    MulShape(a, b, n, m);
    MulShape(b, c, m, cols);
    var left, right := Mul(Mul(a, b, n, m), c, m, cols), Mul(a, Mul(b, c, m, cols), n, cols);
    MulShape(Mul(a, b, n, m), c, m, cols);
    MulShape(a, Mul(b, c, m, cols), n, cols);
    forall j | 0 <= j < cols ensures Column(left, cols, j) == Column(right, cols, j) {
      ColumnOfMul(Mul(a, b, n, m), c, m, cols, j);
      MulActs(a, b, Column(c, cols, j), n);
      ColumnOfMul(b, c, m, cols, j);
      ColumnOfMul(a, Mul(b, c, m, cols), n, cols, j);
    }
    SameColumns(left, right, |a|, cols);
  }

  lemma SameColumns(a: Mat, b: Mat, rows: nat, cols: nat)
    requires Shape(a, rows, cols) && Shape(b, rows, cols)
    requires forall j | 0 <= j < cols :: Column(a, cols, j) == Column(b, cols, j)
    ensures a == b
  {
    forall r | 0 <= r < rows ensures a[r] == b[r] {
      forall j | 0 <= j < cols ensures a[r][j] == b[r][j] {
        assert Column(a, cols, j)[r] == a[r][j] && Column(b, cols, j)[r] == b[r][j];
      }
    }
  }

  /** A matrix with a left inverse is not singular. */
  lemma InvertibleIsNotSingular(a: Mat, b: Mat, n: nat)
    requires Shape(a, n, n) && Shape(b, n, n) && AreInverse(a, b, n)
    ensures !Singular(a, n)
  {
    forall x: Vec | |x| == n && Solves(a, x, Zeros(n)) ensures x == Zeros(n) {
      forall i | 0 <= i < n ensures x[i] == 0.0 {
        DotTransposes(b[i], a, x, n);
        assert Mul(b, a, n, n)[i] == Unit(n, i);
        assert Combination(b[i], a, n, n) == Unit(n, i);
        assert Image(a, x) == Zeros(n);
        DotZeros(b[i], n);
        DotUnit(x, i);
        DotCommutes(x, Unit(n, i), n);
      }
    }
  }
}
