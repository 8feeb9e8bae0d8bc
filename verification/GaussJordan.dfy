/** The steps of the in-place Gauss-Jordan elimination as functions on values, and what they
    do to the linear system the half-transformed matrix stands for.

    A column that has served as pivot holds a column of the inverse under construction; any
    other column still belongs to the reduced matrix. Reading the matrix as a linear system
    in which the finished coordinates of x and y have changed sides (with a minus sign) makes
    every step an equivalence of systems. */
module GaussJordan {
  import opened LinearAlgebra

  datatype Swap = Swap(row: nat, col: nat)

  // ----- the steps -----

  function Exchanged<T>(s: seq<T>, i: nat, j: nat): (t: seq<T>)
    requires i < |s| && j < |s|
    ensures |t| == |s|
  {
    s[i := s[j]][j := s[i]]
  }

  /** The pivot row once its pivot is set to 1 and the row is multiplied by 1/pivot. */
  function ScaledRow(row: Vec, p: nat): (t: Vec)
    requires p < |row| && row[p] != 0.0
    ensures |t| == |row|
  {
    seq(|row|, l requires 0 <= l < |row| => row[p := 1.0][l] * (1.0 / row[p]))
  }

  /** Another row once its pivot entry is cleared and the pivot row subtracted. */
  function ReducedRow(row: Vec, pivotRow: Vec, p: nat): (t: Vec)
    requires p < |row| == |pivotRow|
    ensures |t| == |row|
  {
    seq(|row|, l requires 0 <= l < |row| => row[p := 0.0][l] - pivotRow[l] * row[p])
  }

  ghost function Pivoted(m: Mat, n: nat, p: nat): (t: Mat)
    requires Shape(m, n, n) && p < n && m[p][p] != 0.0
    ensures Shape(t, n, n)
  {
    seq(n, r requires 0 <= r < n =>
      if r == p then ScaledRow(m[p], p) else ReducedRow(m[r], ScaledRow(m[p], p), p))
  }

  ghost function SwapColumns(m: Mat, n: nat, i: nat, j: nat): (t: Mat)
    requires Shape(m, n, n) && i < n && j < n
    ensures Shape(t, n, n)
  {
    seq(n, r requires 0 <= r < n => Exchanged(m[r], i, j))
  }

  lemma SwapWithItself(m: Mat, n: nat, i: nat)
    requires Shape(m, n, n) && i < n
    ensures SwapColumns(m, n, i, i) == m
  {
    forall r | 0 <= r < n ensures SwapColumns(m, n, i, i)[r] == m[r] {
    }
  }

  // ----- the system the half-transformed matrix stands for -----

  ghost predicate SwapsIn(swaps: seq<Swap>, n: nat) {
    forall i | 0 <= i < |swaps| :: swaps[i].row < n && swaps[i].col < n
  }

  /** The row exchanges so far, applied in order to a right-hand side. */
  ghost function Permuted(swaps: seq<Swap>, y: Vec): (z: Vec)
    requires SwapsIn(swaps, |y|)
    ensures |z| == |y|
  {
    if swaps == [] then y
    else
      var last := swaps[|swaps| - 1];
      Exchanged(Permuted(swaps[..|swaps| - 1], y), last.row, last.col)
  }

  ghost function Inputs(done: set<nat>, x: Vec, z: Vec): (u: Vec)
    requires |x| == |z|
    ensures |u| == |x|
  {
    seq(|x|, c requires 0 <= c < |x| => if c in done then -z[c] else x[c])
  }

  /** m, read with the coordinates in `done` on exchanged sides, is the system a.x == y. */
  ghost predicate Linked(a: Mat, m: Mat, n: nat, done: set<nat>, swaps: seq<Swap>) {
    Shape(a, n, n) && Shape(m, n, n) && SwapsIn(swaps, n) &&
    forall x: Vec, y: Vec | |x| == n && |y| == n ::
      Solves(a, x, y) <==>
      Solves(m, Inputs(done, x, Permuted(swaps, y)), Inputs(done, Permuted(swaps, y), x))
  }

  lemma LinkedAtStart(a: Mat, n: nat)
    requires Shape(a, n, n)
    ensures Linked(a, a, n, {}, [])
  {
    forall x: Vec, y: Vec | |x| == n && |y| == n
      ensures Inputs({}, x, y) == x && Inputs({}, y, x) == y
    {
    }
  }

  lemma RowSwapKeepsSystem(m: Mat, u: Vec, v: Vec, n: nat, i: nat, j: nat)
    requires Shape(m, n, n) && |u| == |v| == n && i < n && j < n
    ensures Solves(m, u, v) <==> Solves(Exchanged(m, i, j), u, Exchanged(v, i, j))
  {
    var m', v' := Exchanged(m, i, j), Exchanged(v, i, j);
    forall r | 0 <= r < n
      ensures var s := if r == i then j else if r == j then i else r;
        m'[r] == m[s] && v'[r] == v[s] && m[r] == m'[s] && v[r] == v'[s]
    {
    }
  }

  lemma ScaledRowProduct(row: Vec, u: Vec, p: nat, vp: real)
    requires p < |row| == |u| && row[p] != 0.0
    ensures Dot(ScaledRow(row, p), u[p := -vp]) == (1.0 / row[p]) * (Dot(row, u) - vp) - u[p]
  {
    var n, one, u' := |row|, row[p := 1.0], u[p := -vp];
    DotScale(one, 1.0 / row[p], ScaledRow(row, p), u', n);
    DotUpdate(one, u, p, -vp, n);
    DotCommutes(row, u, n);
    DotUpdate(u, row, p, 1.0, n);
    DotCommutes(u, one, n);
    var d, q := Dot(row, u), 1.0 / row[p];
    assert DotTo(one, u', n) == d - vp - u[p] * row[p];
    assert q * row[p] == 1.0;
    assert q * (u[p] * row[p]) == u[p] by { assert (q * row[p]) * u[p] == q * (u[p] * row[p]); }
    assert q * (d - vp - u[p] * row[p]) == q * (d - vp) - q * (u[p] * row[p]);
  }

  lemma ReducedRowProduct(row: Vec, pivotRow: Vec, u: Vec, p: nat, vp: real)
    requires p < |row| == |u| == |pivotRow|
    ensures Dot(ReducedRow(row, pivotRow, p), u[p := -vp])
         == Dot(row, u) - row[p] * u[p] - row[p] * Dot(pivotRow, u[p := -vp])
  {
    var n, zero, u' := |row|, row[p := 0.0], u[p := -vp];
    DotReduce(zero, pivotRow, row[p], ReducedRow(row, pivotRow, p), u', n);
    DotUpdate(zero, u, p, -vp, n);
    DotCommutes(row, u, n);
    DotUpdate(u, row, p, 0.0, n);
    DotCommutes(u, zero, n);
  }

  /** By how much the pivot equation is off, divided by the pivot. */
  ghost function Residue(m: Mat, n: nat, u: Vec, v: Vec, p: nat): (e: real)
    requires Shape(m, n, n) && |u| == |v| == n && p < n && m[p][p] != 0.0
    ensures e == 0.0 <==> v[p] == Dot(m[p], u)
  {
    var q, off := 1.0 / m[p][p], Dot(m[p], u) - v[p];
    assert m[p][p] * q == 1.0;
    assert m[p][p] * (q * off) == (m[p][p] * q) * off;
    q * off
  }

  lemma PivotedProduct(m: Mat, n: nat, u: Vec, v: Vec, p: nat, r: nat)
    requires Shape(m, n, n) && |u| == |v| == n && p < n && r < n && m[p][p] != 0.0
    ensures var e := Residue(m, n, u, v, p);
      Dot(Pivoted(m, n, p)[r], u[p := -v[p]]) == if r == p then e - u[p] else Dot(m[r], u) - m[r][p] * e
  {
    var e := Residue(m, n, u, v, p);
    ScaledRowProduct(m[p], u, p, v[p]);
    if r != p {
      ReducedRowProduct(m[r], ScaledRow(m[p], p), u, p, v[p]);
      assert m[r][p] * (e - u[p]) == m[r][p] * e - m[r][p] * u[p];
    }
  }

  /** Pivoting on p moves the p-th coordinates of the two sides across the equation. */
  lemma PivotKeepsSystem(m: Mat, n: nat, u: Vec, v: Vec, p: nat)
    requires Shape(m, n, n) && |u| == |v| == n && p < n && m[p][p] != 0.0
    ensures Solves(m, u, v) <==> Solves(Pivoted(m, n, p), u[p := -v[p]], v[p := -u[p]])
  {
    hide DotTo, Pivoted;
    var t, u', v' := Pivoted(m, n, p), u[p := -v[p]], v[p := -u[p]];
    var e := Residue(m, n, u, v, p);
    forall r | 0 <= r < n ensures
      Dot(t[r], u') == if r == p then e - u[p] else Dot(m[r], u) - m[r][p] * e
    {
      PivotedProduct(m, n, u, v, p, r);
    }
    if e == 0.0 {
      forall r | 0 <= r < n ensures v'[r] == Dot(t[r], u') <==> v[r] == Dot(m[r], u) {
      }
    } else {
      assert v[p] != Dot(m[p], u) && v'[p] != Dot(t[p], u');
    }
  }

  /** What one round does to the exchanged coordinates. */
  lemma RoundCoordinates(done: set<nat>, x: Vec, z: Vec, i: nat, p: nat)
    requires |x| == |z| && i < |x| && p < |x| && i !in done && p !in done
    ensures var z', u, v := Exchanged(z, i, p), Inputs(done, x, z), Exchanged(Inputs(done, z, x), i, p);
      && u == Inputs(done, x, z') && v == Inputs(done, z', x)
      && u[p := -v[p]] == Inputs(done + {p}, x, z')
      && v[p := -u[p]] == Inputs(done + {p}, z', x)
  {
  }

  lemma RoundKeepsSystem(m: Mat, n: nat, done: set<nat>, x: Vec, z: Vec, i: nat, p: nat)
    requires Shape(m, n, n) && |x| == |z| == n && i < n && p < n && i !in done && p !in done
    requires Exchanged(m, i, p)[p][p] != 0.0
    ensures var z' := Exchanged(z, i, p);
      Solves(m, Inputs(done, x, z), Inputs(done, z, x)) <==>
      Solves(Pivoted(Exchanged(m, i, p), n, p), Inputs(done + {p}, x, z'), Inputs(done + {p}, z', x))
  {
    var u, v := Inputs(done, x, z), Inputs(done, z, x);
    RowSwapKeepsSystem(m, u, v, n, i, p);
    PivotKeepsSystem(Exchanged(m, i, p), n, u, Exchanged(v, i, p), p);
    RoundCoordinates(done, x, z, i, p);
  }

  /** One round of elimination: exchange two free rows, then pivot on a free column. */
  lemma RoundKeepsLink(a: Mat, m: Mat, n: nat, done: set<nat>, swaps: seq<Swap>, s: Swap)
    requires Linked(a, m, n, done, swaps)
    requires s.row < n && s.col < n && s.row !in done && s.col !in done
    requires Exchanged(m, s.row, s.col)[s.col][s.col] != 0.0
    ensures Linked(a, Pivoted(Exchanged(m, s.row, s.col), n, s.col), n, done + {s.col}, swaps + [s])
  {
    var t := Pivoted(Exchanged(m, s.row, s.col), n, s.col);
    assert (swaps + [s])[..|swaps|] == swaps;
    forall x: Vec, y: Vec | |x| == n && |y| == n
      ensures Solves(a, x, y) <==>
        Solves(t, Inputs(done + {s.col}, x, Permuted(swaps + [s], y)),
                  Inputs(done + {s.col}, Permuted(swaps + [s], y), x))
    {
      RoundKeepsSystem(m, n, done, x, Permuted(swaps, y), s.row, s.col);
    }
  }

  // ----- undoing the exchanges -----

  /** m maps the permuted right-hand side of a.x == y back to x. */
  ghost predicate Unscrambles(a: Mat, m: Mat, n: nat, swaps: seq<Swap>) {
    Shape(a, n, n) && Shape(m, n, n) && SwapsIn(swaps, n) &&
    forall x: Vec, y: Vec | |x| == n && |y| == n ::
      Solves(a, x, y) <==> Solves(m, Permuted(swaps, y), x)
  }

  lemma NegatedSystem(m: Mat, n: nat, u: Vec, v: Vec, u': Vec, v': Vec)
    requires Shape(m, n, n) && |u| == |v| == |u'| == |v'| == n
    requires forall i | 0 <= i < n :: u'[i] == -u[i] && v'[i] == -v[i]
    ensures Solves(m, u, v) <==> Solves(m, u', v')
  {
    forall r | 0 <= r < n ensures Dot(m[r], u') == -Dot(m[r], u) {
      DotScale(u, -1.0, u', m[r], n);
      DotCommutes(u, m[r], n);
      DotCommutes(u', m[r], n);
    }
    if Solves(m, u, v) {
      forall r | 0 <= r < n ensures v'[r] == Dot(m[r], u') { assert v[r] == Dot(m[r], u); }
    }
    if Solves(m, u', v') {
      forall r | 0 <= r < n ensures v[r] == Dot(m[r], u) { assert v'[r] == Dot(m[r], u'); }
    }
  }

  lemma AllDoneUnscrambles(a: Mat, m: Mat, n: nat, done: set<nat>, swaps: seq<Swap>)
    requires Linked(a, m, n, done, swaps)
    requires forall i: nat | i < n :: i in done
    ensures Unscrambles(a, m, n, swaps)
  {
    forall x: Vec, y: Vec | |x| == n && |y| == n
      ensures Solves(a, x, y) <==> Solves(m, Permuted(swaps, y), x)
    {
      var z := Permuted(swaps, y);
      NegatedSystem(m, n, z, x, Inputs(done, x, z), Inputs(done, z, x));
    }
  }

  lemma ExchangedProduct(a: Vec, b: Vec, i: nat, j: nat)
    requires |a| == |b| && i < |a| && j < |a|
    ensures Dot(Exchanged(a, i, j), b) == Dot(a, Exchanged(b, i, j))
  {
    var n := |a|;
    DotUpdate(a, b, i, b[j], n);
    DotUpdate(a, b[i := b[j]], j, b[i], n);
    DotCommutes(a, b, n);
    DotUpdate(b, a, i, a[j], n);
    DotUpdate(b, a[i := a[j]], j, a[i], n);
    DotCommutes(b, Exchanged(a, i, j), n);
    assert a[i] * (b[j] - b[i]) + a[j] * (b[i] - b[j]) == b[i] * (a[j] - a[i]) + b[j] * (a[i] - a[j]);
  }

  lemma ColumnSwapUndoesExchange(a: Mat, m: Mat, n: nat, swaps: seq<Swap>)
    requires Unscrambles(a, m, n, swaps) && swaps != []
    ensures var last := swaps[|swaps| - 1];
      Unscrambles(a, SwapColumns(m, n, last.row, last.col), n, swaps[..|swaps| - 1])
  {
    var last, before := swaps[|swaps| - 1], swaps[..|swaps| - 1];
    var t := SwapColumns(m, n, last.row, last.col);
    forall x: Vec, y: Vec | |x| == n && |y| == n
      ensures Solves(a, x, y) <==> Solves(t, Permuted(before, y), x)
    {
      var z := Permuted(before, y);
      forall r | 0 <= r < n ensures Dot(t[r], z) == Dot(m[r], Permuted(swaps, y)) {
        ExchangedProduct(m[r], z, last.row, last.col);
      }
    }
  }

  lemma UnscrambledIsInverse(a: Mat, m: Mat, n: nat)
    requires Unscrambles(a, m, n, [])
    ensures AreInverse(a, m, n)
  {
    forall x: Vec, y: Vec | |x| == n && |y| == n
      ensures Solves(a, x, y) <==> Solves(m, y, x)
    {
      assert Permuted([], y) == y;
    }
    SolvingMatricesAreInverse(a, m, n);
  }

  // ----- failure -----

  lemma {:induction false} PermutedZeros(swaps: seq<Swap>, n: nat)
    requires SwapsIn(swaps, n)
    ensures Permuted(swaps, Zeros(n)) == Zeros(n)
  {
    if swaps != [] { PermutedZeros(swaps[..|swaps| - 1], n); }
  }

  /** When every free entry is zero, a free column gives a nonzero x with a.x == 0. */
  lemma NoPivotMeansSingular(a: Mat, m: Mat, n: nat, done: set<nat>, swaps: seq<Swap>, p: nat)
    requires Linked(a, m, n, done, swaps) && p < n && p !in done
    requires forall r: nat | r < n && r !in done :: m[r][p] == 0.0
    ensures Singular(a, n)
  {
    var x := seq(n, r requires 0 <= r < n =>
      if r in done then -m[r][p] else if r == p then 1.0 else 0.0);
    PermutedZeros(swaps, n);
    var u, v := Inputs(done, x, Zeros(n)), Inputs(done, Zeros(n), x);
    assert u == Unit(n, p);
    forall r | 0 <= r < n ensures v[r] == Dot(m[r], u) { DotUnit(m[r], p); }
    assert Solves(a, x, Zeros(n));
    assert x[p] != Zeros(n)[p];
  }
}
