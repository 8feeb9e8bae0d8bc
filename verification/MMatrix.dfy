/** The dense matrix class: a flat row-major buffer, its product and its in-place inverse. */
module MMatrix {
  import opened LinearAlgebra
  import opened GaussJordan

  /** The entry a flat row-major buffer holds for a row and a column. */
  function Entry(d: seq<real>, cols: nat, r: nat, c: nat): real {
    if r * cols + c < |d| then d[r * cols + c] else 0.0
  }

  /** m with the entry in row r and column c replaced. */
  ghost function Placed(m: Mat, r: nat, c: nat, v: real): Mat
    requires r < |m| && c < |m[r]|
  {
    m[r := m[r][c := v]]
  }

  lemma PlacedTwice(m: Mat, r: nat, c: nat, v: real, w: real)
    requires r < |m| && c < |m[r]|
    ensures Placed(Placed(m, r, c, v), r, c, w) == Placed(m, r, c, w)
  {
    assert m[r][c := v][c := w] == m[r][c := w];
  }

  ghost predicate Holds(d: seq<real>, rows: nat, cols: nat, grid: Mat) {
    && |d| == rows * cols
    && Shape(grid, rows, cols)
    && forall r: nat, c: nat {:trigger Entry(d, cols, r, c)} ::
         r < rows && c < cols ==> Entry(d, cols, r, c) == grid[r][c]
  }

  lemma {:induction false} RowsAreApart(cols: nat, r: nat, r': nat)
    requires r < r'
    ensures r * cols + cols <= r' * cols
    decreases r'
  {
    if r + 1 < r' { RowsAreApart(cols, r, r' - 1); }
    assert r' * cols == (r' - 1) * cols + cols;
  }

  lemma BufferUpdate(d: seq<real>, rows: nat, cols: nat, grid: Mat, row: nat, col: nat, v: real)
    requires Holds(d, rows, cols, grid) && row < rows && col < cols
    ensures row * cols + col < |d|
    ensures Holds(d[row * cols + col := v], rows, cols, Placed(grid, row, col, v))
  {
    RowsAreApart(cols, row, rows);
    var d', grid' := d[row * cols + col := v], Placed(grid, row, col, v);
    forall r: nat, c: nat {:trigger Entry(d', cols, r, c)} | r < rows && c < cols
      ensures Entry(d', cols, r, c) == grid'[r][c]
    {
      assert Entry(d, cols, r, c) == grid[r][c];
      RowsAreApart(cols, r, rows);
      if r < row { RowsAreApart(cols, r, row); }
      if r > row { RowsAreApart(cols, row, r); }
    }
  }

  function Abs(x: real): (y: real)
    ensures y >= 0.0
  {
    if x < 0.0 then -x else x
  }

  /** Entry (row, col) is free, of absolute value big, and no free entry is larger. */
  ghost predicate IsPivot(m: Mat, n: nat, done: set<nat>, row: nat, col: nat, big: real)
    requires Shape(m, n, n)
  {
    && row < n && col < n && row !in done && col !in done && big == Abs(m[row][col])
    && forall r: nat, c: nat | r < n && c < n && r !in done && c !in done :: Abs(m[r][c]) <= big
  }

  /** The same, for the flags that `FindPivot` reads from index 1. */
  ghost predicate IsLargestFree(m: Mat, n: nat, ipiv: seq<int>, irow: int, icol: int, big: real)
    requires Shape(m, n, n) && |ipiv| == n + 1
  {
    && 1 <= irow <= n && 1 <= icol <= n && ipiv[irow] == 0 && ipiv[icol] == 0
    && big == Abs(m[irow - 1][icol - 1])
    && forall j, k | 1 <= j <= n && 1 <= k <= n && ipiv[j] == 0 && ipiv[k] == 0 ::
         Abs(m[j - 1][k - 1]) <= big
  }

  ghost predicate Flags(ipiv: seq<int>, n: nat, done: set<nat>) {
    |ipiv| == n + 1 && forall j | 1 <= j <= n :: ipiv[j] == if j - 1 in done then 1 else 0
  }

  lemma LargestFreeIsPivot(m: Mat, n: nat, ipiv: seq<int>, done: set<nat>, irow: int, icol: int, big: real)
    requires Shape(m, n, n) && Flags(ipiv, n, done) && IsLargestFree(m, n, ipiv, irow, icol, big)
    ensures IsPivot(m, n, done, irow - 1, icol - 1, big)
  {
    forall r: nat, c: nat | r < n && c < n && r !in done && c !in done ensures Abs(m[r][c]) <= big {
      var j, k := r + 1, c + 1;
      assert ipiv[j] == 0 && ipiv[k] == 0;
      assert Abs(m[j - 1][k - 1]) <= big;
    }
  }

  /** n distinct indices below n are all of them. */
  lemma {:induction false} AllUsed(done: set<nat>, n: nat)
    requires forall c: nat | c in done :: c < n
    ensures |done| <= n
    ensures |done| == n ==> forall c: nat | c < n :: c in done
    ensures |done| < n ==> exists c: nat :: c < n && c !in done
  {
    if n != 0 {
      AllUsed(done - {n - 1}, n - 1);
    }
  }

  lemma SomeColumnIsFree(n: nat, ipiv: seq<int>, done: set<nat>)
    requires Flags(ipiv, n, done) && |done| < n && forall c: nat | c in done :: c < n
    ensures exists j :: 1 <= j <= n && ipiv[j] == 0
  {
    AllUsed(done, n);
    var c: nat :| c < n && c !in done;
    assert ipiv[c + 1] == 0;
  }

  lemma PivotIsFree(m: Mat, n: nat, done: set<nat>, row: nat, col: nat, big: real)
    requires Shape(m, n, n) && IsPivot(m, n, done, row, col, big)
    ensures row < n && col < n && row !in done && col !in done && big == Abs(m[row][col])
  {
  }

  lemma ZeroPivotMeansSingular(a: Mat, m: Mat, n: nat, done: set<nat>, swaps: seq<Swap>,
                               row: nat, col: nat, big: real)
    requires Linked(a, m, n, done, swaps) && IsPivot(m, n, done, row, col, big) && m[row][col] == 0.0
    ensures Singular(a, n)
  {
    hide Singular;
    forall r: nat | r < n && r !in done ensures m[r][col] == 0.0 {
      assert Abs(m[r][col]) <= 0.0;
    }
    NoPivotMeansSingular(a, m, n, done, swaps, col);
  }

  /** m while its row r is being replaced: the new entries t up to column l, behind them the entries u. */
  ghost function Halfway(m: Mat, r: nat, t: Vec, u: Vec, l: nat): Mat
    requires r < |m| && l <= |t| == |u|
  {
    m[r := t[..l] + u[l..]]
  }

  lemma HalfwayEnds(m: Mat, r: nat, t: Vec, u: Vec)
    requires r < |m| && |t| == |u|
    ensures Halfway(m, r, t, u, 0) == m[r := u] && Halfway(m, r, t, u, |t|) == m[r := t]
  {
    assert t[..0] + u[0..] == u && t[..|t|] + u[|t|..] == t;
  }

  lemma HalfwayAt(m: Mat, r: nat, t: Vec, u: Vec, l: nat)
    requires r < |m| && l < |t| == |u|
    ensures |Halfway(m, r, t, u, l)| == |m| && |Halfway(m, r, t, u, l)[r]| == |t|
    ensures Halfway(m, r, t, u, l)[r][l] == u[l]
    ensures forall i: nat | i < |m| && i != r :: Halfway(m, r, t, u, l)[i] == m[i]
    ensures Placed(Halfway(m, r, t, u, l), r, l, t[l]) == Halfway(m, r, t, u, l + 1)
  {
    var now, next := t[..l] + u[l..], t[..l + 1] + u[l + 1..];
    assert now[l := t[l]] == next;
    assert m[r := now][r := next] == m[r := next];
  }

  lemma ScaledRowAt(row: Vec, p: nat, l: nat, x: real, pivinv: real)
    requires p < |row| && l < |row| && row[p] != 0.0
    requires x == row[p := 1.0][l] && pivinv == 1.0 / row[p]
    ensures ScaledRow(row, p)[l] == x * pivinv
  {
  }

  lemma ReducedRowAt(row: Vec, pivotRow: Vec, p: nat, l: nat, x: real, y: real, dum: real)
    requires p < |row| == |pivotRow| && l < |row|
    requires x == row[p := 0.0][l] && y == pivotRow[l] && dum == row[p]
    ensures ReducedRow(row, pivotRow, p)[l] == x - y * dum
  {
  }

  /** The bookkeeping of `Inverse`, used from index 1, after the given exchanges and pivots. */
  ghost predicate Records(n: nat, ipiv: seq<int>, indxr: seq<int>, indxc: seq<int>,
                          done: set<nat>, swaps: seq<Swap>)
  {
    && |ipiv| == |indxr| == |indxc| == n + 1
    && |done| == |swaps| <= n
    && (forall c: nat | c in done :: c < n)
    && Flags(ipiv, n, done)
    && (forall l | 0 <= l < |swaps| :: indxr[l + 1] == swaps[l].row + 1 && indxc[l + 1] == swaps[l].col + 1)
  }

  lemma RecordsBound(n: nat, ipiv: seq<int>, indxr: seq<int>, indxc: seq<int>,
                     done: set<nat>, swaps: seq<Swap>)
    requires Records(n, ipiv, indxr, indxc, done, swaps)
    ensures |ipiv| == |indxr| == |indxc| == n + 1 && |done| == |swaps|
    ensures Flags(ipiv, n, done) && forall c: nat | c in done :: c < n
    ensures forall j | 1 <= j <= n :: ipiv[j] == 0 || ipiv[j] == 1
  {
  }

  lemma RecordsOneMore(n: nat, ipiv: seq<int>, indxr: seq<int>, indxc: seq<int>,
                       done: set<nat>, swaps: seq<Swap>, s: Swap)
    requires Records(n, ipiv, indxr, indxc, done, swaps)
    requires |swaps| < n && s.row < n && s.col < n && s.col !in done
    ensures Records(n, ipiv[s.col + 1 := ipiv[s.col + 1] + 1], indxr[|swaps| + 1 := s.row + 1],
                    indxc[|swaps| + 1 := s.col + 1], done + {s.col}, swaps + [s])
  {
  }

  /** Why `Inverse` returned: its one success and its three exits with false. */
  datatype Exit = Inverted | PivotUsedTwice | NoPivotFound | ZeroPivot

  class CMatrix {
    var rows: nat
    var cols: nat
    var data: array<real>
    /** The matrix held, as a sequence of rows. */
    ghost var grid: Mat

    ghost predicate Valid() reads this, data {
      Shape(grid, rows, cols) && Holds(data[..], rows, cols, grid)
    }

    ghost predicate Square(n: nat) reads this, data {
      Valid() && rows == cols == n
    }

    constructor (nRows: nat, nCols: nat)
      ensures Valid() && rows == nRows && cols == nCols && fresh(data)
    {
      data := new real[nRows * nCols];
      rows, cols := nRows, nCols;
      new;
      ghost var d := data[..];
      grid := seq(nRows, r requires 0 <= r < nRows => seq(nCols, c requires 0 <= c < nCols => Entry(d, nCols, r, c)));
    }

    function Get(row: nat, col: nat): (v: real)
      requires Valid() && row < rows && col < cols
      reads this, data
      ensures v == grid[row][col]
    {
      RowsAreApart(cols, row, rows);
      assert Entry(data[..], cols, row, col) == grid[row][col];
      data[row * cols + col]
    }

    method Set(row: nat, col: nat, v: real)
      requires Valid() && row < rows && col < cols
      modifies data, `grid
      ensures Valid() && grid == Placed(old(grid), row, col, v)
    {
      BufferUpdate(data[..], rows, cols, grid, row, col, v);
      ghost var was := data[..];
      data[row * cols + col] := v;
      assert data[..] == was[row * cols + col := v];
      grid := Placed(grid, row, col, v);
    }

    /** The innermost loop of the product: entry (i, j) of ret. */
    method ProductEntry(m: CMatrix, ret: CMatrix, i: nat, j: nat)
      requires Valid() && m.Valid() && ret.Valid() && cols == m.rows
      requires ret != this && ret != m && ret.data != data && ret.data != m.data
      requires ret.rows == rows && ret.cols == m.cols && i < rows && j < m.cols
      modifies ret.data, ret`grid
      ensures ret.Valid()
      ensures ret.grid == Placed(old(ret.grid), i, j, Dot(grid[i], Column(m.grid, m.cols, j)))
    {
      hide Holds;
      ghost var row, column := grid[i], Column(m.grid, m.cols, j);
      ghost var before := ret.grid;
      assert |row| == cols == |column|;
      assert forall k | 0 <= k < cols :: column[k] == m.grid[k][j];
      hide Column;
      ret.Set(i, j, 0.0);
      for k := 0 to cols
        invariant Valid() && m.Valid() && ret.Valid()
        invariant ret.grid == Placed(before, i, j, DotTo(row, column, k))
      {
        var a, b := Get(i, k), m.Get(k, j);
        assert a == row[k] && b == column[k];
        var sum := ret.Get(i, j) + a * b;
        assert sum == DotTo(row, column, k + 1);
        PlacedTwice(before, i, j, DotTo(row, column, k), sum);
        ret.Set(i, j, sum);
      }
    }

    /** The matrix product. */
    method Times(m: CMatrix) returns (ret: CMatrix)
      requires Valid() && m.Valid() && cols == m.rows
      ensures fresh(ret) && fresh(ret.data) && ret.Valid() && ret.rows == rows && ret.cols == m.cols
      ensures ret.grid == Mul(grid, m.grid, cols, m.cols)
    {
      hide Holds;
      ret := new CMatrix(rows, m.cols);
      for i := 0 to rows
        invariant Valid() && m.Valid()
        invariant ret.Valid() && ret.rows == rows && ret.cols == m.cols
        invariant fresh(ret) && fresh(ret.data)
        invariant forall r, c | 0 <= r < i && 0 <= c < m.cols ::
          ret.grid[r][c] == Dot(grid[r], Column(m.grid, m.cols, c))
      {
        for j := 0 to m.cols
          invariant Valid() && m.Valid()
          invariant ret.Valid() && ret.rows == rows && ret.cols == m.cols
          invariant fresh(ret) && fresh(ret.data)
          invariant forall r, c | 0 <= r < i && 0 <= c < m.cols ::
            ret.grid[r][c] == Dot(grid[r], Column(m.grid, m.cols, c))
          invariant forall c | 0 <= c < j :: ret.grid[i][c] == Dot(grid[i], Column(m.grid, m.cols, c))
        {
          ProductEntry(m, ret, i, j);
        }
      }
      ghost var product := Mul(grid, m.grid, cols, m.cols);
      forall r | 0 <= r < rows ensures ret.grid[r] == product[r] {
        assert |product[r]| == m.cols;
      }
    }

    // ----- the loops of the inverse -----

    /** Search of the largest entry in a row and a column not used as pivot yet.
        ipiv counts, from index 1, how often each column served as pivot. */
    method FindPivot(n: nat, ipiv: array<int>) returns (irow: int, icol: int, big: real, twice: bool)
      requires Square(n) && ipiv.Length == n + 1
      requires forall j | 1 <= j <= n :: ipiv[j] == 0 || ipiv[j] == 1
      ensures !twice
      ensures icol == -1 ==> forall j | 1 <= j <= n :: ipiv[j] == 1
      ensures icol != -1 ==>
        1 <= irow <= n && 1 <= icol <= n && IsLargestFree(grid, n, ipiv[..], irow, icol, big)
    {
      hide Holds, Abs;
      irow, icol, big, twice := 0, -1, 0.0, false;
      ghost var m := grid;
      for j := 1 to n + 1
        invariant !twice
        invariant icol == -1 ==> big == 0.0 && forall a | 1 <= a < j :: ipiv[a] == 1
        invariant icol != -1 ==>
          && 1 <= irow <= n && 1 <= icol <= n && ipiv[irow] == 0 && ipiv[icol] == 0
          && big == Abs(m[irow - 1][icol - 1])
        invariant forall a, b | 1 <= a < j && 1 <= b <= n && ipiv[a] == 0 && ipiv[b] == 0 ::
          Abs(m[a - 1][b - 1]) <= big
      {
        if ipiv[j] != 1 {
          ghost var row := m[j - 1];
          for k := 1 to n + 1
            invariant !twice
            invariant icol == -1 ==> big == 0.0 && forall a | 1 <= a < j :: ipiv[a] == 1
            invariant icol == -1 ==> k <= j
            invariant icol != -1 ==>
              && 1 <= irow <= n && 1 <= icol <= n && ipiv[irow] == 0 && ipiv[icol] == 0
              && big == Abs(m[irow - 1][icol - 1])
            invariant forall a, b | 1 <= a < j && 1 <= b <= n && ipiv[a] == 0 && ipiv[b] == 0 ::
              Abs(m[a - 1][b - 1]) <= big
            invariant forall b | 1 <= b < k && ipiv[b] == 0 :: Abs(row[b - 1]) <= big
          {
            if ipiv[k] == 0 {
              var candidate := Get(j - 1, k - 1);
              assert candidate == row[k - 1];
              if Abs(candidate) >= big {
                big := Abs(candidate);
                irow, icol := j, k;
              }
            } else if ipiv[k] > 1 {
              assert false;
              return 0, -1, 0.0, true;
            }
          }
        }
      }
    }

    method SwapRows(n: nat, i: nat, j: nat)
      requires Square(n) && i < n && j < n && i != j
      modifies data, `grid
      ensures Square(n) && grid == old(Exchanged(grid, i, j))
    {
      ghost var m := grid;
      for l := 0 to n
        invariant Square(n)
        invariant forall r | 0 <= r < n && r != i && r != j :: grid[r] == m[r]
        invariant forall c | 0 <= c < l :: grid[i][c] == m[j][c] && grid[j][c] == m[i][c]
        invariant forall c | l <= c < n :: grid[i][c] == m[i][c] && grid[j][c] == m[j][c]
      {
        var tmp := Get(i, l);
        Set(i, l, Get(j, l));
        Set(j, l, tmp);
      }
      assert grid[i] == m[j] && grid[j] == m[i];
    }

    method SwapCols(n: nat, i: nat, j: nat)
      requires Square(n) && i < n && j < n && i != j
      modifies data, `grid
      ensures Square(n) && grid == old(SwapColumns(grid, n, i, j))
    {
      ghost var m := grid;
      for k := 0 to n
        invariant Square(n)
        invariant forall r | 0 <= r < k :: grid[r] == Exchanged(m[r], i, j)
        invariant forall r | k <= r < n :: grid[r] == m[r]
      {
        var tmp := Get(k, i);
        Set(k, i, Get(k, j));
        Set(k, j, tmp);
      }
    }

    /** The loop body of `ScalePivotRow`; row is the pivot row before the loop. */
    method ScaleEntry(p: nat, l: nat, pivinv: real, ghost row: Vec)
      requires Valid() && p < rows && l < cols && p < cols && |row| == cols && row[p] != 0.0
      requires grid[p][l] == row[p := 1.0][l] && pivinv == 1.0 / row[p]
      modifies data, `grid
      ensures Valid() && grid == Placed(old(grid), p, l, ScaledRow(row, p)[l])
    {
      hide Holds, ScaledRow;
      var x := Get(p, l);
      ScaledRowAt(row, p, l, x, pivinv);
      Set(p, l, x * pivinv);
    }

    /** The loop body of `ReduceRow`; row is the reduced row before the loop. */
    method ReduceEntry(ll: nat, p: nat, l: nat, dum: real, ghost row: Vec)
      requires Valid() && p < rows && ll < rows && l < cols && p < cols && |row| == cols
      requires grid[ll][l] == row[p := 0.0][l] && dum == row[p]
      modifies data, `grid
      ensures Valid() && grid == Placed(old(grid), ll, l, ReducedRow(row, old(grid[p]), p)[l])
    {
      hide Holds, ReducedRow;
      var x, y := Get(ll, l), Get(p, l);
      ReducedRowAt(row, grid[p], p, l, x, y, dum);
      Set(ll, l, x - y * dum);
    }

    method ScalePivotRow(n: nat, p: nat)
      requires Square(n) && p < n && grid[p][p] != 0.0
      modifies data, `grid
      ensures Square(n) && grid == old(grid[p := ScaledRow(grid[p], p)])
    {
      hide Holds, ScaledRow, Halfway;
      ghost var m, t, u := grid, ScaledRow(grid[p], p), grid[p][p := 1.0];
      var pivinv := 1.0 / Get(p, p);
      Set(p, p, 1.0);
      HalfwayEnds(m, p, t, u);
      for l := 0 to n
        invariant Square(n)
        invariant grid == Halfway(m, p, t, u, l)
      {
        HalfwayAt(m, p, t, u, l);
        ScaleEntry(p, l, pivinv, m[p]);
      }
    }

    method ReduceRow(n: nat, ll: nat, p: nat)
      requires Square(n) && p < n && ll < n && ll != p
      modifies data, `grid
      ensures Square(n) && grid == old(grid[ll := ReducedRow(grid[ll], grid[p], p)])
    {
      hide Holds, ReducedRow, Halfway;
      ghost var m, t, u := grid, ReducedRow(grid[ll], grid[p], p), grid[ll][p := 0.0];
      var dum := Get(ll, p);
      Set(ll, p, 0.0);
      HalfwayEnds(m, ll, t, u);
      for l := 0 to n
        invariant Square(n)
        invariant grid == Halfway(m, ll, t, u, l)
      {
        HalfwayAt(m, ll, t, u, l);
        ReduceEntry(ll, p, l, dum, m[ll]);
      }
    }

    method Pivot(n: nat, p: nat)
      requires Square(n) && p < n && grid[p][p] != 0.0
      modifies data, `grid
      ensures Square(n) && grid == old(Pivoted(grid, n, p))
    {
      ghost var m := grid;
      ghost var t := Pivoted(m, n, p);
      ScalePivotRow(n, p);
      for ll := 0 to n
        invariant Square(n)
        invariant grid[p] == t[p]
        invariant forall r | 0 <= r < ll :: grid[r] == t[r]
        invariant forall r | ll <= r < n && r != p :: grid[r] == m[r]
      {
        if ll != p { ReduceRow(n, ll, p); }
      }
    }

    /** Round i of the elimination; a is the matrix the inversion started from. */
    method Round(n: nat, i: nat, ipiv: array<int>, indxr: array<int>, indxc: array<int>,
                 ghost a: Mat, ghost done: set<nat>, ghost swaps: seq<Swap>)
        returns (ok: bool, ghost exit: Exit, ghost s: Swap)
      requires Square(n) && 1 <= i <= n && |swaps| == i - 1
      requires ipiv != indxr && ipiv != indxc && indxr != indxc
      requires Records(n, ipiv[..], indxr[..], indxc[..], done, swaps)
      requires Linked(a, grid, n, done, swaps)
      modifies data, `grid, ipiv, indxr, indxc
      ensures Square(n)
      ensures ok ==> exit == Inverted && Records(n, ipiv[..], indxr[..], indxc[..], done + {s.col}, swaps + [s])
      ensures ok ==> Linked(a, grid, n, done + {s.col}, swaps + [s])
      ensures !ok ==> exit == ZeroPivot && Singular(a, n)
    {
      hide Holds, Linked, Singular, IsPivot, IsLargestFree, Records, Flags;
      RecordsBound(n, ipiv[..], indxr[..], indxc[..], done, swaps);
      ghost var rowIndices, colIndices := indxr[..], indxc[..];
      s := Swap(0, 0);
      var irow, icol, big, twice := FindPivot(n, ipiv);
      if twice {
        assert false;
        return false, PivotUsedTwice, s;
      }
      if icol == -1 {
        SomeColumnIsFree(n, ipiv[..], done);
        assert false;
        return false, NoPivotFound, s;
      }
      ghost var flags := ipiv[..];
      ipiv[icol] := ipiv[icol] + 1;
      var row: nat, col: nat := irow - 1, icol - 1;
      s := Swap(row, col);
      ghost var m := grid;
      assert row !in done && col !in done && big == Abs(m[row][col]) by {
        LargestFreeIsPivot(m, n, flags, done, irow, icol, big);
        PivotIsFree(m, n, done, row, col, big);
      }
      if irow != icol { SwapRows(n, row, col); }
      assert grid == Exchanged(m, row, col);
      indxr[i] := irow;
      indxc[i] := icol;
      assert Records(n, ipiv[..], indxr[..], indxc[..], done + {s.col}, swaps + [s]) by {
        RecordsOneMore(n, flags, rowIndices, colIndices, done, swaps, s);
        assert ipiv[..] == flags[icol := flags[icol] + 1];
        assert indxr[..] == rowIndices[i := irow] && indxc[..] == colIndices[i := icol];
      }
      if Get(col, col) == 0.0 {
        LargestFreeIsPivot(m, n, flags, done, irow, icol, big);
        ZeroPivotMeansSingular(a, m, n, done, swaps, row, col, big);
        return false, ZeroPivot, s;
      }
      RoundKeepsLink(a, m, n, done, swaps, s);
      Pivot(n, col);
      return true, Inverted, s;
    }

    /** Exchanges the columns back, in reverse order of the row exchanges. */
    method Unscramble(n: nat, indxr: array<int>, indxc: array<int>, ghost a: Mat, ghost swaps: seq<Swap>)
      requires Square(n) && |swaps| == n && indxr.Length == indxc.Length == n + 1
      requires forall l | 0 <= l < n :: indxr[l + 1] == swaps[l].row + 1 && indxc[l + 1] == swaps[l].col + 1
      requires SwapsIn(swaps, n) && Unscrambles(a, grid, n, swaps)
      modifies data, `grid
      ensures Square(n) && Unscrambles(a, grid, n, [])
    {
      hide Unscrambles;
      assert swaps[..n] == swaps;
      for l := n + 1 downto 1
        invariant Square(n)
        invariant Unscrambles(a, grid, n, swaps[..l - 1])
      {
        ghost var left := swaps[..l];
        assert swaps[..l - 1] == left[..l - 1];
        ColumnSwapUndoesExchange(a, grid, n, left);
        ghost var m := grid;
        assert left[l - 1] == swaps[l - 1];
        var r: nat, c: nat := indxr[l] - 1, indxc[l] - 1;
        if indxr[l] != indxc[l] { SwapCols(n, r, c); } else { SwapWithItself(m, n, r); }
        assert grid == SwapColumns(m, n, r, c);
      }
      assert swaps[..0] == [];
    }

    /** Gauss-Jordan inversion with full pivoting, in place. */
    method Inverse() returns (ok: bool, ghost exit: Exit)
      requires Valid() && rows == cols
      modifies data, `grid
      ensures Square(rows)
      ensures ok ==> AreInverse(old(grid), grid, rows)
      ensures ok <==> !Singular(old(grid), rows)
      ensures exit == if ok then Inverted else ZeroPivot
    {
      hide Linked, Unscrambles, AreInverse, Singular;
      var n := rows;
      ghost var a := grid;
      var indxc, indxr, ipiv := new int[n + 1], new int[n + 1], new int[n + 1];
      for j := 1 to n + 1
        invariant Square(n) && grid == a
        invariant forall b | 1 <= b < j :: ipiv[b] == 0
      {
        ipiv[j] := 0;
      }
      ghost var done: set<nat>, swaps: seq<Swap> := {}, [];
      LinkedAtStart(a, n);
      for i := 1 to n + 1
        invariant Square(n) && |swaps| == i - 1
        invariant Records(n, ipiv[..], indxr[..], indxc[..], done, swaps)
        invariant Linked(a, grid, n, done, swaps)
      {
        ghost var s;
        ok, exit, s := Round(n, i, ipiv, indxr, indxc, a, done, swaps);
        if !ok { return; }
        done, swaps := done + {s.col}, swaps + [s];
      }
      AllUsed(done, n);
      AllDoneUnscrambles(a, grid, n, done, swaps);
      Unscramble(n, indxr, indxc, a, swaps);
      UnscrambledIsInverse(a, grid, n);
      InvertibleIsNotSingular(a, grid, n);
      return true, Inverted;
    }
  }
}
