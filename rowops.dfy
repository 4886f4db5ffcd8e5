/**
 * The three in-place row operations of Gauss-Jordan inversion (swapRows,
 * scaleRow, combineRows). Each is a method on a mutable grid of rows, proved
 * against a function on grids; the lemmas give each operation its inverse,
 * show that it is a left-multiplication, and say what it does to the
 * determinant.
 */
module RowOps {
  import opened Matrix

  // ---------------------------------------------------------------------------
  // Specification functions

  /** Rows i and j exchanged. */
  function SwapRowsOf(g: Grid, i: nat, j: nat): Grid
    requires i < 3 && j < 3
  {
    g[i := g[j]][j := g[i]]
  }

  /** Row i multiplied by k. */
  function ScaleRowOf(g: Grid, i: nat, k: real): Grid
    requires i < 3
  {
    g[i := seq(3, t requires 0 <= t < 3 => k * g[i][t])]
  }

  /** Row `into` replaced by itself plus scale times row `from` (both read before the write). */
  function CombineRowsOf(g: Grid, from: nat, scale: real, into: nat): Grid
    requires from < 3 && into < 3
  {
    g[into := seq(3, t requires 0 <= t < 3 => g[into][t] + scale * g[from][t])]
  }

  /** Columns i and j exchanged. */
  ghost function SwapColumnsOf(g: Grid, i: nat, j: nat): Grid
    requires i < 3 && j < 3
  {
    seq(3, r requires 0 <= r < 3 => g[r][i := g[r][j]][j := g[r][i]])
  }

  /** Column i multiplied by k. */
  ghost function ScaleColumnOf(g: Grid, i: nat, k: real): Grid
    requires i < 3
  {
    seq(3, r requires 0 <= r < 3 => g[r][i := k * g[r][i]])
  }

  /** Column `into` replaced by itself plus scale times column `from`. */
  ghost function CombineColumnsOf(g: Grid, from: nat, scale: real, into: nat): Grid
    requires from < 3 && into < 3
  {
    seq(3, r requires 0 <= r < 3 => g[r][into := g[r][into] + scale * g[r][from]])
  }

  // ---------------------------------------------------------------------------
  // The in-place helpers

  /** Exchanges rows i and j of the grid in place. */
  method SwapRows(values: array<Row>, i: nat, j: nat)
    requires values.Length == 3 && i < 3 && j < 3
    modifies values
    ensures values[..] == SwapRowsOf(old(values[..]), i, j)
  {
    values[i], values[j] := values[j], values[i];
  }

  /** Replaces row i by a new row holding k times each of its entries. */
  method ScaleRow(values: array<Row>, i: nat, k: real)
    requires values.Length == 3 && i < 3
    modifies values
    ensures values[..] == ScaleRowOf(old(values[..]), i, k)
  {
    var row := values[i];
    values[i] := seq(3, t requires 0 <= t < 3 => k * row[t]);
  }

  /** Replaces row `into` by a new row holding its entries plus scale times those of row `from`. */
  method CombineRows(values: array<Row>, from: nat, scale: real, into: nat)
    requires values.Length == 3 && from < 3 && into < 3
    modifies values
    ensures values[..] == CombineRowsOf(old(values[..]), from, scale, into)
  {
    var row, source := values[into], values[from];
    values[into] := seq(3, t requires 0 <= t < 3 => row[t] + scale * source[t]);
  }

  // ---------------------------------------------------------------------------
  // Each operation changes only its target rows, and can be undone

  /** The helpers' expected outputs on the grid [[1,2,3],[4,5,6],[7,8,9]]. */
  lemma RowOpExamples()
    ensures SwapRowsOf(Counting, 0, 1) == [[4.0, 5.0, 6.0], [1.0, 2.0, 3.0], [7.0, 8.0, 9.0]]
    ensures ScaleRowOf(Counting, 2, 3.0) == [[1.0, 2.0, 3.0], [4.0, 5.0, 6.0], [21.0, 24.0, 27.0]]
    ensures CombineRowsOf(Counting, 0, 2.0, 1) == [[1.0, 2.0, 3.0], [6.0, 9.0, 12.0], [7.0, 8.0, 9.0]]
  {
    GridEq(ScaleRowOf(Counting, 2, 3.0), [[1.0, 2.0, 3.0], [4.0, 5.0, 6.0], [21.0, 24.0, 27.0]]);
    GridEq(CombineRowsOf(Counting, 0, 2.0, 1), [[1.0, 2.0, 3.0], [6.0, 9.0, 12.0], [7.0, 8.0, 9.0]]);
  }

  /** Swapping the same two rows twice restores the grid. */
  lemma SwapRowsUndo(g: Grid, i: nat, j: nat)
    requires i < 3 && j < 3
    ensures SwapRowsOf(SwapRowsOf(g, i, j), i, j) == g
  {
    GridEq(SwapRowsOf(SwapRowsOf(g, i, j), i, j), g);
  }

  /** Scaling a row by k and then by 1/k restores the grid. */
  lemma ScaleRowUndo(g: Grid, i: nat, k: real)
    requires i < 3 && k != 0.0
    ensures ScaleRowOf(ScaleRowOf(g, i, k), i, 1.0 / k) == g
  {
    GridEq(ScaleRowOf(ScaleRowOf(g, i, k), i, 1.0 / k), g);
  }

  /** Adding scale times another row and then subtracting it restores the grid. */
  lemma CombineRowsUndo(g: Grid, from: nat, scale: real, into: nat)
    requires from < 3 && into < 3 && from != into
    ensures CombineRowsOf(CombineRowsOf(g, from, scale, into), from, -scale, into) == g
  {
    GridEq(CombineRowsOf(CombineRowsOf(g, from, scale, into), from, -scale, into), g);
  }

  // ---------------------------------------------------------------------------
  // Each operation is a left-multiplication by the operation applied to Id

  lemma SwapRowsIsLeftMul(g: Grid, i: nat, j: nat)
    requires i < 3 && j < 3
    ensures SwapRowsOf(g, i, j) == Mul(SwapRowsOf(IdGrid, i, j), g)
  {
    forall r, c | 0 <= r < 3 && 0 <= c < 3
      ensures SwapRowsOf(g, i, j)[r][c] == Mul(SwapRowsOf(IdGrid, i, j), g)[r][c]
    {
      MulEntry(SwapRowsOf(IdGrid, i, j), g, r, c);
    }
    GridEq(SwapRowsOf(g, i, j), Mul(SwapRowsOf(IdGrid, i, j), g));
  }

  lemma ScaleRowIsLeftMul(g: Grid, i: nat, k: real)
    requires i < 3
    ensures ScaleRowOf(g, i, k) == Mul(ScaleRowOf(IdGrid, i, k), g)
  {
    forall r, c | 0 <= r < 3 && 0 <= c < 3
      ensures ScaleRowOf(g, i, k)[r][c] == Mul(ScaleRowOf(IdGrid, i, k), g)[r][c]
    {
      MulEntry(ScaleRowOf(IdGrid, i, k), g, r, c);
    }
    GridEq(ScaleRowOf(g, i, k), Mul(ScaleRowOf(IdGrid, i, k), g));
  }

  lemma CombineRowsIsLeftMul(g: Grid, from: nat, scale: real, into: nat)
    requires from < 3 && into < 3
    ensures CombineRowsOf(g, from, scale, into) == Mul(CombineRowsOf(IdGrid, from, scale, into), g)
  {
    forall r, c | 0 <= r < 3 && 0 <= c < 3
      ensures CombineRowsOf(g, from, scale, into)[r][c] == Mul(CombineRowsOf(IdGrid, from, scale, into), g)[r][c]
    {
      CombineRowsIsLeftMulAt(g, from, scale, into, r, c);
    }
    GridEq(CombineRowsOf(g, from, scale, into), Mul(CombineRowsOf(IdGrid, from, scale, into), g));
  }

  lemma CombineRowsIsLeftMulAt(g: Grid, from: nat, scale: real, into: nat, r: nat, c: nat)
    requires from < 3 && into < 3 && r < 3 && c < 3
    ensures CombineRowsOf(g, from, scale, into)[r][c] == Mul(CombineRowsOf(IdGrid, from, scale, into), g)[r][c]
  {
    MulEntry(CombineRowsOf(IdGrid, from, scale, into), g, r, c);
  }

  // ---------------------------------------------------------------------------
  // What each operation does to the determinant

  lemma SwapRowsDeterminant(g: Grid, i: nat, j: nat)
    requires i < 3 && j < 3 && i != j
    ensures Determinant(SwapRowsOf(g, i, j)) == -Determinant(g)
  {
  }

  lemma ScaleRowDeterminant(g: Grid, i: nat, k: real)
    requires i < 3
    ensures Determinant(ScaleRowOf(g, i, k)) == k * Determinant(g)
  {
  }

  lemma CombineRowsDeterminant(g: Grid, from: nat, scale: real, into: nat)
    requires from < 3 && into < 3 && from != into
    ensures Determinant(CombineRowsOf(g, from, scale, into)) == Determinant(g)
  {
    var c := CombineRowsOf(g, from, scale, into);
    var added := seq(3, t requires 0 <= t < 3 => g[into][t] + scale * g[from][t]);
    assert c == g[into := added];
    if into == 0 {
      assert c[1] == g[1] && c[2] == g[2];
    } else if into == 1 {
      assert c[0] == g[0] && c[2] == g[2];
    } else {
      assert c[0] == g[0] && c[1] == g[1];
    }
  }

  // ---------------------------------------------------------------------------
  // Lockstep facts used by Invert: an operation on the left factor of a product
  // is the same operation on the product, and the matching column operation on
  // a left factor undoes it

  lemma SwapRowsOfProduct(a: Grid, m: Grid, i: nat, j: nat)
    requires i < 3 && j < 3
    ensures Mul(SwapRowsOf(a, i, j), m) == SwapRowsOf(Mul(a, m), i, j)
  {
    GridEq(Mul(SwapRowsOf(a, i, j), m), SwapRowsOf(Mul(a, m), i, j));
  }

  lemma ScaleRowOfProduct(a: Grid, m: Grid, i: nat, k: real)
    requires i < 3
    ensures Mul(ScaleRowOf(a, i, k), m) == ScaleRowOf(Mul(a, m), i, k)
  {
    forall r, c | 0 <= r < 3 && 0 <= c < 3
      ensures Mul(ScaleRowOf(a, i, k), m)[r][c] == ScaleRowOf(Mul(a, m), i, k)[r][c]
    {
      MulEntry(ScaleRowOf(a, i, k), m, r, c);
      MulEntry(a, m, r, c);
    }
    GridEq(Mul(ScaleRowOf(a, i, k), m), ScaleRowOf(Mul(a, m), i, k));
  }

  lemma CombineRowsOfProductAt(a: Grid, m: Grid, from: nat, scale: real, into: nat, r: nat, c: nat)
    requires from < 3 && into < 3 && r < 3 && c < 3
    ensures Mul(CombineRowsOf(a, from, scale, into), m)[r][c] == CombineRowsOf(Mul(a, m), from, scale, into)[r][c]
  {
    var combined := CombineRowsOf(a, from, scale, into);
    var col := Column(m, c);
    assert Mul(combined, m)[r][c] == Dot(combined[r], col);
    assert Mul(a, m)[r][c] == Dot(a[r], col);
    if r == into {
      assert Mul(a, m)[from][c] == Dot(a[from], col);
      DotAddScaled(a[into], a[from], scale, col);
    } else {
      assert combined[r] == a[r];
    }
  }

  /** Adding s times v to u before a dot product adds s times v's dot product. */
  lemma DotAddScaled(u: seq<real>, v: seq<real>, s: real, w: seq<real>)
    requires |u| == 3 && |v| == 3 && |w| == 3
    ensures Dot(seq(3, t requires 0 <= t < 3 => u[t] + s * v[t]), w) == Dot(u, w) + s * Dot(v, w)
  {
  }

  lemma CombineRowsOfProduct(a: Grid, m: Grid, from: nat, scale: real, into: nat)
    requires from < 3 && into < 3
    ensures Mul(CombineRowsOf(a, from, scale, into), m) == CombineRowsOf(Mul(a, m), from, scale, into)
  {
    forall r, c | 0 <= r < 3 && 0 <= c < 3
      ensures Mul(CombineRowsOf(a, from, scale, into), m)[r][c] == CombineRowsOf(Mul(a, m), from, scale, into)[r][c]
    {
      CombineRowsOfProductAt(a, m, from, scale, into, r, c);
    }
    GridEq(Mul(CombineRowsOf(a, from, scale, into), m), CombineRowsOf(Mul(a, m), from, scale, into));
  }

  /** Swapping the same two positions in both vectors keeps their dot product. */
  lemma DotSwap(u: seq<real>, v: seq<real>, i: nat, j: nat)
    requires |u| == 3 && |v| == 3 && i < 3 && j < 3
    ensures Dot(u[i := u[j]][j := u[i]], v[i := v[j]][j := v[i]]) == Dot(u, v)
  {
  }

  /** Scaling position i of one vector by 1/k and of the other by k keeps their dot product. */
  lemma DotScale(u: seq<real>, v: seq<real>, i: nat, k: real)
    requires |u| == 3 && |v| == 3 && i < 3 && k != 0.0
    ensures Dot(u[i := 1.0 / k * u[i]], v[i := k * v[i]]) == Dot(u, v)
  {
    assert (1.0 / k * u[i]) * (k * v[i]) == (1.0 / k * k) * (u[i] * v[i]);
  }

  /** Adding s times v[from] into v[into] and taking s times u[into] away from u[from] keeps their dot product. */
  lemma DotCombine(u: seq<real>, v: seq<real>, from: nat, scale: real, into: nat)
    requires |u| == 3 && |v| == 3 && from < 3 && into < 3 && from != into
    ensures Dot(u[from := u[from] + -scale * u[into]], v[into := v[into] + scale * v[from]]) == Dot(u, v)
  {
  }

  lemma SwapColumnsUndoesAt(b: Grid, a: Grid, i: nat, j: nat, r: nat, c: nat)
    requires i < 3 && j < 3 && r < 3 && c < 3
    ensures Mul(SwapColumnsOf(b, i, j), SwapRowsOf(a, i, j))[r][c] == Mul(b, a)[r][c]
  {
    var col := Column(a, c);
    forall t | 0 <= t < 3
      ensures Column(SwapRowsOf(a, i, j), c)[t] == col[i := col[j]][j := col[i]][t]
    {
    }
    assert Column(SwapRowsOf(a, i, j), c) == col[i := col[j]][j := col[i]];
    DotSwap(b[r], col, i, j);
  }

  lemma SwapColumnsUndoes(b: Grid, a: Grid, i: nat, j: nat)
    requires i < 3 && j < 3
    ensures Mul(SwapColumnsOf(b, i, j), SwapRowsOf(a, i, j)) == Mul(b, a)
  {
    forall r, c | 0 <= r < 3 && 0 <= c < 3
      ensures Mul(SwapColumnsOf(b, i, j), SwapRowsOf(a, i, j))[r][c] == Mul(b, a)[r][c]
    {
      SwapColumnsUndoesAt(b, a, i, j, r, c);
    }
    GridEq(Mul(SwapColumnsOf(b, i, j), SwapRowsOf(a, i, j)), Mul(b, a));
  }

  lemma ScaleColumnUndoesAt(b: Grid, a: Grid, i: nat, k: real, r: nat, c: nat)
    requires i < 3 && k != 0.0 && r < 3 && c < 3
    ensures Mul(ScaleColumnOf(b, i, 1.0 / k), ScaleRowOf(a, i, k))[r][c] == Mul(b, a)[r][c]
  {
    var row := b[r];
    var col := Column(a, c);
    var scaled := row[i := 1.0 / k * row[i]];
    forall t | 0 <= t < 3
      ensures ScaleColumnOf(b, i, 1.0 / k)[r][t] == scaled[t]
    {
    }
    assert ScaleColumnOf(b, i, 1.0 / k)[r] == scaled;
    forall t | 0 <= t < 3
      ensures Column(ScaleRowOf(a, i, k), c)[t] == col[i := k * col[i]][t]
    {
    }
    assert Column(ScaleRowOf(a, i, k), c) == col[i := k * col[i]];
    assert Mul(ScaleColumnOf(b, i, 1.0 / k), ScaleRowOf(a, i, k))[r][c]
        == Dot(scaled, col[i := k * col[i]]);
    DotScale(row, col, i, k);
    assert Mul(b, a)[r][c] == Dot(row, col);
  }

  lemma ScaleColumnUndoes(b: Grid, a: Grid, i: nat, k: real)
    requires i < 3 && k != 0.0
    ensures Mul(ScaleColumnOf(b, i, 1.0 / k), ScaleRowOf(a, i, k)) == Mul(b, a)
  {
    forall r, c | 0 <= r < 3 && 0 <= c < 3
      ensures Mul(ScaleColumnOf(b, i, 1.0 / k), ScaleRowOf(a, i, k))[r][c] == Mul(b, a)[r][c]
    {
      ScaleColumnUndoesAt(b, a, i, k, r, c);
    }
    GridEq(Mul(ScaleColumnOf(b, i, 1.0 / k), ScaleRowOf(a, i, k)), Mul(b, a));
  }

  lemma CombineColumnsUndoesAt(b: Grid, a: Grid, from: nat, scale: real, into: nat, r: nat, c: nat)
    requires from < 3 && into < 3 && from != into && r < 3 && c < 3
    ensures Mul(CombineColumnsOf(b, into, -scale, from), CombineRowsOf(a, from, scale, into))[r][c] == Mul(b, a)[r][c]
  {
    var col := Column(a, c);
    forall t | 0 <= t < 3
      ensures Column(CombineRowsOf(a, from, scale, into), c)[t] == col[into := col[into] + scale * col[from]][t]
    {
    }
    var a' := CombineRowsOf(a, from, scale, into);
    assert Column(a', c) == col[into := col[into] + scale * col[from]];
    var u := b[r];
    var row := CombineColumnsOf(b, into, -scale, from)[r];
    forall t | 0 <= t < 3
      ensures row[t] == u[from := u[from] + -scale * u[into]][t]
    {
    }
    assert row == u[from := u[from] + -scale * u[into]];
    DotCombine(u, col, from, scale, into);
    assert Dot(row, Column(a', c)) == Dot(u, col);
  }

  lemma CombineColumnsUndoes(b: Grid, a: Grid, from: nat, scale: real, into: nat)
    requires from < 3 && into < 3 && from != into
    ensures Mul(CombineColumnsOf(b, into, -scale, from), CombineRowsOf(a, from, scale, into)) == Mul(b, a)
  {
    forall r, c | 0 <= r < 3 && 0 <= c < 3
      ensures Mul(CombineColumnsOf(b, into, -scale, from), CombineRowsOf(a, from, scale, into))[r][c] == Mul(b, a)[r][c]
    {
      CombineColumnsUndoesAt(b, a, from, scale, into, r, c);
    }
    GridEq(Mul(CombineColumnsOf(b, into, -scale, from), CombineRowsOf(a, from, scale, into)), Mul(b, a));
  }
}
