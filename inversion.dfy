/**
 * Mat3.Invert: Gauss-Jordan elimination with row pivoting. The receiver's rows
 * are cloned into a working grid and a fresh identity grid accumulates the
 * inverse; every elementary row operation is applied to both in lockstep.
 *
 * The proof keeps the operations applied so far as a ghost history. Any
 * history of invertible row operations is a left multiplication that can be
 * undone and that scales the determinant by a nonzero factor; so when the
 * working grid reaches Id, the accumulated grid is the two-sided inverse, and
 * when a column has no pivot, the input is singular.
 *
 * The zero test (IsEpsilon from @azleur/math-util, not part of this model) is a
 * parameter. The equivalences hold when the test is exact, that is, when a
 * value counts as zero exactly when it is 0.
 */
module Inversion {
  import opened Matrix
  import opened RowOps

  datatype Option<T> = None | Some(value: T)

  /** The zero test counts a value as zero exactly when it is 0. */
  ghost predicate ExactZeroTest(isEpsilon: real -> bool) {
    forall x :: isEpsilon(x) <==> x == 0.0
  }

  // ---------------------------------------------------------------------------
  // Histories of elementary row operations

  /** One elementary row operation, as Invert applies it to both grids. */
  datatype RowOp =
    | Swap(i: nat, j: nat)
    | Scale(i: nat, k: real)
    | Combine(from: nat, scale: real, into: nat)

  /** The operation names rows of a 3x3 grid and can be undone: two distinct rows, a nonzero factor. */
  predicate Invertible(op: RowOp) {
    match op
    case Swap(i, j) => i < 3 && j < 3 && i != j
    case Scale(i, k) => i < 3 && k != 0.0
    case Combine(from, _, into) => from < 3 && into < 3 && from != into
  }

  predicate AllInvertible(ops: seq<RowOp>) {
    forall n :: 0 <= n < |ops| ==> Invertible(ops[n])
  }

  function ApplyOp(op: RowOp, g: Grid): Grid
    requires Invertible(op)
  {
    match op
    case Swap(i, j) => SwapRowsOf(g, i, j)
    case Scale(i, k) => ScaleRowOf(g, i, k)
    case Combine(from, scale, into) => CombineRowsOf(g, from, scale, into)
  }

  /** The grid g after the operations of ops, oldest first. */
  ghost function ApplyOps(ops: seq<RowOp>, g: Grid): Grid
    requires AllInvertible(ops)
    decreases |ops|
  {
    if ops == [] then g else ApplyOp(ops[|ops| - 1], ApplyOps(ops[..|ops| - 1], g))
  }

  /** The column operation that, on the left factor, cancels the row operation op. */
  ghost function UndoOp(op: RowOp, b: Grid): Grid
    requires Invertible(op)
  {
    match op
    case Swap(i, j) => SwapColumnsOf(b, i, j)
    case Scale(i, k) => ScaleColumnOf(b, i, 1.0 / k)
    case Combine(from, scale, into) => CombineColumnsOf(b, into, -scale, from)
  }

  /** The product of the inverses of ops, newest first. */
  ghost function Undo(ops: seq<RowOp>): Grid
    requires AllInvertible(ops)
    decreases |ops|
  {
    if ops == [] then IdGrid else UndoOp(ops[|ops| - 1], Undo(ops[..|ops| - 1]))
  }

  /** How op scales the determinant. */
  function OpFactor(op: RowOp): real {
    match op
    case Swap(_, _) => -1.0
    case Scale(_, k) => k
    case Combine(_, _, _) => 1.0
  }

  /** Appending one operation to a history applies it after the others. */
  lemma ApplyOpsSnoc(ops: seq<RowOp>, op: RowOp, g: Grid)
    requires AllInvertible(ops) && Invertible(op)
    ensures AllInvertible(ops + [op])
    ensures ApplyOps(ops + [op], g) == ApplyOp(op, ApplyOps(ops, g))
  {
    assert (ops + [op])[..|ops|] == ops;
  }

  // ---------------------------------------------------------------------------
  // One operation at a time

  lemma ApplyOpOfProduct(op: RowOp, a: Grid, m: Grid)
    requires Invertible(op)
    ensures Mul(ApplyOp(op, a), m) == ApplyOp(op, Mul(a, m))
  {
    match op
    case Swap(i, j) => SwapRowsOfProduct(a, m, i, j);
    case Scale(i, k) => ScaleRowOfProduct(a, m, i, k);
    case Combine(from, scale, into) => CombineRowsOfProduct(a, m, from, scale, into);
  }

  lemma UndoOpCancels(op: RowOp, b: Grid, a: Grid)
    requires Invertible(op)
    ensures Mul(UndoOp(op, b), ApplyOp(op, a)) == Mul(b, a)
  {
    match op
    case Swap(i, j) => SwapColumnsUndoes(b, a, i, j);
    case Scale(i, k) => ScaleColumnUndoes(b, a, i, k);
    case Combine(from, scale, into) => CombineColumnsUndoes(b, a, from, scale, into);
  }

  lemma ApplyOpDeterminant(op: RowOp, g: Grid)
    requires Invertible(op)
    ensures Determinant(ApplyOp(op, g)) == OpFactor(op) * Determinant(g)
    ensures OpFactor(op) != 0.0
  {
    match op
    case Swap(i, j) => SwapRowsDeterminant(g, i, j);
    case Scale(i, k) => ScaleRowDeterminant(g, i, k);
    case Combine(from, scale, into) => CombineRowsDeterminant(g, from, scale, into);
  }

  // ---------------------------------------------------------------------------
  // Whole histories

  /** A history of row operations is a left multiplication by what it makes of Id. */
  lemma {:induction false} ApplyOpsIsLeftMul(ops: seq<RowOp>, g: Grid)
    requires AllInvertible(ops)
    ensures ApplyOps(ops, g) == Mul(ApplyOps(ops, IdGrid), g)
    decreases |ops|
  {
    if ops == [] {
      MulIdentity(g);
    } else {
      var init, op := ops[..|ops| - 1], ops[|ops| - 1];
      ApplyOpsIsLeftMul(init, g);
      ApplyOpOfProduct(op, ApplyOps(init, IdGrid), g);
    }
  }

  /** Undo(ops) takes the result of ops back to where it started. */
  lemma {:induction false} UndoCancels(ops: seq<RowOp>, g: Grid)
    requires AllInvertible(ops)
    ensures Mul(Undo(ops), ApplyOps(ops, g)) == g
    decreases |ops|
  {
    if ops == [] {
      MulIdentity(g);
    } else {
      var init, op := ops[..|ops| - 1], ops[|ops| - 1];
      UndoCancels(init, g);
      UndoOpCancels(op, Undo(init), ApplyOps(init, g));
    }
  }

  /** An invertible row operation makes a grid singular exactly when it already was. */
  lemma ApplyOpKeepsSingularity(op: RowOp, g: Grid)
    requires Invertible(op)
    ensures Determinant(ApplyOp(op, g)) == 0.0 <==> Determinant(g) == 0.0
  {
    ApplyOpDeterminant(op, g);
  }

  /** So does a history of them. */
  lemma {:induction false} ApplyOpsKeepsSingularity(ops: seq<RowOp>, g: Grid)
    requires AllInvertible(ops)
    ensures Determinant(ApplyOps(ops, g)) == 0.0 <==> Determinant(g) == 0.0
    decreases |ops|
  {
    if ops != [] {
      var init, op := ops[..|ops| - 1], ops[|ops| - 1];
      ApplyOpsKeepsSingularity(init, g);
      ApplyOpKeepsSingularity(op, ApplyOps(init, g));
    }
  }

  /** Row operations that take m to Id take Id to the two-sided inverse of m, and m is not singular. */
  lemma EliminationReachesId(ops: seq<RowOp>, m: Grid)
    requires AllInvertible(ops) && ApplyOps(ops, m) == IdGrid
    ensures Mul(ApplyOps(ops, IdGrid), m) == IdGrid
    ensures Mul(m, ApplyOps(ops, IdGrid)) == IdGrid
    ensures Determinant(m) != 0.0
  {
    ApplyOpsIsLeftMul(ops, m);
    UndoCancels(ops, m);
    MulIdentity(Undo(ops));
    UndoCancels(ops, IdGrid);
    ApplyOpsKeepsSingularity(ops, m);
    DeterminantExamples();
  }

  /** Row operations cannot make a nonsingular grid singular. */
  lemma EliminationKeepsSingularity(ops: seq<RowOp>, m: Grid)
    requires AllInvertible(ops) && Determinant(ApplyOps(ops, m)) == 0.0
    ensures Determinant(m) == 0.0
  {
    ApplyOpsKeepsSingularity(ops, m);
  }

  // ---------------------------------------------------------------------------
  // Reduction of the working grid, when the zero test is exact

  /** Columns 0..n-1 of w are those of Id. */
  ghost predicate ReducedThrough(w: Grid, n: nat) {
    forall r, c :: 0 <= r < 3 && 0 <= c < n && c < 3 ==> w[r][c] == if r == c then 1.0 else 0.0
  }

  /** With columns 0..i-1 reduced and no nonzero entry at or below the diagonal in column i, the grid is singular. */
  lemma NoPivotIsSingular(w: Grid, i: nat)
    requires ReducedThrough(w, i) && i < 3
    requires forall k :: i <= k < 3 ==> w[k][i] == 0.0
    ensures Determinant(w) == 0.0
  {
    if i == 0 {
      assert w[0][0] == 0.0 && w[1][0] == 0.0 && w[2][0] == 0.0;
    } else if i == 1 {
      assert w[0][0] == 1.0 && w[1][0] == 0.0 && w[2][0] == 0.0;
      assert w[1][1] == 0.0 && w[2][1] == 0.0;
    } else {
      assert w[0][0] == 1.0 && w[1][0] == 0.0 && w[2][0] == 0.0;
      assert w[0][1] == 0.0 && w[1][1] == 1.0 && w[2][1] == 0.0;
      assert w[2][2] == 0.0;
    }
  }

  /** Inside the clearing loop for column i: columns before i reduced, 1 on the diagonal, rows before j cleared. */
  ghost predicate ClearedThrough(w: Grid, i: nat, j: nat)
    requires i < 3
  {
    && ReducedThrough(w, i)
    && w[i][i] == 1.0
    && forall t :: 0 <= t < j && t < 3 && t != i ==> w[t][i] == 0.0
  }

  lemma SwapKeepsReduced(w: Grid, i: nat, p: nat)
    requires ReducedThrough(w, i) && i <= p < 3
    ensures ReducedThrough(SwapRowsOf(w, i, p), i)
  {
  }

  lemma ScaleMakesPivotOne(w: Grid, i: nat)
    requires ReducedThrough(w, i) && i < 3 && w[i][i] != 0.0
    ensures ClearedThrough(ScaleRowOf(w, i, 1.0 / w[i][i]), i, 0)
  {
  }

  lemma CombineClearsRow(w: Grid, i: nat, j: nat)
    requires i < 3 && j < 3 && i != j && ClearedThrough(w, i, j)
    ensures ClearedThrough(CombineRowsOf(w, i, -w[j][i], j), i, j + 1)
  {
  }

  lemma SkipKeepsCleared(w: Grid, i: nat, j: nat)
    requires i < 3 && j < 3 && ClearedThrough(w, i, j) && (j == i || w[j][i] == 0.0)
    ensures ClearedThrough(w, i, j + 1)
  {
  }

  lemma ClearedIsReduced(w: Grid, i: nat)
    requires i < 3 && ClearedThrough(w, i, 3)
    ensures ReducedThrough(w, i + 1)
  {
  }

  lemma ReducedIsId(w: Grid)
    requires ReducedThrough(w, 3)
    ensures w == IdGrid
  {
    GridEq(w, IdGrid);
  }

  // ---------------------------------------------------------------------------
  // The algorithm as functions, for any zero test

  /** The working grid and the grid that accumulates the inverse, as Invert holds them. */
  datatype Grids = Grids(matrix: Grid, inverse: Grid)

  /** The first row p at or after row `from` whose entry in column i the zero test does not count as zero; 3 when there is none. */
  function PivotRow(w: Grid, i: nat, from: nat, isEpsilon: real -> bool): (p: nat)
    requires i < 3 && from <= 3
    ensures from <= p <= 3
    ensures p < 3 ==> !isEpsilon(w[p][i])
    ensures forall k :: from <= k < p ==> isEpsilon(w[k][i])
    decreases 3 - from
  {
    if from == 3 then 3
    else if !isEpsilon(w[from][i]) then from
    else PivotRow(w, i, from + 1, isEpsilon)
  }

  /**
   * Rows i and p exchanged in both grids when p is below i, then row i of both
   * scaled by the reciprocal of the pivot: the diagonal entry becomes 1.
   */
  function PlacePivotOf(g: Grids, i: nat, p: nat): (r: Grids)
    requires i <= p < 3 && g.matrix[p][i] != 0.0
    ensures r.matrix[i][i] == 1.0
    ensures p != i ==> r.matrix[p] == g.matrix[i] && r.inverse[p] == g.inverse[i]
    ensures forall t :: 0 <= t < 3 && t != i && t != p ==> r.matrix[t] == g.matrix[t] && r.inverse[t] == g.inverse[t]
  {
    var swapped := if p == i then g else Grids(SwapRowsOf(g.matrix, i, p), SwapRowsOf(g.inverse, i, p));
    var scale := 1.0 / swapped.matrix[i][i];
    Grids(ScaleRowOf(swapped.matrix, i, scale), ScaleRowOf(swapped.inverse, i, scale))
  }

  /**
   * Row j of both grids less its leading value (its entry in column i of the
   * working grid) times row i, unless j is the pivot row or the leading value
   * counts as zero. With a 1 on the diagonal, the leading value becomes 0.
   */
  function ClearRowOf(g: Grids, i: nat, j: nat, isEpsilon: real -> bool): (r: Grids)
    requires i < 3 && j < 3
    ensures forall t :: 0 <= t < 3 && t != j ==> r.matrix[t] == g.matrix[t] && r.inverse[t] == g.inverse[t]
    ensures i == j || isEpsilon(g.matrix[j][i]) ==> r == g
    ensures g.matrix[i][i] == 1.0 && i != j && !isEpsilon(g.matrix[j][i]) ==> r.matrix[j][i] == 0.0
  {
    var leadingValue := g.matrix[j][i];
    if i == j || isEpsilon(leadingValue) then g
    else Grids(CombineRowsOf(g.matrix, i, -leadingValue, j), CombineRowsOf(g.inverse, i, -leadingValue, j))
  }

  /** The history after ClearRowOf: one more combination, unless the row was skipped. */
  ghost function ClearRowOps(ops: seq<RowOp>, g: Grids, i: nat, j: nat, isEpsilon: real -> bool): seq<RowOp>
    requires i < 3 && j < 3
  {
    if i == j || isEpsilon(g.matrix[j][i]) then ops else ops + [Combine(i, -g.matrix[j][i], j)]
  }

  /** Clearing a row keeps both grids the same history applied to m and to Id. */
  lemma ClearRowHistory(ops: seq<RowOp>, m: Grid, g: Grids, i: nat, j: nat, isEpsilon: real -> bool)
    requires i < 3 && j < 3
    requires AllInvertible(ops) && g.matrix == ApplyOps(ops, m) && g.inverse == ApplyOps(ops, IdGrid)
    ensures AllInvertible(ClearRowOps(ops, g, i, j, isEpsilon))
    ensures ClearRowOf(g, i, j, isEpsilon).matrix == ApplyOps(ClearRowOps(ops, g, i, j, isEpsilon), m)
    ensures ClearRowOf(g, i, j, isEpsilon).inverse == ApplyOps(ClearRowOps(ops, g, i, j, isEpsilon), IdGrid)
  {
    if !(i == j || isEpsilon(g.matrix[j][i])) {
      ApplyOpsSnoc(ops, Combine(i, -g.matrix[j][i], j), m);
      ApplyOpsSnoc(ops, Combine(i, -g.matrix[j][i], j), IdGrid);
    }
  }

  /** Under the exact zero test, clearing row j extends the cleared part of column i by one row. */
  lemma ClearRowKeepsCleared(g: Grids, i: nat, j: nat, isEpsilon: real -> bool)
    requires i < 3 && j < 3 && ExactZeroTest(isEpsilon) && ClearedThrough(g.matrix, i, j)
    ensures ClearedThrough(ClearRowOf(g, i, j, isEpsilon).matrix, i, j + 1)
  {
    if i == j || isEpsilon(g.matrix[j][i]) {
      SkipKeepsCleared(g.matrix, i, j);
    } else {
      CombineClearsRow(g.matrix, i, j);
    }
  }

  /**
   * Rows 0..n-1 cleared in column i, in order. The pivot row and the rows not
   * yet reached keep their values; every reached row whose leading value did
   * not count as zero has a 0 there, when the diagonal entry is 1.
   */
  function ClearFirstRows(g: Grids, i: nat, n: nat, isEpsilon: real -> bool): (r: Grids)
    requires i < 3 && n <= 3
    ensures r.matrix[i] == g.matrix[i] && r.inverse[i] == g.inverse[i]
    ensures forall t :: n <= t < 3 ==> r.matrix[t] == g.matrix[t] && r.inverse[t] == g.inverse[t]
    ensures g.matrix[i][i] == 1.0 ==>
      forall t :: 0 <= t < n && t != i && !isEpsilon(g.matrix[t][i]) ==> r.matrix[t][i] == 0.0
    decreases n
  {
    if n == 0 then g else ClearRowOf(ClearFirstRows(g, i, n - 1, isEpsilon), i, n - 1, isEpsilon)
  }

  /** Elimination from column i on: None at the first column without a pivot, otherwise the accumulated grid. */
  function EliminateFrom(g: Grids, i: nat, isEpsilon: real -> bool): Option<Mat3>
    requires i <= 3 && isEpsilon(0.0)
    decreases 3 - i
  {
    if i == 3 then Some(Mat3(g.inverse))
    else
      var p := PivotRow(g.matrix, i, i, isEpsilon);
      if p == 3 then None
      else EliminateFrom(ClearFirstRows(PlacePivotOf(g, i, p), i, 3, isEpsilon), i + 1, isEpsilon)
  }

  /** What Invert computes for m under the zero test, from the working grid m and the accumulated grid Id. */
  function InverseOf(m: Mat3, isEpsilon: real -> bool): Option<Mat3>
    requires isEpsilon(0.0)
  {
    EliminateFrom(Grids(m.values, IdGrid), 0, isEpsilon)
  }

  // ---------------------------------------------------------------------------
  // The algorithm

  /**
   * The pivot search: the offset from the diagonal of the first row, at or
   * below row i, whose entry in column i the zero test does not count as
   * zero; when there is none the loop runs out with i + di == 3.
   */
  method FindPivot(matrix: array<Row>, i: nat, isEpsilon: real -> bool) returns (di: nat)
    requires matrix.Length == 3 && i < 3
    ensures i + di <= 3
    ensures i + di < 3 ==> !isEpsilon(matrix[i + di][i])
    ensures forall k :: i <= k < i + di ==> isEpsilon(matrix[k][i])
    ensures i + di == PivotRow(matrix[..], i, i, isEpsilon)
  {
    di := 0;
    while i + di < 3
      invariant i + di <= 3
      invariant forall k :: i <= k < i + di ==> isEpsilon(matrix[k][i])
      invariant PivotRow(matrix[..], i, i + di, isEpsilon) == PivotRow(matrix[..], i, i, isEpsilon)
    {
      var entry := matrix[i + di][i];
      if !isEpsilon(entry) {
        break;
      }
      di := di + 1;
    }
  }

  /**
   * Swaps the pivot found at row i + di onto the diagonal, when it is not
   * there already, and scales row i so that the diagonal entry is 1; both
   * grids alike.
   */
  method PlacePivot(ghost m: Grid, matrix: array<Row>, inverse: array<Row>, i: nat, di: nat,
                    isEpsilon: real -> bool, ghost exact: bool, ghost ops: seq<RowOp>)
      returns (ghost ops': seq<RowOp>)
    requires matrix.Length == 3 && inverse.Length == 3 && matrix != inverse
    requires i + di < 3 && isEpsilon(0.0) && !isEpsilon(matrix[i + di][i])
    requires AllInvertible(ops) && matrix[..] == ApplyOps(ops, m) && inverse[..] == ApplyOps(ops, IdGrid)
    requires exact ==> ReducedThrough(matrix[..], i)
    modifies matrix, inverse
    ensures Grids(matrix[..], inverse[..]) == PlacePivotOf(Grids(old(matrix[..]), old(inverse[..])), i, i + di)
    ensures matrix[i][i] == 1.0
    ensures AllInvertible(ops') && matrix[..] == ApplyOps(ops', m) && inverse[..] == ApplyOps(ops', IdGrid)
    ensures exact ==> ClearedThrough(matrix[..], i, 0)
  {
    ops' := ops;
    if di > 0 {
      ApplyOpsSnoc(ops', Swap(i, i + di), m);
      ApplyOpsSnoc(ops', Swap(i, i + di), IdGrid);
      if exact {
        SwapKeepsReduced(matrix[..], i, i + di);
      }
      SwapRows(matrix, i, i + di);
      SwapRows(inverse, i, i + di);
      ops' := ops' + [Swap(i, i + di)];
    }
    var scale := 1.0 / matrix[i][i];
    ApplyOpsSnoc(ops', Scale(i, scale), m);
    ApplyOpsSnoc(ops', Scale(i, scale), IdGrid);
    if exact {
      ScaleMakesPivotOne(matrix[..], i);
    }
    ScaleRow(matrix, i, scale);
    ScaleRow(inverse, i, scale);
    ops' := ops' + [Scale(i, scale)];
  }

  /** Clears the entry of row j in column i, unless j is the pivot row or the entry already counts as zero; both grids alike. */
  method ClearRow(ghost m: Grid, matrix: array<Row>, inverse: array<Row>, i: nat, j: nat,
                  isEpsilon: real -> bool, ghost exact: bool, ghost ops: seq<RowOp>)
      returns (ghost ops': seq<RowOp>)
    requires matrix.Length == 3 && inverse.Length == 3 && matrix != inverse && i < 3 && j < 3
    requires exact ==> ExactZeroTest(isEpsilon)
    requires AllInvertible(ops) && matrix[..] == ApplyOps(ops, m) && inverse[..] == ApplyOps(ops, IdGrid)
    requires exact ==> ClearedThrough(matrix[..], i, j)
    modifies matrix, inverse
    ensures Grids(matrix[..], inverse[..]) == ClearRowOf(Grids(old(matrix[..]), old(inverse[..])), i, j, isEpsilon)
    ensures AllInvertible(ops') && matrix[..] == ApplyOps(ops', m) && inverse[..] == ApplyOps(ops', IdGrid)
    ensures exact ==> ClearedThrough(matrix[..], i, j + 1)
  {
    ghost var before := Grids(matrix[..], inverse[..]);
    if i != j {
      var leadingValue := matrix[j][i];
      if !isEpsilon(leadingValue) {
        CombineRows(matrix, i, -leadingValue, j);
        CombineRows(inverse, i, -leadingValue, j);
      }
    }
    ops' := ClearRowOps(ops, before, i, j, isEpsilon);
    ClearRowHistory(ops, m, before, i, j, isEpsilon);
    if exact {
      ClearRowKeepsCleared(before, i, j, isEpsilon);
    }
  }

  /** Clears column i in every row but the pivot row; both grids alike. */
  method ClearColumn(ghost m: Grid, matrix: array<Row>, inverse: array<Row>, i: nat,
                     isEpsilon: real -> bool, ghost exact: bool, ghost ops: seq<RowOp>)
      returns (ghost ops': seq<RowOp>)
    requires matrix.Length == 3 && inverse.Length == 3 && matrix != inverse && i < 3
    requires exact ==> ExactZeroTest(isEpsilon)
    requires AllInvertible(ops) && matrix[..] == ApplyOps(ops, m) && inverse[..] == ApplyOps(ops, IdGrid)
    requires exact ==> ClearedThrough(matrix[..], i, 0)
    modifies matrix, inverse
    ensures Grids(matrix[..], inverse[..]) == ClearFirstRows(Grids(old(matrix[..]), old(inverse[..])), i, 3, isEpsilon)
    ensures AllInvertible(ops') && matrix[..] == ApplyOps(ops', m) && inverse[..] == ApplyOps(ops', IdGrid)
    ensures exact ==> ReducedThrough(matrix[..], i + 1)
  {
    ops' := ops;
    for j := 0 to 3
      invariant Grids(matrix[..], inverse[..]) == ClearFirstRows(Grids(old(matrix[..]), old(inverse[..])), i, j, isEpsilon)
      invariant AllInvertible(ops')
      invariant matrix[..] == ApplyOps(ops', m) && inverse[..] == ApplyOps(ops', IdGrid)
      invariant exact ==> ClearedThrough(matrix[..], i, j)
    {
      ops' := ClearRow(m, matrix, inverse, i, j, isEpsilon, exact, ops');
    }
    if exact {
      ClearedIsReduced(matrix[..], i);
    }
  }

  /**
   * One pass of the column loop: the pivot search in column i, then, when a
   * pivot is found, its placement and the clearing of the column; false when
   * there is no pivot, with both grids left as they were.
   */
  method EliminateColumn(ghost m: Grid, matrix: array<Row>, inverse: array<Row>, i: nat,
                         isEpsilon: real -> bool, ghost exact: bool, ghost ops: seq<RowOp>)
      returns (found: bool, ghost ops': seq<RowOp>)
    requires matrix.Length == 3 && inverse.Length == 3 && matrix != inverse && i < 3 && isEpsilon(0.0)
    requires exact ==> ExactZeroTest(isEpsilon)
    requires AllInvertible(ops) && matrix[..] == ApplyOps(ops, m) && inverse[..] == ApplyOps(ops, IdGrid)
    requires exact ==> ReducedThrough(matrix[..], i)
    modifies matrix, inverse
    ensures found <==> PivotRow(old(matrix[..]), i, i, isEpsilon) < 3
    ensures !found ==> matrix[..] == old(matrix[..]) && inverse[..] == old(inverse[..])
    ensures found ==>
      var placed := PlacePivotOf(Grids(old(matrix[..]), old(inverse[..])), i, PivotRow(old(matrix[..]), i, i, isEpsilon));
      Grids(matrix[..], inverse[..]) == ClearFirstRows(placed, i, 3, isEpsilon)
    ensures EliminateFrom(Grids(old(matrix[..]), old(inverse[..])), i, isEpsilon)
      == if found then EliminateFrom(Grids(matrix[..], inverse[..]), i + 1, isEpsilon) else None
    ensures AllInvertible(ops') && matrix[..] == ApplyOps(ops', m) && inverse[..] == ApplyOps(ops', IdGrid)
    ensures exact && found ==> ReducedThrough(matrix[..], i + 1)
    ensures exact && !found ==> Determinant(m) == 0.0
  {
    ops' := ops;
    // Find the first row at or below the diagonal with a nonzero entry.
    var di := FindPivot(matrix, i, isEpsilon);
    if i + di == 3 {
      if exact {
        NoPivotIsSingular(matrix[..], i);
        EliminationKeepsSingularity(ops, m);
      }
      return false, ops';
    }
    ops' := PlacePivot(m, matrix, inverse, i, di, isEpsilon, exact, ops');
    ops' := ClearColumn(m, matrix, inverse, i, isEpsilon, exact, ops');
    found := true;
  }

  /**
   * The inverse of m, or None where a column has no pivot (there the library
   * swaps with a row 3 that does not exist and fails). The zero test must
   * count 0 itself as zero, as any tolerance test does.
   */
  method Invert(m: Mat3, isEpsilon: real -> bool) returns (r: Option<Mat3>)
    requires isEpsilon(0.0)
    ensures r == InverseOf(m, isEpsilon)
    ensures ExactZeroTest(isEpsilon) ==> (r.Some? <==> Determinant(m.values) != 0.0)
    ensures ExactZeroTest(isEpsilon) && r.Some? ==>
      Mul(r.value.values, m.values) == IdGrid && Mul(m.values, r.value.values) == IdGrid
  {
    ghost var exact := ExactZeroTest(isEpsilon);
    var matrix := m.Clone();
    var inverse := Id.Clone();
    ghost var ops: seq<RowOp> := [];

    for i := 0 to 3
      invariant AllInvertible(ops)
      invariant matrix[..] == ApplyOps(ops, m.values) && inverse[..] == ApplyOps(ops, IdGrid)
      invariant exact ==> ReducedThrough(matrix[..], i)
      invariant InverseOf(m, isEpsilon) == EliminateFrom(Grids(matrix[..], inverse[..]), i, isEpsilon)
    {
      var found;
      found, ops := EliminateColumn(m.values, matrix, inverse, i, isEpsilon, exact, ops);
      if !found {
        return None;
      }
    }

    if exact {
      ReducedIsId(matrix[..]);
      EliminationReachesId(ops, m.values);
    }
    r := Some(Mat3(inverse[..]));
  }

  // ---------------------------------------------------------------------------
  // Examples

  /** The test matrix and its exact inverse: the adjugate over the determinant 228. */
  const TestMatrix: Grid := [[8.0, 2.0, 3.0], [6.0, 8.0, 5.0], [3.0, 9.0, 9.0]]
  const TestInverse: Grid :=
    [[27.0 / 228.0, 9.0 / 228.0, -14.0 / 228.0],
     [-39.0 / 228.0, 63.0 / 228.0, -22.0 / 228.0],
     [30.0 / 228.0, -66.0 / 228.0, 52.0 / 228.0]]

  lemma TestInverseIsRightInverse()
    ensures Mul(TestMatrix, TestInverse) == IdGrid
  {
    GridEq(Mul(TestMatrix, TestInverse), IdGrid);
  }

  lemma TestInverseIsLeftInverse()
    ensures Mul(TestInverse, TestMatrix) == IdGrid
  {
    GridEq(Mul(TestInverse, TestMatrix), IdGrid);
  }

  /** A left inverse and a right inverse of the same grid are equal. */
  lemma InverseUnique(x: Grid, m: Grid, y: Grid)
    requires Mul(x, m) == IdGrid && Mul(m, y) == IdGrid
    ensures x == y
  {
    MulAssociative(x, m, y);
    MulIdentity(x);
    MulIdentity(y);
  }

  /** Inverting Id with the exact zero test gives Id. */
  method InvertIdExample() returns (id: Option<Mat3>)
    ensures id == Some(Id)
  {
    var exactZero := (x: real) => x == 0.0;
    assert ExactZeroTest(exactZero);
    DeterminantExamples();
    id := Invert(Id, exactZero);
    MulIdentity(IdGrid);
    InverseUnique(id.value.values, IdGrid, IdGrid);
  }

  /** Inverting the test matrix with the exact zero test gives its exact inverse. */
  method InvertTestMatrixExample() returns (inverse: Option<Mat3>)
    ensures inverse == Some(Mat3(TestInverse))
  {
    var exactZero := (x: real) => x == 0.0;
    assert ExactZeroTest(exactZero);
    assert Determinant(TestMatrix) == 228.0;
    inverse := Invert(Mat3(TestMatrix), exactZero);
    TestInverseIsRightInverse();
    InverseUnique(inverse.value.values, TestMatrix, TestInverse);
  }

  /** Inverting the exact inverse with the exact zero test gives back the test matrix. */
  method InvertTestInverseExample() returns (back: Option<Mat3>)
    ensures back == Some(Mat3(TestMatrix))
  {
    var exactZero := (x: real) => x == 0.0;
    assert ExactZeroTest(exactZero);
    assert Determinant(TestInverse) == 1.0 / 228.0;
    back := Invert(Mat3(TestInverse), exactZero);
    TestInverseIsLeftInverse();
    InverseUnique(back.value.values, TestInverse, TestMatrix);
  }

  // ---------------------------------------------------------------------------
  // A tolerant zero test

  /** A zero test that accepts every magnitude below 0.001. */
  const Tolerance: real -> bool := (x: real) => -0.001 < x < 0.001

  /** Singular, but its entry 0.0005 passes the tolerant test. */
  const NearSingular: Grid := [[1.0, 10000.0, 0.0], [0.0005, 5.0, 0.0], [0.0, 0.0, 1.0]]

  /** Nonsingular, but its only entry in column 0 passes the tolerant test. */
  const SmallPivot: Grid := [[0.0005, 0.0, 0.0], [0.0, 1.0, 0.0], [0.0, 0.0, 1.0]]

  /**
   * Under a tolerant zero test the elimination can answer for a singular
   * matrix: row 1 is skipped in column 0, so a pivot turns up in every column.
   */
  lemma TolerantTestInvertsSingular()
    ensures Determinant(NearSingular) == 0.0
    ensures InverseOf(Mat3(NearSingular), Tolerance).Some?
  {
    var g0 := Grids(NearSingular, IdGrid);
    assert PivotRow(g0.matrix, 0, 0, Tolerance) == 0;
    var placed0 := PlacePivotOf(g0, 0, 0);
    assert placed0.matrix[0] == [1.0, 10000.0, 0.0];
    assert Tolerance(placed0.matrix[1][0]) && Tolerance(placed0.matrix[2][0]);
    var g1 := ClearFirstRows(placed0, 0, 3, Tolerance);
    assert g1 == placed0 by {
      assert ClearFirstRows(placed0, 0, 1, Tolerance) == placed0;
      assert ClearFirstRows(placed0, 0, 2, Tolerance) == placed0;
    }
    assert PivotRow(g1.matrix, 1, 1, Tolerance) == 1;
    var placed1 := PlacePivotOf(g1, 1, 1);
    assert placed1.matrix[2] == [0.0, 0.0, 1.0];
    var g2 := ClearFirstRows(placed1, 1, 3, Tolerance);
    assert PivotRow(g2.matrix, 2, 2, Tolerance) == 2;
  }

  /** Under a tolerant zero test a nonsingular matrix can get no answer: column 0 has no pivot. */
  lemma TolerantTestRejectsNonsingular()
    ensures Determinant(SmallPivot) == 0.0005
    ensures InverseOf(Mat3(SmallPivot), Tolerance) == None
  {
    assert PivotRow(SmallPivot, 0, 0, Tolerance) == 3;
  }

  // ---------------------------------------------------------------------------
  // The pivotless column, as written

  /** The rows of a grid as JavaScript holds them: Some(row), or None for `undefined`. */
  function JsRows(w: Grid): seq<Option<Row>> {
    [Option<Row>.Some(w[0]), Option<Row>.Some(w[1]), Option<Row>.Some(w[2])]
  }

  /**
   * swapRows on a JavaScript array of rows, with no bound on j: reading past the
   * end gives `undefined`, and writing past the end extends the array.
   */
  function SwapRowsAsWritten(rows: seq<Option<Row>>, i: nat, j: nat): (r: seq<Option<Row>>)
    requires i < |rows|
    ensures |r| == if j < |rows| then |rows| else j + 1
    ensures r[j] == rows[i]
    ensures i != j ==> r[i] == if j < |rows| then rows[j] else None
  {
    var padded := if j < |rows| then rows else rows + seq(j + 1 - |rows|, _ => None);
    padded[i := padded[j]][j := rows[i]]
  }

  /**
   * When every entry at or below the diagonal of column i passes the zero test
   * (none counts as nonzero), the pivot search ends at i + di == 3, and the
   * unguarded swap leaves row i
   * `undefined`: the next read of matrix[i][i] fails.
   */
  lemma NoPivotSwapLosesRow(w: Grid, i: nat, di: nat, isEpsilon: real -> bool)
    requires i < 3 && i + di <= 3
    requires i + di < 3 ==> !isEpsilon(w[i + di][i])
    requires forall k :: i <= k < 3 ==> isEpsilon(w[k][i])
    ensures i + di == 3
    ensures SwapRowsAsWritten(JsRows(w), i, i + di)[i] == None
  {
  }

  /** The zero grid is such an input, at column 0. */
  lemma ZeroGridHasNoPivot(isEpsilon: real -> bool)
    requires isEpsilon(0.0)
    ensures forall k :: 0 <= k < 3 ==> isEpsilon(ZeroGrid[k][0])
  {
  }
}
