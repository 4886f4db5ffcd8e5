/**
 * The Mat3 value type: a row-major 3x3 grid of reals with its elementwise and
 * linear operations. Each operation that the library fills with nested loops
 * is a method with those loops, proved against a specification function on
 * grids; the algebraic laws are lemmas about the specification functions.
 */
module Matrix {
  import opened Vectors

  /** One row of a grid; also the shape of the mutable rows Invert works on. */
  type Row = r: seq<real> | |r| == 3 witness [0.0, 0.0, 0.0]

  /** A row-major 3x3 grid, `g[i][j]` being row i, column j: three rows of three values, never ragged. */
  type Grid = g: seq<seq<real>> | |g| == 3 && |g[0]| == 3 && |g[1]| == 3 && |g[2]| == 3
    witness [[0.0, 0.0, 0.0], [0.0, 0.0, 0.0], [0.0, 0.0, 0.0]]

  const ZeroGrid: Grid := [[0.0, 0.0, 0.0], [0.0, 0.0, 0.0], [0.0, 0.0, 0.0]]
  const IdGrid: Grid := [[1.0, 0.0, 0.0], [0.0, 1.0, 0.0], [0.0, 0.0, 1.0]]
  const OnesGrid: Grid := [[1.0, 1.0, 1.0], [1.0, 1.0, 1.0], [1.0, 1.0, 1.0]]

  /** Mat3.Zero, Mat3.Id and Mat3.Ones. */
  const Zero: Mat3 := Mat3(ZeroGrid)
  const Id: Mat3 := Mat3(IdGrid)
  const Ones: Mat3 := Mat3(OnesGrid)

  /** Zero has every entry 0, Ones every entry 1, and Id 1 exactly on the diagonal. */
  lemma NamedMatrices()
    ensures forall i, j :: 0 <= i < 3 && 0 <= j < 3 ==>
      Zero.values[i][j] == 0.0 && Ones.values[i][j] == 1.0 && Id.values[i][j] == (if i == j then 1.0 else 0.0)
  {
  }

  /** Two grids are equal when they agree entry by entry. */
  lemma GridEq(a: Grid, b: Grid)
    requires forall i, j :: 0 <= i < 3 && 0 <= j < 3 ==> a[i][j] == b[i][j]
    ensures a == b
  {
    forall i | 0 <= i < 3
      ensures a[i] == b[i]
    {
      assert a[i][0] == b[i][0] && a[i][1] == b[i][1] && a[i][2] == b[i][2];
    }
  }

  // ---------------------------------------------------------------------------
  // Specification functions

  /** The transpose: entry (i, j) is entry (j, i) of g. */
  function Transposed(g: Grid): Grid {
    seq(3, i requires 0 <= i < 3 => seq(3, j requires 0 <= j < 3 => g[j][i]))
  }

  /** The elementwise negation. */
  function Negated(g: Grid): Grid {
    seq(3, i requires 0 <= i < 3 => seq(3, j requires 0 <= j < 3 => -g[i][j]))
  }

  /** The elementwise sum. */
  function Plus(a: Grid, b: Grid): Grid {
    seq(3, i requires 0 <= i < 3 => seq(3, j requires 0 <= j < 3 => a[i][j] + b[i][j]))
  }

  /** The scalar product, each entry multiplied by k. */
  function Scaled(g: Grid, k: real): Grid {
    seq(3, i requires 0 <= i < 3 => seq(3, j requires 0 <= j < 3 => k * g[i][j]))
  }

  /** Column j of g, as a vector. */
  function Column(g: Grid, j: nat): Row
    requires j < 3
  {
    seq(3, t requires 0 <= t < 3 => g[t][j])
  }

  /** The dot product of two 3-component sequences. */
  function Dot(u: seq<real>, v: seq<real>): real
    requires |u| == 3 && |v| == 3
  {
    u[0] * v[0] + u[1] * v[1] + u[2] * v[2]
  }

  /** The sum of the first n terms of the dot product, as an accumulating loop builds it. */
  function DotPrefix(u: seq<real>, v: seq<real>, n: nat): real
    requires |u| == 3 && |v| == 3 && n <= 3
  {
    if n == 0 then 0.0 else DotPrefix(u, v, n - 1) + u[n - 1] * v[n - 1]
  }

  lemma DotPrefixComplete(u: seq<real>, v: seq<real>)
    requires |u| == 3 && |v| == 3
    ensures DotPrefix(u, v, 3) == Dot(u, v)
  {
    assert DotPrefix(u, v, 1) == u[0] * v[0];
    assert DotPrefix(u, v, 2) == u[0] * v[0] + u[1] * v[1];
  }

  /** The matrix product: entry (i, j) is the sum over k of a[i][k] * b[k][j]. */
  function Mul(a: Grid, b: Grid): Grid {
    seq(3, i requires 0 <= i < 3 => seq(3, j requires 0 <= j < 3 => Dot(a[i], Column(b, j))))
  }

  /** The matrix-vector product: component i is the sum over j of m[i][j] * v[j]. */
  function Apply(m: Grid, v: Vec3): Vec3 {
    seq(3, i requires 0 <= i < 3 => Dot(m[i], v))
  }

  /** The sum of the diagonal. */
  function TraceOf(g: Grid): real {
    g[0][0] + g[1][1] + g[2][2]
  }

  /** The sum of the first n diagonal entries, as the trace loop builds it. */
  function DiagonalPrefix(g: Grid, n: nat): real
    requires n <= 3
  {
    if n == 0 then 0.0 else DiagonalPrefix(g, n - 1) + g[n - 1][n - 1]
  }

  /**
   * The six-term cofactor formula, in the order the library writes its terms;
   * it agrees with the expansion along the first row.
   */
  function Determinant(g: Grid): (d: real)
    ensures d == g[0][0] * (g[1][1] * g[2][2] - g[1][2] * g[2][1])
               - g[0][1] * (g[1][0] * g[2][2] - g[1][2] * g[2][0])
               + g[0][2] * (g[1][0] * g[2][1] - g[1][1] * g[2][0])
  {
    var a11, a12, a13 := g[0][0], g[0][1], g[0][2];
    var a21, a22, a23 := g[1][0], g[1][1], g[1][2];
    var a31, a32, a33 := g[2][0], g[2][1], g[2][2];
    a11 * a22 * a33
    + a12 * a23 * a31
    + a13 * a21 * a32
    - a31 * a22 * a13
    - a32 * a23 * a11
    - a33 * a21 * a12
  }

  // ---------------------------------------------------------------------------
  // Construction

  /** The nine-scalar constructor: the arguments fill the grid in row-major order. */
  function FromScalars(a: real, b: real, c: real, d: real, e: real, f: real, g: real, h: real, i: real): (m: Mat3)
    ensures forall r, k :: 0 <= r < 3 && 0 <= k < 3 ==> m.values[r][k] == [a, b, c, d, e, f, g, h, i][3 * r + k]
  {
    Mat3([[a, b, c], [d, e, f], [g, h, i]])
  }

  /** Reading a matrix's nine entries in row-major order and passing them back builds the same matrix. */
  lemma FromScalarsRoundTrip(m: Mat3)
    ensures FromScalars(m.values[0][0], m.values[0][1], m.values[0][2],
                        m.values[1][0], m.values[1][1], m.values[1][2],
                        m.values[2][0], m.values[2][1], m.values[2][2]) == m
  {
    var v := m.values;
    var n := FromScalars(v[0][0], v[0][1], v[0][2], v[1][0], v[1][1], v[1][2], v[2][0], v[2][1], v[2][2]);
    GridEq(n.values, v);
  }

  /** Adds row i of a times column j of b into entry (i, j) of grid, one term at a time. */
  method AccumulateEntry(a: Grid, b: Grid, grid: Grid, i: nat, j: nat) returns (r: Grid)
    requires i < 3 && j < 3
    ensures r == grid[i := grid[i][j := grid[i][j] + Dot(a[i], Column(b, j))]]
  {
    r := grid;
    for k := 0 to 3
      invariant forall t :: 0 <= t < 3 && t != i ==> r[t] == grid[t]
      invariant forall t :: 0 <= t < 3 && t != j ==> r[i][t] == grid[i][t]
      invariant r[i][j] == grid[i][j] + DotPrefix(a[i], Column(b, j), k)
    {
      r := r[i := r[i][j := r[i][j] + a[i][k] * b[k][j]]];
    }
    DotPrefixComplete(a[i], Column(b, j));
    assert r[i] == grid[i][j := grid[i][j] + Dot(a[i], Column(b, j))];
  }

  /**
   * A 3x3 matrix value. The library's methods return fresh matrices and never
   * write to their receiver, so a Mat3 is an immutable value here; the loops
   * that fill a fresh grid are kept, on a local grid variable.
   */
  datatype Mat3 = Mat3(values: Grid)
  {
    /** A mutable copy of the rows, on which Invert works; it is fresh, so no write to it reaches this matrix. */
    method Clone() returns (grid: array<Row>)
      ensures fresh(grid) && grid.Length == 3 && grid[..] == values
    {
      var rows: seq<Row> := [values[0], values[1], values[2]];
      grid := new Row[3](i requires 0 <= i < 3 => rows[i]);
    }

    /** Result (i, j) is values[j][i]. */
    method Transpose() returns (r: Mat3)
      ensures r.values == Transposed(values)
    {
      var grid := ZeroGrid;
      for i := 0 to 3
        invariant forall a, b :: 0 <= a < i && 0 <= b < 3 ==> grid[a][b] == values[b][a]
      {
        for j := 0 to 3
          invariant forall a, b :: 0 <= a < i && 0 <= b < 3 ==> grid[a][b] == values[b][a]
          invariant forall b :: 0 <= b < j ==> grid[i][b] == values[b][i]
        {
          grid := grid[i := grid[i][j := values[j][i]]];
        }
      }
      GridEq(grid, Transposed(values));
      r := Mat3(grid);
    }

    /** Each entry with its sign flipped. */
    method Negate() returns (r: Mat3)
      ensures r.values == Negated(values)
    {
      var grid := ZeroGrid;
      for i := 0 to 3
        invariant forall a, b :: 0 <= a < i && 0 <= b < 3 ==> grid[a][b] == -values[a][b]
      {
        for j := 0 to 3
          invariant forall a, b :: 0 <= a < i && 0 <= b < 3 ==> grid[a][b] == -values[a][b]
          invariant forall b :: 0 <= b < j ==> grid[i][b] == -values[i][b]
        {
          grid := grid[i := grid[i][j := -values[i][j]]];
        }
      }
      GridEq(grid, Negated(values));
      r := Mat3(grid);
    }

    /** The elementwise sum this + mat. */
    method Add(mat: Mat3) returns (r: Mat3)
      ensures r.values == Plus(values, mat.values)
    {
      var grid := ZeroGrid;
      for i := 0 to 3
        invariant forall a, b :: 0 <= a < i && 0 <= b < 3 ==> grid[a][b] == values[a][b] + mat.values[a][b]
      {
        for j := 0 to 3
          invariant forall a, b :: 0 <= a < i && 0 <= b < 3 ==> grid[a][b] == values[a][b] + mat.values[a][b]
          invariant forall b :: 0 <= b < j ==> grid[i][b] == values[i][b] + mat.values[i][b]
        {
          grid := grid[i := grid[i][j := values[i][j] + mat.values[i][j]]];
        }
      }
      GridEq(grid, Plus(values, mat.values));
      r := Mat3(grid);
    }

    /** this - mat, computed as this.Add(mat.Negate()). */
    method Sub(mat: Mat3) returns (r: Mat3)
      ensures r.values == Plus(values, Negated(mat.values))
    {
      var negated := mat.Negate();
      r := Add(negated);
    }

    /** The scalar product num * this. */
    method TimesNum(num: real) returns (r: Mat3)
      ensures r.values == Scaled(values, num)
    {
      var grid := ZeroGrid;
      for i := 0 to 3
        invariant forall a, b :: 0 <= a < i && 0 <= b < 3 ==> grid[a][b] == num * values[a][b]
      {
        for j := 0 to 3
          invariant forall a, b :: 0 <= a < i && 0 <= b < 3 ==> grid[a][b] == num * values[a][b]
          invariant forall b :: 0 <= b < j ==> grid[i][b] == num * values[i][b]
        {
          grid := grid[i := grid[i][j := num * values[i][j]]];
        }
      }
      GridEq(grid, Scaled(values, num));
      r := Mat3(grid);
    }

    /** The matrix product this * mat, each entry accumulated from zero over k. */
    method TimesMat(mat: Mat3) returns (r: Mat3)
      ensures r.values == Mul(values, mat.values)
    {
      var grid := ZeroGrid;
      for i := 0 to 3
        invariant forall a :: 0 <= a < 3 ==> grid[a] == if a < i then Mul(values, mat.values)[a] else [0.0, 0.0, 0.0]
      {
        for j := 0 to 3
          invariant forall a :: 0 <= a < 3 && a != i ==> grid[a] == if a < i then Mul(values, mat.values)[a] else [0.0, 0.0, 0.0]
          invariant forall b :: 0 <= b < 3 ==> grid[i][b] == if b < j then Mul(values, mat.values)[i][b] else 0.0
        {
          grid := AccumulateEntry(values, mat.values, grid, i, j);
        }
        assert grid[i] == Mul(values, mat.values)[i];
      }
      r := Mat3(grid);
    }

    /** The matrix-vector product this * vec, each component accumulated from zero over j. */
    method TimesVec(vec: Vec3) returns (r: Vec3)
      ensures r == Apply(values, vec)
    {
      var acc: Vec3 := [0.0, 0.0, 0.0];
      for i := 0 to 3
        invariant forall a :: 0 <= a < 3 ==> acc[a] == if a < i then Dot(values[a], vec) else 0.0
      {
        for j := 0 to 3
          invariant forall a :: 0 <= a < 3 && a != i ==> acc[a] == if a < i then Dot(values[a], vec) else 0.0
          invariant acc[i] == DotPrefix(values[i], vec, j)
        {
          acc := acc[i := acc[i] + values[i][j] * vec[j]];
        }
        DotPrefixComplete(values[i], vec);
      }
      r := acc;
    }

    /** The sum of the diagonal, accumulated from zero. */
    method Trace() returns (t: real)
      ensures t == TraceOf(values)
    {
      t := 0.0;
      for i := 0 to 3
        invariant t == DiagonalPrefix(values, i)
      {
        t := t + values[i][i];
      }
      assert DiagonalPrefix(values, 2) == values[0][0] + values[1][1];
    }
  }

  // ---------------------------------------------------------------------------
  // Transpose and Negate

  lemma TransposeEntry(g: Grid)
    ensures forall i, j :: 0 <= i < 3 && 0 <= j < 3 ==> Transposed(g)[i][j] == g[j][i]
  {
  }

  /** Transposing twice gives back the matrix. */
  lemma TransposeInvolution(g: Grid)
    ensures Transposed(Transposed(g)) == g
  {
    GridEq(Transposed(Transposed(g)), g);
  }

  /** Zero and Id are their own transposes. */
  lemma TransposeFixesZeroAndId()
    ensures Transposed(ZeroGrid) == ZeroGrid
    ensures Transposed(IdGrid) == IdGrid
  {
    GridEq(Transposed(ZeroGrid), ZeroGrid);
    GridEq(Transposed(IdGrid), IdGrid);
  }

  /** Negating twice gives back the matrix. */
  lemma NegateInvolution(g: Grid)
    ensures Negated(Negated(g)) == g
  {
    GridEq(Negated(Negated(g)), g);
  }

  /** Zero is its own negative. */
  lemma NegateFixesZero()
    ensures Negated(ZeroGrid) == ZeroGrid
  {
    GridEq(Negated(ZeroGrid), ZeroGrid);
  }

  // ---------------------------------------------------------------------------
  // Add, Sub and TimesNum

  /** Addition is commutative. */
  lemma PlusCommutative(a: Grid, b: Grid)
    ensures Plus(a, b) == Plus(b, a)
  {
    GridEq(Plus(a, b), Plus(b, a));
  }

  /** Addition is associative. */
  lemma PlusAssociative(a: Grid, b: Grid, c: Grid)
    ensures Plus(Plus(a, b), c) == Plus(a, Plus(b, c))
  {
    GridEq(Plus(Plus(a, b), c), Plus(a, Plus(b, c)));
  }

  /** Zero is the identity of addition, on either side. */
  lemma PlusZeroIdentity(g: Grid)
    ensures Plus(ZeroGrid, g) == g
    ensures Plus(g, ZeroGrid) == g
  {
    GridEq(Plus(ZeroGrid, g), g);
    GridEq(Plus(g, ZeroGrid), g);
  }

  /** Adding the negative cancels: a + (-a) is Zero. */
  lemma PlusNegatedCancels(g: Grid)
    ensures Plus(g, Negated(g)) == ZeroGrid
  {
    GridEq(Plus(g, Negated(g)), ZeroGrid);
  }

  /** Subtraction is anti-commutative: a - b == -(b - a). */
  lemma SubAntiCommutative(a: Grid, b: Grid)
    ensures Plus(a, Negated(b)) == Negated(Plus(b, Negated(a)))
  {
    GridEq(Plus(a, Negated(b)), Negated(Plus(b, Negated(a))));
  }

  /** Zero - m == -m and m - Zero == m. */
  lemma SubZero(g: Grid)
    ensures Plus(ZeroGrid, Negated(g)) == Negated(g)
    ensures Plus(g, Negated(ZeroGrid)) == g
  {
    PlusZeroIdentity(Negated(g));
    NegateFixesZero();
    PlusZeroIdentity(g);
  }

  /** Scalar 1 is neutral and scalar 0 maps every matrix to Zero. */
  lemma ScaledNeutralAndAnnihilating(g: Grid)
    ensures Scaled(g, 1.0) == g
    ensures Scaled(g, 0.0) == ZeroGrid
  {
    GridEq(Scaled(g, 1.0), g);
    GridEq(Scaled(g, 0.0), ZeroGrid);
  }

  // ---------------------------------------------------------------------------
  // TimesMat and TimesVec

  lemma MulEntry(a: Grid, b: Grid, i: nat, j: nat)
    requires i < 3 && j < 3
    ensures Mul(a, b)[i][j] == a[i][0] * b[0][j] + a[i][1] * b[1][j] + a[i][2] * b[2][j]
  {
  }

  /** Id is the left and the right identity of the product. */
  lemma MulIdentity(g: Grid)
    ensures Mul(IdGrid, g) == g
    ensures Mul(g, IdGrid) == g
  {
    forall i, j | 0 <= i < 3 && 0 <= j < 3
      ensures Mul(IdGrid, g)[i][j] == g[i][j] && Mul(g, IdGrid)[i][j] == g[i][j]
    {
      MulEntry(IdGrid, g, i, j);
      MulEntry(g, IdGrid, i, j);
    }
    GridEq(Mul(IdGrid, g), g);
    GridEq(Mul(g, IdGrid), g);
  }

  /** Zero absorbs the product on either side. */
  lemma MulZeroAbsorbing(g: Grid)
    ensures Mul(ZeroGrid, g) == ZeroGrid
    ensures Mul(g, ZeroGrid) == ZeroGrid
  {
    forall i, j | 0 <= i < 3 && 0 <= j < 3
      ensures Mul(ZeroGrid, g)[i][j] == 0.0 && Mul(g, ZeroGrid)[i][j] == 0.0
    {
      MulEntry(ZeroGrid, g, i, j);
      MulEntry(g, ZeroGrid, i, j);
    }
    GridEq(Mul(ZeroGrid, g), ZeroGrid);
    GridEq(Mul(g, ZeroGrid), ZeroGrid);
  }

  /** Id applied to a vector returns it; Zero applied to a vector, or any matrix applied to the zero vector, gives the zero vector. */
  lemma ApplyIdentityAndZero(g: Grid, v: Vec3)
    ensures Apply(IdGrid, v) == v
    ensures Apply(ZeroGrid, v) == Vec3Zero
    ensures Apply(g, Vec3Zero) == Vec3Zero
  {
    assert Apply(IdGrid, v)[0] == v[0] && Apply(IdGrid, v)[1] == v[1] && Apply(IdGrid, v)[2] == v[2];
  }

  /** The product of two matrices acts on a vector as applying the right factor first, then the left: transforms compose by TimesMat. */
  lemma ApplyOfMul(a: Grid, b: Grid, v: Vec3)
    ensures Apply(Mul(a, b), v) == Apply(a, Apply(b, v))
  {
    forall i | 0 <= i < 3
      ensures Apply(Mul(a, b), v)[i] == Apply(a, Apply(b, v))[i]
    {
      ApplyOfMulAt(a, b, v, i);
    }
  }

  lemma ApplyOfMulAt(a: Grid, b: Grid, v: Vec3, i: nat)
    requires i < 3
    ensures Apply(Mul(a, b), v)[i] == Apply(a, Apply(b, v))[i]
  {
    var w := Apply(b, v);
    assert w[0] == b[0][0] * v[0] + b[0][1] * v[1] + b[0][2] * v[2];
    assert w[1] == b[1][0] * v[0] + b[1][1] * v[1] + b[1][2] * v[2];
    assert w[2] == b[2][0] * v[0] + b[2][1] * v[1] + b[2][2] * v[2];
    MulEntry(a, b, i, 0);
    MulEntry(a, b, i, 1);
    MulEntry(a, b, i, 2);
    assert Apply(Mul(a, b), v)[i] == Mul(a, b)[i][0] * v[0] + Mul(a, b)[i][1] * v[1] + Mul(a, b)[i][2] * v[2];
    assert Apply(a, w)[i] == a[i][0] * w[0] + a[i][1] * w[1] + a[i][2] * w[2];
  }

  /** The product is associative. */
  lemma MulAssociative(a: Grid, b: Grid, c: Grid)
    ensures Mul(Mul(a, b), c) == Mul(a, Mul(b, c))
  {
    forall i, j | 0 <= i < 3 && 0 <= j < 3
      ensures Mul(Mul(a, b), c)[i][j] == Mul(a, Mul(b, c))[i][j]
    {
      MulEntry(Mul(a, b), c, i, j);
      MulEntry(a, Mul(b, c), i, j);
      MulEntry(a, b, i, 0);
      MulEntry(a, b, i, 1);
      MulEntry(a, b, i, 2);
      MulEntry(b, c, 0, j);
      MulEntry(b, c, 1, j);
      MulEntry(b, c, 2, j);
    }
    GridEq(Mul(Mul(a, b), c), Mul(a, Mul(b, c)));
  }

  const Counting: Grid := [[1.0, 2.0, 3.0], [4.0, 5.0, 6.0], [7.0, 8.0, 9.0]]

  /** The products of Ones and Counting the library's tests list; they differ, so TimesMat does not commute. */
  lemma MulExamples()
    ensures Mul(OnesGrid, OnesGrid) == [[3.0, 3.0, 3.0], [3.0, 3.0, 3.0], [3.0, 3.0, 3.0]]
    ensures Mul(OnesGrid, Counting) == [[12.0, 15.0, 18.0], [12.0, 15.0, 18.0], [12.0, 15.0, 18.0]]
    ensures Mul(Counting, OnesGrid) == [[6.0, 6.0, 6.0], [15.0, 15.0, 15.0], [24.0, 24.0, 24.0]]
    ensures Mul(OnesGrid, Counting) != Mul(Counting, OnesGrid)
  {
    GridEq(Mul(OnesGrid, OnesGrid), [[3.0, 3.0, 3.0], [3.0, 3.0, 3.0], [3.0, 3.0, 3.0]]);
    GridEq(Mul(OnesGrid, Counting), [[12.0, 15.0, 18.0], [12.0, 15.0, 18.0], [12.0, 15.0, 18.0]]);
    GridEq(Mul(Counting, OnesGrid), [[6.0, 6.0, 6.0], [15.0, 15.0, 15.0], [24.0, 24.0, 24.0]]);
    assert Mul(OnesGrid, Counting)[0][0] == 12.0;
  }

  /** The square of Counting, as the library's tests list it. */
  lemma MulSquareExample()
    ensures Mul(Counting, Counting) == [[30.0, 36.0, 42.0], [66.0, 81.0, 96.0], [102.0, 126.0, 150.0]]
  {
    GridEq(Mul(Counting, Counting), [[30.0, 36.0, 42.0], [66.0, 81.0, 96.0], [102.0, 126.0, 150.0]]);
  }

  /** The matrix-vector products the library's tests list. */
  lemma ApplyExamples()
    ensures Apply(OnesGrid, [1.0, 1.0, 1.0]) == [3.0, 3.0, 3.0]
    ensures Apply(OnesGrid, [1.0, 2.0, 3.0]) == [6.0, 6.0, 6.0]
    ensures Apply(Counting, [1.0, 1.0, 1.0]) == [6.0, 15.0, 24.0]
    ensures Apply(Counting, [1.0, 2.0, 3.0]) == [14.0, 32.0, 50.0]
  {
  }

  // ---------------------------------------------------------------------------
  // Trace and Determinant

  /** The trace values the library's tests list. */
  lemma TraceExamples()
    ensures TraceOf(ZeroGrid) == 0.0 && TraceOf(OnesGrid) == 3.0 && TraceOf(IdGrid) == 3.0
    ensures TraceOf(Counting) == 15.0
    ensures TraceOf([[1.0, 0.0, 0.0], [0.0, 1.0, 0.0], [0.0, 0.0, -2.0]]) == 0.0
  {
  }

  /** The trace is linear and blind to transposition and to the order of a product. */
  lemma TraceLaws(a: Grid, b: Grid, k: real)
    ensures TraceOf(Plus(a, b)) == TraceOf(a) + TraceOf(b)
    ensures TraceOf(Scaled(a, k)) == k * TraceOf(a)
    ensures TraceOf(Transposed(a)) == TraceOf(a)
    ensures TraceOf(Mul(a, b)) == TraceOf(Mul(b, a))
  {
    MulEntry(a, b, 0, 0);
    MulEntry(a, b, 1, 1);
    MulEntry(a, b, 2, 2);
    MulEntry(b, a, 0, 0);
    MulEntry(b, a, 1, 1);
    MulEntry(b, a, 2, 2);
  }

  /** The determinant values the library's tests list: Zero, Ones and Counting are singular. */
  lemma DeterminantExamples()
    ensures Determinant(IdGrid) == 1.0
    ensures Determinant(ZeroGrid) == 0.0
    ensures Determinant(OnesGrid) == 0.0
    ensures Determinant(Counting) == 0.0
    ensures Determinant([[1.0, 0.0, 0.0], [0.0, 1.0, 0.0], [0.0, 0.0, -2.0]]) == -2.0
    ensures Determinant([[6.0, 6.0, 0.0], [0.0, 2.0, 3.0], [6.0, 0.0, 4.0]]) == 156.0
  {
  }

  /** Transposing keeps the determinant. */
  lemma DeterminantTranspose(g: Grid)
    ensures Determinant(Transposed(g)) == Determinant(g)
  {
  }

  /** A matrix with two identical rows, or with a row of zeros, has determinant 0. */
  lemma DeterminantDegenerateRows(g: Grid, i: nat, j: nat)
    requires i < 3 && j < 3
    ensures i != j && g[i] == g[j] ==> Determinant(g) == 0.0
    ensures g[i] == [0.0, 0.0, 0.0] ==> Determinant(g) == 0.0
  {
  }
}
