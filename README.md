# mat3 in Dafny

A model of `Mat3`, the 3x3 matrix type of the TypeScript library `mat3`, and of the
2D affine factories that build `Mat3` values. Numbers are Dafny `real`s, compared
exactly.

- `vectors.dfy` (module `Vectors`): `Vec2` as a pair of reals. `Vec3` as three reals,
  with the homogeneous helpers `Point` (w = 1) and `Direction` (w = 0).
- `matrix.dfy` (module `Matrix`): a `Mat3` is a value holding a `Grid`, three rows of
  three reals. The shape is part of the type.
  - `Transpose`, `Negate`, `Add`, `TimesNum`, `TimesMat`, `TimesVec` and `Trace` fill a
    fresh grid or accumulator with loops, as the library does. Each is a method
    with those loops, proved equal to a specification function (`Transposed`,
    `Negated`, `Plus`, `Scaled`, `Mul`, `Apply`, `TraceOf`).
  - `Sub` is `Add` of the negation.
  - `Determinant` is the six-term cofactor formula.
  - The algebraic laws and the values that the library's tests check are lemmas about
    the specification functions.
- `rowops.dfy` (module `RowOps`): the in-place helpers `swapRows`, `scaleRow` and
  `combineRows` as methods on an `array<Row>`. Lemmas show that each one:
  - is undone by its inverse;
  - is a left multiplication;
  - scales the determinant by -1, k or 1;
  - is cancelled, inside a product, by the matching column operation.
- `inversion.dfy` (module `Inversion`): `Invert`, Gauss-Jordan elimination with row
  pivoting.
  - It runs on a cloned working grid and on a fresh identity grid, in lockstep.
  - The zero test `IsEpsilon` is a parameter `isEpsilon`, and the method requires only
    that 0 passes it.
  - Each step is also a function on the pair of grids: `PivotRow`, `PlacePivotOf`,
    `ClearRowOf` and `ClearFirstRows`, and the whole elimination is `InverseOf`. Each
    method that changes the grids states its new grids through these functions, for
    any zero test.
  - The proof ties both grids to a ghost history of the row operations applied so far.
    The working grid is that history applied to the input, and the accumulated grid is
    the history applied to Id.
  - Lemmas over histories give the conclusions:
    - a history that reaches Id has produced the two-sided inverse;
    - a column without a pivot means the input is singular.
  - The method returns `Option<Mat3>`: `None` where the library has no pivot (see
    Findings).
- `affine.dfy` (module `Affine`): the factories `Translation`, `Scaling` and
  `BasisChange`, and `Rotation2D` given the cosine and sine of its angle. Lemmas say
  what each does to points and free vectors, how the factories relate and compose,
  and what their determinants are.

## Model

| member | source | states |
|---|---|---|
| Matrix.NamedMatrices | src/index.ts:21-23 | Zero has every entry 0, Ones every entry 1, and Id 1 exactly on the diagonal and 0 elsewhere |
| Matrix.FromScalars | src/index.ts:12-19 | the nine-scalar constructor puts its arguments into the grid in row-major order |
| Matrix.FromScalarsRoundTrip | src/index.ts:12-19 | reading a matrix's nine entries in row-major order and passing them to the nine-scalar constructor rebuilds the same matrix |
| Matrix.Mat3.Clone | src/index.ts:26-30 | the copy is a freshly allocated grid with the same rows, so writes to it cannot reach the receiver |
| Matrix.Mat3.Transpose | src/index.ts:33-41 | the loops produce exactly the transpose |
| Matrix.TransposeEntry | src/index.ts:37 | entry (i, j) of the transpose is entry (j, i) of the input |
| Matrix.TransposeInvolution | src/index.test.ts:45-60 | transposing twice gives back the matrix |
| Matrix.TransposeFixesZeroAndId | src/index.test.ts:45-60 | Zero and Id are their own transposes |
| Matrix.Mat3.Negate | src/index.ts:44-52 | the loops produce the entrywise negation |
| Matrix.NegateInvolution | src/index.test.ts:62-81 | negating twice gives back the matrix |
| Matrix.NegateFixesZero | src/index.test.ts:62-81 | Zero is its own negative |
| Matrix.Mat3.Add | src/index.ts:55-63 | the loops produce the entrywise sum |
| Matrix.PlusCommutative | src/index.test.ts:83-117 | addition is commutative |
| Matrix.PlusAssociative | src/index.ts:55-63 | addition is associative |
| Matrix.PlusZeroIdentity | src/index.test.ts:83-117 | Zero is the identity of addition on both sides |
| Matrix.PlusNegatedCancels | src/index.ts:55-68 | m plus its negation is Zero |
| Matrix.Mat3.Sub | src/index.ts:66-68 | this - mat is this plus the negation of mat |
| Matrix.SubAntiCommutative | src/index.test.ts:119-146 | a - b is the negation of b - a |
| Matrix.SubZero | src/index.test.ts:119-146 | Zero - m is -m, and m - Zero is m |
| Matrix.Mat3.TimesNum | src/index.ts:71-79 | the loops multiply every entry by the scalar |
| Matrix.ScaledNeutralAndAnnihilating | src/index.test.ts:148-167 | scalar 1 leaves a matrix unchanged and scalar 0 gives Zero |
| Matrix.Mat3.TimesMat | src/index.ts:82-93 | the accumulating triple loop produces the matrix product, entry (i, j) being the dot product of row i and column j |
| Matrix.AccumulateEntry | src/index.ts:86-88 | the innermost loop adds the dot product of row i of the receiver and column j of the argument into entry (i, j), and changes no other entry |
| Matrix.MulEntry | src/index.ts:84-91 | entry (i, j) of the product is the sum over k of a[i][k] * b[k][j] |
| Matrix.MulIdentity | src/index.test.ts:169-201 | Id is the left and the right identity of the product |
| Matrix.MulZeroAbsorbing | src/index.test.ts:169-201 | Zero absorbs the product on either side |
| Matrix.MulAssociative | src/index.ts:82-93 | the product is associative |
| Matrix.MulExamples | src/index.test.ts:196-199 | the test suite's products of Ones and [[1..9]]; Ones·[[1..9]] and [[1..9]]·Ones differ, so the product does not commute |
| Matrix.MulSquareExample | src/index.test.ts:200 | the square of [[1..9]] is the test suite's grid |
| Matrix.Mat3.TimesVec | src/index.ts:96-104 | the accumulating loops produce the matrix-vector product |
| Matrix.ApplyIdentityAndZero | src/index.test.ts:203-225 | Id fixes every vector; Zero sends every vector to the zero vector; every matrix sends the zero vector to the zero vector |
| Matrix.ApplyOfMul | src/index.ts:82-104 | applying a product to a vector applies the right factor first, then the left |
| Matrix.ApplyOfMulAt | src/index.ts:82-104 | component i of a product applied to a vector equals component i of applying the right factor, then the left |
| Matrix.ApplyExamples | src/index.test.ts:227-231 | the test suite's products with (1,1,1) and (1,2,3) |
| Matrix.Mat3.Trace | src/index.ts:107-113 | the accumulating loop produces the diagonal sum |
| Matrix.TraceExamples | src/index.test.ts:234-243 | the test suite's traces: 0, 3, 3, 15 and 0 |
| Matrix.TraceLaws | src/index.ts:107-113 | the trace is additive, homogeneous, unchanged by transposition, and tr(ab) == tr(ba) |
| Matrix.Determinant | src/index.ts:116-124 | the six-term formula, its terms in the library's order, equals the cofactor expansion along the first row |
| Matrix.DeterminantExamples | src/index.test.ts:245-256 | the test suite's determinants: Id 1; Zero, Ones and [[1..9]] 0; diag(1,1,-2) -2; [[6,6,0],[0,2,3],[6,0,4]] 156 |
| Matrix.DeterminantTranspose | src/index.ts:116-124 | transposing keeps the determinant |
| Matrix.DeterminantDegenerateRows | src/index.ts:116-124 | two equal rows, or a zero row, give determinant 0 |
| RowOps.SwapRows | src/index.ts:216-218 | rows i and j of the grid are exchanged in place and no other row changes |
| RowOps.ScaleRow | src/index.ts:221-223 | row i is replaced by k times itself and no other row changes |
| RowOps.CombineRows | src/index.ts:226-228 | row `into` gains scale times row `from` and no other row changes |
| RowOps.RowOpExamples | src/index.test.ts:308-322 | the helpers' expected outputs on [[1..9]] |
| RowOps.SwapRowsUndo | src/index.ts:216-218 | swapping the same rows twice restores the grid |
| RowOps.ScaleRowUndo | src/index.ts:221-223 | scaling by k and then by 1/k restores the grid, for k != 0 |
| RowOps.CombineRowsUndo | src/index.ts:226-228 | adding and then subtracting scale times another row restores the grid |
| RowOps.SwapRowsIsLeftMul | src/index.ts:216-218 | a row swap is a left multiplication by the swapped identity |
| RowOps.ScaleRowIsLeftMul | src/index.ts:221-223 | a row scaling is a left multiplication by the scaled identity |
| RowOps.CombineRowsIsLeftMul | src/index.ts:226-228 | a row combination is a left multiplication by the combined identity |
| RowOps.SwapRowsDeterminant | src/index.ts:216-218 | swapping two distinct rows negates the determinant |
| RowOps.ScaleRowDeterminant | src/index.ts:221-223 | scaling a row by k multiplies the determinant by k |
| RowOps.CombineRowsDeterminant | src/index.ts:226-228 | adding a multiple of another row keeps the determinant |
| RowOps.SwapRowsOfProduct | src/index.ts:152-153 | swapping rows of a left factor swaps the same rows of the product |
| RowOps.ScaleRowOfProduct | src/index.ts:158-159 | scaling a row of a left factor scales the same row of the product |
| RowOps.CombineRowsOfProduct | src/index.ts:166-167 | combining rows of a left factor combines the same rows of the product |
| RowOps.SwapColumnsUndoes | src/index.ts:216-218 | swapping columns i and j of a left factor cancels swapping rows i and j of the right factor |
| RowOps.ScaleColumnUndoes | src/index.ts:221-223 | scaling column i by 1/k cancels scaling row i by k |
| RowOps.CombineColumnsUndoes | src/index.ts:226-228 | subtracting scale times column `into` from column `from` cancels the row combination |
| Inversion.ApplyOpsSnoc | src/index.ts:142-170 | appending an operation to the history applies it after the others |
| Inversion.ApplyOpOfProduct | src/index.ts:152-167 | each row operation that Invert applies commutes with right multiplication |
| Inversion.UndoOpCancels | src/index.ts:152-167 | each row operation is cancelled by its inverse column operation |
| Inversion.ApplyOpDeterminant | src/index.ts:152-167 | each operation scales the determinant by a nonzero factor |
| Inversion.ApplyOpsIsLeftMul | src/index.ts:139-170 | the working grid is the accumulated grid times the input, at every point of the lockstep elimination |
| Inversion.UndoCancels | src/index.ts:139-170 | every history of operations can be undone by a left multiplication |
| Inversion.ApplyOpKeepsSingularity | src/index.ts:152-167 | one operation leaves a grid singular exactly when it was singular |
| Inversion.ApplyOpsKeepsSingularity | src/index.ts:139-170 | a whole history leaves a grid singular exactly when it was singular |
| Inversion.EliminationReachesId | src/index.ts:138-173 | when the working grid reaches Id, the accumulated grid is the two-sided inverse, and the input is not singular |
| Inversion.EliminationKeepsSingularity | src/index.ts:146-150 | a singular working grid means the input is singular |
| Inversion.NoPivotIsSingular | src/index.ts:146-150 | when columns before i are reduced and column i has only zeros at and below the diagonal, the grid is singular |
| Inversion.SwapKeepsReduced | src/index.ts:151-154 | swapping the pivot row into place keeps the reduced columns |
| Inversion.ScaleMakesPivotOne | src/index.ts:157-159 | scaling by the reciprocal of the pivot puts 1 on the diagonal |
| Inversion.CombineClearsRow | src/index.ts:164-168 | subtracting leadingValue times the pivot row clears row j in column i |
| Inversion.SkipKeepsCleared | src/index.ts:163-165 | skipping the pivot row, or a row already zero in column i, keeps the column cleared |
| Inversion.ClearedIsReduced | src/index.ts:162-169 | a fully cleared column i extends the reduced columns to i + 1 |
| Inversion.ReducedIsId | src/index.ts:142-170 | once all three columns are reduced, the working grid is Id |
| Inversion.PivotRow | src/index.ts:145-149 | the first row at or after `from` whose entry in column i the zero test does not count as zero, every row before it counted as zero; 3 when there is none |
| Inversion.PlacePivotOf | src/index.ts:151-159 | for any zero test: after the swap (only when the pivot row is below i) and the scaling of both grids, the diagonal entry is 1, the old row i sits at the pivot row, and the third row is untouched |
| Inversion.ClearRowOf | src/index.ts:163-168 | only row j of either grid changes; it is unchanged when j is the pivot row or its leading value counts as zero; otherwise, with 1 on the diagonal, its leading value becomes 0 |
| Inversion.ClearRowHistory | src/index.ts:163-168 | clearing a row, whether skipped or combined, keeps the working grid and the accumulated grid one history of row operations applied to the input and to Id |
| Inversion.ClearRowKeepsCleared | src/index.ts:163-168 | with an exact zero test, clearing row j leaves 0 in column i of every reached row but the pivot row |
| Inversion.ClearFirstRows | src/index.ts:162-169 | clearing rows 0..n-1 in order keeps the pivot row and the rows not reached, and leaves 0 in column i of every reached row whose leading value did not count as zero |
| Inversion.FindPivot | src/index.ts:145-149 | the loop stops at the first row at or below the diagonal whose entry is not counted as zero (i + di is `PivotRow`), and i + di == 3 when there is none |
| Inversion.PlacePivot | src/index.ts:151-159 | for any zero test, the new grids are `PlacePivotOf` the old ones, so the diagonal entry is 1; the grids stay in lockstep |
| Inversion.ClearRow | src/index.ts:163-168 | for any zero test, the new grids are `ClearRowOf` the old ones, the leading value read from the working grid; the grids stay in lockstep, and with an exact zero test row j is cleared |
| Inversion.ClearColumn | src/index.ts:162-169 | for any zero test, the loop's three passes give `ClearFirstRows` of the old grids; with an exact zero test column i is reduced |
| Inversion.EliminateColumn | src/index.ts:144-169 | one pass of the column loop: it reports a pivot exactly when `PivotRow` finds one, then the grids are the pivot placed and the column cleared; otherwise they are unchanged, and with an exact zero test the input is singular |
| Inversion.Invert | src/index.ts:138-173 | for any zero test the result is `InverseOf`, the elimination on the cloned input and Id; with an exact zero test there is a result exactly when the determinant is nonzero, and it is the two-sided inverse |
| Inversion.TestInverseIsRightInverse | src/index.test.ts:351 | the test suite's matrix times its exact inverse is Id |
| Inversion.TestInverseIsLeftInverse | src/index.test.ts:352 | the exact inverse times the test suite's matrix is Id |
| Inversion.InverseUnique | src/index.ts:138-173 | a left inverse and a right inverse of the same matrix are equal, so the inverse is unique |
| Inversion.InvertIdExample | src/index.test.ts:346 | inverting Id gives Id |
| Inversion.InvertTestMatrixExample | src/index.test.ts:348 | the test suite's matrix inverts to its exact inverse |
| Inversion.InvertTestInverseExample | src/index.test.ts:349 | the exact inverse inverts back to the test suite's matrix |
| Inversion.TolerantTestInvertsSingular | src/index.ts:138-172 | with the zero test -0.001 < x < 0.001, the elimination returns a result for [[1,10000,0],[0.0005,5,0],[0,0,1]], whose determinant is 0 |
| Inversion.TolerantTestRejectsNonsingular | src/index.ts:138-172 | with the zero test -0.001 < x < 0.001, the elimination returns `None` for diag(0.0005,1,1), whose determinant is 0.0005 |
| Inversion.SwapRowsAsWritten | src/index.ts:216-218 | on a JavaScript array, swapping with an index past the end leaves `undefined` at i and extends the array |
| Inversion.NoPivotSwapLosesRow | src/index.ts:146-153 | with no pivot in column i, the search ends at i + di == 3, and the unguarded swap leaves row i `undefined` |
| Inversion.ZeroGridHasNoPivot | src/index.ts:146-149 | the zero matrix has no pivot in column 0 under any zero test that accepts 0 |
| Affine.Rotation2D | src/index.ts:182-190 | the last row is (0, 0, 1), so w is kept; the determinant is c² + s², which is 1 on the unit circle |
| Affine.Translation | src/index.ts:193-197 | the last row is (0, 0, 1), so w is kept; the determinant is 1 |
| Affine.Scaling | src/index.ts:200-204 | the last row is (0, 0, 1), so w is kept; the determinant is factor.x * factor.y |
| Affine.BasisChange | src/index.ts:207-211 | the last row is (0, 0, 1), so w is kept; the determinant is the cross product of b1 and b2, so it is singular exactly when they are parallel |
| Affine.BasisChangeAction | src/index.ts:207-211 | coordinates (v0, v1) about c in basis (b1, b2) land at w*c + v0*b1 + v1*b2, and w is kept |
| Affine.TranslationAction | src/index.ts:193-197 | a translation adds w times the displacement |
| Affine.TranslationMovesPointsOnly | src/index.ts:193-197 | points move by the displacement and free vectors are unchanged |
| Affine.ScalingAction | src/index.ts:200-204 | a scaling multiplies x and y by their factors and keeps w |
| Affine.RotationAction | src/index.ts:182-190 | the rotation with cosine c and sine s turns (x, y) and keeps w |
| Affine.TranslationIsBasisChange | src/index.ts:193-211 | a translation is the basis change about the displacement with the standard basis |
| Affine.ScalingIsBasisChange | src/index.ts:200-211 | a scaling is the basis change about the origin with the scaled axes |
| Affine.FactoriesOfIdentity | src/index.test.ts:361 | translation by zero, scaling by one, the standard basis about the origin and the zero angle all give Id |
| Affine.TranslationsCompose | src/index.ts:193-197 | translations compose by adding displacements, and the opposite displacement undoes one |
| Affine.ScalingsCompose | src/index.ts:200-204 | scalings compose by multiplying factors |
| Affine.RotationsCompose | src/index.ts:182-190 | rotations compose by the angle-addition formulas |
| Affine.RotationIsOrthogonal | src/index.ts:182-190 | on the unit circle the rotation is orthogonal with determinant 1 |
| Affine.TranslationExamples | src/index.test.ts:355-398 | the test suite's translations of points and vectors |
| Affine.ScalingExamples | src/index.test.ts:400-440 | the test suite's scalings of points and vectors |
| Affine.BasisChangeExamples | src/index.test.ts:442-459 | the test suite's basis changes of points and vectors |
| Affine.QuarterTurnExamples | src/index.test.ts:280-296 | the quarter turn sends the x axis to the y axis, and the y axis to minus the x axis |
| Affine.HalfTurnExamples | src/index.test.ts:283-299 | the half turn sends each axis to its opposite, for points and vectors |
| Affine.ThreeQuarterTurnExamples | src/index.test.ts:286-302 | three quarter turns send the x axis to minus the y axis, and the y axis to the x axis, for points and vectors |
| Affine.ThirtyDegreeExamples | src/index.test.ts:289-305 | with cosine the positive root of 3/4 and sine 1/2, the x axis goes to (c, 1/2) and the y axis to (-1/2, c); the rotation is orthogonal |

## Left out

- Floating point. The model uses exact reals, with no rounding, NaN or Infinity. The tests' tolerance of 1e-4 becomes exact equality. The test suite's inverse is the exact one, 1/228 times the adjugate, rather than its six-digit rounding.
- `Math.cos` and `Math.sin`. `Rotation2D` takes the cosine and sine of the angle instead of the angle. The examples for the test suite's angles take those values as inputs: 0, 1 and -1 for the right angles, and the root of 3/4 as a parameter for 30 degrees. The floating-point values that `Math.cos` and `Math.sin` return are not modelled.
- The packages `@azleur/vec2`, `@azleur/vec3` and `@azleur/math-util` are not part of this model. `Vec2` is a pair of reals and `Vec3` is three reals. `IsEpsilon` is the parameter `isEpsilon`, required only to accept 0.
- Ragged grids. The constructor trusts the caller's array (src/index.ts:15). Here the 3x3 shape is part of the `Grid` type.
- Aliasing. `new Mat3(values)` keeps the caller's array. Here `Mat3` is an immutable value, so the test that writes into a matrix after cloning it (src/index.test.ts:324-332) is not modelled. Only `Clone`'s freshness is stated.
- The product rule det(ab) = det(a) det(b) is not proved. `Invert` needs only that row operations keep singularity.
- The commented-out `Rank` (src/index.ts:126-135) is not code.
- Inversion.Invert: for any zero test the result is stated as `InverseOf`, the elimination the library performs. The determinant equivalence and the inverse property are stated only for an exact zero test. With a tolerant test, a returned value can differ from the true inverse, a matrix with a nonzero determinant can get `None`, and a singular matrix can get a result; `Inversion.TolerantTestRejectsNonsingular` and `Inversion.TolerantTestInvertsSingular` show one of each.
- Inversion.Invert: where the library fails on a column without a pivot, the model returns `None`. The failure itself is modelled separately, as the Finding below.

## Findings

| source | as written | input that shows it | evidently intended | confidence | as-written member | corrected member |
|---|---|---|---|---|---|---|
| src/index.ts:146-157 | When every entry of column i at or below the diagonal passes the zero test (none counts as nonzero), the search ends with i + di == 3. The unguarded `swapRows(matrix, i, 3)` then moves `undefined` into row i, and `matrix[i][i]` throws a TypeError. The result is neither a matrix nor NaN values. The TODO at line 150 marks this. | `Mat3.Zero.Invert()` (no pivot in column 0); more generally any singular matrix under an exact zero test | report that there is no inverse | not executed | Inversion.NoPivotSwapLosesRow | Inversion.Invert |
