/**
 The reference matrix kernels of the CPU backend
 (crates/intelligence/src/compute.rs): forward and transposed products of a
 row-major matrix.
 */
module Kernels {
  import opened Machine

  const CLAMP := 1_000_000_000

  datatype Shape = Shape(rows: nat, cols: nat)

  function Dot(a: seq<int>, b: seq<int>): int
    requires |a| == |b|
  {
    if a == [] then 0 else Dot(a[..|a| - 1], b[..|b| - 1]) + a[|a| - 1] * b[|b| - 1]
  }

  /** The matrix holds `rows` rows of `cols` values. */
  predicate Fits(a: seq<int>, s: Shape) { |a| == s.rows * s.cols }

  lemma RowBounds(s: Shape, r: nat, c: nat)
    requires r < s.rows && c <= s.cols
    ensures 0 <= r * s.cols && r * s.cols + c <= s.rows * s.cols
  {
    MulLe(r + 1, s.rows, s.cols);
  }

  function Row(a: seq<int>, s: Shape, r: nat): (row: seq<int>)
    requires Fits(a, s) && r < s.rows
    ensures |row| == s.cols
  {
    RowBounds(s, r, s.cols);
    a[r * s.cols..r * s.cols + s.cols]
  }

  function Cell(a: seq<int>, s: Shape, r: nat, c: nat): int
    requires Fits(a, s) && r < s.rows && c < s.cols
  {
    RowBounds(s, r, c + 1);
    a[r * s.cols + c]
  }

  // ----- the two operations as the backend computes them

  function ClampTo(x: int): int { Max(-CLAMP, Min(x, CLAMP)) }

  /** The `MatrixVector` arm: each row's dot product, clamped. */
  function MatrixVector(a: seq<int>, s: Shape, x: seq<int>): (y: Option<seq<int>>)
    ensures y.Some? <==> Fits(a, s) && |x| == s.cols
    ensures y.Some? ==> |y.value| == s.rows
  {
    if !Fits(a, s) || |x| != s.cols then None
    else Some(seq(s.rows, r requires 0 <= r < s.rows => ClampTo(Dot(Row(a, s, r), x))))
  }

  /** One column of the transposed product: saturating products, plain sum over the first `n` rows. */
  function ColumnSum(a: seq<int>, s: Shape, y: seq<int>, c: nat, n: nat): int
    requires Fits(a, s) && |y| == s.rows && c < s.cols && n <= s.rows
  {
    if n == 0 then 0 else ColumnSum(a, s, y, c, n - 1) + SatI64(Cell(a, s, n - 1, c) * y[n - 1])
  }

  /** The source sums a column in i64, so the model describes it where every partial sum fits. */
  ghost predicate SumsFit(a: seq<int>, s: Shape, y: seq<int>)
    requires Fits(a, s) && |y| == s.rows
  {
    forall c, n :: 0 <= c < s.cols && 0 <= n <= s.rows ==> I64_MIN <= ColumnSum(a, s, y, c, n) <= I64_MAX
  }

  /** The `MatrixTransposeVector` arm. */
  function MatrixTransposeVector(a: seq<int>, s: Shape, y: seq<int>): (x: Option<seq<int>>)
    ensures x.Some? <==> Fits(a, s) && |y| == s.rows
    ensures x.Some? ==> |x.value| == s.cols
  {
    if !Fits(a, s) || |y| != s.rows then None
    else Some(seq(s.cols, c requires 0 <= c < s.cols => ColumnSum(a, s, y, c, s.rows)))
  }

  // ----- where nothing is clamped or saturated

  ghost predicate Unclamped(a: seq<int>, s: Shape, x: seq<int>)
    requires Fits(a, s) && |x| == s.cols
  {
    forall r :: 0 <= r < s.rows ==> Abs(Dot(Row(a, s, r), x)) <= CLAMP
  }

  ghost predicate Unsaturated(a: seq<int>, s: Shape, y: seq<int>)
    requires Fits(a, s) && |y| == s.rows
  {
    forall r, c :: 0 <= r < s.rows && 0 <= c < s.cols ==> Abs(Cell(a, s, r, c) * y[r]) <= I64_MAX
  }

  /** Column `c` of the exact transposed product, over the first `n` rows. */
  function ExactColumn(a: seq<int>, s: Shape, y: seq<int>, c: nat, n: nat): int
    requires Fits(a, s) && |y| == s.rows && c < s.cols && n <= s.rows
  {
    if n == 0 then 0 else ExactColumn(a, s, y, c, n - 1) + Cell(a, s, n - 1, c) * y[n - 1]
  }

  lemma {:induction false} ColumnIsExact(a: seq<int>, s: Shape, y: seq<int>, c: nat, n: nat)
    requires Fits(a, s) && |y| == s.rows && c < s.cols && n <= s.rows && Unsaturated(a, s, y)
    ensures ColumnSum(a, s, y, c, n) == ExactColumn(a, s, y, c, n)
  {
    if n > 0 {
      ColumnIsExact(a, s, y, c, n - 1);
      assert Abs(Cell(a, s, n - 1, c) * y[n - 1]) <= I64_MAX;
    }
  }

  // ----- both sides as one double sum

  /** Row `r` against the first `m` entries of `x`. */
  function RowPart(a: seq<int>, s: Shape, x: seq<int>, r: nat, m: nat): int
    requires Fits(a, s) && |x| == s.cols && r < s.rows && m <= s.cols
  {
    if m == 0 then 0 else RowPart(a, s, x, r, m - 1) + Cell(a, s, r, m - 1) * x[m - 1]
  }

  /** y . (A x) over the first `n` rows and `m` columns, summed row by row. */
  function ByRows(a: seq<int>, s: Shape, x: seq<int>, y: seq<int>, n: nat, m: nat): int
    requires Fits(a, s) && |x| == s.cols && |y| == s.rows && n <= s.rows && m <= s.cols
  {
    if n == 0 then 0 else ByRows(a, s, x, y, n - 1, m) + RowPart(a, s, x, n - 1, m) * y[n - 1]
  }

  /** x . (A^T y) over the same entries, summed column by column. */
  function ByColumns(a: seq<int>, s: Shape, x: seq<int>, y: seq<int>, n: nat, m: nat): int
    requires Fits(a, s) && |x| == s.cols && |y| == s.rows && n <= s.rows && m <= s.cols
  {
    if m == 0 then 0 else ByColumns(a, s, x, y, n, m - 1) + x[m - 1] * ExactColumn(a, s, y, m - 1, n)
  }

  /** One more column adds the same to both sums. */
  lemma {:induction false} AddColumn(a: seq<int>, s: Shape, x: seq<int>, y: seq<int>, n: nat, m: nat)
    requires Fits(a, s) && |x| == s.cols && |y| == s.rows && n <= s.rows && 0 < m <= s.cols
    ensures ByRows(a, s, x, y, n, m) == ByRows(a, s, x, y, n, m - 1) + x[m - 1] * ExactColumn(a, s, y, m - 1, n)
  {
    if n > 0 {
      AddColumn(a, s, x, y, n - 1, m);
      Regroup(RowPart(a, s, x, n - 1, m - 1), Cell(a, s, n - 1, m - 1), x[m - 1], y[n - 1],
              ExactColumn(a, s, y, m - 1, n - 1));
    }
  }

  lemma Regroup(part: int, cell: int, x: int, y: int, column: int)
    ensures (part + cell * x) * y == part * y + x * (cell * y)
    ensures x * (column + cell * y) == x * column + x * (cell * y)
  {
    assert (part + cell * x) * y == part * y + (cell * x) * y;
    assert (cell * x) * y == x * (cell * y);
  }

  lemma {:induction false} NoColumns(a: seq<int>, s: Shape, x: seq<int>, y: seq<int>, n: nat)
    requires Fits(a, s) && |x| == s.cols && |y| == s.rows && n <= s.rows
    ensures ByRows(a, s, x, y, n, 0) == 0
  {
    if n > 0 {
      NoColumns(a, s, x, y, n - 1);
    }
  }

  lemma {:induction false} SumsAgree(a: seq<int>, s: Shape, x: seq<int>, y: seq<int>, n: nat, m: nat)
    requires Fits(a, s) && |x| == s.cols && |y| == s.rows && n <= s.rows && m <= s.cols
    ensures ByRows(a, s, x, y, n, m) == ByColumns(a, s, x, y, n, m)
  {
    if m == 0 {
      NoColumns(a, s, x, y, n);
    } else {
      SumsAgree(a, s, x, y, n, m - 1);
      AddColumn(a, s, x, y, n, m);
    }
  }

  // ----- the kernels against the double sum

  lemma RowEntry(a: seq<int>, s: Shape, r: nat, c: nat)
    requires Fits(a, s) && r < s.rows && c < s.cols
    ensures Row(a, s, r)[c] == Cell(a, s, r, c)
  {
    RowBounds(s, r, s.cols);
    SliceEntry(a, r * s.cols, s.cols, c);
  }

  lemma SliceEntry(a: seq<int>, start: nat, length: nat, c: nat)
    requires start + length <= |a| && c < length
    ensures a[start..start + length][c] == a[start + c]
  {
  }

  lemma {:induction false} RowPartIsDot(a: seq<int>, s: Shape, x: seq<int>, r: nat, m: nat)
    requires Fits(a, s) && |x| == s.cols && r < s.rows && m <= s.cols
    ensures RowPart(a, s, x, r, m) == Dot(Row(a, s, r)[..m], x[..m])
  {
    if m > 0 {
      RowPartIsDot(a, s, x, r, m - 1);
      var row := Row(a, s, r);
      assert row[..m][..m - 1] == row[..m - 1] && x[..m][..m - 1] == x[..m - 1];
      RowEntry(a, s, r, m - 1);
    }
  }

  lemma RowIsDot(a: seq<int>, s: Shape, x: seq<int>, r: nat)
    requires Fits(a, s) && |x| == s.cols && r < s.rows
    ensures RowPart(a, s, x, r, s.cols) == Dot(Row(a, s, r), x)
  {
    RowPartIsDot(a, s, x, r, s.cols);
    assert Row(a, s, r)[..s.cols] == Row(a, s, r) && x[..s.cols] == x;
  }

  /** The forward kernel gives the exact row sums. */
  lemma ForwardEntry(a: seq<int>, s: Shape, x: seq<int>, r: nat)
    requires Fits(a, s) && |x| == s.cols && r < s.rows && Unclamped(a, s, x)
    ensures MatrixVector(a, s, x).value[r] == RowPart(a, s, x, r, s.cols)
  {
    RowIsDot(a, s, x, r);
    assert Abs(Dot(Row(a, s, r), x)) <= CLAMP;
  }

  lemma {:induction false} ForwardDot(a: seq<int>, s: Shape, x: seq<int>, y: seq<int>, n: nat)
    requires Fits(a, s) && |x| == s.cols && |y| == s.rows && n <= s.rows && Unclamped(a, s, x)
    ensures Dot(MatrixVector(a, s, x).value[..n], y[..n]) == ByRows(a, s, x, y, n, s.cols)
  {
    if n > 0 {
      ForwardDot(a, s, x, y, n - 1);
      var out := MatrixVector(a, s, x).value;
      assert out[..n][..n - 1] == out[..n - 1] && y[..n][..n - 1] == y[..n - 1];
      ForwardEntry(a, s, x, n - 1);
    }
  }

  lemma {:induction false} BackwardDot(a: seq<int>, s: Shape, x: seq<int>, y: seq<int>, m: nat)
    requires Fits(a, s) && |x| == s.cols && |y| == s.rows && m <= s.cols && Unsaturated(a, s, y)
    ensures Dot(x[..m], MatrixTransposeVector(a, s, y).value[..m]) == ByColumns(a, s, x, y, s.rows, m)
  {
    if m > 0 {
      BackwardDot(a, s, x, y, m - 1);
      var out := MatrixTransposeVector(a, s, y).value;
      assert out[..m][..m - 1] == out[..m - 1] && x[..m][..m - 1] == x[..m - 1];
      ColumnIsExact(a, s, y, m - 1, s.rows);
    }
  }

  /** Where no clamp, saturation or overflow applies the two kernels are adjoint, for all shapes. */
  lemma KernelsAreAdjoint(a: seq<int>, s: Shape, x: seq<int>, y: seq<int>)
    requires Fits(a, s) && |x| == s.cols && |y| == s.rows
    requires Unclamped(a, s, x) && Unsaturated(a, s, y) && SumsFit(a, s, y)
    ensures Dot(MatrixVector(a, s, x).value, y) == Dot(x, MatrixTransposeVector(a, s, y).value)
  {
    ForwardDot(a, s, x, y, s.rows);
    BackwardDot(a, s, x, y, s.cols);
    SumsAgree(a, s, x, y, s.rows, s.cols);
    var f, b := MatrixVector(a, s, x).value, MatrixTransposeVector(a, s, y).value;
    assert f[..s.rows] == f && y[..s.rows] == y && x[..s.cols] == x && b[..s.cols] == b;
  }

  /** The sums are a condition of their own: two products that fit can add up to one that does not. */
  lemma SumsMayOverflow()
    ensures var a, s := [I64_MAX, I64_MAX], Shape(2, 1);
            Unclamped(a, s, [0]) && Unsaturated(a, s, [1, 1]) && !SumsFit(a, s, [1, 1])
  {
    var a, s := [I64_MAX, I64_MAX], Shape(2, 1);
    assert Row(a, s, 0) == [I64_MAX] && Row(a, s, 1) == [I64_MAX];
    DotOfOne(I64_MAX, 0);
    assert ColumnSum(a, s, [1, 1], 0, 1) == I64_MAX;
    assert ColumnSum(a, s, [1, 1], 0, 2) == 2 * I64_MAX;
  }

  // ----- splitting the matrix by rows

  lemma SplitRow(top: seq<int>, bottom: seq<int>, cols: nat, n: nat, m: nat, r: nat)
    requires Fits(top, Shape(n, cols)) && Fits(bottom, Shape(m, cols)) && r < n + m
    ensures Fits(top + bottom, Shape(n + m, cols))
    ensures Row(top + bottom, Shape(n + m, cols), r)
            == if r < n then Row(top, Shape(n, cols), r) else Row(bottom, Shape(m, cols), r - n)
  {
    assert (n + m) * cols == n * cols + m * cols;
    if r < n {
      RowBounds(Shape(n, cols), r, cols);
    } else {
      assert r * cols == n * cols + (r - n) * cols;
      RowBounds(Shape(m, cols), r - n, cols);
    }
  }

  lemma StackedFits(top: seq<int>, bottom: seq<int>, cols: nat, n: nat, m: nat)
    requires Fits(top, Shape(n, cols)) && Fits(bottom, Shape(m, cols))
    ensures Fits(top + bottom, Shape(n + m, cols))
  {
    assert (n + m) * cols == n * cols + m * cols;
  }

  /** The forward product of stacked matrices is the concatenation of their products, clamped or not. */
  lemma RowSplitConcatenates(top: seq<int>, bottom: seq<int>, cols: nat, n: nat, m: nat, x: seq<int>)
    requires Fits(top, Shape(n, cols)) && Fits(bottom, Shape(m, cols)) && |x| == cols
    ensures MatrixVector(top + bottom, Shape(n + m, cols), x).Some?
    ensures MatrixVector(top + bottom, Shape(n + m, cols), x).value
            == MatrixVector(top, Shape(n, cols), x).value + MatrixVector(bottom, Shape(m, cols), x).value
  {
    StackedFits(top, bottom, cols, n, m);
    var whole := MatrixVector(top + bottom, Shape(n + m, cols), x).value;
    var parts := MatrixVector(top, Shape(n, cols), x).value + MatrixVector(bottom, Shape(m, cols), x).value;
    forall r | 0 <= r < n + m ensures whole[r] == parts[r] {
      SplitRow(top, bottom, cols, n, m, r);
    }
  }

  // ----- what the clamp costs

  /** With one cell the clamped forward product and the transposed one already disagree. */
  lemma ClampBreaksAdjoint(v: int)
    requires CLAMP < v <= I64_MAX
    ensures var s := Shape(1, 1);
            Dot(MatrixVector([v], s, [1]).value, [1]) == CLAMP
            && Dot([1], MatrixTransposeVector([v], s, [1]).value) == v
  {
    var s := Shape(1, 1);
    assert Row([v], s, 0) == [v];
    DotOfOne(v, 1);
    assert MatrixVector([v], s, [1]).value == [CLAMP];
    DotOfOne(CLAMP, 1);
    assert ColumnSum([v], s, [1], 0, 1) == v;
    assert MatrixTransposeVector([v], s, [1]).value == [v];
    DotOfOne(1, v);
  }

  lemma DotOfOne(a: int, b: int)
    ensures Dot([a], [b]) == a * b
  {
    assert [a][..0] == [] && [b][..0] == [];
  }
}
