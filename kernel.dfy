/**
 * The matrix-multiplication kernel of `runHelper`, as a function of the global
 * work-item index. A is r1×k, B is k×c2 and the result r1×c2, each flattened
 * row-major into a byte buffer; work item `i` owns result cell `i`, that is
 * row `i / c2` and column `i % c2`.
 */
module Kernel {
  import opened Arith
  import opened JavaInt
  import opened Grid

  /** The buffer lengths `runHelper` is called with fit the dimensions. */
  ghost predicate Conforms(r1: int, k: int, c2: int, la: int, lb: int, lr: int) {
    0 <= r1 && 0 <= k && 0 <= c2 && la == r1 * k && lb == k * c2 && lr == r1 * c2
  }

  /** The index into `a` that work item `i` reads at step `j`: `row * c1_r2 + j`. */
  function AIndex(i: int, k: int, c2: int, j: int): int
    requires c2 > 0
  {
    (i / c2) * k + j
  }

  /** The index into `b` that work item `i` reads at step `j`: `j * c2 + col`. */
  function BIndex(i: int, c2: int, j: int): int
    requires c2 > 0
  {
    j * c2 + i % c2
  }

  /**
   * Every array access work item `i` performs is in bounds. It updates
   * `res[i]` once per step, so with no steps it touches nothing.
   */
  ghost predicate AccessesInBounds(i: nat, k: int, c2: int, la: int, lb: int, lr: int)
    requires c2 > 0
  {
    && (k > 0 ==> i < lr)
    && (forall j :: 0 <= j < k ==> 0 <= AIndex(i, k, c2, j) < la)
    && (forall j :: 0 <= j < k ==> 0 <= BIndex(i, c2, j) < lb)
  }

  /** A cell index of an r1×c2 matrix names a row below r1 and a column below c2. */
  lemma CellCoordinates(i: int, r1: int, c2: int)
    requires 0 <= r1 && 0 <= c2 && 0 <= i < r1 * c2
    ensures c2 > 0
    ensures 0 <= i / c2 < r1 && 0 <= i % c2 < c2
    ensures i == (i / c2) * c2 + i % c2
  {
    MulMono(c2, 0, r1);
    assert i == (i / c2) * c2 + i % c2;
    MulMono(r1, i / c2, c2);
  }

  /** The row-major offset of (row, j) in an r1×k matrix is in bounds. */
  lemma FlatIndexBound(row: int, r1: int, k: int, j: int)
    requires 0 <= row < r1 && 0 <= j < k
    ensures 0 <= row * k + j < r1 * k
  {
    MulMono(0, row, k);
    MulMono(row + 1, r1, k);
  }

  lemma RowSpan(row: int, r1: int, k: int)
    requires 0 <= k && 0 <= row < r1
    ensures 0 <= row * k && row * k + k <= r1 * k
  {
    MulMono(0, row, k);
    MulMono(row + 1, r1, k);
  }

  /** Row `row` of the r1×k matrix stored row-major in `a`: the run of `k` elements starting at `row * k`. */
  function RowOf(a: seq<Byte>, r1: int, k: int, row: int): (u: seq<int>)
    requires 0 <= k && 0 <= row < r1 && |a| == r1 * k
    ensures u == Unflatten(a, r1, k)[row]
  {
    RowSpan(row, r1, k);
    a[row * k .. row * k + k]
  }

  /** Column `col` of the k×c2 matrix stored row-major in `b`: every `c2`-th element, starting at `col`. */
  function ColumnOf(b: seq<Byte>, k: int, c2: int, col: int): (v: seq<int>)
    requires 0 <= k && 0 <= col < c2 && |b| == k * c2
    ensures |v| == k
    ensures forall j :: 0 <= j < k ==> v[j] == Unflatten(b, k, c2)[j][col]
  {
    seq(k, j requires 0 <= j < k => FlatIndexBound(j, k, c2, col); b[j * c2 + col])
  }

  /** The exact dot product of two equally long vectors. */
  function DotProduct(u: seq<int>, v: seq<int>): int
    requires |u| == |v|
  {
    if |u| == 0 then 0
    else DotProduct(u[..|u| - 1], v[..|v| - 1]) + u[|u| - 1] * v[|v| - 1]
  }

  /**
   * What `res[i] += a[..] * b[..]` on Java bytes leaves after the steps over
   * `u` and `v`, starting from `acc`: every step narrows the sum back to a byte.
   */
  function WrappedDot(acc: Byte, u: seq<int>, v: seq<int>): Byte
    requires |u| == |v|
  {
    if |u| == 0 then acc
    else ToByte(WrappedDot(acc, u[..|u| - 1], v[..|v| - 1]) + u[|u| - 1] * v[|v| - 1])
  }

  /** One more step of the byte-wrapped loop over the prefixes of `u` and `v`. */
  lemma WrappedDotStep(acc: Byte, u: seq<int>, v: seq<int>, j: int)
    requires |u| == |v| && 0 <= j < |u|
    ensures WrappedDot(acc, u[..j + 1], v[..j + 1]) == ToByte(WrappedDot(acc, u[..j], v[..j]) + u[j] * v[j])
  {
    assert u[..j + 1][..j] == u[..j] && v[..j + 1][..j] == v[..j];
  }

  /** Narrowing at every step equals narrowing the exact dot product once. */
  lemma {:induction false} WrappedDotIsWrappedSum(acc: Byte, u: seq<int>, v: seq<int>)
    requires |u| == |v|
    ensures WrappedDot(acc, u, v) == ToByte(acc + DotProduct(u, v))
  {
    if |u| > 0 {
      var u', v', p := u[..|u| - 1], v[..|v| - 1], u[|u| - 1] * v[|v| - 1];
      var d := DotProduct(u', v');
      assert DotProduct(u, v) == d + p;
      assert WrappedDot(acc, u, v) == ToByte(WrappedDot(acc, u', v') + p);
      WrappedDotIsWrappedSum(acc, u', v');
      ToByteOfSum(acc + d, p);
    }
  }

  /** The exact dot product of row `i / c2` of A and column `i % c2` of B. */
  function CellDot(a: seq<Byte>, b: seq<Byte>, r1: int, k: int, c2: int, i: int): int
    requires Conforms(r1, k, c2, |a|, |b|, r1 * c2) && 0 <= i < r1 * c2
  {
    CellCoordinates(i, r1, c2);
    DotProduct(RowOf(a, r1, k, i / c2), ColumnOf(b, k, c2, i % c2))
  }

  /** The value work item `i` leaves in its cell, which held `prev`, when the kernel steps are summed exactly and narrowed once. */
  function CellValue(prev: Byte, a: seq<Byte>, b: seq<Byte>, r1: int, k: int, c2: int, i: int): Byte
    requires Conforms(r1, k, c2, |a|, |b|, r1 * c2) && 0 <= i < r1 * c2
  {
    ToByte(prev + CellDot(a, b, r1, k, c2, i))
  }

  /** The byte-wrapped loop over the whole row and column leaves exactly `CellValue`. */
  lemma WrappedDotIsCellValue(prev: Byte, a: seq<Byte>, b: seq<Byte>, r1: int, k: int, c2: int, i: int)
    requires Conforms(r1, k, c2, |a|, |b|, r1 * c2) && 0 <= i < r1 * c2
    ensures (CellCoordinates(i, r1, c2);
             WrappedDot(prev, RowOf(a, r1, k, i / c2), ColumnOf(b, k, c2, i % c2)) == CellValue(prev, a, b, r1, k, c2, i))
  {
    CellCoordinates(i, r1, c2);
    WrappedDotIsWrappedSum(prev, RowOf(a, r1, k, i / c2), ColumnOf(b, k, c2, i % c2));
  }

  /** The result buffer after every work item of the domain has run once over `res`. */
  function KernelOutput(res: seq<Byte>, a: seq<Byte>, b: seq<Byte>, r1: int, k: int, c2: int): (out: seq<Byte>)
    requires Conforms(r1, k, c2, |a|, |b|, |res|)
    ensures |out| == |res|
  {
    seq(|res|, i requires 0 <= i < |res| => CellValue(res[i], a, b, r1, k, c2, i))
  }

  /** Every work item inside the domain stays within all three buffers. */
  lemma InDomainAccessesInBounds(i: nat, r1: int, k: int, c2: int, la: int, lb: int, lr: int)
    requires Conforms(r1, k, c2, la, lb, lr) && i < lr
    ensures c2 > 0 && AccessesInBounds(i, k, c2, la, lb, lr)
  {
    CellCoordinates(i, r1, c2);
    forall j | 0 <= j < k
      ensures 0 <= AIndex(i, k, c2, j) < la && 0 <= BIndex(i, c2, j) < lb
    {
      FlatIndexBound(i / c2, r1, k, j);
      FlatIndexBound(j, k, c2, i % c2);
    }
  }

  /**
   * The kernel has no bounds guard, and the grid is rounded up: whenever the
   * group size does not divide the domain, the first padding work item of the
   * exact integer grid `PlanGrid` writes past the end of `res`. (The source's
   * `float` rounding can also give a grid that stops short of the domain; see
   * README.)
   */
  lemma UnguardedPaddingOutOfBounds(r1: int, k: int, c2: int, la: int, lb: int, lr: int, maxGroupSize: nat)
    requires Conforms(r1, k, c2, la, lb, lr) && k > 0 && c2 > 0 && maxGroupSize > 0
    requires lr % maxGroupSize != 0
    ensures lr < PlanGrid(lr, maxGroupSize).globalSize
    ensures !AccessesInBounds(lr, k, c2, la, lb, lr)
  {
  }

  /**
   * With the standard 10 000×10 000 matrices on a device whose groups hold 1024
   * items, the grid has 768 items past the domain, and the first of them
   * indexes `res` one past its end.
   */
  lemma DefaultGridOverrunsDomain()
    ensures PlanGrid(10_000 * 10_000, 1024).globalSize == 10_000 * 10_000 + 768
    ensures !AccessesInBounds(10_000 * 10_000, 10_000, 10_000, 10_000 * 10_000, 10_000 * 10_000, 10_000 * 10_000)
  {
    assert CeilDiv(100_000_000, 1024) == 97_657;
    UnguardedPaddingOutOfBounds(10_000, 10_000, 10_000, 100_000_000, 100_000_000, 100_000_000, 1024);
  }

  /** The rows×cols matrix stored row-major in `s`: entry (r, c) is `s[r * cols + c]`. */
  function Unflatten(s: seq<Byte>, rows: int, cols: int): (m: seq<seq<int>>)
    requires 0 <= rows && 0 <= cols && |s| == rows * cols
    ensures |m| == rows
    ensures forall r :: 0 <= r < rows ==> |m[r]| == cols
  {
    seq(rows, r requires 0 <= r < rows =>
      seq(cols, c requires 0 <= c < cols => FlatIndexBound(r, rows, cols, c); s[r * cols + c] as int))
  }

  /** Entry (r, c) of the unflattened matrix is the element at flat index `r * cols + c`. */
  lemma UnflattenAt(s: seq<Byte>, rows: int, cols: int, r: int, c: int)
    requires 0 <= r < rows && 0 <= c < cols && |s| == rows * cols
    ensures 0 <= r * cols + c < |s| && Unflatten(s, rows, cols)[r][c] == s[r * cols + c]
  {
    FlatIndexBound(r, rows, cols, c);
  }

  /** Element `j` of row `row` is the element the kernel reads at `a[row * k + j]`. */
  lemma RowOfAt(a: seq<Byte>, r1: int, k: int, row: int, j: int)
    requires 0 <= row < r1 && 0 <= j < k && |a| == r1 * k
    ensures 0 <= row * k + j < |a| && RowOf(a, r1, k, row)[j] == a[row * k + j]
  {
    UnflattenAt(a, r1, k, row, j);
  }

  /** Element `j` of column `col` is the element the kernel reads at `b[j * c2 + col]`. */
  lemma ColumnOfAt(b: seq<Byte>, k: int, c2: int, col: int, j: int)
    requires 0 <= col < c2 && 0 <= j < k && |b| == k * c2
    ensures 0 <= j * c2 + col < |b| && ColumnOf(b, k, c2, col)[j] == b[j * c2 + col]
  {
    UnflattenAt(b, k, c2, j, col);
  }

  /** The textbook entry sum of a matrix product, over the first `n` terms. */
  function EntrySum(x: seq<seq<int>>, y: seq<seq<int>>, row: nat, col: nat, n: nat): int
    requires row < |x| && n <= |x[row]| && n <= |y|
    requires forall j :: 0 <= j < n ==> col < |y[j]|
  {
    if n == 0 then 0 else EntrySum(x, y, row, col, n - 1) + x[row][n - 1] * y[n - 1][col]
  }

  lemma {:induction false} DotProductIsEntrySum(u: seq<int>, v: seq<int>, x: seq<seq<int>>, y: seq<seq<int>>, row: nat, col: nat, n: nat)
    requires |u| == |v| == n
    requires row < |x| && n <= |x[row]| && n <= |y|
    requires forall j :: 0 <= j < n ==> col < |y[j]|
    requires forall j :: 0 <= j < n ==> u[j] == x[row][j] && v[j] == y[j][col]
    ensures DotProduct(u, v) == EntrySum(x, y, row, col, n)
  {
    if n > 0 {
      DotProductIsEntrySum(u[..n - 1], v[..n - 1], x, y, row, col, n - 1);
    }
  }

  /**
   * Run once over a zeroed result buffer, the kernel leaves in cell (row, col)
   * the entry (row, col) of the matrix product A·B, narrowed to a byte.
   */
  lemma KernelComputesMatrixProduct(res: seq<Byte>, a: seq<Byte>, b: seq<Byte>, r1: nat, k: nat, c2: nat, row: nat, col: nat)
    requires Conforms(r1, k, c2, |a|, |b|, |res|)
    requires forall i :: 0 <= i < |res| ==> res[i] == 0
    requires row < r1 && col < c2
    ensures 0 <= row * c2 + col < |res|
    ensures KernelOutput(res, a, b, r1, k, c2)[row * c2 + col]
         == ToByte(EntrySum(Unflatten(a, r1, k), Unflatten(b, k, c2), row, col, k))
  {
    var i := row * c2 + col;
    FlatIndexBound(row, r1, c2, col);
    CellCoordinates(i, r1, c2);
    DivModUnique(i, c2, row, col);
    var x, y := Unflatten(a, r1, k), Unflatten(b, k, c2);
    var u, v := RowOf(a, r1, k, row), ColumnOf(b, k, c2, col);
    DotProductIsEntrySum(u, v, x, y, row, col, k);
  }

  /**
   * The result buffer is never cleared between runs: running the kernel twice
   * leaves twice the dot product in every cell, as a byte.
   */
  lemma KernelTwiceAccumulates(res: seq<Byte>, a: seq<Byte>, b: seq<Byte>, r1: nat, k: nat, c2: nat, i: nat)
    requires Conforms(r1, k, c2, |a|, |b|, |res|) && i < |res|
    ensures KernelOutput(KernelOutput(res, a, b, r1, k, c2), a, b, r1, k, c2)[i]
         == ToByte(res[i] + 2 * CellDot(a, b, r1, k, c2, i))
  {
    var d := CellDot(a, b, r1, k, c2, i);
    ToByteOfSum(res[i] + d, d);
  }
}
