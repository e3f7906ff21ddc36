/**
 * The matrix-multiplication benchmark: its configuration and buffers, the
 * lifecycle operations `initialize`, `warmUp` and `run`, and the shared random
 * source the buffers are seeded from.
 */
module Bench {
  import opened JavaInt
  import opened Grid
  import opened Kernel

  /** The standard benchmark: three 10 000×10 000 matrices. */
  const StdR1: Int32 := 10_000
  const StdC1R2: Int32 := 10_000
  const StdC2: Int32 := 10_000

  /** The side of the square matrices `warmUp` multiplies. */
  const WarmUpSize: Int32 := 100

  /** One positional argument of `initialize`: a string, a boxed `int`, or an object of some other type. */
  datatype Param = Str(s: string) | Int(n: Int32) | Other

  /** The runtime exceptions `initialize` can end with. */
  datatype Error = IndexOutOfBounds | ClassCast | NegativeArraySize

  datatype Outcome = Pass | Fail(error: Error)

  /** The arguments have the types `initialize` casts them to: a device name, then optionally three ints. */
  predicate WellTyped(params: seq<Param>) {
    |params| > 0 && params[0].Str? &&
    (|params| == 4 ==> params[1].Int? && params[2].Int? && params[3].Int?)
  }

  /**
   * The shared random source: a fixed stream of `nextInt` results, of which
   * the first `drawn` have been consumed.
   */
  class Random {
    const stream: nat -> Int32
    var drawn: nat

    constructor (stream: nat -> Int32)
      ensures this.stream == stream && drawn == 0
    {
      this.stream := stream;
      drawn := 0;
    }

    /** `nextInt()`: the next value of the stream. */
    method NextInt() returns (x: Int32)
      modifies this
      ensures x == stream(old(drawn)) && drawn == old(drawn) + 1
    {
      x := stream(drawn);
      drawn := drawn + 1;
    }
  }

  /** The bytes `(byte) nextInt()` yields for draws `from`, `from + 1`, … of the stream. */
  ghost predicate SeededFrom(s: seq<Byte>, stream: nat -> Int32, from: nat) {
    forall p :: 0 <= p < |s| ==> s[p] == ToByte(stream(from + p))
  }

  ghost predicate AllZero(s: seq<Byte>) {
    forall p :: 0 <= p < |s| ==> s[p] == 0
  }

  class MatrixMultBenchmark {
    /** The name of the device the buffers are multiplied on; resolving it to a device handle is not modelled. */
    var gpu: string
    var r1: Int32
    var c1r2: Int32
    var c2: Int32
    /** r1×c1r2, c1r2×c2 and r1×c2 matrices, flattened row-major; null until `initialize` allocates them. */
    var a: array?<Byte>
    var b: array?<Byte>
    var res: array?<Byte>

    /** The state of a new benchmark: standard dimensions and no buffers. */
    ghost predicate Created()
      reads this
    {
      r1 == StdR1 && c1r2 == StdC1R2 && c2 == StdC2 && a == null && b == null && res == null
    }

    /** All three buffers are allocated. */
    predicate Initialized()
      reads this
    {
      a != null && b != null && res != null
    }

    /** Every allocated buffer has the length `initialize` computed for it in 32-bit arithmetic, and they are distinct. */
    ghost predicate Valid()
      reads this
    {
      && (a != null ==> a.Length == Mul32(r1, c1r2))
      && (b != null ==> b.Length == Mul32(c1r2, c2))
      && (res != null ==> res.Length == Mul32(r1, c2))
      && (Initialized() ==> a != b && a != res && b != res)
    }

    /** The dimensions are non-negative and the buffer sizes did not wrap around. */
    ghost predicate NoOverflow()
      reads this
    {
      0 <= r1 && 0 <= c1r2 && 0 <= c2 &&
      r1 * c1r2 <= MaxInt32 && c1r2 * c2 <= MaxInt32 && r1 * c2 <= MaxInt32
    }

    constructor ()
      ensures Created() && Valid() && gpu == ""
    {
      gpu := "";
      r1, c1r2, c2 := StdR1, StdC1R2, StdC2;
      a, b, res := null, null, null;
    }

    /**
     * `initialize(params)`: take the device name from `params[0]`; with exactly
     * four arguments take the dimensions from `params[1..3]`, otherwise keep the
     * standard ones; allocate the three buffers and seed `a` and `b`. A missing
     * or mistyped argument or a negative size ends it with the exception Java
     * throws there, after the assignments made before it.
     */
    method Initialize(params: seq<Param>, rng: Random) returns (out: Outcome)
      requires Created()
      modifies this, rng
      ensures Valid()
      ensures |params| == 0 ==> out == Fail(IndexOutOfBounds)
      ensures |params| > 0 && !params[0].Str? ==> out == Fail(ClassCast)
      ensures |params| > 0 && params[0].Str? && !WellTyped(params) ==> out == Fail(ClassCast)
      ensures gpu == if |params| > 0 && params[0].Str? then params[0].s else old(gpu)
      ensures r1 == if |params| == 4 && params[0].Str? && params[1].Int? then params[1].n else StdR1
      ensures c1r2 == if |params| == 4 && params[0].Str? && params[1].Int? && params[2].Int? then params[2].n else StdC1R2
      ensures c2 == if |params| == 4 && WellTyped(params) then params[3].n else StdC2
      ensures WellTyped(params) ==>
        (out == Pass <==> Mul32(r1, c1r2) >= 0 && Mul32(c1r2, c2) >= 0 && Mul32(r1, c2) >= 0)
      ensures out.Fail? && WellTyped(params) ==> out.error == NegativeArraySize
      ensures a != null <==> WellTyped(params) && Mul32(r1, c1r2) >= 0
      ensures b != null <==> WellTyped(params) && Mul32(r1, c1r2) >= 0 && Mul32(c1r2, c2) >= 0
      ensures res != null <==> out == Pass
      ensures a != null ==> fresh(a)
      ensures b != null ==> fresh(b)
      ensures res != null ==> fresh(res)
      ensures out == Pass ==> Initialized()
      ensures out == Pass ==> AllZero(res[..])
      ensures out == Pass ==> SeededFrom(a[..], rng.stream, old(rng.drawn)) && SeededFrom(b[..], rng.stream, old(rng.drawn))
      ensures out == Pass ==> rng.drawn == old(rng.drawn) + if a.Length < b.Length then b.Length else a.Length
      ensures out.Fail? ==> rng.drawn == old(rng.drawn)
      ensures out.Fail? ==> (a != null ==> AllZero(a[..])) && (b != null ==> AllZero(b[..]))
    {
      if |params| == 0 {
        return Fail(IndexOutOfBounds);
      }
      if !params[0].Str? {
        return Fail(ClassCast);
      }
      gpu := params[0].s;
      if |params| == 4 {
        if !params[1].Int? {
          return Fail(ClassCast);
        }
        r1 := params[1].n;
        if !params[2].Int? {
          return Fail(ClassCast);
        }
        c1r2 := params[2].n;
        if !params[3].Int? {
          return Fail(ClassCast);
        }
        c2 := params[3].n;
      }
      var sizeA := Mul32(r1, c1r2);
      if sizeA < 0 {
        return Fail(NegativeArraySize);
      }
      a := new Byte[sizeA](_ => 0);
      var sizeB := Mul32(c1r2, c2);
      if sizeB < 0 {
        return Fail(NegativeArraySize);
      }
      b := new Byte[sizeB](_ => 0);
      var sizeRes := Mul32(r1, c2);
      if sizeRes < 0 {
        return Fail(NegativeArraySize);
      }
      res := new Byte[sizeRes](_ => 0);
      InitMatrices(a, b, rng);
      out := Pass;
    }

    /**
     * `initMatrices(a, b)`: draw `a[p]` and, while both arrays have room, copy it
     * into `b[p]`; then draw the tail of whichever array is longer. Both arrays
     * end up holding the stream from its current position onwards.
     */
    static method InitMatrices(a: array<Byte>, b: array<Byte>, rng: Random)
      requires a != b
      modifies a, b, rng
      ensures SeededFrom(a[..], rng.stream, old(rng.drawn))
      ensures SeededFrom(b[..], rng.stream, old(rng.drawn))
      ensures forall p :: 0 <= p < a.Length && p < b.Length ==> b[p] == a[p]
      ensures rng.drawn == old(rng.drawn) + if a.Length < b.Length then b.Length else a.Length
    {
      ghost var from := rng.drawn;
      var i := 0;
      while i < a.Length && i < b.Length
        invariant 0 <= i <= a.Length && i <= b.Length
        invariant rng.drawn == from + i
        invariant forall p :: 0 <= p < i ==> a[p] == ToByte(rng.stream(from + p)) && b[p] == a[p]
      {
        var x := rng.NextInt();
        a[i] := ToByte(x);
        b[i] := a[i];
        i := i + 1;
      }
      for j := i to a.Length
        invariant rng.drawn == from + j
        invariant forall p :: 0 <= p < j ==> a[p] == ToByte(rng.stream(from + p))
        invariant forall p :: 0 <= p < i ==> b[p] == a[p]
      {
        var x := rng.NextInt();
        a[j] := ToByte(x);
      }
      for j := i to b.Length
        invariant rng.drawn == from + if j < a.Length then a.Length else j
        invariant forall p :: 0 <= p < j ==> b[p] == ToByte(rng.stream(from + p))
        invariant forall p :: 0 <= p < a.Length ==> a[p] == ToByte(rng.stream(from + p))
        invariant forall p :: 0 <= p < i ==> b[p] == a[p]
      {
        var x := rng.NextInt();
        b[j] := ToByte(x);
      }
    }

    /**
     * `warmUp()`: seed and multiply two fresh 100×100 scratch matrices into a
     * fresh result, through the same dispatch as `run`. The benchmark's own
     * configuration and buffers are left as they were.
     */
    method WarmUp(maxGroupSize: int, rng: Random)
      requires Initialized() && maxGroupSize > 0
      modifies rng
      ensures unchanged(this)
      ensures a[..] == old(a[..]) && b[..] == old(b[..]) && res[..] == old(res[..])
      ensures rng.drawn == old(rng.drawn) + WarmUpSize * WarmUpSize
    {
      var r1, c1r2, c2 := WarmUpSize, WarmUpSize, WarmUpSize;
      var sa := new Byte[r1 * c1r2](_ => 0);
      var sb := new Byte[c1r2 * c2](_ => 0);
      InitMatrices(sa, sb, rng);
      var sres := new Byte[r1 * c2](_ => 0);
      var _ := RunHelper(maxGroupSize, r1, c1r2, c2, sa, sb, sres);
    }

    /**
     * `run()`: multiply the configured matrices into `res`. Only `res` changes;
     * each of its cells gains the dot product of its row of A and column of B,
     * narrowed to a byte.
     */
    method Run(maxGroupSize: int)
      requires Valid() && Initialized() && NoOverflow() && maxGroupSize > 0
      modifies res
      ensures a[..] == old(a[..]) && b[..] == old(b[..])
      ensures res[..] == KernelOutput(old(res[..]), a[..], b[..], r1, c1r2, c2)
    {
      var _ := RunHelper(maxGroupSize, r1, c1r2, c2, a, b, res);
    }

    /**
     * `runHelper`: plan the grid for the r1×c2 result on the device's work-group
     * limit and execute the kernel once per work item, in index order (the items
     * write disjoint cells). Items past the domain do nothing: the guard `i < r1 * c2`
     * is this model's, the source has none.
     */
    static method RunHelper(maxGroupSize: int, r1: int, c1r2: int, c2: int,
                            a: array<Byte>, b: array<Byte>, res: array<Byte>) returns (range: Range)
      requires Conforms(r1, c1r2, c2, a.Length, b.Length, res.Length) && maxGroupSize > 0
      requires res != a && res != b
      modifies res
      ensures range == PlanGrid(r1 * c2, maxGroupSize)
      ensures res[..] == KernelOutput(old(res[..]), a[..], b[..], r1, c1r2, c2)
    {
      range := PlanGrid(r1 * c2, maxGroupSize);
      var n := r1 * c2;
      for i := 0 to range.globalSize
        invariant forall p :: 0 <= p < i && p < n ==> res[p] == CellValue(old(res[p]), a[..], b[..], r1, c1r2, c2, p)
        invariant forall p :: i <= p < n ==> res[p] == old(res[p])
      {
        if i < n {
          KernelWorkItem(i, r1, c1r2, c2, a, b, res);
        }
      }
    }

    /**
     * The kernel's `run()` for global id `i`: accumulate `a[row * c1r2 + j] * b[j * c2 + col]`
     * into `res[i]` for `j` below `c1r2`, narrowing to a byte at every step.
     */
    static method KernelWorkItem(i: int, r1: int, c1r2: int, c2: int,
                                 a: array<Byte>, b: array<Byte>, res: array<Byte>)
      requires Conforms(r1, c1r2, c2, a.Length, b.Length, res.Length) && 0 <= i < res.Length
      requires res != a && res != b
      modifies res
      ensures res[i] == CellValue(old(res[i]), a[..], b[..], r1, c1r2, c2, i)
      ensures forall p :: 0 <= p < res.Length && p != i ==> res[p] == old(res[p])
    {
      CellCoordinates(i, r1, c2);
      var row := i / c2;
      var col := i % c2;
      ghost var prev := res[i];
      ghost var u, v := RowOf(a[..], r1, c1r2, row), ColumnOf(b[..], c1r2, c2, col);
      for j := 0 to c1r2
        invariant res[i] == WrappedDot(prev, u[..j], v[..j])
        invariant forall p :: 0 <= p < res.Length && p != i ==> res[p] == old(res[p])
      {
        var ai, bi := AIndex(i, c1r2, c2, j), BIndex(i, c2, j);
        RowOfAt(a[..], r1, c1r2, row, j);
        ColumnOfAt(b[..], c1r2, c2, col, j);
        WrappedDotStep(prev, u, v, j);
        res[i] := ToByte(res[i] as int + a[ai] as int * b[bi] as int);
      }
      assert u[..c1r2] == u && v[..c1r2] == v;
      WrappedDotIsCellValue(prev, a[..], b[..], r1, c1r2, c2, i);
    }
  }
}
