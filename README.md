# Matrix-multiplication benchmark of the Orbix GPU benchmark, in Dafny

The Orbix GPU benchmark times compute kernels on a chosen accelerator. This
project models its matrix-multiplication benchmark, `MatrixMultBenchmark`:

- how `initialize` reads its positional parameters and sizes its three byte buffers;
- how `initMatrices` seeds the two input matrices from the shared random source;
- how `warmUp` runs one 100×100 multiplication on scratch buffers of its own;
- how `run`/`runHelper` plan the execution grid (the device's maximum work-group
  size, the domain rounded up to a multiple of it) and run the kernel once per work item.

Each work item `i` accumulates `a[row * c1_r2 + j] * b[j * c2 + col]` into `res[i]`
with Java `byte` arithmetic, where `row = i / c2` and `col = i % c2`.

Files and modules:

- `java_int.dfy` (`JavaInt`): Java `byte` and `int`, the `(byte)` narrowing and 32-bit multiplication.
- `arith.dfy` (`Arith`): two multiplication and division facts the solver needs.
- `grid.dfy` (`Grid`): the grid planner.
- `kernel.dfy` (`Kernel`): the kernel as a function of the work-item index.
  It holds the row and column extraction, the exact and the byte-wrapped dot
  products, a textbook matrix product to compare against, and the bounds of
  every array access.
- `benchmark.dfy` (`Bench`): the class `MatrixMultBenchmark` with its fields and
  lifecycle methods, and the class `Random` standing for `IBenchmark.RANDOM`.

The benchmark object is a class whose fields are those of the source: the three
dimensions, the device name and the three buffers. The buffers are `null` until
`initialize` allocates them, as in Java. Java's runtime exceptions in `initialize`
(`ArrayIndexOutOfBoundsException`, `ClassCastException`, `NegativeArraySizeException`)
are returned as an `Outcome`. The fields keep the values assigned before the exception.
The random source is an object holding a fixed stream of `nextInt` results and a
count of the draws consumed. `warmUp` and `initialize` draw from it in turn.

The Aparapi dispatch runs the work items in parallel. The model runs them one
after another in index order. That is sound because item `i` writes only `res[i]`.
The model's loop carries a guard `i < r1 * c2` that the source does not have
(see Findings). `res` is allocated with exactly `r1 * c2` cells
(`MatrixMultBenchmark.java:49`), and work item `i` writes `res[i]`
(line 109), so an item at or past `r1 * c2` would write out of bounds. The model
keeps both: `Kernel.UnguardedPaddingOutOfBounds` shows the unguarded kernel
failing, and `RunHelper` runs only the items that have a cell.

The model also states that `run` never clears `res`, so a second `run` adds the
products once more (`Kernel.KernelTwiceAccumulates`).

## Model

| member | source | states |
|---|---|---|
| `JavaInt.ToByte` | src/main/java/com/orbix/bench/MatrixMultBenchmark.java:59 | `(byte) x` is the byte congruent to `x` modulo 256, and is `x` itself when `x` already fits |
| `JavaInt.ToByteOfSum` | src/main/java/com/orbix/bench/MatrixMultBenchmark.java:109 | narrowing the running sum to a byte at a step and again later equals narrowing once |
| `JavaInt.Mul32` | src/main/java/com/orbix/bench/MatrixMultBenchmark.java:47-49 | the Java `int` product is congruent to the exact product modulo 2^32 and equals it when it fits in 32 bits |
| `Grid.CeilDiv` | src/main/java/com/orbix/bench/MatrixMultBenchmark.java:116 | the rounded-up quotient: `q * g` covers `n`, `(q - 1) * g` does not |
| `Grid.PlanGrid` | src/main/java/com/orbix/bench/MatrixMultBenchmark.java:114-119 | the group size passed to `createRange` is the device maximum; the grid size is a multiple of it and `n <= size < n + maxGroupSize` |
| `Grid.PlanGridIsSmallestCover` | src/main/java/com/orbix/bench/MatrixMultBenchmark.java:116 | every multiple of the group size that covers the domain is at least the planned grid |
| `Kernel.RowOf` | src/main/java/com/orbix/bench/MatrixMultBenchmark.java:105-109 | the contiguous run the kernel reads from `a` for output row `row` is exactly row `row` of the r1×c1_r2 matrix A whose entry (r, c) is `a[r * c1_r2 + c]` |
| `Kernel.ColumnOf` | src/main/java/com/orbix/bench/MatrixMultBenchmark.java:106-109 | the stride-`c2` elements the kernel reads from `b` for output column `col` are exactly column `col` of the c1_r2×c2 matrix B whose entry (r, c) is `b[r * c2 + c]`: `c1_r2` of them |
| `Kernel.WrappedDotIsWrappedSum` | src/main/java/com/orbix/bench/MatrixMultBenchmark.java:107-110 | the byte `res[i] += …` leaves after the loop (narrowed at every step) is the old value plus the exact dot product, narrowed once |
| `Kernel.InDomainAccessesInBounds` | src/main/java/com/orbix/bench/MatrixMultBenchmark.java:104-110 | for every work item `i < r1 * c2`, every index into `a`, `b` and `res` is within the buffer |
| `Kernel.UnguardedPaddingOutOfBounds` | src/main/java/com/orbix/bench/MatrixMultBenchmark.java:104-116 | when the group size does not divide `r1 * c2` (and `c1_r2 > 0`), the grid has an item `r1 * c2` and that item indexes past the end of `res` |
| `Kernel.DefaultGridOverrunsDomain` | src/main/java/com/orbix/bench/MatrixMultBenchmark.java:14-22 | with the standard 10 000 dimensions and groups of 1024 the grid has 100 000 768 items, and item 100 000 000 is out of bounds |
| `Kernel.DotProductIsEntrySum` | src/main/java/com/orbix/bench/MatrixMultBenchmark.java:107-110 | the kernel's dot product of a row of A and a column of B equals the textbook sum `Σ A[row][j] * B[j][col]` |
| `Kernel.KernelComputesMatrixProduct` | src/main/java/com/orbix/bench/MatrixMultBenchmark.java:104-110 | on a zeroed `res`, cell `row * c2 + col` after the kernel is entry (row, col) of the matrix product A·B, narrowed to a byte |
| `Kernel.KernelTwiceAccumulates` | src/main/java/com/orbix/bench/MatrixMultBenchmark.java:87-90 | `res` is not cleared between runs: two kernel runs leave the old value plus twice the dot product, narrowed |
| `Bench.Random.NextInt` | src/main/java/com/orbix/bench/IBenchmark.java:7 | `nextInt` returns the next value of the shared stream and consumes exactly one draw |
| `Bench.MatrixMultBenchmark.constructor` | src/main/java/com/orbix/bench/MatrixMultBenchmark.java:14-26 | a new benchmark has the standard 10 000 dimensions and no buffers |
| `Bench.MatrixMultBenchmark.Initialize` | src/main/java/com/orbix/bench/MatrixMultBenchmark.java:36-52 | the device name comes from `params[0]`; with exactly 4 params the dimensions are `params[1..3]`, otherwise the standard 10 000; the buffers have the 32-bit products as lengths, are fresh, `res` is zero and `a`, `b` are seeded; each missing or mistyped argument or negative size gives the Java exception, with the fields assigned before it; a buffer allocated before a `NegativeArraySizeException` is left zero-filled and no draw is consumed |
| `Bench.MatrixMultBenchmark.InitMatrices` | src/main/java/com/orbix/bench/MatrixMultBenchmark.java:54-70 | `b[p] == a[p]` on the common prefix; every cell of both arrays holds the byte of its own draw; exactly `max(a.Length, b.Length)` draws are consumed, so the tail loop of the shorter array draws nothing |
| `Bench.MatrixMultBenchmark.WarmUp` | src/main/java/com/orbix/bench/MatrixMultBenchmark.java:72-84 | the fields of the benchmark and the contents of `a`, `b` and `res` are unchanged; 100 × 100 draws are consumed for the scratch matrices |
| `Bench.MatrixMultBenchmark.Run` | src/main/java/com/orbix/bench/MatrixMultBenchmark.java:86-90 | only `res` changes, and every cell gains its row-by-column dot product, narrowed to a byte |
| `Bench.MatrixMultBenchmark.RunHelper` | src/main/java/com/orbix/bench/MatrixMultBenchmark.java:94-121 | the grid dispatched is `PlanGrid(r1 * c2, maxGroupSize)`; after all its work items, `res` is the kernel output for the old `res` |
| `Bench.MatrixMultBenchmark.KernelWorkItem` | src/main/java/com/orbix/bench/MatrixMultBenchmark.java:99-112 | work item `i` sets `res[i]` to the old value plus the dot product of row `i / c2` and column `i % c2`, narrowed, and changes no other cell |

## Left out

- Aparapi (`Kernel`, `Range`, `Device`, `getKernelMaxWorkGroupSize`, `createRange`, `execute`) is a foreign GPU library. The device's maximum work-group size is a parameter (`maxGroupSize > 0`). The parallel dispatch is a sequential loop over the work items.
- `getGPU` and the parent class `AbstractGPUBenchmark` are not part of this model. The benchmark keeps only the device name it was given.
- `run(Object...)` and `cancel()` are declared in `IBenchmark` but not implemented in `MatrixMultBenchmark.java`. Cooperative cancellation is a concurrency concern and is not modelled.
- The pseudo-random algorithm of `java.util.Random` is not modelled. The random source is any fixed stream of `int`s.
- Timing, scores, result logging (`FileLogger`), the JavaFX interface (`Controller`, `App`) and `module-info.java` are I/O and plumbing, and are not modelled.
- Grid.PlanGrid: rounds up in exact integer arithmetic. Line 116 divides in `float` and multiplies in 32-bit `int`, so the source's grid can stop short of the domain, which `PlanGrid`'s `domain <= globalSize` rules out for the model. For `r1 * c2 = 16 778 241` with groups of 1024, the float of the domain is 16 778 240, the quotient is exactly 16 385.0, and the grid has 16 778 240 items; the last cell is never computed. With `r1 * c2 = 16 777 217` and groups of 2 the grid is 16 777 216. A grid near 2^31 can also wrap. Neither the float rounding nor the wrap is modelled, and `Kernel.UnguardedPaddingOutOfBounds` holds for the integer grid only.
- Bench.MatrixMultBenchmark.Run: requires `NoOverflow()`, that is non-negative dimensions whose products fit in 32 bits. With a wrapped or negative size the source computes its indices in wrapped `int` arithmetic, which the model does not follow. Under `NoOverflow()` every index is below a buffer length, so no index the model computes would wrap in Java.
- Bench.MatrixMultBenchmark.Run: requires `Initialized()` where Java would throw for missing buffers; `IBenchmark` tells callers to initialize first.
- Bench.MatrixMultBenchmark.WarmUp: requires `Initialized()`, following the order `IBenchmark` documents; Java would run it with whatever device field it has. It says nothing about the scratch result, which the source discards.
- Bench.MatrixMultBenchmark.Initialize: requires `Created()`, a benchmark that has not yet been initialized, as `IBenchmark` asks for one call first. A `null` argument and `OutOfMemoryError` are not modelled.

## Findings

| source | as written | input that shows it | evidently intended | confidence | as-written member | corrected member |
|---|---|---|---|---|---|---|
| src/main/java/com/orbix/bench/MatrixMultBenchmark.java:104-116 | the kernel runs for every work item of the rounded-up grid and has no `i < r1 * c2` guard, so padding items read `a` and write `res` past their ends | the standard 10 000×10 000×10 000 benchmark on a device with a work-group limit of 1024: the grid has 100 000 768 items, and item 100 000 000 writes `res[100000000]` while `res` has 100 000 000 cells | work items at or past `r1 * c2` do nothing | high (not executed) | `Kernel.UnguardedPaddingOutOfBounds` | `Bench.MatrixMultBenchmark.RunHelper` |
