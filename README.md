# Bootstrap resample scheduling

A Dafny model of the scheduling core of `bootstrap` in the `stats` crate of
criterion.rs (`stats/src/univariate/mod.rs`). Given two samples `a` and `b`, a
resample count `nresamples` (here `n`) and a statistic, `bootstrap` evaluates
the statistic on pairs of resamples and collects the results into
distributions. The model covers how many evaluations happen, which resamples
each one pairs, and where each result lands.

- **Path selection.** The parallel path runs only when there is more than one
  processor and `n > |a| + |b|`; otherwise the sequential path runs.
- **Sequential path** (`Univariate.SequentialPath`). With `s = ceil(sqrt(n))`,
  each outer step that runs (at most `s`) draws one a-resample. Each of up to `s` inner steps
  draws one b-resample and writes one result into slot `i` of a preallocated
  buffer (an `array`). A labelled break leaves both loops when `i == n`.
- **Parallel path.** The granularity is `g = n / ncpus + 1`, and worker `k`
  starts at offset `k * g` (`Univariate.Worker`, `Univariate.SpawnWorkers`).
  Each worker runs the same nested loop with `ceil(sqrt(g))` bounds and
  returns early once its counter reaches `min(offset + g, n)`. It pushes
  results into its own builder (`Tuple.Builder`). The builders are then
  merged in worker order (`Univariate.MergeChunks`).
- **Resamplers** (`Resampling.Resamples`) are draw counters over an opaque
  stream: the `d`-th draw of worker `k` is `aSrc(k)(d)` or `bSrc(k)(d)`.
  The sequential path uses the streams of worker 0. The statistic is any
  total function of a resample pair.

`Schedule` states the schedule as values. `Evaluations` is what a nested
loop with block size `s` produces. `WorkerCount` is how many results a worker
pushes. `ChunkOutputs` is what every worker returns. `SlotValue` is the value
global slot `i` should hold. The methods in `Univariate` are proved against
these functions, and the lemmas in `Schedule` prove what the functions mean:
- the chunks partition `[0, n)`;
- the sequential path writes every slot exactly once, in order;
- the merged output length is the sum of the per-worker counts;
- the exact-count condition holds, together with the over-count that occurs
  when it fails.

The integer ceiling square root `Arith.CeilSqrt` stands in for
`(x as f64).sqrt().ceil() as usize`.

The code evidently intends exactly `nresamples` results from either path:
- the sequential buffer is allocated with length `nresamples`
  (`stats/src/univariate/mod.rs:93-94`);
- the merged builder reserves `nresamples` (`stats/src/univariate/mod.rs:83-84`);
- the sequential path provably yields exactly `n` results
  (`Univariate.SequentialPath`).

The parallel path does not guarantee this (see Findings). `Univariate.Bootstrap` models the code as written, and
`Univariate.BootstrapCorrected` models the evidently intended behaviour.

## Model

| member | source | states |
|---|---|---|
| Arith.CeilSqrt | stats/src/univariate/mod.rs:90 | the result squared reaches `x`, one less squared falls short of `x`, and it is 0 exactly when `x` is 0 |
| Arith.CeilSqrtLeast | stats/src/univariate/mod.rs:50 | no natural whose square reaches `x` is below the ceiling square root |
| Resampling.Resamples.constructor | stats/src/univariate/mod.rs:91-92 | a new generator over a stream has drawn nothing |
| Resampling.Resamples.Next | stats/src/univariate/mod.rs:98 | each draw returns the next element of the generator's stream and advances the draw count by one |
| Tuple.Builder.constructor | stats/src/univariate/mod.rs:54-55 | a new builder is empty and records its reserved capacity |
| Tuple.Builder.Push | stats/src/univariate/mod.rs:74 | pushing appends exactly one result at the end |
| Tuple.Builder.Extend | stats/src/univariate/mod.rs:86 | extending appends all of the other builder's results in order and leaves the other builder empty |
| Tuple.FlattenAppend | stats/src/univariate/mod.rs:85-87 | merging two runs of chunks one after the other equals merging them together |
| Schedule.EvaluationsSnoc | stats/src/univariate/mod.rs:97-110 | one more evaluation appends the result pairing a-resample `c / s` with b-resample `c` |
| Schedule.IndicesOnce | stats/src/univariate/mod.rs:96-109 | the write trace `0, 1, …, n-1` is strictly increasing, contains exactly the slots below `n`, and contains each of them once |
| Schedule.Granularity | stats/src/univariate/mod.rs:49 | the granularity is the least positive number whose `ncpus` chunks reach past `n`: `(g-1)*ncpus <= n < g*ncpus` |
| Schedule.ChunkEnd | stats/src/univariate/mod.rs:59 | a chunk ends `g` past its offset, or at `n` if that comes first, and it ends at or after its offset exactly when the offset does not pass `n` |
| Schedule.WorkerCount | stats/src/univariate/mod.rs:59-79 | a worker whose offset does not pass `n` pushes exactly up to its chunk's end, at most `g` results; a worker whose offset passes `n` pushes the full `ceil(sqrt(g))²`, at least `g`; none pushes more than its loops allow |
| Schedule.ChunkPartition | stats/src/univariate/mod.rs:49-59 | slot `i` lies in the chunk `[k*g, min(k*g+g, n))` of an existing worker `k` if and only if `i < n` and `k = i / g`, so the chunks are disjoint and cover `[0, n)` |
| Schedule.ParallelLength | stats/src/univariate/mod.rs:53-88 | the merged output is as long as the workers' result counts add up to |
| Schedule.TotalAsWritten | stats/src/univariate/mod.rs:56-79 | the first `m` workers push `min(m*g, n)` results plus `ceil(sqrt(g))²` for every worker whose offset lies past `n` |
| Schedule.ParallelCount | stats/src/univariate/mod.rs:49-88 | the parallel path pushes `n` plus the surplus results, and exactly `n` if and only if `(ncpus-1)*g <= n` |
| Schedule.ExpectedSplit | stats/src/univariate/mod.rs:83-88 | the expected slot values of adjacent ranges concatenate to those of the joined range |
| Schedule.ChunkSlots | stats/src/univariate/mod.rs:59-79 | a worker whose offset `k*g` does not pass `n` returns exactly the expected values of the slots of its chunk |
| Schedule.ClampedChunk | stats/src/univariate/mod.rs:56-79 | with its offset clamped to `n`, worker `k` returns the expected values of slots `min(k*g, n)` up to `min(k*g+g, n)` |
| Schedule.ClampedSlots | stats/src/univariate/mod.rs:53-88 | with clamped offsets, the first `m` workers merged in order yield exactly the expected values of slots `0` up to `min(m*g, n)` |
| Schedule.CorrectedOutput | stats/src/univariate/mod.rs:49-88 | with clamped offsets the merged output has exactly `n` results and slot `i` holds worker `i/g`'s result number `i%g` |
| Schedule.OffsetsWithin | stats/src/univariate/mod.rs:56 | the first `n/g + 1` offsets `k*g` do not exceed `n`, so clamping leaves them unchanged |
| Schedule.AsWrittenPrefix | stats/src/univariate/mod.rs:53-88 | as written, the first `n/g + 1` workers yield exactly the expected values of slots `0` up to `n`, and the other workers' output follows them |
| Schedule.AsWrittenOutput | stats/src/univariate/mod.rs:49-88 | as written, the output has `n` results plus the surplus, exactly `n` if and only if `(ncpus-1)*g <= n`, and its first `n` results are the expected ones |
| Schedule.OverCountExample | stats/src/univariate/mod.rs:56-79 | with 8 processors and 10 resamples the granularity is 2 and the parallel path returns 18 results |
| Univariate.SequentialPath | stats/src/univariate/mod.rs:89-114 | returns exactly `n` results, result `j` pairing a-resample `j / ceil(sqrt(n))` with b-resample `j`; writes slots `0..n-1` once each in order; draws `n` b-resamples and `min(s, n/s + 1)` a-resamples (none when `n` is 0, never more than `s`) |
| Univariate.Worker | stats/src/univariate/mod.rs:58-80 | a worker returns a fresh builder holding `end - offset` results when its offset does not pass its chunk's end, and `ceil(sqrt(g))²` otherwise; result `j` pairs a-resample `j / ceil(sqrt(g))` with b-resample `j` |
| Univariate.SpawnWorkers | stats/src/univariate/mod.rs:53-81 | starts one fresh, distinct builder per offset, builder `k` holding worker `k`'s results |
| Univariate.MergeChunks | stats/src/univariate/mod.rs:83-88 | the result is the builders' contents concatenated in worker order, and every builder is drained |
| Univariate.ParallelPath | stats/src/univariate/mod.rs:48-88 | the parallel path returns the workers' outputs for offsets `k*g`, merged in worker order |
| Univariate.ParallelPathCorrected | stats/src/univariate/mod.rs:48-88 | the same with every offset clamped to `n` |
| Univariate.Bootstrap | stats/src/univariate/mod.rs:30-116 | parallel exactly when `ncpus > 1` and `n` exceeds the two samples' total length, returning at least `n` results, exactly `n` if and only if `(ncpus-1)*g <= n`, with the expected first `n`; otherwise the sequential results, exactly `n` |
| Univariate.BootstrapCorrected | stats/src/univariate/mod.rs:30-116 | both paths return exactly `n` results; the parallel one places worker `i/g`'s result number `i%g` in slot `i` |

## Left out

- Threads and the processor query are not modelled. `ncpus` is a parameter and the
  workers run one after another. They share nothing, so their results do not
  depend on order.
- Floating-point arithmetic is not modelled: the `f64` square root and ceiling are
  replaced by the exact integer ceiling square root. The two can differ only for
  very large inputs, where `f64` rounding matters.
- The randomness of resampling is not modelled, and neither is the `Sample` type:
  the resampler code is not part of this model. A generator is an opaque
  stream of resamples indexed by draw number. The model does not claim that
  different workers' streams are independent.
- The statistic is not modelled: it is an arbitrary total function.
- `TupledDistributions::uninitialized` and `set_unchecked` are not modelled as such:
  the buffer is a Dafny array of length `n`, which holds default values until
  written.
- The tuple machinery (`Tuple`, `TupledDistributionsBuilder`) is not part of this model.
  A result of any arity is kept as one value of type `T`. Field alignment
  therefore holds by construction.
- Tuple.Builder.Extend: the source of `extend` is not part of this model.
  Emptying the other builder is an assumption. It is drawn from the call
  taking `&mut` of the joined chunk (`stats/src/univariate/mod.rs:86`), and no
  body is available to confirm it. Only the appended results matter to the
  output.
- `complete()` (`stats/src/univariate/mod.rs:88`) is taken to hand back the
  collected items unchanged, so the merged result is the builder's items.
  `Univariate.MergeChunks` states what that result is: the workers' outputs
  concatenated in worker order.
- Tuple.Builder.constructor: the reserved capacity has no effect on behaviour.
- The `kde`, `mixed`, `outliers` and `percentiles` submodules and `src/error.rs` are
  outside the scheduling core and are not modelled.
- Usize overflow is not modelled: `ncpus * g` and `offset + g` cannot overflow for
  realistic inputs, and integers here are unbounded.

## Findings

| source | as written | input that shows it | evidently intended | confidence | as-written member | corrected member |
|---|---|---|---|---|---|---|
| stats/src/univariate/mod.rs:56-69 | the worker offset `i * granularity` is not clamped to `nresamples`; a worker whose offset lies past the end never sees `i == end` and pushes `granularity_sqrt²` results | 8 processors, `nresamples = 10`, two observations in each sample (10 > 2 + 2, so the parallel path runs): granularity 2, workers 6 and 7 start at 12 and 14 and push 4 results each, 18 results in all | every run returns exactly `nresamples` results | not executed | Schedule.OverCountExample | Univariate.BootstrapCorrected |
