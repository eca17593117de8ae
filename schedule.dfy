/** The arithmetic of the bootstrap's work schedule, stated as values: which
    resamples each statistic evaluation pairs, how the parallel path splits
    `nresamples` evaluations into chunks, how many results each worker pushes,
    and what the in-order merge of the chunks yields. */
module Schedule {
  import opened Arith
  import opened Tuple

  /** The results of a square-root-decomposed run of `count` evaluations with
      blocks of `s`: result `j` pairs a-resample number `j / s` with b-resample
      number `j`, so every block of `s` consecutive results shares one
      a-resample. */
  function Evaluations<RA, RB, T>(
    aSrc: nat -> RA, bSrc: nat -> RB, stat: (RA, RB) -> T, count: nat, s: nat): seq<T>
    requires count == 0 || s > 0
  {
    seq(count, j requires 0 <= j < count => stat(aSrc(j / s), bSrc(j)))
  }

  /** One more evaluation appends the result pairing a-resample `c / s` with
      b-resample `c`. */
  lemma EvaluationsSnoc<RA, RB, T>(
    aSrc: nat -> RA, bSrc: nat -> RB, stat: (RA, RB) -> T, c: nat, s: nat)
    requires s > 0
    ensures Evaluations(aSrc, bSrc, stat, c + 1, s)
      == Evaluations(aSrc, bSrc, stat, c, s) + [stat(aSrc(c / s), bSrc(c))]
  {
    var e := Evaluations(aSrc, bSrc, stat, c, s);
    assert Evaluations(aSrc, bSrc, stat, c + 1, s)[..c] == e;
  }

  /** The slots `0` up to `c`, in increasing order. */
  function Indices(c: nat): (r: seq<nat>)
    ensures |r| == c
  {
    seq(c, k => k)
  }

  /** The next slot written is `c`. */
  lemma IndicesSnoc(c: nat)
    ensures Indices(c + 1) == Indices(c) + [c]
  {
  }

  /** Writing the slots of `Indices(n)` in turn writes every slot below `n`
      and no other, each exactly once and in increasing order. */
  lemma IndicesOnce(n: nat)
    ensures forall p, q :: 0 <= p < q < n ==> Indices(n)[p] < Indices(n)[q]
    ensures forall k :: k in Indices(n) <==> 0 <= k < n
    ensures forall k :: 0 <= k < n ==> multiset(Indices(n))[k] == 1
  {
    var w := Indices(n);
    forall k | 0 <= k < n ensures k in w && multiset(w)[k] == 1 {
      assert w[k] == k;
      assert w == w[..k] + [k] + w[k + 1..];
      assert k !in w[..k] && k !in w[k + 1..];
      assert multiset(w[..k])[k] == 0 && multiset(w[k + 1..])[k] == 0;
    }
  }

  /** The number of evaluations each parallel worker is responsible for: the
      least granularity whose `ncpus` chunks reach past `n`. */
  function Granularity(n: nat, ncpus: nat): (g: nat)
    requires ncpus > 0
    ensures g >= 1
    ensures (g - 1) * ncpus <= n < g * ncpus
  {
    var q := n / ncpus;
    assert n == q * ncpus + n % ncpus;
    assert (q + 1) * ncpus == q * ncpus + ncpus by { MulSucc(q, ncpus); }
    q + 1
  }

  /** Where the chunk starting at `offset` stops: `g` past the offset, but
      never past `n`. */
  function ChunkEnd(offset: nat, g: nat, n: nat): (end: nat)
    ensures end <= n && end <= offset + g
    ensures end == n || end == offset + g
    ensures offset <= n <==> offset <= end
  {
    Min(offset + g, n)
  }

  /** How many results a worker starting at `offset` pushes: the length of its
      chunk when the offset lies within `[0, n]`; otherwise its counter starts
      past the end, the early return never fires and both loops run out. */
  function WorkerCount(offset: nat, g: nat, n: nat): (c: nat)
    ensures offset <= n ==> offset + c == ChunkEnd(offset, g, n) && c <= g
    ensures offset > n ==> c == CeilSqrt(g) * CeilSqrt(g) && c >= g
    ensures c <= CeilSqrt(g) * CeilSqrt(g)
  {
    var end := ChunkEnd(offset, g, n);
    if offset <= end then end - offset else CeilSqrt(g) * CeilSqrt(g)
  }

  /** The offsets of the first `m` workers, `k * g` for worker `k`. */
  function Offsets(m: nat, g: nat): seq<nat>
  {
    seq(m, k => k * g)
  }

  /** The offsets with each one clamped to `n`. */
  function ClampedOffsets(m: nat, g: nat, n: nat): seq<nat>
  {
    seq(m, k => Min(k * g, n))
  }

  /** What each worker returns; worker `k` draws from its own streams
      `aSrc(k)` and `bSrc(k)`. */
  function ChunkOutputs<RA, RB, T>(
    aSrc: nat -> nat -> RA, bSrc: nat -> nat -> RB, stat: (RA, RB) -> T,
    offsets: seq<nat>, g: nat, n: nat): seq<seq<T>>
    requires g > 0
  {
    seq(|offsets|, k requires 0 <= k < |offsets| =>
      Evaluations(aSrc(k), bSrc(k), stat, WorkerCount(offsets[k], g, n), CeilSqrt(g)))
  }

  /** The total number of results the workers at `offsets` push. */
  function TotalCount(offsets: seq<nat>, g: nat, n: nat): nat
  {
    if offsets == [] then 0
    else TotalCount(offsets[..|offsets| - 1], g, n) + WorkerCount(offsets[|offsets| - 1], g, n)
  }

  /** The value the parallel path should place at global slot `i`: worker
      `i / g`'s result at its local position `i % g`. */
  function SlotValue<RA, RB, T>(
    aSrc: nat -> nat -> RA, bSrc: nat -> nat -> RB, stat: (RA, RB) -> T, g: nat, i: nat): T
    requires g > 0
  {
    var gs := CeilSqrt(g);
    DivisionBounds(i, g);
    var k, j := i / g, i % g;
    DivisionBounds(j, gs);
    stat(aSrc(k)(j / gs), bSrc(k)(j))
  }

  /** Index `i` lies in the chunk of worker `k` exactly when `i < n` and
      `k == i / g`: the chunk ranges are pairwise disjoint, follow each other
      in worker order, and together cover `[0, n)`. */
  lemma ChunkPartition(n: nat, ncpus: nat, k: nat, i: nat)
    requires ncpus > 0
    ensures var g := Granularity(n, ncpus);
      (k < ncpus && k * g <= i < ChunkEnd(k * g, g, n)) <==> (i < n && k == i / g)
  {
    var g := Granularity(n, ncpus);
    if k * g <= i < k * g + g {
      DivMulAdd(k, g, i - k * g);
    }
    var q := i / g;
    assert i == q * g + i % g;
    if i < n && k == q && k >= ncpus {
      MulMonotone(ncpus, k, g);
      assert false;
    }
  }

  /** The merged output is as long as the workers' counts add up to. */
  lemma {:induction false} ParallelLength<RA, RB, T>(
    aSrc: nat -> nat -> RA, bSrc: nat -> nat -> RB, stat: (RA, RB) -> T,
    offsets: seq<nat>, g: nat, n: nat)
    requires g > 0
    ensures |Flatten(ChunkOutputs(aSrc, bSrc, stat, offsets, g, n))| == TotalCount(offsets, g, n)
  {
    if offsets != [] {
      var k := |offsets| - 1;
      var outs := ChunkOutputs(aSrc, bSrc, stat, offsets, g, n);
      assert outs[..k] == ChunkOutputs(aSrc, bSrc, stat, offsets[..k], g, n);
      ParallelLength(aSrc, bSrc, stat, offsets[..k], g, n);
      assert Flatten(outs) == Flatten(outs[..k]) + outs[k];
      assert outs[k] == Evaluations(aSrc(k), bSrc(k), stat, WorkerCount(offsets[k], g, n), CeilSqrt(g));
      assert |outs[k]| == WorkerCount(offsets[k], g, n);
    }
  }

  /** The first `m` workers of the parallel path push `min(m * g, n)` results
      for the chunks that start within `[0, n]`, plus a full square of
      results for every worker whose offset lies past `n`. */
  lemma {:induction false} TotalAsWritten(m: nat, g: nat, n: nat)
    requires g > 0
    ensures TotalCount(Offsets(m, g), g, n)
         == Min(m * g, n) + Max(0, m - 1 - n / g) * (CeilSqrt(g) * CeilSqrt(g))
  {
    if m > 0 {
      var k := m - 1;
      var q := n / g;
      var sq := CeilSqrt(g) * CeilSqrt(g);
      assert Offsets(m, g)[..k] == Offsets(k, g);
      TotalAsWritten(k, g, n);
      var prev := TotalCount(Offsets(k, g), g, n);
      assert TotalCount(Offsets(m, g), g, n) == prev + WorkerCount(k * g, g, n);
      DivBound(n, g, k);
      MulSucc(k, g);
      if k * g <= n {
        assert Max(0, k - 1 - q) == 0 && Max(0, m - 1 - q) == 0;
        assert prev == k * g;
      } else {
        MulMonotone(k, m, g);
        MulSucc(k - 1 - q, sq);
        assert prev == n + (k - 1 - q) * sq;
      }
    }
  }

  /** The parallel path pushes `n` results plus a full square for every worker
      whose offset lies past `n`; so it pushes exactly `n` results if and only
      if the last worker's offset `(ncpus - 1) * g` does not exceed `n`. */
  lemma ParallelCount(n: nat, ncpus: nat)
    requires ncpus > 0
    ensures var g := Granularity(n, ncpus);
      TotalCount(Offsets(ncpus, g), g, n)
        == n + Max(0, ncpus - 1 - n / g) * (CeilSqrt(g) * CeilSqrt(g))
    ensures var g := Granularity(n, ncpus);
      TotalCount(Offsets(ncpus, g), g, n) == n <==> (ncpus - 1) * g <= n
  {
    var g := Granularity(n, ncpus);
    var sq := CeilSqrt(g) * CeilSqrt(g);
    var extra := Max(0, ncpus - 1 - n / g);
    TotalAsWritten(ncpus, g, n);
    DivBound(n, g, ncpus - 1);
    if extra > 0 {
      MulMonotone(1, extra, sq);
    }
  }

  /** The values the parallel path should place at global slots `lo` up to
      `hi`. */
  function Expected<RA, RB, T>(
    aSrc: nat -> nat -> RA, bSrc: nat -> nat -> RB, stat: (RA, RB) -> T, g: nat,
    lo: nat, hi: nat): seq<T>
    requires g > 0 && lo <= hi
  {
    seq(hi - lo, j requires 0 <= j < hi - lo => SlotValue(aSrc, bSrc, stat, g, lo + j))
  }

  lemma ExpectedSplit<RA, RB, T>(
    aSrc: nat -> nat -> RA, bSrc: nat -> nat -> RB, stat: (RA, RB) -> T, g: nat,
    lo: nat, mid: nat, hi: nat)
    requires g > 0 && lo <= mid <= hi
    ensures Expected(aSrc, bSrc, stat, g, lo, mid) + Expected(aSrc, bSrc, stat, g, mid, hi)
         == Expected(aSrc, bSrc, stat, g, lo, hi)
  {
    var left, right := Expected(aSrc, bSrc, stat, g, lo, mid), Expected(aSrc, bSrc, stat, g, mid, hi);
    var whole := Expected(aSrc, bSrc, stat, g, lo, hi);
    forall j | 0 <= j < |whole| ensures (left + right)[j] == whole[j] {
      if j >= |left| {
        assert mid + (j - (mid - lo)) == lo + j;
      }
    }
  }

  /** The chunk of a worker whose offset `k * g` lies within `[0, n]` holds
      the values of global slots `k * g` up to the end of its chunk. */
  lemma ChunkSlots<RA, RB, T>(
    aSrc: nat -> nat -> RA, bSrc: nat -> nat -> RB, stat: (RA, RB) -> T,
    k: nat, g: nat, n: nat)
    requires g > 0 && k * g <= n
    ensures Evaluations(aSrc(k), bSrc(k), stat, WorkerCount(k * g, g, n), CeilSqrt(g))
         == Expected(aSrc, bSrc, stat, g, k * g, Min(k * g + g, n))
  {
    var c := Evaluations(aSrc(k), bSrc(k), stat, WorkerCount(k * g, g, n), CeilSqrt(g));
    var e := Expected(aSrc, bSrc, stat, g, k * g, Min(k * g + g, n));
    forall j | 0 <= j < |c| ensures c[j] == e[j] {
      DivMulAdd(k, g, j);
    }
  }

  lemma ClampedOffsetsPrefix(m: nat, g: nat, n: nat, k: nat)
    requires k <= m
    ensures ClampedOffsets(m, g, n)[..k] == ClampedOffsets(k, g, n)
  {
  }

  /** The outputs of the first `k` workers depend only on their own offsets. */
  lemma ChunkOutputsPrefix<RA, RB, T>(
    aSrc: nat -> nat -> RA, bSrc: nat -> nat -> RB, stat: (RA, RB) -> T,
    offsets: seq<nat>, g: nat, n: nat, k: nat)
    requires g > 0 && k <= |offsets|
    ensures ChunkOutputs(aSrc, bSrc, stat, offsets, g, n)[..k]
         == ChunkOutputs(aSrc, bSrc, stat, offsets[..k], g, n)
  {
  }

  /** The chunk of worker `k` once its offset is clamped to `n` holds the
      values of global slots `min(k * g, n)` up to `min(k * g + g, n)`. */
  lemma ClampedChunk<RA, RB, T>(
    aSrc: nat -> nat -> RA, bSrc: nat -> nat -> RB, stat: (RA, RB) -> T,
    m: nat, k: nat, g: nat, n: nat)
    requires g > 0 && k < m
    ensures ChunkOutputs(aSrc, bSrc, stat, ClampedOffsets(m, g, n), g, n)[k]
         == Expected(aSrc, bSrc, stat, g, Min(k * g, n), Min(k * g + g, n))
  {
    var c := ChunkOutputs(aSrc, bSrc, stat, ClampedOffsets(m, g, n), g, n)[k];
    assert c == Evaluations(aSrc(k), bSrc(k), stat, WorkerCount(Min(k * g, n), g, n), CeilSqrt(g));
    if k * g <= n {
      ChunkSlots(aSrc, bSrc, stat, k, g, n);
    } else {
      assert WorkerCount(n, g, n) == 0;
    }
  }

  /** With every offset clamped to `n`, the first `m` workers together yield
      the values of global slots `0` up to `min(m * g, n)`, in order. */
  lemma {:induction false} ClampedSlots<RA, RB, T>(
    aSrc: nat -> nat -> RA, bSrc: nat -> nat -> RB, stat: (RA, RB) -> T,
    m: nat, g: nat, n: nat)
    requires g > 0
    ensures Flatten(ChunkOutputs(aSrc, bSrc, stat, ClampedOffsets(m, g, n), g, n))
         == Expected(aSrc, bSrc, stat, g, 0, Min(m * g, n))
  {
    if m > 0 {
      var k := m - 1;
      var outs := ChunkOutputs(aSrc, bSrc, stat, ClampedOffsets(m, g, n), g, n);
      ClampedOffsetsPrefix(m, g, n, k);
      ChunkOutputsPrefix(aSrc, bSrc, stat, ClampedOffsets(m, g, n), g, n, k);
      ClampedSlots(aSrc, bSrc, stat, k, g, n);
      FlattenLast(outs);
      ClampedChunk(aSrc, bSrc, stat, m, k, g, n);
      MulSucc(k, g);
      ExpectedSplit(aSrc, bSrc, stat, g, 0, Min(k * g, n), Min(m * g, n));
    }
  }

  /** Corrected parallel path: with clamped offsets the merged output holds
      exactly `n` results, slot `i` holding worker `i / g`'s result number
      `i % g`. */
  lemma CorrectedOutput<RA, RB, T>(
    aSrc: nat -> nat -> RA, bSrc: nat -> nat -> RB, stat: (RA, RB) -> T, n: nat, ncpus: nat)
    requires ncpus > 0
    ensures var g := Granularity(n, ncpus);
      var out := Flatten(ChunkOutputs(aSrc, bSrc, stat, ClampedOffsets(ncpus, g, n), g, n));
      |out| == n && forall i :: 0 <= i < n ==> out[i] == SlotValue(aSrc, bSrc, stat, g, i)
  {
    ClampedSlots(aSrc, bSrc, stat, ncpus, Granularity(n, ncpus), n);
  }

  /** Clamping changes none of the first `n / g + 1` offsets. */
  lemma OffsetsWithin(ncpus: nat, m: nat, g: nat, n: nat)
    requires g > 0 && m <= ncpus && m <= n / g + 1
    ensures Offsets(ncpus, g)[..m] == ClampedOffsets(m, g, n)
  {
    forall k | 0 <= k < m ensures Offsets(ncpus, g)[k] == ClampedOffsets(m, g, n)[k] {
      DivBound(n, g, k);
    }
  }

  /** The first `n / g + 1` workers of the parallel path start within
      `[0, n]`, so they behave as with clamped offsets and together yield
      exactly the values of global slots `0` up to `n`. */
  lemma AsWrittenPrefix<RA, RB, T>(
    aSrc: nat -> nat -> RA, bSrc: nat -> nat -> RB, stat: (RA, RB) -> T, n: nat, ncpus: nat)
    requires ncpus > 0
    ensures var g := Granularity(n, ncpus);
      var outs := ChunkOutputs(aSrc, bSrc, stat, Offsets(ncpus, g), g, n);
      n / g + 1 <= ncpus &&
      Flatten(outs) == Expected(aSrc, bSrc, stat, g, 0, n) + Flatten(outs[n / g + 1..])
  {
    var g := Granularity(n, ncpus);
    var m := n / g + 1;
    assert m <= ncpus && Min(m * g, n) == n by {
      DivBound(n, g, m);
      DivBound(n, g, ncpus);
    }
    var outs := ChunkOutputs(aSrc, bSrc, stat, Offsets(ncpus, g), g, n);
    assert Flatten(outs[..m]) == Expected(aSrc, bSrc, stat, g, 0, n) by {
      OffsetsWithin(ncpus, m, g, n);
      ChunkOutputsPrefix(aSrc, bSrc, stat, Offsets(ncpus, g), g, n, m);
      ClampedSlots(aSrc, bSrc, stat, m, g, n);
    }
    assert outs == outs[..m] + outs[m..];
    FlattenAppend(outs[..m], outs[m..]);
  }

  /** Parallel path as written: the first `n` merged results are the right
      ones, slot `i` holding worker `i / g`'s result number `i % g`, and the
      surplus of the workers whose offset lies past `n` follows them; so the
      output has exactly `n` results if and only if the last worker's offset
      does not pass `n`. */
  lemma AsWrittenOutput<RA, RB, T>(
    aSrc: nat -> nat -> RA, bSrc: nat -> nat -> RB, stat: (RA, RB) -> T, n: nat, ncpus: nat)
    requires ncpus > 0
    ensures var g := Granularity(n, ncpus);
      var out := Flatten(ChunkOutputs(aSrc, bSrc, stat, Offsets(ncpus, g), g, n));
      |out| == n + Max(0, ncpus - 1 - n / g) * (CeilSqrt(g) * CeilSqrt(g)) &&
      (|out| == n <==> (ncpus - 1) * g <= n) &&
      |out| >= n && forall i :: 0 <= i < n ==> out[i] == SlotValue(aSrc, bSrc, stat, g, i)
  {
    var g := Granularity(n, ncpus);
    AsWrittenPrefix(aSrc, bSrc, stat, n, ncpus);
    ParallelLength(aSrc, bSrc, stat, Offsets(ncpus, g), g, n);
    ParallelCount(n, ncpus);
  }

  /** Eight workers and ten resamples: granularity 2, workers 6 and 7 start at
      offsets 12 and 14, past the end, and push 4 results each, so the
      parallel path returns 18 results instead of 10. */
  lemma OverCountExample<RA, RB, T>(
    aSrc: nat -> nat -> RA, bSrc: nat -> nat -> RB, stat: (RA, RB) -> T)
    ensures Granularity(10, 8) == 2
    ensures |Flatten(ChunkOutputs(aSrc, bSrc, stat, Offsets(8, 2), 2, 10))| == 18
  {
    assert CeilSqrt(2) == 2;
    AsWrittenOutput(aSrc, bSrc, stat, 10, 8);
  }
}
