/** The two-sample bootstrap of `stats/src/univariate/mod.rs`. The resamplers
    and the statistic are abstract: worker `k` draws its a- and b-resamples
    from the streams `aSrc(k)` and `bSrc(k)` (the sequential path uses those
    of worker 0), and `stat` is any total function of a resample pair. The
    processor count is a parameter and each worker runs to completion before
    the next starts, which the workers, sharing nothing, cannot tell apart
    from running side by side. */
module Univariate {
  import opened Arith
  import opened Tuple
  import opened Resampling
  import opened Schedule

  /** The sequential path: `s = CeilSqrt(n)` outer steps each draw one
      a-resample, up to `s` inner steps each draw one b-resample and write one
      result, and the loops stop as soon as `n` results are written. */
  method SequentialPath<RA, RB, T(0)>(
    n: nat, aSrc: nat -> RA, bSrc: nat -> RB, stat: (RA, RB) -> T)
    returns (dist: seq<T>, aDraws: nat, bDraws: nat, ghost writes: seq<nat>)
    ensures dist == Evaluations(aSrc, bSrc, stat, n, CeilSqrt(n))
    ensures writes == Indices(n)
    ensures bDraws == n
    ensures aDraws <= CeilSqrt(n)
    ensures aDraws == if n == 0 then 0 else Min(CeilSqrt(n), n / CeilSqrt(n) + 1)
  {
    var s := CeilSqrt(n);
    var aResamples := new Resamples(aSrc);
    var bResamples := new Resamples(bSrc);
    var buffer := new T[n];
    var i := 0;
    var outer := 0;
    writes := [];
    ghost var stopped := false;
    label Outer:
    while outer < s
      invariant outer <= s && !stopped
      invariant i == outer * s && i <= n
      invariant aResamples.drawn == outer && bResamples.drawn == i
      invariant buffer[..i] == Evaluations(aSrc, bSrc, stat, i, s)
      invariant writes == Indices(i)
    {
      var aResample := aResamples.Next();
      var inner := 0;
      while inner < s
        invariant inner <= s && !stopped
        invariant i == outer * s + inner && i <= n
        invariant aResamples.drawn == outer + 1 && bResamples.drawn == i
        invariant aResample == aSrc(outer)
        invariant buffer[..i] == Evaluations(aSrc, bSrc, stat, i, s)
        invariant writes == Indices(i)
      {
        if i == n {
          assert aResamples.drawn == Min(s, n / s + 1) by {
            DivMulAdd(outer, s, inner);
          }
          stopped := true;
          break Outer;
        }
        var bResample := bResamples.Next();
        assert i / s == outer by {
          DivMulAdd(outer, s, inner);
        }
        EvaluationsSnoc(aSrc, bSrc, stat, i, s);
        buffer[i] := stat(aResample, bResample);
        assert buffer[..i + 1] == buffer[..i] + [buffer[i]];
        IndicesSnoc(i);
        writes := writes + [i];
        i := i + 1;
        inner := inner + 1;
      }
      assert i == (outer + 1) * s by {
        MulSucc(outer, s);
      }
      outer := outer + 1;
    }
    assert i == n;
    if !stopped && s > 0 {
      assert aResamples.drawn == s && n == s * s + 0;
      DivMulAdd(s, s, 0);
    }
    assert buffer[..] == buffer[..i];
    dist := buffer[..];
    aDraws, bDraws := aResamples.drawn, bResamples.drawn;
  }

  /** One parallel worker: the same nested loop with `CeilSqrt(g)` as both
      bounds, returning early once its counter, started at `offset`, equals
      the end of its chunk. */
  method Worker<RA, RB, T>(
    offset: nat, g: nat, n: nat, aSrc: nat -> RA, bSrc: nat -> RB, stat: (RA, RB) -> T)
    returns (sub: Builder<T>)
    requires g > 0
    ensures fresh(sub)
    ensures sub.items == Evaluations(aSrc, bSrc, stat, WorkerCount(offset, g, n), CeilSqrt(g))
  {
    var gs := CeilSqrt(g);
    sub := new Builder(g);
    var end := Min(offset + g, n);
    var aResamples := new Resamples(aSrc);
    var bResamples := new Resamples(bSrc);
    var i := offset;
    var outer := 0;
    while outer < gs
      invariant outer <= gs
      invariant i - offset == outer * gs
      invariant offset <= end ==> i <= end
      invariant aResamples.drawn == outer && bResamples.drawn == i - offset
      invariant sub.items == Evaluations(aSrc, bSrc, stat, i - offset, gs)
    {
      var aResample := aResamples.Next();
      var inner := 0;
      while inner < gs
        invariant inner <= gs
        invariant i - offset == outer * gs + inner
        invariant offset <= end ==> i <= end
        invariant aResamples.drawn == outer + 1 && bResamples.drawn == i - offset
        invariant aResample == aSrc(outer)
        invariant sub.items == Evaluations(aSrc, bSrc, stat, i - offset, gs)
      {
        if i == end {
          return;
        }
        var bResample := bResamples.Next();
        assert (i - offset) / gs == outer by {
          DivMulAdd(outer, gs, inner);
        }
        EvaluationsSnoc(aSrc, bSrc, stat, i - offset, gs);
        sub.Push(stat(aResample, bResample));
        i := i + 1;
        inner := inner + 1;
      }
      assert i - offset == (outer + 1) * gs by {
        MulSucc(outer, gs);
      }
      outer := outer + 1;
    }
  }

  /** The contents of the builders, in order. */
  ghost function ItemsOf<T>(chunks: seq<Builder<T>>): seq<seq<T>>
    reads set k | 0 <= k < |chunks| :: chunks[k]
  {
    seq(|chunks|, k requires 0 <= k < |chunks| reads set j | 0 <= j < |chunks| :: chunks[j] =>
      chunks[k].items)
  }

  /** Starts one worker per offset, worker `k` on its own streams. */
  method SpawnWorkers<RA, RB, T>(
    offsets: seq<nat>, g: nat, n: nat,
    aSrc: nat -> nat -> RA, bSrc: nat -> nat -> RB, stat: (RA, RB) -> T)
    returns (chunks: seq<Builder<T>>)
    requires g > 0
    ensures |chunks| == |offsets|
    ensures forall i, j :: 0 <= i < j < |chunks| ==> chunks[i] != chunks[j]
    ensures forall k :: 0 <= k < |chunks| ==> fresh(chunks[k])
    ensures ItemsOf(chunks) == ChunkOutputs(aSrc, bSrc, stat, offsets, g, n)
  {
    ghost var outs := ChunkOutputs(aSrc, bSrc, stat, offsets, g, n);
    chunks := [];
    var k := 0;
    while k < |offsets|
      invariant k <= |offsets| && |chunks| == k
      invariant forall i, j :: 0 <= i < j < k ==> chunks[i] != chunks[j]
      invariant forall i :: 0 <= i < k ==> fresh(chunks[i])
      invariant forall i :: 0 <= i < k ==> chunks[i].items == outs[i]
    {
      var sub := Worker(offsets[k], g, n, aSrc(k), bSrc(k), stat);
      assert sub.items == outs[k];
      chunks := chunks + [sub];
      k := k + 1;
    }
  }

  /** Joins the workers in index order, moving each one's results to the end
      of one builder. */
  method MergeChunks<T>(chunks: seq<Builder<T>>, n: nat) returns (dist: seq<T>)
    requires forall i, j :: 0 <= i < j < |chunks| ==> chunks[i] != chunks[j]
    modifies set k | 0 <= k < |chunks| :: chunks[k]
    ensures dist == Flatten(old(ItemsOf(chunks)))
    ensures forall k :: 0 <= k < |chunks| ==> chunks[k].items == []
  {
    var builder := new Builder<T>(n);
    ghost var parts := ItemsOf(chunks);
    var k := 0;
    while k < |chunks|
      invariant k <= |chunks|
      invariant builder.items == Flatten(parts[..k])
      invariant forall j :: k <= j < |chunks| ==> chunks[j].items == parts[j]
      invariant forall j :: 0 <= j < k ==> chunks[j].items == []
    {
      builder.Extend(chunks[k]);
      assert parts[..k + 1][..k] == parts[..k];
      k := k + 1;
    }
    assert parts[..k] == parts;
    dist := builder.items;
  }

  /** The parallel path as written: worker `k` starts at offset `k * g`. */
  method ParallelPath<RA, RB, T>(
    n: nat, ncpus: nat, aSrc: nat -> nat -> RA, bSrc: nat -> nat -> RB, stat: (RA, RB) -> T)
    returns (dist: seq<T>)
    requires ncpus > 0
    ensures var g := Granularity(n, ncpus);
      dist == Flatten(ChunkOutputs(aSrc, bSrc, stat, Offsets(ncpus, g), g, n))
  {
    var g := Granularity(n, ncpus);
    var chunks := SpawnWorkers(Offsets(ncpus, g), g, n, aSrc, bSrc, stat);
    dist := MergeChunks(chunks, n);
  }

  /** The parallel path with every offset clamped to `n`. */
  method ParallelPathCorrected<RA, RB, T>(
    n: nat, ncpus: nat, aSrc: nat -> nat -> RA, bSrc: nat -> nat -> RB, stat: (RA, RB) -> T)
    returns (dist: seq<T>)
    requires ncpus > 0
    ensures var g := Granularity(n, ncpus);
      dist == Flatten(ChunkOutputs(aSrc, bSrc, stat, ClampedOffsets(ncpus, g, n), g, n))
  {
    var g := Granularity(n, ncpus);
    var chunks := SpawnWorkers(ClampedOffsets(ncpus, g, n), g, n, aSrc, bSrc, stat);
    dist := MergeChunks(chunks, n);
  }

  /** `bootstrap` as written. The parallel path is taken exactly when there
      is more than one processor and more resamples than the two samples hold
      together. The sequential path returns exactly `n` results; the parallel
      path returns the right `n` results first and returns exactly `n` if and
      only if the last worker's offset does not pass `n`. */
  method Bootstrap<A, B, RA, RB, T(0)>(
    a: seq<A>, b: seq<B>, n: nat, ncpus: nat,
    aSrc: nat -> nat -> RA, bSrc: nat -> nat -> RB, stat: (RA, RB) -> T)
    returns (dist: seq<T>)
    ensures ncpus > 1 && n > |a| + |b| ==> var g := Granularity(n, ncpus);
      dist == Flatten(ChunkOutputs(aSrc, bSrc, stat, Offsets(ncpus, g), g, n)) &&
      (|dist| == n <==> (ncpus - 1) * g <= n) &&
      |dist| >= n && forall i :: 0 <= i < n ==> dist[i] == SlotValue(aSrc, bSrc, stat, g, i)
    ensures !(ncpus > 1 && n > |a| + |b|) ==>
      dist == Evaluations(aSrc(0), bSrc(0), stat, n, CeilSqrt(n)) && |dist| == n
  {
    if ncpus > 1 && n > |a| + |b| {
      dist := ParallelPath(n, ncpus, aSrc, bSrc, stat);
      AsWrittenOutput(aSrc, bSrc, stat, n, ncpus);
    } else {
      ghost var writes;
      var aDraws, bDraws;
      dist, aDraws, bDraws, writes := SequentialPath(n, aSrc(0), bSrc(0), stat);
    }
  }

  /** `bootstrap` with the parallel offsets clamped to `n`: both paths return
      exactly `n` results, and on the parallel path slot `i` holds worker
      `i / g`'s result number `i % g`. */
  method BootstrapCorrected<A, B, RA, RB, T(0)>(
    a: seq<A>, b: seq<B>, n: nat, ncpus: nat,
    aSrc: nat -> nat -> RA, bSrc: nat -> nat -> RB, stat: (RA, RB) -> T)
    returns (dist: seq<T>)
    ensures |dist| == n
    ensures ncpus > 1 && n > |a| + |b| ==> var g := Granularity(n, ncpus);
      forall i :: 0 <= i < n ==> dist[i] == SlotValue(aSrc, bSrc, stat, g, i)
    ensures !(ncpus > 1 && n > |a| + |b|) ==>
      dist == Evaluations(aSrc(0), bSrc(0), stat, n, CeilSqrt(n))
  {
    if ncpus > 1 && n > |a| + |b| {
      dist := ParallelPathCorrected(n, ncpus, aSrc, bSrc, stat);
      CorrectedOutput(aSrc, bSrc, stat, n, ncpus);
    } else {
      ghost var writes;
      var aDraws, bDraws;
      dist, aDraws, bDraws, writes := SequentialPath(n, aSrc(0), bSrc(0), stat);
    }
  }
}
