/**
 * The streaming batch accumulator of `predict`: grids are written one at a
 * time into a reused buffer of capacity N at index `b`; a full buffer is sent
 * to the model and `b` goes back to 0; at the end of the stream only the
 * valid prefix `[0, b)` is sent, and only when `b != 0`.
 *
 * The model (network, sigmoid, copy to the host) is an opaque function from
 * a batch of grids to one prediction vector per grid.
 */
module Batching {
  import opened Samples

  /** A trained model after the sigmoid: a batch of grids to prediction vectors. */
  type Model<!G> = seq<G> -> seq<seq<real>>

  /** The model contract: one prediction vector per grid of the batch. */
  ghost predicate LengthPreserving<G(!new)>(net: Model<G>)
  {
    forall batch: seq<G> :: |net(batch)| == |batch|
  }

  /**
   * Reference definition of the batches a stream is cut into: consecutive
   * runs of n samples, the last one possibly shorter, none empty.
   */
  function Chunks<T>(s: seq<T>, n: nat): seq<seq<T>>
    requires n > 0
    decreases |s|
  {
    if |s| == 0 then []
    else if |s| <= n then [s]
    else [s[..n]] + Chunks(s[n..], n)
  }

  /** The concatenation of a sequence of batches. */
  function Flatten<T>(batches: seq<seq<T>>): seq<T>
  {
    if batches == [] then [] else batches[0] + Flatten(batches[1..])
  }

  /** `predicted += net(batch)` over the calls, in call order. */
  function BatchPredictions<G>(net: Model<G>, calls: seq<seq<G>>): seq<seq<real>>
  {
    if calls == [] then []
    else BatchPredictions(net, calls[..|calls| - 1]) + net(calls[|calls| - 1])
  }

  /** `s` is a whole number of full batches of n. */
  predicate FullBatches<T>(s: seq<T>, n: nat)
    requires n > 0
    decreases |s|
  {
    |s| == 0 || (|s| >= n && FullBatches(s[n..], n))
  }

  lemma {:induction false} FullBatchesSnoc<T>(a: seq<T>, c: seq<T>, n: nat)
    requires n > 0 && FullBatches(a, n) && |c| == n
    ensures FullBatches(a + c, n)
  {
    if |a| == 0 {
      assert a + c == c;
      assert c[n..] == [];
    } else {
      assert (a + c)[n..] == a[n..] + c;
      FullBatchesSnoc(a[n..], c, n);
    }
  }

  /** Cutting after whole batches: the batches of `a + c` are those of `a` followed by those of `c`. */
  lemma {:induction false} ChunksAppend<T>(a: seq<T>, c: seq<T>, n: nat)
    requires n > 0 && FullBatches(a, n)
    ensures Chunks(a + c, n) == Chunks(a, n) + Chunks(c, n)
  {
    if |a| == 0 {
      assert a + c == c;
    } else if |a + c| <= n {
      assert |a| == n && c == [];
      assert a + c == a;
    } else {
      assert (a + c)[..n] == a[..n];
      assert (a + c)[n..] == a[n..] + c;
      ChunksAppend(a[n..], c, n);
      if |a| == n {
        assert a[..n] == a;
        assert a[n..] == [];
        assert a[n..] + c == c;
      }
    }
  }

  lemma {:induction false} BatchPredictionsCons<G>(net: Model<G>, b: seq<G>, calls: seq<seq<G>>)
    ensures BatchPredictions(net, [b] + calls) == net(b) + BatchPredictions(net, calls)
    decreases |calls|
  {
    if calls != [] {
      var all := [b] + calls;
      assert all[..|all| - 1] == [b] + calls[..|calls| - 1];
      BatchPredictionsCons(net, b, calls[..|calls| - 1]);
    } else {
      assert [b][..0] == [];
    }
  }

  /** What the accumulator holds after part of a stream: the calls made so far and the buffered grids. */
  datatype Progress<G> = Progress(calls: seq<seq<G>>, pending: seq<G>)

  /**
   * One grid streamed into the accumulator: it is appended to the buffered
   * ones, and a buffer that reaches n becomes a call and is emptied.
   */
  function Advance<G>(p: Progress<G>, x: G, n: nat): Progress<G>
  {
    var filled := p.pending + [x];
    if |filled| == n then Progress(p.calls + [filled], []) else Progress(p.calls, filled)
  }

  /** The accumulator's state after streaming `s`, one grid at a time. */
  function Accumulate<G>(s: seq<G>, n: nat): (p: Progress<G>)
    requires n > 0
    ensures |p.pending| < n
  {
    if s == [] then Progress([], [])
    else Advance(Accumulate(s[..|s| - 1], n), s[|s| - 1], n)
  }

  /**
   * The state agrees with the reference batches of `s`: the calls are the
   * batches of the longest prefix of whole batches, and the buffer holds the
   * rest of the stream.
   */
  ghost predicate Agrees<G>(s: seq<G>, p: Progress<G>, n: nat)
    requires n > 0
  {
    && |p.pending| <= |s|
    && FullBatches(s[..|s| - |p.pending|], n)
    && p.calls == Chunks(s[..|s| - |p.pending|], n)
    && p.pending == s[|s| - |p.pending|..]
  }

  /** The accumulator agrees with the reference batches after every prefix of the stream. */
  lemma {:induction false} AccumulateChunks<G>(s: seq<G>, n: nat)
    requires n > 0
    ensures Agrees(s, Accumulate(s, n), n)
    decreases |s|
  {
    if s == [] {
      assert s[..0] == [] && s[0..] == [];
    } else {
      var t, x := s[..|s| - 1], s[|s| - 1];
      AccumulateChunks(t, n);
      assert s == t + [x];
      AdvanceAgrees(t, x, Accumulate(t, n), n);
    }
  }

  lemma AdvanceAgrees<G>(t: seq<G>, x: G, p: Progress<G>, n: nat)
    requires n > 0 && Agrees(t, p, n) && |p.pending| < n
    ensures Agrees(t + [x], Advance(p, x, n), n)
  {
    var d := |t| - |p.pending|;
    SliceSnoc(t, x, d);
    if |p.pending| + 1 == n {
      AdvanceFull(t, x, p, n);
    }
  }

  lemma AdvanceFull<G>(t: seq<G>, x: G, p: Progress<G>, n: nat)
    requires n > 0 && Agrees(t, p, n) && |p.pending| + 1 == n
    ensures Agrees(t + [x], Advance(p, x, n), n)
  {
    var d := |t| - |p.pending|;
    var s, filled := t + [x], p.pending + [x];
    SliceSnoc(t, x, d);
    assert s == t[..d] + filled;
    CompleteBatch(t[..d], filled, n);
    assert s[..|s|] == s && s[|s|..] == [];
  }

  lemma SliceSnoc<T>(t: seq<T>, x: T, d: nat)
    requires d <= |t|
    ensures (t + [x])[..d] == t[..d]
    ensures (t + [x])[d..] == t[d..] + [x]
  {
  }

  /** Completing one more batch after whole batches adds exactly that batch. */
  lemma CompleteBatch<T>(done: seq<T>, filled: seq<T>, n: nat)
    requires n > 0 && FullBatches(done, n) && |filled| == n
    ensures FullBatches(done + filled, n)
    ensures Chunks(done + filled, n) == Chunks(done, n) + [filled]
  {
    FullBatchesSnoc(done, filled, n);
    ChunksAppend(done, filled, n);
    assert Chunks(filled, n) == [filled];
  }

  /** At the end of the stream, flushing the non-empty buffer completes the reference batches. */
  lemma FinalFlush<G>(s: seq<G>, n: nat)
    requires n > 0
    ensures var p := Accumulate(s, n);
      Chunks(s, n) == p.calls + (if p.pending == [] then [] else [p.pending])
  {
    var p := Accumulate(s, n);
    AccumulateChunks(s, n);
    var done := s[..|s| - |p.pending|];
    assert s == done + p.pending;
    ChunksAppend(done, p.pending, n);
  }

  lemma PredictionsSnoc<G>(net: Model<G>, calls: seq<seq<G>>, batch: seq<G>)
    ensures BatchPredictions(net, calls + [batch]) == BatchPredictions(net, calls) + net(batch)
  {
    assert (calls + [batch])[..|calls|] == calls;
  }

  lemma AccumulateAt<G>(s: seq<G>, i: nat, n: nat)
    requires n > 0 && i < |s|
    ensures Accumulate(s[..i + 1], n) == Advance(Accumulate(s[..i], n), s[i], n)
  {
    assert s[..i + 1][..i] == s[..i];
  }

  lemma CentersSnoc<G>(samples: seq<Sample<G>>, i: nat)
    requires i < |samples|
    ensures Centers(samples[..i + 1]) == Centers(samples[..i]) + [samples[i].center]
  {
    assert samples[..i + 1][..i] == samples[..i];
  }

  /**
   * The batching loop of `predict`, over the reused buffer `buffer` of
   * capacity `buffer.Length` (the batch size). It returns the streamed
   * centers, the concatenated predictions, and the batches the model was
   * called on, in call order. That the calls are exactly the reference
   * batches of the stream means that the writes `buffer[b]` stay in bounds
   * and that no call reads a slot left over from an earlier batch.
   */
  method StreamComplex<G>(buffer: array<G>, samples: seq<Sample<G>>, net: Model<G>)
    returns (centers: seq<Center>, predicted: seq<seq<real>>, calls: seq<seq<G>>)
    requires buffer.Length > 0
    modifies buffer
    ensures centers == Centers(samples)
    ensures calls == Chunks(Grids(samples), buffer.Length)
    ensures predicted == BatchPredictions(net, calls)
  {
    ghost var grids := Grids(samples);
    ghost var pending: seq<G> := [];
    var n := buffer.Length;
    var b := 0;
    centers, predicted, calls := [], [], [];
    var i := 0;
    while i < |samples|
      invariant 0 <= b < n && i <= |samples|
      invariant Accumulate(grids[..i], n) == Progress(calls, pending)
      invariant |pending| == b && forall j :: 0 <= j < b ==> buffer[j] == pending[j]
      invariant centers == Centers(samples[..i])
      invariant predicted == BatchPredictions(net, calls)
    {
      ghost var before := Progress(calls, pending);
      var grid := samples[i].grid;
      assert grid == grids[i] by { GridsAt(samples, i); }
      buffer[b] := grid;
      b := b + 1;
      pending := pending + [grid];
      assert centers + [samples[i].center] == Centers(samples[..i + 1]) by { CentersSnoc(samples, i); }
      centers := centers + [samples[i].center];
      if b == n {
        var batch := buffer[..];
        assert batch == pending;
        assert predicted + net(batch) == BatchPredictions(net, calls + [batch]) by {
          PredictionsSnoc(net, calls, batch);
        }
        predicted := predicted + net(batch);
        calls := calls + [batch];
        b := 0;
        pending := [];
      }
      assert Accumulate(grids[..i + 1], n) == Progress(calls, pending) by {
        AccumulateAt(grids, i, n);
      }
      i := i + 1;
    }
    assert centers == Centers(samples) by { assert samples[..i] == samples; }
    assert Accumulate(grids, n) == Progress(calls, pending) by { assert grids[..i] == grids; }
    FinalFlush(grids, n);
    if b != 0 {
      var batch := buffer[..b];
      assert batch == pending;
      predicted := predicted + net(batch);
      PredictionsSnoc(net, calls, batch);
      calls := calls + [batch];
    }
  }

  // ---------------------------------------------------------------------------
  // What the reference definition promises

  lemma DivStep(k: nat, n: nat)
    requires n > 0 && k >= n
    ensures (k - n) / n == k / n - 1 && (k - n) % n == k % n
  {
    var q, r := k / n, k % n;
    assert k == q * n + r;
    assert k - n == (q - 1) * n + r;
    DivModUnique(k - n, n, q - 1, r);
  }

  lemma DivModUnique(m: int, n: nat, q: int, r: int)
    requires n > 0 && m == q * n + r && 0 <= r < n
    ensures m / n == q && m % n == r
  {
    var q', r' := m / n, m % n;
    assert m == q' * n + r';
    if q > q' {
      assert q * n - q' * n == (q - q') * n;
      MulAtLeast(q - q', n);
    } else if q < q' {
      assert q' * n - q * n == (q' - q) * n;
      MulAtLeast(q' - q, n);
    }
  }

  lemma {:induction false} MulAtLeast(a: int, n: nat)
    requires a >= 1
    ensures a * n >= n
    decreases a
  {
    if a > 1 {
      MulAtLeast(a - 1, n);
      assert a * n == (a - 1) * n + n;
    }
  }

  /**
   * With batch size n > 0 and M samples, the model is called ceil(M/N) times:
   * every call but the last gets n samples, the last gets M mod n of them, or n
   * when n divides M; an empty stream makes no call at all.
   */
  lemma {:induction false} ChunkSizes<T>(s: seq<T>, n: nat)
    requires n > 0
    ensures |Chunks(s, n)| == (|s| + n - 1) / n
    ensures forall k :: 0 <= k < |Chunks(s, n)| - 1 ==> |Chunks(s, n)[k]| == n
    ensures |s| == 0 <==> Chunks(s, n) == []
    ensures |s| > 0 ==> |Chunks(s, n)[|Chunks(s, n)| - 1]| == if |s| % n == 0 then n else |s| % n
    decreases |s|
  {
    var c := Chunks(s, n);
    if |s| == 0 {
    } else if |s| <= n {
      DivModUnique(|s| + n - 1, n, 1, |s| - 1);
      if |s| == n {
        DivModUnique(|s|, n, 1, 0);
      } else {
        DivModUnique(|s|, n, 0, |s|);
      }
    } else {
      ChunkSizes(s[n..], n);
      DivStep(|s| + n - 1, n);
      DivStep(|s|, n);
      assert c == [s[..n]] + Chunks(s[n..], n);
    }
  }

  /** Sample k travels in call k / n, at position k % n of that call. */
  lemma {:induction false} ChunkElement<T>(s: seq<T>, n: nat, k: nat)
    requires n > 0 && k < |s|
    ensures k / n < |Chunks(s, n)| && k % n < |Chunks(s, n)[k / n]|
    ensures Chunks(s, n)[k / n][k % n] == s[k]
    decreases |s|
  {
    if |s| <= n {
      DivModUnique(k, n, 0, k);
    } else if k < n {
      DivModUnique(k, n, 0, k);
    } else {
      DivStep(k, n);
      ChunkElement(s[n..], n, k - n);
    }
  }

  /** Concatenating the calls gives back the stream: nothing lost, nothing repeated, order kept. */
  lemma {:induction false} FlattenChunks<T>(s: seq<T>, n: nat)
    requires n > 0
    ensures Flatten(Chunks(s, n)) == s
    decreases |s|
  {
    if |s| == 0 {
    } else if |s| <= n {
      assert Flatten([s]) == s + Flatten([]);
    } else {
      FlattenChunks(s[n..], n);
      var c := Chunks(s, n);
      assert c[1..] == Chunks(s[n..], n);
      assert s[..n] + s[n..] == s;
    }
  }

  lemma {:induction false} BatchPredictionsLength<G(!new)>(net: Model<G>, calls: seq<seq<G>>)
    requires LengthPreserving(net)
    ensures |BatchPredictions(net, calls)| == |Flatten(calls)|
    decreases |calls|
  {
    if calls != [] {
      BatchPredictionsCons(net, calls[0], calls[1..]);
      assert [calls[0]] + calls[1..] == calls;
      BatchPredictionsLength(net, calls[1..]);
      assert |net(calls[0])| == |calls[0]|;
    }
  }

  /** One prediction per streamed sample. */
  lemma PredictionsCount<G(!new)>(net: Model<G>, s: seq<G>, n: nat)
    requires n > 0 && LengthPreserving(net)
    ensures |BatchPredictions(net, Chunks(s, n))| == |s|
  {
    BatchPredictionsLength(net, Chunks(s, n));
    FlattenChunks(s, n);
  }

  /**
   * Predictions stay aligned with the stream: there is one per sample, and
   * the k-th is what the model returned, in the call that carried sample k,
   * at the position sample k held in that call.
   */
  lemma {:induction false} PredictionsAligned<G(!new)>(net: Model<G>, s: seq<G>, n: nat, k: nat)
    requires n > 0 && LengthPreserving(net) && k < |s|
    ensures |BatchPredictions(net, Chunks(s, n))| == |s|
    ensures k / n < |Chunks(s, n)| && k % n < |Chunks(s, n)[k / n]|
    ensures Chunks(s, n)[k / n][k % n] == s[k]
    ensures BatchPredictions(net, Chunks(s, n))[k] == net(Chunks(s, n)[k / n])[k % n]
    decreases |s|
  {
    PredictionsCount(net, s, n);
    ChunkElement(s, n, k);
    if |s| <= n {
      DivModUnique(k, n, 0, k);
      assert Chunks(s, n) == [s];
      assert BatchPredictions(net, [s]) == BatchPredictions(net, []) + net(s);
    } else {
      var first, rest := s[..n], Chunks(s[n..], n);
      assert Chunks(s, n) == [first] + rest;
      BatchPredictionsCons(net, first, rest);
      assert |net(first)| == n;
      if k < n {
        DivModUnique(k, n, 0, k);
      } else {
        DivStep(k, n);
        PredictionsAligned(net, s[n..], n, k - n);
        assert Chunks(s, n)[k / n] == rest[k / n - 1];
      }
    }
  }
}
