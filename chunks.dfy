/**
 * Spacing tests and the greedy chunk scan of the calculator
 * (apps/calculator/utils/integration_methods.py, the `while i < self.n` loops of
 * the two Simpson rules). Widths are `np.diff(x)`; NaN and infinities are not
 * modelled, so numpy's closeness tests are stated exactly over the reals.
 */
module Chunks {

  /** numpy's default relative tolerance (also used by the chunk scan). */
  const RTOL: real := 0.00001
  /** np.allclose's default absolute tolerance. */
  const ALLCLOSE_ATOL: real := 0.00000001
  /** The absolute tolerance the chunk scan passes to np.isclose. */
  const CHUNK_ATOL: real := 0.0000000001

  function Abs(r: real): real
  {
    if r < 0.0 then -r else r
  }

  /** np.isclose(a, b, atol=atol): |a - b| <= atol + RTOL·|b| (the reference is b). */
  predicate IsClose(a: real, b: real, atol: real)
  {
    Abs(a - b) <= atol + RTOL * Abs(b)
  }

  /**
   * np.allclose(w, ref): the test the rules use to call the spacing uniform,
   * written from the last width back; AllCloseEvery gives the pointwise form.
   */
  predicate AllClose(w: seq<real>, ref: real)
    decreases |w|
  {
    |w| == 0 || (AllClose(w[..|w| - 1], ref) && IsClose(w[|w| - 1], ref, ALLCLOSE_ATOL))
  }

  /** AllClose holds exactly when every width is close to ref. */
  lemma {:induction false} AllCloseEvery(w: seq<real>, ref: real)
    ensures AllClose(w, ref) <==> forall i :: 0 <= i < |w| ==> IsClose(w[i], ref, ALLCLOSE_ATOL)
    decreases |w|
  {
    if |w| > 0 {
      var init := w[..|w| - 1];
      AllCloseEvery(init, ref);
      assert forall i :: 0 <= i < |init| ==> init[i] == w[i];
    }
  }

  /** The chunk scan's test: width a still belongs to the chunk whose first width is ref. */
  predicate SameChunk(a: real, ref: real)
  {
    IsClose(a, ref, CHUNK_ATOL)
  }

  /** Continue the inner scan `while j < n and isclose(w[j], w[i])` from j. */
  function ScanEnd(w: seq<real>, i: nat, j: nat): (e: nat)
    requires i < j <= |w|
    requires forall t :: i < t < j ==> SameChunk(w[t], w[i])
    ensures j <= e <= |w|
    ensures forall t :: i < t < e ==> SameChunk(w[t], w[i])
    ensures e < |w| ==> !SameChunk(w[e], w[i])
    decreases |w| - j
  {
    if j < |w| && SameChunk(w[j], w[i]) then ScanEnd(w, i, j + 1) else j
  }

  /**
   * End (exclusive interval index) of the chunk that starts at interval i: the
   * first later width that is not close to w[i], or the end of the data.
   */
  function ChunkEnd(w: seq<real>, i: nat): (j: nat)
    requires i < |w|
    ensures i < j <= |w|
    ensures forall t :: i < t < j ==> SameChunk(w[t], w[i])
    ensures j < |w| ==> !SameChunk(w[j], w[i])
  {
    ScanEnd(w, i, i + 1)
  }

  /** A chunk of intervals [start, end), i.e. of points start..end. */
  datatype Chunk = Chunk(start: nat, end: nat)

  /** The chunks the outer scan visits, starting at interval i. */
  function ChunksFrom(w: seq<real>, i: nat): seq<Chunk>
    requires i <= |w|
    decreases |w| - i
  {
    if i == |w| then [] else [Chunk(i, ChunkEnd(w, i))] + ChunksFrom(w, ChunkEnd(w, i))
  }

  /** cs covers the intervals [lo, hi) contiguously, in order, without overlap, each chunk non-empty. */
  predicate Tiles(cs: seq<Chunk>, lo: nat, hi: nat)
  {
    lo <= hi &&
    (|cs| == 0 <==> lo == hi) &&
    (|cs| > 0 ==> cs[0].start == lo && cs[|cs| - 1].end == hi) &&
    (forall k :: 0 <= k < |cs| ==> cs[k].start < cs[k].end) &&
    (forall k :: 0 <= k < |cs| - 1 ==> cs[k].end == cs[k + 1].start)
  }

  /**
   * Every chunk of cs is a run of w: its widths are all close to its first
   * width, and the width that stops it (if any) is not.
   */
  predicate Runs(w: seq<real>, cs: seq<Chunk>)
  {
    forall k :: 0 <= k < |cs| ==>
      cs[k].start < cs[k].end <= |w| &&
      (forall t :: cs[k].start < t < cs[k].end ==> SameChunk(w[t], w[cs[k].start])) &&
      (cs[k].end < |w| ==> !SameChunk(w[cs[k].end], w[cs[k].start]))
  }

  lemma {:induction false} ChunksTile(w: seq<real>, i: nat)
    requires i <= |w|
    ensures Tiles(ChunksFrom(w, i), i, |w|)
    decreases |w| - i
  {
    if i < |w| {
      var j := ChunkEnd(w, i);
      var rest := ChunksFrom(w, j);
      ChunksTile(w, j);
      var cs := [Chunk(i, j)] + rest;
      assert cs == ChunksFrom(w, i);
      assert forall k :: 1 <= k < |cs| ==> cs[k] == rest[k - 1];
      if |rest| > 0 {
        assert cs[0].end == rest[0].start;
        assert cs[|cs| - 1] == rest[|rest| - 1];
      }
    }
  }

  lemma {:induction false} ChunksRun(w: seq<real>, i: nat)
    requires i <= |w|
    ensures Runs(w, ChunksFrom(w, i))
    decreases |w| - i
  {
    if i < |w| {
      var j := ChunkEnd(w, i);
      var rest := ChunksFrom(w, j);
      ChunksRun(w, j);
      var cs := [Chunk(i, j)] + rest;
      assert cs == ChunksFrom(w, i);
      assert forall k :: 1 <= k < |cs| ==> cs[k] == rest[k - 1];
    }
  }

  /** The scan partitions the intervals [i, n) into runs. */
  lemma ChunksPartition(w: seq<real>, i: nat)
    requires i <= |w|
    ensures Tiles(ChunksFrom(w, i), i, |w|)
    ensures Runs(w, ChunksFrom(w, i))
  {
    ChunksTile(w, i);
    ChunksRun(w, i);
  }

  lemma {:induction false} TilesOrdered(cs: seq<Chunk>, lo: nat, hi: nat, a: nat, b: nat)
    requires Tiles(cs, lo, hi)
    requires a < b < |cs|
    ensures cs[a].end <= cs[b].start
    decreases b - a
  {
    if b > a + 1 {
      TilesOrdered(cs, lo, hi, a, b - 1);
    }
  }

  lemma {:induction false} TilesOwner(cs: seq<Chunk>, lo: nat, hi: nat, t: nat) returns (k: nat)
    requires Tiles(cs, lo, hi)
    requires lo <= t < hi
    ensures k < |cs| && cs[k].start <= t < cs[k].end
    decreases |cs|
  {
    if t < cs[0].end {
      k := 0;
    } else {
      var rest := cs[1..];
      assert Tiles(rest, cs[0].end, hi) by {
        assert forall q :: 0 <= q < |rest| ==> rest[q] == cs[q + 1];
      }
      var q := TilesOwner(rest, cs[0].end, hi, t);
      k := q + 1;
    }
  }

  /** Interval t lies in chunk c. */
  predicate Owns(c: Chunk, t: nat)
  {
    c.start <= t < c.end
  }

  /** Some chunk of cs holds interval t. */
  predicate Covered(cs: seq<Chunk>, t: nat)
  {
    exists k :: 0 <= k < |cs| && Owns(cs[k], t)
  }

  /** Every interval of [lo, hi) lies in exactly one chunk of a tiling. */
  lemma EachIntervalOnce(cs: seq<Chunk>, lo: nat, hi: nat)
    requires Tiles(cs, lo, hi)
    ensures forall t :: lo <= t < hi ==> Covered(cs, t)
    ensures forall t, k1, k2 ::
      0 <= k1 < |cs| && 0 <= k2 < |cs| && Owns(cs[k1], t) && Owns(cs[k2], t) ==> k1 == k2
  {
    forall t | lo <= t < hi
      ensures Covered(cs, t)
    {
      var k := TilesOwner(cs, lo, hi, t);
      assert Owns(cs[k], t);
    }
    forall t, k1, k2 | 0 <= k1 < |cs| && 0 <= k2 < |cs| && Owns(cs[k1], t) && Owns(cs[k2], t)
      ensures k1 == k2
    {
      if k1 < k2 {
        TilesOrdered(cs, lo, hi, k1, k2);
      } else if k2 < k1 {
        TilesOrdered(cs, lo, hi, k2, k1);
      }
    }
  }

  /**
   * The chunk tolerance is tighter than np.allclose's, so whenever the rules
   * take their irregular branch the scan finds at least two chunks.
   */
  lemma IrregularHasSeveralChunks(w: seq<real>)
    requires |w| >= 1
    requires !AllClose(w, w[0])
    ensures |ChunksFrom(w, 0)| >= 2
  {
    AllCloseEvery(w, w[0]);
    var i :| 0 <= i < |w| && !IsClose(w[i], w[0], ALLCLOSE_ATOL);
    assert i > 0 && !SameChunk(w[i], w[0]);
    var j := ChunkEnd(w, 0);
    assert j <= i < |w|;
    assert ChunksFrom(w, 0) == [Chunk(0, j)] + ChunksFrom(w, j);
  }
}
