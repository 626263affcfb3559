/** Splitting the managed objects of one change set into batches of at most
    `syncBatchSize` objects, so that each remote delta stays under the
    datastore's size ceiling. */
module Batching {

  /** The batches laid end to end. */
  function Flatten<T>(chunks: seq<seq<T>>): seq<T>
  {
    if |chunks| == 0 then [] else chunks[0] + Flatten(chunks[1..])
  }

  /** `chunks` is a split of `xs` into non-empty batches of at most `n`
      items, every batch but the last one full. */
  ghost predicate IsBatching<T>(xs: seq<T>, n: nat, chunks: seq<seq<T>>)
  {
    && Flatten(chunks) == xs
    && (forall i :: 0 <= i < |chunks| ==> 0 < |chunks[i]| <= n)
    && (forall i :: 0 <= i < |chunks| - 1 ==> |chunks[i]| == n)
  }

  /** `xs` cut into consecutive batches of `n` items; the last batch takes
      what is left over. There are ceil(|xs| / n) batches: just enough
      batches of `n` to hold `xs`, and not one more. */
  function Chunk<T>(xs: seq<T>, n: nat): (r: seq<seq<T>>)
    requires n > 0
    ensures Flatten(r) == xs
    ensures forall i :: 0 <= i < |r| ==> 0 < |r[i]| <= n
    ensures forall i :: 0 <= i < |r| - 1 ==> |r[i]| == n
    ensures |xs| <= |r| * n
    ensures |r| == 0 || (|r| - 1) * n < |xs|
    decreases |xs|
  {
    if |xs| == 0 then []
    else if |xs| <= n then [xs]
    else
      var rest := Chunk(xs[n..], n);
      assert ([xs[..n]] + rest)[1..] == rest;
      [xs[..n]] + rest
  }

  /** Batching is determined by the batch size: any split of `xs` into
      non-empty batches of at most `n` items, all but the last full, is
      exactly `Chunk(xs, n)`. */
  lemma {:induction false} ChunkUnique<T>(xs: seq<T>, n: nat, chunks: seq<seq<T>>)
    requires n > 0
    requires IsBatching(xs, n, chunks)
    ensures chunks == Chunk(xs, n)
    decreases |xs|
  {
    if |chunks| == 0 {
      assert xs == [];
    } else if |chunks| == 1 {
      assert Flatten(chunks[1..]) == [];
      assert xs == chunks[0];
    } else {
      var tail := chunks[1..];
      assert |chunks[0]| == n;
      assert xs == chunks[0] + Flatten(tail);
      assert xs[..n] == chunks[0];
      assert xs[n..] == Flatten(tail);
      assert |Flatten(tail)| > 0 by {
        assert |tail[0]| > 0;
        assert Flatten(tail) == tail[0] + Flatten(tail[1..]);
      }
      forall i | 0 <= i < |tail|
        ensures 0 < |tail[i]| <= n
      {
        assert tail[i] == chunks[i + 1];
      }
      forall i | 0 <= i < |tail| - 1
        ensures |tail[i]| == n
      {
        assert tail[i] == chunks[i + 1];
      }
      ChunkUnique(xs[n..], n, tail);
      assert chunks == [chunks[0]] + tail;
    }
  }
}
