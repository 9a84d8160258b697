/** Fixed-size batching, as hubdb_sync does it for both purging and creating rows:
    `for i in range(0, n, size): batch = items[i:i + size]`, with the progress log
    announcing `(n + size - 1) // size` batches. */
module Batching {

  function Min(a: int, b: int): (r: int)
  {
    if a <= b then a else b
  }

  /** The batch count hubdb_sync prints: the ceiling of n / size, written as the source writes it. */
  function NumBatches(n: nat, size: nat): (r: nat)
    requires size > 0
  {
    (n + size - 1) / size
  }

  /** Concatenation of a sequence of batches, in order. */
  function Flatten<T>(batches: seq<seq<T>>): (r: seq<T>)
  {
    if |batches| == 0 then [] else batches[0] + Flatten(batches[1..])
  }

  /** Consecutive slices of `size` items; a Python slice past the end is clipped,
      so only the last slice may be shorter: every batch holds 1 to `size` items. */
  function Batches<T>(items: seq<T>, size: nat): (r: seq<seq<T>>)
    requires size > 0
    ensures forall k :: 0 <= k < |r| ==> 0 < |r[k]| <= size
    decreases |items|
  {
    if |items| == 0 then []
    else
      var cut := Min(size, |items|);
      [items[..cut]] + Batches(items[cut..], size)
  }

  /** Concatenating the batches gives back the input exactly, in order. */
  lemma {:induction false} BatchesFlatten<T>(items: seq<T>, size: nat)
    requires size > 0
    ensures Flatten(Batches(items, size)) == items
    decreases |items|
  {
    if |items| > 0 {
      var cut := Min(size, |items|);
      var tail := Batches(items[cut..], size);
      assert Batches(items, size) == [items[..cut]] + tail;
      assert ([items[..cut]] + tail)[1..] == tail;
      BatchesFlatten(items[cut..], size);
    }
  }

  /** Multiplication by a non-negative factor is monotone. */
  lemma MulMonotone(a: int, b: int, d: int)
    requires a <= b && 0 <= d
    ensures a * d <= b * d
  {
    assert b * d - a * d == (b - a) * d;
  }

  /** One more factor adds one more `d`. */
  lemma MulSucc(q: int, d: int)
    ensures (q + 1) * d == q * d + d
    ensures (q - 1) * d == q * d - d
  {
  }

  /** Euclidean division pinned down by bounds on the quotient. */
  lemma DivBetween(x: int, d: int, q: int)
    requires d > 0
    requires q * d <= x < q * d + d
    ensures x / d == q
  {
    var q' := x / d;
    assert x == q' * d + x % d;
    MulSucc(q, d);
    if q' < q {
      MulMonotone(q', q - 1, d);
      assert false;
    }
    if q' > q {
      MulMonotone(q + 1, q', d);
      assert false;
    }
  }

  /** The ceiling division steps down by one when one full batch is taken off. */
  lemma NumBatchesStep(n: nat, size: nat)
    requires size > 0
    ensures n == 0 ==> NumBatches(n, size) == 0
    ensures 0 < n <= size ==> NumBatches(n, size) == 1
    ensures n > size ==> NumBatches(n, size) == NumBatches(n - size, size) + 1
  {
    if n == 0 {
      DivBetween(size - 1, size, 0);
    } else if n <= size {
      DivBetween(n + size - 1, size, 1);
    } else {
      var q := (n - 1) / size;
      assert n - 1 == q * size + (n - 1) % size;
      MulSucc(q, size);
      DivBetween(n + size - 1, size, q + 1);
    }
  }

  /** There are exactly ceil(n / size) batches. */
  lemma {:induction false} BatchCount<T>(items: seq<T>, size: nat)
    requires size > 0
    ensures |Batches(items, size)| == NumBatches(|items|, size)
    decreases |items|
  {
    NumBatchesStep(|items|, size);
    if |items| > size {
      assert Batches(items, size) == [items[..size]] + Batches(items[size..], size);
      BatchCount(items[size..], size);
    }
  }

  /** A slice of a suffix is a shifted slice of the whole. */
  lemma SliceOfSuffix<T>(items: seq<T>, d: nat, lo: nat, hi: nat)
    requires d <= |items| && lo <= hi <= |items| - d
    ensures items[d..][lo..hi] == items[d + lo .. d + hi]
  {
  }

  /** Start of batch k, counted the way `range(0, n, size)` steps: k strides of `size`. */
  function Stride(k: nat, size: nat): (r: nat)
  {
    if k == 0 then 0 else Stride(k - 1, size) + size
  }

  lemma {:induction false} StrideIsProduct(k: nat, size: nat)
    ensures Stride(k, size) == k * size
  {
    if k > 0 {
      StrideIsProduct(k - 1, size);
      MulSucc(k, size);
    }
  }

  lemma {:induction false} BatchAtStride<T>(items: seq<T>, size: nat, k: nat)
    requires size > 0
    requires k < |Batches(items, size)|
    ensures Stride(k, size) < |items|
    ensures Batches(items, size)[k] == items[Stride(k, size) .. Min(Stride(k, size) + size, |items|)]
    decreases k
  {
    if k == 0 {
      assert Stride(k, size) == 0;
      assert Batches(items, size)[0] == items[..Min(size, |items|)];
    } else {
      var rest := items[size..];
      var all, tail := Batches(items, size), Batches(rest, size);
      var lo := Stride(k - 1, size);
      assert Stride(k, size) == lo + size;
      assert all == [items[..size]] + tail;
      assert all[k] == tail[k - 1];
      BatchAtStride(rest, size, k - 1);
      var hi := Min(lo + size, |rest|);
      assert size + hi == Min(Stride(k, size) + size, |items|);
      SliceOfSuffix(items, size, lo, hi);
    }
  }

  /** Batch k is the slice items[k*size .. min((k+1)*size, n)], as `range` plus slicing gives it. */
  lemma BatchAt<T>(items: seq<T>, size: nat, k: nat)
    requires size > 0
    requires k < |Batches(items, size)|
    ensures k * size < |items|
    ensures Batches(items, size)[k] == items[k * size .. Min((k + 1) * size, |items|)]
  {
    BatchAtStride(items, size, k);
    StrideIsProduct(k, size);
    MulSucc(k, size);
  }
}
