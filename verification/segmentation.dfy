/** Concatenation of frames and the decoder's slicing of a signal into fixed-length chunks. */
module Segmentation {

  function Min(a: int, b: int): int {
    if a <= b then a else b
  }

  /** `np.concatenate`: the sequences one after another, in order. */
  function Flatten<T>(xss: seq<seq<T>>): seq<T> {
    if |xss| == 0 then [] else xss[0] + Flatten(xss[1..])
  }

  /** ceil(n / step) for a positive step. */
  function CeilDiv(n: nat, step: nat): nat
    requires step > 0
  {
    (n + step - 1) / step
  }

  lemma CeilDivBounds(n: nat, step: nat)
    requires step > 0
    ensures CeilDiv(n, step) * step >= n
    ensures CeilDiv(n, step) > 0 ==> (CeilDiv(n, step) - 1) * step < n
    ensures n > 0 ==> CeilDiv(n, step) > 0
  {
    var m := n + step - 1;
    var c := m / step;
    assert m == c * step + m % step;
    assert (c - 1) * step == c * step - step;
  }

  /** Division is determined by a quotient and remainder in range. */
  lemma DivUnique(m: int, step: nat, q: int, r: int)
    requires step > 0 && 0 <= r < step && m == q * step + r
    ensures m / step == q && m % step == r
  {
    var q0 := m / step;
    var r0 := m % step;
    var d := q0 - q;
    assert d * step == q0 * step - q * step;
    assert d * step == r - r0;
    if d >= 1 {
      AtLeastOneMultiple(d, step);
    } else if d <= -1 {
      AtLeastOneMultiple(-d, step);
    }
  }

  lemma AtLeastOneMultiple(d: int, step: nat)
    requires d >= 1
    ensures d * step >= step
  {
    assert d * step == (d - 1) * step + step;
  }

  lemma MulMonotone(a: int, b: int, step: nat)
    requires a <= b
    ensures a * step <= b * step
  {
    assert b * step - a * step == (b - a) * step;
  }

  lemma CeilDivStep(n: nat, step: nat)
    requires step > 0 && n >= step
    ensures CeilDiv(n - step, step) + 1 == CeilDiv(n, step)
  {
    var m := n + step - 1;
    var q := m / step;
    var r := m % step;
    assert m == q * step + r;
    DivUnique(m - step, step, q - 1, r);
  }

  /** The start offsets produced by `range(0, n, step)` for a positive step. */
  function RangeStarts(n: nat, step: nat): (starts: seq<nat>)
    requires step > 0
    ensures |starts| == CeilDiv(n, step)
  {
    seq(CeilDiv(n, step), k => k * step)
  }

  /** `range(0, n, step)` enumerates, in increasing order, exactly the multiples of the step below n. */
  lemma RangeStartsAreMultiples(n: nat, step: nat)
    requires step > 0
    ensures forall i: int :: i in RangeStarts(n, step) <==> 0 <= i < n && i % step == 0
    ensures forall a, b :: 0 <= a < b < |RangeStarts(n, step)| ==> RangeStarts(n, step)[a] < RangeStarts(n, step)[b]
  {
    var starts := RangeStarts(n, step);
    forall i: int | i in starts
      ensures 0 <= i < n && i % step == 0
    {
      var k :| 0 <= k < |starts| && starts[k] == i;
      StartIsMultiple(n, step, k);
    }
    forall i: int | 0 <= i < n && i % step == 0
      ensures i in starts
    {
      MultipleIsStart(n, step, i);
    }
    forall a, b | 0 <= a < b < |starts|
      ensures starts[a] < starts[b]
    {
      AtLeastOneMultiple(b - a, step);
      assert b * step - a * step == (b - a) * step;
    }
  }

  lemma StartIsMultiple(n: nat, step: nat, k: nat)
    requires step > 0 && k < CeilDiv(n, step)
    ensures k * step < n && (k * step) % step == 0
  {
    CeilDivBounds(n, step);
    MulMonotone(k, CeilDiv(n, step) - 1, step);
    DivUnique(k * step, step, k, 0);
  }

  lemma MultipleIsStart(n: nat, step: nat, i: nat)
    requires step > 0 && i < n && i % step == 0
    ensures i / step < CeilDiv(n, step) && RangeStarts(n, step)[i / step] == i
  {
    var k := i / step;
    var c := CeilDiv(n, step);
    assert i == k * step + i % step;
    CeilDivBounds(n, step);
    if k >= c {
      MulMonotone(c, k, step);
    }
  }

  /** Python's slice `xs[i:j]` for 0 <= i <= len(xs) and j >= i: it stops at the end of `xs` when j is past it. */
  function Slice<T>(xs: seq<T>, i: nat, j: nat): (s: seq<T>)
    requires i <= |xs| && i <= j
    ensures |s| == Min(j, |xs|) - i
  {
    xs[i..Min(j, |xs|)]
  }

  /** `[signal[i:i + step] for i in range(0, len(signal), step)]`. */
  function Chunks<T>(xs: seq<T>, step: nat): (cs: seq<seq<T>>)
    requires step > 0
    ensures |cs| == CeilDiv(|xs|, step)
  {
    var starts := RangeStarts(|xs|, step);
    CeilDivBounds(|xs|, step);
    seq(|starts|, k requires 0 <= k < |starts| => (StartIsMultiple(|xs|, step, k); Slice(xs, starts[k], starts[k] + step)))
  }

  /** `xs[k * step:(k + 1) * step]`: the k-th slice of the signal, cut short at its end. */
  function SegmentAt<T>(xs: seq<T>, step: nat, k: nat): (seg: seq<T>)
    requires step > 0 && k < CeilDiv(|xs|, step)
    ensures |seg| > 0
  {
    StartIsMultiple(|xs|, step, k);
    xs[k * step..Min((k + 1) * step, |xs|)]
  }

  /** Chunk k starts at sample k * step and ends at (k + 1) * step or at the end of the signal. */
  lemma ChunkAt<T>(xs: seq<T>, step: nat, k: nat)
    requires step > 0 && k < CeilDiv(|xs|, step)
    ensures Chunks(xs, step)[k] == SegmentAt(xs, step, k)
  {
    StartIsMultiple(|xs|, step, k);
    assert (k + 1) * step == k * step + step;
  }

  /** Every chunk but the last is full; the last holds the remaining samples and is never empty. */
  lemma ChunkShape<T>(xs: seq<T>, step: nat)
    requires step > 0
    ensures |xs| == 0 <==> |Chunks(xs, step)| == 0
    ensures forall k :: 0 <= k < |Chunks(xs, step)| - 1 ==> |Chunks(xs, step)[k]| == step
    ensures |xs| > 0 ==> |Chunks(xs, step)[|Chunks(xs, step)| - 1]| == |xs| - (|Chunks(xs, step)| - 1) * step > 0
    ensures |xs| > 0 && |xs| % step == 0 ==> |Chunks(xs, step)[|Chunks(xs, step)| - 1]| == step
    ensures |xs| % step != 0 ==> |Chunks(xs, step)[|Chunks(xs, step)| - 1]| == |xs| % step
  {
    var cs := Chunks(xs, step);
    CeilDivBounds(|xs|, step);
    forall k | 0 <= k < |cs| - 1
      ensures |cs[k]| == step
    {
      FullChunk(xs, step, k);
    }
    if |xs| > 0 {
      LastChunk(xs, step);
    }
  }

  lemma FullChunk<T>(xs: seq<T>, step: nat, k: nat)
    requires step > 0 && k + 1 < CeilDiv(|xs|, step)
    ensures |Chunks(xs, step)[k]| == step
  {
    CeilDivBounds(|xs|, step);
    var c := CeilDiv(|xs|, step);
    MulMonotone(k + 1, c - 1, step);
    assert (k + 1) * step == k * step + step;
  }

  lemma LastChunk<T>(xs: seq<T>, step: nat)
    requires step > 0 && |xs| > 0
    ensures CeilDiv(|xs|, step) > 0
    ensures |Chunks(xs, step)[CeilDiv(|xs|, step) - 1]| == |xs| - (CeilDiv(|xs|, step) - 1) * step > 0
    ensures |xs| % step == 0 ==> |xs| - (CeilDiv(|xs|, step) - 1) * step == step
    ensures |xs| % step != 0 ==> |xs| - (CeilDiv(|xs|, step) - 1) * step == |xs| % step
  {
    var c := CeilDiv(|xs|, step);
    CeilDivBounds(|xs|, step);
    ChunkAt(xs, step, c - 1);
    assert (c - 1) * step + step == c * step;
    LastChunkRemainder(|xs|, step);
  }

  lemma LastChunkRemainder(n: nat, step: nat)
    requires step > 0 && n > 0
    ensures CeilDiv(n, step) > 0
    ensures n % step == 0 ==> n - (CeilDiv(n, step) - 1) * step == step
    ensures n % step != 0 ==> n - (CeilDiv(n, step) - 1) * step == n % step
  {
    var q := n / step;
    var r := n % step;
    assert n == q * step + r;
    if r == 0 {
      DivUnique(n + step - 1, step, q, step - 1);
      assert (q - 1) * step == q * step - step;
    } else {
      assert n + step - 1 == (q + 1) * step + (r - 1);
      DivUnique(n + step - 1, step, q + 1, r - 1);
    }
  }

  /** Past the first full chunk, the chunks are the first chunk followed by the chunks of the rest. */
  lemma ChunksUnfold<T>(xs: seq<T>, step: nat)
    requires step > 0 && |xs| > step
    ensures Chunks(xs, step) == [xs[..step]] + Chunks(xs[step..], step)
  {
    var cs := Chunks(xs, step);
    var rest := Chunks(xs[step..], step);
    CeilDivStep(|xs|, step);
    assert |cs| == |rest| + 1;
    forall k | 1 <= k < |cs|
      ensures cs[k] == rest[k - 1]
    {
      assert (k - 1) * step + step == k * step;
    }
  }

  /** Concatenating the chunks gives back the signal: no sample is lost, repeated or moved. */
  lemma {:induction false} ChunksFlatten<T>(xs: seq<T>, step: nat)
    requires step > 0
    ensures Flatten(Chunks(xs, step)) == xs
    decreases |xs|
  {
    if |xs| == 0 {
    } else if |xs| <= step {
      var cs := Chunks(xs, step);
      assert CeilDiv(|xs|, step) == 1 by {
        assert |xs| + step - 1 == step + (|xs| - 1);
      }
      assert cs[0] == xs;
      assert Flatten(cs) == cs[0] + Flatten(cs[1..]);
    } else {
      ChunksUnfold(xs, step);
      ChunksFlatten(xs[step..], step);
      var cs := Chunks(xs, step);
      assert cs[1..] == Chunks(xs[step..], step);
      assert xs == xs[..step] + xs[step..];
    }
  }

  /** The length of a concatenation of equal-length frames. */
  lemma {:induction false} FlattenLength<T>(xss: seq<seq<T>>, step: nat)
    requires forall k :: 0 <= k < |xss| ==> |xss[k]| == step
    ensures |Flatten(xss)| == |xss| * step
  {
    if |xss| > 0 {
      FlattenLength(xss[1..], step);
      assert (|xss| - 1) * step + step == |xss| * step;
    }
  }

  /** Slicing a concatenation of full-length frames at the frame length recovers the frames. */
  lemma {:induction false} ChunksOfFlatten<T>(xss: seq<seq<T>>, step: nat)
    requires step > 0
    requires forall k :: 0 <= k < |xss| ==> |xss[k]| == step
    ensures Chunks(Flatten(xss), step) == xss
  {
    if |xss| == 1 {
      assert Flatten(xss) == xss[0] + Flatten(xss[1..]);
      OneChunk(xss[0], step);
    } else if |xss| > 1 {
      var rest := Flatten(xss[1..]);
      assert Flatten(xss) == xss[0] + rest;
      assert rest == xss[1] + Flatten(xss[2..]);
      ChunksOfFrameThenRest(xss[0], rest, step);
      ChunksOfFlatten(xss[1..], step);
      assert xss == [xss[0]] + xss[1..];
    }
  }

  lemma OneChunk<T>(xs: seq<T>, step: nat)
    requires step > 0 && |xs| == step
    ensures Chunks(xs, step) == [xs]
  {
    DivUnique(|xs| + step - 1, step, 1, step - 1);
    ChunkAt(xs, step, 0);
    assert SegmentAt(xs, step, 0) == xs[0..step];
    assert Chunks(xs, step)[0] == xs;
  }

  lemma ChunksOfFrameThenRest<T>(first: seq<T>, rest: seq<T>, step: nat)
    requires step > 0 && |first| == step && |rest| > 0
    ensures Chunks(first + rest, step) == [first] + Chunks(rest, step)
  {
    var xs := first + rest;
    ChunksUnfold(xs, step);
    assert xs[..step] == first;
    assert xs[step..] == rest;
  }

  /** Frame k of a concatenation of equal-length frames occupies samples k*step up to (k+1)*step. */
  lemma FlattenBlock<T>(xss: seq<seq<T>>, step: nat, k: nat)
    requires step > 0 && k < |xss|
    requires forall j :: 0 <= j < |xss| ==> |xss[j]| == step
    ensures |Flatten(xss)| == |xss| * step
    ensures (k + 1) * step <= |Flatten(xss)|
    ensures Flatten(xss)[k * step..(k + 1) * step] == xss[k]
  {
    FlattenLength(xss, step);
    ChunksOfFlatten(xss, step);
    var xs := Flatten(xss);
    MulMonotone(k + 1, |xss|, step);
    ChunkAt(xs, step, k);
  }
}
