/**
 * Encoding followed by decoding, at 8000 Hz with 320-sample frames, returns the lower-cased text,
 * provided the spectrum of every key's frame is strongest at that key's three tones.
 */
module RoundTrip {
  import opened Wrappers
  import opened SymbolTable
  import opened Segmentation
  import opened Spectrum
  import opened PeakSelection
  import opened Classifier
  import opened Encoder
  import opened Decoder

  /**
   * The spectrum of a 320-sample segment at 8000 Hz is resolved for triplet t when the bins of t's
   * three tones (bin x / 25 for frequency x) are each stronger than the bin of every other band frequency.
   */
  predicate Resolves(magnitude: (seq<real>, int) -> real, segment: seq<real>, t: Triplet) {
    forall x, y :: x in Components(t) && y in BandFrequencies - Components(t) ==>
      magnitude(segment, x / 25) > magnitude(segment, y / 25)
  }

  /** Every band frequency is a positive multiple of 25 Hz below 4000 Hz, so it is an exact bin of a frame. */
  lemma BandIsExactBin(x: int)
    requires x in BandFrequencies
    ensures 0 < x < 4000 && x % 25 == 0
  {
  }

  /** The candidate peaks of a 320-sample segment at 8000 Hz sit exactly on the candidate frequencies. */
  lemma FramePeaksAreExact(segment: seq<real>, order: seq<int>, magnitude: (seq<real>, int) -> real)
    requires |segment| == 320 && IsCandidateOrder(order)
    ensures forall j :: 0 <= j < |order| ==>
      CandidatePeaks(segment, SampleRate, order, magnitude)[j] == Peak(order[j] as real, magnitude(segment, order[j] / 25))
  {
    CandidateOrderIsTheBands(order);
    var ps := CandidatePeaks(segment, SampleRate, order, magnitude);
    forall j | 0 <= j < |order|
      ensures ps[j] == Peak(order[j] as real, magnitude(segment, order[j] / 25))
    {
      BandIsExactBin(order[j]);
      NearestBinIsExact(order[j]);
      var k: nat :| IsNearestBin(320, SampleRate, order[j] as real, k) &&
        ps[j] == Peak(BinFrequency(320, SampleRate, k), magnitude(segment, k));
      NearestBinIsUnique(320, SampleRate, order[j] as real, k);
    }
  }

  /** Every peak of a reordering of the candidate peaks is the peak of some candidate. */
  lemma SortedPeakIsCandidate(ps: seq<Peak>, sorted: seq<Peak>, q: nat)
    requires multiset(sorted) == multiset(ps) && q < |sorted|
    ensures exists j :: 0 <= j < |ps| && sorted[q] == ps[j]
  {
    assert sorted[q] in multiset(ps);
  }

  /** Every candidate peak occurs in a reordering of the candidate peaks. */
  lemma CandidateIsSorted(ps: seq<Peak>, sorted: seq<Peak>, j: nat)
    requires multiset(sorted) == multiset(ps) && j < |ps|
    ensures exists q :: 0 <= q < |sorted| && sorted[q] == ps[j]
  {
    assert ps[j] in multiset(sorted);
  }

  /** The exact candidate peaks of a frame: the peak of candidate x sits at frequency x with magnitude mags(x). */
  predicate ExactPeaks(ps: seq<Peak>, order: seq<int>, mags: int -> real) {
    |ps| == |order| && forall j :: 0 <= j < |order| ==> ps[j] == Peak(order[j] as real, mags(order[j]))
  }

  /** Each tone of the triplet is stronger than each other candidate. */
  predicate Dominates(t: Triplet, mags: int -> real) {
    forall x, y :: x in Components(t) && y in BandFrequencies - Components(t) ==> mags(x) > mags(y)
  }

  /** In a magnitude-sorted reordering, the peak at each of the first three places is one of the triplet's tones. */
  lemma TopPlaceIsATone(t: Triplet, ps: seq<Peak>, sorted: seq<Peak>, order: seq<int>, mags: int -> real, p: nat)
    requires IsCandidateOrder(order) && Components(t) <= BandFrequencies
    requires t.low != t.mid && t.mid != t.high && t.low != t.high
    requires ExactPeaks(ps, order, mags) && Dominates(t, mags)
    requires multiset(sorted) == multiset(ps) && SortedByMagnitude(sorted)
    requires p < 3 && p < |sorted|
    ensures sorted[p].freq in {t.low as real, t.mid as real, t.high as real}
  {
    CandidateOrderIsTheBands(order);
    SortedPeakIsCandidate(ps, sorted, p);
    var j :| 0 <= j < |ps| && sorted[p] == ps[j];
    var y := order[j];
    assert sorted[p].freq == y as real && sorted[p].mag == mags(y);
    if y !in Components(t) {
      assert y in BandFrequencies - Components(t);
      assert mags(t.low) > mags(y) && mags(t.mid) > mags(y) && mags(t.high) > mags(y);
      var ql := ToneRanksAbove(t.low, y, ps, sorted, order, mags, p);
      var qm := ToneRanksAbove(t.mid, y, ps, sorted, order, mags, p);
      var qh := ToneRanksAbove(t.high, y, ps, sorted, order, mags, p);
      ThreeDistinctPlacesBelow(ql, qm, qh, p);
    }
  }

  lemma ThreeDistinctPlacesBelow(a: nat, b: nat, c: nat, p: nat)
    requires a < p && b < p && c < p && a != b && b != c && a != c
    ensures p >= 3
  {
  }

  /** A tone stronger than the peak at place p sits at an earlier place, with its own frequency. */
  lemma ToneRanksAbove(x: int, y: int, ps: seq<Peak>, sorted: seq<Peak>, order: seq<int>, mags: int -> real, p: nat)
    returns (q: nat)
    requires x in order && ExactPeaks(ps, order, mags)
    requires multiset(sorted) == multiset(ps) && SortedByMagnitude(sorted)
    requires p < |sorted| && sorted[p].mag == mags(y) && mags(x) > mags(y)
    ensures q < p && sorted[q].freq == x as real
  {
    var j :| 0 <= j < |order| && order[j] == x;
    CandidateIsSorted(ps, sorted, j);
    q :| 0 <= q < |sorted| && sorted[q] == ps[j];
  }

  /** The three kept frequencies of a resolved frame are its triplet's tones, each once. */
  lemma KeptTonesOfResolvedFrame(t: Triplet, ps: seq<Peak>, order: seq<int>, mags: int -> real)
    requires IsCandidateOrder(order) && Components(t) <= BandFrequencies
    requires t.low != t.mid && t.mid != t.high && t.low != t.high
    requires ExactPeaks(ps, order, mags) && Dominates(t, mags)
    ensures |TopFrequencies(ps, PeaksKept)| == 3
    ensures forall p :: 0 <= p < 3 ==> TopFrequencies(ps, PeaksKept)[p] in {t.low as real, t.mid as real, t.high as real}
    ensures NoDuplicates(TopFrequencies(ps, PeaksKept))
  {
    CandidateOrderIsTheBands(order);
    var sorted := SortByMagnitude(ps);
    var fs := TopFrequencies(ps, PeaksKept);
    assert |fs| == 3;
    assert forall p :: 0 <= p < 3 ==> fs[p] == sorted[p].freq;
    forall p | 0 <= p < 3
      ensures fs[p] in {t.low as real, t.mid as real, t.high as real}
    {
      TopPlaceIsATone(t, ps, sorted, order, mags, p);
    }
    ExactPeaksAreDistinct(ps, order, mags);
    PermutationKeepsNoDuplicates(ps, sorted);
    forall a, b | 0 <= a < b < 3
      ensures fs[a] != fs[b]
    {
      SortedFrequenciesDiffer(ps, sorted, order, mags, a, b);
    }
  }

  lemma ExactPeaksAreDistinct(ps: seq<Peak>, order: seq<int>, mags: int -> real)
    requires IsCandidateOrder(order) && ExactPeaks(ps, order, mags)
    ensures NoDuplicates(ps)
  {
    forall a, b | 0 <= a < b < |ps|
      ensures ps[a] != ps[b]
    {
      assert order[a] != order[b];
    }
  }

  /** Two places of the sorted exact peaks hold different candidates, hence different frequencies. */
  lemma SortedFrequenciesDiffer(ps: seq<Peak>, sorted: seq<Peak>, order: seq<int>, mags: int -> real, a: nat, b: nat)
    requires IsCandidateOrder(order) && ExactPeaks(ps, order, mags)
    requires sorted == SortByMagnitude(ps) && NoDuplicates(sorted)
    requires a < b < |sorted|
    ensures sorted[a].freq != sorted[b].freq
  {
    SortedPeakIsCandidate(ps, sorted, a);
    SortedPeakIsCandidate(ps, sorted, b);
    var ja :| 0 <= ja < |ps| && sorted[a] == ps[ja];
    var jb :| 0 <= jb < |ps| && sorted[b] == ps[jb];
    assert ja != jb;
    assert order[ja] != order[jb];
  }

  /** A 320-sample segment at 8000 Hz whose spectrum is resolved for key i decodes as key i. */
  lemma DecodesResolvedSegment(i: nat, segment: seq<real>, order: seq<int>, magnitude: (seq<real>, int) -> real)
    requires i < 27 && |segment| == 320
    requires IsCandidateOrder(order)
    requires Resolves(magnitude, segment, Table[i].freqs)
    ensures DecodeSegment(segment, SampleRate, order, magnitude) == Symbols[i]
  {
    var t := Table[i].freqs;
    TripletInBands(i);
    assert Components(t) <= BandFrequencies;
    var ps := CandidatePeaks(segment, SampleRate, order, magnitude);
    FramePeaksAreExact(segment, order, magnitude);
    var mags := (x: int) => magnitude(segment, x / 25);
    assert ExactPeaks(ps, order, mags);
    KeptTonesOfResolvedFrame(t, ps, order, mags);
    var fs := TopFrequencies(ps, PeaksKept);
    ClassifiesTripletInAnyOrder(i, fs);
  }

  /** The spectrum of every key's own frame is resolved for that key. */
  predicate KeyFramesResolve(cos2pi: real -> real, magnitude: (seq<real>, int) -> real) {
    forall i :: 0 <= i < 27 ==> Resolves(magnitude, Frame(Table[i].freqs, cos2pi), Table[i].freqs)
  }

  /** The decoded text of an encoded string is the lower-cased string. */
  lemma EncodeThenDecode(s: string, cos2pi: real -> real, order: seq<int>, magnitude: (seq<real>, int) -> real)
    requires |s| > 0 && AllSymbols(Lower(s))
    requires IsCandidateOrder(order)
    requires KeyFramesResolve(cos2pi, magnitude)
    ensures DecodeFourier(EncodeString(s, cos2pi).value, SampleRate, FrameLength(), order, magnitude) == Ok(Lower(s))
  {
    var signal := EncodeString(s, cos2pi).value;
    var r := DecodeFourier(signal, SampleRate, 320, order, magnitude);
    assert r.Ok?;
    var text := r.value;
    EncodedLayout(s, cos2pi);
    assert |text| == |s| by {
      DivUnique(|s| * 320 + 319, 320, |s|, 319);
    }
    forall k | 0 <= k < |s|
      ensures text[k] == Lower(s)[k]
    {
      DecodesEncodedBlock(s, cos2pi, order, magnitude, k);
      assert Min((k + 1) * 320, |signal|) == (k + 1) * 320;
      assert SegmentAt(signal, 320, k) == signal[k * 320..(k + 1) * 320];
    }
    assert text == Lower(s);
  }

  /** Block k of an encoded string decodes as its k-th lower-cased character. */
  lemma DecodesEncodedBlock(s: string, cos2pi: real -> real, order: seq<int>, magnitude: (seq<real>, int) -> real, k: nat)
    requires |s| > 0 && AllSymbols(Lower(s)) && k < |s|
    requires IsCandidateOrder(order)
    requires KeyFramesResolve(cos2pi, magnitude)
    ensures (k + 1) * 320 <= |EncodeString(s, cos2pi).value|
    ensures DecodeSegment(EncodeString(s, cos2pi).value[k * 320..(k + 1) * 320], SampleRate, order, magnitude) == Lower(s)[k]
  {
    var signal := EncodeString(s, cos2pi).value;
    var c := Lower(s)[k];
    EncodedLayout(s, cos2pi);
    var segment := signal[k * 320..(k + 1) * 320];
    assert segment == Frame(TripletOf(c), cos2pi);
    var i :| 0 <= i < 27 && Symbols[i] == c;
    LookupFindsEntry(i);
    assert Table[i].freqs == TripletOf(c) by {
      TableIsPositionalCode();
    }
    DecodesResolvedSegment(i, segment, order, magnitude);
  }
}
