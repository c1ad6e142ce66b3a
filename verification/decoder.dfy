/**
 * `decode_fourier`: slice the signal into segments, find for every candidate frequency the nearest
 * spectral bin, keep the three strongest of those bins and classify their frequencies.
 * The FFT magnitude is a parameter `magnitude(segment, k)`, the magnitude of bin k of the segment's spectrum.
 */
module Decoder {
  import opened Wrappers
  import opened SymbolTable
  import opened Segmentation
  import opened Spectrum
  import opened PeakSelection
  import opened Classifier

  /** How many peaks the decoder keeps per segment. */
  const PeaksKept: nat := 3

  /** An enumeration of the candidate set: every table frequency exactly once, in some fixed order. */
  predicate IsCandidateOrder(order: seq<int>) {
    NoDuplicates(order) && (set x | x in order) == AllFrequencies()
  }

  /** The candidates in ascending order: one admissible enumeration. */
  const AscendingCandidates: seq<int> := [100, 300, 500, 1100, 1300, 1500, 2500, 3000, 3500]

  lemma AscendingCandidatesIsAnOrder()
    ensures IsCandidateOrder(AscendingCandidates)
  {
    AscendingCandidatesAreDistinct();
    AscendingCandidatesAreTheBands();
    AllFrequenciesAreTheBands();
  }

  lemma AscendingCandidatesAreDistinct()
    ensures NoDuplicates(AscendingCandidates)
  {
    forall i, j | 0 <= i < j < 9
      ensures AscendingCandidates[i] < AscendingCandidates[j]
    {
    }
  }

  lemma AscendingCandidatesAreTheBands()
    ensures (set x | x in AscendingCandidates) == BandFrequencies
  {
    assert forall x :: x in AscendingCandidates <==> x in BandFrequencies;
  }

  /** Every candidate order lists the nine band frequencies. */
  lemma CandidateOrderIsTheBands(order: seq<int>)
    requires IsCandidateOrder(order)
    ensures |order| == 9
    ensures forall x :: x in order <==> x in BandFrequencies
  {
    AllFrequenciesAreTheBands();
    assert forall x :: x in order <==> x in (set y | y in order);
    DistinctCardinality(order);
  }

  lemma {:induction false} DistinctCardinality(s: seq<int>)
    requires NoDuplicates(s)
    ensures |set x | x in s| == |s|
  {
    if |s| > 0 {
      var rest := s[1..];
      assert NoDuplicates(rest) by {
        forall i, j | 0 <= i < j < |rest|
          ensures rest[i] != rest[j]
        {
          assert rest[i] == s[i + 1] && rest[j] == s[j + 1];
        }
      }
      DistinctCardinality(rest);
      assert (set x | x in s) == {s[0]} + (set x | x in rest);
      assert s[0] !in (set x | x in rest) by {
        assert forall j :: 0 <= j < |rest| ==> rest[j] == s[j + 1];
      }
    }
  }

  /** `p` is the (bin frequency, magnitude) pair of a first nearest bin to the target. */
  ghost predicate IsNearestPeak(segment: seq<real>, sampleRate: int, target: real, magnitude: (seq<real>, int) -> real, p: Peak) {
    exists k: nat :: IsNearestBin(|segment|, sampleRate, target, k) &&
      p == Peak(BinFrequency(|segment|, sampleRate, k), magnitude(segment, k))
  }

  /** `(freqs[index], freq_magnitudes[index])` for `index = np.argmin(np.abs(freqs - target))`. */
  function NearestPeak(segment: seq<real>, sampleRate: int, target: real, magnitude: (seq<real>, int) -> real): (p: Peak)
    requires |segment| > 0
    ensures IsNearestPeak(segment, sampleRate, target, magnitude, p)
  {
    var k := NearestBin(|segment|, sampleRate, target);
    Peak(BinFrequency(|segment|, sampleRate, k), magnitude(segment, k))
  }

  /** One (bin frequency, magnitude) pair per candidate, in candidate order, from the candidate's nearest bin. */
  function CandidatePeaks(segment: seq<real>, sampleRate: int, order: seq<int>, magnitude: (seq<real>, int) -> real): (ps: seq<Peak>)
    requires |segment| > 0
    ensures |ps| == |order|
    ensures forall j :: 0 <= j < |order| ==> IsNearestPeak(segment, sampleRate, order[j] as real, magnitude, ps[j])
  {
    seq(|order|, j requires 0 <= j < |order| => NearestPeak(segment, sampleRate, order[j] as real, magnitude))
  }

  /** The symbol decoded from one segment: always a table key or `?`. */
  function DecodeSegment(segment: seq<real>, sampleRate: int, order: seq<int>, magnitude: (seq<real>, int) -> real): (c: char)
    requires |segment| > 0
    ensures c == Unknown || IsSymbol(c)
  {
    Classify(TopFrequencies(CandidatePeaks(segment, sampleRate, order, magnitude), PeaksKept))
  }

  /** The symbols of the segments `signal[i:i + segmentLength]` for i in `range(0, len(signal), segmentLength)`. */
  function DecodeSegments(signal: seq<real>, sampleRate: int, segmentLength: nat, order: seq<int>,
                          magnitude: (seq<real>, int) -> real): (text: string)
    requires segmentLength > 0
    ensures |text| == CeilDiv(|signal|, segmentLength)
    ensures forall k :: 0 <= k < |text| ==>
      text[k] == DecodeSegment(SegmentAt(signal, segmentLength, k), sampleRate, order, magnitude)
    ensures forall k :: 0 <= k < |text| ==> text[k] == Unknown || IsSymbol(text[k])
  {
    var segments := Chunks(signal, segmentLength);
    forall k | 0 <= k < |segments|
      ensures segments[k] == SegmentAt(signal, segmentLength, k)
    {
      ChunkAt(signal, segmentLength, k);
    }
    seq(|segments|, k requires 0 <= k < |segments| => DecodeSegment(segments[k], sampleRate, order, magnitude))
  }

  /**
   * `decode_fourier(signal, sample_rate, duration)` with `segmentLength` standing for
   * `int(duration * sample_rate)`: one symbol per segment, in segment order.
   */
  function DecodeFourier(signal: seq<real>, sampleRate: int, segmentLength: int, order: seq<int>,
                         magnitude: (seq<real>, int) -> real): (r: Result<string, CodecError>)
    ensures segmentLength == 0 ==> r == Err(ZeroSegmentLength)
    ensures segmentLength < 0 || (segmentLength > 0 && |signal| == 0) ==> r == Ok("")
    ensures segmentLength > 0 && |signal| > 0 && sampleRate == 0 ==> r == Err(ZeroSampleRate)
    ensures segmentLength > 0 && sampleRate != 0 ==> r.Ok?
    ensures r.Ok? ==> forall k :: 0 <= k < |r.value| ==> r.value[k] == Unknown || IsSymbol(r.value[k])
    ensures r.Ok? && segmentLength > 0 ==> |r.value| == CeilDiv(|signal|, segmentLength)
    ensures r.Ok? && segmentLength > 0 ==> forall k :: 0 <= k < |r.value| ==>
      r.value[k] == DecodeSegment(SegmentAt(signal, segmentLength, k), sampleRate, order, magnitude)
  {
    if segmentLength == 0 then Err(ZeroSegmentLength)
    else if segmentLength < 0 || |signal| == 0 then Ok("")
    else if sampleRate == 0 then Err(ZeroSampleRate)
    else Ok(DecodeSegments(signal, sampleRate, segmentLength, order, magnitude))
  }

  /** A one-sample trailing segment has only the 0 Hz bin; 0 Hz is within 100 Hz of 100 Hz, so it decodes as `a`. */
  lemma OneSampleSegmentDecodesAsA(x: real, sampleRate: int, order: seq<int>, magnitude: (seq<real>, int) -> real)
    requires IsCandidateOrder(order)
    ensures DecodeSegment([x], sampleRate, order, magnitude) == 'a'
  {
    CandidateOrderIsTheBands(order);
    var ps := CandidatePeaks([x], sampleRate, order, magnitude);
    forall j | 0 <= j < |order|
      ensures ps[j].freq == 0.0
    {
      OneSampleSegmentBin(sampleRate, order[j] as real);
    }
    KeptFrequenciesAreZero(ps);
    ZeroHzMatchesA(TopFrequencies(ps, PeaksKept));
  }

  /** When every candidate peak sits at 0 Hz, so do the three kept ones. */
  lemma KeptFrequenciesAreZero(ps: seq<Peak>)
    requires |ps| >= 3
    requires forall j :: 0 <= j < |ps| ==> ps[j].freq == 0.0
    ensures TopFrequencies(ps, PeaksKept) == [0.0, 0.0, 0.0]
  {
    var fs := TopFrequencies(ps, PeaksKept);
    var sorted := SortByMagnitude(ps);
    forall i | 0 <= i < 3
      ensures fs[i] == 0.0
    {
      assert fs[i] == sorted[i].freq;
      assert sorted[i] in multiset(ps);
    }
  }

  /** Three 0 Hz inputs match the first entry, `a` = (100, 1100, 2500), since |100 - 0| <= 100. */
  lemma ZeroHzMatchesA(fs: seq<real>)
    requires fs == [0.0, 0.0, 0.0]
    ensures Classify(fs) == 'a'
  {
    var t := Table[0].freqs;
    assert t == Triplet(100, 1100, 2500);
    assert MatchesTriplet(t, 0.0);
    assert MatchCount(t, [0.0]) == 1;
    assert [0.0, 0.0][1..] == [0.0];
    assert MatchCount(t, [0.0, 0.0]) == 2;
    assert fs[1..] == [0.0, 0.0];
    assert MatchCount(t, fs) == 3;
    var c := Classify(fs);
    assert c != Unknown;
    var j :| 0 <= j < 27 && c == Symbols[j] && FirstMatchAt(fs, j);
    assert j == 0;
  }
}
