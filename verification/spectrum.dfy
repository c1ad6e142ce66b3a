/**
 * What the decoder reads off one segment's spectrum: the frequency of each bin (`np.fft.fftfreq`)
 * and, for a target frequency, the first bin nearest to it (`np.argmin`).
 */
module Spectrum {

  function Abs(x: real): (r: real)
    ensures r >= 0.0 && (r == x || r == -x)
  {
    if x < 0.0 then -x else x
  }

  /** The number of non-negative bins `fftfreq` lists first for a segment of n samples. */
  function NonNegativeBins(n: nat): nat {
    (n - 1) / 2 + 1
  }

  /** `np.fft.fftfreq(n, d=1/sample_rate)[k]`: k * rate / n for the first half, (k - n) * rate / n after. */
  function BinFrequency(n: nat, sampleRate: int, k: nat): real
    requires 0 < n && k < n
  {
    var signedIndex := if k < NonNegativeBins(n) then k else k - n;
    signedIndex as real * sampleRate as real / n as real
  }

  /** At 8000 Hz and 320 samples the bins lie 25 Hz apart: bin k is k * 25 Hz below 4000 Hz, negative above. */
  lemma BinsOfAFrame(k: nat)
    requires k < 320
    ensures k < 160 ==> BinFrequency(320, 8000, k) == 25.0 * k as real
    ensures k >= 160 ==> BinFrequency(320, 8000, k) == 25.0 * (k - 320) as real < 0.0
  {
    assert NonNegativeBins(320) == 160;
  }

  /** `np.argmin`: the index of the first smallest element. */
  function ArgMin(ds: seq<real>): (i: nat)
    requires |ds| > 0
    ensures i < |ds|
    ensures forall j :: 0 <= j < |ds| ==> ds[i] <= ds[j]
    ensures forall j :: 0 <= j < i ==> ds[i] < ds[j]
    decreases |ds|
  {
    if |ds| == 1 then 0
    else
      var k := ArgMin(ds[..|ds| - 1]);
      if ds[|ds| - 1] < ds[k] then |ds| - 1 else k
  }

  /**
   * Bin k of an n-sample segment is a first nearest bin to the target: no bin is nearer,
   * and every earlier bin is strictly farther.
   */
  predicate IsNearestBin(n: nat, sampleRate: int, target: real, k: nat) {
    0 < n && k < n &&
    (forall b :: 0 <= b < n ==>
      Abs(BinFrequency(n, sampleRate, k) - target) <= Abs(BinFrequency(n, sampleRate, b) - target)) &&
    (forall b :: 0 <= b < k ==>
      Abs(BinFrequency(n, sampleRate, k) - target) < Abs(BinFrequency(n, sampleRate, b) - target))
  }

  /** `np.argmin(np.abs(freqs - target))`: the first bin whose frequency is nearest the target. */
  function NearestBin(n: nat, sampleRate: int, target: real): (i: nat)
    requires n > 0
    ensures IsNearestBin(n, sampleRate, target, i)
  {
    var distances := seq(n, k requires 0 <= k < n => Abs(BinFrequency(n, sampleRate, k) - target));
    var i := ArgMin(distances);
    assert IsNearestBin(n, sampleRate, target, i) by {
      forall b | 0 <= b < n
        ensures Abs(BinFrequency(n, sampleRate, i) - target) <= Abs(BinFrequency(n, sampleRate, b) - target)
      {
        assert distances[i] <= distances[b];
      }
      forall b | 0 <= b < i
        ensures Abs(BinFrequency(n, sampleRate, i) - target) < Abs(BinFrequency(n, sampleRate, b) - target)
      {
        assert distances[i] < distances[b];
      }
    }
    i
  }

  /** There is only one first nearest bin, so the bin `np.argmin` picks is determined by the criterion alone. */
  lemma NearestBinIsUnique(n: nat, sampleRate: int, target: real, k: nat)
    requires IsNearestBin(n, sampleRate, target, k)
    ensures k == NearestBin(n, sampleRate, target)
  {
    var i := NearestBin(n, sampleRate, target);
  }

  /** In a 320-sample segment at 8000 Hz, a multiple of 25 Hz below 4000 Hz is itself a bin, and that bin is chosen. */
  lemma NearestBinIsExact(f: nat)
    requires f % 25 == 0 && f < 4000
    ensures NearestBin(320, 8000, f as real) == f / 25
    ensures BinFrequency(320, 8000, f / 25) == f as real
  {
    var i := NearestBin(320, 8000, f as real);
    var exact := f / 25;
    BinsOfAFrame(exact);
    assert Abs(BinFrequency(320, 8000, exact) - f as real) == 0.0;
    BinsOfAFrame(i);
  }

  /** In a one-sample segment there is a single bin, at 0 Hz, and it is nearest every target. */
  lemma OneSampleSegmentBin(sampleRate: int, target: real)
    ensures NearestBin(1, sampleRate, target) == 0
    ensures BinFrequency(1, sampleRate, 0) == 0.0
  {
  }
}
