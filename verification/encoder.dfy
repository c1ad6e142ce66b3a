/**
 * The encoder: one fixed-length three-tone frame per character, frames concatenated in input order.
 * The cosine itself is a parameter `cos2pi`, standing for x => cos(2 * pi * x).
 */
module Encoder {
  import opened Wrappers
  import opened SymbolTable
  import opened Segmentation

  const SampleRate: int := 8000
  /** Seconds per character. */
  const Duration: real := 0.04

  /** `int(SAMPLE_RATE * DURATION)`, the number of samples in one frame. */
  function FrameLength(): (n: nat)
    ensures n == 320
  {
    var product := SampleRate as real * Duration;
    assert product == 320.0;
    product.Floor
  }

  /** The instant of sample k on `np.linspace(0, DURATION, n, endpoint=False)`. */
  function SampleTime(k: int): real {
    k as real * (Duration / FrameLength() as real)
  }

  /** The sum of three unit cosines at the triplet's frequencies, at time `t` seconds. */
  function ThreeTone(freqs: Triplet, t: real, cos2pi: real -> real): real {
    cos2pi(freqs.low as real * t) + cos2pi(freqs.mid as real * t) + cos2pi(freqs.high as real * t)
  }

  /** The frame synthesised for a triplet. */
  function Frame(freqs: Triplet, cos2pi: real -> real): (frame: seq<real>)
    ensures |frame| == 320
  {
    seq(FrameLength(), k => ThreeTone(freqs, SampleTime(k), cos2pi))
  }

  /** Sample k of a frame is the three-tone sum at time k / 8000 s: the frame spans [0, 0.04) s on the sampling grid. */
  lemma FrameSamples(freqs: Triplet, cos2pi: real -> real)
    ensures forall k :: 0 <= k < 320 ==> Frame(freqs, cos2pi)[k] == ThreeTone(freqs, k as real / SampleRate as real, cos2pi)
  {
  }

  /** `generate_signal`: the frame of a table key; any other character raises. */
  function GenerateSignal(c: char, cos2pi: real -> real): (r: Result<seq<real>, CodecError>)
    ensures r.Ok? <==> IsSymbol(c)
    ensures r.Err? ==> r.error == UnknownCharacter(c)
    ensures r.Ok? ==> |r.value| == 320
    ensures r.Ok? ==> r.value == Frame(TripletOf(c), cos2pi)
  {
    match Lookup(c)
    case Err(e) => Err(e)
    case Ok(freqs) => Ok(Frame(freqs, cos2pi))
  }

  /** ASCII `str.lower` on one character. */
  function LowerChar(c: char): char {
    if 'A' <= c <= 'Z' then (c as int + 32) as char else c
  }

  /** ASCII `str.lower`, character by character. */
  function Lower(s: string): string {
    seq(|s|, k requires 0 <= k < |s| => LowerChar(s[k]))
  }

  /** The characters `encode_string` accepts: a letter of either case, or the space. */
  predicate IsAccepted(c: char) {
    'a' <= c <= 'z' || 'A' <= c <= 'Z' || c == ' '
  }

  /** A character lower-cases to a table key exactly when it is a letter of either case or the space. */
  lemma LowerCharIsKey(c: char)
    ensures IsSymbol(LowerChar(c)) <==> IsAccepted(c)
  {
    KeysAreLettersAndSpace(LowerChar(c));
  }

  /** True when every character of `s` is a table key. */
  predicate AllSymbols(s: string) {
    forall k :: 0 <= k < |s| ==> IsSymbol(s[k])
  }

  /** The index of the first character of `s` that is not a table key. */
  predicate FirstUnknownAt(s: string, i: nat) {
    i < |s| && !IsSymbol(s[i]) && forall j :: 0 <= j < i ==> IsSymbol(s[j])
  }

  /** `[generate_signal(char) for char in cs]`: raises at the first unknown character. */
  function GenerateAll(cs: string, cos2pi: real -> real): (r: Result<seq<seq<real>>, CodecError>)
    ensures r.Ok? <==> AllSymbols(cs)
    ensures r.Ok? ==> |r.value| == |cs|
    ensures r.Ok? ==> forall k :: 0 <= k < |cs| ==> r.value[k] == Frame(TripletOf(cs[k]), cos2pi)
    ensures r.Err? ==> exists i: nat :: FirstUnknownAt(cs, i) && r.error == UnknownCharacter(cs[i])
  {
    if |cs| == 0 then Ok([])
    else
      match GenerateSignal(cs[0], cos2pi)
      case Err(e) => assert FirstUnknownAt(cs, 0); Err(e)
      case Ok(frame) =>
        match GenerateAll(cs[1..], cos2pi)
        case Err(e) =>
          var i: nat :| FirstUnknownAt(cs[1..], i) && e == UnknownCharacter(cs[1..][i]);
          assert FirstUnknownAt(cs, i + 1);
          Err(e)
        case Ok(frames) => Ok([frame] + frames)
  }

  /** The frames of a string of keys, concatenated: frame k fills samples 320k up to 320(k + 1). */
  lemma FramesLayout(cs: string, frames: seq<seq<real>>, cos2pi: real -> real)
    requires AllSymbols(cs) && |frames| == |cs|
    requires forall k :: 0 <= k < |cs| ==> frames[k] == Frame(TripletOf(cs[k]), cos2pi)
    ensures |Flatten(frames)| == |cs| * 320
    ensures forall k :: 0 <= k < |cs| ==>
      (k + 1) * 320 <= |Flatten(frames)| && Flatten(frames)[k * 320..(k + 1) * 320] == Frame(TripletOf(cs[k]), cos2pi)
  {
    FlattenLength(frames, 320);
    forall k | 0 <= k < |cs|
      ensures (k + 1) * 320 <= |Flatten(frames)| && Flatten(frames)[k * 320..(k + 1) * 320] == frames[k]
    {
      FlattenBlock(frames, 320, k);
    }
  }

  /**
   * `encode_string`: the lower-cased input, one frame per character, concatenated.
   * An unknown character raises; so does the empty string, since nothing is concatenated.
   */
  function EncodeString(s: string, cos2pi: real -> real): (r: Result<seq<real>, CodecError>)
    ensures r.Ok? <==> |s| > 0 && AllSymbols(Lower(s))
    ensures |s| == 0 ==> r == Err(NothingToConcatenate)
    ensures !AllSymbols(Lower(s)) ==>
      exists i: nat :: FirstUnknownAt(Lower(s), i) && r == Err(UnknownCharacter(Lower(s)[i]))
  {
    var lowered := Lower(s);
    var all := GenerateAll(lowered, cos2pi);
    if all.Err? then Err(all.error)
    else if |all.value| == 0 then Err(NothingToConcatenate)
    else Ok(Flatten(all.value))
  }

  /** The encoded signal is the frames of the lower-cased characters, one after another, 320 samples each. */
  lemma EncodedLayout(s: string, cos2pi: real -> real)
    requires |s| > 0 && AllSymbols(Lower(s))
    ensures |EncodeString(s, cos2pi).value| == |s| * 320
    ensures forall k :: 0 <= k < |s| ==>
      (k + 1) * 320 <= |EncodeString(s, cos2pi).value| &&
      EncodeString(s, cos2pi).value[k * 320..(k + 1) * 320] == Frame(TripletOf(Lower(s)[k]), cos2pi)
  {
    var lowered := Lower(s);
    var all := GenerateAll(lowered, cos2pi);
    FramesLayout(lowered, all.value, cos2pi);
  }

  /** `encode_string` succeeds exactly on the non-empty strings of letters, either case, and spaces. */
  lemma EncodeStringAccepts(s: string, cos2pi: real -> real)
    ensures EncodeString(s, cos2pi).Ok? <==> |s| > 0 && forall k :: 0 <= k < |s| ==> IsAccepted(s[k])
  {
    forall k | 0 <= k < |s|
      ensures IsSymbol(Lower(s)[k]) <==> IsAccepted(s[k])
    {
      LowerCharIsKey(s[k]);
    }
  }
}
