# Three-tone text codec, modelled in Dafny

The program sends text as sound. Each of 27 symbols (`a`–`z` and space) owns a triplet of
frequencies, one from each of three bands:

- low band: 100, 300 or 500 Hz;
- mid band: 1100, 1300 or 1500 Hz;
- high band: 2500, 3000 or 3500 Hz.

**Encoding.** A character becomes a 40 ms frame of 320 samples at 8000 Hz. The frame is the sum
of three cosines at the triplet's frequencies. A string is lower-cased, and the frames of its
characters are concatenated.

**Decoding.** The decoder proceeds as follows:

1. It cuts the signal into segments of `int(duration * sample_rate)` samples.
2. For each of the nine band frequencies, it finds the nearest FFT bin.
3. It sorts those nine (bin frequency, magnitude) pairs by magnitude, strongest first, with a
   stable sort.
4. It keeps the first three and passes their frequencies to the classifier.

**Classifying.** The classifier returns the first symbol, in table order, for which at least
three inputs lie within 100 Hz of one of its tones. If there is none, it returns `?`.

## The modules

- `wrappers.dfy`: the `Result` type, and the codec's error conditions as values.
- `symbol_table.dfy`:
  - the symbol table as a literal;
  - its positional structure (entry i is low band `i / 9`, mid band `(i / 3) % 3`, high band `i % 3`);
  - dictionary lookup;
  - injectivity;
  - the candidate set of nine frequencies.
- `encoder.dfy`:
  - the frame length `int(8000 * 0.04) = 320`;
  - frame synthesis, with the cosine as a parameter;
  - `generate_signal` and `encode_string`, including their error cases.
- `segmentation.dfy`:
  - `np.concatenate`;
  - `range(0, n, step)`;
  - the clamped slices `signal[i:i + step]`, with their count and shape;
  - the fact that slicing a concatenation recovers the frames.
- `spectrum.dfy`:
  - `np.fft.fftfreq`, exactly, as rationals;
  - `np.argmin` as "the first minimum";
  - the nearest bin to a frequency.
- `peak_selection.dfy`:
  - the stable descending sort, as a permutation that is sorted and keeps ties in order;
  - the top-3 cut.
- `classifier.dfy`:
  - `map_frequencies_to_char`;
  - when it recovers a symbol: it recovers the symbol from inputs within less than 100 Hz of
    the symbol's tones, with any extra inputs far from every band.
- `decoder.dfy`: `decode_fourier`, one segment at a time, including its error and empty cases.
- `round_trip.dfy`: encoding followed by decoding returns the lower-cased text. This holds
  provided each key's frame has its spectrum strongest at its own three tones.

The FFT magnitude is a parameter `magnitude(segment, k)`, the magnitude of bin k of the segment.
The order in which the decoder walks the candidate set is a parameter as well. It is any order
that lists each of the nine frequencies once, because Python's set iteration order is not
specified. Every property holds for all such orders.

## Model

| member | source | states |
|---|---|---|
| SymbolTable.TableIsPositionalCode | main.py:13-22 | the table has 27 entries, keyed `a`..`z` then space, and entry i is (low band i/9, mid band (i/3)%3, high band i%3) |
| SymbolTable.TableIsInjective | main.py:13-22 | no two symbols share a triplet, so a triplet identifies its symbol |
| SymbolTable.Lookup | main.py:43-46 | a character has a triplet exactly when it is a key, and that triplet is the key's table entry; any other character gives the unknown-character error |
| SymbolTable.LookupFindsEntry | main.py:43-46 | looking up the i-th symbol yields the i-th entry's triplet |
| SymbolTable.AllFrequenciesAreTheBands | main.py:133 | the set of all triplet components is exactly the nine band frequencies |
| SymbolTable.KeysAreLettersAndSpace | main.py:13-22 | a character is a key exactly when it is a lower-case ASCII letter or the space |
| Encoder.FrameLength | main.py:47 | `int(SAMPLE_RATE * DURATION)` is 320 samples |
| Encoder.FrameSamples | main.py:47-48 | sample k of a frame is the sum of the three cosines at time k/8000 s |
| Encoder.GenerateSignal | main.py:42-49 | a key yields a 320-sample frame of its own triplet; a non-key raises the unknown-character error |
| Encoder.LowerCharIsKey | main.py:120 | a character lower-cases to a key exactly when it is an ASCII letter of either case or the space |
| Encoder.GenerateAll | main.py:120 | one frame per character, in order, when all characters are keys; otherwise the error names the first non-key |
| Encoder.EncodeString | main.py:119-122 | succeeds exactly for non-empty strings whose lower-case form is all keys; the empty string fails in the concatenation; otherwise the first unknown character is reported |
| Encoder.EncodeStringAccepts | main.py:119-122 | `encode_string` succeeds exactly on non-empty strings made only of ASCII letters, of either case, and spaces |
| Encoder.EncodedLayout | main.py:120-121 | the encoded signal is 320 samples per character, and samples 320k..320(k+1) are the frame of the k-th lower-cased character |
| Segmentation.RangeStartsAreMultiples | main.py:135 | `range(0, n, step)` lists, increasingly, exactly the multiples of the step below n |
| Segmentation.Chunks | main.py:135-136 | one segment per start of `range(0, n, step)`: ceil(n/step) segments |
| Segmentation.ChunkShape | main.py:135-136 | there are ceil(n/step) segments, every segment but the last is full, and the last holds the remainder (a full segment when the step divides n) |
| Segmentation.ChunkAt | main.py:135-136 | segment k is the slice from k*step to (k+1)*step, cut short at the end of the signal |
| Segmentation.ChunksFlatten | main.py:135-136 | the segments concatenate back to the signal: slicing loses and duplicates no sample |
| Segmentation.FlattenLength | main.py:121 | `np.concatenate` of m frames of length L has m*L samples |
| Segmentation.FlattenBlock | main.py:121 | in `np.concatenate` of equal-length frames, frame k occupies samples k*L up to (k+1)*L |
| Segmentation.ChunksOfFlatten | main.py:135-136 | slicing a concatenation of step-length frames at the step gives back the frames |
| Spectrum.BinsOfAFrame | main.py:138 | in a 320-sample segment at 8000 Hz, bin k is at 25k Hz below 4000 Hz and negative above |
| Spectrum.ArgMin | main.py:143 | the index returned holds the smallest value, and no earlier index holds a value as small |
| Spectrum.NearestBin | main.py:143 | the chosen bin is no farther from the target than any bin, and strictly nearer than every earlier bin |
| Spectrum.NearestBinIsUnique | main.py:143 | at most one bin is a first nearest bin, so the criterion alone fixes the bin `argmin` picks |
| Spectrum.NearestBinIsExact | main.py:138-143 | in a frame, a multiple of 25 Hz below 4000 Hz is picked out as its own bin |
| PeakSelection.SortByMagnitude | main.py:146 | the sort is a permutation of its input and is non-increasing in magnitude |
| PeakSelection.SortKeepsTiesInOrder | main.py:146 | the sort is stable: peaks of equal magnitude keep their original relative order |
| PeakSelection.TopFrequencies | main.py:147 | `min(3, len)` frequencies are kept, and each is the frequency of one of the candidate pairs |
| PeakSelection.KeptAreStrongest | main.py:146-147 | the kept peaks come from the input, and each is at least as strong as every dropped peak |
| Classifier.MatchCount | main.py:158 | `match_count` never exceeds the number of inputs |
| Classifier.MatchCountIsMatchingInputs | main.py:158 | `match_count` equals the number of input positions that lie within 100 Hz of some tone of the triplet |
| Classifier.ClassifyFrom | main.py:157-162 | scanning from entry i, the result is `?` when no later entry matches three inputs, and otherwise the symbol of the first entry that does |
| Classifier.Classify | main.py:154-162 | the result is a key or `?`; it is `?` exactly when no entry matches three inputs, and otherwise the first matching key in table order |
| Classifier.FewInputsAreUnknown | main.py:158-162 | fewer than three inputs always give `?` |
| Classifier.ClassifiesResemblingInput | main.py:154-162 | inputs approximating a key's three tones to within less than 100 Hz, with all other inputs far from every band, are classified as that key |
| Classifier.ClassifiesExactTriplet | main.py:154-162 | a key's exact three tones, followed by inputs far from every band, are classified as that key |
| Classifier.ClassifiesTripletInAnyOrder | main.py:154-162 | a key's three distinct tones, in any order, are classified as that key |
| Decoder.CandidateOrderIsTheBands | main.py:133-142 | any enumeration of the candidate set visits the nine band frequencies, nine in all |
| Decoder.NearestPeak | main.py:143-144 | the pair recorded for a candidate is the frequency and magnitude of a bin that no bin is nearer to the candidate than, and that every earlier bin is strictly farther from |
| Decoder.CandidatePeaks | main.py:137-144 | one pair per candidate, in candidate order, each the (frequency, magnitude) of a first nearest bin to that candidate |
| Decoder.DecodeSegment | main.py:136-149 | every decoded character is a key or `?` |
| Decoder.DecodeSegments | main.py:135-150 | one character per segment, ceil(n/L) in all, and character k is the decoding of the k-th slice |
| Decoder.DecodeFourier | main.py:130-152 | a zero segment length raises; a negative length, or a positive length with an empty signal, gives the empty text; a zero sample rate raises when the length is positive and the signal non-empty; otherwise one key-or-`?` per segment, in segment order |
| Decoder.OneSampleSegmentDecodesAsA | main.py:136-160 | a trailing one-sample segment has only the 0 Hz bin, which is within 100 Hz of 100 Hz, so it decodes as `a` |
| RoundTrip.DecodesResolvedSegment | main.py:136-149 | a 320-sample segment whose spectrum is strongest at key i's three tones decodes as key i, whatever the candidate order |
| RoundTrip.DecodesEncodedBlock | main.py:119-149 | under the hypothesis `KeyFramesResolve` (each key's frame has its spectrum strongest at its own tones), the k-th frame of an encoded string decodes as the k-th lower-cased character |
| RoundTrip.EncodeThenDecode | main.py:119-152 | under the hypothesis `KeyFramesResolve`, decoding an encoded string at 8000 Hz and 0.04 s gives back the lower-cased string |

## Left out

- The Tk user interface and the plotting are not modelled. This covers text entry, buttons,
  message boxes and matplotlib figures. Their lines are `main.py:80-117`, `124-128` and `164-189`.
- Audio playback and WAV files are not modelled, because they are I/O. This covers
  `play_audio`, `save_audio`, and `bandpass_filters` and `decode_and_display_fourier`, which read
  a WAV file and pass it to the decoder (`main.py:24-40`, `59-78`).
- `apply_bandpass_filters` (`main.py:51-57`) is not modelled. It returns its input unchanged.
- `np.cos` is a parameter `cos2pi` (the cosine of 2πx), and `np.fft.fft` is a parameter
  `magnitude`. Both are numerical library code. Samples are real numbers, not 64-bit floats.
- Decoder.DecodeFourier: the segment length is an integer parameter standing for
  `int(duration * sample_rate)`. The float product and its truncation are computed only for the
  encoder's constants, in Encoder.FrameLength.
- Spectrum.BinFrequency: bin frequencies are exact rationals. Rounding in `fftfreq` and in the
  distance comparison of `argmin` is not modelled.
- Encoder.EncodeString: lower-casing is ASCII only (Encoder.Lower); Python's Unicode `str.lower`
  is not modelled. Some non-ASCII characters lower to a key in Python. U+212A KELVIN SIGN lowers
  to `k`, so the program encodes `"\u212a"` as the frame of `k`, while the model reports
  `UnknownCharacter('\u212a')`. Characters that lower to several characters (U+0130 lowers to `i`
  plus a combining dot) make both raise, but on different characters.
- Encoder.EncodeStringAccepts: the accepted characters are the ASCII letters and the space, for the
  reason on the line above; the program also accepts U+212A.
- Decoder.DecodeFourier: the iteration order of `expected_freqs` is a parameter, since Python does
  not specify set order. Every result holds for every order that lists the nine frequencies once.
- RoundTrip.DecodesEncodedBlock: holds only under the hypothesis `KeyFramesResolve`, for the same
  reason as the next line.
- RoundTrip.EncodeThenDecode: the round trip is stated under the hypothesis `KeyFramesResolve`.
  The hypothesis says each key's frame has its spectrum strongest at its own tones. Whether the
  FFT of the synthesised cosines meets it is a fact about floating-point DFTs and is not proved.
- Encoder.EncodeString: `encode_string("")` raises, because `np.concatenate([])` raises. The model
  returns the error `NothingToConcatenate`; it does not return an empty signal.
- Decoder.DecodeFourier: a zero sample rate is an error only when the segment length is positive
  and the signal non-empty, since only then does `decode_fourier` evaluate `1/sample_rate` to build
  the argument of `fftfreq` (`main.py:138`). This is reachable only with the segment length passed
  independently, as here.
