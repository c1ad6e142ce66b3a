/** Failure-carrying results for the operations of the codec that can raise. */
module Wrappers {

  /** Either the value an operation returns or the error it raises. */
  datatype Result<+T, +E> = Ok(value: T) | Err(error: E)

  /** The exceptions the codec's core can raise. */
  datatype CodecError =
    /** `generate_signal` meets a character that has no table entry (a `ValueError`). */
    | UnknownCharacter(c: char)
    /** `np.concatenate` is given an empty list of frames (the empty input string). */
    | NothingToConcatenate
    /** `range(0, len(signal), 0)`: a segment length of zero. */
    | ZeroSegmentLength
    /** `1 / sample_rate` in the bin-frequency computation with a zero rate. */
    | ZeroSampleRate
}
