/** Decimal text of floating-point values, which the codec delegates to
    Convert.ToSingle/ToDouble and TextWriter.Write(float/double). The model does not
    define these conversions: every operation that needs them takes them as this
    parameter, and nothing proved depends on what they are. */
module Floats {
  import opened Bytes
  import opened Wrappers

  type Bytes4 = b: seq<byte> | |b| == 4 witness [0, 0, 0, 0]
  type Bytes8 = b: seq<byte> | |b| == 8 witness [0, 0, 0, 0, 0, 0, 0, 0]

  /** Parse a word into the little-endian bytes of a float/double (None on a
      FormatException or OverflowException), and show such bytes as text. */
  datatype FloatText = FloatText(
    parse32: string -> Option<Bytes4>,
    parse64: string -> Option<Bytes8>,
    show32: Bytes4 -> string,
    show64: Bytes8 -> string)
}
