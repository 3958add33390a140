/** The byte order of binary list counts. readListBinary asks EndianSwapBuffer to
    swap 0 bytes of the count, so a big-endian count is decoded as if it were
    little-endian. The passes read counts as written (ListCountAsWritten); the swap
    over the count's own bytes (ListCountBinary) is the decode that was intended. */
module ListCounts {
  import opened Wrappers
  import opened Bytes
  import opened PlyTypes
  import opened Endian
  import opened Schema
  import opened DataPass

  /** The count types readListBinary decodes through BitConverter. */
  predicate Wide(t: PlyType)
  {
    t == INT16 || t == UINT16 || t == INT32 || t == UINT32
  }

  function CountSwapper(t: PlyType): (w: Swapper)
    requires Wide(t)
    ensures Width(w) == Stride(t)
  {
    if t == INT16 || t == UINT16 then U16 else U32
  }

  /** What a count whose n-byte pattern is `v` means: UINT16 as is, the others as the
      two's-complement reading ((int) of a UInt32 wraps). */
  function CountValue(t: PlyType, v: int): int
  {
    if t == UINT16 then v else Signed(v, Stride(t))
  }

  /** As written, the stream's byte order plays no part in the list count. */
  lemma AsWrittenIgnoresOrder(data: seq<byte>, t: PlyType, stride: nat, pos: nat, listSize: int)
    requires pos <= |data|
    ensures ListCountAsWritten(data, true, t, stride, pos, listSize)
              == ListCountAsWritten(data, false, t, stride, pos, listSize)
  {
  }

  /** The big-endian UINT16 count 3, stored as the bytes 00 03, is read as 768 as
      written and as 3 with the swap over the count's bytes. */
  lemma AsWrittenMisreadsBigEndian()
    ensures ListCountAsWritten([0, 3], true, UINT16, 2, 0, 0) == Ok((768, 2))
    ensures ListCountBinary([0, 3], true, UINT16, 2, 0, 0) == Ok((3, 2))
  {
    var b: seq<byte> := [0, 3];
    assert b[0..2] == b;
    assert LeValue(b) == 768 by { assert b[1..] == [3]; assert [3 as byte][1..] == []; }
    SwapCountTwoBytes(b);
    var r: seq<byte> := [3, 0];
    assert r[0..2] == r;
    assert LeValue(r) == 3 by { assert r[1..] == [0]; assert [0 as byte][1..] == []; }
  }

  /** A one-byte count (INT8 as well as UINT8) is its byte read unsigned, in either
      byte order. */
  lemma OneByteCount(data: seq<byte>, bigEndian: bool, t: PlyType, pos: nat, listSize: int)
    requires (t == INT8 || t == UINT8) && pos < |data|
    ensures ListCountAsWritten(data, bigEndian, t, Stride(t), pos, listSize) == Ok((data[pos] as int, pos + 1))
  {
  }

  /** A count type without a case (FLOAT32, FLOAT64, INVALID) reads its stride's
      bytes and leaves the list size as it was. */
  lemma OtherCountKeepsSize(data: seq<byte>, bigEndian: bool, t: PlyType, stride: nat, pos: nat, listSize: int)
    requires (t == FLOAT32 || t == FLOAT64 || t == INVALID) && pos <= |data|
    ensures ListCountAsWritten(data, bigEndian, t, stride, pos, listSize).Ok?
    ensures ListCountAsWritten(data, bigEndian, t, stride, pos, listSize).value.0 == listSize
  {
  }

  /** The count swap over a two-byte count exchanges its bytes. */
  lemma SwapCountTwoBytes(b: seq<byte>)
    requires |b| == 2
    ensures SwapCount(b, 2, 2, U16) == Ok([b[1], b[0]])
  {
    ReverseOneChunk(b);
    SwapBufferReversesChunks(b, U16);
    assert Reverse(b) == [b[1], b[0]];
  }

  /** One chunk reversed is the whole reversal. */
  lemma ReverseOneChunk(b: seq<byte>)
    requires |b| > 0
    ensures Multiple(|b|, |b|) && ReverseChunks(b, |b|, |b|) == Reverse(b)
  {
    assert Multiple(0, |b|);
    assert b[..|b|] == b && b[|b|..] == [];
  }

  /** Swapping the count's own bytes turns its big-endian form into the little-endian
      one. */
  lemma SwapCountOfBigEndian(t: PlyType, v: int)
    requires Wide(t)
    ensures SwapCount(Reverse(LeBytes(v, Stride(t))), Stride(t), Stride(t), CountSwapper(t)) == Ok(LeBytes(v, Stride(t)))
  {
    var n, w := Stride(t), CountSwapper(t);
    var bytes := Reverse(LeBytes(v, n));
    ReverseOneChunk(bytes);
    SwapBufferReversesChunks(bytes, w);
    ReverseReverse(LeBytes(v, n));
  }

  /** A count written big-endian (its bytes most significant first) reads back as its
      value. */
  lemma BigEndianCountRoundTrip(data: seq<byte>, t: PlyType, pos: nat, listSize: int, v: int)
    requires Wide(t) && 0 <= v < Pow256(Stride(t))
    requires pos + Stride(t) <= |data| && data[pos..pos + Stride(t)] == Reverse(LeBytes(v, Stride(t)))
    ensures ListCountBinary(data, true, t, Stride(t), pos, listSize) == Ok((CountValue(t, v), pos + Stride(t)))
  {
    SwapCountOfBigEndian(t, v);
    UnsignedRoundTrip(v, Stride(t));
  }

  /** A count written little-endian reads back as its value in a little-endian stream. */
  lemma LittleEndianCountRoundTrip(data: seq<byte>, t: PlyType, pos: nat, listSize: int, v: int)
    requires Wide(t) && 0 <= v < Pow256(Stride(t))
    requires pos + Stride(t) <= |data| && data[pos..pos + Stride(t)] == LeBytes(v, Stride(t))
    ensures ListCountBinary(data, false, t, Stride(t), pos, listSize) == Ok((CountValue(t, v), pos + Stride(t)))
  {
    UnsignedRoundTrip(v, Stride(t));
  }

  /** The count the passes read: a count written little-endian reads back as its
      value, whatever byte order the stream declares. */
  lemma AsWrittenCountRoundTrip(data: seq<byte>, bigEndian: bool, t: PlyType, pos: nat, listSize: int, v: int)
    requires Wide(t) && 0 <= v < Pow256(Stride(t))
    requires pos + Stride(t) <= |data| && data[pos..pos + Stride(t)] == LeBytes(v, Stride(t))
    ensures ListCountAsWritten(data, bigEndian, t, Stride(t), pos, listSize) == Ok((CountValue(t, v), pos + Stride(t)))
  {
    AsWrittenIgnoresOrder(data, t, Stride(t), pos, listSize);
    UnsignedRoundTrip(v, Stride(t));
  }

  /** PropStride * count is C# int arithmetic: for a four-byte list of 2^30 values
      the product wraps to 0, so the skipper passes over the count only and measures
      nothing, and the reader copies nothing. */
  lemma WrappedListSkipsNothing(data: seq<byte>, bigEndian: bool, p: Property, f: Lookup, pos: nat,
                                listSize: int, dest: seq<byte>, off: int)
    requires p.isList && p.listType == UINT32 && f.propStride == 4 && f.listStride == 4
    requires pos + 4 <= |data| && data[pos..pos + 4] == LeBytes(0x4000_0000, 4)
    requires 0 <= off <= |dest|
    ensures SkipBinary(data, bigEndian, p, f, pos, listSize) == Ok(Moved(pos + 4, 0x4000_0000, 0))
    ensures ReadBinary(data, bigEndian, p, f, dest, off, pos, listSize) == Ok(Filled(dest, off, pos + 4, 0x4000_0000))
  {
    assert Pow256(4) == 0x1_0000_0000;
    AsWrittenCountRoundTrip(data, bigEndian, UINT32, pos, listSize, 0x4000_0000);
    assert Int32Wrap(4 * 0x4000_0000) == 0;
    var none := data[pos + 4..pos + 4];
    assert ReadBytes(data, pos + 4, 0) == Ok((none, pos + 4));
    assert none == [] && dest[..off] + none + dest[off..] == dest;
  }
}
