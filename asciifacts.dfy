/** The ascii writer and the ascii reader agree on integers: the text AsciiValue
    writes for a stored value, followed by a space, is read back by
    ReadPropertyAscii as the very bytes it was written from. */
module AsciiFacts {
  import opened Wrappers
  import opened Bytes
  import opened PlyTypes
  import opened Floats
  import opened Text
  import opened Decimal
  import opened Header
  import opened DataPass
  import opened PlyWrite

  predicate IsIntType(t: PlyType)
  {
    t == INT8 || t == UINT8 || t == INT16 || t == UINT16 || t == INT32 || t == UINT32
  }

  /** `w` stands at `pos` of `text`, followed by a space, as the writer leaves
      each value. */
  predicate Followed(text: string, pos: nat, w: string)
  {
    pos + |w| < |text| && text[pos..pos + |w| + 1] == w + " "
  }

  /** `v` is in the range the reader accepts for integer type `t`, and `b` is
      what the reader stores for it. */
  predicate Fits(t: PlyType, v: int, b: seq<byte>)
  {
    match t
    case INT8 => 0 <= v <= 0xFF && b == [v as byte]
    case UINT8 => 0 <= v <= 0xFF && b == [v as byte]
    case INT16 => -0x8000 <= v <= 0x7FFF && b == LeBytes(v, 2)
    case UINT16 => 0 <= v <= 0xFFFF && b == LeBytes(v, 2)
    case INT32 => Int32Min <= v <= Int32Max && b == LeBytes(v, 4)
    case UINT32 => 0 <= v <= 0xFFFF_FFFF && b == LeBytes(v, 4)
    case _ => false
  }

  /** The bytes `b` stored at `off` in `dest`, the rest left as it was. */
  function Stored(dest: seq<byte>, off: nat, b: seq<byte>): seq<byte>
    requires off + |b| <= |dest|
  {
    dest[..off] + b + dest[off + |b|..]
  }

  /** The two's-complement reading of `b` is in range, and GetBytes of it gives
      `b` back. */
  lemma SignedBytes(b: seq<byte>)
    requires |b| >= 1
    ensures -(Pow256(|b|) / 2) <= Signed(LeValue(b), |b|) < Pow256(|b|) / 2
    ensures LeBytes(Signed(LeValue(b), |b|), |b|) == b
  {
    var n, u := |b|, LeValue(b);
    var p := Pow256(n);
    var v := Signed(u, n);
    LeValueBound(b);
    var q := Pow256(n - 1);
    assert p == 256 * q;
    assert p == 2 * (128 * q) + 0;
    ModUnique(p, 2, 128 * q, 0);
    if u >= p / 2 {
      ModUnique(v, p, -1, u);
    } else {
      ModUnique(v, p, 0, u);
    }
    assert v % p == u;
    LeValueOfBytes(v, n);
    var c := LeBytes(v, n);
    assert LeValue(c) == u;
    BytesOfLeValue(c);
    assert LeBytes(u, n) == c;
    BytesOfLeValue(b);
  }

  /** The unsigned reading of `b` is in range, and GetBytes of it gives `b` back. */
  lemma UnsignedBytes(b: seq<byte>)
    ensures 0 <= LeValue(b) < Pow256(|b|)
    ensures LeBytes(LeValue(b), |b|) == b
  {
    LeValueBound(b);
    BytesOfLeValue(b);
  }

  /** An integer's text followed by a space is read by ReadWord as that text,
      and parses back to the integer. */
  lemma IntWordReads(text: string, pos: nat, n: int)
    requires Followed(text, pos, ShowInt(n))
    ensures NextWord(text, pos).0 == ShowInt(n) && NextWord(text, pos).1 == pos + |ShowInt(n)| + 1
    ensures ParseInteger(NextWord(text, pos).0) == Some(n)
  {
    var w := ShowInt(n);
    ShowIntIsPlain(n);
    assert text[pos..pos + |w|] == (w + " ")[..|w|] == w;
    assert text[pos + |w|] == (w + " ")[|w|] == ' ';
    ReadWordOf(text, pos, w);
    ParseShowInt(n);
  }

  /** Reading a value of integer type `t` whose text is at `pos` stores `b`. */
  lemma ReadsBack(text: string, floats: FloatText, t: PlyType, stride: int, dest: seq<byte>, doff: nat, pos: nat,
                  v: int, b: seq<byte>)
    requires Fits(t, v, b) && doff + |b| <= |dest| && Followed(text, pos, ShowInt(v))
    ensures var r := ReadPropertyAscii(text, floats, t, stride, dest, doff, pos);
      r.Ok? && r.value.0 == Stored(dest, doff, b) && r.value.1 == doff + stride && r.value.2 == pos + |ShowInt(v)| + 1
  {
    IntWordReads(text, pos, v);
    if t == INT8 || t == UINT8 {
      ReadsByte(text, floats, t, stride, dest, doff, pos, v, b);
    } else {
      ReadsWide(text, floats, t, stride, dest, doff, pos, v, b);
    }
  }

  /** The one-byte types: the parsed value is stored through the indexer. */
  lemma ReadsByte(text: string, floats: FloatText, t: PlyType, stride: int, dest: seq<byte>, doff: nat, pos: nat,
                  v: int, b: seq<byte>)
    requires (t == INT8 || t == UINT8) && Fits(t, v, b) && doff + |b| <= |dest|
    requires pos <= |text| && NextWord(text, pos).0 == ShowInt(v) && NextWord(text, pos).1 == pos + |ShowInt(v)| + 1
    requires ParseInteger(ShowInt(v)) == Some(v)
    ensures var r := ReadPropertyAscii(text, floats, t, stride, dest, doff, pos);
      r.Ok? && r.value.0 == Stored(dest, doff, b) && r.value.1 == doff + stride && r.value.2 == pos + |ShowInt(v)| + 1
  {
    var w := ShowInt(v);
    assert ParseInRange(w, 0, 0xFF).Ok? && ParseInRange(w, 0, 0xFF).value == v;
    assert dest[doff := v as byte] == Stored(dest, doff, b);
  }

  /** The wider types: the parsed value's GetBytes are copied in. */
  lemma ReadsWide(text: string, floats: FloatText, t: PlyType, stride: int, dest: seq<byte>, doff: nat, pos: nat,
                  v: int, b: seq<byte>)
    requires (t == INT16 || t == UINT16 || t == INT32 || t == UINT32) && Fits(t, v, b) && doff + |b| <= |dest|
    requires pos <= |text| && NextWord(text, pos).0 == ShowInt(v) && NextWord(text, pos).1 == pos + |ShowInt(v)| + 1
    requires ParseInteger(ShowInt(v)) == Some(v)
    ensures var r := ReadPropertyAscii(text, floats, t, stride, dest, doff, pos);
      r.Ok? && r.value.0 == Stored(dest, doff, b) && r.value.1 == doff + stride && r.value.2 == pos + |ShowInt(v)| + 1
  {
    assert CopyAt(dest, doff, b).Ok? && CopyAt(dest, doff, b).value == Stored(dest, doff, b);
  }

  /** The ascii round trip of one integer value: what AsciiValue writes for the
      bytes at `off` of `src`, followed by a space, ReadPropertyAscii reads back
      into `dest` at `doff` as exactly those bytes, leaving the rest of `dest`
      alone and stopping after the space. */
  lemma AsciiIntRoundTrip(t: PlyType, src: seq<byte>, off: int, floats: FloatText,
                          text: string, pos: nat, stride: int, dest: seq<byte>, doff: nat)
    requires IsIntType(t) && AsciiValue(t, src, off, floats).Ok?
    requires Followed(text, pos, AsciiValue(t, src, off, floats).value)
    requires doff + Stride(t) <= |dest|
    ensures var r := ReadPropertyAscii(text, floats, t, stride, dest, doff, pos);
      r.Ok? && r.value.0 == Stored(dest, doff, src[off..off + Stride(t)])
      && r.value.1 == doff + stride && r.value.2 == pos + |AsciiValue(t, src, off, floats).value| + 1
  {
    var v := IntText(t, src, off, floats);
    ReadsBack(text, floats, t, stride, dest, doff, pos, v, src[off..off + Stride(t)]);
  }

  /** An integer value is written as its number (unsigned for the one-byte types,
      two's complement for the other signed ones), which is in the reader's range
      for its type and stores back as the same bytes. */
  lemma IntText(t: PlyType, src: seq<byte>, off: int, floats: FloatText) returns (v: int)
    requires IsIntType(t) && AsciiValue(t, src, off, floats).Ok?
    ensures AsciiValue(t, src, off, floats) == Ok(ShowInt(v))
    ensures Fits(t, v, src[off..off + Stride(t)])
  {
    var b := src[off..off + Stride(t)];
    assert Pow256(2) == 0x1_0000 && Pow256(4) == 0x1_0000_0000 by {
      assert Pow256(1) == 256 && Pow256(3) == 0x100_0000;
    }
    match t
    case INT8 => v := src[off] as int;
    case UINT8 => v := src[off] as int;
    case INT16 => v := Signed(LeValue(b), 2); SignedBytes(b);
    case INT32 => v := Signed(LeValue(b), 4); SignedBytes(b);
    case UINT16 => v := LeValue(b); UnsignedBytes(b);
    case UINT32 => v := LeValue(b); UnsignedBytes(b);
  }

  /** The bytes the ascii writer emits for an integer value and its space are
      ASCII, so the reader sees exactly that text at their position. */
  lemma WrittenIntText(t: PlyType, src: seq<byte>, off: int, floats: FloatText)
    requires IsIntType(t) && AsciiValue(t, src, off, floats).Ok?
    ensures var w := AsciiValue(t, src, off, floats).value;
      Latin1(Encode(w + " ")) == w + " "
  {
    var v := IntText(t, src, off, floats);
    var w := ShowInt(v);
    ShowIntIsPlain(v);
    assert forall i :: 0 <= i < |w + " "| ==> (w + " ")[i] == if i < |w| then w[i] else ' ';
    EncodeAscii(w + " ");
  }
}
