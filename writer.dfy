/** PlyFileImpl.Write: the ascii header (WriteHeader) followed by the binary or the
    ascii payload (WriteBinaryInternal, WriteAsciiInternal with WritePropertyBinary
    and WritePropertyAscii). Both payload loops share one shape and differ in the
    property writer and in the newline that ends each ascii instance. */
module PlyWrite {
  import opened Wrappers
  import opened Bytes
  import opened Text
  import opened Decimal
  import opened PlyTypes
  import opened Floats
  import opened Schema
  import opened DataPass
  import opened Fnv

  // ------------------------------------------------------------ header

  /** Whether the header lists property `p` of element `e`: it is bound (its lookup
      is not skipped). */
  predicate Bound(m: Impl, e: Element, p: Property)
  {
    KeyIn(m.userData, BindingKey(e.name, p.name))
  }

  /** The word after `format`. */
  function FormatName(m: Impl): string
  {
    if m.isBinary then (if m.isBigEndian then "binary_big_endian" else "binary_little_endian") else "ascii"
  }

  function FormatLine(m: Impl): string
  {
    "format " + FormatName(m) + " 1.0\n"
  }

  function CommentLines(comments: seq<string>): string
  {
    if comments == [] then "" else "comment " + comments[0] + "\n" + CommentLines(comments[1..])
  }

  /** A property's header line without its line break. */
  function PropertyText(p: Property): string
  {
    if p.isList then
      "property list " + PropertyTable(p.listType).str + " " + PropertyTable(p.propertyType).str + " " + p.name
    else "property " + PropertyTable(p.propertyType).str + " " + p.name
  }

  function PropertyLine(p: Property): string
  {
    PropertyText(p) + "\n"
  }

  /** An element's header line without its line break. */
  function ElementText(e: Element): string
  {
    "element " + e.name + " " + ShowInt(e.size)
  }

  /** The property lines of element `e` from property `j` on: bound ones only. */
  function PropertyLines(m: Impl, e: Element, j: nat): string
    requires j <= |e.properties|
    decreases |e.properties| - j
  {
    if j == |e.properties| then ""
    else (if Bound(m, e, e.properties[j]) then PropertyLine(e.properties[j]) else "") + PropertyLines(m, e, j + 1)
  }

  function ElementLines(m: Impl, i: nat): string
    requires i <= |m.elements|
    decreases |m.elements| - i
  {
    if i == |m.elements| then ""
    else
      var e := m.elements[i];
      ElementText(e) + "\n" + PropertyLines(m, e, 0) + ElementLines(m, i + 1)
  }

  /** WriteHeader: no obj_info lines are written. */
  function HeaderText(m: Impl): string
  {
    "ply\n" + FormatLine(m) + CommentLines(m.comments) + ElementLines(m, 0) + "end_header\n"
  }

  // ------------------------------------------------------------ property writers

  /** WritePropertyBinary(src, ref off, n): a new byte[n] (a negative n throws), then
      Array.Copy of n bytes from `off`. */
  function Chunk(src: seq<byte>, off: int, n: int): (r: Result<seq<byte>>)
    ensures r.Ok? <==> 0 <= n && 0 <= off && off + n <= |src|
    ensures r.Ok? ==> r.value == src[off..off + n]
  {
    if n < 0 then Err(NegativeLength)
    else if off < 0 || off + n > |src| then Err(OutOfRange)
    else Ok(src[off..off + n])
  }

  /** helper.Data.Buffer.Get(): a missing buffer throws. */
  function BufferOf(x: Helper): (r: Result<seq<byte>>)
    ensures r.Ok? <==> x.data.buffer.Some?
    ensures r.Ok? ==> r.value == x.data.buffer.value
  {
    match x.data.buffer
    case None => Err(NullBuffer)
    case Some(b) => Ok(b)
  }

  /** What a property writer produced: the output bytes and the helper's new
      ByteOffset. */
  datatype Written = Written(out: seq<byte>, offset: int)

  /** A property writer for instance `i` of a bound property. */
  type Emitter = (Property, Lookup, Helper, nat) -> Result<Written>

  /** The binary writer of one property: a list writes the first ListStride bytes of
      its count (BitConverter.GetBytes of the int ListCounts[i]) and then
      PropStride * count bytes of the buffer, the product wrapped to a 32-bit int;
      a scalar writes PropStride bytes. */
  function BinaryProperty(p: Property, f: Lookup, x: Helper, i: nat): (r: Result<Written>)
    ensures r.Ok? ==> x.data.buffer.Some? && 0 <= x.cursor.byteOffset <= r.value.offset <= |x.data.buffer.value|
    ensures r.Ok? && !p.isList ==>
              r.value.offset == x.cursor.byteOffset + f.propStride
              && r.value.out == x.data.buffer.value[x.cursor.byteOffset..r.value.offset]
    ensures r.Ok? && p.isList ==>
              i < |p.listCounts| && f.listStride <= 4
              && r.value.offset == x.cursor.byteOffset + Int32Wrap(f.propStride * p.listCounts[i])
              && r.value.out == LeBytes(p.listCounts[i], 4)[..f.listStride]
                                + x.data.buffer.value[x.cursor.byteOffset..r.value.offset]
  {
    if p.isList then
      if i >= |p.listCounts| then Err(OutOfRange)
      else
        var count := p.listCounts[i];
        var head :- Chunk(LeBytes(count, 4), 0, f.listStride);
        var src :- BufferOf(x);
        var n := Int32Wrap(f.propStride * count);
        var body :- Chunk(src, x.cursor.byteOffset, n);
        Ok(Written(head + body, x.cursor.byteOffset + n))
    else
      var src :- BufferOf(x);
      var body :- Chunk(src, x.cursor.byteOffset, f.propStride);
      Ok(Written(body, x.cursor.byteOffset + f.propStride))
  }

  /** WritePropertyAscii's text for the value of type `t` at `off` (without the space
      that follows it): bytes are written unsigned, the wider integers through
      BitConverter, floats through the opaque float text; INVALID throws. */
  function AsciiValue(t: PlyType, src: seq<byte>, off: int, floats: FloatText): (r: Result<string>)
    ensures r.Ok? ==> t != INVALID && 0 <= off && off + Stride(t) <= |src|
  {
    if t == INVALID then Err(InvalidType)
    else if off < 0 || off + Stride(t) > |src| then Err(OutOfRange)
    else
      match t
      case INT8 => Ok(ShowInt(src[off] as int))
      case UINT8 => Ok(ShowInt(src[off] as int))
      case INT16 => Ok(ShowInt(ReadSigned(src, off, 2)))
      case UINT16 => Ok(ShowInt(ReadUnsigned(src, off, 2)))
      case INT32 => Ok(ShowInt(ReadSigned(src, off, 4)))
      case UINT32 => Ok(ShowInt(ReadUnsigned(src, off, 4)))
      case FLOAT32 => Ok(floats.show32(src[off..off + 4]))
      case FLOAT64 => Ok(floats.show64(src[off..off + 8]))
  }

  /** A helper's bytes, none when it has no buffer. */
  function HelperBytes(x: Helper): seq<byte>
  {
    if x.data.buffer.Some? then x.data.buffer.value else []
  }

  /** The texts of `n` values of type `t` stored one after the other from `off`
      (none when n <= 0); an error where one of them cannot be written. */
  function ValueTexts(t: PlyType, src: seq<byte>, off: int, n: int, floats: FloatText): (r: Result<seq<string>>)
    ensures r.Ok? ==> |r.value| == (if n > 0 then n else 0)
    decreases if n > 0 then n else 0
  {
    if n <= 0 then Ok([])
    else
      var v :- AsciiValue(t, src, off, floats);
      var rest :- ValueTexts(t, src, off + Stride(t), n - 1, floats);
      Ok([v] + rest)
  }

  /** The k-th text is the text of the k-th value, the one at `at`. */
  lemma ValueTextsAt(t: PlyType, src: seq<byte>, off: int, n: int, floats: FloatText, k: nat, at: int)
    requires ValueTexts(t, src, off, n, floats).Ok? && k < n && at == off + Stride(t) * k
    ensures AsciiValue(t, src, at, floats).Ok? && AsciiValue(t, src, at, floats).value == ValueTexts(t, src, off, n, floats).value[k]
  {
    AdvanceIs(off, Stride(t), k);
    ValueTextsNth(t, src, off, n, floats, k, at);
  }

  /** `k` steps of `s` from `off`. */
  function Advance(off: int, s: int, k: nat): int
    decreases k
  {
    if k == 0 then off else Advance(off + s, s, k - 1)
  }

  lemma {:induction false} AdvanceIs(off: int, s: int, k: nat)
    ensures Advance(off, s, k) == off + s * k
    decreases k
  {
    if k > 0 {
      AdvanceIs(off + s, s, k - 1);
      MulStep(off, s, k);
    }
  }

  /** ValueTextsAt, with the k-th value's offset `at` reached one stride at a time. */
  lemma {:induction false} ValueTextsNth(t: PlyType, src: seq<byte>, off: int, n: int, floats: FloatText, k: nat, at: int)
    requires ValueTexts(t, src, off, n, floats).Ok? && k < n && at == Advance(off, Stride(t), k)
    ensures AsciiValue(t, src, at, floats).Ok? && AsciiValue(t, src, at, floats).value == ValueTexts(t, src, off, n, floats).value[k]
    decreases k
  {
    var s := Stride(t);
    if k > 0 {
      ValueTextsStep(t, src, off, n, floats, k);
      assert at == Advance(off + s, s, k - 1);
      ValueTextsNth(t, src, off + s, n - 1, floats, k - 1, at);
    } else {
      ValueTextsHead(t, src, off, n, floats);
    }
  }

  /** The first text is the text of the value at `off`. */
  lemma ValueTextsHead(t: PlyType, src: seq<byte>, off: int, n: int, floats: FloatText)
    requires ValueTexts(t, src, off, n, floats).Ok? && 0 < n
    ensures AsciiValue(t, src, off, floats).Ok? && AsciiValue(t, src, off, floats).value == ValueTexts(t, src, off, n, floats).value[0]
  {
  }

  /** The step of ValueTextsNth: the k-th text from `off` is the (k-1)-th from the next value. */
  lemma ValueTextsStep(t: PlyType, src: seq<byte>, off: int, n: int, floats: FloatText, k: nat)
    requires ValueTexts(t, src, off, n, floats).Ok? && 0 < k < n
    ensures ValueTexts(t, src, off + Stride(t), n - 1, floats).Ok?
    ensures ValueTexts(t, src, off, n, floats).value[k] == ValueTexts(t, src, off + Stride(t), n - 1, floats).value[k - 1]
  {
  }

  lemma MulStep(off: int, s: int, k: int)
    ensures off + s * k == (off + s) + s * (k - 1)
  {
  }

  /** Texts each followed by `sep`. */
  function Terminated(vs: seq<string>, sep: string): (r: string)
    ensures |r| >= |vs| * |sep|
  {
    if vs == [] then "" else vs[0] + sep + Terminated(vs[1..], sep)
  }

  /** The loop over a list's `n` values (none when n <= 0); the buffer is fetched for
      each value, so an empty list needs none. */
  function AsciiValues(t: PlyType, x: Helper, off: int, n: int, floats: FloatText): (r: Result<(string, int)>)
    ensures r.Ok? <==> n <= 0 || (x.data.buffer.Some? && ValueTexts(t, HelperBytes(x), off, n, floats).Ok?)
    ensures r.Ok? ==> ValueTexts(t, HelperBytes(x), off, n, floats).Ok?
                      && r.value.0 == Terminated(ValueTexts(t, HelperBytes(x), off, n, floats).value, " ")
    ensures r.Ok? ==> r.value.1 == off + Stride(t) * (if n > 0 then n else 0)
    decreases if n > 0 then n else 0
  {
    if n <= 0 then Ok(("", off))
    else
      var src :- BufferOf(x);
      var v :- AsciiValue(t, src, off, floats);
      var rest :- AsciiValues(t, x, off + Stride(t), n - 1, floats);
      MulStep(off, Stride(t), n);
      Ok((v + " " + rest.0, rest.1))
  }

  /** The ascii writer of one property: a list writes its count and a space, then its
      values; each value is followed by a space. */
  function AsciiProperty(floats: FloatText, p: Property, x: Helper, i: nat): (r: Result<Written>)
    ensures r.Ok? && !p.isList ==>
              x.data.buffer.Some? && AsciiValue(p.propertyType, x.data.buffer.value, x.cursor.byteOffset, floats).Ok?
              && r.value.out == Encode(AsciiValue(p.propertyType, x.data.buffer.value, x.cursor.byteOffset, floats).value + " ")
              && r.value.offset == x.cursor.byteOffset + Stride(p.propertyType)
    ensures r.Ok? && p.isList ==>
              i < |p.listCounts|
              && ValueTexts(p.propertyType, HelperBytes(x), x.cursor.byteOffset, p.listCounts[i], floats).Ok?
              && r.value.out == Encode(ShowInt(p.listCounts[i]) + " "
                                       + Terminated(ValueTexts(p.propertyType, HelperBytes(x), x.cursor.byteOffset, p.listCounts[i], floats).value, " "))
  {
    if p.isList then
      if i >= |p.listCounts| then Err(OutOfRange)
      else
        var count := p.listCounts[i];
        var values :- AsciiValues(p.propertyType, x, x.cursor.byteOffset, count, floats);
        Ok(Written(Encode(ShowInt(count) + " " + values.0), values.1))
    else
      var src :- BufferOf(x);
      var v :- AsciiValue(p.propertyType, src, x.cursor.byteOffset, floats);
      Ok(Written(Encode(v + " "), x.cursor.byteOffset + Stride(p.propertyType)))
  }

  function BinaryEmitter(): Emitter
  {
    (p: Property, f: Lookup, x: Helper, i: nat) => BinaryProperty(p, f, x, i)
  }

  function AsciiEmitter(floats: FloatText): Emitter
  {
    (p: Property, f: Lookup, x: Helper, i: nat) => AsciiProperty(floats, p, x, i)
  }

  // ------------------------------------------------------------ the payload loop

  /** What stays fixed while a payload is written: the document, its lookup table,
      the property writer and what ends an instance (nothing, or "\n"). */
  datatype WCtx = WCtx(m: Impl, table: seq<seq<Lookup>>, emit: Emitter, endInstance: seq<byte>)

  /** What changes: the helpers (ByteOffsets) and the bytes written so far. */
  datatype WSt = WSt(helpers: seq<Helper>, out: seq<byte>)

  predicate WOk(c: WCtx, st: WSt)
  {
    TableFits(c.m, c.table) && |st.helpers| == |c.m.helpers|
  }

  /** One bound property of instance `i`: property `j` written with lookup `idx`; its
      bytes are appended and its helper's ByteOffset moves. */
  function EmitAt(c: WCtx, st: WSt, ei: nat, i: nat, j: nat, idx: nat): (r: Result<WSt>)
    requires WOk(c, st) && ei < |c.m.elements| && j < |c.m.elements[ei].properties|
    requires idx < |c.m.elements[ei].properties| && c.table[ei][idx].helper.Some?
    ensures r.Ok? ==> WOk(c, r.value)
  {
    var f := c.table[ei][idx];
    var h := f.helper.value;
    var x := st.helpers[h];
    var w :- c.emit(c.m.elements[ei].properties[j], f, x, i);
    Ok(WSt(st.helpers[h := x.(cursor := x.cursor.(byteOffset := w.offset))], st.out + w.out))
  }

  /** The property loop of instance `i` from property `j` on, with `idx` the loop's
      propertyIdx. The `continue` for an unbound property does not advance
      propertyIdx, so every later property is looked up with the same skipped
      entry. */
  function PropsOut(c: WCtx, st: WSt, ei: nat, i: nat, j: nat, idx: nat): (r: Result<WSt>)
    requires WOk(c, st) && ei < |c.m.elements| && idx <= j <= |c.m.elements[ei].properties|
    ensures r.Ok? ==> WOk(c, r.value)
    decreases |c.m.elements[ei].properties| - j
  {
    if j == |c.m.elements[ei].properties| then Ok(st)
    else if c.table[ei][idx].helper.None? then PropsOut(c, st, ei, i, j + 1, idx)
    else
      var st' :- EmitAt(c, st, ei, i, j, idx);
      PropsOut(c, st', ei, i, j + 1, idx + 1)
  }

  function InstancesOut(c: WCtx, st: WSt, ei: nat, i: nat): (r: Result<WSt>)
    requires WOk(c, st) && ei < |c.m.elements|
    ensures r.Ok? ==> WOk(c, r.value)
    decreases Reps(c.m.elements[ei]) - i
  {
    if i >= c.m.elements[ei].size then Ok(st)
    else
      var st' :- PropsOut(c, st, ei, i, 0, 0);
      InstancesOut(c, st'.(out := st'.out + c.endInstance), ei, i + 1)
  }

  function ElementsOut(c: WCtx, st: WSt, ei: nat): (r: Result<WSt>)
    requires WOk(c, st) && ei <= |c.m.elements|
    ensures r.Ok? ==> WOk(c, r.value)
    decreases |c.m.elements| - ei
  {
    if ei == |c.m.elements| then Ok(st)
    else
      var st' :- InstancesOut(c, st, ei, 0);
      ElementsOut(c, st', ei + 1)
  }

  // ------------------------------------------------------------ Write

  /** Every bound helper's ByteOffset set to 0. */
  function ResetOffsets(helpers: seq<Helper>, userData: seq<Entry>): (r: seq<Helper>)
    ensures |r| == |helpers|
    ensures forall h :: 0 <= h < |r| ==>
              r[h] == if Referenced(userData, h) then helpers[h].(cursor := helpers[h].cursor.(byteOffset := 0))
                      else helpers[h]
  {
    seq(|helpers|, h requires 0 <= h < |helpers| =>
      if Referenced(userData, h) then helpers[h].(cursor := helpers[h].cursor.(byteOffset := 0)) else helpers[h])
  }

  /** The document as Write starts its output: offsets reset, the encoding chosen,
      little-endian. */
  function WriteStart(m: Impl, isBinary: bool): (m0: Impl)
    requires WellFormed(m)
    ensures WellFormed(m0)
  {
    m.(helpers := ResetOffsets(m.helpers, m.userData), isBinary := isBinary, isBigEndian := false)
  }

  /** PlyFileImpl.Write: the document afterwards (ByteOffsets at the end of what was
      written) and the bytes written. */
  function Write(m: Impl, isBinary: bool, floats: FloatText): (r: Result<(Impl, seq<byte>)>)
    requires WellFormed(m)
    ensures r.Ok? ==> r.value.0 == m.(helpers := r.value.0.helpers, isBinary := isBinary, isBigEndian := false)
    ensures r.Ok? ==> WellFormed(r.value.0)
    ensures r.Ok? ==> Encode(HeaderText(WriteStart(m, isBinary))) <= r.value.1
  {
    var m0 := WriteStart(m, isBinary);
    LookupTableFits(m0);
    var c := if isBinary then WCtx(m0, MakePropertyLookupTable(m0), BinaryEmitter(), [])
             else WCtx(m0, MakePropertyLookupTable(m0), AsciiEmitter(floats), Encode("\n"));
    var st :- ElementsOut(c, WSt(m0.helpers, []), 0);
    Ok((m0.(helpers := st.helpers), Encode(HeaderText(m0)) + st.out))
  }
}
