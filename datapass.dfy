/** PlyFileImpl.ParseData: one pass over the data section, with the readers and
    skippers it builds for the binary and the ascii encodings. The first pass only
    measures (TotalSizeBytes, ListCounts); the second copies the values into the
    helpers' buffers. An exception anywhere in the pass is an `Err`. */
module DataPass {
  import opened Wrappers
  import opened Bytes
  import opened Text
  import opened Decimal
  import opened PlyTypes
  import opened Endian
  import opened Floats
  import opened Schema
  import opened Header

  // ------------------------------------------------------------ stream reads

  /** BinaryReader.ReadBytes(n): at most `n` bytes, fewer at the end of the stream;
      a negative count throws. Returns the bytes and the new position. */
  function ReadBytes(data: seq<byte>, pos: nat, n: int): (r: Result<(seq<byte>, nat)>)
    requires pos <= |data|
    ensures r.Ok? <==> n >= 0
    ensures r.Ok? ==> r.value.1 == pos + |r.value.0| <= |data| && r.value.0 == data[pos..r.value.1]
    ensures r.Ok? ==> |r.value.0| <= n && (|r.value.0| < n ==> r.value.1 == |data|)
  {
    if n < 0 then Err(NegativeLength)
    else
      var end := if pos + n <= |data| then pos + n else |data|;
      Ok((data[pos..end], end))
  }

  /** Array.Copy(bytes, 0, dest, off, |bytes|): the bytes must fit at `off`. */
  function CopyAt(dest: seq<byte>, off: int, bytes: seq<byte>): (r: Result<seq<byte>>)
    ensures r.Ok? <==> 0 <= off && off + |bytes| <= |dest|
    ensures r.Ok? ==> |r.value| == |dest| && r.value[off..off + |bytes|] == bytes
    ensures r.Ok? ==> r.value[..off] == dest[..off] && r.value[off + |bytes|..] == dest[off + |bytes|..]
  {
    if off < 0 || off + |bytes| > |dest| then Err(OutOfRange)
    else Ok(dest[..off] + bytes + dest[off + |bytes|..])
  }

  // ------------------------------------------------------------ list counts

  /** EndianSwapBuffer(bytes, swapLength, stride) on the bytes of a list count. */
  function SwapCount(bytes: seq<byte>, swapLength: nat, stride: nat, w: Swapper): Result<seq<byte>>
  {
    if stride == 0 then Ok(bytes)
    else match SwapFrom(bytes, 0, swapLength, stride, w)
      case (b, true) => Ok(b)
      case (_, false) => Err(OutOfRange)
  }

  /** readListBinary with the endian swap applied to the first `swapLength` bytes:
      the count's bytes are read (stride = the count type's size), swapped when the
      stream is big-endian, and decoded as the count type. A count type without a
      case leaves the previous list size. */
  function ListCountWith(data: seq<byte>, bigEndian: bool, t: PlyType, stride: nat, pos: nat, listSize: int,
                         swapLength: nat): (r: Result<(int, nat)>)
    requires pos <= |data|
    ensures r.Ok? ==> r.value.1 <= |data|
  {
    var read := ReadBytes(data, pos, stride).value;
    var bytes := read.0;
    match t
    case INT16 =>
      var b :- if bigEndian then SwapCount(bytes, swapLength, stride, U16) else Ok(bytes);
      if |b| < 2 then Err(OutOfRange) else Ok((ReadSigned(b, 0, 2), read.1))
    case UINT16 =>
      var b :- if bigEndian then SwapCount(bytes, swapLength, stride, U16) else Ok(bytes);
      if |b| < 2 then Err(OutOfRange) else Ok((ReadUnsigned(b, 0, 2), read.1))
    case INT32 =>
      var b :- if bigEndian then SwapCount(bytes, swapLength, stride, U32) else Ok(bytes);
      if |b| < 4 then Err(OutOfRange) else Ok((ReadSigned(b, 0, 4), read.1))
    case UINT32 =>
      var b :- if bigEndian then SwapCount(bytes, swapLength, stride, U32) else Ok(bytes);
      if |b| < 4 then Err(OutOfRange) else Ok((Signed(ReadUnsigned(b, 0, 4), 4), read.1))
    case UINT8 => if |bytes| < 1 then Err(OutOfRange) else Ok((bytes[0] as int, read.1))
    case INT8 => if |bytes| < 1 then Err(OutOfRange) else Ok((bytes[0] as int, read.1))
    case _ => Ok((listSize, read.1))
  }

  /** readListBinary as written: the swap is asked for 0 bytes, so a big-endian
      count is decoded little-endian. */
  function ListCountAsWritten(data: seq<byte>, bigEndian: bool, t: PlyType, stride: nat, pos: nat, listSize: int)
    : (r: Result<(int, nat)>)
    requires pos <= |data|
    ensures r.Ok? ==> r.value.1 <= |data|
  {
    ListCountWith(data, bigEndian, t, stride, pos, listSize, 0)
  }

  /** readListBinary as intended: the count's own bytes are swapped. */
  function ListCountBinary(data: seq<byte>, bigEndian: bool, t: PlyType, stride: nat, pos: nat, listSize: int)
    : (r: Result<(int, nat)>)
    requires pos <= |data|
    ensures r.Ok? ==> r.value.1 <= |data|
  {
    ListCountWith(data, bigEndian, t, stride, pos, listSize, stride)
  }

  /** readListAscii: Convert.ToByte/ToInt16/ToUInt16/ToInt32/ToUInt32 of the next
      word ((int) of a UInt32 wraps); a count type without a case reads nothing and
      leaves the previous list size. */
  function ListCountAscii(text: string, t: PlyType, pos: nat, listSize: int): (r: Result<(int, nat)>)
    requires pos <= |text|
    ensures r.Ok? ==> r.value.1 <= |text|
  {
    var (word, next) := NextWord(text, pos);
    match t
    case UINT8 => var v :- ParseInRange(word, 0, 0xFF); Ok((v, next))
    case INT8 => var v :- ParseInRange(word, 0, 0xFF); Ok((v, next))
    case INT16 => var v :- ParseInRange(word, -0x8000, 0x7FFF); Ok((v, next))
    case UINT16 => var v :- ParseInRange(word, 0, 0xFFFF); Ok((v, next))
    case INT32 => var v :- ParseInRange(word, Int32Min, Int32Max); Ok((v, next))
    case UINT32 => var v :- ParseInRange(word, 0, 0xFFFF_FFFF); Ok((Signed(v, 4), next))
    case _ => Ok((listSize, pos))
  }

  // ------------------------------------------------------------ skipping

  /** What a skipper did: the new position and list size, and the byte count it
      returns (which the first pass adds to TotalSizeBytes). */
  datatype Moved = Moved(pos: nat, listSize: int, amount: int)

  /** The binary skipper: a scalar's bytes must all be there (they are copied to the
      scratch array); a list's count is read, then PropStride * count bytes, the product
      wrapped to a 32-bit int. */
  function SkipBinary(data: seq<byte>, bigEndian: bool, p: Property, f: Lookup, pos: nat, listSize: int)
    : (r: Result<Moved>)
    requires pos <= |data|
    ensures r.Ok? ==> r.value.pos <= |data| && r.value.amount >= 0
    ensures r.Ok? && !p.isList ==> r.value.amount == f.propStride && r.value.listSize == listSize
  {
    if !p.isList then
      var read := ReadBytes(data, pos, f.propStride).value;
      if |read.0| < f.propStride then Err(OutOfRange) else Ok(Moved(read.1, listSize, f.propStride))
    else
      var count :- ListCountAsWritten(data, bigEndian, p.listType, f.listStride, pos, listSize);
      var n := Int32Wrap(f.propStride * count.0);
      var read :- ReadBytes(data, count.1, n);
      Ok(Moved(read.1, count.0, n))
  }

  /** Read `n` words (none when n <= 0) and return the position after them. */
  function SkipWords(text: string, pos: nat, n: int): (r: nat)
    requires pos <= |text|
    ensures pos <= r <= |text|
    decreases if n > 0 then n else 0
  {
    if n <= 0 then pos else SkipWords(text, NextWord(text, pos).1, n - 1)
  }

  /** The ascii skipper: a list's count is parsed and that many words read, and it
      returns count * PropStride; a scalar's word is read without being parsed. */
  function SkipAscii(text: string, p: Property, f: Lookup, pos: nat, listSize: int): (r: Result<Moved>)
    requires pos <= |text|
    ensures r.Ok? ==> r.value.pos <= |text|
    ensures r.Ok? && !p.isList ==> r.value.amount == f.propStride && r.value.listSize == listSize
  {
    if p.isList then
      var count :- ListCountAscii(text, p.listType, pos, listSize);
      Ok(Moved(SkipWords(text, count.1, count.0), count.0, Int32Wrap(count.0 * f.propStride)))
    else
      Ok(Moved(NextWord(text, pos).1, listSize, f.propStride))
  }

  // ------------------------------------------------------------ reading

  /** What a reader did: the destination buffer, the cursor offset, the position and
      the list size afterwards. */
  datatype Filled = Filled(dest: seq<byte>, offset: int, pos: nat, listSize: int)

  /** ReadPropertyBinary: read up to `stride` bytes, copy what was read to the
      destination at the offset, advance the offset by the full stride. */
  function ReadPropertyBinary(data: seq<byte>, stride: int, dest: seq<byte>, off: int, pos: nat)
    : (r: Result<(seq<byte>, int, nat)>)
    requires pos <= |data|
    ensures r.Ok? ==> |r.value.0| == |dest| && r.value.1 == off + stride && r.value.2 <= |data|
  {
    var read :- ReadBytes(data, pos, stride);
    var dest' :- CopyAt(dest, off, read.0);
    Ok((dest', off + stride, read.1))
  }

  /** The binary reader: a scalar's bytes, or a list's count and PropStride * count
      bytes, the product wrapped to a 32-bit int. */
  function ReadBinary(data: seq<byte>, bigEndian: bool, p: Property, f: Lookup, dest: seq<byte>, off: int,
                      pos: nat, listSize: int): (r: Result<Filled>)
    requires pos <= |data|
    ensures r.Ok? ==> |r.value.dest| == |dest| && r.value.pos <= |data|
  {
    if !p.isList then
      var read :- ReadPropertyBinary(data, f.propStride, dest, off, pos);
      Ok(Filled(read.0, read.1, read.2, listSize))
    else
      var count :- ListCountAsWritten(data, bigEndian, p.listType, f.listStride, pos, listSize);
      var read :- ReadPropertyBinary(data, Int32Wrap(f.propStride * count.0), dest, off, count.1);
      Ok(Filled(read.0, read.1, read.2, count.0))
  }

  /** ReadPropertyAscii: parse the next word as a value of type `t`, store its
      little-endian bytes at the offset, advance the offset by `stride`. A byte
      value is stored through the indexer; INVALID throws before reading. */
  function ReadPropertyAscii(text: string, floats: FloatText, t: PlyType, stride: int, dest: seq<byte>,
                             off: int, pos: nat): (r: Result<(seq<byte>, int, nat)>)
    requires pos <= |text|
    ensures r.Ok? ==> |r.value.0| == |dest| && r.value.1 == off + stride && r.value.2 <= |text|
    ensures t == INVALID ==> r == Err(InvalidType)
  {
    if t == INVALID then Err(InvalidType)
    else
      var (word, next) := NextWord(text, pos);
      var dest' :- match t
        case INT8 =>
          var v :- ParseInRange(word, 0, 0xFF);
          if off < 0 || off >= |dest| then Err(OutOfRange) else Ok(dest[off := v as byte])
        case UINT8 =>
          var v :- ParseInRange(word, 0, 0xFF);
          if off < 0 || off >= |dest| then Err(OutOfRange) else Ok(dest[off := v as byte])
        case INT16 => var v :- ParseInRange(word, -0x8000, 0x7FFF); CopyAt(dest, off, LeBytes(v, 2))
        case UINT16 => var v :- ParseInRange(word, 0, 0xFFFF); CopyAt(dest, off, LeBytes(v, 2))
        case INT32 => var v :- ParseInRange(word, Int32Min, Int32Max); CopyAt(dest, off, LeBytes(v, 4))
        case UINT32 => var v :- ParseInRange(word, 0, 0xFFFF_FFFF); CopyAt(dest, off, LeBytes(v, 4))
        case FLOAT32 =>
          (match floats.parse32(word)
           case Some(b) => CopyAt(dest, off, b)
           case None => Err(BadNumber(word)))
        case FLOAT64 =>
          (match floats.parse64(word)
           case Some(b) => CopyAt(dest, off, b)
           case None => Err(BadNumber(word)));
      Ok((dest', off + stride, next))
  }

  /** The ascii reader's loop over the `n` values of a list (none when n <= 0). */
  function ReadValuesAscii(text: string, floats: FloatText, t: PlyType, stride: int, dest: seq<byte>,
                           off: int, pos: nat, n: int): (r: Result<(seq<byte>, int, nat)>)
    requires pos <= |text|
    ensures r.Ok? ==> |r.value.0| == |dest| && r.value.2 <= |text|
    decreases if n > 0 then n else 0
  {
    if n <= 0 then Ok((dest, off, pos))
    else
      var one :- ReadPropertyAscii(text, floats, t, stride, dest, off, pos);
      ReadValuesAscii(text, floats, t, stride, one.0, one.1, one.2, n - 1)
  }

  /** The ascii reader: one value, or a list's count followed by that many values. */
  function ReadAscii(text: string, floats: FloatText, p: Property, f: Lookup, dest: seq<byte>, off: int,
                     pos: nat, listSize: int): (r: Result<Filled>)
    requires pos <= |text|
    ensures r.Ok? ==> |r.value.dest| == |dest| && r.value.pos <= |text|
  {
    if !p.isList then
      var read :- ReadPropertyAscii(text, floats, p.propertyType, f.propStride, dest, off, pos);
      Ok(Filled(read.0, read.1, read.2, listSize))
    else
      var count :- ListCountAscii(text, p.listType, pos, listSize);
      var read :- ReadValuesAscii(text, floats, p.propertyType, f.propStride, dest, off, count.1, count.0);
      Ok(Filled(read.0, read.1, read.2, count.0))
  }

  // ------------------------------------------------------------ the pass

  /** ParseData's `skip` delegate: given the lookup and the property, consume the
      property's bytes from position `pos` and say how many bytes it counts. */
  type Skipper = (Property, Lookup, nat, int) --> Result<Moved>

  /** ParseData's `read` delegate: consume the property's bytes and copy or convert
      them into `dest` at the offset. */
  type Reader = (Property, Lookup, seq<byte>, int, nat, int) --> Result<Filled>

  /** A skipper defined on every position of an `n`-byte stream, staying inside it. */
  ghost predicate SkipperFits(n: nat, skip: Skipper)
  {
    (forall p: Property, f: Lookup, pos: nat, ls: int :: pos <= n ==> skip.requires(p, f, pos, ls))
    && forall p: Property, f: Lookup, pos: nat, ls: int :: pos <= n && skip.requires(p, f, pos, ls) && skip(p, f, pos, ls).Ok? ==>
         skip(p, f, pos, ls).value.pos <= n
  }

  /** A reader defined on every position of an `n`-byte stream, staying inside it
      and keeping the destination's length. */
  ghost predicate ReaderFits(n: nat, read: Reader)
  {
    (forall p: Property, f: Lookup, dest: seq<byte>, off: int, pos: nat, ls: int :: pos <= n ==> read.requires(p, f, dest, off, pos, ls))
    && forall p: Property, f: Lookup, dest: seq<byte>, off: int, pos: nat, ls: int ::
         pos <= n && read.requires(p, f, dest, off, pos, ls) && read(p, f, dest, off, pos, ls).Ok? ==>
           |read(p, f, dest, off, pos, ls).value.dest| == |dest| && read(p, f, dest, off, pos, ls).value.pos <= n
  }

  /** The delegates ParseData builds when IsBinary holds. */
  function BinarySkipper(data: seq<byte>, bigEndian: bool): (skip: Skipper)
    ensures SkipperFits(|data|, skip)
    ensures forall p: Property, f: Lookup, pos: nat, ls: int :: pos <= |data| ==> skip(p, f, pos, ls) == SkipBinary(data, bigEndian, p, f, pos, ls)
  {
    (p: Property, f: Lookup, pos: nat, ls: int) requires pos <= |data| => SkipBinary(data, bigEndian, p, f, pos, ls)
  }

  function BinaryReader(data: seq<byte>, bigEndian: bool): (read: Reader)
    ensures ReaderFits(|data|, read)
    ensures forall p: Property, f: Lookup, dest: seq<byte>, off: int, pos: nat, ls: int :: pos <= |data| ==>
              read(p, f, dest, off, pos, ls) == ReadBinary(data, bigEndian, p, f, dest, off, pos, ls)
  {
    (p: Property, f: Lookup, dest: seq<byte>, off: int, pos: nat, ls: int) requires pos <= |data| =>
      ReadBinary(data, bigEndian, p, f, dest, off, pos, ls)
  }

  /** The delegates ParseData builds for an ascii stream, which reads words of the
      stream's text. */
  function AsciiSkipper(text: string): (skip: Skipper)
    ensures SkipperFits(|text|, skip)
    ensures forall p: Property, f: Lookup, pos: nat, ls: int :: pos <= |text| ==> skip(p, f, pos, ls) == SkipAscii(text, p, f, pos, ls)
  {
    (p: Property, f: Lookup, pos: nat, ls: int) requires pos <= |text| => SkipAscii(text, p, f, pos, ls)
  }

  function AsciiReader(text: string, floats: FloatText): (read: Reader)
    ensures ReaderFits(|text|, read)
    ensures forall p: Property, f: Lookup, dest: seq<byte>, off: int, pos: nat, ls: int :: pos <= |text| ==>
              read(p, f, dest, off, pos, ls) == ReadAscii(text, floats, p, f, dest, off, pos, ls)
  {
    (p: Property, f: Lookup, dest: seq<byte>, off: int, pos: nat, ls: int) requires pos <= |text| =>
      ReadAscii(text, floats, p, f, dest, off, pos, ls)
  }

  /** What stays fixed during a pass: the document as the pass began (whose element
      list is iterated), its lookup table, the stream, which pass this is and the
      two delegates. */
  datatype Ctx = Ctx(m: Impl, table: seq<seq<Lookup>>, data: seq<byte>, firstPass: bool,
                     skip: Skipper, read: Reader)

  /** What a pass relies on about its lookup table: one row per element, one lookup
      per property, and every helper it names bound and in the arena. */
  predicate TableFits(m: Impl, table: seq<seq<Lookup>>)
  {
    |table| == |m.elements|
    && (forall i :: 0 <= i < |table| ==> |table[i]| == |m.elements[i].properties|)
    && forall i, j :: 0 <= i < |table| && 0 <= j < |table[i]| && table[i][j].helper.Some? ==>
         table[i][j].helper.value < |m.helpers| && Referenced(m.userData, table[i][j].helper.value)
  }

  ghost predicate CtxOk(c: Ctx)
  {
    TableFits(c.m, c.table) && SkipperFits(|c.data|, c.skip) && ReaderFits(|c.data|, c.read)
  }

  /** What a pass changes: the helpers (cursors and buffers), the elements (list
      counts), the stream position and the shared listSize variable. */
  datatype St = St(helpers: seq<Helper>, elements: seq<Element>, pos: nat, listSize: int)

  predicate StOk(c: Ctx, st: St)
  {
    |st.helpers| == |c.m.helpers| && st.pos <= |c.data|
  }

  /** Two properties that differ at most in their list counts. */
  predicate SameShape(p: Property, q: Property)
  {
    p.name == q.name && p.propertyType == q.propertyType && p.isList == q.isList && p.listType == q.listType
  }

  /** Two element lists that differ at most in their properties' list counts. */
  predicate SameLayout(a: seq<Element>, b: seq<Element>)
  {
    |a| == |b|
    && (forall i :: 0 <= i < |a| ==> a[i].name == b[i].name && a[i].size == b[i].size
                                     && |a[i].properties| == |b[i].properties|)
    && (forall i, j :: 0 <= i < |a| && 0 <= j < |a[i].properties| && j < |b[i].properties| ==>
          SameShape(a[i].properties[j], b[i].properties[j]))
  }

  lemma SameLayoutTrans(a: seq<Element>, b: seq<Element>, c: seq<Element>)
    requires SameLayout(a, b) && SameLayout(b, c)
    ensures SameLayout(a, c)
  {
  }

  lemma SameLayoutSym(a: seq<Element>, b: seq<Element>)
    requires SameLayout(a, b)
    ensures SameLayout(b, a)
  {
  }

  /** property.ListCounts.Add(n) for property `pi` of element `ei`. */
  function AppendListCount(elements: seq<Element>, ei: nat, pi: nat, n: int): (r: seq<Element>)
    ensures SameLayout(r, elements)
  {
    if ei < |elements| && pi < |elements[ei].properties| then
      var e := elements[ei];
      var p := e.properties[pi];
      elements[ei := e.(properties := e.properties[pi := p.(listCounts := p.listCounts + [n])])]
    else elements
  }

  /** TotalSizeBytes += n for helper h. */
  function AddTotal(helpers: seq<Helper>, h: nat, n: int): (r: seq<Helper>)
    requires h < |helpers|
    ensures |r| == |helpers| && forall j :: 0 <= j < |r| && j != h ==> r[j] == helpers[j]
    ensures r[h].data == helpers[h].data && r[h].cursor.byteOffset == helpers[h].cursor.byteOffset
    ensures r[h].cursor.totalSizeBytes == helpers[h].cursor.totalSizeBytes + n
  {
    var c := helpers[h].cursor;
    helpers[h := helpers[h].(cursor := c.(totalSizeBytes := c.totalSizeBytes + n))]
  }

  /** The new buffer and ByteOffset of helper h. */
  function SetFilled(helpers: seq<Helper>, h: nat, dest: seq<byte>, off: int): (r: seq<Helper>)
    requires h < |helpers|
    ensures |r| == |helpers| && forall j :: 0 <= j < |r| && j != h ==> r[j] == helpers[j]
    ensures r[h].data.buffer == Some(dest) && r[h].data.t == helpers[h].data.t
    ensures r[h].cursor.byteOffset == off && r[h].cursor.totalSizeBytes == helpers[h].cursor.totalSizeBytes
  {
    var x := helpers[h];
    helpers[h := x.(data := x.data.(buffer := Some(dest)), cursor := x.cursor.(byteOffset := off))]
  }

  /** One property of one instance: an unbound property is skipped; a bound one is
      measured on the first pass (and its list count recorded) and read into its
      helper's buffer on the second. */
  function PropStep(c: Ctx, st: St, ei: nat, pi: nat): (r: Result<St>)
    requires CtxOk(c) && StOk(c, st)
    requires ei < |c.m.elements| && pi < |c.m.elements[ei].properties|
    ensures r.Ok? ==> StOk(c, r.value)
  {
    var p := c.m.elements[ei].properties[pi];
    var f := c.table[ei][pi];
    match f.helper
    case None =>
      var moved :- c.skip(p, f, st.pos, st.listSize);
      Ok(st.(pos := moved.pos, listSize := moved.listSize))
    case Some(h) =>
      if c.firstPass then
        var moved :- c.skip(p, f, st.pos, st.listSize);
        var elements' := if p.isList then AppendListCount(st.elements, ei, pi, moved.listSize) else st.elements;
        Ok(St(AddTotal(st.helpers, h, moved.amount), elements', moved.pos, moved.listSize))
      else
        var helper := st.helpers[h];
        match helper.data.buffer
        case None => Err(NullBuffer)
        case Some(dest) =>
          var filled :- c.read(p, f, dest, helper.cursor.byteOffset, st.pos, st.listSize);
          Ok(St(SetFilled(st.helpers, h, filled.dest, filled.offset), st.elements, filled.pos, filled.listSize))
  }

  /** The number of instances the element loop runs (none for a negative size). */
  function Reps(e: Element): nat
  {
    if e.size > 0 then e.size else 0
  }

  /** The properties of one instance of element `ei`, from property `pi` on. */
  function PropsFrom(c: Ctx, st: St, ei: nat, pi: nat): (r: Result<St>)
    requires CtxOk(c) && StOk(c, st)
    requires ei < |c.m.elements| && pi <= |c.m.elements[ei].properties|
    ensures r.Ok? ==> StOk(c, r.value)
    decreases |c.m.elements[ei].properties| - pi
  {
    if pi == |c.m.elements[ei].properties| then Ok(st)
    else
      var st' :- PropStep(c, st, ei, pi);
      PropsFrom(c, st', ei, pi + 1)
  }

  /** The instances of element `ei`, from instance `k` on. */
  function InstancesFrom(c: Ctx, st: St, ei: nat, k: nat): (r: Result<St>)
    requires CtxOk(c) && StOk(c, st) && ei < |c.m.elements|
    ensures r.Ok? ==> StOk(c, r.value)
    decreases Reps(c.m.elements[ei]) - k
  {
    if k >= c.m.elements[ei].size then Ok(st)
    else
      var st' :- PropsFrom(c, st, ei, 0);
      InstancesFrom(c, st', ei, k + 1)
  }

  /** The elements from element `ei` on. */
  function ElementsFrom(c: Ctx, st: St, ei: nat): (r: Result<St>)
    requires CtxOk(c) && StOk(c, st) && ei <= |c.m.elements|
    ensures r.Ok? ==> StOk(c, r.value)
    decreases |c.m.elements| - ei
  {
    if ei == |c.m.elements| then Ok(st)
    else
      var st' :- InstancesFrom(c, st, ei, 0);
      ElementsFrom(c, st', ei + 1)
  }

  lemma LookupTableFits(m: Impl)
    requires WellFormed(m)
    ensures TableFits(m, MakePropertyLookupTable(m))
  {
    forall i, j | 0 <= i < |m.elements| && 0 <= j < |m.elements[i].properties| {
      LookupTableHelpers(m, i, j);
    }
  }

  /** The context of a pass over `m` from position `pos`. */
  function PassCtx(m: Impl, data: seq<byte>, firstPass: bool, floats: FloatText): (c: Ctx)
    requires WellFormed(m)
    ensures CtxOk(c) && c.table == MakePropertyLookupTable(m)
  {
    LookupTableFits(m);
    if m.isBinary then
      Ctx(m, MakePropertyLookupTable(m), data, firstPass, BinarySkipper(data, m.isBigEndian),
          BinaryReader(data, m.isBigEndian))
    else
      Ctx(m, MakePropertyLookupTable(m), data, firstPass, AsciiSkipper(Latin1(data)),
          AsciiReader(Latin1(data), floats))
  }

  /** ParseData(istream, firstPass) from position `pos`, with listSize starting at 0:
      the document with the pass's helpers and elements. After a first pass the
      stream is back at `pos`, so the position is not part of the result. */
  function ParseData(m: Impl, data: seq<byte>, pos: nat, firstPass: bool, floats: FloatText): (r: Result<Impl>)
    requires WellFormed(m) && pos <= |data|
    ensures r.Ok? ==> r.value == m.(helpers := r.value.helpers, elements := r.value.elements)
    ensures r.Ok? ==> |r.value.helpers| == |m.helpers| && WellFormed(r.value)
  {
    var c := PassCtx(m, data, firstPass, floats);
    var st :- ElementsFrom(c, St(m.helpers, m.elements, pos, 0), 0);
    Ok(m.(helpers := st.helpers, elements := st.elements))
  }
}
