/** What Read puts in a buffer. When every property of an element is a scalar bound
    to one helper, the element's instances are laid out in that helper's buffer one
    after the other, and within an instance the properties follow in header order.
    The first pass measures exactly those bytes, and the second copies them. */
module GroupFacts {
  import opened Wrappers
  import opened Bytes
  import opened PlyTypes
  import opened Floats
  import opened Fnv
  import opened Schema
  import opened DataPass
  import opened PlyRead
  import opened ReadFacts

  // ------------------------------------------------------------ the layout

  /** The bytes one instance takes from property `j` on. */
  function RowBytes(ps: seq<Property>, j: nat): nat
    requires j <= |ps|
    decreases |ps| - j
  {
    if j == |ps| then 0 else Stride(ps[j].propertyType) + RowBytes(ps, j + 1)
  }

  /** One instance from property `j` on, starting at `at`: each property's
      PropStride bytes in header order. */
  function InstanceSlices(data: seq<byte>, at: nat, ps: seq<Property>, j: nat): (r: seq<byte>)
    requires j <= |ps| && at + RowBytes(ps, j) <= |data|
    ensures |r| == RowBytes(ps, j)
    decreases |ps| - j
  {
    if j == |ps| then []
    else
      var s := Stride(ps[j].propertyType);
      data[at..at + s] + InstanceSlices(data, at + s, ps, j + 1)
  }

  /** `n` rows of `w` bytes, counted one row at a time. */
  function Span(n: nat, w: nat): nat
  {
    if n == 0 then 0 else w + Span(n - 1, w)
  }

  lemma {:induction false} SpanIsProduct(n: nat, w: nat)
    ensures Span(n, w) == n * w
  {
    if n > 0 {
      SpanIsProduct(n - 1, w);
      assert n * w == w + (n - 1) * w;
    }
  }

  /** `n` instances starting at `at`, one after the other. */
  function Interleaved(data: seq<byte>, at: nat, ps: seq<Property>, n: nat): (r: seq<byte>)
    requires at + Span(n, RowBytes(ps, 0)) <= |data|
    ensures |r| == Span(n, RowBytes(ps, 0))
    decreases n
  {
    if n == 0 then []
    else InstanceSlices(data, at, ps, 0) + Interleaved(data, at + RowBytes(ps, 0), ps, n - 1)
  }

  /** An instance's slices, one after the other, are the bytes they cover. */
  lemma {:induction false} InstanceIsSlice(data: seq<byte>, at: nat, ps: seq<Property>, j: nat, end: nat)
    requires j <= |ps| && end == at + RowBytes(ps, j) && end <= |data|
    ensures InstanceSlices(data, at, ps, j) == data[at..end]
    decreases |ps| - j
  {
    if j < |ps| {
      var s := Stride(ps[j].propertyType);
      InstanceIsSlice(data, at + s, ps, j + 1, end);
      Adjacent(data, at, at + s, end);
    }
  }

  /** The instances, one after the other, are the bytes they cover. */
  lemma {:induction false} InterleavedIsSlice(data: seq<byte>, at: nat, ps: seq<Property>, n: nat, end: nat)
    requires end == at + Span(n, RowBytes(ps, 0)) && end <= |data|
    ensures Interleaved(data, at, ps, n) == data[at..end]
    decreases n
  {
    if n > 0 {
      var w := RowBytes(ps, 0);
      InstanceIsSlice(data, at, ps, 0, at + w);
      InterleavedIsSlice(data, at + w, ps, n - 1, end);
      Adjacent(data, at, at + w, end);
    }
  }

  lemma Adjacent(data: seq<byte>, a: nat, b: nat, c: nat)
    requires a <= b <= c <= |data|
    ensures data[a..b] + data[b..c] == data[a..c]
  {
  }

  // ------------------------------------------------------------ the pass states

  /** An element whose properties are all scalars bound to helper `h`. */
  predicate OneGroup(m: Impl, ei: nat, h: nat)
    requires ei < |m.elements|
  {
    var e := m.elements[ei];
    forall j :: 0 <= j < |e.properties| ==>
      !e.properties[j].isList && FindEntry(m.userData, BindingKey(e.name, e.properties[j].name)) == Some(h)
  }

  /** The same, read off a pass's lookup table. */
  predicate RowOnHelper(c: Ctx, ei: nat, h: nat)
    requires TableFits(c.m, c.table) && ei < |c.m.elements|
  {
    var ps := c.m.elements[ei].properties;
    forall j :: 0 <= j < |ps| ==>
      !ps[j].isList && c.table[ei][j].helper == Some(h) && c.table[ei][j].propStride == Stride(ps[j].propertyType)
  }

  /** The first pass after `n` more bytes of helper `h`'s properties. */
  function Measured(st: St, h: nat, n: nat): St
    requires h < |st.helpers|
  {
    st.(helpers := AddTotal(st.helpers, h, n), pos := st.pos + n)
  }

  /** Room in helper `h`'s buffer and in the stream for `n` more bytes. */
  predicate Room(st: St, h: nat, data: seq<byte>, n: nat)
  {
    h < |st.helpers| && st.helpers[h].data.buffer.Some?
    && 0 <= st.helpers[h].cursor.byteOffset
    && st.helpers[h].cursor.byteOffset + n <= |st.helpers[h].data.buffer.value|
    && st.pos + n <= |data|
  }

  /** `dest` with the `n` stream bytes from `pos` written at `off`, one byte at a time. */
  function Spliced(dest: seq<byte>, off: nat, data: seq<byte>, pos: nat, n: nat): (r: seq<byte>)
    requires off + n <= |dest| && pos + n <= |data|
    ensures |r| == |dest|
    decreases n
  {
    if n == 0 then dest else Spliced(dest[off := data[pos]], off + 1, data, pos + 1, n - 1)
  }

  /** Splicing is Array.Copy of the stream's slice into the buffer. */
  lemma {:induction false} SplicedIsCopy(dest: seq<byte>, off: nat, data: seq<byte>, pos: nat, n: nat)
    requires off + n <= |dest| && pos + n <= |data|
    ensures Spliced(dest, off, data, pos, n) == dest[..off] + data[pos..pos + n] + dest[off + n..]
    decreases n
  {
    if n > 0 {
      var d := dest[off := data[pos]];
      SplicedIsCopy(d, off + 1, data, pos + 1, n - 1);
      assert d[..off + 1] == dest[..off] + [data[pos]];
      assert d[off + n..] == dest[off + n..];
      assert data[pos..pos + n] == [data[pos]] + data[pos + 1..pos + n];
    }
  }

  /** Splicing `a` bytes and then the rest of `n` is splicing `n`. */
  lemma {:induction false} SplicedTwice(dest: seq<byte>, off: nat, data: seq<byte>, pos: nat, a: nat, n: nat)
    requires a <= n && off + n <= |dest| && pos + n <= |data|
    ensures Spliced(Spliced(dest, off, data, pos, a), off + a, data, pos + a, n - a) == Spliced(dest, off, data, pos, n)
    decreases a
  {
    if a > 0 {
      SplicedTwice(dest[off := data[pos]], off + 1, data, pos + 1, a - 1, n - 1);
    }
  }

  /** The second pass after copying the next `n` bytes of the stream into helper
      `h`'s buffer at its ByteOffset. */
  function Copied(st: St, h: nat, data: seq<byte>, n: nat): St
    requires Room(st, h, data, n)
  {
    var dest := st.helpers[h].data.buffer.value;
    var off := st.helpers[h].cursor.byteOffset;
    st.(helpers := SetFilled(st.helpers, h, Spliced(dest, off, data, st.pos, n), off + n), pos := st.pos + n)
  }

  /** Measuring `a` bytes and then the rest of `n` is measuring `n`. */
  lemma MeasuredTwice(st: St, h: nat, a: nat, n: nat)
    requires h < |st.helpers| && a <= n
    ensures Measured(Measured(st, h, a), h, n - a) == Measured(st, h, n)
  {
    var x := Measured(Measured(st, h, a), h, n - a).helpers;
    var y := Measured(st, h, n).helpers;
    assert x[h] == y[h];
    assert x == y;
  }

  /** Copying `a` bytes and then the rest of `n` is copying `n`. */
  lemma CopiedTwice(st: St, h: nat, data: seq<byte>, a: nat, n: nat)
    requires a <= n && Room(st, h, data, n)
    ensures Room(Copied(st, h, data, a), h, data, n - a)
    ensures Copied(Copied(st, h, data, a), h, data, n - a) == Copied(st, h, data, n)
  {
    var dest := st.helpers[h].data.buffer.value;
    var off := st.helpers[h].cursor.byteOffset;
    SplicedTwice(dest, off, data, st.pos, a, n);
    var x := Copied(Copied(st, h, data, a), h, data, n - a).helpers;
    var y := Copied(st, h, data, n).helpers;
    assert x[h] == y[h];
    assert x == y;
  }

  lemma MeasuredNothing(st: St, h: nat)
    requires h < |st.helpers|
    ensures Measured(st, h, 0) == st
  {
    assert Measured(st, h, 0).helpers[h] == st.helpers[h];
    assert Measured(st, h, 0).helpers == st.helpers;
  }

  lemma CopiedNothing(st: St, h: nat, data: seq<byte>)
    requires Room(st, h, data, 0)
    ensures Copied(st, h, data, 0) == st
  {
    var dest := st.helpers[h].data.buffer.value;
    var off := st.helpers[h].cursor.byteOffset;
    assert Copied(st, h, data, 0).helpers[h] == st.helpers[h];
    assert Copied(st, h, data, 0).helpers == st.helpers;
  }

  // ------------------------------------------------------------ one property

  /** The first pass over one bound scalar measures its stride, or finds the stream
      too short. */
  lemma MeasureStep(c: Ctx, bigEndian: bool, st: St, ei: nat, pi: nat, h: nat)
    requires CtxOk(c) && StOk(c, st) && c.firstPass && c.skip == BinarySkipper(c.data, bigEndian)
    requires ei < |c.m.elements| && pi < |c.m.elements[ei].properties| && RowOnHelper(c, ei, h)
    ensures var s := Stride(c.m.elements[ei].properties[pi].propertyType);
      if st.pos + s <= |c.data| then PropStep(c, st, ei, pi) == Ok(Measured(st, h, s))
      else PropStep(c, st, ei, pi).Err?
  {
    var p := c.m.elements[ei].properties[pi];
    var f := c.table[ei][pi];
    assert c.skip(p, f, st.pos, st.listSize) == SkipBinary(c.data, bigEndian, p, f, st.pos, st.listSize);
  }

  /** The second pass over one bound scalar copies its stride into the buffer. */
  lemma CopyStep(c: Ctx, bigEndian: bool, st: St, ei: nat, pi: nat, h: nat)
    requires CtxOk(c) && StOk(c, st) && !c.firstPass && c.read == BinaryReader(c.data, bigEndian)
    requires ei < |c.m.elements| && pi < |c.m.elements[ei].properties| && RowOnHelper(c, ei, h)
    requires Room(st, h, c.data, Stride(c.m.elements[ei].properties[pi].propertyType))
    ensures PropStep(c, st, ei, pi) == Ok(Copied(st, h, c.data, Stride(c.m.elements[ei].properties[pi].propertyType)))
  {
    var p := c.m.elements[ei].properties[pi];
    var f := c.table[ei][pi];
    var dest := st.helpers[h].data.buffer.value;
    var off := st.helpers[h].cursor.byteOffset;
    SplicedIsCopy(dest, off, c.data, st.pos, Stride(p.propertyType));
    assert c.read(p, f, dest, off, st.pos, st.listSize) == ReadBinary(c.data, bigEndian, p, f, dest, off, st.pos, st.listSize);
  }

  /** Every property of element `ei` is measured on helper `h` by the first pass. */
  ghost predicate MeasuresEach(c: Ctx, ei: nat, h: nat)
    requires CtxOk(c) && ei < |c.m.elements| && h < |c.m.helpers|
  {
    var ps := c.m.elements[ei].properties;
    forall st: St, j: nat {:trigger PropStep(c, st, ei, j)} :: StOk(c, st) && j < |ps| ==>
      if st.pos + Stride(ps[j].propertyType) <= |c.data|
      then PropStep(c, st, ei, j) == Ok(Measured(st, h, Stride(ps[j].propertyType)))
      else PropStep(c, st, ei, j).Err?
  }

  /** Every property of element `ei` is copied into helper `h` by the second pass. */
  ghost predicate CopiesEach(c: Ctx, ei: nat, h: nat)
    requires CtxOk(c) && ei < |c.m.elements|
  {
    var ps := c.m.elements[ei].properties;
    forall st: St, j: nat {:trigger PropStep(c, st, ei, j)} ::
      StOk(c, st) && j < |ps| && Room(st, h, c.data, Stride(ps[j].propertyType)) ==>
      PropStep(c, st, ei, j) == Ok(Copied(st, h, c.data, Stride(ps[j].propertyType)))
  }

  lemma SkipperMeasures(c: Ctx, bigEndian: bool, ei: nat, h: nat)
    requires CtxOk(c) && c.firstPass && c.skip == BinarySkipper(c.data, bigEndian)
    requires ei < |c.m.elements| && RowOnHelper(c, ei, h) && h < |c.m.helpers|
    ensures MeasuresEach(c, ei, h)
  {
    var ps := c.m.elements[ei].properties;
    forall st: St, j: nat | StOk(c, st) && j < |ps|
      ensures if st.pos + Stride(ps[j].propertyType) <= |c.data|
        then PropStep(c, st, ei, j) == Ok(Measured(st, h, Stride(ps[j].propertyType)))
        else PropStep(c, st, ei, j).Err?
    {
      MeasureStep(c, bigEndian, st, ei, j, h);
    }
  }

  lemma ReaderCopies(c: Ctx, bigEndian: bool, ei: nat, h: nat)
    requires CtxOk(c) && !c.firstPass && c.read == BinaryReader(c.data, bigEndian)
    requires ei < |c.m.elements| && RowOnHelper(c, ei, h)
    ensures CopiesEach(c, ei, h)
  {
    var ps := c.m.elements[ei].properties;
    forall st: St, j: nat | StOk(c, st) && j < |ps| && Room(st, h, c.data, Stride(ps[j].propertyType))
      ensures PropStep(c, st, ei, j) == Ok(Copied(st, h, c.data, Stride(ps[j].propertyType)))
    {
      CopyStep(c, bigEndian, st, ei, j, h);
    }
  }

  // ------------------------------------------------------------ one instance

  lemma PropsDone(c: Ctx, st: St, ei: nat)
    requires CtxOk(c) && StOk(c, st) && ei < |c.m.elements|
    ensures PropsFrom(c, st, ei, |c.m.elements[ei].properties|) == Ok(st)
  {
  }

  lemma PropsStep(c: Ctx, st: St, ei: nat, pi: nat)
    requires CtxOk(c) && StOk(c, st) && ei < |c.m.elements| && pi < |c.m.elements[ei].properties|
    ensures PropStep(c, st, ei, pi).Err? ==> PropsFrom(c, st, ei, pi).Err?
    ensures PropStep(c, st, ei, pi).Ok? ==> PropsFrom(c, st, ei, pi) == PropsFrom(c, PropStep(c, st, ei, pi).value, ei, pi + 1)
  {
  }

  lemma PropsMeasureDone(c: Ctx, st: St, ei: nat, h: nat, n: nat)
    requires CtxOk(c) && StOk(c, st) && ei < |c.m.elements| && h < |c.m.helpers|
    requires n == RowBytes(c.m.elements[ei].properties, |c.m.elements[ei].properties|)
    ensures PropsFrom(c, st, ei, |c.m.elements[ei].properties|) == Ok(Measured(st, h, n))
  {
    PropsDone(c, st, ei);
    MeasuredNothing(st, h);
  }

  lemma PropsCopyDone(c: Ctx, st: St, ei: nat, h: nat, n: nat)
    requires CtxOk(c) && StOk(c, st) && ei < |c.m.elements|
    requires n == RowBytes(c.m.elements[ei].properties, |c.m.elements[ei].properties|) && Room(st, h, c.data, n)
    ensures PropsFrom(c, st, ei, |c.m.elements[ei].properties|) == Ok(Copied(st, h, c.data, n))
  {
    PropsDone(c, st, ei);
    CopiedNothing(st, h, c.data);
  }

  /** Measuring `s` bytes of `n` leaves the rest of `n` to measure, in the same arena. */
  lemma MeasureRest(c: Ctx, st: St, h: nat, s: nat, n: nat)
    requires StOk(c, st) && h < |c.m.helpers| && s <= n && st.pos + s <= |c.data|
    ensures StOk(c, Measured(st, h, s)) && Measured(st, h, s).pos + (n - s) == st.pos + n
    ensures Measured(Measured(st, h, s), h, n - s) == Measured(st, h, n)
  {
    MeasuredTwice(st, h, s, n);
  }

  /** The first pass over one property measures it, or finds the stream too short. */
  lemma PropsMeasureCons(c: Ctx, st: St, ei: nat, pi: nat, h: nat)
    requires CtxOk(c) && StOk(c, st) && ei < |c.m.elements| && h < |c.m.helpers| && MeasuresEach(c, ei, h)
    requires c.firstPass && RowOnHelper(c, ei, h)
    requires pi < |c.m.elements[ei].properties|
    ensures var s := Stride(c.m.elements[ei].properties[pi].propertyType);
      if st.pos + s <= |c.data| then
        StOk(c, Measured(st, h, s)) && PropsFrom(c, st, ei, pi) == PropsFrom(c, Measured(st, h, s), ei, pi + 1)
      else PropsFrom(c, st, ei, pi).Err?
  {
    PropsStep(c, st, ei, pi);
  }

  /** The first pass over the properties from `pi` on measures their `n` bytes. */
  lemma {:induction false} PropsMeasure(c: Ctx, st: St, ei: nat, pi: nat, h: nat, n: nat)
    requires CtxOk(c) && StOk(c, st) && ei < |c.m.elements| && h < |c.m.helpers| && MeasuresEach(c, ei, h)
    requires c.firstPass && RowOnHelper(c, ei, h)
    requires pi <= |c.m.elements[ei].properties| && n == RowBytes(c.m.elements[ei].properties, pi)
    ensures if st.pos + n <= |c.data| then PropsFrom(c, st, ei, pi) == Ok(Measured(st, h, n))
      else PropsFrom(c, st, ei, pi).Err?
    decreases |c.m.elements[ei].properties| - pi
  {
    if pi < |c.m.elements[ei].properties| {
      var s := Stride(c.m.elements[ei].properties[pi].propertyType);
      PropsMeasureCons(c, st, ei, pi, h);
      if st.pos + s <= |c.data| {
        MeasureRest(c, st, h, s, n);
        PropsMeasure(c, Measured(st, h, s), ei, pi + 1, h, n - s);
      }
    } else {
      PropsMeasureDone(c, st, ei, h, n);
    }
  }

  /** One property copied, and the rest of `n` still to copy. */
  lemma PropsCopyCons(c: Ctx, st: St, ei: nat, pi: nat, h: nat, n: nat)
    requires CtxOk(c) && StOk(c, st) && ei < |c.m.elements| && CopiesEach(c, ei, h)
    requires !c.firstPass && RowOnHelper(c, ei, h)
    requires pi < |c.m.elements[ei].properties| && n == RowBytes(c.m.elements[ei].properties, pi)
    requires Room(st, h, c.data, n)
    ensures var s := Stride(c.m.elements[ei].properties[pi].propertyType);
      s <= n && n - s == RowBytes(c.m.elements[ei].properties, pi + 1)
      && StOk(c, Copied(st, h, c.data, s)) && Room(Copied(st, h, c.data, s), h, c.data, n - s)
      && PropsFrom(c, st, ei, pi) == PropsFrom(c, Copied(st, h, c.data, s), ei, pi + 1)
      && Copied(Copied(st, h, c.data, s), h, c.data, n - s) == Copied(st, h, c.data, n)
  {
    var s := Stride(c.m.elements[ei].properties[pi].propertyType);
    CopiedTwice(st, h, c.data, s, n);
    PropsStep(c, st, ei, pi);
  }

  /** The second pass over the properties from `pi` on copies their `n` bytes. */
  lemma {:induction false} PropsCopy(c: Ctx, st: St, ei: nat, pi: nat, h: nat, n: nat)
    requires CtxOk(c) && StOk(c, st) && ei < |c.m.elements| && CopiesEach(c, ei, h)
    requires !c.firstPass && RowOnHelper(c, ei, h)
    requires pi <= |c.m.elements[ei].properties| && n == RowBytes(c.m.elements[ei].properties, pi)
    requires Room(st, h, c.data, n)
    ensures PropsFrom(c, st, ei, pi) == Ok(Copied(st, h, c.data, n))
    decreases |c.m.elements[ei].properties| - pi
  {
    if pi < |c.m.elements[ei].properties| {
      var s := Stride(c.m.elements[ei].properties[pi].propertyType);
      PropsCopyCons(c, st, ei, pi, h, n);
      PropsCopy(c, Copied(st, h, c.data, s), ei, pi + 1, h, n - s);
    } else {
      PropsCopyDone(c, st, ei, h, n);
    }
  }

  /** A whole instance of element `ei` is measured on helper `h`. */
  ghost predicate MeasuresRow(c: Ctx, ei: nat, h: nat)
    requires CtxOk(c) && ei < |c.m.elements| && h < |c.m.helpers|
  {
    var w := RowBytes(c.m.elements[ei].properties, 0);
    forall st: St {:trigger PropsFrom(c, st, ei, 0)} :: StOk(c, st) ==>
      if st.pos + w <= |c.data| then PropsFrom(c, st, ei, 0) == Ok(Measured(st, h, w))
      else PropsFrom(c, st, ei, 0).Err?
  }

  /** A whole instance of element `ei` is copied into helper `h`. */
  ghost predicate CopiesRow(c: Ctx, ei: nat, h: nat)
    requires CtxOk(c) && ei < |c.m.elements|
  {
    var w := RowBytes(c.m.elements[ei].properties, 0);
    forall st: St {:trigger PropsFrom(c, st, ei, 0)} :: StOk(c, st) && Room(st, h, c.data, w) ==>
      PropsFrom(c, st, ei, 0) == Ok(Copied(st, h, c.data, w))
  }

  lemma RowMeasures(c: Ctx, ei: nat, h: nat)
    requires CtxOk(c) && ei < |c.m.elements| && h < |c.m.helpers| && MeasuresEach(c, ei, h)
    requires c.firstPass && RowOnHelper(c, ei, h)
    ensures MeasuresRow(c, ei, h)
  {
    var w := RowBytes(c.m.elements[ei].properties, 0);
    forall st: St | StOk(c, st)
      ensures if st.pos + w <= |c.data| then PropsFrom(c, st, ei, 0) == Ok(Measured(st, h, w))
        else PropsFrom(c, st, ei, 0).Err?
    {
      PropsMeasure(c, st, ei, 0, h, w);
    }
  }

  lemma RowCopies(c: Ctx, ei: nat, h: nat)
    requires CtxOk(c) && ei < |c.m.elements| && CopiesEach(c, ei, h)
    requires !c.firstPass && RowOnHelper(c, ei, h)
    ensures CopiesRow(c, ei, h)
  {
    var w := RowBytes(c.m.elements[ei].properties, 0);
    forall st: St | StOk(c, st) && Room(st, h, c.data, w)
      ensures PropsFrom(c, st, ei, 0) == Ok(Copied(st, h, c.data, w))
    {
      PropsCopy(c, st, ei, 0, h, w);
    }
  }

  // ------------------------------------------------------------ the instances

  lemma InstancesDone(c: Ctx, st: St, ei: nat, k: nat)
    requires CtxOk(c) && StOk(c, st) && ei < |c.m.elements| && k >= c.m.elements[ei].size
    ensures InstancesFrom(c, st, ei, k) == Ok(st)
  {
  }

  lemma InstancesStep(c: Ctx, st: St, ei: nat, k: nat)
    requires CtxOk(c) && StOk(c, st) && ei < |c.m.elements| && k < c.m.elements[ei].size
    ensures PropsFrom(c, st, ei, 0).Err? ==> InstancesFrom(c, st, ei, k).Err?
    ensures PropsFrom(c, st, ei, 0).Ok? ==> InstancesFrom(c, st, ei, k) == InstancesFrom(c, PropsFrom(c, st, ei, 0).value, ei, k + 1)
  {
  }

  lemma InstancesMeasureDone(c: Ctx, st: St, ei: nat, k: nat, h: nat, n: nat)
    requires CtxOk(c) && StOk(c, st) && ei < |c.m.elements| && h < |c.m.helpers|
    requires c.m.elements[ei].size <= k <= Reps(c.m.elements[ei])
    requires n == Span(Reps(c.m.elements[ei]) - k, RowBytes(c.m.elements[ei].properties, 0))
    ensures InstancesFrom(c, st, ei, k) == Ok(Measured(st, h, n))
  {
    InstancesDone(c, st, ei, k);
    MeasuredNothing(st, h);
  }

  lemma InstancesCopyDone(c: Ctx, st: St, ei: nat, k: nat, h: nat, n: nat)
    requires CtxOk(c) && StOk(c, st) && ei < |c.m.elements|
    requires c.m.elements[ei].size <= k <= Reps(c.m.elements[ei])
    requires n == Span(Reps(c.m.elements[ei]) - k, RowBytes(c.m.elements[ei].properties, 0)) && Room(st, h, c.data, n)
    ensures InstancesFrom(c, st, ei, k) == Ok(Copied(st, h, c.data, n))
  {
    InstancesDone(c, st, ei, k);
    CopiedNothing(st, h, c.data);
  }

  /** One instance measured, or the stream too short for it and the rest of `n`. */
  lemma InstancesMeasureCons(c: Ctx, st: St, ei: nat, k: nat, h: nat, n: nat)
    requires CtxOk(c) && StOk(c, st) && ei < |c.m.elements| && h < |c.m.helpers| && MeasuresRow(c, ei, h)
    requires k < c.m.elements[ei].size && n == Span(Reps(c.m.elements[ei]) - k, RowBytes(c.m.elements[ei].properties, 0))
    ensures var w := RowBytes(c.m.elements[ei].properties, 0);
      w <= n && n - w == Span(Reps(c.m.elements[ei]) - (k + 1), w)
      && if st.pos + w <= |c.data| then
           StOk(c, Measured(st, h, w)) && Measured(st, h, w).pos + (n - w) == st.pos + n
           && InstancesFrom(c, st, ei, k) == InstancesFrom(c, Measured(st, h, w), ei, k + 1)
           && Measured(Measured(st, h, w), h, n - w) == Measured(st, h, n)
         else st.pos + n > |c.data| && InstancesFrom(c, st, ei, k).Err?
  {
    var e := c.m.elements[ei];
    var w := RowBytes(e.properties, 0);
    assert n - w == Span(Reps(e) - (k + 1), w);
    MeasuredTwice(st, h, w, n);
    InstancesStep(c, st, ei, k);
  }

  /** The first pass over the instances from `k` on measures their `n` bytes. */
  lemma {:induction false} InstancesMeasure(c: Ctx, st: St, ei: nat, k: nat, h: nat, n: nat)
    requires CtxOk(c) && StOk(c, st) && ei < |c.m.elements| && h < |c.m.helpers| && MeasuresRow(c, ei, h)
    requires k <= Reps(c.m.elements[ei]) && n == Span(Reps(c.m.elements[ei]) - k, RowBytes(c.m.elements[ei].properties, 0))
    ensures if st.pos + n <= |c.data| then InstancesFrom(c, st, ei, k) == Ok(Measured(st, h, n))
      else InstancesFrom(c, st, ei, k).Err?
    decreases Reps(c.m.elements[ei]) - k
  {
    if k < c.m.elements[ei].size {
      var w := RowBytes(c.m.elements[ei].properties, 0);
      InstancesMeasureCons(c, st, ei, k, h, n);
      if st.pos + w <= |c.data| {
        InstancesMeasure(c, Measured(st, h, w), ei, k + 1, h, n - w);
      }
    } else {
      InstancesMeasureDone(c, st, ei, k, h, n);
    }
  }

  /** One instance copied, and the rest of `n` still to copy. */
  lemma InstancesCopyCons(c: Ctx, st: St, ei: nat, k: nat, h: nat, n: nat)
    requires CtxOk(c) && StOk(c, st) && ei < |c.m.elements| && CopiesRow(c, ei, h)
    requires k < c.m.elements[ei].size && n == Span(Reps(c.m.elements[ei]) - k, RowBytes(c.m.elements[ei].properties, 0))
    requires Room(st, h, c.data, n)
    ensures var w := RowBytes(c.m.elements[ei].properties, 0);
      w <= n && n - w == Span(Reps(c.m.elements[ei]) - (k + 1), w)
      && StOk(c, Copied(st, h, c.data, w)) && Room(Copied(st, h, c.data, w), h, c.data, n - w)
      && InstancesFrom(c, st, ei, k) == InstancesFrom(c, Copied(st, h, c.data, w), ei, k + 1)
      && Copied(Copied(st, h, c.data, w), h, c.data, n - w) == Copied(st, h, c.data, n)
  {
    var e := c.m.elements[ei];
    var w := RowBytes(e.properties, 0);
    assert n - w == Span(Reps(e) - (k + 1), w);
    CopiedTwice(st, h, c.data, w, n);
    InstancesStep(c, st, ei, k);
  }

  /** The second pass over the instances from `k` on copies their `n` bytes. */
  lemma {:induction false} InstancesCopy(c: Ctx, st: St, ei: nat, k: nat, h: nat, n: nat)
    requires CtxOk(c) && StOk(c, st) && ei < |c.m.elements| && CopiesRow(c, ei, h)
    requires k <= Reps(c.m.elements[ei]) && n == Span(Reps(c.m.elements[ei]) - k, RowBytes(c.m.elements[ei].properties, 0))
    requires Room(st, h, c.data, n)
    ensures InstancesFrom(c, st, ei, k) == Ok(Copied(st, h, c.data, n))
    decreases Reps(c.m.elements[ei]) - k
  {
    if k < c.m.elements[ei].size {
      var w := RowBytes(c.m.elements[ei].properties, 0);
      InstancesCopyCons(c, st, ei, k, h, n);
      InstancesCopy(c, Copied(st, h, c.data, w), ei, k + 1, h, n - w);
    } else {
      InstancesCopyDone(c, st, ei, k, h, n);
    }
  }

  // ------------------------------------------------------------ the document

  /** A grouped element's row of the lookup table: every property on helper `h`. */
  lemma GroupOnTable(c: Ctx, ei: nat, h: nat)
    requires CtxOk(c) && c.table == MakePropertyLookupTable(c.m) && ei < |c.m.elements| && OneGroup(c.m, ei, h)
    ensures RowOnHelper(c, ei, h)
  {
    var e := c.m.elements[ei];
    forall j | 0 <= j < |e.properties|
      ensures c.table[ei][j].helper == Some(h) && c.table[ei][j].propStride == Stride(e.properties[j].propertyType)
    {
      assert c.table[ei] == LookupRow(c.m.userData, e);
      assert c.table[ei][j] == LookupOf(c.m.userData, e, e.properties[j]);
    }
  }

  /** The helper of a grouped element with a property is in the arena and bound. */
  lemma GroupedHelper(m: Impl, ei: nat, h: nat)
    requires WellFormed(m) && ei < |m.elements| && |m.elements[ei].properties| > 0 && OneGroup(m, ei, h)
    ensures h < |m.helpers| && Referenced(m.userData, h)
  {
    var e := m.elements[ei];
    var key := BindingKey(e.name, e.properties[0].name);
    assert FindEntry(m.userData, key) == Some(h);
    var i :| 0 <= i < |m.userData| && m.userData[i] == Entry(key, h);
    assert m.userData[i].helper == h;
  }

  /** A document of one element runs that element's instances. */
  lemma OneElementPass(c: Ctx, st: St)
    requires CtxOk(c) && StOk(c, st) && |c.m.elements| == 1
    ensures ElementsFrom(c, st, 0) == InstancesFrom(c, st, 0, 0)
  {
    var r := InstancesFrom(c, st, 0, 0);
    if r.Ok? {
      assert ElementsFrom(c, r.value, 1) == Ok(r.value);
    }
  }

  /** The first pass over a binary document of one grouped element adds the
      element's `Reps(e) * RowBytes(ps, 0)` bytes to its helper's TotalSizeBytes, and
      fails exactly when the stream holds fewer. */
  lemma GroupedFirstPass(m: Impl, data: seq<byte>, pos: nat, floats: FloatText, h: nat)
    requires WellFormed(m) && pos <= |data| && m.isBinary
    requires |m.elements| == 1 && |m.elements[0].properties| > 0 && OneGroup(m, 0, h)
    ensures var e := m.elements[0];
      var n := Span(Reps(e), RowBytes(e.properties, 0));
      h < |m.helpers| && Referenced(m.userData, h)
      && (ParseData(m, data, pos, true, floats).Ok? <==> pos + n <= |data|)
      && (pos + n <= |data| ==> ParseData(m, data, pos, true, floats) == Ok(m.(helpers := AddTotal(m.helpers, h, n))))
  {
    var e := m.elements[0];
    var n := Span(Reps(e), RowBytes(e.properties, 0));
    GroupedHelper(m, 0, h);
    var c := PassCtx(m, data, true, floats);
    var st := St(m.helpers, m.elements, pos, 0);
    GroupOnTable(c, 0, h);
    SkipperMeasures(c, m.isBigEndian, 0, h);
    RowMeasures(c, 0, h);
    InstancesMeasure(c, st, 0, 0, h, n);
    OneElementPass(c, st);
  }

  /** A copying pass over one grouped element copies the element's bytes. */
  lemma ElementCopies(c: Ctx, bigEndian: bool, st: St, h: nat, n: nat)
    requires CtxOk(c) && !c.firstPass && c.read == BinaryReader(c.data, bigEndian) && c.table == MakePropertyLookupTable(c.m)
    requires |c.m.elements| == 1 && OneGroup(c.m, 0, h) && StOk(c, st)
    requires n == Span(Reps(c.m.elements[0]), RowBytes(c.m.elements[0].properties, 0)) && Room(st, h, c.data, n)
    ensures ElementsFrom(c, st, 0) == Ok(Copied(st, h, c.data, n))
  {
    GroupOnTable(c, 0, h);
    ReaderCopies(c, bigEndian, 0, h);
    RowCopies(c, 0, h);
    InstancesCopy(c, st, 0, 0, h, n);
    OneElementPass(c, st);
  }

  /** The copying pass over a binary document of one grouped element copies the
      element's bytes into its helper. */
  lemma GroupedCopy(m: Impl, data: seq<byte>, pos: nat, floats: FloatText, h: nat, n: nat)
    requires WellFormed(m) && pos <= |data| && m.isBinary
    requires |m.elements| == 1 && OneGroup(m, 0, h)
    requires n == Span(Reps(m.elements[0]), RowBytes(m.elements[0].properties, 0))
    requires Room(St(m.helpers, m.elements, pos, 0), h, data, n)
    ensures ParseData(m, data, pos, false, floats) == Ok(m.(helpers := Copied(St(m.helpers, m.elements, pos, 0), h, data, n).helpers))
  {
    ElementCopies(PassCtx(m, data, false, floats), m.isBigEndian, St(m.helpers, m.elements, pos, 0), h, n);
  }

  /** The buffer Copied leaves for a whole element: its instances over the old
      bytes at the offset. */
  lemma CopiedBuffer(st: St, h: nat, data: seq<byte>, ps: seq<Property>, reps: nat, n: nat)
    requires n == Span(reps, RowBytes(ps, 0)) && Room(st, h, data, n)
    ensures var dest := st.helpers[h].data.buffer.value;
      var off := st.helpers[h].cursor.byteOffset;
      Copied(st, h, data, n).helpers == SetFilled(st.helpers, h, dest[..off] + Interleaved(data, st.pos, ps, reps) + dest[off + n..], off + n)
  {
    SplicedIsCopy(st.helpers[h].data.buffer.value, st.helpers[h].cursor.byteOffset, data, st.pos, n);
    InterleavedIsSlice(data, st.pos, ps, reps, st.pos + n);
  }

  /** A zeroed buffer overwritten from its start to its end holds what was written. */
  lemma Overwritten(n: nat, bytes: seq<byte>)
    requires |bytes| == n
    ensures Zeros(n)[..0] + bytes + Zeros(n)[n..] == bytes
  {
  }

  /** Prepare on a fresh binary document of one grouped element gives the helper a
      zeroed buffer of the element's bytes, with the ByteOffset at its start, and
      fails when the stream is shorter. */
  lemma GroupedPrepare(m: Impl, data: seq<byte>, pos: nat, floats: FloatText, h: nat, n: nat)
    requires WellFormed(m) && pos <= |data| && m.isBinary && Fresh(m) && ListHints(m) == 0
    requires |m.elements| == 1 && |m.elements[0].properties| > 0 && OneGroup(m, 0, h)
    requires n == Span(Reps(m.elements[0]), RowBytes(m.elements[0].properties, 0))
    ensures Prepare(m, data, pos, floats).Ok? <==> pos + n <= |data|
    ensures pos + n <= |data| ==>
      var mp := Prepare(m, data, pos, floats).value;
      WellFormed(mp) && mp == m.(helpers := mp.helpers) && h < |mp.helpers|
      && mp.helpers[h].data.buffer == Some(Zeros(n)) && mp.helpers[h].cursor == Cursor(0, n)
  {
    GroupedFirstPass(m, data, pos, floats, h);
    if pos + n <= |data| {
      AllocationFits(m, data, pos, floats);
      var m1 := ParseData(m, data, pos, true, floats).value;
      assert m1.helpers[h].cursor == Cursor(0, n);
    }
  }

  /** For a little-endian stream, Read is Prepare and then the copying pass. */
  lemma LittleEndianRead(m: Impl, data: seq<byte>, pos: nat, floats: FloatText)
    requires WellFormed(m) && pos <= |data| && !m.isBigEndian && Prepare(m, data, pos, floats).Ok?
    ensures Read(m, data, pos, floats) == ParseData(Prepare(m, data, pos, floats).value, data, pos, false, floats)
  {
  }

  /** Read of a fresh little-endian binary document of one element whose properties
      are all scalars requested together: it fails exactly when the stream holds
      fewer than `Reps(e) * RowBytes(ps, 0)` bytes from `pos`; otherwise the helper's
      buffer holds the instances one after the other, each property's bytes in
      header order, and its ByteOffset and TotalSizeBytes stand at the end. */
  lemma GroupedRead(m: Impl, data: seq<byte>, pos: nat, floats: FloatText, h: nat)
    requires WellFormed(m) && pos <= |data| && m.isBinary && !m.isBigEndian && Fresh(m) && ListHints(m) == 0
    requires |m.elements| == 1 && |m.elements[0].properties| > 0 && OneGroup(m, 0, h)
    ensures var e := m.elements[0];
      var n := Reps(e) * RowBytes(e.properties, 0);
      h < |m.helpers| && Span(Reps(e), RowBytes(e.properties, 0)) == n
      && (Read(m, data, pos, floats).Ok? <==> pos + n <= |data|)
      && (pos + n <= |data| ==>
            var r := Read(m, data, pos, floats).value;
            h < |r.helpers| && r.helpers[h].data.buffer == Some(Interleaved(data, pos, e.properties, Reps(e)))
            && r.helpers[h].cursor == Cursor(n, n))
  {
    var e := m.elements[0];
    var n := Span(Reps(e), RowBytes(e.properties, 0));
    SpanIsProduct(Reps(e), RowBytes(e.properties, 0));
    GroupedHelper(m, 0, h);
    GroupedPrepare(m, data, pos, floats, h, n);
    if pos + n <= |data| {
      var mp := Prepare(m, data, pos, floats).value;
      assert OneGroup(mp, 0, h);
      GroupedCopy(mp, data, pos, floats, h, n);
      CopiedBuffer(St(mp.helpers, mp.elements, pos, 0), h, data, e.properties, Reps(e), n);
      Overwritten(n, Interleaved(data, pos, e.properties, Reps(e)));
      LittleEndianRead(m, data, pos, floats);
    }
  }
}
