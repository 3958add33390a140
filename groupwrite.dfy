/** What Write emits for an element whose properties are all scalars bound to one
    helper. Each instance writes every property's value in header order from the
    helper's buffer: in binary its PropStride bytes as they are, in ascii its text
    followed by a space, with a line break after each instance. */
module GroupWrite {
  import opened Wrappers
  import opened Bytes
  import opened PlyTypes
  import opened Floats
  import opened Text
  import opened Schema
  import opened DataPass
  import opened PlyWrite
  import opened GroupFacts

  /** What one value of type `t` stored at `at` becomes in the output. */
  type Cell = (PlyType, int) -> seq<byte>

  /** The binary cell: the value's bytes as they are. */
  function BinaryCell(buf: seq<byte>, t: PlyType, at: int): seq<byte>
  {
    if 0 <= at && at + Stride(t) <= |buf| then buf[at..at + Stride(t)] else []
  }

  /** The ascii cell: the value's text followed by a space. */
  function AsciiCell(buf: seq<byte>, floats: FloatText, t: PlyType, at: int): seq<byte>
  {
    var v := AsciiValue(t, buf, at, floats);
    Encode((if v.Ok? then v.value else "") + " ")
  }

  function BinaryCells(buf: seq<byte>): Cell
  {
    (t, at) => BinaryCell(buf, t, at)
  }

  function AsciiCells(buf: seq<byte>, floats: FloatText): Cell
  {
    (t, at) => AsciiCell(buf, floats, t, at)
  }

  /** One instance from property `j` on, its first value at `at`. */
  function RowOut(cell: Cell, ps: seq<Property>, j: nat, at: int): seq<byte>
    requires j <= |ps|
    decreases |ps| - j
  {
    if j == |ps| then [] else cell(ps[j].propertyType, at) + RowOut(cell, ps, j + 1, at + Stride(ps[j].propertyType))
  }

  /** `n` instances from `at` on, each followed by `end`. */
  function RowsOut(cell: Cell, ps: seq<Property>, n: nat, at: int, end: seq<byte>): seq<byte>
    decreases n
  {
    if n == 0 then [] else RowOut(cell, ps, 0, at) + end + RowsOut(cell, ps, n - 1, at + RowBytes(ps, 0), end)
  }

  // ------------------------------------------------------------ writer states

  /** The writer after `bytes` more output and helper `h`'s ByteOffset moved to `off`. */
  function Emitted(st: WSt, h: nat, off: int, bytes: seq<byte>): WSt
    requires h < |st.helpers|
  {
    var x := st.helpers[h];
    WSt(st.helpers[h := x.(cursor := x.cursor.(byteOffset := off))], st.out + bytes)
  }

  lemma EmittedTwice(st: WSt, h: nat, a: int, b: int, xs: seq<byte>, ys: seq<byte>)
    requires h < |st.helpers|
    ensures Emitted(Emitted(st, h, a, xs), h, b, ys) == Emitted(st, h, b, xs + ys)
  {
    assert st.out + xs + ys == st.out + (xs + ys);
  }

  lemma EmittedNothing(st: WSt, h: nat)
    requires h < |st.helpers|
    ensures Emitted(st, h, st.helpers[h].cursor.byteOffset, []) == st
  {
    assert st.out + [] == st.out;
    assert st.helpers[h := st.helpers[h]] == st.helpers;
  }

  /** Helper `h` holds `buf` with a ByteOffset inside it. */
  predicate Holds(st: WSt, h: nat, buf: seq<byte>)
  {
    h < |st.helpers| && st.helpers[h].data.buffer == Some(buf) && 0 <= st.helpers[h].cursor.byteOffset <= |buf|
  }

  /** Every property of element `ei` is a scalar looked up on helper `h`. */
  predicate WRowOnHelper(c: WCtx, ei: nat, h: nat)
    requires TableFits(c.m, c.table) && ei < |c.m.elements|
  {
    var ps := c.m.elements[ei].properties;
    forall j :: 0 <= j < |ps| ==>
      !ps[j].isList && c.table[ei][j].helper == Some(h) && c.table[ei][j].propStride == Stride(ps[j].propertyType)
  }

  lemma WGroupOnTable(c: WCtx, ei: nat, h: nat)
    requires TableFits(c.m, c.table) && c.table == MakePropertyLookupTable(c.m) && ei < |c.m.elements| && OneGroup(c.m, ei, h)
    ensures WRowOnHelper(c, ei, h)
  {
    var e := c.m.elements[ei];
    forall j | 0 <= j < |e.properties|
      ensures c.table[ei][j].helper == Some(h) && c.table[ei][j].propStride == Stride(e.properties[j].propertyType)
    {
      assert c.table[ei] == LookupRow(c.m.userData, e);
      assert c.table[ei][j] == LookupOf(c.m.userData, e, e.properties[j]);
    }
  }

  // ------------------------------------------------------------ one property

  /** Property `j` of element `ei`, at a bound state holding `buf`, writes its cell
      and moves the ByteOffset past its stride when the buffer holds it, and
      throws otherwise. */
  predicate EmitOne(c: WCtx, st: WSt, ei: nat, i: nat, j: nat, h: nat, buf: seq<byte>, cell: Cell)
    requires TableFits(c.m, c.table) && ei < |c.m.elements| && WRowOnHelper(c, ei, h)
  {
    var ps := c.m.elements[ei].properties;
    WOk(c, st) && j < |ps| && Holds(st, h, buf) ==>
      var off := st.helpers[h].cursor.byteOffset;
      var s := Stride(ps[j].propertyType);
      if off + s <= |buf| then EmitAt(c, st, ei, i, j, j) == Ok(Emitted(st, h, off + s, cell(ps[j].propertyType, off)))
      else EmitAt(c, st, ei, i, j, j).Err?
  }

  /** Every property of element `ei` writes its cell, from every state. */
  ghost predicate EmitsEach(c: WCtx, ei: nat, h: nat, buf: seq<byte>, cell: Cell)
    requires TableFits(c.m, c.table) && ei < |c.m.elements| && WRowOnHelper(c, ei, h)
  {
    forall st: WSt, i: nat, j: nat :: EmitOne(c, st, ei, i, j, h, buf, cell)
  }

  lemma BinaryStep(c: WCtx, st: WSt, ei: nat, i: nat, j: nat, h: nat, buf: seq<byte>)
    requires TableFits(c.m, c.table) && ei < |c.m.elements| && WRowOnHelper(c, ei, h) && c.emit == BinaryEmitter()
    ensures EmitOne(c, st, ei, i, j, h, buf, BinaryCells(buf))
  {
    if WOk(c, st) && j < |c.m.elements[ei].properties| && Holds(st, h, buf) {
      var p := c.m.elements[ei].properties[j];
      var f := c.table[ei][j];
      assert c.emit(p, f, st.helpers[h], i) == BinaryProperty(p, f, st.helpers[h], i);
    }
  }

  lemma BinaryEmits(c: WCtx, ei: nat, h: nat, buf: seq<byte>)
    requires TableFits(c.m, c.table) && ei < |c.m.elements| && WRowOnHelper(c, ei, h) && c.emit == BinaryEmitter()
    ensures EmitsEach(c, ei, h, buf, BinaryCells(buf))
  {
    forall st: WSt, i: nat, j: nat
      ensures EmitOne(c, st, ei, i, j, h, buf, BinaryCells(buf))
    {
      BinaryStep(c, st, ei, i, j, h, buf);
    }
  }

  /** No property of element `ei` has type INVALID. */
  predicate ValidTypes(ps: seq<Property>)
  {
    forall j :: 0 <= j < |ps| ==> ps[j].propertyType != INVALID
  }

  lemma AsciiStep(c: WCtx, floats: FloatText, st: WSt, ei: nat, i: nat, j: nat, h: nat, buf: seq<byte>)
    requires TableFits(c.m, c.table) && ei < |c.m.elements| && WRowOnHelper(c, ei, h) && c.emit == AsciiEmitter(floats)
    requires ValidTypes(c.m.elements[ei].properties)
    ensures EmitOne(c, st, ei, i, j, h, buf, AsciiCells(buf, floats))
  {
    if WOk(c, st) && j < |c.m.elements[ei].properties| && Holds(st, h, buf) {
      var p := c.m.elements[ei].properties[j];
      var f := c.table[ei][j];
      assert c.emit(p, f, st.helpers[h], i) == AsciiProperty(floats, p, st.helpers[h], i);
    }
  }

  lemma AsciiEmits(c: WCtx, floats: FloatText, ei: nat, h: nat, buf: seq<byte>)
    requires TableFits(c.m, c.table) && ei < |c.m.elements| && WRowOnHelper(c, ei, h) && c.emit == AsciiEmitter(floats)
    requires ValidTypes(c.m.elements[ei].properties)
    ensures EmitsEach(c, ei, h, buf, AsciiCells(buf, floats))
  {
    forall st: WSt, i: nat, j: nat
      ensures EmitOne(c, st, ei, i, j, h, buf, AsciiCells(buf, floats))
    {
      AsciiStep(c, floats, st, ei, i, j, h, buf);
    }
  }

  // ------------------------------------------------------------ one instance

  /** The property loop from `j` on (with propertyIdx equal to `j`, as every lookup
      is bound) writes the rest of the row, or throws when the buffer is short. */
  lemma {:induction false} PropsRow(c: WCtx, st: WSt, ei: nat, i: nat, j: nat, h: nat, buf: seq<byte>, cell: Cell)
    requires TableFits(c.m, c.table) && ei < |c.m.elements| && WRowOnHelper(c, ei, h) && EmitsEach(c, ei, h, buf, cell)
    requires WOk(c, st) && j <= |c.m.elements[ei].properties| && Holds(st, h, buf)
    ensures var ps := c.m.elements[ei].properties;
      var off := st.helpers[h].cursor.byteOffset;
      if off + RowBytes(ps, j) <= |buf| then PropsOut(c, st, ei, i, j, j) == Ok(Emitted(st, h, off + RowBytes(ps, j), RowOut(cell, ps, j, off)))
      else PropsOut(c, st, ei, i, j, j).Err?
    decreases |c.m.elements[ei].properties| - j
  {
    var ps := c.m.elements[ei].properties;
    var off := st.helpers[h].cursor.byteOffset;
    if j == |ps| {
      EmittedNothing(st, h);
    } else {
      var s := Stride(ps[j].propertyType);
      assert c.table[ei][j].helper.Some?;
      assert EmitOne(c, st, ei, i, j, h, buf, cell);
      if off + s <= |buf| {
        var st' := Emitted(st, h, off + s, cell(ps[j].propertyType, off));
        assert EmitAt(c, st, ei, i, j, j) == Ok(st');
        assert WOk(c, st') && Holds(st', h, buf) && st'.helpers[h].cursor.byteOffset == off + s;
        PropsRow(c, st', ei, i, j + 1, h, buf, cell);
        if off + RowBytes(ps, j) <= |buf| {
          EmittedTwice(st, h, off + s, off + RowBytes(ps, j), cell(ps[j].propertyType, off), RowOut(cell, ps, j + 1, off + s));
        }
      } else {
        assert EmitAt(c, st, ei, i, j, j).Err?;
      }
    }
  }

  /** A whole instance of element `ei`, from a bound state holding `buf`, writes its
      row, or throws when the buffer is short. */
  predicate RowOne(c: WCtx, st: WSt, ei: nat, i: nat, h: nat, buf: seq<byte>, cell: Cell)
    requires TableFits(c.m, c.table) && ei < |c.m.elements|
  {
    var ps := c.m.elements[ei].properties;
    WOk(c, st) && Holds(st, h, buf) ==>
      var off := st.helpers[h].cursor.byteOffset;
      if off + RowBytes(ps, 0) <= |buf| then PropsOut(c, st, ei, i, 0, 0) == Ok(Emitted(st, h, off + RowBytes(ps, 0), RowOut(cell, ps, 0, off)))
      else PropsOut(c, st, ei, i, 0, 0).Err?
  }

  /** Every instance of element `ei` writes its row, from every state. */
  ghost predicate RowEmits(c: WCtx, ei: nat, h: nat, buf: seq<byte>, cell: Cell)
    requires TableFits(c.m, c.table) && ei < |c.m.elements|
  {
    forall st: WSt, i: nat :: RowOne(c, st, ei, i, h, buf, cell)
  }

  lemma RowsEmit(c: WCtx, ei: nat, h: nat, buf: seq<byte>, cell: Cell)
    requires TableFits(c.m, c.table) && ei < |c.m.elements| && WRowOnHelper(c, ei, h) && EmitsEach(c, ei, h, buf, cell)
    ensures RowEmits(c, ei, h, buf, cell)
  {
    forall st: WSt, i: nat
      ensures RowOne(c, st, ei, i, h, buf, cell)
    {
      if WOk(c, st) && Holds(st, h, buf) {
        PropsRow(c, st, ei, i, 0, h, buf, cell);
      }
    }
  }

  // ------------------------------------------------------------ the instances

  /** One instance written, then its end. */
  lemma InstanceCons(c: WCtx, st: WSt, ei: nat, k: nat, h: nat, buf: seq<byte>, cell: Cell)
    requires TableFits(c.m, c.table) && ei < |c.m.elements| && RowEmits(c, ei, h, buf, cell)
    requires WOk(c, st) && Holds(st, h, buf) && k < c.m.elements[ei].size
    ensures var ps := c.m.elements[ei].properties;
      var off := st.helpers[h].cursor.byteOffset;
      var w := RowBytes(ps, 0);
      if off + w <= |buf| then
        var st' := Emitted(st, h, off + w, RowOut(cell, ps, 0, off) + c.endInstance);
        WOk(c, st') && Holds(st', h, buf) && st'.helpers[h].cursor.byteOffset == off + w
        && InstancesOut(c, st, ei, k) == InstancesOut(c, st', ei, k + 1)
      else InstancesOut(c, st, ei, k).Err?
  {
    var ps := c.m.elements[ei].properties;
    var off := st.helpers[h].cursor.byteOffset;
    var w := RowBytes(ps, 0);
    assert RowOne(c, st, ei, k, h, buf, cell);
    if off + w <= |buf| {
      var s1 := Emitted(st, h, off + w, RowOut(cell, ps, 0, off));
      assert PropsOut(c, st, ei, k, 0, 0) == Ok(s1);
      assert s1.(out := s1.out + c.endInstance) == Emitted(st, h, off + w, RowOut(cell, ps, 0, off) + c.endInstance);
    } else {
      assert PropsOut(c, st, ei, k, 0, 0).Err?;
    }
  }

  /** The instance loop from `k` on writes the remaining rows, each followed by the
      instance's end, and moves the ByteOffset past them; it throws when the buffer
      is shorter. */
  lemma {:induction false} InstancesRows(c: WCtx, st: WSt, ei: nat, k: nat, h: nat, buf: seq<byte>, cell: Cell)
    requires TableFits(c.m, c.table) && ei < |c.m.elements| && RowEmits(c, ei, h, buf, cell)
    requires WOk(c, st) && Holds(st, h, buf) && k <= Reps(c.m.elements[ei])
    ensures var ps := c.m.elements[ei].properties;
      var off := st.helpers[h].cursor.byteOffset;
      var n := Span(Reps(c.m.elements[ei]) - k, RowBytes(ps, 0));
      if off + n <= |buf| then
        InstancesOut(c, st, ei, k) == Ok(Emitted(st, h, off + n, RowsOut(cell, ps, Reps(c.m.elements[ei]) - k, off, c.endInstance)))
      else InstancesOut(c, st, ei, k).Err?
    decreases Reps(c.m.elements[ei]) - k
  {
    var e := c.m.elements[ei];
    var ps := e.properties;
    var off := st.helpers[h].cursor.byteOffset;
    var w := RowBytes(ps, 0);
    if k < e.size {
      InstanceCons(c, st, ei, k, h, buf, cell);
      if off + w <= |buf| {
        var row := RowOut(cell, ps, 0, off) + c.endInstance;
        var st' := Emitted(st, h, off + w, row);
        InstancesRows(c, st', ei, k + 1, h, buf, cell);
        var n := Span(Reps(e) - k, w);
        assert n == w + Span(Reps(e) - (k + 1), w);
        if off + n <= |buf| {
          var rest := RowsOut(cell, ps, Reps(e) - (k + 1), off + w, c.endInstance);
          var st2 := Emitted(st', h, off + n, rest);
          assert InstancesOut(c, st', ei, k + 1) == Ok(st2);
          EmittedTwice(st, h, off + w, off + n, row, rest);
          assert RowsOut(cell, ps, Reps(e) - k, off, c.endInstance) == row + rest;
          assert st2 == Emitted(st, h, off + n, row + rest);
        }
      }
    } else {
      EmittedNothing(st, h);
    }
  }

  // ------------------------------------------------------------ the document

  /** A document of one element writes that element's instances. */
  lemma OneElementOut(c: WCtx, st: WSt)
    requires WOk(c, st) && |c.m.elements| == 1
    ensures ElementsOut(c, st, 0) == InstancesOut(c, st, 0, 0)
  {
    var r := InstancesOut(c, st, 0, 0);
    if r.Ok? {
      assert ElementsOut(c, r.value, 1) == Ok(r.value);
    }
  }

  /** The helper of a grouped element after Write resets it: the same buffer, its
      ByteOffset at 0. */
  lemma ResetHelper(m: Impl, isBinary: bool, h: nat, buf: seq<byte>)
    requires WellFormed(m) && h < |m.helpers| && Referenced(m.userData, h) && m.helpers[h].data.buffer == Some(buf)
    ensures var m0 := WriteStart(m, isBinary);
      h < |m0.helpers| && m0.helpers[h].data.buffer == Some(buf) && m0.helpers[h].cursor.byteOffset == 0
  {
  }

  /** The payload loop of Write over a grouped element. */
  lemma GroupedPayload(c: WCtx, h: nat, buf: seq<byte>, cell: Cell)
    requires WOk(c, WSt(c.m.helpers, [])) && |c.m.elements| == 1 && RowEmits(c, 0, h, buf, cell)
    requires Holds(WSt(c.m.helpers, []), h, buf) && c.m.helpers[h].cursor.byteOffset == 0
    ensures var ps := c.m.elements[0].properties;
      var reps := Reps(c.m.elements[0]);
      var n := reps * RowBytes(ps, 0);
      var st := WSt(c.m.helpers, []);
      if n <= |buf| then ElementsOut(c, st, 0) == Ok(Emitted(st, h, n, RowsOut(cell, ps, reps, 0, c.endInstance)))
      else ElementsOut(c, st, 0).Err?
  {
    var ps := c.m.elements[0].properties;
    SpanIsProduct(Reps(c.m.elements[0]), RowBytes(ps, 0));
    InstancesRows(c, WSt(c.m.helpers, []), 0, 0, h, buf, cell);
    OneElementOut(c, WSt(c.m.helpers, []));
  }

  /** The binary cells of an instance are its bytes in the buffer. */
  lemma {:induction false} BinaryRowIsSlices(buf: seq<byte>, ps: seq<Property>, j: nat, at: nat)
    requires j <= |ps| && at + RowBytes(ps, j) <= |buf|
    ensures RowOut(BinaryCells(buf), ps, j, at) == InstanceSlices(buf, at, ps, j)
    decreases |ps| - j
  {
    if j < |ps| {
      BinaryRowIsSlices(buf, ps, j + 1, at + Stride(ps[j].propertyType));
    }
  }

  /** The binary rows, with nothing after each instance, are the instances one after
      the other. */
  lemma {:induction false} BinaryRowsInterleaved(buf: seq<byte>, ps: seq<Property>, n: nat, at: nat)
    requires at + Span(n, RowBytes(ps, 0)) <= |buf|
    ensures RowsOut(BinaryCells(buf), ps, n, at, []) == Interleaved(buf, at, ps, n)
    decreases n
  {
    if n > 0 {
      BinaryRowIsSlices(buf, ps, 0, at);
      BinaryRowsInterleaved(buf, ps, n - 1, at + RowBytes(ps, 0));
      var row := RowOut(BinaryCells(buf), ps, 0, at);
      assert row + [] == row;
    }
  }

  /** The context Write builds for its payload. */
  function WriteCtx(m0: Impl, isBinary: bool, floats: FloatText): WCtx
  {
    if isBinary then WCtx(m0, MakePropertyLookupTable(m0), BinaryEmitter(), [])
    else WCtx(m0, MakePropertyLookupTable(m0), AsciiEmitter(floats), Encode("\n"))
  }

  /** Write is the header followed by the payload loop's output. */
  lemma WriteOf(m: Impl, isBinary: bool, floats: FloatText)
    requires WellFormed(m)
    ensures var m0 := WriteStart(m, isBinary);
      TableFits(m0, MakePropertyLookupTable(m0))
      && var r := ElementsOut(WriteCtx(m0, isBinary, floats), WSt(m0.helpers, []), 0);
      (Write(m, isBinary, floats).Ok? <==> r.Ok?)
      && (r.Ok? ==> Write(m, isBinary, floats).value == (m0.(helpers := r.value.helpers), Encode(HeaderText(m0)) + r.value.out))
  {
    LookupTableFits(WriteStart(m, isBinary));
  }

  /** The payload of a grouped element in the context Write builds. */
  lemma GroupedElementOut(m: Impl, isBinary: bool, floats: FloatText, h: nat, buf: seq<byte>, cell: Cell)
    requires WellFormed(m) && |m.elements| == 1 && |m.elements[0].properties| > 0 && OneGroup(m, 0, h)
    requires !isBinary ==> ValidTypes(m.elements[0].properties)
    requires h < |m.helpers| && m.helpers[h].data.buffer == Some(buf)
    requires cell == if isBinary then BinaryCells(buf) else AsciiCells(buf, floats)
    ensures var m0 := WriteStart(m, isBinary);
      var c := WriteCtx(m0, isBinary, floats);
      var ps := m.elements[0].properties;
      var reps := Reps(m.elements[0]);
      var n := reps * RowBytes(ps, 0);
      var st := WSt(m0.helpers, []);
      WOk(c, st) && h < |st.helpers|
      && if n <= |buf| then ElementsOut(c, st, 0) == Ok(Emitted(st, h, n, RowsOut(cell, ps, reps, 0, c.endInstance)))
         else ElementsOut(c, st, 0).Err?
  {
    GroupedHelper(m, 0, h);
    ResetHelper(m, isBinary, h, buf);
    var m0 := WriteStart(m, isBinary);
    LookupTableFits(m0);
    var c := WriteCtx(m0, isBinary, floats);
    assert OneGroup(m0, 0, h);
    WGroupOnTable(c, 0, h);
    if isBinary {
      BinaryEmits(c, 0, h, buf);
    } else {
      AsciiEmits(c, floats, 0, h, buf);
    }
    RowsEmit(c, 0, h, buf, cell);
    GroupedPayload(c, h, buf, cell);
  }

  /** The binary rows of `reps` instances are the buffer's first bytes. */
  lemma BinaryRowsAreSlice(buf: seq<byte>, ps: seq<Property>, reps: nat, n: nat)
    requires n == reps * RowBytes(ps, 0) && n <= |buf|
    ensures RowsOut(BinaryCells(buf), ps, reps, 0, []) == buf[..n]
  {
    SpanIsProduct(reps, RowBytes(ps, 0));
    BinaryRowsInterleaved(buf, ps, reps, 0);
    InterleavedIsSlice(buf, 0, ps, reps, n);
  }

  /** The number of buffer bytes a grouped element's instances span. */
  function PayloadBytes(e: Element): nat
  {
    Reps(e) * RowBytes(e.properties, 0)
  }

  /** Write of a grouped element, in either encoding. */
  lemma GroupedWrite(m: Impl, isBinary: bool, floats: FloatText, h: nat, buf: seq<byte>, cell: Cell, end: seq<byte>, rows: seq<byte>)
    requires WellFormed(m) && |m.elements| == 1 && |m.elements[0].properties| > 0 && OneGroup(m, 0, h)
    requires !isBinary ==> ValidTypes(m.elements[0].properties)
    requires h < |m.helpers| && m.helpers[h].data.buffer == Some(buf)
    requires cell == if isBinary then BinaryCells(buf) else AsciiCells(buf, floats)
    requires end == if isBinary then [] else Encode("\n")
    requires Reps(m.elements[0]) * RowBytes(m.elements[0].properties, 0) <= |buf| ==>
      rows == RowsOut(cell, m.elements[0].properties, Reps(m.elements[0]), 0, end)
    ensures var n := Reps(m.elements[0]) * RowBytes(m.elements[0].properties, 0);
      (Write(m, isBinary, floats).Ok? <==> n <= |buf|)
      && (n <= |buf| ==>
            Write(m, isBinary, floats).value.1 == Encode(HeaderText(WriteStart(m, isBinary))) + rows
            && Write(m, isBinary, floats).value.0.helpers[h].cursor.byteOffset == n)
  {
    var ps := m.elements[0].properties;
    var reps := Reps(m.elements[0]);
    var n := reps * RowBytes(ps, 0);
    var m0 := WriteStart(m, isBinary);
    var st := WSt(m0.helpers, []);
    GroupedElementOut(m, isBinary, floats, h, buf, cell);
    WriteOf(m, isBinary, floats);
    if n <= |buf| {
      var e := Emitted(st, h, n, rows);
      assert e.out == rows && e.helpers[h].cursor.byteOffset == n;
    }
  }

  /** Binary Write of a document of one element whose properties are all scalars
      bound to one helper: it fails exactly when the buffer is shorter than
      `Reps(e) * RowBytes(ps, 0)`; otherwise it emits the header and then exactly
      that many leading bytes of the buffer, and leaves the ByteOffset after them. */
  lemma GroupedBinaryWrite(m: Impl, floats: FloatText, h: nat, buf: seq<byte>)
    requires WellFormed(m) && |m.elements| == 1 && |m.elements[0].properties| > 0 && OneGroup(m, 0, h)
    requires h < |m.helpers| && m.helpers[h].data.buffer == Some(buf)
    ensures Write(m, true, floats).Ok? <==> PayloadBytes(m.elements[0]) <= |buf|
    ensures var n := PayloadBytes(m.elements[0]);
      n <= |buf| ==>
        Write(m, true, floats).Ok?
        && Write(m, true, floats).value.1 == Encode(HeaderText(WriteStart(m, true))) + buf[..n]
        && Write(m, true, floats).value.0.helpers[h].cursor.byteOffset == n
  {
    var ps := m.elements[0].properties;
    var reps := Reps(m.elements[0]);
    var n := PayloadBytes(m.elements[0]);
    if n <= |buf| {
      BinaryRowsAreSlice(buf, ps, reps, n);
      GroupedWrite(m, true, floats, h, buf, BinaryCells(buf), [], buf[..n]);
    } else {
      GroupedWrite(m, true, floats, h, buf, BinaryCells(buf), [], []);
    }
  }

  /** Ascii Write of a document of one element whose properties are all valid
      scalars bound to one helper: it fails exactly when the buffer is shorter than
      `Reps(e) * RowBytes(ps, 0)`; otherwise it emits the header and then, for each
      instance, each property's value as text followed by a space, and a line break
      after the instance. */
  lemma GroupedAsciiWrite(m: Impl, floats: FloatText, h: nat, buf: seq<byte>)
    requires WellFormed(m) && |m.elements| == 1 && |m.elements[0].properties| > 0 && OneGroup(m, 0, h)
    requires ValidTypes(m.elements[0].properties)
    requires h < |m.helpers| && m.helpers[h].data.buffer == Some(buf)
    ensures var ps := m.elements[0].properties;
      var reps := Reps(m.elements[0]);
      var n := reps * RowBytes(ps, 0);
      (Write(m, false, floats).Ok? <==> n <= |buf|)
      && (n <= |buf| ==>
            Write(m, false, floats).value.1
              == Encode(HeaderText(WriteStart(m, false))) + RowsOut(AsciiCells(buf, floats), ps, reps, 0, Encode("\n"))
            && Write(m, false, floats).value.0.helpers[h].cursor.byteOffset == n)
  {
    var ps := m.elements[0].properties;
    var rows := RowsOut(AsciiCells(buf, floats), ps, Reps(m.elements[0]), 0, Encode("\n"));
    GroupedWrite(m, false, floats, h, buf, AsciiCells(buf, floats), Encode("\n"), rows);
  }
}
