/** What Read guarantees for a binary stream read in two passes: the first pass
    measures every bound buffer, allocation gives each exactly that size, and the
    copying pass succeeds and fills every bound buffer to its end. */
module ReadFacts {
  import opened Wrappers
  import opened Bytes
  import opened PlyTypes
  import opened Endian
  import opened Floats
  import opened Schema
  import opened DataPass
  import opened PassFacts
  import opened PlyRead
  import Decimal
  import Text

  /** Every bound helper is as RequestPropertiesFromElement made it: no buffer yet
      and a zero cursor. */
  predicate Fresh(m: Impl)
  {
    forall h :: 0 <= h < |m.helpers| && Referenced(m.userData, h) ==>
      m.helpers[h].data.buffer.None? && m.helpers[h].cursor == Cursor(0, 0)
  }

  /** Every bound helper has a buffer whose ByteOffset stands at its end. */
  predicate Filled(m: Impl)
  {
    forall h :: 0 <= h < |m.helpers| && Referenced(m.userData, h) ==>
      m.helpers[h].data.buffer.Some? && m.helpers[h].cursor.byteOffset == |m.helpers[h].data.buffer.value|
  }

  /** The TotalSizeBytes of every helper. */
  function Totals(helpers: seq<Helper>): (t: seq<int>)
    ensures |t| == |helpers| && forall h :: 0 <= h < |t| ==> t[h] == helpers[h].cursor.totalSizeBytes
  {
    seq(|helpers|, h requires 0 <= h < |helpers| => helpers[h].cursor.totalSizeBytes)
  }

  /** The measuring pass of a fresh binary document leaves buffers and offsets as they
      were, changes list counts only, and produces totals that are not negative; so
      every allocation size is fine and Prepare succeeds. */
  lemma FirstPassMeasures(m: Impl, data: seq<byte>, pos: nat, floats: FloatText)
    requires WellFormed(m) && pos <= |data| && m.isBinary && Fresh(m) && ListHints(m) == 0
    requires ParseData(m, data, pos, true, floats).Ok?
    ensures var m1 := ParseData(m, data, pos, true, floats).value;
            SameLayout(m1.elements, m.elements) && SizesOk(m1, 0)
            && forall h :: 0 <= h < |m.helpers| ==>
                 m1.helpers[h].data == m.helpers[h].data
                 && m1.helpers[h].cursor.byteOffset == m.helpers[h].cursor.byteOffset
                 && m.helpers[h].cursor.totalSizeBytes <= m1.helpers[h].cursor.totalSizeBytes
  {
    var c1 := PassCtx(m, data, true, floats);
    var s1 := St(m.helpers, m.elements, pos, 0);
    BinaryCoherent(data, m.isBigEndian);
    ElementsGrow(c1, s1, 0);
  }

  /** Allocation after the measuring pass gives every bound helper a zeroed buffer of
      exactly its measured size, with its ByteOffset still at 0. */
  lemma AllocationFits(m: Impl, data: seq<byte>, pos: nat, floats: FloatText)
    requires WellFormed(m) && pos <= |data| && m.isBinary && Fresh(m) && ListHints(m) == 0
    requires ParseData(m, data, pos, true, floats).Ok?
    ensures Prepare(m, data, pos, floats).Ok?
    ensures var m1 := ParseData(m, data, pos, true, floats).value;
            var m2 := Prepare(m, data, pos, floats).value;
            m2 == m1.(helpers := m2.helpers)
            && forall h :: 0 <= h < |m.helpers| && Referenced(m.userData, h) ==>
                 0 <= m1.helpers[h].cursor.totalSizeBytes
                 && m2.helpers[h] == WithBuffer(m1.helpers[h], m1.helpers[h].cursor.totalSizeBytes)
                 && m2.helpers[h].cursor.byteOffset == 0
  {
    var m1 := ParseData(m, data, pos, true, floats).value;
    FirstPassMeasures(m, data, pos, floats);
    AllocateSpec(m1, 0);
    forall h | 0 <= h < |m.helpers| && Referenced(m.userData, h)
      ensures Allocate(m1, 0).value[h] == WithBuffer(m1.helpers[h], m1.helpers[h].cursor.totalSizeBytes)
    {
      assert NeedsBuffer(m1, h);
    }
  }

  /** The two passes start in the simulation: the same position, and every bound
      buffer has room for all the first pass will measure. */
  lemma PassesStart(m: Impl, data: seq<byte>, pos: nat, floats: FloatText)
    requires WellFormed(m) && pos <= |data| && m.isBinary && Fresh(m) && ListHints(m) == 0
    requires ParseData(m, data, pos, true, floats).Ok?
    ensures Prepare(m, data, pos, floats).Ok?
    ensures var m2 := Prepare(m, data, pos, floats).value;
            var c1 := PassCtx(m, data, true, floats);
            var c2 := PassCtx(m2, data, false, floats);
            Passes(c1, c2)
            && Sim(c1, St(m.helpers, m.elements, pos, 0), St(m2.helpers, m2.elements, pos, 0),
                   Totals(ParseData(m, data, pos, true, floats).value.helpers))
  {
    var m1 := ParseData(m, data, pos, true, floats).value;
    FirstPassMeasures(m, data, pos, floats);
    AllocationFits(m, data, pos, floats);
    var m2 := Prepare(m, data, pos, floats).value;
    SameLayoutSym(m1.elements, m.elements);
    TablesAgree(m, m2);
    BinaryCoherent(data, m.isBigEndian);
  }

  /** Read's two passes over a fresh binary document: when the measuring pass
      succeeds, the copying pass succeeds too and leaves every bound buffer exactly as
      long as the first pass measured and filled to its end. */
  lemma TwoPassFills(m: Impl, data: seq<byte>, pos: nat, floats: FloatText)
    requires WellFormed(m) && pos <= |data| && m.isBinary && Fresh(m) && ListHints(m) == 0
    requires ParseData(m, data, pos, true, floats).Ok?
    ensures Prepare(m, data, pos, floats).Ok?
    ensures var m1 := ParseData(m, data, pos, true, floats).value;
            var r := ParseData(Prepare(m, data, pos, floats).value, data, pos, false, floats);
            r.Ok? && Filled(r.value) && r.value.elements == m1.elements
            && forall h :: 0 <= h < |m.helpers| && Referenced(m.userData, h) ==>
                 |r.value.helpers[h].data.buffer.value| == m1.helpers[h].cursor.totalSizeBytes
  {
    var m1 := ParseData(m, data, pos, true, floats).value;
    PassesStart(m, data, pos, floats);
    AllocationFits(m, data, pos, floats);
    var m2 := Prepare(m, data, pos, floats).value;
    var c1, c2 := PassCtx(m, data, true, floats), PassCtx(m2, data, false, floats);
    var s1, s2 := St(m.helpers, m.elements, pos, 0), St(m2.helpers, m2.elements, pos, 0);
    var target := Totals(m1.helpers);
    ElementsSim(c1, c2, s1, s2, target, 0);
    ElementsKeep(c2, s2, 0);
    var f1, f2 := ElementsFrom(c1, s1, 0).value, ElementsFrom(c2, s2, 0).value;
    assert f1.helpers == m1.helpers;
    var r := ParseData(m2, data, pos, false, floats);
    assert r == Ok(m2.(helpers := f2.helpers, elements := f2.elements));
    assert Filled(r.value);
  }

  /** The whole of Read on a fresh binary document without hints: a little-endian
      stream is read as soon as the measuring pass succeeds; a big-endian one as well
      when every bound buffer holds whole values; and each buffer Read fills ends
      where its ByteOffset stands. */
  lemma ReadTwoPass(m: Impl, data: seq<byte>, pos: nat, floats: FloatText)
    requires WellFormed(m) && pos <= |data| && m.isBinary && Fresh(m) && ListHints(m) == 0
    requires ParseData(m, data, pos, true, floats).Ok?
    ensures Prepare(m, data, pos, floats).Ok?
    ensures ParseData(Prepare(m, data, pos, floats).value, data, pos, false, floats).Ok?
    ensures var m3 := ParseData(Prepare(m, data, pos, floats).value, data, pos, false, floats).value;
            (!m.isBigEndian ==> Read(m, data, pos, floats) == Ok(m3))
            && (m.isBigEndian ==>
                  (Read(m, data, pos, floats).Ok? <==>
                     forall h :: 0 <= h < |m.helpers| && Referenced(m.userData, h) ==> SwapBuffer(m3.helpers[h]).Ok?))
    ensures Read(m, data, pos, floats).Ok? ==> Filled(Read(m, data, pos, floats).value)
  {
    TwoPassFills(m, data, pos, floats);
    var m3 := ParseData(Prepare(m, data, pos, floats).value, data, pos, false, floats).value;
    if m.isBigEndian {
      SwapAllSpec(m3);
      if SwapAll(m3).Ok? {
        var r := m3.(helpers := SwapAll(m3).value);
        forall h | 0 <= h < |r.helpers| && Referenced(r.userData, h)
          ensures r.helpers[h].data.buffer.Some? && r.helpers[h].cursor.byteOffset == |r.helpers[h].data.buffer.value|
        {
          SwapBufferSpec(m3.helpers[h]);
        }
      }
    }
  }

  /** With hints Read makes no measuring pass, allocates up front, and records no
      list count: the elements come back unchanged. */
  lemma ReadWithHints(m: Impl, data: seq<byte>, pos: nat, floats: FloatText)
    requires WellFormed(m) && pos <= |data| && ListHints(m) != 0
    ensures Prepare(m, data, pos, floats).Ok? <==> SizesOk(m, ListHints(m))
    ensures Read(m, data, pos, floats).Ok? ==> Read(m, data, pos, floats).value.elements == m.elements
  {
    AllocateSpec(m, ListHints(m));
    if Prepare(m, data, pos, floats).Ok? {
      var m1 := Prepare(m, data, pos, floats).value;
      var c := PassCtx(m1, data, false, floats);
      var s := St(m1.helpers, m1.elements, pos, 0);
      if ElementsFrom(c, s, 0).Ok? {
        ElementsKeep(c, s, 0);
      }
    }
  }

  // ------------------------------------------------------------ ascii

  /** Why the two-pass results above are for binary streams only: the ascii skipper
      reads a scalar's word without parsing it, while the ascii reader parses it. A
      scalar integer whose word is not a number therefore passes the measuring pass
      and throws in the copying pass. */
  lemma AsciiSkipOutrunsRead(text: string, floats: FloatText, p: Property, f: Lookup, dest: seq<byte>,
                             off: int, pos: nat, listSize: int)
    requires pos <= |text| && !p.isList && IsIntegerType(p.propertyType)
    requires Decimal.ParseInteger(Text.NextWord(text, pos).0).None?
    ensures SkipAscii(text, p, f, pos, listSize) == Ok(Moved(Text.NextWord(text, pos).1, listSize, f.propStride))
    ensures ReadAscii(text, floats, p, f, dest, off, pos, listSize) == Err(BadNumber(Text.NextWord(text, pos).0))
  {
  }

  /** An instance: the word "x" in an INT32 column is skipped and then refused. */
  lemma AsciiSkipOutrunsReadAt(floats: FloatText, dest: seq<byte>)
    ensures SkipAscii("x ", Property("v", INT32, false, INVALID, []), Lookup(Some(0), 4, 0), 0, 0).Ok?
    ensures ReadAscii("x ", floats, Property("v", INT32, false, INVALID, []), Lookup(Some(0), 4, 0), dest, 0, 0, 0).Err?
  {
    Text.ReadWordOf("x ", 0, "x");
    AsciiSkipOutrunsRead("x ", floats, Property("v", INT32, false, INVALID, []), Lookup(Some(0), 4, 0), dest, 0, 0, 0);
  }
}
