/** The data model of a PLY document as PlyFileImpl holds it (PlyElement,
    PlyProperty, PlyData, PlyDataCursor, ParsingHelper, PropertyLookup), the
    first-match searches of PlyHelper and the binding-table lookups. */
module Schema {
  import opened Wrappers
  import opened PlyTypes
  import opened Fnv
  import opened Bytes

  /** PlyProperty. `listCounts` is the per-instance list length the first read
      pass records (or the writer's caller supplies). */
  datatype Property = Property(name: string, propertyType: PlyType, isList: bool, listType: PlyType, listCounts: seq<int>)

  /** PlyElement: a name, an instance count and the properties of one instance. */
  datatype Element = Element(name: string, size: int, properties: seq<Property>)

  /** PlyDataCursor. */
  datatype Cursor = Cursor(byteOffset: int, totalSizeBytes: int)

  /** PlyData: the caller's handle on the values of a group of properties. A
      missing Buffer (or one holding a null array) is None. */
  datatype PlyData = PlyData(t: PlyType, buffer: Option<seq<byte>>, count: int, isList: bool)

  /** ParsingHelper: one per request or per write-side group of property names. */
  datatype Helper = Helper(data: PlyData, cursor: Cursor, listSizeHint: int)

  /** One binding of `_userData`: the hash of element name + property name and the
      index of its helper in the document's helper arena. */
  datatype Entry = Entry(key: uint32, helper: nat)

  /** PropertyLookup: the helper a property is bound to (None means Skip) and the
      strides of its values and of its list count. */
  datatype Lookup = Lookup(helper: Option<nat>, propStride: nat, listStride: nat)

  /** PlyFileImpl's fields, as a value. `helpers` is the arena of every ParsingHelper
      the document created; `userData` lists the bindings in insertion order. */
  datatype Impl = Impl(
    elements: seq<Element>,
    comments: seq<string>,
    objInfo: seq<string>,
    isBinary: bool,
    isBigEndian: bool,
    userData: seq<Entry>,
    helpers: seq<Helper>)

  function EmptyImpl(): Impl
  {
    Impl([], [], [], false, false, [], [])
  }

  // ------------------------------------------------------------ bindings

  predicate KeyIn(userData: seq<Entry>, key: uint32)
  {
    exists i :: 0 <= i < |userData| && userData[i].key == key
  }

  /** A Dictionary never holds a key twice, and every binding names a helper of
      the arena. */
  predicate WellFormed(m: Impl)
  {
    (forall i, j :: 0 <= i < j < |m.userData| ==> m.userData[i].key != m.userData[j].key)
    && (forall i :: 0 <= i < |m.userData| ==> m.userData[i].helper < |m.helpers|)
  }

  /** Dictionary.TryGetValue: the helper bound to `key`, if any. */
  function FindEntry(userData: seq<Entry>, key: uint32): (r: Option<nat>)
    ensures r.None? <==> !KeyIn(userData, key)
    ensures r.Some? ==> exists i :: 0 <= i < |userData| && userData[i] == Entry(key, r.value)
  {
    if userData == [] then None
    else
      var rest := FindEntry(userData[1..], key);
      if userData[0].key == key then Some(userData[0].helper)
      else
        assert KeyIn(userData[1..], key) ==> KeyIn(userData, key) by {
          if KeyIn(userData[1..], key) {
            var i :| 0 <= i < |userData[1..]| && userData[1..][i].key == key;
            assert userData[i + 1].key == key;
          }
        }
        assert rest.Some? ==> exists i :: 0 <= i < |userData| && userData[i] == Entry(key, rest.value) by {
          if rest.Some? {
            var i :| 0 <= i < |userData[1..]| && userData[1..][i] == Entry(key, rest.value);
            assert userData[i + 1] == Entry(key, rest.value);
          }
        }
        rest
  }

  /** With unique keys, the lookup returns the helper of the one binding with that key. */
  lemma FindEntryUnique(m: Impl, i: nat)
    requires WellFormed(m) && i < |m.userData|
    ensures FindEntry(m.userData, m.userData[i].key) == Some(m.userData[i].helper)
  {
    var r := FindEntry(m.userData, m.userData[i].key);
    var j :| 0 <= j < |m.userData| && m.userData[j] == Entry(m.userData[i].key, r.value);
    assert !(i < j || j < i);
  }

  /** The number of bindings whose helper is `h` (uniqueDataCount in Read). */
  function KeysOf(userData: seq<Entry>, h: nat): (n: nat)
    ensures n <= |userData|
    ensures n == 0 <==> forall i :: 0 <= i < |userData| ==> userData[i].helper != h
  {
    if userData == [] then 0
    else
      var rest := KeysOf(userData[1..], h);
      assert forall i :: 1 <= i < |userData| ==> userData[i] == userData[1..][i - 1];
      (if userData[0].helper == h then 1 else 0) + rest
  }

  /** Whether some binding uses helper `h` (the helper's PlyData is among Read's buffers). */
  predicate Referenced(userData: seq<Entry>, h: nat)
  {
    exists i :: 0 <= i < |userData| && userData[i].helper == h
  }

  // ------------------------------------------------------------ searches

  /** PlyHelper.FindElement: the index of the first element named `key`, or -1. */
  function FindElement(key: string, list: seq<Element>): (r: int)
    ensures -1 <= r < |list|
    ensures r >= 0 ==> list[r].name == key && forall j :: 0 <= j < r ==> list[j].name != key
    ensures r == -1 <==> forall j :: 0 <= j < |list| ==> list[j].name != key
  {
    if list == [] then -1
    else if list[0].name == key then 0
    else
      var r := FindElement(key, list[1..]);
      assert forall j :: 1 <= j < |list| ==> list[j] == list[1..][j - 1];
      if r == -1 then -1 else r + 1
  }

  /** PlyHelper.FindProperty: the index of the first property named `key`, or -1. */
  function FindProperty(key: string, list: seq<Property>): (r: int)
    ensures -1 <= r < |list|
    ensures r >= 0 ==> list[r].name == key && forall j :: 0 <= j < r ==> list[j].name != key
    ensures r == -1 <==> forall j :: 0 <= j < |list| ==> list[j].name != key
  {
    if list == [] then -1
    else if list[0].name == key then 0
    else
      var r := FindProperty(key, list[1..]);
      assert forall j :: 1 <= j < |list| ==> list[j] == list[1..][j - 1];
      if r == -1 then -1 else r + 1
  }

  // ------------------------------------------------------------ lookup table

  /** The PropertyLookup MakePropertyLookupTable builds for one property. */
  function LookupOf(userData: seq<Entry>, e: Element, p: Property): (f: Lookup)
    ensures f.helper.None? <==> !KeyIn(userData, BindingKey(e.name, p.name))
    ensures f.propStride == Stride(p.propertyType)
    ensures f.listStride == if p.isList then Stride(p.listType) else 0
  {
    Lookup(FindEntry(userData, BindingKey(e.name, p.name)),
           Stride(p.propertyType),
           if p.isList then Stride(p.listType) else 0)
  }

  function LookupRow(userData: seq<Entry>, e: Element): (row: seq<Lookup>)
    ensures |row| == |e.properties|
    ensures forall j :: 0 <= j < |row| ==> row[j] == LookupOf(userData, e, e.properties[j])
  {
    seq(|e.properties|, j requires 0 <= j < |e.properties| => LookupOf(userData, e, e.properties[j]))
  }

  /** MakePropertyLookupTable: one row per element, one lookup per property. A
      property is skipped exactly when no binding carries its key. */
  function MakePropertyLookupTable(m: Impl): (table: seq<seq<Lookup>>)
    ensures |table| == |m.elements|
    ensures forall i :: 0 <= i < |table| ==> table[i] == LookupRow(m.userData, m.elements[i])
  {
    seq(|m.elements|, i requires 0 <= i < |m.elements| => LookupRow(m.userData, m.elements[i]))
  }

  /** Every helper the table refers to is bound and in the arena. */
  lemma LookupTableHelpers(m: Impl, i: nat, j: nat)
    requires WellFormed(m) && i < |m.elements| && j < |m.elements[i].properties|
    ensures MakePropertyLookupTable(m)[i][j].helper.Some? ==>
              MakePropertyLookupTable(m)[i][j].helper.value < |m.helpers|
              && Referenced(m.userData, MakePropertyLookupTable(m)[i][j].helper.value)
  {
  }
}
