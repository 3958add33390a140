/** The binding registry: PlyFileImpl.RequestPropertiesFromElement (read side) and
    both AddPropertiesToElement overloads (write side). Each call creates one
    ParsingHelper, appended to the helper arena, and binds one key per property
    name to it. */
module Registry {
  import opened Wrappers
  import opened PlyTypes
  import opened Fnv
  import opened Schema
  import opened Bytes

  /** Every name is a property of the element. */
  predicate AllFound(keys: seq<string>, props: seq<Property>)
  {
    forall i :: 0 <= i < |keys| ==> FindProperty(keys[i], props) >= 0
  }

  /** The requested names the element lacks, in request order (keysNotFound). */
  function MissingKeys(keys: seq<string>, props: seq<Property>): (r: seq<string>)
    ensures r == [] <==> AllFound(keys, props)
    ensures forall k :: k in r <==> k in keys && FindProperty(k, props) < 0
  {
    if keys == [] then []
    else
      var rest := MissingKeys(keys[1..], props);
      assert forall i :: 1 <= i < |keys| ==> keys[i] == keys[1..][i - 1];
      assert forall k :: k in keys <==> k == keys[0] || k in keys[1..];
      if FindProperty(keys[0], props) < 0 then [keys[0]] + rest else rest
  }

  /** The property a found name denotes. */
  function PropertyNamed(e: Element, key: string): (p: Property)
    requires FindProperty(key, e.properties) >= 0
    ensures p.name == key && p in e.properties
  {
    e.properties[FindProperty(key, e.properties)]
  }

  /** The insertion loop of RequestPropertiesFromElement from key `i` on: set the
      helper's T and IsList from the property, then add its binding; a key already
      present throws, keeping the bindings added before it. */
  function BindFrom(userData: seq<Entry>, helper: Helper, h: nat, e: Element, keys: seq<string>, i: nat)
    : (r: (seq<Entry>, Helper, Option<PlyError>))
    requires i <= |keys| && AllFound(keys, e.properties)
    ensures |userData| <= |r.0| && r.0[..|userData|] == userData
    ensures forall j :: |userData| <= j < |r.0| ==> r.0[j].helper == h
    ensures r.1.data.count == helper.data.count && r.1.data.buffer == helper.data.buffer
    ensures r.1.cursor == helper.cursor && r.1.listSizeHint == helper.listSizeHint
    decreases |keys| - i
  {
    if i == |keys| then (userData, helper, None)
    else
      var p := PropertyNamed(e, keys[i]);
      var helper' := helper.(data := helper.data.(t := p.propertyType, isList := p.isList));
      var key := BindingKey(e.name, p.name);
      if KeyIn(userData, key) then (userData, helper', Some(DuplicateKey(key)))
      else
        var u' := userData + [Entry(key, h)];
        var r := BindFrom(u', helper', h, e, keys, i + 1);
        ExtendPrefix(userData, Entry(key, h), r.0, h);
        r
  }

  /** A sequence that starts with `a + [x]`, whose entries from there on all name
      helper `h`, starts with `a` and names `h` from `|a|` on. */
  lemma ExtendPrefix(a: seq<Entry>, x: Entry, r: seq<Entry>, h: nat)
    requires |a| + 1 <= |r| && r[..|a| + 1] == a + [x] && x.helper == h
    requires forall j :: |a| + 1 <= j < |r| ==> r[j].helper == h
    ensures r[..|a|] == a
    ensures forall j :: |a| <= j < |r| ==> r[j].helper == h
  {
    assert r[..|a|] == r[..|a| + 1][..|a|];
    assert r[|a|] == r[..|a| + 1][|a|];
  }

  /** The type of the property a found name denotes. */
  function TypeOfKey(e: Element, key: string): PlyType
    requires FindProperty(key, e.properties) >= 0
  {
    PropertyNamed(e, key).propertyType
  }

  /** The sanity check after insertion: every name has the first name's type. */
  predicate SameType(e: Element, keys: seq<string>)
    requires AllFound(keys, e.properties)
  {
    forall i :: 0 <= i < |keys| ==> TypeOfKey(e, keys[i]) == TypeOfKey(e, keys[0])
  }

  /** RequestPropertiesFromElement: the new document and the handle (the helper's
      index) of the PlyData the read will fill. */
  function Request(m: Impl, elementKey: string, keys: seq<string>, listSizeHint: int): (r: (Impl, Result<nat>))
  {
    if m.elements == [] then (m, Err(NoElements))
    else if elementKey == [] then (m, Err(EmptyElementKey))
    else if keys == [] then (m, Err(EmptyPropertyKeys))
    else
      var idx := FindElement(elementKey, m.elements);
      if idx < 0 then (m, Err(ElementNotFound(elementKey)))
      else
        var e := m.elements[idx];
        var missing := MissingKeys(keys, e.properties);
        if missing != [] then (m, Err(PropertiesNotFound(missing)))
        else
          var h := |m.helpers|;
          var helper := Helper(PlyData(INVALID, None, e.size, false), Cursor(0, 0), listSizeHint);
          var (userData', helper', failure) := BindFrom(m.userData, helper, h, e, keys, 0);
          var m' := m.(userData := userData', helpers := m.helpers + [helper']);
          if failure.Some? then (m', Err(failure.value))
          else if !SameType(e, keys) then (m', Err(MixedTypes))
          else (m', Ok(h))
  }

  /** The property AddPropertiesToElement creates for one name: a scalar when the
      list type is INVALID, otherwise a list sharing the caller's counts. */
  function NewProperty(key: string, t: PlyType, listType: PlyType, listCounts: seq<int>): (p: Property)
    ensures p.name == key && p.propertyType == t
    ensures p.isList <==> listType != INVALID
  {
    if listType == INVALID then Property(key, t, false, INVALID, [])
    else Property(key, t, true, listType, listCounts)
  }

  /** createPropertyOnElement from name `i` on: add the binding (a key already
      present throws), then append the property to the element. */
  function CreateFrom(userData: seq<Entry>, h: nat, elementKey: string, keys: seq<string>,
                      t: PlyType, listType: PlyType, listCounts: seq<int>, i: nat)
    : (r: (seq<Entry>, seq<Property>, Option<PlyError>))
    requires i <= |keys|
    ensures |userData| <= |r.0| && r.0[..|userData|] == userData
    ensures |r.1| <= |keys| - i
    decreases |keys| - i
  {
    if i == |keys| then (userData, [], None)
    else
      var key := BindingKey(elementKey, keys[i]);
      if KeyIn(userData, key) then (userData, [], Some(DuplicateKey(key)))
      else
        var p := NewProperty(keys[i], t, listType, listCounts);
        var rest := CreateFrom(userData + [Entry(key, h)], h, elementKey, keys, t, listType, listCounts, i + 1);
        (rest.0, [p] + rest.1, rest.2)
  }

  /** AddPropertiesToElement (the List<int> overload). An existing element is
      extended in place, so after an exception it keeps the properties added so
      far; a new element joins the document only when every name was bound. */
  function AddProperties(m: Impl, elementKey: string, keys: seq<string>, t: PlyType, count: int,
                         data: Option<seq<byte>>, listType: PlyType, listCounts: seq<int>)
    : (r: (Impl, Option<PlyError>))
  {
    var h := |m.helpers|;
    var helper := Helper(PlyData(t, data, count, false), Cursor(0, 0), 0);
    var idx := FindElement(elementKey, m.elements);
    var target := if idx >= 0 then m.elements[idx] else Element(elementKey, count, []);
    var (userData', added, failure) := CreateFrom(m.userData, h, elementKey, keys, t, listType, listCounts, 0);
    var e' := target.(properties := target.properties + added);
    var elements' :=
      if idx >= 0 then m.elements[idx := e']
      else if failure.None? then m.elements + [e']
      else m.elements;
    (m.(elements := elements', userData := userData', helpers := m.helpers + [helper]), failure)
  }

  /** The counts the int overload builds: `count` copies of a non-zero `listCount`. */
  function UniformCounts(count: int, listCount: int): (r: seq<int>)
    ensures listCount == 0 ==> r == []
    ensures listCount != 0 ==> |r| == (if count < 0 then 0 else count)
    ensures forall i :: 0 <= i < |r| ==> r[i] == listCount
  {
    if listCount == 0 || count <= 0 then [] else seq(count, _ => listCount)
  }

  /** AddPropertiesToElement (the int overload). */
  function AddPropertiesUniform(m: Impl, elementKey: string, keys: seq<string>, t: PlyType, count: int,
                                data: Option<seq<byte>>, listType: PlyType, listCount: int)
    : (r: (Impl, Option<PlyError>))
  {
    AddProperties(m, elementKey, keys, t, count, data, listType, UniformCounts(count, listCount))
  }

  // ------------------------------------------------------------ properties

  /** The binding keys of names `i..` are absent from `userData` and pairwise distinct. */
  predicate FreshFrom(userData: seq<Entry>, elementName: string, keys: seq<string>, i: nat)
    requires i <= |keys|
  {
    (forall j :: i <= j < |keys| ==> !KeyIn(userData, BindingKey(elementName, keys[j])))
    && (forall j, k :: i <= j < k < |keys| ==> BindingKey(elementName, keys[j]) != BindingKey(elementName, keys[k]))
  }

  /** The bindings a call adds for names `i..`, all to helper `h`. */
  function NewEntries(elementName: string, keys: seq<string>, h: nat, i: nat): (r: seq<Entry>)
    requires i <= |keys|
    ensures |r| == |keys| - i
    ensures forall j :: 0 <= j < |r| ==> r[j] == Entry(BindingKey(elementName, keys[i + j]), h)
    decreases |keys| - i
  {
    seq(|keys| - i, j requires 0 <= j < |keys| - i => Entry(BindingKey(elementName, keys[i + j]), h))
  }

  /** Names `i..` are fresh exactly when the key of name `i` is free and the rest
      are fresh once it is bound. */
  lemma FreshSplit(userData: seq<Entry>, elementName: string, keys: seq<string>, i: nat, h: nat)
    requires i < |keys|
    ensures FreshFrom(userData, elementName, keys, i) <==>
      !KeyIn(userData, BindingKey(elementName, keys[i]))
      && FreshFrom(userData + [Entry(BindingKey(elementName, keys[i]), h)], elementName, keys, i + 1)
  {
    var key := BindingKey(elementName, keys[i]);
    var u' := userData + [Entry(key, h)];
    assert u'[|userData|].key == key;
    forall k: uint32 ensures KeyIn(u', k) <==> KeyIn(userData, k) || k == key {
      if KeyIn(u', k) && k != key {
        var n :| 0 <= n < |u'| && u'[n].key == k;
        assert userData[n].key == k;
      }
      if KeyIn(userData, k) {
        var n :| 0 <= n < |userData| && userData[n].key == k;
        assert u'[n].key == k;
      }
    }
  }

  /** Adding the bindings of names `i..` is adding the binding of name `i`, then
      those of the names after it. */
  lemma NewEntriesStep(userData: seq<Entry>, elementName: string, keys: seq<string>, h: nat, i: nat)
    requires i < |keys|
    ensures userData + NewEntries(elementName, keys, h, i)
         == (userData + [Entry(BindingKey(elementName, keys[i]), h)]) + NewEntries(elementName, keys, h, i + 1)
  {
    var x := Entry(BindingKey(elementName, keys[i]), h);
    var rest := NewEntries(elementName, keys, h, i + 1);
    assert NewEntries(elementName, keys, h, i) == [x] + rest by {
      forall j | 0 < j < |keys| - i
        ensures NewEntries(elementName, keys, h, i)[j] == rest[j - 1]
      {
        assert i + j == (i + 1) + (j - 1);
      }
    }
    assert userData + ([x] + rest) == (userData + [x]) + rest;
  }

  /** With fresh keys the insertion loop adds every binding. */
  lemma {:induction false} BindFromFresh(userData: seq<Entry>, helper: Helper, h: nat, e: Element, keys: seq<string>, i: nat)
    requires i <= |keys| && AllFound(keys, e.properties) && FreshFrom(userData, e.name, keys, i)
    ensures BindFrom(userData, helper, h, e, keys, i).0 == userData + NewEntries(e.name, keys, h, i)
    ensures BindFrom(userData, helper, h, e, keys, i).2 == None
    decreases |keys| - i
  {
    if i < |keys| {
      var p := PropertyNamed(e, keys[i]);
      var key := BindingKey(e.name, keys[i]);
      var helper' := helper.(data := helper.data.(t := p.propertyType, isList := p.isList));
      var u' := userData + [Entry(key, h)];
      FreshSplit(userData, e.name, keys, i, h);
      assert BindFrom(userData, helper, h, e, keys, i) == BindFrom(u', helper', h, e, keys, i + 1);
      BindFromFresh(u', helper', h, e, keys, i + 1);
      NewEntriesStep(userData, e.name, keys, h, i);
    } else {
      assert userData + NewEntries(e.name, keys, h, i) == userData;
    }
  }

  /** When the loop runs to the end, the helper has the type and list-ness of the
      last name. */
  lemma {:induction false} BindFromHelper(userData: seq<Entry>, helper: Helper, h: nat, e: Element, keys: seq<string>, i: nat)
    requires i < |keys| && AllFound(keys, e.properties) && BindFrom(userData, helper, h, e, keys, i).2 == None
    ensures BindFrom(userData, helper, h, e, keys, i).1.data.t == TypeOfKey(e, keys[|keys| - 1])
    ensures BindFrom(userData, helper, h, e, keys, i).1.data.isList == PropertyNamed(e, keys[|keys| - 1]).isList
    decreases |keys| - i
  {
    var p := PropertyNamed(e, keys[i]);
    var key := BindingKey(e.name, p.name);
    var helper' := helper.(data := helper.data.(t := p.propertyType, isList := p.isList));
    if i + 1 < |keys| {
      BindFromHelper(userData + [Entry(key, h)], helper', h, e, keys, i + 1);
    }
  }

  /** When some key is taken, the insertion loop stops with a duplicate-key error. */
  lemma {:induction false} BindFromTaken(userData: seq<Entry>, helper: Helper, h: nat, e: Element, keys: seq<string>, i: nat)
    requires i <= |keys| && AllFound(keys, e.properties) && !FreshFrom(userData, e.name, keys, i)
    ensures BindFrom(userData, helper, h, e, keys, i).2.Some?
    ensures BindFrom(userData, helper, h, e, keys, i).2.value.DuplicateKey?
    decreases |keys| - i
  {
    var p := PropertyNamed(e, keys[i]);
    var key := BindingKey(e.name, keys[i]);
    var helper' := helper.(data := helper.data.(t := p.propertyType, isList := p.isList));
    var u' := userData + [Entry(key, h)];
    FreshSplit(userData, e.name, keys, i, h);
    if !KeyIn(userData, key) {
      assert BindFrom(userData, helper, h, e, keys, i) == BindFrom(u', helper', h, e, keys, i + 1);
      BindFromTaken(u', helper', h, e, keys, i + 1);
    }
  }

  /** RequestPropertiesFromElement succeeds exactly when the document has elements,
      the element and every name exist, the new keys are free and distinct, and all
      named properties share one type. It then adds one binding per name, all to a
      new helper for `element.Size` values with no buffer whose T and IsList are
      those of the last name; nothing else changes. */
  lemma RequestSucceeds(m: Impl, elementKey: string, keys: seq<string>, hint: int)
    ensures Request(m, elementKey, keys, hint).1.Ok? <==>
      m.elements != [] && elementKey != [] && keys != []
      && FindElement(elementKey, m.elements) >= 0
      && AllFound(keys, m.elements[FindElement(elementKey, m.elements)].properties)
      && FreshFrom(m.userData, elementKey, keys, 0)
      && SameType(m.elements[FindElement(elementKey, m.elements)], keys)
    ensures Request(m, elementKey, keys, hint).1.Ok? ==>
      var e := m.elements[FindElement(elementKey, m.elements)];
      var last := PropertyNamed(e, keys[|keys| - 1]);
      var (m', r) := Request(m, elementKey, keys, hint);
      r.value == |m.helpers|
      && m' == m.(userData := m.userData + NewEntries(elementKey, keys, |m.helpers|, 0),
                  helpers := m.helpers + [Helper(PlyData(last.propertyType, None, e.size, last.isList), Cursor(0, 0), hint)])
  {
    if m.elements != [] && elementKey != [] && keys != [] && FindElement(elementKey, m.elements) >= 0 {
      var e := m.elements[FindElement(elementKey, m.elements)];
      if AllFound(keys, e.properties) {
        var helper := Helper(PlyData(INVALID, None, e.size, false), Cursor(0, 0), hint);
        if FreshFrom(m.userData, elementKey, keys, 0) {
          BindFromFresh(m.userData, helper, |m.helpers|, e, keys, 0);
          BindFromHelper(m.userData, helper, |m.helpers|, e, keys, 0);
        } else {
          BindFromTaken(m.userData, helper, |m.helpers|, e, keys, 0);
        }
      }
    }
  }

  /** Every refusal before the insertion loop leaves the document as it was. */
  lemma RequestRefusalsKeepState(m: Impl, elementKey: string, keys: seq<string>, hint: int)
    requires m.elements == [] || elementKey == [] || keys == []
          || FindElement(elementKey, m.elements) < 0
          || !AllFound(keys, m.elements[FindElement(elementKey, m.elements)].properties)
    ensures Request(m, elementKey, keys, hint).0 == m
    ensures Request(m, elementKey, keys, hint).1.Err?
    ensures m.elements != [] && elementKey != [] && keys != [] && FindElement(elementKey, m.elements) >= 0 ==>
      Request(m, elementKey, keys, hint).1.error
        == PropertiesNotFound(MissingKeys(keys, m.elements[FindElement(elementKey, m.elements)].properties))
  {
  }

  /** The type check runs after insertion: with free keys but mixed types the
      bindings stay in the table although the call throws. */
  lemma MixedTypesKeepBindings(m: Impl, elementKey: string, keys: seq<string>, hint: int)
    requires m.elements != [] && elementKey != [] && keys != []
    requires FindElement(elementKey, m.elements) >= 0
    requires AllFound(keys, m.elements[FindElement(elementKey, m.elements)].properties)
    requires FreshFrom(m.userData, elementKey, keys, 0)
    requires !SameType(m.elements[FindElement(elementKey, m.elements)], keys)
    ensures Request(m, elementKey, keys, hint).1 == Err(MixedTypes)
    ensures Request(m, elementKey, keys, hint).0.userData == m.userData + NewEntries(elementKey, keys, |m.helpers|, 0)
  {
    var e := m.elements[FindElement(elementKey, m.elements)];
    var helper := Helper(PlyData(INVALID, None, e.size, false), Cursor(0, 0), hint);
    var b := BindFrom(m.userData, helper, |m.helpers|, e, keys, 0);
    BindFromFresh(m.userData, helper, |m.helpers|, e, keys, 0);
    assert MissingKeys(keys, e.properties) == [];
    assert Request(m, elementKey, keys, hint) == (m.(userData := b.0, helpers := m.helpers + [b.1]), Err(MixedTypes));
  }

  /** Requesting the same names of the same element a second time throws on the
      first key, which the first request bound. */
  lemma RequestTwiceFails(m: Impl, elementKey: string, keys: seq<string>, hint: int, hint2: int)
    requires Request(m, elementKey, keys, hint).1.Ok?
    ensures Request(Request(m, elementKey, keys, hint).0, elementKey, keys, hint2).1
         == Err(DuplicateKey(BindingKey(elementKey, keys[0])))
  {
    RequestSucceeds(m, elementKey, keys, hint);
    var m' := Request(m, elementKey, keys, hint).0;
    var e := m.elements[FindElement(elementKey, m.elements)];
    assert m'.elements == m.elements;
    var k := BindingKey(elementKey, keys[0]);
    assert m'.userData[|m.userData|].key == k;
    assert KeyIn(m'.userData, k);
    assert PropertyNamed(e, keys[0]).name == keys[0];
  }

  /** A request keeps keys unique and every binding pointing into the arena. */
  lemma RequestKeepsWellFormed(m: Impl, elementKey: string, keys: seq<string>, hint: int)
    requires WellFormed(m)
    ensures WellFormed(Request(m, elementKey, keys, hint).0)
  {
    if m.elements != [] && elementKey != [] && keys != [] && FindElement(elementKey, m.elements) >= 0 {
      var e := m.elements[FindElement(elementKey, m.elements)];
      if AllFound(keys, e.properties) {
        var helper := Helper(PlyData(INVALID, None, e.size, false), Cursor(0, 0), hint);
        var b := BindFrom(m.userData, helper, |m.helpers|, e, keys, 0);
        BindKeepsWellFormed(m, helper, e, keys, b.1);
        assert Request(m, elementKey, keys, hint).0 == m.(userData := b.0, helpers := m.helpers + [b.1]);
      }
    }
  }

  /** The bindings the insertion loop adds for a new helper keep the table well formed. */
  lemma BindKeepsWellFormed(m: Impl, helper: Helper, e: Element, keys: seq<string>, x: Helper)
    requires WellFormed(m) && AllFound(keys, e.properties)
    ensures WellFormed(m.(userData := BindFrom(m.userData, helper, |m.helpers|, e, keys, 0).0, helpers := m.helpers + [x]))
  {
    var u := BindFrom(m.userData, helper, |m.helpers|, e, keys, 0).0;
    BindNoDuplicates(m.userData, helper, |m.helpers|, e, keys, 0);
    forall i | 0 <= i < |u| ensures u[i].helper < |m.helpers| + 1 {
      if i < |m.userData| {
        assert u[i] == m.userData[i];
      }
    }
  }

  predicate UniqueKeys(userData: seq<Entry>)
  {
    forall a, b :: 0 <= a < b < |userData| ==> userData[a].key != userData[b].key
  }

  /** The insertion loop never adds a key already present. */
  lemma {:induction false} BindNoDuplicates(userData: seq<Entry>, helper: Helper, h: nat, e: Element, keys: seq<string>, i: nat)
    requires i <= |keys| && AllFound(keys, e.properties)
    requires UniqueKeys(userData)
    ensures UniqueKeys(BindFrom(userData, helper, h, e, keys, i).0)
    decreases |keys| - i
  {
    if i < |keys| {
      var p := PropertyNamed(e, keys[i]);
      var key := BindingKey(e.name, p.name);
      var helper' := helper.(data := helper.data.(t := p.propertyType, isList := p.isList));
      if !KeyIn(userData, key) {
        var u' := userData + [Entry(key, h)];
        assert BindFrom(userData, helper, h, e, keys, i) == BindFrom(u', helper', h, e, keys, i + 1);
        forall a, b | 0 <= a < b < |u'|
          ensures u'[a].key != u'[b].key
        {
          if b == |userData| {
            assert userData[a].key != key;
          }
        }
        BindNoDuplicates(u', helper', h, e, keys, i + 1);
      }
    }
  }

  /** The properties AddPropertiesToElement creates for names `i..`. */
  function NewProperties(keys: seq<string>, t: PlyType, listType: PlyType, listCounts: seq<int>, i: nat): (r: seq<Property>)
    requires i <= |keys|
    ensures |r| == |keys| - i
    ensures forall j :: 0 <= j < |r| ==> r[j] == NewProperty(keys[i + j], t, listType, listCounts)
    decreases |keys| - i
  {
    if i == |keys| then [] else [NewProperty(keys[i], t, listType, listCounts)] + NewProperties(keys, t, listType, listCounts, i + 1)
  }

  /** With fresh keys createPropertyOnElement binds every name. */
  lemma {:induction false} CreateFromFresh(userData: seq<Entry>, h: nat, elementKey: string, keys: seq<string>,
                                           t: PlyType, listType: PlyType, listCounts: seq<int>, i: nat)
    requires i <= |keys| && FreshFrom(userData, elementKey, keys, i)
    ensures CreateFrom(userData, h, elementKey, keys, t, listType, listCounts, i).0
         == userData + NewEntries(elementKey, keys, h, i)
    ensures CreateFrom(userData, h, elementKey, keys, t, listType, listCounts, i).2 == None
    decreases |keys| - i
  {
    if i == |keys| {
      assert userData + NewEntries(elementKey, keys, h, i) == userData;
    } else {
      var key := BindingKey(elementKey, keys[i]);
      FreshSplit(userData, elementKey, keys, i, h);
      var u' := userData + [Entry(key, h)];
      CreateFromFresh(u', h, elementKey, keys, t, listType, listCounts, i + 1);
      NewEntriesStep(userData, elementKey, keys, h, i);
    }
  }

  /** ... and creates every property, in the order of the names. */
  lemma {:induction false} CreateFromProperties(userData: seq<Entry>, h: nat, elementKey: string, keys: seq<string>,
                                                t: PlyType, listType: PlyType, listCounts: seq<int>, i: nat)
    requires i <= |keys| && FreshFrom(userData, elementKey, keys, i)
    ensures CreateFrom(userData, h, elementKey, keys, t, listType, listCounts, i).1
         == NewProperties(keys, t, listType, listCounts, i)
    decreases |keys| - i
  {
    if i < |keys| {
      var key := BindingKey(elementKey, keys[i]);
      FreshSplit(userData, elementKey, keys, i, h);
      CreateFromProperties(userData + [Entry(key, h)], h, elementKey, keys, t, listType, listCounts, i + 1);
    }
  }

  /** When some key is taken, createPropertyOnElement throws a duplicate-key error. */
  lemma {:induction false} CreateFromTaken(userData: seq<Entry>, h: nat, elementKey: string, keys: seq<string>,
                                           t: PlyType, listType: PlyType, listCounts: seq<int>, i: nat)
    requires i <= |keys| && !FreshFrom(userData, elementKey, keys, i)
    ensures CreateFrom(userData, h, elementKey, keys, t, listType, listCounts, i).2.Some?
    ensures CreateFrom(userData, h, elementKey, keys, t, listType, listCounts, i).2.value.DuplicateKey?
    decreases |keys| - i
  {
    var key := BindingKey(elementKey, keys[i]);
    FreshSplit(userData, elementKey, keys, i, h);
    if !KeyIn(userData, key) {
      CreateFromTaken(userData + [Entry(key, h)], h, elementKey, keys, t, listType, listCounts, i + 1);
    }
  }

  /** AddProperties in terms of the outcome of the creation loop. */
  lemma AddPropertiesUnfold(m: Impl, elementKey: string, keys: seq<string>, t: PlyType, count: int,
                            data: Option<seq<byte>>, listType: PlyType, listCounts: seq<int>)
    ensures var c := CreateFrom(m.userData, |m.helpers|, elementKey, keys, t, listType, listCounts, 0);
      var idx := FindElement(elementKey, m.elements);
      var r := AddProperties(m, elementKey, keys, t, count, data, listType, listCounts);
      r.1 == c.2 && r.0.userData == c.0
      && r.0.helpers == m.helpers + [Helper(PlyData(t, data, count, false), Cursor(0, 0), 0)]
      && r.0.elements == (if idx >= 0 then m.elements[idx := m.elements[idx].(properties := m.elements[idx].properties + c.1)]
                          else if c.2.None? then m.elements + [Element(elementKey, count, c.1)]
                          else m.elements)
  {
    var c := CreateFrom(m.userData, |m.helpers|, elementKey, keys, t, listType, listCounts, 0);
    assert [] + c.1 == c.1;
  }

  /** AddPropertiesToElement succeeds exactly when the element-qualified keys are
      free and distinct. It then binds every name to one new helper carrying the
      caller's type, count and buffer, and either extends the existing element or
      appends a new one holding the new properties. */
  lemma AddPropertiesSucceeds(m: Impl, elementKey: string, keys: seq<string>, t: PlyType, count: int,
                              data: Option<seq<byte>>, listType: PlyType, listCounts: seq<int>)
    ensures var (m', failure) := AddProperties(m, elementKey, keys, t, count, data, listType, listCounts);
      var idx := FindElement(elementKey, m.elements);
      var props := NewProperties(keys, t, listType, listCounts, 0);
      (failure.None? <==> FreshFrom(m.userData, elementKey, keys, 0))
      && m'.helpers == m.helpers + [Helper(PlyData(t, data, count, false), Cursor(0, 0), 0)]
      && (failure.None? ==>
            m'.userData == m.userData + NewEntries(elementKey, keys, |m.helpers|, 0)
            && m'.elements == (if idx >= 0 then m.elements[idx := m.elements[idx].(properties := m.elements[idx].properties + props)]
                               else m.elements + [Element(elementKey, count, props)]))
  {
    AddPropertiesUnfold(m, elementKey, keys, t, count, data, listType, listCounts);
    if FreshFrom(m.userData, elementKey, keys, 0) {
      CreateFromFresh(m.userData, |m.helpers|, elementKey, keys, t, listType, listCounts, 0);
      CreateFromProperties(m.userData, |m.helpers|, elementKey, keys, t, listType, listCounts, 0);
    } else {
      CreateFromTaken(m.userData, |m.helpers|, elementKey, keys, t, listType, listCounts, 0);
    }
  }

  /** On a duplicate key the error is DuplicateKey and no new element is added
      (an existing one keeps the properties created before the clash). */
  lemma AddPropertiesRefuses(m: Impl, elementKey: string, keys: seq<string>, t: PlyType, count: int,
                             data: Option<seq<byte>>, listType: PlyType, listCounts: seq<int>)
    requires !FreshFrom(m.userData, elementKey, keys, 0)
    ensures var (m', failure) := AddProperties(m, elementKey, keys, t, count, data, listType, listCounts);
      failure.Some? && failure.value.DuplicateKey? && |m'.elements| == |m.elements|
  {
    CreateFromTaken(m.userData, |m.helpers|, elementKey, keys, t, listType, listCounts, 0);
  }

  /** The insertion loop of AddPropertiesToElement adds only keys not yet present,
      all on helper h, whether or not it stops at a duplicate. */
  lemma {:induction false} CreateFromKeepsUnique(userData: seq<Entry>, h: nat, elementKey: string, keys: seq<string>,
                                                 t: PlyType, listType: PlyType, listCounts: seq<int>, i: nat)
    requires i <= |keys| && UniqueKeys(userData)
    requires forall j :: 0 <= j < |userData| ==> userData[j].helper <= h
    ensures var u := CreateFrom(userData, h, elementKey, keys, t, listType, listCounts, i).0;
            UniqueKeys(u) && forall j :: 0 <= j < |u| ==> u[j].helper <= h
    decreases |keys| - i
  {
    if i < |keys| {
      var key := BindingKey(elementKey, keys[i]);
      if !KeyIn(userData, key) {
        var u' := userData + [Entry(key, h)];
        forall a, b | 0 <= a < b < |u'|
          ensures u'[a].key != u'[b].key
        {
          if b == |userData| {
            assert userData[a].key != key;
          }
        }
        CreateFromKeepsUnique(u', h, elementKey, keys, t, listType, listCounts, i + 1);
      }
    }
  }

  /** AddPropertiesToElement keeps the document well formed, whether it succeeds or
      throws a duplicate key after inserting the earlier names. */
  lemma AddPropertiesKeepsWellFormed(m: Impl, elementKey: string, keys: seq<string>, t: PlyType, count: int,
                                     data: Option<seq<byte>>, listType: PlyType, listCounts: seq<int>)
    requires WellFormed(m)
    ensures WellFormed(AddProperties(m, elementKey, keys, t, count, data, listType, listCounts).0)
  {
    var r := AddProperties(m, elementKey, keys, t, count, data, listType, listCounts).0;
    AddPropertiesUnfold(m, elementKey, keys, t, count, data, listType, listCounts);
    CreateFromKeepsUnique(m.userData, |m.helpers|, elementKey, keys, t, listType, listCounts, 0);
    assert |r.helpers| == |m.helpers| + 1;
  }
}
