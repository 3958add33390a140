/** The ascii header: PlyFileImpl.ParseHeader with ReadHeaderFormat,
    ReadHeaderElement, ReadHeaderProperty, ReadHeaderText and the PlyElement and
    PlyProperty constructors that read from a word stream. */
module Header {
  import opened Wrappers
  import opened Bytes
  import opened Text
  import opened Decimal
  import opened PlyTypes
  import opened Schema

  const Int32Min: int := -0x8000_0000
  const Int32Max: int := 0x7FFF_FFFF

  /** PlyElement(BinaryReader): a name word, then Convert.ToInt32 of the next word. */
  function ParseElement(ls: string, pos: nat): (r: Result<Element>)
    requires pos <= |ls|
    ensures r.Ok? ==> r.value.properties == [] && Int32Min <= r.value.size <= Int32Max
    ensures r.Ok? ==> r.value.name == NextWord(ls, pos).0
  {
    var (name, p1) := NextWord(ls, pos);
    var (count, _) := NextWord(ls, p1);
    var size :- ParseInRange(count, Int32Min, Int32Max);
    Ok(Element(name, size, []))
  }

  /** PlyProperty(BinaryReader): a type word, or "list" followed by the count type
      and the value type; then the name. Unknown type names become INVALID. */
  function ParseProperty(ls: string, pos: nat): (p: Property)
    requires pos <= |ls|
    ensures p.listCounts == []
    ensures !p.isList ==> p.listType == INVALID
  {
    var (t, p1) := NextWord(ls, pos);
    if t == "list" then
      var (countType, p2) := NextWord(ls, p1);
      var (valueType, p3) := NextWord(ls, p2);
      var (name, _) := NextWord(ls, p3);
      Property(name, PropertyTypeFromString(valueType), true, PropertyTypeFromString(countType), [])
    else
      var (name, _) := NextWord(ls, p1);
      Property(name, PropertyTypeFromString(t), false, INVALID, [])
  }

  /** ReadHeaderFormat: the flags after a `format` word. */
  function ReadHeaderFormat(m: Impl, word: string): Impl
  {
    if word == "binary_little_endian" then m.(isBinary := true)
    else if word == "binary_big_endian" then m.(isBinary := true, isBigEndian := true)
    else m
  }

  /** Append a property to the last element. */
  function AddToLastElement(elements: seq<Element>, p: Property): (r: seq<Element>)
    requires elements != []
    ensures |r| == |elements| && r[..|r| - 1] == elements[..|elements| - 1]
    ensures r[|r| - 1] == elements[|elements| - 1].(properties := elements[|elements| - 1].properties + [p])
  {
    var last := elements[|elements| - 1];
    elements[..|elements| - 1] + [last.(properties := last.properties + [p])]
  }

  /** What one header line does to the loop: go on (with the success flag so far),
      stop after `end_header`, or abort with an exception. */
  datatype LineStep = Continue(ok: bool) | EndHeader | Abort(error: PlyError)

  /** The leading words ParseHeader's loop tells apart. */
  datatype Keyword = SkipLine | CommentWord | FormatWord | ElementWord | PropertyWord | ObjInfoWord | EndHeaderWord | UnknownWord

  /** The tests of the loop's if-chain, in order: the first word a line's token
      equals decides what the line does. */
  const Keywords: seq<(string, Keyword)> :=
    [("ply", SkipLine), ("PLY", SkipLine), ("", SkipLine), ("comment", CommentWord), ("format", FormatWord),
     ("element", ElementWord), ("property", PropertyWord), ("obj_info", ObjInfoWord), ("end_header", EndHeaderWord)]

  /** The first entry from `i` on whose word is `token`. */
  function KeywordFrom(token: string, i: nat): (k: Keyword)
    decreases |Keywords| - i
  {
    if i >= |Keywords| then UnknownWord
    else if Keywords[i].0 == token then Keywords[i].1
    else KeywordFrom(token, i + 1)
  }

  function KeywordOf(token: string): Keyword { KeywordFrom(token, 0) }

  /** The body of ParseHeader's loop for one line as ReadLine returned it. */
  function HeaderLine(m: Impl, raw: string): (Impl, LineStep)
  {
    var line := Trim(raw);
    var ls := Latin1(Encode(line));
    var (token, p) := NextWord(ls, 0);
    TokenLine(m, line, ls, KeywordOf(token), p)
  }

  /** The same, once the trimmed line, its characters and the kind of its first
      word (which ends at `p`) are known. */
  function TokenLine(m: Impl, line: string, ls: string, k: Keyword, p: nat): (Impl, LineStep)
    requires p <= |ls|
  {
    match k
    case SkipLine => (m, Continue(true))
    case CommentWord =>
      if |line| < 8 then (m, Abort(TextTooShort)) else (m.(comments := m.comments + [line[8..]]), Continue(true))
    case FormatWord => (ReadHeaderFormat(m, NextWord(ls, p).0), Continue(true))
    case ElementWord =>
      (match ParseElement(ls, p)
       case Ok(e) => (m.(elements := m.elements + [e]), Continue(true))
       case Err(err) => (m, Abort(err)))
    case PropertyWord =>
      if m.elements == [] then (m, Abort(PropertyBeforeElement))
      else (m.(elements := AddToLastElement(m.elements, ParseProperty(ls, p))), Continue(true))
    case ObjInfoWord =>
      if |line| < 9 then (m, Abort(TextTooShort)) else (m.(objInfo := m.objInfo + [line[9..]]), Continue(true))
    case EndHeaderWord => (m, EndHeader)
    case UnknownWord => (m, Continue(false))
  }

  /** The rest of ParseHeader from `pos`: the document, the result (false when
      some line had an unknown leading word) and the position after the last line
      read. An exception keeps what earlier lines did. */
  function HeaderFrom(text: string, pos: nat, m: Impl, success: bool): (r: (Impl, Result<bool>, nat))
    requires pos <= |text|
    ensures pos <= r.2 <= |text|
    ensures r.1.Ok? && r.1.value ==> success
    decreases |text| - pos, 1
  {
    match NextLine(text, pos)
    case None => (m, Ok(success), pos)
    case Some((raw, next)) => AfterLine(text, pos, next, m, raw, success)
  }

  /** One turn of the loop for the line `raw` that ended at `next`, and the rest. */
  function AfterLine(text: string, pos: nat, next: nat, m: Impl, raw: string, success: bool): (r: (Impl, Result<bool>, nat))
    requires pos < next <= |text|
    ensures next <= r.2 <= |text|
    ensures r.1.Ok? && r.1.value ==> success
    decreases |text| - pos, 0
  {
    var (m', step) := HeaderLine(m, raw);
    match step
    case Continue(ok) => HeaderFrom(text, next, m', success && ok)
    case EndHeader => (m', Ok(success), next)
    case Abort(e) => (m', Err(e), next)
  }

  /** ParseHeader on the stream's text from `pos`. */
  function ParseHeader(m: Impl, text: string, pos: nat): (r: (Impl, Result<bool>, nat))
    requires pos <= |text|
    ensures pos <= r.2 <= |text|
  {
    HeaderFrom(text, pos, m, true)
  }

  /** A header line changes only the elements, the comments, obj_info and the format
      flags: the bindings and their helpers stay as they were. */
  lemma HeaderLineKeepsBindings(m: Impl, raw: string)
    ensures HeaderLine(m, raw).0.userData == m.userData && HeaderLine(m, raw).0.helpers == m.helpers
  {
    var line := Trim(raw);
    var ls := Latin1(Encode(line));
    var (token, p) := NextWord(ls, 0);
    TokenLineKeepsBindings(m, line, ls, KeywordOf(token), p);
  }

  /** The same, once the line's first word is known. */
  lemma TokenLineKeepsBindings(m: Impl, line: string, ls: string, k: Keyword, p: nat)
    requires p <= |ls|
    ensures TokenLine(m, line, ls, k, p).0.userData == m.userData && TokenLine(m, line, ls, k, p).0.helpers == m.helpers
  {
  }

  /** The header loop leaves the bindings and their helpers as it found them. */
  lemma {:induction false} HeaderFromKeepsBindings(text: string, pos: nat, m: Impl, success: bool)
    requires pos <= |text|
    ensures HeaderFrom(text, pos, m, success).0.userData == m.userData
    ensures HeaderFrom(text, pos, m, success).0.helpers == m.helpers
    decreases |text| - pos
  {
    match NextLine(text, pos)
    case None =>
    case Some((raw, next)) =>
      HeaderLineKeepsBindings(m, raw);
      var (m', step) := HeaderLine(m, raw);
      if step.Continue? {
        HeaderFromKeepsBindings(text, next, m', success && step.ok);
      }
  }
}
