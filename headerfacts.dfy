/** The header the writer emits (WriteHeader) reads back through ParseHeader as
    the document's own schema: the format flags, the comments, and every element
    with its bound properties, each type name reading back as its own type
    (UINT32 excepted, whose name "int" reads back as INT32). */
module HeaderFacts {
  import opened Wrappers
  import opened Text
  import opened Decimal
  import opened PlyTypes
  import opened Schema
  import opened Header
  import opened PlyWrite
  import opened Bytes
  import opened Floats

  /** A word of a header line: non-empty ASCII text without white space. */
  predicate Word(s: string) { s != [] && IsAscii(s) && NoWhiteSpace(s) }

  /** A comment that reads back unchanged: ASCII on one line, not empty, and not
      ending in white space (ParseHeader trims each line). */
  predicate CommentOk(c: string)
  {
    c != [] && IsAscii(c) && NoLineBreak(c) && !IsWhiteSpace(c[|c| - 1])
  }

  /** What the header of `m` needs so that it reads back: plain comments, plain
      element and property names, and element sizes that Convert.ToInt32 accepts. */
  predicate HeaderWritable(m: Impl)
  {
    (forall k :: 0 <= k < |m.comments| ==> CommentOk(m.comments[k]))
    && forall i :: 0 <= i < |m.elements| ==> ElementWritable(m, m.elements[i])
  }

  predicate ElementWritable(m: Impl, e: Element)
  {
    Word(e.name) && Int32Min <= e.size <= Int32Max
    && forall j :: 0 <= j < |e.properties| && Bound(m, e, e.properties[j]) ==> Word(e.properties[j].name)
  }

  /** A property as the reader builds it from the writer's header line. */
  function ParsedProperty(p: Property): Property
  {
    Property(p.name, ReadBack(p.propertyType), p.isList, if p.isList then ReadBack(p.listType) else INVALID, [])
  }

  /** The bound properties of `e` from `j` on, as the reader builds them. */
  function ParsedProps(m: Impl, e: Element, j: nat): seq<Property>
    requires j <= |e.properties|
    decreases |e.properties| - j
  {
    if j == |e.properties| then []
    else (if Bound(m, e, e.properties[j]) then [ParsedProperty(e.properties[j])] else []) + ParsedProps(m, e, j + 1)
  }

  function ParsedElements(m: Impl, i: nat): seq<Element>
    requires i <= |m.elements|
    decreases |m.elements| - i
  {
    if i == |m.elements| then []
    else
      var e := m.elements[i];
      [Element(e.name, e.size, ParsedProps(m, e, 0))] + ParsedElements(m, i + 1)
  }

  /** The document a fresh PlyFileImpl holds after reading the header of `m`. */
  function Parsed(m: Impl): Impl
  {
    EmptyImpl().(comments := m.comments, elements := ParsedElements(m, 0),
                 isBinary := m.isBinary, isBigEndian := m.isBinary && m.isBigEndian)
  }


  // ------------------------------------------------------------ words and lines

  lemma WordAt(pre: string, a: string, post: string)
    requires Word(a)
    ensures NextWord(pre + a + " " + post, |pre|) == (a, |pre| + |a| + 1)
  {
    var s := pre + a + " " + post;
    assert s[|pre|..|pre| + |a|] == a;
    assert s[|pre| + |a|] == ' ';
    ReadWordOf(s, |pre|, a);
  }

  lemma LastWord(pre: string, a: string)
    requires Word(a)
    ensures NextWord(pre + a, |pre|) == (a, |pre| + |a|)
  {
    var s := pre + a;
    assert s[|pre|..] == a;
    WordFromAtEnd(s, |pre|, a, []);
    assert [] + a == a;
  }

  lemma WordsAscii(a: string, b: string)
    requires IsAscii(a) && IsAscii(b)
    ensures IsAscii(a + b)
  {
    assert forall i :: 0 <= i < |a + b| ==> (a + b)[i] == if i < |a| then a[i] else b[i - |a|];
  }

  lemma TypeNameIsWord(t: PlyType)
    ensures Word(PropertyTable(t).str) && PropertyTable(t).str != "list"
  {
  }

  /** A line the loop reads as it is (ASCII, on one line, nothing to trim), whose
      first word is `token`, ending at `p`. */
  predicate Plain(l: string, token: string, p: nat)
  {
    l != [] && IsAscii(l) && NoLineBreak(l) && !IsWhiteSpace(l[0]) && !IsWhiteSpace(l[|l| - 1])
    && p <= |l| && NextWord(l, 0) == (token, p)
  }

  /** A plain line goes straight to the dispatch on its first word. */
  lemma LineOf(acc: Impl, l: string, token: string, p: nat)
    requires Plain(l, token, p)
    ensures HeaderLine(acc, l) == TokenLine(acc, l, l, KeywordOf(token), p)
  {
    TrimOfTrimmed(l);
    EncodeAscii(l);
  }

  lemma OneWord(w: string)
    requires Word(w)
    ensures Plain(w, w, |w|)
  {
    LastWord("", w);
    assert "" + w == w;
  }

  /** A word followed by one space: trimmed, it is the word alone. */
  lemma PaddedWordLine(acc: Impl, w: string)
    requires Word(w)
    ensures HeaderLine(acc, w + " ") == TokenLine(acc, w, w, KeywordOf(w), |w|)
  {
    var s := w + " ";
    assert s[|w|] == ' ' && s[|w| - 1] == w[|w| - 1] && s[0] == w[0];
    assert DropWhiteEnd(s, 0, |s|) == |w|;
    assert Trim(s) == w by { assert s[0..|w|] == w; }
    EncodeAscii(w);
    OneWord(w);
  }

  // ------------------------------------------------------------ lines of words

  predicate Words(ws: seq<string>) { forall k :: 0 <= k < |ws| ==> Word(ws[k]) }

  /** Words joined by single spaces, as the writer builds most header lines. */
  function Spaced(ws: seq<string>): string
  {
    if ws == [] then [] else if |ws| == 1 then ws[0] else ws[0] + " " + Spaced(ws[1..])
  }

  /** The first `k` words, each followed by its space: word `k` starts after them. */
  function Leading(ws: seq<string>, k: nat): string
    requires k <= |ws|
  {
    if k == 0 then [] else Leading(ws, k - 1) + ws[k - 1] + " "
  }

  lemma {:induction false} SpacedSplit(ws: seq<string>, k: nat)
    requires k < |ws|
    ensures Spaced(ws) == Leading(ws, k) + Spaced(ws[k..])
    decreases k
  {
    if k == 0 {
      assert ws[0..] == ws;
    } else {
      SpacedSplit(ws, k - 1);
      var t := ws[k - 1..];
      assert t[1..] == ws[k..];
      assert Spaced(t) == ws[k - 1] + " " + Spaced(ws[k..]);
      assert Leading(ws, k - 1) + (ws[k - 1] + " " + Spaced(ws[k..])) == Leading(ws, k) + Spaced(ws[k..]);
    }
  }

  /** Word `k` of a line of words is read where it starts, and reading stops at
      the start of the next one (or at the end of the line). */
  lemma SpacedWord(ws: seq<string>, k: nat)
    requires Words(ws) && k < |ws|
    ensures |Leading(ws, k)| <= |Spaced(ws)|
    ensures NextWord(Spaced(ws), |Leading(ws, k)|)
         == (ws[k], if k + 1 < |ws| then |Leading(ws, k + 1)| else |Spaced(ws)|)
  {
    SpacedSplit(ws, k);
    var pre := Leading(ws, k);
    if k + 1 < |ws| {
      var post := Spaced(ws[k + 1..]);
      assert ws[k..][1..] == ws[k + 1..];
      assert Spaced(ws) == pre + (ws[k] + " " + post);
      assert pre + (ws[k] + " " + post) == pre + ws[k] + " " + post;
      WordAt(pre, ws[k], post);
    } else {
      assert Spaced(ws[k..]) == ws[k];
      LastWord(pre, ws[k]);
    }
  }

  /** A line of words is ASCII, holds no line break, and starts and ends with a
      character that is not white space. */
  lemma {:induction false} SpacedText(ws: seq<string>)
    requires Words(ws) && ws != []
    ensures var l := Spaced(ws);
            l != [] && IsAscii(l) && NoLineBreak(l) && !IsWhiteSpace(l[0]) && !IsWhiteSpace(l[|l| - 1])
    decreases |ws|
  {
    var l := Spaced(ws);
    if |ws| == 1 {
      assert l == ws[0];
      assert forall i :: 0 <= i < |l| ==> !IsWhiteSpace(l[i]);
    } else {
      var t := Spaced(ws[1..]);
      SpacedText(ws[1..]);
      assert l == ws[0] + " " + t;
      forall i | 0 <= i < |l|
        ensures l[i] as int < 0x80 && l[i] != '\n' && l[i] != '\r'
      {
        if i < |ws[0]| {
          assert l[i] == ws[0][i];
        } else if i > |ws[0]| {
          assert l[i] == t[i - |ws[0]| - 1];
        }
      }
      assert l[0] == ws[0][0];
      assert l[|l| - 1] == t[|t| - 1];
    }
  }

  /** A line of at least two words is plain, and its first word ends after its space. */
  lemma SpacedPlain(ws: seq<string>)
    requires Words(ws) && 1 < |ws|
    ensures Plain(Spaced(ws), ws[0], |ws[0]| + 1) && |Leading(ws, 1)| == |ws[0]| + 1
  {
    var l := Spaced(ws);
    SpacedText(ws);
    SpacedWord(ws, 0);
    assert Leading(ws, 0) == [];
    assert |Leading(ws, 1)| == |ws[0]| + 1;
    assert NextWord(l, 0) == (ws[0], |ws[0]| + 1);
  }

  lemma Spaced3(a: string, b: string, c: string)
    ensures Spaced([a, b, c]) == a + " " + b + " " + c
  {
    assert [a, b, c][1..] == [b, c];
    assert [b, c][1..] == [c];
    assert Spaced([c]) == c;
    assert Spaced([b, c]) == b + " " + c;
    assert a + " " + (b + " " + c) == a + " " + b + " " + c;
  }

  lemma Spaced5(a: string, b: string, c: string, d: string, e: string)
    ensures Spaced([a, b, c, d, e]) == a + " " + b + " " + c + " " + d + " " + e
  {
    assert [a, b, c, d, e][1..] == [b, c, d, e];
    assert [b, c, d, e][1..] == [c, d, e];
    Spaced3(c, d, e);
    assert Spaced([b, c, d, e]) == b + " " + Spaced([c, d, e]);
    assert a + " " + (b + " " + (c + " " + d + " " + e)) == a + " " + b + " " + c + " " + d + " " + e;
  }

  /** Three words joined by spaces read back one after the other. */
  lemma Spaced3Reads(a: string, b: string, c: string)
    requires Word(a) && Word(b) && Word(c)
    ensures var l := a + " " + b + " " + c;
      Plain(l, a, |a| + 1) && NextWord(l, |a| + 1) == (b, |a| + |b| + 2) && NextWord(l, |a| + |b| + 2) == (c, |l|)
  {
    var ws := [a, b, c];
    assert Words(ws) by {
      assert ws[0] == a && ws[1] == b && ws[2] == c;
    }
    Spaced3(a, b, c);
    SpacedPlain(ws);
    SpacedWord(ws, 1);
    SpacedWord(ws, 2);
    assert Leading(ws, 2) == Leading(ws, 1) + b + " ";
  }

  /** Five words joined by spaces read back one after the other. */
  lemma Spaced5Reads(a: string, b: string, c: string, d: string, e: string)
    requires Word(a) && Word(b) && Word(c) && Word(d) && Word(e)
    ensures var l := a + " " + b + " " + c + " " + d + " " + e;
      var p1 := |a| + 1;
      var p2 := p1 + |b| + 1;
      var p3 := p2 + |c| + 1;
      var p4 := p3 + |d| + 1;
      Plain(l, a, p1) && NextWord(l, p1) == (b, p2) && NextWord(l, p2) == (c, p3)
      && NextWord(l, p3) == (d, p4) && NextWord(l, p4) == (e, |l|)
  {
    var ws := [a, b, c, d, e];
    assert Words(ws) by {
      assert ws[0] == a && ws[1] == b && ws[2] == c && ws[3] == d && ws[4] == e;
    }
    Spaced5(a, b, c, d, e);
    SpacedPlain(ws);
    SpacedWord(ws, 1);
    SpacedWord(ws, 2);
    SpacedWord(ws, 3);
    SpacedWord(ws, 4);
    assert Leading(ws, 2) == Leading(ws, 1) + ws[1] + " ";
    assert Leading(ws, 3) == Leading(ws, 2) + ws[2] + " ";
    assert Leading(ws, 4) == Leading(ws, 3) + ws[3] + " ";
  }

  /** The writer's lines, regrouped as words joined by single spaces. */
  lemma JoinFormat(n: string)
    ensures "format" + " " + n + " " + "1.0" == "format " + n + " 1.0"
  {
    assert "format" + " " == "format ";
    assert " " + "1.0" == " 1.0";
    assert "format " + n + (" " + "1.0") == "format " + n + " " + "1.0";
  }

  lemma JoinElement(n: string, k: string)
    ensures "element" + " " + n + " " + k == "element " + n + " " + k
  {
    assert "element" + " " == "element ";
  }

  lemma JoinList(a: string, b: string, n: string)
    ensures "property" + " " + "list" + " " + a + " " + b + " " + n == "property list " + a + " " + b + " " + n
  {
    assert "property" + " " + "list" + " " == "property list ";
  }

  lemma JoinScalar(b: string, n: string)
    ensures "property" + " " + b + " " + n == "property " + b + " " + n
  {
    assert "property" + " " == "property ";
  }

  // ------------------------------------------------------------ one line each

  /** A line holding one word goes to the dispatch on that word. */
  lemma WordLine(acc: Impl, w: string)
    requires Word(w)
    ensures HeaderLine(acc, w) == TokenLine(acc, w, w, KeywordOf(w), |w|)
  {
    OneWord(w);
    LineOf(acc, w, w, |w|);
  }

  lemma PlyParses(acc: Impl)
    ensures HeaderLine(acc, "ply") == (acc, Continue(true))
  {
    WordLine(acc, "ply");
  }

  lemma EndHeaderKeyword()
    ensures KeywordOf("end_header") == EndHeaderWord
  {
  }

  lemma EndHeaderParses(acc: Impl)
    ensures HeaderLine(acc, "end_header") == (acc, EndHeader)
  {
    EndHeaderKeyword();
    WordLine(acc, "end_header");
  }

  /** The format line without its line break. */
  function FormatText(m: Impl): string
  {
    "format " + FormatName(m) + " 1.0"
  }

  lemma FormatReads(m: Impl)
    ensures Plain(FormatText(m), "format", 7)
    ensures NextWord(FormatText(m), 7).0 == FormatName(m)
  {
    assert Word("format") && Word(FormatName(m)) && Word("1.0");
    Spaced3Reads("format", FormatName(m), "1.0");
    JoinFormat(FormatName(m));
  }

  lemma FormatParses(acc: Impl, m: Impl)
    ensures NoLineBreak(FormatText(m)) && FormatText(m) + "\n" == FormatLine(m)
    ensures HeaderLine(acc, FormatText(m))
         == (acc.(isBinary := acc.isBinary || m.isBinary, isBigEndian := acc.isBigEndian || (m.isBinary && m.isBigEndian)),
             Continue(true))
  {
    FormatReads(m);
    LineOf(acc, FormatText(m), "format", 7);
  }

  lemma CommentReads(c: string)
    requires CommentOk(c)
    ensures var l := "comment " + c; Plain(l, "comment", 8) && |l| >= 8 && l[8..] == c
  {
    var l := "comment " + c;
    WordsAscii("comment ", c);
    WordAt("", "comment", c);
    assert "" + "comment" + " " + c == l;
    assert l[8..] == c;
    assert forall i :: 8 <= i < |l| ==> l[i] == c[i - 8];
  }

  lemma CommentParses(acc: Impl, c: string)
    requires CommentOk(c)
    ensures NoLineBreak("comment " + c)
    ensures HeaderLine(acc, "comment " + c) == (acc.(comments := acc.comments + [c]), Continue(true))
  {
    CommentReads(c);
    LineOf(acc, "comment " + c, "comment", 8);
  }

  /** An empty comment is written as "comment " and trimmed to "comment" on the
      way back, which is too short: ParseHeader throws. */
  lemma EmptyCommentAborts(acc: Impl)
    ensures HeaderLine(acc, "comment " + []) == (acc, Abort(TextTooShort))
  {
    assert "comment " + [] == "comment" + " ";
    PaddedWordLine(acc, "comment");
  }

  lemma ElementReads(e: Element)
    requires Word(e.name) && Int32Min <= e.size <= Int32Max
    ensures Plain(ElementText(e), "element", 8)
    ensures ParseElement(ElementText(e), 8) == Ok(Element(e.name, e.size, []))
  {
    ShowIntIsPlain(e.size);
    assert Word("element") && Word(ShowInt(e.size));
    Spaced3Reads("element", e.name, ShowInt(e.size));
    JoinElement(e.name, ShowInt(e.size));
    ParseShowInt(e.size);
  }

  lemma ElementParses(acc: Impl, e: Element)
    requires Word(e.name) && Int32Min <= e.size <= Int32Max
    ensures NoLineBreak(ElementText(e))
    ensures HeaderLine(acc, ElementText(e)) == (acc.(elements := acc.elements + [Element(e.name, e.size, [])]), Continue(true))
  {
    ElementReads(e);
    LineOf(acc, ElementText(e), "element", 8);
  }

  lemma ListPropertyReads(p: Property)
    requires Word(p.name) && p.isList
    ensures Plain(PropertyText(p), "property", 9)
    ensures ParseProperty(PropertyText(p), 9) == ParsedProperty(p)
  {
    var a := PropertyTable(p.listType).str;
    var b := PropertyTable(p.propertyType).str;
    TypeNameIsWord(p.listType);
    TypeNameIsWord(p.propertyType);
    ListLineReads(a, b, p.name);
    NameRoundTrip(p.listType);
    NameRoundTrip(p.propertyType);
  }

  /** A list property line with count type `a`, value type `b` and name `n`. */
  lemma ListLineReads(a: string, b: string, n: string)
    requires Word(a) && Word(b) && Word(n)
    ensures var l := "property list " + a + " " + b + " " + n;
      Plain(l, "property", 9)
      && ParseProperty(l, 9) == Property(n, PropertyTypeFromString(b), true, PropertyTypeFromString(a), [])
  {
    assert Word("property") && Word("list");
    Spaced5Reads("property", "list", a, b, n);
    JoinList(a, b, n);
  }

  lemma ScalarPropertyReads(p: Property)
    requires Word(p.name) && !p.isList
    ensures Plain(PropertyText(p), "property", 9)
    ensures ParseProperty(PropertyText(p), 9) == ParsedProperty(p)
  {
    var b := PropertyTable(p.propertyType).str;
    TypeNameIsWord(p.propertyType);
    assert Word("property");
    Spaced3Reads("property", b, p.name);
    JoinScalar(b, p.name);
    NameRoundTrip(p.propertyType);
  }

  /** A property line of either shape is plain and parses to the property. */
  lemma PropertyReads(p: Property)
    requires Word(p.name)
    ensures Plain(PropertyText(p), "property", 9)
    ensures ParseProperty(PropertyText(p), 9) == ParsedProperty(p)
  {
    if p.isList {
      ListPropertyReads(p);
    } else {
      ScalarPropertyReads(p);
    }
  }

  lemma PropertyParses(acc: Impl, p: Property)
    requires Word(p.name) && acc.elements != []
    ensures NoLineBreak(PropertyText(p))
    ensures HeaderLine(acc, PropertyText(p))
         == (acc.(elements := AddToLastElement(acc.elements, ParsedProperty(p))), Continue(true))
  {
    PropertyReads(p);
    LineOf(acc, PropertyText(p), "property", 9);
  }

  // ------------------------------------------------------------ the line loop

  /** `chunk` stands in `text` at `pos`. */
  predicate At(text: string, pos: nat, chunk: string)
  {
    pos + |chunk| <= |text| && text[pos..pos + |chunk|] == chunk
  }

  lemma PrefixAt(a: string, b: string, rest: string)
    ensures At(a + b + rest, 0, a) && At(a + b + rest, |a|, b)
  {
    var text := a + b + rest;
    assert text[0..|a|] == a;
    assert text[|a|..|a| + |b|] == b;
  }

  lemma AtSplit(text: string, pos: nat, a: string, b: string)
    requires At(text, pos, a + b)
    ensures At(text, pos, a) && At(text, pos + |a|, b)
  {
    assert text[pos..pos + |a|] == (a + b)[..|a|];
    assert text[pos + |a|..pos + |a| + |b|] == (a + b)[|a|..];
  }

  /** A line `l` + "\n" at `pos` is read as `l`. */
  lemma NextLineAt(text: string, pos: nat, l: string)
    requires At(text, pos, l + "\n") && NoLineBreak(l)
    ensures NextLine(text, pos) == Some((l, pos + |l| + 1))
  {
    var chunk := text[pos..pos + |l| + 1];
    assert text[pos..pos + |l|] == chunk[..|l|] == (l + "\n")[..|l|] == l;
    assert text[pos + |l|] == chunk[|l|] == '\n';
    LineFromAt(text, pos, l, []);
    assert [] + l == l;
  }

  /** What ParseHeader's loop makes of `text` from `pos` on, starting from `acc`. */
  function Rest(text: string, pos: nat, acc: Impl): (Impl, Result<bool>, nat)
    requires pos <= |text|
  {
    HeaderFrom(text, pos, acc, true)
  }

  /** Lines, each followed by "\n". */
  function Lines(ls: seq<string>): string
  {
    if ls == [] then [] else ls[0] + "\n" + Lines(ls[1..])
  }

  lemma {:induction false} LinesAppend(a: seq<string>, b: seq<string>)
    ensures Lines(a + b) == Lines(a) + Lines(b)
  {
    if a == [] {
      assert [] + b == b;
    } else {
      assert (a + b)[0] == a[0] && (a + b)[1..] == a[1..] + b;
      LinesAppend(a[1..], b);
      assert a[0] + "\n" + (Lines(a[1..]) + Lines(b)) == a[0] + "\n" + Lines(a[1..]) + Lines(b);
    }
  }

  /** What one header line makes of the document read so far. */
  type LineFn = (Impl, string) -> (Impl, LineStep)

  /** `accs[k + 1]` is what line `ls[k]` makes of `accs[k]` under `f`, each line
      letting the loop go on with the success flag kept. */
  predicate Steps(f: LineFn, ls: seq<string>, accs: seq<Impl>)
    decreases |ls|
  {
    |accs| == |ls| + 1
    && (ls != [] ==>
          NoLineBreak(ls[0]) && f(accs[0], ls[0]) == (accs[1], Continue(true))
          && Steps(f, ls[1..], accs[1..]))
  }

  /** A line that lets ParseHeader's loop go on, as a step. */
  lemma StepOf(acc: Impl, l: string, acc': Impl)
    requires NoLineBreak(l) && HeaderLine(acc, l) == (acc', Continue(true))
    ensures Steps(HeaderLine, [l], [acc, acc'])
  {
    assert [l][1..] == [] && [acc, acc'][1..] == [acc'];
  }

  lemma PlyStep(acc: Impl)
    ensures Steps(HeaderLine, ["ply"], [acc, acc])
  {
    PlyParses(acc);
    StepOf(acc, "ply", acc);
  }

  lemma FormatStep(acc: Impl, m: Impl)
    ensures Steps(HeaderLine, [FormatText(m)], [acc, acc.(isBinary := acc.isBinary || m.isBinary, isBigEndian := acc.isBigEndian || (m.isBinary && m.isBigEndian))])
  {
    FormatParses(acc, m);
    StepOf(acc, FormatText(m), acc.(isBinary := acc.isBinary || m.isBinary, isBigEndian := acc.isBigEndian || (m.isBinary && m.isBigEndian)));
  }

  /** The step a comment line takes under `f`. */
  predicate CommentStepHolds(f: LineFn, acc: Impl, c: string)
  {
    Steps(f, ["comment " + c], [acc, acc.(comments := acc.comments + [c])])
  }

  /** The step an element line takes under `f`. */
  predicate ElementStepHolds(f: LineFn, acc: Impl, e: Element)
  {
    Steps(f, [ElementText(e)], [acc, acc.(elements := acc.elements + [Element(e.name, e.size, [])])])
  }

  /** The step a property line takes under `f`, once there is an element. */
  predicate PropertyStepHolds(f: LineFn, acc: Impl, p: Property)
  {
    acc.elements != []
    && Steps(f, [PropertyText(p)], [acc, acc.(elements := AddToLastElement(acc.elements, ParsedProperty(p)))])
  }

  /** `f` steps over the writer's comment, element and property lines as
      ParseHeader's loop does. */
  ghost predicate BlockSteps(f: LineFn)
  {
    (forall acc, c :: CommentOk(c) ==> CommentStepHolds(f, acc, c))
    && (forall acc, e: Element :: Word(e.name) && Int32Min <= e.size <= Int32Max ==> ElementStepHolds(f, acc, e))
    && (forall acc: Impl, p: Property :: acc.elements != [] && Word(p.name) ==> PropertyStepHolds(f, acc, p))
  }

  lemma CommentStep(acc: Impl, c: string)
    requires CommentOk(c)
    ensures CommentStepHolds(HeaderLine, acc, c)
  {
    CommentParses(acc, c);
    StepOf(acc, "comment " + c, acc.(comments := acc.comments + [c]));
  }

  lemma ElementStep(acc: Impl, e: Element)
    requires Word(e.name) && Int32Min <= e.size <= Int32Max
    ensures ElementStepHolds(HeaderLine, acc, e)
  {
    ElementParses(acc, e);
    StepOf(acc, ElementText(e), acc.(elements := acc.elements + [Element(e.name, e.size, [])]));
  }

  lemma PropertyStep(acc: Impl, p: Property)
    requires Word(p.name) && acc.elements != []
    ensures PropertyStepHolds(HeaderLine, acc, p)
  {
    PropertyParses(acc, p);
    StepOf(acc, PropertyText(p), acc.(elements := AddToLastElement(acc.elements, ParsedProperty(p))));
  }

  lemma HeaderLineBlockSteps()
    ensures BlockSteps(HeaderLine)
  {
    forall acc, c | CommentOk(c) ensures CommentStepHolds(HeaderLine, acc, c) {
      CommentStep(acc, c);
    }
    forall acc, e: Element | Word(e.name) && Int32Min <= e.size <= Int32Max ensures ElementStepHolds(HeaderLine, acc, e) {
      ElementStep(acc, e);
    }
    forall acc: Impl, p: Property | acc.elements != [] && Word(p.name) ensures PropertyStepHolds(HeaderLine, acc, p) {
      PropertyStep(acc, p);
    }
  }

  lemma {:induction false} StepsAppend(f: LineFn, a: seq<string>, s1: seq<Impl>, b: seq<string>, s2: seq<Impl>)
    requires Steps(f, a, s1) && Steps(f, b, s2) && s1[|a|] == s2[0]
    ensures Steps(f, a + b, s1 + s2[1..])
    decreases |a|
  {
    if a == [] {
      assert a + b == b && s1 + s2[1..] == s2;
    } else {
      StepsAppend(f, a[1..], s1[1..], b, s2);
      assert (a + b)[0] == a[0] && (a + b)[1..] == a[1..] + b;
      var ss := s1 + s2[1..];
      assert ss[0] == s1[0] && ss[1] == s1[1] && ss[1..] == s1[1..] + s2[1..];
    }
  }

  /** StepsAppend with the joined lines and the final state named. */
  lemma Chain(f: LineFn, block: seq<string>, first: seq<Impl>, tail: seq<string>, rest: seq<Impl>, all: seq<string>) returns (accs: seq<Impl>)
    requires Steps(f, block, first) && Steps(f, tail, rest) && first[|block|] == rest[0] && all == block + tail
    ensures Steps(f, all, accs) && accs[0] == first[0] && accs[|all|] == rest[|tail|]
  {
    StepsAppend(f, block, first, tail, rest);
    accs := first + rest[1..];
  }

  /** One line `l` + "\n" at `pos` that lets the loop go on. */
  lemma LineStepAt(text: string, pos: nat, acc: Impl, l: string, acc': Impl)
    requires At(text, pos, l + "\n") && NoLineBreak(l)
    requires HeaderLine(acc, l) == (acc', Continue(true))
    ensures Rest(text, pos, acc) == Rest(text, pos + |l| + 1, acc')
  {
    NextLineAt(text, pos, l);
    assert HeaderFrom(text, pos, acc, true) == HeaderFrom(text, pos + |l| + 1, acc', true);
  }

  /** What the loop makes of the text from a position on, starting from a document. */
  type RunFn = (nat, Impl) -> (Impl, Result<bool>, nat)

  /** A line `l` + "\n" at `pos` that `f` steps over leaves what `r` makes of the
      rest unchanged. */
  ghost predicate MovesAt(r: RunFn, text: string, f: LineFn, pos: nat, acc: Impl, l: string)
  {
    At(text, pos, l + "\n") && NoLineBreak(l) && f(acc, l).1 == Continue(true)
    ==> r(pos, acc) == r(pos + |l| + 1, f(acc, l).0)
  }

  ghost predicate Moves(r: RunFn, text: string, f: LineFn)
  {
    forall pos: nat, acc: Impl, l: string {:trigger MovesAt(r, text, f, pos, acc, l)} :: MovesAt(r, text, f, pos, acc, l)
  }

  /** Lines that each let the loop go on carry the document through their steps. */
  lemma {:induction false} LinesRun(r: RunFn, text: string, f: LineFn, pos: nat, ls: seq<string>, accs: seq<Impl>)
    requires Moves(r, text, f) && At(text, pos, Lines(ls)) && Steps(f, ls, accs)
    ensures r(pos, accs[0]) == r(pos + |Lines(ls)|, accs[|ls|])
    decreases |ls|
  {
    if ls != [] {
      AtSplit(text, pos, ls[0] + "\n", Lines(ls[1..]));
      assert MovesAt(r, text, f, pos, accs[0], ls[0]);
      var next := pos + |ls[0]| + 1;
      assert |Lines(ls)| == |ls[0]| + 1 + |Lines(ls[1..])|;
      assert accs[1..][0] == accs[1] && accs[1..][|ls[1..]|] == accs[|ls|];
      LinesRun(r, text, f, next, ls[1..], accs[1..]);
    }
  }

  /** ParseHeader's loop from each position of `text`. */
  function RestOf(text: string): RunFn
  {
    (pos: nat, acc: Impl) => if pos <= |text| then Rest(text, pos, acc) else (acc, Ok(true), pos)
  }

  lemma HeaderLineMoves(text: string)
    ensures Moves(RestOf(text), text, HeaderLine)
  {
    forall pos: nat, acc: Impl, l: string
      ensures MovesAt(RestOf(text), text, HeaderLine, pos, acc, l)
    {
      HeaderLineMovesAt(text, pos, acc, l);
    }
  }

  lemma HeaderLineMovesAt(text: string, pos: nat, acc: Impl, l: string)
    ensures MovesAt(RestOf(text), text, HeaderLine, pos, acc, l)
  {
    var (next, step) := HeaderLine(acc, l);
    if At(text, pos, l + "\n") && NoLineBreak(l) && step == Continue(true) {
      RestOfMoves(text, pos, acc, l, next);
    }
  }

  /** A line the loop goes on after leaves RestOf unchanged. */
  lemma RestOfMoves(text: string, pos: nat, acc: Impl, l: string, next: Impl)
    requires At(text, pos, l + "\n") && NoLineBreak(l)
    requires HeaderLine(acc, l) == (next, Continue(true))
    ensures RestOf(text)(pos, acc) == RestOf(text)(pos + |l| + 1, next)
  {
    LineStepAt(text, pos, acc, l, next);
    RestOfIs(text, pos, acc);
    RestOfIs(text, pos + |l| + 1, next);
  }

  /** The end_header line stops the loop right after it with the result true. */
  lemma EndHeaderAt(text: string, pos: nat, acc: Impl)
    requires At(text, pos, "end_header\n")
    ensures Rest(text, pos, acc) == (acc, Ok(true), pos + 11)
  {
    assert "end_header\n" == "end_header" + "\n";
    NextLineAt(text, pos, "end_header");
    EndHeaderParses(acc);
    assert HeaderFrom(text, pos, acc, true) == (acc, Ok(true), pos + 11);
  }

  // ------------------------------------------------------------ the header's blocks

  function CommentTexts(cs: seq<string>): (ts: seq<string>)
    ensures |ts| == |cs|
  {
    if cs == [] then [] else ["comment " + cs[0]] + CommentTexts(cs[1..])
  }

  lemma {:induction false} CommentLinesAre(cs: seq<string>)
    ensures CommentLines(cs) == Lines(CommentTexts(cs))
  {
    if cs != [] {
      CommentLinesAre(cs[1..]);
      var ts := CommentTexts(cs);
      assert ts[0] == "comment " + cs[0] && ts[1..] == CommentTexts(cs[1..]);
    }
  }

  lemma {:induction false} CommentsStep(f: LineFn, acc: Impl, cs: seq<string>) returns (accs: seq<Impl>)
    requires BlockSteps(f) && forall k :: 0 <= k < |cs| ==> CommentOk(cs[k])
    ensures Steps(f, CommentTexts(cs), accs)
    ensures accs[0] == acc && accs[|cs|] == acc.(comments := acc.comments + cs)
    decreases |cs|
  {
    if cs == [] {
      accs := [acc];
      assert acc.comments + cs == acc.comments;
    } else {
      var acc1 := acc.(comments := acc.comments + [cs[0]]);
      assert CommentStepHolds(f, acc, cs[0]);
      var rest := CommentsStep(f, acc1, cs[1..]);
      accs := Chain(f, ["comment " + cs[0]], [acc, acc1], CommentTexts(cs[1..]), rest, CommentTexts(cs));
      assert acc.comments + [cs[0]] + cs[1..] == acc.comments + cs;
    }
  }

  /** The bound properties' lines of `e` from `j` on. */
  function PropertyTexts(m: Impl, e: Element, j: nat): seq<string>
    requires j <= |e.properties|
    decreases |e.properties| - j
  {
    if j == |e.properties| then []
    else (if Bound(m, e, e.properties[j]) then [PropertyText(e.properties[j])] else []) + PropertyTexts(m, e, j + 1)
  }

  lemma {:induction false} PropertyLinesAre(m: Impl, e: Element, j: nat)
    requires j <= |e.properties|
    ensures PropertyLines(m, e, j) == Lines(PropertyTexts(m, e, j))
    decreases |e.properties| - j
  {
    if j < |e.properties| {
      PropertyLinesAre(m, e, j + 1);
      var p := e.properties[j];
      var head := if Bound(m, e, p) then [PropertyText(p)] else [];
      LinesAppend(head, PropertyTexts(m, e, j + 1));
      if Bound(m, e, p) {
        assert [PropertyText(p)][1..] == [];
        assert Lines(head) == PropertyText(p) + "\n" + [];
        assert PropertyText(p) + "\n" + [] == PropertyLine(p);
      } else {
        assert "" + PropertyLines(m, e, j + 1) == PropertyLines(m, e, j + 1);
      }
    }
  }

  /** The element list with `ps` appended to the last element's properties. */
  function WithProperties(es: seq<Element>, ps: seq<Property>): seq<Element>
    requires es != []
  {
    var last := es[|es| - 1];
    es[..|es| - 1] + [last.(properties := last.properties + ps)]
  }

  lemma WithPropertiesStep(es: seq<Element>, p: Property, ps: seq<Property>)
    requires es != []
    ensures WithProperties(AddToLastElement(es, p), ps) == WithProperties(es, [p] + ps)
  {
    assert es[|es| - 1].properties + [p] + ps == es[|es| - 1].properties + ([p] + ps);
  }

  lemma {:induction false} PropertiesStep(f: LineFn, acc: Impl, m: Impl, e: Element, j: nat) returns (accs: seq<Impl>)
    requires BlockSteps(f) && j <= |e.properties| && acc.elements != []
    requires forall k :: j <= k < |e.properties| && Bound(m, e, e.properties[k]) ==> Word(e.properties[k].name)
    ensures Steps(f, PropertyTexts(m, e, j), accs) && accs[0] == acc
    ensures accs[|PropertyTexts(m, e, j)|] == acc.(elements := WithProperties(acc.elements, ParsedProps(m, e, j)))
    decreases |e.properties| - j
  {
    var es := acc.elements;
    if j == |e.properties| {
      accs := [acc];
      assert es[..|es| - 1] + [es[|es| - 1]] == es;
      assert es[|es| - 1].properties + [] == es[|es| - 1].properties;
      assert WithProperties(es, []) == es;
      assert acc.(elements := es) == acc;
    } else {
      var p := e.properties[j];
      var texts := PropertyTexts(m, e, j + 1);
      if Bound(m, e, p) {
        var acc1 := acc.(elements := AddToLastElement(es, ParsedProperty(p)));
        assert PropertyStepHolds(f, acc, p);
        var rest := PropertiesStep(f, acc1, m, e, j + 1);
        accs := Chain(f, [PropertyText(p)], [acc, acc1], texts, rest, PropertyTexts(m, e, j));
        WithPropertiesStep(es, ParsedProperty(p), ParsedProps(m, e, j + 1));
        assert ParsedProps(m, e, j) == [ParsedProperty(p)] + ParsedProps(m, e, j + 1);
      } else {
        accs := PropertiesStep(f, acc, m, e, j + 1);
        assert PropertyTexts(m, e, j) == texts;
        assert ParsedProps(m, e, j) == [] + ParsedProps(m, e, j + 1) == ParsedProps(m, e, j + 1);
      }
    }
  }

  /** The lines of the elements from `i` on, each with its bound properties. */
  function ElementTexts(m: Impl, i: nat): seq<string>
    requires i <= |m.elements|
    decreases |m.elements| - i
  {
    if i == |m.elements| then []
    else
      var e := m.elements[i];
      [ElementText(e)] + PropertyTexts(m, e, 0) + ElementTexts(m, i + 1)
  }

  lemma {:induction false} ElementLinesAre(m: Impl, i: nat)
    requires i <= |m.elements|
    ensures ElementLines(m, i) == Lines(ElementTexts(m, i))
    decreases |m.elements| - i
  {
    if i < |m.elements| {
      var e := m.elements[i];
      ElementLinesAre(m, i + 1);
      PropertyLinesAre(m, e, 0);
      LinesAppend([ElementText(e)] + PropertyTexts(m, e, 0), ElementTexts(m, i + 1));
      LinesAppend([ElementText(e)], PropertyTexts(m, e, 0));
      assert [ElementText(e)][1..] == [];
      assert Lines([ElementText(e)]) == ElementText(e) + "\n" + [];
      assert ElementText(e) + "\n" + [] == ElementText(e) + "\n";
    }
  }

  /** One element's line followed by its bound properties' lines. */
  lemma ElementBlockStep(f: LineFn, acc: Impl, m: Impl, e: Element) returns (accs: seq<Impl>)
    requires BlockSteps(f) && ElementWritable(m, e)
    ensures Steps(f, [ElementText(e)] + PropertyTexts(m, e, 0), accs) && accs[0] == acc
    ensures accs[1 + |PropertyTexts(m, e, 0)|] == acc.(elements := acc.elements + [Element(e.name, e.size, ParsedProps(m, e, 0))])
  {
    var acc1 := acc.(elements := acc.elements + [Element(e.name, e.size, [])]);
    var ps := ParsedProps(m, e, 0);
    assert ElementStepHolds(f, acc, e);
    var props := PropertiesStep(f, acc1, m, e, 0);
    assert acc1.elements[..|acc1.elements| - 1] == acc.elements && acc1.elements[|acc1.elements| - 1] == Element(e.name, e.size, []);
    assert [] + ps == ps;
    assert acc1.(elements := WithProperties(acc1.elements, ps)) == acc.(elements := acc.elements + [Element(e.name, e.size, ps)]);
    accs := Chain(f, [ElementText(e)], [acc, acc1], PropertyTexts(m, e, 0), props, [ElementText(e)] + PropertyTexts(m, e, 0));
  }

  lemma ParsedElementsStep(acc: Impl, m: Impl, i: nat)
    requires i < |m.elements|
    ensures var e := m.elements[i];
            acc.elements + [Element(e.name, e.size, ParsedProps(m, e, 0))] + ParsedElements(m, i + 1)
            == acc.elements + ParsedElements(m, i)
  {
    var e := m.elements[i];
    var x := [Element(e.name, e.size, ParsedProps(m, e, 0))];
    assert ParsedElements(m, i) == x + ParsedElements(m, i + 1);
    assert acc.elements + x + ParsedElements(m, i + 1) == acc.elements + (x + ParsedElements(m, i + 1));
  }

  lemma {:induction false} ElementsStep(f: LineFn, acc: Impl, m: Impl, i: nat) returns (accs: seq<Impl>)
    requires BlockSteps(f) && i <= |m.elements|
    requires forall k :: i <= k < |m.elements| ==> ElementWritable(m, m.elements[k])
    ensures Steps(f, ElementTexts(m, i), accs) && accs[0] == acc
    ensures accs[|ElementTexts(m, i)|] == acc.(elements := acc.elements + ParsedElements(m, i))
    decreases |m.elements| - i
  {
    if i == |m.elements| {
      accs := [acc];
      assert acc.elements + [] == acc.elements;
    } else {
      var e := m.elements[i];
      var acc2 := acc.(elements := acc.elements + [Element(e.name, e.size, ParsedProps(m, e, 0))]);
      var rest := ElementsStep(f, acc2, m, i + 1);
      accs := ElementThenRest(f, acc, m, i, rest);
    }
  }

  /** Element `i`'s block followed by the steps `rest` of the elements after it. */
  lemma ElementThenRest(f: LineFn, acc: Impl, m: Impl, i: nat, rest: seq<Impl>) returns (accs: seq<Impl>)
    requires BlockSteps(f) && i < |m.elements| && ElementWritable(m, m.elements[i])
    requires var e := m.elements[i];
      var acc2 := acc.(elements := acc.elements + [Element(e.name, e.size, ParsedProps(m, e, 0))]);
      Steps(f, ElementTexts(m, i + 1), rest) && rest[0] == acc2
      && rest[|ElementTexts(m, i + 1)|] == acc2.(elements := acc2.elements + ParsedElements(m, i + 1))
    ensures Steps(f, ElementTexts(m, i), accs) && accs[0] == acc
    ensures accs[|ElementTexts(m, i)|] == acc.(elements := acc.elements + ParsedElements(m, i))
  {
    var e := m.elements[i];
    var block := [ElementText(e)] + PropertyTexts(m, e, 0);
    var first := ElementBlockStep(f, acc, m, e);
    accs := Chain(f, block, first, ElementTexts(m, i + 1), rest, ElementTexts(m, i));
    ParsedElementsStep(acc, m, i);
  }

  /** Every line of the writer's header before end_header. */
  function HeaderTexts(m: Impl): seq<string>
  {
    ["ply", FormatText(m)] + CommentTexts(m.comments) + ElementTexts(m, 0)
  }

  lemma HeaderLinesAre(m: Impl)
    ensures HeaderText(m) == Lines(HeaderTexts(m)) + "end_header\n"
  {
    FormatLineIs(m);
    CommentLinesAre(m.comments);
    ElementLinesAre(m, 0);
    JoinHeader(FormatText(m), CommentTexts(m.comments), ElementTexts(m, 0));
  }

  lemma FormatLineIs(m: Impl)
    ensures FormatText(m) + "\n" == FormatLine(m)
  {
    assert " 1.0" + "\n" == " 1.0\n";
  }

  /** The header's lines, joined. */
  lemma JoinHeader(f: string, cs: seq<string>, es: seq<string>)
    ensures "ply\n" + (f + "\n") + Lines(cs) + Lines(es) + "end_header\n" == Lines(["ply", f] + cs + es) + "end_header\n"
  {
    var ls := ["ply", f];
    LinesAppend(ls + cs, es);
    LinesAppend(ls, cs);
    assert ls[1..][1..] == [];
    assert Lines(ls) == "ply" + "\n" + (f + "\n" + []);
    assert "ply" + "\n" == "ply\n";
    assert f + "\n" + [] == f + "\n";
  }

  /** The header's lines step a fresh document to `m`'s schema under any `f` that
      steps over each kind of line as ParseHeader's loop does. */
  lemma HeaderStepsFor(f: LineFn, m: Impl) returns (accs: seq<Impl>)
    requires HeaderWritable(m) && BlockSteps(f)
    requires var m0 := EmptyImpl();
      Steps(f, ["ply"], [m0, m0])
      && Steps(f, [FormatText(m)], [m0, m0.(isBinary := m0.isBinary || m.isBinary, isBigEndian := m0.isBigEndian || (m.isBinary && m.isBigEndian))])
    ensures Steps(f, HeaderTexts(m), accs)
    ensures accs[0] == EmptyImpl() && accs[|HeaderTexts(m)|] == Parsed(m)
  {
    var m0 := EmptyImpl();
    var m1 := m0.(isBinary := m.isBinary, isBigEndian := m.isBinary && m.isBigEndian);
    assert m1 == m0.(isBinary := m0.isBinary || m.isBinary, isBigEndian := m0.isBigEndian || (m.isBinary && m.isBigEndian));
    var head := Chain(f, ["ply"], [m0, m0], [FormatText(m)], [m0, m1], ["ply", FormatText(m)]);
    var cs := CommentsStep(f, m1, m.comments);
    var upTo := Chain(f, ["ply", FormatText(m)], head, CommentTexts(m.comments), cs,
                      ["ply", FormatText(m)] + CommentTexts(m.comments));
    var m2 := m1.(comments := [] + m.comments);
    var es := ElementsStep(f, m2, m, 0);
    accs := Chain(f, ["ply", FormatText(m)] + CommentTexts(m.comments), upTo, ElementTexts(m, 0), es, HeaderTexts(m));
    assert [] + m.comments == m.comments && [] + ParsedElements(m, 0) == ParsedElements(m, 0);
  }

  lemma RestOfIs(text: string, pos: nat, acc: Impl)
    requires pos <= |text|
    ensures RestOf(text)(pos, acc) == Rest(text, pos, acc)
  {
  }

  /** Lines at the start of `text` that each let the loop go on carry the
      document from their first step to their last, under any such `r`. */
  lemma RunsFrom(r: RunFn, f: LineFn, text: string, ls: seq<string>, accs: seq<Impl>)
    requires Moves(r, text, f) && At(text, 0, Lines(ls)) && Steps(f, ls, accs)
    ensures r(0, accs[0]) == r(|Lines(ls)|, accs[|ls|])
  {
    LinesRun(r, text, f, 0, ls, accs);
  }

  /** The lines before end_header carry a fresh document to `m`'s schema. */
  lemma HeaderBodyRuns(m: Impl, text: string)
    requires HeaderWritable(m) && At(text, 0, Lines(HeaderTexts(m)))
    ensures Rest(text, 0, EmptyImpl()) == Rest(text, |Lines(HeaderTexts(m))|, Parsed(m))
  {
    var m0 := EmptyImpl();
    HeaderLineBlockSteps();
    PlyStep(m0);
    FormatStep(m0, m);
    var accs := HeaderStepsFor(HeaderLine, m);
    HeaderLineMoves(text);
    RunsFrom(RestOf(text), HeaderLine, text, HeaderTexts(m), accs);
    RestOfIs(text, 0, m0);
    RestOfIs(text, |Lines(HeaderTexts(m))|, Parsed(m));
  }

  /** The header of `m` reads back as `m`'s schema, whatever follows it, and
      ParseHeader stops right after it. */
  lemma HeaderRoundTrip(m: Impl, rest: string)
    requires HeaderWritable(m)
    ensures ParseHeader(EmptyImpl(), HeaderText(m) + rest, 0) == (Parsed(m), Ok(true), |HeaderText(m)|)
  {
    var text := HeaderText(m) + rest;
    var ls := HeaderTexts(m);
    HeaderLinesAre(m);
    PrefixAt(Lines(ls), "end_header\n", rest);
    HeaderBodyRuns(m, text);
    StopsAtEndHeader(HeaderText(m), Lines(ls), rest, EmptyImpl(), Parsed(m));
  }

  /** Lines `body` that carry `acc` to `acc'`, then end_header: ParseHeader
      returns `acc'` and true, right after that line, whatever follows. */
  lemma StopsAtEndHeader(h: string, body: string, rest: string, acc: Impl, acc': Impl)
    requires h == body + "end_header\n"
    requires Rest(h + rest, 0, acc) == Rest(h + rest, |body|, acc')
    ensures ParseHeader(acc, h + rest, 0) == (acc', Ok(true), |h|)
  {
    PrefixAt(body, "end_header\n", rest);
    EndHeaderAt(h + rest, |body|, acc');
  }

  // ------------------------------------------------------------ the header Write emits

  lemma Latin1Append(a: seq<byte>, b: seq<byte>)
    ensures Latin1(a + b) == Latin1(a) + Latin1(b)
  {
    var l, r := Latin1(a + b), Latin1(a) + Latin1(b);
    forall i | 0 <= i < |l|
      ensures l[i] == r[i]
    {
      if i < |a| {
        assert r[i] == Latin1(a)[i];
      } else {
        assert r[i] == Latin1(b)[i - |a|];
      }
    }
  }

  predicate AllAscii(ls: seq<string>) { forall k :: 0 <= k < |ls| ==> IsAscii(ls[k]) }

  lemma AllAsciiAppend(a: seq<string>, b: seq<string>)
    requires AllAscii(a) && AllAscii(b)
    ensures AllAscii(a + b)
  {
    assert forall k :: 0 <= k < |a + b| ==> (a + b)[k] == if k < |a| then a[k] else b[k - |a|];
  }

  lemma {:induction false} LinesAscii(ls: seq<string>)
    requires AllAscii(ls)
    ensures IsAscii(Lines(ls))
  {
    if ls != [] {
      LinesAscii(ls[1..]);
      WordsAscii(ls[0], "\n");
      WordsAscii(ls[0] + "\n", Lines(ls[1..]));
    }
  }

  lemma {:induction false} CommentTextsAscii(cs: seq<string>)
    requires forall k :: 0 <= k < |cs| ==> CommentOk(cs[k])
    ensures AllAscii(CommentTexts(cs))
  {
    if cs != [] {
      CommentReads(cs[0]);
      CommentTextsAscii(cs[1..]);
      AllAsciiAppend(["comment " + cs[0]], CommentTexts(cs[1..]));
    }
  }

  lemma {:induction false} PropertyTextsAscii(m: Impl, e: Element, j: nat)
    requires j <= |e.properties|
    requires forall k :: j <= k < |e.properties| && Bound(m, e, e.properties[k]) ==> Word(e.properties[k].name)
    ensures AllAscii(PropertyTexts(m, e, j))
    decreases |e.properties| - j
  {
    if j < |e.properties| {
      var p := e.properties[j];
      PropertyTextsAscii(m, e, j + 1);
      if Bound(m, e, p) {
        PropertyReads(p);
      }
      AllAsciiAppend(if Bound(m, e, p) then [PropertyText(p)] else [], PropertyTexts(m, e, j + 1));
    }
  }

  lemma {:induction false} ElementTextsAscii(m: Impl, i: nat)
    requires i <= |m.elements|
    requires forall k :: i <= k < |m.elements| ==> ElementWritable(m, m.elements[k])
    ensures AllAscii(ElementTexts(m, i))
    decreases |m.elements| - i
  {
    if i < |m.elements| {
      var e := m.elements[i];
      ElementReads(e);
      PropertyTextsAscii(m, e, 0);
      ElementTextsAscii(m, i + 1);
      AllAsciiAppend([ElementText(e)], PropertyTexts(m, e, 0));
      AllAsciiAppend([ElementText(e)] + PropertyTexts(m, e, 0), ElementTexts(m, i + 1));
    }
  }

  lemma HeaderTextsAscii(m: Impl)
    requires HeaderWritable(m)
    ensures AllAscii(HeaderTexts(m))
  {
    FormatReads(m);
    CommentTextsAscii(m.comments);
    ElementTextsAscii(m, 0);
    var head := ["ply", FormatText(m)];
    assert IsAscii(head[0]) && IsAscii(head[1]);
    AllAsciiAppend(head, CommentTexts(m.comments));
    AllAsciiAppend(head + CommentTexts(m.comments), ElementTexts(m, 0));
  }

  lemma {:induction false} LinesEndAscii(ls: seq<string>)
    requires AllAscii(ls)
    ensures IsAscii(Lines(ls) + "end_header\n")
  {
    LinesAscii(ls);
    WordsAscii(Lines(ls), "end_header\n");
  }

  /** A writable header is ASCII, so the writer emits it one byte per character. */
  lemma HeaderAscii(m: Impl)
    requires HeaderWritable(m)
    ensures IsAscii(HeaderText(m))
  {
    HeaderTextsAscii(m);
    LinesEndAscii(HeaderTexts(m));
    HeaderLinesAre(m);
  }

  /** The bytes Write emits start with a header that a fresh document's
      ParseHeader, reading the stream as one character per byte, takes back as
      the schema written: the chosen format (little-endian when binary), the
      comments and every element with its bound properties. It stops right
      after end_header, whatever payload follows. */
  lemma WrittenHeaderReadsBack(m: Impl, isBinary: bool, floats: FloatText)
    requires WellFormed(m) && HeaderWritable(m) && Write(m, isBinary, floats).Ok?
    ensures var m0 := WriteStart(m, isBinary);
      ParseHeader(EmptyImpl(), Latin1(Write(m, isBinary, floats).value.1), 0)
        == (Parsed(m0), Ok(true), |HeaderText(m0)|)
      && Parsed(m0).isBinary == isBinary && !Parsed(m0).isBigEndian && Parsed(m0).comments == m.comments
  {
    var m0 := WriteStart(m, isBinary);
    var w := Write(m, isBinary, floats).value.1;
    var hd := Encode(HeaderText(m0));
    var rest := w[|hd|..];
    assert w == hd + rest;
    assert HeaderWritable(m0);
    HeaderAscii(m0);
    EncodeAscii(HeaderText(m0));
    Latin1Append(hd, rest);
    HeaderRoundTrip(m0, Latin1(rest));
  }
}
