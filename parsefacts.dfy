/** What ParseHeader's loop does with each kind of header line, how ReadLine cuts
    the text into lines, and when the loop stops. */
module ParseFacts {
  import opened Wrappers
  import opened Text
  import opened Schema
  import opened Header

  /** The first word of a header line after trimming: what the loop's if-chain tests. */
  function FirstWord(raw: string): string
  {
    NextWord(Latin1(Encode(Trim(raw))), 0).0
  }

  /** A word the if-chain tests for. */
  predicate Known(t: string)
  {
    t == "ply" || t == "PLY" || t == "" || t == "comment" || t == "format" || t == "element"
    || t == "property" || t == "obj_info" || t == "end_header"
  }

  lemma {:induction false} KeywordFromMiss(t: string, i: nat)
    requires forall j :: i <= j < |Keywords| ==> Keywords[j].0 != t
    ensures KeywordFrom(t, i) == UnknownWord
    decreases |Keywords| - i
  {
    if i < |Keywords| {
      KeywordFromMiss(t, i + 1);
    }
  }

  /** A word is told apart by the if-chain exactly when it is one of the nine it
      tests for. */
  lemma UnknownWords(t: string)
    ensures KeywordOf(t) == UnknownWord <==> !Known(t)
  {
    if Known(t) {
      assert Keywords[0].0 == "ply" && Keywords[1].0 == "PLY" && Keywords[2].0 == "";
      assert Keywords[3].0 == "comment" && Keywords[4].0 == "format" && Keywords[5].0 == "element";
      assert Keywords[6].0 == "property" && Keywords[7].0 == "obj_info" && Keywords[8].0 == "end_header";
    } else {
      KeywordFromMiss(t, 0);
    }
  }

  /** Empty lines and "ply"/"PLY" lines change nothing and let the loop go on. */
  lemma SkippedLine(acc: Impl, raw: string)
    requires FirstWord(raw) == "ply" || FirstWord(raw) == "PLY" || FirstWord(raw) == ""
    ensures HeaderLine(acc, raw) == (acc, Continue(true))
  {
  }

  /** A comment line stores the trimmed line minus its first 8 characters; a
      shorter line throws. */
  lemma CommentLine(acc: Impl, raw: string)
    requires FirstWord(raw) == "comment"
    ensures var line := Trim(raw);
            HeaderLine(acc, raw)
            == if |line| < 8 then (acc, Abort(TextTooShort))
               else (acc.(comments := acc.comments + [line[8..]]), Continue(true))
  {
  }

  /** An obj_info line stores the trimmed line minus its first 9 characters; a
      shorter line throws. */
  lemma ObjInfoLine(acc: Impl, raw: string)
    requires FirstWord(raw) == "obj_info"
    ensures var line := Trim(raw);
            HeaderLine(acc, raw)
            == if |line| < 9 then (acc, Abort(TextTooShort))
               else (acc.(objInfo := acc.objInfo + [line[9..]]), Continue(true))
  {
  }

  /** The word after `format`: binary_big_endian sets both flags,
      binary_little_endian sets IsBinary only, anything else (ascii) sets neither. */
  lemma FormatLine(acc: Impl, raw: string)
    requires FirstWord(raw) == "format"
    ensures var ls := Latin1(Encode(Trim(raw)));
            var w := NextWord(ls, NextWord(ls, 0).1).0;
            var (r, step) := HeaderLine(acc, raw);
            step == Continue(true)
            && r == acc.(isBinary := r.isBinary, isBigEndian := r.isBigEndian)
            && r.isBinary == (acc.isBinary || w == "binary_big_endian" || w == "binary_little_endian")
            && r.isBigEndian == (acc.isBigEndian || w == "binary_big_endian")
  {
  }

  /** An element line appends the element it names, or throws when its size is
      not an int32. */
  lemma ElementLine(acc: Impl, raw: string)
    requires FirstWord(raw) == "element"
    ensures var ls := Latin1(Encode(Trim(raw)));
            var p1 := NextWord(ls, 0).1;
            var (r, step) := HeaderLine(acc, raw);
            match ParseElement(ls, p1)
            case Ok(e) =>
              r == acc.(elements := acc.elements + [e]) && step == Continue(true)
              && e.name == NextWord(ls, p1).0 && e.properties == [] && Int32Min <= e.size <= Int32Max
            case Err(err) => r == acc && step == Abort(err)
  {
  }

  /** A property line appends to the last element, and throws when there is none. */
  lemma PropertyLine(acc: Impl, raw: string)
    requires FirstWord(raw) == "property"
    ensures var (r, step) := HeaderLine(acc, raw);
            if acc.elements == [] then r == acc && step == Abort(PropertyBeforeElement)
            else
              var ls := Latin1(Encode(Trim(raw)));
              var p := ParseProperty(ls, NextWord(ls, 0).1);
              var n := |acc.elements|;
              step == Continue(true) && |r.elements| == n
              && r == acc.(elements := r.elements)
              && r.elements[..n - 1] == acc.elements[..n - 1]
              && r.elements[n - 1] == acc.elements[n - 1].(properties := acc.elements[n - 1].properties + [p])
  {
  }

  /** An end_header line changes nothing and ends the loop. */
  lemma EndHeaderLine(acc: Impl, raw: string)
    requires FirstWord(raw) == "end_header"
    ensures HeaderLine(acc, raw) == (acc, EndHeader)
  {
  }

  /** A line whose first word is not one the if-chain tests for changes nothing,
      makes the result false, and lets the loop go on. */
  lemma UnknownLine(acc: Impl, raw: string)
    requires !Known(FirstWord(raw))
    ensures HeaderLine(acc, raw) == (acc, Continue(false))
  {
    UnknownWords(FirstWord(raw));
  }

  // ------------------------------------------------------------ the loop

  /** After a line with an unknown first word the loop carries on with the
      success flag cleared, so ParseHeader can no longer return true. */
  lemma UnknownLineContinues(text: string, pos: nat, acc: Impl, success: bool)
    requires pos <= |text| && NextLine(text, pos).Some?
    requires !Known(FirstWord(NextLine(text, pos).value.0))
    ensures var next := NextLine(text, pos).value.1;
            HeaderFrom(text, pos, acc, success) == HeaderFrom(text, next, acc, false)
            && HeaderFrom(text, pos, acc, success).1 != Ok(true)
  {
    UnknownLine(acc, NextLine(text, pos).value.0);
  }

  /** The loop stops right after the end_header line: reading resumes there. */
  lemma StopsAfterEndHeader(text: string, pos: nat, acc: Impl, success: bool)
    requires pos <= |text| && NextLine(text, pos).Some?
    requires FirstWord(NextLine(text, pos).value.0) == "end_header"
    ensures HeaderFrom(text, pos, acc, success) == (acc, Ok(success), NextLine(text, pos).value.1)
  {
    EndHeaderLine(acc, NextLine(text, pos).value.0);
  }

  /** An exception ends the loop with the document as the earlier lines left it. */
  lemma AbortStops(text: string, pos: nat, acc: Impl, success: bool)
    requires pos <= |text| && NextLine(text, pos).Some?
    requires HeaderLine(acc, NextLine(text, pos).value.0).1.Abort?
    ensures var (r, step) := HeaderLine(acc, NextLine(text, pos).value.0);
            HeaderFrom(text, pos, acc, success) == (r, Err(step.error), NextLine(text, pos).value.1)
  {
  }

  /** The end of the text ends the loop with the success flag so far. */
  lemma StopsAtEnd(text: string, acc: Impl, success: bool)
    ensures HeaderFrom(text, |text|, acc, success) == (acc, Ok(success), |text|)
  {
  }
}
