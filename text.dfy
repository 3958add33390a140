/** The text view of a PLY stream: header lines and whitespace-separated words.
    Each byte of the stream is read as one character (so the UTF-8 decoding of
    BinaryReader is only modelled for ASCII); the writer encodes characters as UTF-8. */
module Text {
  import opened Wrappers
  import opened Bytes

  /** Char.IsWhiteSpace restricted to ASCII: tab, line feed, vertical tab, form feed,
      carriage return and space. */
  predicate IsWhiteSpace(c: char) { c == ' ' || ('\t' <= c <= '\r') }

  predicate NoWhiteSpace(s: string) { forall i :: 0 <= i < |s| ==> !IsWhiteSpace(s[i]) }

  predicate IsAscii(s: string) { forall i :: 0 <= i < |s| ==> s[i] as int < 0x80 }

  /** The stream's bytes as characters, one per byte. */
  function Latin1(b: seq<byte>): (s: string)
    ensures |s| == |b|
    ensures forall i :: 0 <= i < |b| ==> s[i] == b[i] as char
  {
    seq(|b|, i requires 0 <= i < |b| => b[i] as char)
  }

  /** ReadWord converts each character code back to a char through
      Encoding.GetChars(BitConverter.GetBytes(c)): the code's low byte alone, which
      decodes to itself below 0x80 and to the replacement character otherwise. */
  function WordChar(c: char): char
  {
    if c as int < 0x80 then c else '�'
  }

  // ---------------------------------------------------------------- ReadWord

  /** The rest of ReadWord's loop with `word` read so far, from position `pos`:
      white space before the word is skipped, the word ends at the first white
      space after it (which is consumed) or at the end of the stream. */
  function WordFrom(s: string, pos: nat, word: string): (r: (string, nat))
    requires pos <= |s|
    ensures pos <= r.1 <= |s|
    ensures NoWhiteSpace(word) ==> NoWhiteSpace(r.0)
    ensures |word| <= |r.0| && r.0[..|word|] == word
    ensures r.1 < |s| ==> r.0 != []
    ensures pos < |s| ==> pos < r.1
    decreases |s| - pos
  {
    if pos == |s| then (word, pos)
    else
      var chr := WordChar(s[pos]);
      if IsWhiteSpace(chr) && word != [] then (word, pos + 1)
      else if !IsWhiteSpace(chr) then WordFrom(s, pos + 1, word + [chr])
      else WordFrom(s, pos + 1, word)
  }

  /** ReadWord: the next word and the position after it. */
  function NextWord(s: string, pos: nat): (r: (string, nat))
    requires pos <= |s|
    ensures pos <= r.1 <= |s| && NoWhiteSpace(r.0)
  {
    WordFrom(s, pos, [])
  }

  method ReadWord(s: string, pos: nat) returns (word: string, next: nat)
    requires pos <= |s|
    ensures (word, next) == NextWord(s, pos)
  {
    word, next := [], pos;
    while true
      invariant pos <= next <= |s|
      invariant WordFrom(s, next, word) == WordFrom(s, pos, [])
      decreases |s| - next
    {
      if next == |s| {
        return;
      }
      var chr := WordChar(s[next]);
      next := next + 1;
      if IsWhiteSpace(chr) && word != [] {
        return;
      } else if !IsWhiteSpace(chr) {
        word := word + [chr];
      }
    }
  }

  /** Reading a word that stands at `pos` after some white space: ReadWord returns
      it and stops after the one white-space character that follows it. */
  lemma {:induction false} WordFromAt(s: string, pos: nat, w: string, word: string)
    requires pos + |w| < |s| && s[pos..pos + |w|] == w && IsWhiteSpace(s[pos + |w|])
    requires IsAscii(w) && NoWhiteSpace(w) && w + word != []
    ensures WordFrom(s, pos, word) == (word + w, pos + |w| + 1)
    decreases |w|
  {
    if w == [] {
      assert word != [] && word + w == word;
      assert IsWhiteSpace(WordChar(s[pos]));
    } else {
      assert s[pos] == w[0];
      assert WordChar(s[pos]) == w[0];
      assert s[pos + 1..pos + 1 + |w[1..]|] == w[1..];
      WordFromAt(s, pos + 1, w[1..], word + [w[0]]);
      assert word + [w[0]] + w[1..] == word + w;
    }
  }

  /** The same, for a word that ends the stream. */
  lemma {:induction false} WordFromAtEnd(s: string, pos: nat, w: string, word: string)
    requires pos + |w| == |s| && s[pos..] == w
    requires IsAscii(w) && NoWhiteSpace(w)
    ensures WordFrom(s, pos, word) == (word + w, |s|)
    decreases |w|
  {
    if w == [] {
      assert word + w == word;
    } else {
      assert s[pos] == w[0];
      assert WordChar(s[pos]) == w[0];
      assert s[pos + 1..] == w[1..];
      WordFromAtEnd(s, pos + 1, w[1..], word + [w[0]]);
      assert word + [w[0]] + w[1..] == word + w;
    }
  }

  /** White space in front of a word is skipped. */
  lemma {:induction false} WordSkipsWhite(s: string, pos: nat, k: nat)
    requires pos + k <= |s|
    requires forall i :: pos <= i < pos + k ==> IsWhiteSpace(s[i])
    ensures WordFrom(s, pos, []) == WordFrom(s, pos + k, [])
    decreases k
  {
    if k > 0 {
      assert IsWhiteSpace(WordChar(s[pos]));
      WordSkipsWhite(s, pos + 1, k - 1);
    }
  }

  /** A word followed by one white-space character reads back as itself. */
  lemma ReadWordOf(s: string, pos: nat, w: string)
    requires pos + |w| < |s| && s[pos..pos + |w|] == w && IsWhiteSpace(s[pos + |w|])
    requires IsAscii(w) && NoWhiteSpace(w) && w != []
    ensures NextWord(s, pos) == (w, pos + |w| + 1)
  {
    WordFromAt(s, pos, w, []);
  }

  // ---------------------------------------------------------------- ReadLine

  predicate NoLineBreak(s: string) { forall i :: 0 <= i < |s| ==> s[i] != '\n' && s[i] != '\r' }

  /** The rest of ReadLine's loop with `acc` read so far: a line ends at "\n", "\r" or
      "\r\n" (consumed, not returned); at the end of the stream an empty line is
      None (`null`) and a non-empty one is returned as it is. */
  function LineFrom(s: string, pos: nat, acc: string): (r: Option<(string, nat)>)
    requires pos <= |s|
    ensures r.Some? ==> pos <= r.value.1 <= |s| && (pos < r.value.1 || acc != [])
    ensures r.None? ==> acc == []
    ensures NoLineBreak(acc) && r.Some? ==> NoLineBreak(r.value.0)
    decreases |s| - pos
  {
    if pos == |s| then (if acc == [] then None else Some((acc, pos)))
    else if s[pos] == '\r' then
      (if pos + 1 < |s| && s[pos + 1] == '\n' then Some((acc, pos + 2)) else Some((acc, pos + 1)))
    else if s[pos] == '\n' then Some((acc, pos + 1))
    else LineFrom(s, pos + 1, acc + [s[pos]])
  }

  /** ReadLine: the next line and the position after its line break, or None at
      the end of the stream; a line that is returned always consumed something. */
  function NextLine(s: string, pos: nat): (r: Option<(string, nat)>)
    requires pos <= |s|
    ensures r.Some? ==> pos < r.value.1 <= |s| && NoLineBreak(r.value.0)
    ensures r.None? <==> pos == |s|
  {
    LineFrom(s, pos, [])
  }

  method ReadLine(s: string, pos: nat) returns (line: Option<string>, next: nat)
    requires pos <= |s|
    ensures NextLine(s, pos).Some? ==> line == Some(NextLine(s, pos).value.0) && next == NextLine(s, pos).value.1
    ensures NextLine(s, pos).None? ==> line == None && next == pos
  {
    var result: string := [];
    next := pos;
    while true
      invariant pos <= next <= |s|
      invariant LineFrom(s, next, result) == LineFrom(s, pos, [])
      decreases |s| - next
    {
      if next == |s| {
        if result == [] {
          return None, next;
        }
        break;
      }
      var ch := s[next];
      next := next + 1;
      if ch == '\r' {
        if next < |s| && s[next] == '\n' {
          next := next + 1;
        }
        break;
      } else if ch == '\n' {
        break;
      } else {
        result := result + [ch];
      }
    }
    line := Some(result);
  }

  /** A run `l` without line breaks at `pos` is read into the line; what follows
      it decides the rest: the end of the stream, "\n", "\r\n" or a lone "\r" ends
      the line there (the break is consumed), anything else continues it. */
  lemma {:induction false} LineBreaks(s: string, pos: nat, l: string, acc: string)
    requires pos + |l| <= |s| && s[pos..pos + |l|] == l && NoLineBreak(l)
    ensures var q := pos + |l|;
            LineFrom(s, pos, acc)
            == if q == |s| then (if acc + l == [] then None else Some((acc + l, q)))
               else if s[q] == '\n' then Some((acc + l, q + 1))
               else if s[q] == '\r' then Some((acc + l, if q + 1 < |s| && s[q + 1] == '\n' then q + 2 else q + 1))
               else LineFrom(s, q, acc + l)
    decreases |l|
  {
    if l == [] {
      assert acc + l == acc;
    } else {
      assert s[pos] == l[0];
      assert s[pos + 1..pos + 1 + |l[1..]|] == l[1..];
      LineBreaks(s, pos + 1, l[1..], acc + [l[0]]);
      assert acc + [l[0]] + l[1..] == acc + l;
    }
  }

  /** A line written as `l` + "\n" reads back as `l`. */
  lemma LineFromAt(s: string, pos: nat, l: string, acc: string)
    requires pos + |l| < |s| && s[pos..pos + |l|] == l && s[pos + |l|] == '\n'
    requires NoLineBreak(l)
    ensures LineFrom(s, pos, acc) == Some((acc + l, pos + |l| + 1))
  {
    LineBreaks(s, pos, l, acc);
  }

  // ---------------------------------------------------------------- Trim

  /** The first position from `i` on that holds no white space (or the end). */
  function SkipWhite(s: string, i: nat): (k: nat)
    requires i <= |s|
    ensures i <= k <= |s| && (k == |s| || !IsWhiteSpace(s[k]))
    decreases |s| - i
  {
    if i < |s| && IsWhiteSpace(s[i]) then SkipWhite(s, i + 1) else i
  }

  /** The end of `s[..k]` once white space at its end, down to `lo`, is dropped. */
  function DropWhiteEnd(s: string, lo: nat, k: nat): (e: nat)
    requires lo <= k <= |s|
    ensures lo <= e <= k && (e == lo || !IsWhiteSpace(s[e - 1]))
    decreases k
  {
    if lo < k && IsWhiteSpace(s[k - 1]) then DropWhiteEnd(s, lo, k - 1) else k
  }

  /** String.Trim: the line without leading or trailing white space. */
  function Trim(s: string): (t: string)
    ensures t == [] || (!IsWhiteSpace(t[0]) && !IsWhiteSpace(t[|t| - 1]))
  {
    var a := SkipWhite(s, 0);
    s[a..DropWhiteEnd(s, a, |s|)]
  }

  /** A string that neither begins nor ends with white space is its own trim. */
  lemma TrimOfTrimmed(s: string)
    requires s == [] || (!IsWhiteSpace(s[0]) && !IsWhiteSpace(s[|s| - 1]))
    ensures Trim(s) == s
  {
    assert s[0..|s|] == s;
  }

  // ---------------------------------------------------------------- UTF-8 output

  /** The UTF-8 bytes of one character (Encoding.UTF8 without byte-order mark). */
  function Utf8Char(c: char): (b: seq<byte>)
    ensures 1 <= |b| <= 4
    ensures c as int < 0x80 ==> b == [c as int as bv8]
  {
    if c as int < 0x80 then [c as int as bv8] else Utf8Multi(c as int)
  }

  /** The two, three or four bytes of a code point from 0x80 on. */
  function Utf8Multi(n: int): (b: seq<byte>)
    requires 0x80 <= n < 0x11_0000
    ensures 2 <= |b| <= 4
  {
    if n < 0x800 then [(0xC0 + n / 0x40) as bv8, (0x80 + n % 0x40) as bv8]
    else if n < 0x10000 then
      [(0xE0 + n / 0x1000) as bv8, (0x80 + (n / 0x40) % 0x40) as bv8, (0x80 + n % 0x40) as bv8]
    else
      [(0xF0 + n / 0x40000) as bv8, (0x80 + (n / 0x1000) % 0x40) as bv8,
       (0x80 + (n / 0x40) % 0x40) as bv8, (0x80 + n % 0x40) as bv8]
  }

  /** The bytes a text writer emits for `s`. */
  function Encode(s: string): (b: seq<byte>)
    ensures |b| >= |s|
  {
    if s == [] then [] else Utf8Char(s[0]) + Encode(s[1..])
  }

  lemma {:induction false} EncodeAppend(a: string, b: string)
    ensures Encode(a + b) == Encode(a) + Encode(b)
  {
    if a == [] {
      assert a + b == b;
    } else {
      assert (a + b)[0] == a[0];
      assert (a + b)[1..] == a[1..] + b;
      calc {
        Encode(a + b);
        Utf8Char(a[0]) + Encode(a[1..] + b);
        { EncodeAppend(a[1..], b); }
        Utf8Char(a[0]) + (Encode(a[1..]) + Encode(b));
      }
    }
  }

  lemma ByteChar(c: char)
    requires c as int < 0x80
    ensures (c as int as bv8) as char == c
  {
    ByteRoundTrip(c as int);
  }

  /** ASCII text is written one byte per character, so reading it back as Latin-1
      characters gives the text itself. */
  lemma {:induction false} EncodeAscii(s: string)
    requires IsAscii(s)
    ensures Latin1(Encode(s)) == s
  {
    if s != [] {
      var head := s[0] as int as bv8;
      assert Encode(s) == [head] + Encode(s[1..]);
      EncodeAscii(s[1..]);
      ByteChar(s[0]);
      assert Latin1(Encode(s)) == [head as char] + Latin1(Encode(s[1..]));
    }
  }
}
