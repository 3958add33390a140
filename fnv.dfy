/** The 32-bit FNV-1a hash that keys the binding table (PlyHelper.HashFnv1a). The
    hash is a uint; its xor and its unchecked multiplication are written out on
    integers modulo 2^32. It is fed the string's UTF-16 code units, as C# iterates a
    string. */
module Fnv {
  import opened Bytes

  const Fnv1aBase32: uint32 := 0x811C9DC5
  const Fnv1aPrime32: uint32 := 0x01000193

  /** The exclusive or of the low `n` bits of `a` and `b`. */
  function Xor(a: nat, b: nat, n: nat): (r: nat)
    ensures r < Pow2(n)
  {
    if n == 0 then 0 else (if a % 2 == b % 2 then 0 else 1) + 2 * Xor(a / 2, b / 2, n - 1)
  }

  function Pow2(n: nat): (p: nat)
    ensures p >= 1
  {
    if n == 0 then 1 else 2 * Pow2(n - 1)
  }

  /** The UTF-16 code units of one character, as a C# string stores it: a character
      outside the Basic Multilingual Plane is a surrogate pair. */
  function Units(c: char): (u: seq<nat>)
    ensures 1 <= |u| <= 2 && forall k :: 0 <= k < |u| ==> u[k] < 0x1_0000
    ensures |u| == 1 <==> (c as int) < 0x1_0000
    ensures (c as int) < 0x1_0000 ==> u == [c as int]
  {
    if (c as int) < 0x1_0000 then [c as int]
    else
      var v := c as int - 0x1_0000;
      [0xD800 + v / 0x400, 0xDC00 + v % 0x400]
  }

  /** The UTF-16 code units of a string, which `foreach (var c in str)` visits. */
  function Utf16(s: string): (u: seq<nat>)
    ensures |u| >= |s|
  {
    if s == [] then [] else Units(s[0]) + Utf16(s[1..])
  }

  /** One round: xor the code unit in, then multiply modulo 2^32. */
  function Round(h: uint32, c: nat): uint32
  {
    (Xor(h, c, 32) * Fnv1aPrime32 as int) % 0x1_0000_0000
  }

  /** The hash state after feeding the code units `s` to a hash whose state is `h`. */
  function Fold(h: uint32, s: seq<nat>): uint32
    decreases |s|
  {
    if s == [] then h else Fold(Round(h, s[0]), s[1..])
  }

  function Fnv1a(s: string): uint32
  {
    Fold(Fnv1aBase32, Utf16(s))
  }

  method HashFnv1a(str: string) returns (result: uint32)
    ensures result == Fnv1a(str)
  {
    var units := Utf16(str);
    result := Fnv1aBase32;
    var i := 0;
    while i < |units|
      invariant 0 <= i <= |units|
      invariant Fold(result, units[i..]) == Fnv1a(str)
    {
      assert units[i..][1..] == units[i + 1..];
      result := Round(result, units[i]);
      i := i + 1;
    }
  }

  /** Hashing a concatenation continues from the hash of its first part. */
  lemma {:induction false} FoldAppend(h: uint32, a: seq<nat>, b: seq<nat>)
    ensures Fold(h, a + b) == Fold(Fold(h, a), b)
    decreases |a|
  {
    if a == [] {
      assert a + b == b;
    } else {
      assert (a + b)[0] == a[0] && (a + b)[1..] == a[1..] + b;
      FoldAppend(Round(h, a[0]), a[1..], b);
    }
  }

  /** The code units of a concatenation are those of its parts. */
  lemma {:induction false} Utf16Append(a: string, b: string)
    ensures Utf16(a + b) == Utf16(a) + Utf16(b)
    decreases |a|
  {
    if a == [] {
      assert a + b == b;
    } else {
      assert (a + b)[0] == a[0] && (a + b)[1..] == a[1..] + b;
      Utf16Append(a[1..], b);
    }
  }

  /** A string inside the Basic Multilingual Plane (every name read from a header,
      which is read one character per byte) is one code unit per character. */
  lemma {:induction false} Utf16OfBmp(s: string)
    requires forall k :: 0 <= k < |s| ==> (s[k] as int) < 0x1_0000
    ensures |Utf16(s)| == |s| && forall k :: 0 <= k < |s| ==> Utf16(s)[k] == s[k] as int
  {
    if s != [] {
      Utf16OfBmp(s[1..]);
    }
  }

  /** A character outside the Basic Multilingual Plane takes two rounds, one per
      surrogate: U+1D11E is hashed as 0xD834 then 0xDD1E. */
  lemma SurrogateRounds(h: uint32)
    ensures Fold(h, Utf16("\U{1D11E}")) == Round(Round(h, 0xD834), 0xDD1E)
  {
    assert Utf16("\U{1D11E}") == [0xD834, 0xDD1E] + [];
    assert [0xD834, 0xDD1E][1..] == [0xDD1E];
  }

  /** The binding key of an (element, property) pair: the hash of the element's
      name followed by the property's name. */
  function BindingKey(element: string, property: string): (k: uint32)
    ensures k == Fold(Fnv1a(element), Utf16(property))
  {
    Utf16Append(element, property);
    FoldAppend(Fnv1aBase32, Utf16(element), Utf16(property));
    Fnv1a(element + property)
  }

  /** The key only sees the concatenated names: ("ab", "c") and ("a", "bc") share a key. */
  lemma KeyOfSplitNames()
    ensures BindingKey("ab", "c") == BindingKey("a", "bc")
  {
    assert "ab" + "c" == "a" + "bc";
  }
}
