/** Bytes and the little-endian integer layout of System.BitConverter.
    Integer values are unbounded `int`s; the fixed widths of the C# types are
    written out as explicit ranges and two's-complement conversions. */
module Bytes {

  type byte = bv8

  /** C#'s uint. */
  type uint32 = x: int | 0 <= x < 0x1_0000_0000

  /** 256^n, the number of values n bytes can hold. */
  function Pow256(n: nat): (p: nat)
    ensures p >= 1
    ensures n >= 1 ==> p >= 256
  {
    if n == 0 then 1 else 256 * Pow256(n - 1)
  }

  /** The unsigned value of `b` read little-endian (first byte least significant). */
  function LeValue(b: seq<byte>): nat
  {
    if b == [] then 0 else b[0] as int + 256 * LeValue(b[1..])
  }

  /** The `n` low bytes of `v` in little-endian order; for a negative `v` these are the
      bytes of its two's-complement form (BitConverter.GetBytes). */
  function LeBytes(v: int, n: nat): (r: seq<byte>)
    ensures |r| == n
    decreases n
  {
    if n == 0 then [] else [(v % 256) as byte] + LeBytes(v / 256, n - 1)
  }

  lemma MulLe(d: int, a: int, b: int)
    requires d > 0 && a <= b
    ensures d * a <= d * b
  {
    var k := b - a;
    assert d * b == d * a + d * k;
    assert d * k >= 0;
  }

  /** Euclidean division is determined by any quotient/remainder pair. */
  lemma ModUnique(v: int, d: int, q: int, r: int)
    requires d > 0 && v == d * q + r && 0 <= r < d
    ensures v / d == q && v % d == r
  {
    var q', r' := v / d, v % d;
    assert v == d * q' + r';
    if q > q' {
      MulLe(d, q' + 1, q);
      assert false;
    } else if q < q' {
      MulLe(d, q + 1, q');
      assert false;
    }
  }

  /** Splitting a remainder modulo 256 * p into its low byte and the rest. */
  lemma ModSplit(v: int, p: nat)
    requires p > 0
    ensures v % (256 * p) == v % 256 + 256 * ((v / 256) % p)
  {
    var q, r := v / 256, v % 256;
    var q2, r2 := q / p, q % p;
    assert v == (256 * p) * q2 + (256 * r2 + r) by {
      assert v == 256 * q + r;
      assert q == p * q2 + r2;
    }
    ModUnique(v, 256 * p, q2, 256 * r2 + r);
  }

  lemma {:induction false} LeValueBound(b: seq<byte>)
    ensures LeValue(b) < Pow256(|b|)
  {
    if b != [] {
      LeValueBound(b[1..]);
    }
  }

  lemma ByteRoundTrip(x: int)
    requires 0 <= x < 256
    ensures (x as byte) as int == x
  {
    assert x % 256 == x;
  }

  /** Reading back the bytes GetBytes produced gives the value modulo 256^n. */
  lemma {:induction false} LeValueOfBytes(v: int, n: nat)
    ensures LeValue(LeBytes(v, n)) == v % Pow256(n)
    decreases n
  {
    if n > 0 {
      var r := LeBytes(v, n);
      var p := Pow256(n - 1);
      assert r[1..] == LeBytes(v / 256, n - 1);
      LeValueOfBytes(v / 256, n - 1);
      assert LeValue(r[1..]) == (v / 256) % p;
      ByteRoundTrip(v % 256);
      assert LeValue(r) == v % 256 + 256 * ((v / 256) % p);
      ModSplit(v, p);
      assert Pow256(n) == 256 * p;
    }
  }

  /** Writing the value of `b` back with GetBytes gives `b` itself. */
  lemma {:induction false} BytesOfLeValue(b: seq<byte>)
    ensures LeBytes(LeValue(b), |b|) == b
  {
    if b != [] {
      var v := LeValue(b);
      var rest := LeValue(b[1..]);
      assert v == b[0] as int + 256 * rest;
      ModUnique(v, 256, rest, b[0] as int);
      BytesOfLeValue(b[1..]);
    }
  }

  /** C#'s unchecked int arithmetic: `x` wrapped into the 32-bit signed range. */
  function Int32Wrap(x: int): (r: int)
    ensures -0x8000_0000 <= r < 0x8000_0000
    ensures (x - r) % 0x1_0000_0000 == 0
    ensures -0x8000_0000 <= x < 0x8000_0000 ==> r == x
  {
    var u := x % 0x1_0000_0000;
    if u >= 0x8000_0000 then u - 0x1_0000_0000 else u
  }

  /** The two's-complement reading of an unsigned n-byte value. */
  function Signed(u: int, n: nat): int
  {
    if u >= Pow256(n) / 2 then u - Pow256(n) else u
  }

  /** BitConverter.ToUInt16 / ToUInt32 / ToInt16 / ToInt32 at an offset; the caller
      must first check that the bytes are there (BitConverter throws otherwise). */
  function ReadUnsigned(b: seq<byte>, off: nat, n: nat): nat
    requires off + n <= |b|
  {
    LeValue(b[off..off + n])
  }

  function ReadSigned(b: seq<byte>, off: nat, n: nat): int
    requires off + n <= |b|
  {
    Signed(LeValue(b[off..off + n]), n)
  }

  /** A signed n-byte value written by GetBytes reads back unchanged. */
  lemma SignedRoundTrip(v: int, n: nat)
    requires n >= 1 && -((Pow256(n) / 2) as int) <= v < Pow256(n) / 2
    ensures ReadSigned(LeBytes(v, n), 0, n) == v
  {
    var b := LeBytes(v, n);
    assert b[0..n] == b;
    LeValueOfBytes(v, n);
    var p := Pow256(n);
    if v < 0 {
      ModUnique(v, p, -1, v + p);
    } else {
      ModUnique(v, p, 0, v);
    }
  }

  /** An unsigned n-byte value written by GetBytes reads back unchanged. */
  lemma UnsignedRoundTrip(v: int, n: nat)
    requires 0 <= v < Pow256(n)
    ensures ReadUnsigned(LeBytes(v, n), 0, n) == v
  {
    var b := LeBytes(v, n);
    assert b[0..n] == b;
    LeValueOfBytes(v, n);
    ModUnique(v, Pow256(n), 0, v);
  }
}
