/** In-place byte-order reversal (PlyHelper.EndianSwapHelper). Each width has a
    routine that reads the value with BitConverter (little-endian), reverses its
    bytes with shifts and masks, and writes it back; EndianSwapBuffer applies the
    routine at offsets 0, stride, 2*stride, ... below numBytes. */
module Endian {
  import opened Bytes

  /** The routine Specializer<T> selects: the no-op for byte/sbyte, or the
      16-, 32- or 64-bit swap. */
  datatype Swapper = Default | U16 | U32 | U64

  function Width(w: Swapper): nat
  {
    match w
    case Default => 0
    case U16 => 2
    case U32 => 4
    case U64 => 8
  }

  // BitConverter in bit-vector form

  function ToUInt16(b: seq<byte>, off: nat): bv16
    requires off + 2 <= |b|
  {
    (b[off] as bv16) | ((b[off + 1] as bv16) << 8)
  }

  function ToUInt32(b: seq<byte>, off: nat): bv32
    requires off + 4 <= |b|
  {
    (b[off] as bv32) | ((b[off + 1] as bv32) << 8) | ((b[off + 2] as bv32) << 16) | ((b[off + 3] as bv32) << 24)
  }

  function ToUInt64(b: seq<byte>, off: nat): bv64
    requires off + 8 <= |b|
  {
    (b[off] as bv64) | ((b[off + 1] as bv64) << 8) | ((b[off + 2] as bv64) << 16) | ((b[off + 3] as bv64) << 24)
    | ((b[off + 4] as bv64) << 32) | ((b[off + 5] as bv64) << 40) | ((b[off + 6] as bv64) << 48) | ((b[off + 7] as bv64) << 56)
  }

  function GetBytes16(v: bv16): seq<byte>
  {
    [(v & 0xFF) as byte, (v >> 8) as byte]
  }

  function GetBytes32(v: bv32): seq<byte>
  {
    [(v & 0xFF) as byte, ((v >> 8) & 0xFF) as byte, ((v >> 16) & 0xFF) as byte, (v >> 24) as byte]
  }

  function GetBytes64(v: bv64): seq<byte>
  {
    [(v & 0xFF) as byte, ((v >> 8) & 0xFF) as byte, ((v >> 16) & 0xFF) as byte, ((v >> 24) & 0xFF) as byte,
     ((v >> 32) & 0xFF) as byte, ((v >> 40) & 0xFF) as byte, ((v >> 48) & 0xFF) as byte, (v >> 56) as byte]
  }

  // The per-width swaps, as the shift-and-mask formulas of the C# code

  function Swap16(v: bv16): bv16
  {
    var vv := v as bv32;
    (((vv << 8) | (vv >> 8)) & 0xFFFF) as bv16
  }

  function Swap32(v: bv32): bv32
  {
    (v << 24) | ((v << 8) & 0x00ff0000) | ((v >> 8) & 0x0000ff00) | (v >> 24)
  }

  function Swap64(v: bv64): bv64
  {
    ((v & 0x00000000000000ff) << 56) |
    ((v & 0x000000000000ff00) << 40) |
    ((v & 0x0000000000ff0000) << 24) |
    ((v & 0x00000000ff000000) << 8) |
    ((v & 0x000000ff00000000) >> 8) |
    ((v & 0x0000ff0000000000) >> 24) |
    ((v & 0x00ff000000000000) >> 40) |
    ((v & 0xff00000000000000) >> 56)
  }

  function Reverse(s: seq<byte>): seq<byte>
  {
    seq(|s|, i requires 0 <= i < |s| => s[|s| - 1 - i])
  }

  /** The bytes the swap routine writes back at `off`: the swapped value's
      little-endian bytes. */
  function SwappedBytes(b: seq<byte>, off: nat, w: Swapper): (r: seq<byte>)
    requires off + Width(w) <= |b|
    ensures |r| == Width(w)
  {
    match w
    case Default => []
    case U16 => GetBytes16(Swap16(ToUInt16(b, off)))
    case U32 => GetBytes32(Swap32(ToUInt32(b, off)))
    case U64 => GetBytes64(Swap64(ToUInt64(b, off)))
  }

  /** The shift-and-mask formulas reverse the bytes of the value they swap. */
  lemma SwappedBytesReverse(b: seq<byte>, off: nat, w: Swapper)
    requires off + Width(w) <= |b|
    ensures SwappedBytes(b, off, w) == Reverse(b[off..off + Width(w)])
  {
    match w
    case Default =>
    case U16 => Swap16Reverses(b, off);
    case U32 => Swap32Reverses(b, off);
    case U64 => Swap64Reverses(b, off);
  }

  lemma Swap16Reverses(b: seq<byte>, off: nat)
    requires off + 2 <= |b|
    ensures GetBytes16(Swap16(ToUInt16(b, off))) == Reverse(b[off..off + 2])
  {
    var c := b[off..off + 2];
    assert Reverse(c) == [c[1], c[0]];
  }

  lemma Swap32Reverses(b: seq<byte>, off: nat)
    requires off + 4 <= |b|
    ensures GetBytes32(Swap32(ToUInt32(b, off))) == Reverse(b[off..off + 4])
  {
    var c := b[off..off + 4];
    assert Reverse(c) == [c[3], c[2], c[1], c[0]];
  }

  lemma Swap64Reverses(b: seq<byte>, off: nat)
    requires off + 8 <= |b|
    ensures GetBytes64(Swap64(ToUInt64(b, off))) == Reverse(b[off..off + 8])
  {
    var c := b[off..off + 8];
    assert Reverse(c) == [c[7], c[6], c[5], c[4], c[3], c[2], c[1], c[0]];
  }

  /** One call of the routine at `off` (Array.Copy of the swapped bytes). */
  function SwapAt(b: seq<byte>, off: nat, w: Swapper): (r: seq<byte>)
    requires off + Width(w) <= |b|
    ensures |r| == |b|
  {
    b[..off] + SwappedBytes(b, off, w) + b[off + Width(w)..]
  }

  /** The rest of EndianSwapBuffer's loop from `count` on: the buffer and whether the
      loop finished (false when BitConverter found fewer than Width(w) bytes at an
      offset and threw, leaving the earlier chunks swapped). */
  function SwapFrom(b: seq<byte>, count: nat, numBytes: nat, stride: nat, w: Swapper): (r: (seq<byte>, bool))
    requires stride > 0
    ensures |r.0| == |b|
    decreases numBytes - count
  {
    if count >= numBytes then (b, true)
    else if count + Width(w) > |b| then (b, false)
    else SwapFrom(SwapAt(b, count, w), count + stride, numBytes, stride, w)
  }

  method EndianSwapBuffer(data: array<byte>, numBytes: nat, stride: nat, w: Swapper) returns (ok: bool)
    requires stride > 0
    modifies data
    ensures (data[..], ok) == SwapFrom(old(data[..]), 0, numBytes, stride, w)
  {
    var offset := 0;
    var count := 0;
    while count < numBytes
      invariant offset == count
      invariant SwapFrom(data[..], count, numBytes, stride, w) == SwapFrom(old(data[..]), 0, numBytes, stride, w)
      decreases numBytes - count
    {
      if offset + Width(w) > data.Length {
        return false;
      }
      ghost var before := data[..];
      var bytes := SwappedBytes(data[..], offset, w);
      CopyInto(data, offset, bytes);
      assert data[..] == SwapAt(before, offset, w);
      offset := offset + stride;
      count := count + stride;
    }
    return true;
  }

  /** Array.Copy of `bytes` into `data` at `off`. */
  method CopyInto(data: array<byte>, off: nat, bytes: seq<byte>)
    requires off + |bytes| <= data.Length
    modifies data
    ensures data[..] == old(data[..])[..off] + bytes + old(data[..])[off + |bytes|..]
  {
    var k := 0;
    while k < |bytes|
      invariant 0 <= k <= |bytes|
      invariant data[..] == old(data[..])[..off] + bytes[..k] + old(data[..])[off + k..]
    {
      data[off + k] := bytes[k];
      k := k + 1;
    }
  }

  // The reference definition: reverse every width-sized chunk

  /** A multiple of `w` reached by steps of `w`. */
  predicate Multiple(n: nat, w: nat)
    decreases n
  {
    n == 0 || (w > 0 && n >= w && Multiple(n - w, w))
  }

  /** Reverse each `w`-byte chunk of the first `n` bytes; the rest is kept. */
  function ReverseChunks(s: seq<byte>, w: nat, n: nat): (r: seq<byte>)
    requires w > 0 && Multiple(n, w) && n <= |s|
    ensures |r| == |s|
    decreases n
  {
    if n == 0 then s else Reverse(s[..w]) + ReverseChunks(s[w..], w, n - w)
  }

  /** The loop of EndianSwapBuffer with the chunk reversal in place of the
      shift-and-mask routine. */
  function ReverseFrom(b: seq<byte>, count: nat, numBytes: nat, stride: nat, n: nat): (r: (seq<byte>, bool))
    requires stride > 0
    ensures |r.0| == |b|
    decreases numBytes - count
  {
    if count >= numBytes then (b, true)
    else if count + n > |b| then (b, false)
    else ReverseFrom(b[..count] + Reverse(b[count..count + n]) + b[count + n..], count + stride, numBytes, stride, n)
  }

  /** For every stride, the swap routines act as chunk reversals. */
  lemma {:induction false} SwapFromIsReverseFrom(b: seq<byte>, count: nat, numBytes: nat, stride: nat, w: Swapper)
    requires stride > 0
    ensures SwapFrom(b, count, numBytes, stride, w) == ReverseFrom(b, count, numBytes, stride, Width(w))
    decreases numBytes - count
  {
    if count < numBytes && count + Width(w) <= |b| {
      SwapAtReverses(b, count, w);
      SwapFromIsReverseFrom(SwapAt(b, count, w), count + stride, numBytes, stride, w);
      SwapFromSteps(b, count, numBytes, stride, w);
    }
  }

  /** Swapping at `off` reverses the chunk there and keeps the rest. */
  lemma SwapAtReverses(b: seq<byte>, off: nat, w: Swapper)
    requires off + Width(w) <= |b|
    ensures SwapAt(b, off, w) == b[..off] + Reverse(b[off..off + Width(w)]) + b[off + Width(w)..]
  {
    SwappedBytesReverse(b, off, w);
  }

  /** One step of each loop, when a whole chunk fits at `count`. */
  lemma SwapFromSteps(b: seq<byte>, count: nat, numBytes: nat, stride: nat, w: Swapper)
    requires stride > 0 && count < numBytes && count + Width(w) <= |b|
    ensures SwapFrom(b, count, numBytes, stride, w) == SwapFrom(SwapAt(b, count, w), count + stride, numBytes, stride, w)
    ensures ReverseFrom(b, count, numBytes, stride, Width(w))
         == ReverseFrom(b[..count] + Reverse(b[count..count + Width(w)]) + b[count + Width(w)..], count + stride, numBytes, stride, Width(w))
  {
  }

  /** The reversal loop, started at a chunk boundary `c` with a multiple of the
      stride still to go, reverses each remaining chunk and nothing else. */
  lemma {:induction false} ReverseFromChunks(s: seq<byte>, c: nat, numBytes: nat, n: nat)
    requires n > 0 && c <= numBytes <= |s| && Multiple(numBytes - c, n)
    ensures ReverseFrom(s, c, numBytes, n, n) == (s[..c] + ReverseChunks(s[c..], n, numBytes - c), true)
    decreases numBytes - c
  {
    if c == numBytes {
      assert s[..c] + s[c..] == s;
    } else {
      var head := Reverse(s[c..c + n]);
      var s' := s[..c] + head + s[c + n..];
      ChunkStep(s, c, numBytes, n);
      ReverseFromChunks(s', c + n, numBytes, n);
      var tail := ReverseChunks(s'[c + n..], n, numBytes - (c + n));
      JoinChunks(s[..c], head, tail, s'[..c + n]);
      ReverseFromStep(s, c, numBytes, n);
    }
  }

  lemma ReverseFromStep(s: seq<byte>, c: nat, numBytes: nat, n: nat)
    requires n > 0 && c < numBytes && c + n <= |s|
    ensures ReverseFrom(s, c, numBytes, n, n) == ReverseFrom(s[..c] + Reverse(s[c..c + n]) + s[c + n..], c + n, numBytes, n, n)
  {
  }

  lemma JoinChunks(a: seq<byte>, h: seq<byte>, t: seq<byte>, x: seq<byte>)
    requires x == a + h
    ensures x + t == a + (h + t)
  {
  }

  /** One turn of the reversal loop, on the text before and after the chunk. */
  lemma ChunkStep(s: seq<byte>, c: nat, numBytes: nat, n: nat)
    requires n > 0 && c < numBytes <= |s| && Multiple(numBytes - c, n)
    ensures c + n <= numBytes && Multiple(numBytes - (c + n), n)
    ensures var s' := s[..c] + Reverse(s[c..c + n]) + s[c + n..];
      s'[..c + n] == s[..c] + Reverse(s[c..c + n])
      && ReverseChunks(s[c..], n, numBytes - c) == Reverse(s[c..c + n]) + ReverseChunks(s'[c + n..], n, numBytes - (c + n))
  {
    assert s[c..][..n] == s[c..c + n];
    var head := Reverse(s[c..c + n]);
    var s' := s[..c] + head + s[c + n..];
    assert s'[..c + n] == s[..c] + head;
    assert s'[c + n..] == s[c..][n..];
  }

  /** With the type's width as stride over the whole buffer, EndianSwapBuffer runs to
      the end exactly when the bytes left from `count` on are a whole number of values. */
  lemma {:induction false} SwapFromCompletes(b: seq<byte>, count: nat, w: Swapper)
    requires Width(w) > 0 && count <= |b|
    ensures SwapFrom(b, count, |b|, Width(w), w).1 <==> Multiple(|b| - count, Width(w))
    decreases |b| - count
  {
    if count < |b| && count + Width(w) <= |b| {
      SwapFromCompletes(SwapAt(b, count, w), count + Width(w), w);
    }
  }

  /** With the source's stride (the type's width) and a buffer whose length is a
      multiple of it, EndianSwapBuffer completes and reverses every chunk. */
  lemma SwapBufferReversesChunks(s: seq<byte>, w: Swapper)
    requires w != Default && Multiple(|s|, Width(w))
    ensures SwapFrom(s, 0, |s|, Width(w), w) == (ReverseChunks(s, Width(w), |s|), true)
  {
    SwapFromIsReverseFrom(s, 0, |s|, Width(w), w);
    ReverseFromWhole(s, Width(w));
  }

  lemma ReverseFromWhole(s: seq<byte>, n: nat)
    requires n > 0 && Multiple(|s|, n)
    ensures ReverseFrom(s, 0, |s|, n, n) == (ReverseChunks(s, n, |s|), true)
  {
    ReverseFromChunks(s, 0, |s|, n);
    assert s[..0] + ReverseChunks(s[0..], n, |s| - 0) == ReverseChunks(s, n, |s|) by {
      assert s[..0] == [] && s[0..] == s;
    }
  }

  lemma ReverseReverse(s: seq<byte>)
    ensures Reverse(Reverse(s)) == s
  {
  }

  /** Swapping twice restores the buffer. */
  lemma {:induction false} ReverseChunksTwice(s: seq<byte>, w: nat, n: nat)
    requires w > 0 && Multiple(n, w) && n <= |s|
    ensures ReverseChunks(ReverseChunks(s, w, n), w, n) == s
    decreases n
  {
    if n > 0 {
      var r := ReverseChunks(s, w, n);
      assert r[..w] == Reverse(s[..w]);
      assert r[w..] == ReverseChunks(s[w..], w, n - w);
      ReverseReverse(s[..w]);
      ReverseChunksTwice(s[w..], w, n - w);
    }
  }

  /** Bytes past the swapped chunks are left as they were. */
  lemma {:induction false} ReverseChunksKeepsTail(s: seq<byte>, w: nat, n: nat, i: nat)
    requires w > 0 && Multiple(n, w) && n <= i < |s|
    ensures ReverseChunks(s, w, n)[i] == s[i]
    decreases n
  {
    if n > 0 {
      var head := Reverse(s[..w]);
      ReverseChunksKeepsTail(s[w..], w, n - w, i - w);
      assert |head| == w && s[w..][i - w] == s[i];
      assert ReverseChunks(s, w, n) == head + ReverseChunks(s[w..], w, n - w);
    }
  }

  /** The byte at position j of the chunk starting at `start` comes from position
      start + w - 1 - j. */
  lemma {:induction false} ReverseChunksAt(s: seq<byte>, w: nat, n: nat, start: nat, j: nat)
    requires w > 0 && Multiple(n, w) && n <= |s|
    requires Multiple(start, w) && start + w <= n && j < w
    ensures ReverseChunks(s, w, n)[start + j] == s[start + w - 1 - j]
    decreases n
  {
    if start > 0 {
      ReverseChunksAt(s[w..], w, n - w, start - w, j);
    }
  }
}
