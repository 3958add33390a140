/** PlyFileImpl.Read: decide between one and two passes from the list-size hints,
    allocate the buffers that are still missing, run the copying pass and, for a
    big-endian stream, flip every distinct buffer in place. */
module PlyRead {
  import opened Wrappers
  import opened Bytes
  import opened PlyTypes
  import opened Endian
  import opened Floats
  import opened Schema
  import opened DataPass

  // ------------------------------------------------------------ list-size hints

  /** The ListSizeHints of the bindings from binding `i` on. */
  function HintSum(m: Impl, i: nat): int
    requires WellFormed(m) && i <= |m.userData|
    decreases |m.userData| - i
  {
    if i == |m.userData| then 0
    else m.helpers[m.userData[i].helper].listSizeHint + HintSum(m, i + 1)
  }

  /** listHints: the inner loop over the bindings runs once per buffer, and there
      is one buffer per binding. */
  function ListHints(m: Impl): int
    requires WellFormed(m)
  {
    |m.userData| * HintSum(m, 0)
  }

  /** The hints from binding `i` on, when none is negative, sum to zero exactly when
      each of them is zero. */
  lemma {:induction false} HintSumZero(m: Impl, i: nat)
    requires WellFormed(m) && i <= |m.userData|
    requires forall j :: i <= j < |m.userData| ==> m.helpers[m.userData[j].helper].listSizeHint >= 0
    ensures HintSum(m, i) >= 0
    ensures HintSum(m, i) == 0 <==>
              forall j :: i <= j < |m.userData| ==> m.helpers[m.userData[j].helper].listSizeHint == 0
    decreases |m.userData| - i
  {
    if i < |m.userData| {
      HintSumZero(m, i + 1);
    }
  }

  /** Read takes the two-pass route exactly when there is no binding or every
      binding's hint is zero (for hints that are not negative). */
  lemma TwoPassesWhen(m: Impl)
    requires WellFormed(m)
    requires forall j :: 0 <= j < |m.userData| ==> m.helpers[m.userData[j].helper].listSizeHint >= 0
    ensures ListHints(m) == 0 <==>
              |m.userData| == 0 || forall j :: 0 <= j < |m.userData| ==> m.helpers[m.userData[j].helper].listSizeHint == 0
  {
    HintSumZero(m, 0);
  }

  // ------------------------------------------------------------ allocation

  /** The byte size Read gives helper `h`'s buffer: the measured TotalSizeBytes
      after a first pass, otherwise Count * Stride(T) * (hint for a list, else 1)
      times the number of bindings sharing the helper. */
  function AllocationSize(m: Impl, h: nat, listHints: int): int
    requires h < |m.helpers|
  {
    var x := m.helpers[h];
    if listHints == 0 then x.cursor.totalSizeBytes
    else x.data.count * Stride(x.data.t) * (if x.data.isList then x.listSizeHint else 1) * KeysOf(m.userData, h)
  }

  /** new Buffer(n): n zero bytes. */
  function Zeros(n: nat): (r: seq<byte>)
    ensures |r| == n && forall i :: 0 <= i < n ==> r[i] == 0
  {
    seq(n, i => 0)
  }

  /** `x` with a fresh zeroed buffer of `n` bytes (PlyData.Buffer = new Buffer(n)). */
  function WithBuffer(x: Helper, n: nat): (r: Helper)
    ensures r.data.buffer == Some(Zeros(n)) && r.cursor == x.cursor && r.listSizeHint == x.listSizeHint
    ensures r.data.t == x.data.t && r.data.count == x.data.count && r.data.isList == x.data.isList
  {
    x.(data := x.data.(buffer := Some(Zeros(n))))
  }

  /** A helper Read allocates: bound, and still without a buffer. */
  predicate NeedsBuffer(m: Impl, h: nat)
    requires h < |m.helpers|
  {
    Referenced(m.userData, h) && m.helpers[h].data.buffer.None?
  }

  /** Every helper Read allocates has a size that is not negative. */
  predicate SizesOk(m: Impl, listHints: int)
  {
    forall h :: 0 <= h < |m.helpers| && NeedsBuffer(m, h) ==> AllocationSize(m, h, listHints) >= 0
  }

  /** What allocation makes of helper `h`: a helper that needs a buffer gets a zeroed
      one of its allocation size; every other helper is left alone. */
  function Allocated(m: Impl, h: nat, listHints: int): Helper
    requires h < |m.helpers| && (NeedsBuffer(m, h) ==> AllocationSize(m, h, listHints) >= 0)
  {
    if NeedsBuffer(m, h) then WithBuffer(m.helpers[h], AllocationSize(m, h, listHints)) else m.helpers[h]
  }

  /** The allocation loop from binding `i` on: the first binding of a helper whose
      buffer is still missing allocates it; a negative size throws. */
  function AllocateFrom(m: Impl, helpers: seq<Helper>, listHints: int, i: nat): (r: Result<seq<Helper>>)
    requires WellFormed(m) && |helpers| == |m.helpers| && i <= |m.userData|
    ensures r.Ok? ==> |r.value| == |helpers|
    decreases |m.userData| - i
  {
    if i == |m.userData| then Ok(helpers)
    else
      var h := m.userData[i].helper;
      if helpers[h].data.buffer.Some? then AllocateFrom(m, helpers, listHints, i + 1)
      else
        var size := AllocationSize(m, h, listHints);
        if size < 0 then Err(NegativeLength)
        else
          AllocateFrom(m, helpers[h := WithBuffer(helpers[h], size)], listHints, i + 1)
  }

  function Allocate(m: Impl, listHints: int): (r: Result<seq<Helper>>)
    requires WellFormed(m)
    ensures r.Ok? ==> |r.value| == |m.helpers|
  {
    AllocateFrom(m, m.helpers, listHints, 0)
  }

  /** The allocation loop's state after the bindings before `i`: the helpers they
      bind that needed a buffer have one, every other helper is untouched. */
  predicate AllocatedUpTo(m: Impl, helpers: seq<Helper>, listHints: int, i: nat)
    requires i <= |m.userData| && |helpers| == |m.helpers|
  {
    forall h :: 0 <= h < |helpers| ==>
      if m.helpers[h].data.buffer.None? && exists j :: 0 <= j < i && m.userData[j].helper == h then
        AllocationSize(m, h, listHints) >= 0 && helpers[h] == WithBuffer(m.helpers[h], AllocationSize(m, h, listHints))
      else helpers[h] == m.helpers[h]
  }

  /** A binding whose helper already has a buffer leaves the loop's state as it is. */
  lemma AllocateKeeps(m: Impl, helpers: seq<Helper>, listHints: int, i: nat)
    requires WellFormed(m) && |helpers| == |m.helpers| && i < |m.userData|
    requires AllocatedUpTo(m, helpers, listHints, i) && helpers[m.userData[i].helper].data.buffer.Some?
    ensures AllocatedUpTo(m, helpers, listHints, i + 1)
  {
  }

  /** The first binding of a helper without a buffer allocates it. */
  lemma AllocateOne(m: Impl, helpers: seq<Helper>, listHints: int, i: nat)
    requires WellFormed(m) && |helpers| == |m.helpers| && i < |m.userData|
    requires AllocatedUpTo(m, helpers, listHints, i) && helpers[m.userData[i].helper].data.buffer.None?
    requires AllocationSize(m, m.userData[i].helper, listHints) >= 0
    ensures AllocatedUpTo(m, helpers[m.userData[i].helper := WithBuffer(helpers[m.userData[i].helper],
                                     AllocationSize(m, m.userData[i].helper, listHints))], listHints, i + 1)
  {
  }

  /** The allocation loop from binding `i` on succeeds exactly when no later binding
      of a helper without a buffer has a negative size, and then every helper that
      needed a buffer has one. */
  lemma {:induction false} AllocateFromSpec(m: Impl, helpers: seq<Helper>, listHints: int, i: nat)
    requires WellFormed(m) && |helpers| == |m.helpers| && i <= |m.userData|
    requires AllocatedUpTo(m, helpers, listHints, i)
    ensures AllocateFrom(m, helpers, listHints, i).Ok? <==>
              forall j :: i <= j < |m.userData| && m.helpers[m.userData[j].helper].data.buffer.None? ==>
                AllocationSize(m, m.userData[j].helper, listHints) >= 0
    ensures AllocateFrom(m, helpers, listHints, i).Ok? ==>
              AllocatedUpTo(m, AllocateFrom(m, helpers, listHints, i).value, listHints, |m.userData|)
    decreases |m.userData| - i
  {
    if i < |m.userData| {
      var h := m.userData[i].helper;
      if helpers[h].data.buffer.Some? {
        AllocateKeeps(m, helpers, listHints, i);
        AllocateFromSpec(m, helpers, listHints, i + 1);
      } else if AllocationSize(m, h, listHints) >= 0 {
        AllocateOne(m, helpers, listHints, i);
        AllocateFromSpec(m, helpers[h := WithBuffer(helpers[h], AllocationSize(m, h, listHints))], listHints, i + 1);
      }
    }
  }

  /** Allocation succeeds exactly when every helper that needs a buffer has a size
      that is not negative, and it then makes each helper what Allocated says. */
  lemma AllocateSpec(m: Impl, listHints: int)
    requires WellFormed(m)
    ensures Allocate(m, listHints).Ok? <==> SizesOk(m, listHints)
    ensures Allocate(m, listHints).Ok? ==>
              forall h :: 0 <= h < |m.helpers| ==> Allocate(m, listHints).value[h] == Allocated(m, h, listHints)
  {
    AllocateFromSpec(m, m.helpers, listHints, 0);
    if SizesOk(m, listHints) {
      forall j | 0 <= j < |m.userData| && m.helpers[m.userData[j].helper].data.buffer.None?
        ensures AllocationSize(m, m.userData[j].helper, listHints) >= 0
      {
        assert NeedsBuffer(m, m.userData[j].helper);
      }
    }
  }

  // ------------------------------------------------------------ big-endian swap

  /** The EndianSwapBuffer instantiation Read's switch picks for a buffer type. */
  function SwapperOf(t: PlyType): (w: Swapper)
    ensures w != Default ==> Width(w) == Stride(t) && Width(w) > 0
    ensures w == Default <==> Stride(t) <= 1
  {
    match t
    case INT16 => U16
    case UINT16 => U16
    case INT32 => U32
    case UINT32 => U32
    case FLOAT32 => U32
    case FLOAT64 => U64
    case _ => Default
  }

  /** Read's swap of one buffer: the buffer must exist (it is fetched for every type);
      one- and zero-width types are left alone; otherwise every value of the buffer
      is swapped, and a length that is not a whole number of values throws. */
  function SwapBuffer(x: Helper): Result<Helper>
  {
    match x.data.buffer
    case None => Err(NullBuffer)
    case Some(b) =>
      var w := SwapperOf(x.data.t);
      if w == Default then Ok(x)
      else
        var (b', ok) := SwapFrom(b, 0, |b|, Stride(x.data.t), w);
        if ok then Ok(x.(data := x.data.(buffer := Some(b')))) else Err(OutOfRange)
  }

  /** A buffer swaps exactly when it exists and, for a type wider than a byte, holds a
      whole number of values; then each value's bytes are reversed and nothing else
      of the helper changes. */
  lemma SwapBufferSpec(x: Helper)
    ensures SwapBuffer(x).Ok? <==>
              x.data.buffer.Some?
              && (SwapperOf(x.data.t) != Default ==> Multiple(|x.data.buffer.value|, Stride(x.data.t)))
    ensures SwapBuffer(x).Ok? ==>
              var b := x.data.buffer.value;
              SwapBuffer(x).value
                == x.(data := x.data.(buffer := Some(if SwapperOf(x.data.t) == Default then b
                                                   else ReverseChunks(b, Stride(x.data.t), |b|))))
  {
    if x.data.buffer.Some? && SwapperOf(x.data.t) != Default {
      var b, w := x.data.buffer.value, SwapperOf(x.data.t);
      SwapFromCompletes(b, 0, w);
      if Multiple(|b|, Width(w)) {
        SwapBufferReversesChunks(b, w);
      }
    }
  }

  /** Swapping a buffer twice gives back the helper it started from. */
  lemma SwapBufferTwice(x: Helper)
    requires SwapBuffer(x).Ok?
    ensures SwapBuffer(SwapBuffer(x).value) == Ok(x)
  {
    SwapBufferSpec(x);
    var y := SwapBuffer(x).value;
    SwapBufferSpec(y);
    var b, t := x.data.buffer.value, x.data.t;
    if SwapperOf(t) != Default {
      ReverseChunksTwice(b, Stride(t), |b|);
    }
  }

  /** The binding at `i` is the first one of its helper (Distinct keeps first ones). */
  predicate FirstUse(userData: seq<Entry>, i: nat)
    requires i < |userData|
  {
    forall j :: 0 <= j < i ==> userData[j].helper != userData[i].helper
  }

  /** The swap loop over the distinct buffers, taken in binding order, from binding `i` on. */
  function SwapAllFrom(m: Impl, helpers: seq<Helper>, i: nat): (r: Result<seq<Helper>>)
    requires WellFormed(m) && |helpers| == |m.helpers| && i <= |m.userData|
    ensures r.Ok? ==> |r.value| == |helpers|
    decreases |m.userData| - i
  {
    if i == |m.userData| then Ok(helpers)
    else if FirstUse(m.userData, i) then
      var h := m.userData[i].helper;
      var x :- SwapBuffer(helpers[h]);
      SwapAllFrom(m, helpers[h := x], i + 1)
    else SwapAllFrom(m, helpers, i + 1)
  }

  function SwapAll(m: Impl): (r: Result<seq<Helper>>)
    requires WellFormed(m)
    ensures r.Ok? ==> |r.value| == |m.helpers|
  {
    SwapAllFrom(m, m.helpers, 0)
  }

  /** The swap loop's state after the bindings before `i`: the helpers they bind are
      swapped, the others untouched. */
  predicate SwappedUpTo(m: Impl, helpers: seq<Helper>, i: nat)
    requires i <= |m.userData| && |helpers| == |m.helpers|
  {
    forall h :: 0 <= h < |helpers| ==>
      if exists j :: 0 <= j < i && m.userData[j].helper == h then
        SwapBuffer(m.helpers[h]).Ok? && helpers[h] == SwapBuffer(m.helpers[h]).value
      else helpers[h] == m.helpers[h]
  }

  lemma SwapSkips(m: Impl, helpers: seq<Helper>, i: nat)
    requires WellFormed(m) && |helpers| == |m.helpers| && i < |m.userData|
    requires SwappedUpTo(m, helpers, i) && !FirstUse(m.userData, i)
    ensures SwappedUpTo(m, helpers, i + 1)
  {
  }

  lemma SwapOne(m: Impl, helpers: seq<Helper>, i: nat)
    requires WellFormed(m) && |helpers| == |m.helpers| && i < |m.userData|
    requires SwappedUpTo(m, helpers, i) && FirstUse(m.userData, i)
    ensures helpers[m.userData[i].helper] == m.helpers[m.userData[i].helper]
    ensures SwapBuffer(helpers[m.userData[i].helper]).Ok? ==>
              SwappedUpTo(m, helpers[m.userData[i].helper := SwapBuffer(helpers[m.userData[i].helper]).value], i + 1)
  {
  }

  /** The swap loop from binding `i` on succeeds exactly when every later binding's
      helper swaps, and then every bound helper is swapped once. */
  lemma {:induction false} SwapAllFromSpec(m: Impl, helpers: seq<Helper>, i: nat)
    requires WellFormed(m) && |helpers| == |m.helpers| && i <= |m.userData|
    requires SwappedUpTo(m, helpers, i)
    ensures SwapAllFrom(m, helpers, i).Ok? <==>
              forall j :: i <= j < |m.userData| ==> SwapBuffer(m.helpers[m.userData[j].helper]).Ok?
    ensures SwapAllFrom(m, helpers, i).Ok? ==> SwappedUpTo(m, SwapAllFrom(m, helpers, i).value, |m.userData|)
    decreases |m.userData| - i
  {
    if i < |m.userData| {
      var h := m.userData[i].helper;
      SwapsFromSplit(m, i);
      if FirstUse(m.userData, i) {
        SwapOne(m, helpers, i);
        SwapAllFromFirst(m, helpers, i);
        if SwapBuffer(helpers[h]).Ok? {
          SwapAllFromSpec(m, helpers[h := SwapBuffer(helpers[h]).value], i + 1);
        }
      } else {
        SwapSkips(m, helpers, i);
        SwapAllFromSkip(m, helpers, i);
        SwapAllFromSpec(m, helpers, i + 1);
        var j :| 0 <= j < i && m.userData[j].helper == h;
        assert SwapBuffer(m.helpers[h]).Ok?;
      }
    }
  }

  /** The first binding of a helper swaps it, and the loop goes on or stops there. */
  lemma SwapAllFromFirst(m: Impl, helpers: seq<Helper>, i: nat)
    requires WellFormed(m) && |helpers| == |m.helpers| && i < |m.userData|
    requires FirstUse(m.userData, i)
    ensures var x := SwapBuffer(helpers[m.userData[i].helper]);
      if x.Ok? then SwapAllFrom(m, helpers, i) == SwapAllFrom(m, helpers[m.userData[i].helper := x.value], i + 1)
      else SwapAllFrom(m, helpers, i).Err?
  {
  }

  /** A later binding of a helper already swapped passes over it. */
  lemma SwapAllFromSkip(m: Impl, helpers: seq<Helper>, i: nat)
    requires WellFormed(m) && |helpers| == |m.helpers| && i < |m.userData|
    requires !FirstUse(m.userData, i)
    ensures SwapAllFrom(m, helpers, i) == SwapAllFrom(m, helpers, i + 1)
  {
  }

  /** Every binding from `i` on swaps when binding `i` does and every one after it. */
  lemma SwapsFromSplit(m: Impl, i: nat)
    requires WellFormed(m) && i < |m.userData|
    ensures (forall j :: i <= j < |m.userData| ==> SwapBuffer(m.helpers[m.userData[j].helper]).Ok?)
        <==> SwapBuffer(m.helpers[m.userData[i].helper]).Ok?
             && forall j :: i + 1 <= j < |m.userData| ==> SwapBuffer(m.helpers[m.userData[j].helper]).Ok?
  {
  }

  /** The swap of Read succeeds exactly when every bound helper's buffer swaps; it then
      swaps each bound helper once and leaves the others alone. */
  lemma SwapAllSpec(m: Impl)
    requires WellFormed(m)
    ensures SwapAll(m).Ok? <==>
              forall h :: 0 <= h < |m.helpers| && Referenced(m.userData, h) ==> SwapBuffer(m.helpers[h]).Ok?
    ensures SwapAll(m).Ok? ==>
              forall h :: 0 <= h < |m.helpers| ==>
                SwapAll(m).value[h] == if Referenced(m.userData, h) then SwapBuffer(m.helpers[h]).value else m.helpers[h]
  {
    SwapAllFromSpec(m, m.helpers, 0);
  }

  // ------------------------------------------------------------ Read

  /** The part of Read before the copying pass: a first pass when the hints sum to
      zero, then the allocation of the missing buffers. */
  function Prepare(m: Impl, data: seq<byte>, pos: nat, floats: FloatText): (r: Result<Impl>)
    requires WellFormed(m) && pos <= |data|
    ensures r.Ok? ==> r.value == m.(helpers := r.value.helpers, elements := r.value.elements)
    ensures r.Ok? ==> |r.value.helpers| == |m.helpers| && WellFormed(r.value)
  {
    var listHints := ListHints(m);
    var m1 :- if listHints == 0 then ParseData(m, data, pos, true, floats) else Ok(m);
    var helpers :- Allocate(m1, listHints);
    Ok(m1.(helpers := helpers))
  }

  /** PlyFileImpl.Read on the data section that starts at `pos`: Prepare, the copying
      pass and, for a big-endian stream, the swap. */
  function Read(m: Impl, data: seq<byte>, pos: nat, floats: FloatText): (r: Result<Impl>)
    requires WellFormed(m) && pos <= |data|
    ensures r.Ok? ==> r.value == m.(helpers := r.value.helpers, elements := r.value.elements)
    ensures r.Ok? ==> |r.value.helpers| == |m.helpers| && WellFormed(r.value)
  {
    var m1 :- Prepare(m, data, pos, floats);
    var m2 :- ParseData(m1, data, pos, false, floats);
    if m2.isBigEndian then
      var swapped :- SwapAll(m2);
      Ok(m2.(helpers := swapped))
    else Ok(m2)
  }
}
