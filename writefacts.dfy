/** What Write guarantees: each instance's payload is the bound prefix of its
    properties, only ByteOffsets change, and writing twice gives the same bytes. */
module WriteFacts {
  import opened Wrappers
  import opened Bytes
  import opened PlyTypes
  import opened Floats
  import opened Schema
  import opened DataPass
  import opened PlyWrite
  import opened Text

  // ------------------------------------------------------------ the bound prefix

  /** The first index from `j` on whose lookup is skipped (or the row's end). */
  function PrefixFrom(row: seq<Lookup>, j: nat): (k: nat)
    requires j <= |row|
    ensures j <= k <= |row|
    ensures forall l :: j <= l < k ==> row[l].helper.Some?
    ensures k < |row| ==> row[k].helper.None?
    decreases |row| - j
  {
    if j == |row| || row[j].helper.None? then j else PrefixFrom(row, j + 1)
  }

  /** How many leading properties of a row are bound. */
  function Prefix(row: seq<Lookup>): nat
  {
    PrefixFrom(row, 0)
  }

  /** The reference loop: properties `j` up to the bound prefix, each with its own
      lookup; nothing after the first unbound one. */
  function PrefixOut(c: WCtx, st: WSt, ei: nat, i: nat, j: nat): (r: Result<WSt>)
    requires WOk(c, st) && ei < |c.m.elements| && j <= Prefix(c.table[ei])
    decreases |c.m.elements[ei].properties| - j
  {
    if j == Prefix(c.table[ei]) then Ok(st)
    else
      var st' :- EmitAt(c, st, ei, i, j, j);
      PrefixOut(c, st', ei, i, j + 1)
  }

  /** The property loop from (`j`, `idx`) writes what the reference writes from
      `idx`: while all lookups were bound the two indices agree, and once one is
      skipped the loop writes nothing more. */
  lemma {:induction false} PropsOutFrom(c: WCtx, st: WSt, ei: nat, i: nat, j: nat, idx: nat)
    requires WOk(c, st) && ei < |c.m.elements| && idx <= j <= |c.m.elements[ei].properties|
    requires idx <= Prefix(c.table[ei]) && (idx == j || idx == Prefix(c.table[ei]))
    ensures PropsOut(c, st, ei, i, j, idx) == PrefixOut(c, st, ei, i, idx)
    decreases |c.m.elements[ei].properties| - j
  {
    if j < |c.m.elements[ei].properties| {
      if idx == Prefix(c.table[ei]) {
        PropsOutFrom(c, st, ei, i, j + 1, idx);
      } else {
        var r := EmitAt(c, st, ei, i, j, idx);
        if r.Ok? {
          PropsOutFrom(c, r.value, ei, i, j + 1, idx + 1);
        }
      }
    }
  }

  /** Each instance gets exactly the bound prefix of its element's properties. */
  lemma PropsOutIsPrefix(c: WCtx, st: WSt, ei: nat, i: nat)
    requires WOk(c, st) && ei < |c.m.elements|
    ensures PropsOut(c, st, ei, i, 0, 0) == PrefixOut(c, st, ei, i, 0)
  {
    PropsOutFrom(c, st, ei, i, 0, 0);
  }

  // ------------------------------------------------------------ what Write changes

  /** `b` differs from `a` at most in the ByteOffsets of bound helpers. */
  predicate OffsetsOnly(userData: seq<Entry>, a: seq<Helper>, b: seq<Helper>)
  {
    |a| == |b|
    && forall h :: 0 <= h < |a| ==>
         if Referenced(userData, h) then b[h] == a[h].(cursor := a[h].cursor.(byteOffset := b[h].cursor.byteOffset))
         else b[h] == a[h]
  }

  lemma OffsetsOnlyTrans(userData: seq<Entry>, a: seq<Helper>, b: seq<Helper>, d: seq<Helper>)
    requires OffsetsOnly(userData, a, b) && OffsetsOnly(userData, b, d)
    ensures OffsetsOnly(userData, a, d)
  {
  }

  lemma EmitAtFrame(c: WCtx, st: WSt, ei: nat, i: nat, j: nat, idx: nat)
    requires WOk(c, st) && ei < |c.m.elements| && j < |c.m.elements[ei].properties|
    requires idx < |c.m.elements[ei].properties| && c.table[ei][idx].helper.Some?
    requires EmitAt(c, st, ei, i, j, idx).Ok?
    ensures OffsetsOnly(c.m.userData, st.helpers, EmitAt(c, st, ei, i, j, idx).value.helpers)
  {
  }

  lemma {:induction false} PropsOutFrame(c: WCtx, st: WSt, ei: nat, i: nat, j: nat, idx: nat)
    requires WOk(c, st) && ei < |c.m.elements| && idx <= j <= |c.m.elements[ei].properties|
    requires PropsOut(c, st, ei, i, j, idx).Ok?
    ensures OffsetsOnly(c.m.userData, st.helpers, PropsOut(c, st, ei, i, j, idx).value.helpers)
    decreases |c.m.elements[ei].properties| - j
  {
    if j < |c.m.elements[ei].properties| {
      if c.table[ei][idx].helper.None? {
        PropsOutFrame(c, st, ei, i, j + 1, idx);
      } else {
        var st' := EmitAt(c, st, ei, i, j, idx).value;
        EmitAtFrame(c, st, ei, i, j, idx);
        PropsOutFrame(c, st', ei, i, j + 1, idx + 1);
        OffsetsOnlyTrans(c.m.userData, st.helpers, st'.helpers, PropsOut(c, st', ei, i, j + 1, idx + 1).value.helpers);
      }
    }
  }

  lemma {:induction false} InstancesOutFrame(c: WCtx, st: WSt, ei: nat, i: nat)
    requires WOk(c, st) && ei < |c.m.elements|
    requires InstancesOut(c, st, ei, i).Ok?
    ensures OffsetsOnly(c.m.userData, st.helpers, InstancesOut(c, st, ei, i).value.helpers)
    decreases Reps(c.m.elements[ei]) - i
  {
    if i < c.m.elements[ei].size {
      var st' := PropsOut(c, st, ei, i, 0, 0).value;
      PropsOutFrame(c, st, ei, i, 0, 0);
      var st'' := st'.(out := st'.out + c.endInstance);
      InstancesOutFrame(c, st'', ei, i + 1);
      OffsetsOnlyTrans(c.m.userData, st.helpers, st''.helpers, InstancesOut(c, st'', ei, i + 1).value.helpers);
    }
  }

  /** A payload changes nothing but the ByteOffsets of bound helpers. */
  lemma {:induction false} ElementsOutFrame(c: WCtx, st: WSt, ei: nat)
    requires WOk(c, st) && ei <= |c.m.elements|
    requires ElementsOut(c, st, ei).Ok?
    ensures OffsetsOnly(c.m.userData, st.helpers, ElementsOut(c, st, ei).value.helpers)
    decreases |c.m.elements| - ei
  {
    if ei < |c.m.elements| {
      var st' := InstancesOut(c, st, ei, 0).value;
      InstancesOutFrame(c, st, ei, 0);
      ElementsOutFrame(c, st', ei + 1);
      OffsetsOnlyTrans(c.m.userData, st.helpers, st'.helpers, ElementsOut(c, st', ei + 1).value.helpers);
    }
  }

  /** Write starts by resetting every bound ByteOffset, so a second Write of the
      document it leaves behind writes the same bytes and leaves the same document. */
  lemma WriteTwice(m: Impl, isBinary: bool, floats: FloatText)
    requires WellFormed(m) && Write(m, isBinary, floats).Ok?
    ensures Write(Write(m, isBinary, floats).value.0, isBinary, floats) == Write(m, isBinary, floats)
  {
    var m0 := WriteStart(m, isBinary);
    LookupTableFits(m0);
    var c := if isBinary then WCtx(m0, MakePropertyLookupTable(m0), BinaryEmitter(), [])
             else WCtx(m0, MakePropertyLookupTable(m0), AsciiEmitter(floats), Encode("\n"));
    ElementsOutFrame(c, WSt(m0.helpers, []), 0);
    var m1 := Write(m, isBinary, floats).value.0;
    assert WriteStart(m1, isBinary) == m0;
  }
}
