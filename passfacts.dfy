/** What the two passes of ParseData guarantee together. In a binary stream the
    second pass reads exactly what the first pass measured: the same bytes are
    consumed in both, the same list counts are decoded, and every value the second
    pass copies fits in a buffer of the measured size. */
module PassFacts {
  import opened Wrappers
  import opened Bytes
  import opened PlyTypes
  import opened Schema
  import opened DataPass

  /** Two pass contexts over the same stream, bindings and lookup table, whose
      element lists differ at most in their list counts. */
  predicate Twin(c1: Ctx, c2: Ctx)
  {
    SameLayout(c1.m.elements, c2.m.elements) && c1.m.userData == c2.m.userData && c1.table == c2.table
    && |c1.m.helpers| == |c2.m.helpers| && c1.data == c2.data
  }

  /** The lookup table depends on names, types and bindings only. */
  lemma TablesAgree(m1: Impl, m2: Impl)
    requires SameLayout(m1.elements, m2.elements) && m1.userData == m2.userData
    ensures MakePropertyLookupTable(m1) == MakePropertyLookupTable(m2)
  {
    var es1, es2 := m1.elements, m2.elements;
    forall i | 0 <= i < |es1|
      ensures LookupRow(m1.userData, es1[i]) == LookupRow(m2.userData, es2[i])
    {
      var r1, r2 := LookupRow(m1.userData, es1[i]), LookupRow(m2.userData, es2[i]);
      forall j | 0 <= j < |r1| ensures r1[j] == r2[j] {
        assert SameShape(es1[i].properties[j], es2[i].properties[j]);
      }
    }
  }

  /** A first-pass skipper never counts a negative number of bytes. */
  ghost predicate SkipsForward(n: nat, skip: Skipper)
    requires SkipperFits(n, skip)
  {
    forall p: Property, f: Lookup, pos: nat, ls: int :: pos <= n && skip(p, f, pos, ls).Ok? ==>
      skip(p, f, pos, ls).value.amount >= 0
  }

  /** What the second pass needs of the delegates of the two passes: they look at a
      property's shape only, the second pass skips as the first did, and given room
      for what the first-pass skipper counted, the second-pass reader succeeds,
      advances the offset by exactly that amount and ends where the skipper ended. */
  ghost predicate Coherent(n: nat, skip1: Skipper, skip2: Skipper, read2: Reader)
  {
    SkipperFits(n, skip1) && SkipperFits(n, skip2) && ReaderFits(n, read2) && SkipsForward(n, skip1)
    && (forall p: Property, q: Property, f: Lookup, pos: nat, ls: int :: SameShape(p, q) && pos <= n ==>
          skip2(q, f, pos, ls) == skip1(p, f, pos, ls))
    && forall p: Property, q: Property, f: Lookup, dest: seq<byte>, off: int, pos: nat, ls: int ::
         SameShape(p, q) && pos <= n && skip1(p, f, pos, ls).Ok?
         && 0 <= off && off + skip1(p, f, pos, ls).value.amount <= |dest| ==>
           read2(q, f, dest, off, pos, ls).Ok?
           && read2(q, f, dest, off, pos, ls).value.offset == off + skip1(p, f, pos, ls).value.amount
           && read2(q, f, dest, off, pos, ls).value.pos == skip1(p, f, pos, ls).value.pos
           && read2(q, f, dest, off, pos, ls).value.listSize == skip1(p, f, pos, ls).value.listSize
  }

  /** The binary reader after the binary skipper: given room for what the skipper
      measured, the reader succeeds, advances the offset by exactly that amount and
      leaves the stream where the skipper left it. */
  lemma ReadAfterSkip(data: seq<byte>, bigEndian: bool, p: Property, f: Lookup, pos: nat, listSize: int,
                      dest: seq<byte>, off: int)
    requires pos <= |data| && SkipBinary(data, bigEndian, p, f, pos, listSize).Ok?
    requires 0 <= off && off + SkipBinary(data, bigEndian, p, f, pos, listSize).value.amount <= |dest|
    ensures var moved := SkipBinary(data, bigEndian, p, f, pos, listSize).value;
            var r := ReadBinary(data, bigEndian, p, f, dest, off, pos, listSize);
            r.Ok? && r.value.offset == off + moved.amount && r.value.pos == moved.pos
            && r.value.listSize == moved.listSize
  {
    var moved := SkipBinary(data, bigEndian, p, f, pos, listSize).value;
    if p.isList {
      var count := ListCountAsWritten(data, bigEndian, p.listType, f.listStride, pos, listSize).value;
      var read := ReadBytes(data, count.1, Int32Wrap(f.propStride * count.0)).value;
      assert moved.amount == Int32Wrap(f.propStride * count.0) && moved.pos == read.1;
      assert CopyAt(dest, off, read.0).Ok?;
    }
  }

  /** The binary delegates of the two passes are coherent. */
  lemma BinaryCoherent(data: seq<byte>, bigEndian: bool)
    ensures Coherent(|data|, BinarySkipper(data, bigEndian), BinarySkipper(data, bigEndian),
                     BinaryReader(data, bigEndian))
  {
    var skip, read := BinarySkipper(data, bigEndian), BinaryReader(data, bigEndian);
    forall p: Property, q: Property, f: Lookup, dest: seq<byte>, off: int, pos: nat, ls: int |
      SameShape(p, q) && pos <= |data| && skip(p, f, pos, ls).Ok?
      && 0 <= off && off + skip(p, f, pos, ls).value.amount <= |dest|
      ensures read(q, f, dest, off, pos, ls).Ok?
      ensures read(q, f, dest, off, pos, ls).value.offset == off + skip(p, f, pos, ls).value.amount
      ensures read(q, f, dest, off, pos, ls).value.pos == skip(p, f, pos, ls).value.pos
      ensures read(q, f, dest, off, pos, ls).value.listSize == skip(p, f, pos, ls).value.listSize
    {
      ReadAfterSkip(data, bigEndian, p, f, pos, ls, dest, off);
      assert ReadBinary(data, bigEndian, p, f, dest, off, pos, ls) == ReadBinary(data, bigEndian, q, f, dest, off, pos, ls);
    }
  }

  /** Every TotalSizeBytes of `s` is at most the matching entry of `target`. */
  predicate Below(s: St, target: seq<int>)
  {
    forall h :: 0 <= h < |target| && h < |s.helpers| ==> s.helpers[h].cursor.totalSizeBytes <= target[h]
  }

  /** What a first pass does to the state: TotalSizeBytes never decreases, buffers
      and ByteOffsets stay, and the elements change in their list counts only. */
  predicate Grows(s: St, s': St)
  {
    |s.helpers| == |s'.helpers| && SameLayout(s'.elements, s.elements)
    && forall h :: 0 <= h < |s.helpers| ==>
         s'.helpers[h].data == s.helpers[h].data
         && s'.helpers[h].cursor.byteOffset == s.helpers[h].cursor.byteOffset
         && s.helpers[h].cursor.totalSizeBytes <= s'.helpers[h].cursor.totalSizeBytes
  }

  lemma GrowsTrans(a: St, b: St, d: St)
    requires Grows(a, b) && Grows(b, d)
    ensures Grows(a, d)
  {
    SameLayoutTrans(d.elements, b.elements, a.elements);
  }

  lemma BelowBefore(a: St, b: St, target: seq<int>)
    requires Grows(a, b) && Below(b, target)
    ensures Below(a, target)
  {
  }

  /** A first-pass step only adds non-negative amounts to the totals. */
  lemma StepGrows(c: Ctx, s: St, ei: nat, pi: nat)
    requires CtxOk(c) && StOk(c, s) && SkipsForward(|c.data|, c.skip) && c.firstPass
    requires ei < |c.m.elements| && pi < |c.m.elements[ei].properties|
    requires PropStep(c, s, ei, pi).Ok?
    ensures Grows(s, PropStep(c, s, ei, pi).value)
  {
  }

  /** ... and so do the properties of an instance, ... */
  lemma {:induction false} PropsGrow(c: Ctx, s: St, ei: nat, pi: nat)
    requires CtxOk(c) && StOk(c, s) && SkipsForward(|c.data|, c.skip) && c.firstPass
    requires ei < |c.m.elements| && pi <= |c.m.elements[ei].properties|
    requires PropsFrom(c, s, ei, pi).Ok?
    ensures Grows(s, PropsFrom(c, s, ei, pi).value)
    decreases |c.m.elements[ei].properties| - pi
  {
    if pi < |c.m.elements[ei].properties| {
      var s' := PropStep(c, s, ei, pi).value;
      StepGrows(c, s, ei, pi);
      PropsGrow(c, s', ei, pi + 1);
      GrowsTrans(s, s', PropsFrom(c, s', ei, pi + 1).value);
    }
  }

  /** ... the instances of an element, ... */
  lemma {:induction false} InstancesGrow(c: Ctx, s: St, ei: nat, k: nat)
    requires CtxOk(c) && StOk(c, s) && SkipsForward(|c.data|, c.skip) && c.firstPass && ei < |c.m.elements|
    requires InstancesFrom(c, s, ei, k).Ok?
    ensures Grows(s, InstancesFrom(c, s, ei, k).value)
    decreases Reps(c.m.elements[ei]) - k
  {
    if k < c.m.elements[ei].size {
      var s' := PropsFrom(c, s, ei, 0).value;
      PropsGrow(c, s, ei, 0);
      InstancesGrow(c, s', ei, k + 1);
      GrowsTrans(s, s', InstancesFrom(c, s', ei, k + 1).value);
    }
  }

  /** ... and the rest of a binary pass. */
  lemma {:induction false} ElementsGrow(c: Ctx, s: St, ei: nat)
    requires CtxOk(c) && StOk(c, s) && SkipsForward(|c.data|, c.skip) && c.firstPass && ei <= |c.m.elements|
    requires ElementsFrom(c, s, ei).Ok?
    ensures Grows(s, ElementsFrom(c, s, ei).value)
    decreases |c.m.elements| - ei
  {
    if ei < |c.m.elements| {
      var s' := InstancesFrom(c, s, ei, 0).value;
      assert ElementsFrom(c, s, ei) == ElementsFrom(c, s', ei + 1);
      InstancesGrow(c, s, ei, 0);
      ElementsGrow(c, s', ei + 1);
      GrowsTrans(s, s', ElementsFrom(c, s', ei + 1).value);
    }
  }

  /** What a second pass does not change: the elements (no list count is recorded),
      every TotalSizeBytes and the length of every buffer. */
  predicate Keeps(s: St, s': St)
  {
    s'.elements == s.elements && |s.helpers| == |s'.helpers|
    && forall h :: 0 <= h < |s.helpers| ==>
         s'.helpers[h].cursor.totalSizeBytes == s.helpers[h].cursor.totalSizeBytes
         && (s.helpers[h].data.buffer.Some? ==>
               s'.helpers[h].data.buffer.Some? && |s'.helpers[h].data.buffer.value| == |s.helpers[h].data.buffer.value|)
  }

  lemma KeepsTrans(a: St, b: St, d: St)
    requires Keeps(a, b) && Keeps(b, d)
    ensures Keeps(a, d)
  {
  }

  lemma StepKeeps(c: Ctx, s: St, ei: nat, pi: nat)
    requires CtxOk(c) && StOk(c, s) && !c.firstPass
    requires ei < |c.m.elements| && pi < |c.m.elements[ei].properties|
    requires PropStep(c, s, ei, pi).Ok?
    ensures Keeps(s, PropStep(c, s, ei, pi).value)
  {
  }

  lemma {:induction false} PropsKeep(c: Ctx, s: St, ei: nat, pi: nat)
    requires CtxOk(c) && StOk(c, s) && !c.firstPass
    requires ei < |c.m.elements| && pi <= |c.m.elements[ei].properties|
    requires PropsFrom(c, s, ei, pi).Ok?
    ensures Keeps(s, PropsFrom(c, s, ei, pi).value)
    decreases |c.m.elements[ei].properties| - pi
  {
    if pi < |c.m.elements[ei].properties| {
      var s' := PropStep(c, s, ei, pi).value;
      StepKeeps(c, s, ei, pi);
      PropsKeep(c, s', ei, pi + 1);
      KeepsTrans(s, s', PropsFrom(c, s', ei, pi + 1).value);
    }
  }

  lemma {:induction false} InstancesKeep(c: Ctx, s: St, ei: nat, k: nat)
    requires CtxOk(c) && StOk(c, s) && !c.firstPass && ei < |c.m.elements|
    requires InstancesFrom(c, s, ei, k).Ok?
    ensures Keeps(s, InstancesFrom(c, s, ei, k).value)
    decreases Reps(c.m.elements[ei]) - k
  {
    if k < c.m.elements[ei].size {
      var s' := PropsFrom(c, s, ei, 0).value;
      PropsKeep(c, s, ei, 0);
      InstancesKeep(c, s', ei, k + 1);
      KeepsTrans(s, s', InstancesFrom(c, s', ei, k + 1).value);
    }
  }

  /** A second pass records no list count and leaves the totals alone. */
  lemma {:induction false} ElementsKeep(c: Ctx, s: St, ei: nat)
    requires CtxOk(c) && StOk(c, s) && !c.firstPass && ei <= |c.m.elements|
    requires ElementsFrom(c, s, ei).Ok?
    ensures Keeps(s, ElementsFrom(c, s, ei).value)
    decreases |c.m.elements| - ei
  {
    if ei < |c.m.elements| {
      var s' := InstancesFrom(c, s, ei, 0).value;
      assert ElementsFrom(c, s, ei) == ElementsFrom(c, s', ei + 1);
      InstancesKeep(c, s, ei, 0);
      ElementsKeep(c, s', ei + 1);
      KeepsTrans(s, s', ElementsFrom(c, s', ei + 1).value);
    }
  }

  /** The simulation between a first-pass state `s1` and a second-pass state `s2`:
      same position and list size, and for every bound helper a buffer with room
      left exactly for what the first pass still adds on the way to `target`. */
  predicate Sim(c: Ctx, s1: St, s2: St, target: seq<int>)
  {
    |s1.helpers| == |target| && |s2.helpers| == |target| && s1.pos == s2.pos && s1.listSize == s2.listSize
    && forall h :: 0 <= h < |target| && Referenced(c.m.userData, h) ==>
         s2.helpers[h].data.buffer.Some? && 0 <= s2.helpers[h].cursor.byteOffset
         && s2.helpers[h].cursor.byteOffset + target[h] - s1.helpers[h].cursor.totalSizeBytes
            == |s2.helpers[h].data.buffer.value|
  }

  /** A first-pass and a second-pass context over the same stream, with coherent
      delegates. */
  ghost predicate Passes(c1: Ctx, c2: Ctx)
  {
    CtxOk(c1) && CtxOk(c2) && Twin(c1, c2) && c1.firstPass && !c2.firstPass
    && Coherent(|c1.data|, c1.skip, c2.skip, c2.read)
  }

  /** One property: the simulation is kept. */
  lemma StepSim(c1: Ctx, c2: Ctx, s1: St, s2: St, target: seq<int>, ei: nat, pi: nat)
    requires Passes(c1, c2) && StOk(c1, s1) && StOk(c2, s2)
    requires ei < |c1.m.elements| && pi < |c1.m.elements[ei].properties|
    requires PropStep(c1, s1, ei, pi).Ok?
    requires Sim(c1, s1, s2, target) && Below(PropStep(c1, s1, ei, pi).value, target)
    ensures PropStep(c2, s2, ei, pi).Ok?
    ensures Sim(c1, PropStep(c1, s1, ei, pi).value, PropStep(c2, s2, ei, pi).value, target)
  {
    var p1, p2 := c1.m.elements[ei].properties[pi], c2.m.elements[ei].properties[pi];
    assert SameShape(p1, p2);
    var f := c1.table[ei][pi];
    var s1' := PropStep(c1, s1, ei, pi).value;
    if f.helper.Some? {
      var h := f.helper.value;
      var moved := c1.skip(p1, f, s1.pos, s1.listSize).value;
      var dest := s2.helpers[h].data.buffer.value;
      var off := s2.helpers[h].cursor.byteOffset;
      assert s1'.helpers[h].cursor.totalSizeBytes == s1.helpers[h].cursor.totalSizeBytes + moved.amount;
      assert c2.read(p2, f, dest, off, s2.pos, s2.listSize).Ok?;
      var s2' := PropStep(c2, s2, ei, pi).value;
      assert s2'.helpers[h].cursor.byteOffset == off + moved.amount;
      forall g | 0 <= g < |target| && Referenced(c1.m.userData, g)
        ensures s2'.helpers[g].data.buffer.Some? && 0 <= s2'.helpers[g].cursor.byteOffset
        ensures s2'.helpers[g].cursor.byteOffset + target[g] - s1'.helpers[g].cursor.totalSizeBytes
                == |s2'.helpers[g].data.buffer.value|
      {
        if g != h {
          assert s2'.helpers[g] == s2.helpers[g] && s1'.helpers[g] == s1.helpers[g];
        }
      }
    }
  }

  /** The state after the first property of a first pass that ends below `target`
      is below `target` too. */
  lemma FirstStepBelow(c: Ctx, s: St, target: seq<int>, ei: nat, pi: nat)
    requires CtxOk(c) && StOk(c, s) && SkipsForward(|c.data|, c.skip) && c.firstPass
    requires ei < |c.m.elements| && pi < |c.m.elements[ei].properties|
    requires PropsFrom(c, s, ei, pi).Ok? && Below(PropsFrom(c, s, ei, pi).value, target)
    ensures PropStep(c, s, ei, pi).Ok?
    ensures PropsFrom(c, s, ei, pi) == PropsFrom(c, PropStep(c, s, ei, pi).value, ei, pi + 1)
    ensures Below(PropStep(c, s, ei, pi).value, target)
  {
    var s' := PropStep(c, s, ei, pi).value;
    PropsGrow(c, s', ei, pi + 1);
    BelowBefore(s', PropsFrom(c, s', ei, pi + 1).value, target);
  }

  /** The properties of an instance: if the first pass gets through them from `s1`
      to `f1` below `target`, the second pass gets through them from a simulating
      `s2` and the two end in the simulation. */
  lemma {:induction false} PropsSim(c1: Ctx, c2: Ctx, s1: St, s2: St, f1: St, target: seq<int>, ei: nat, pi: nat)
    returns (f2: St)
    requires Passes(c1, c2) && StOk(c1, s1) && StOk(c2, s2)
    requires ei < |c1.m.elements| && pi <= |c1.m.elements[ei].properties|
    requires PropsFrom(c1, s1, ei, pi) == Ok(f1) && Below(f1, target) && Sim(c1, s1, s2, target)
    ensures PropsFrom(c2, s2, ei, pi) == Ok(f2) && Sim(c1, f1, f2, target)
    decreases |c1.m.elements[ei].properties| - pi, 1
  {
    if pi < |c1.m.elements[ei].properties| {
      f2 := PropsSimStep(c1, c2, s1, s2, f1, target, ei, pi);
    } else {
      f2 := s2;
    }
  }

  /** PropsSim's step: the first property keeps the simulation, then the rest. */
  lemma {:induction false} PropsSimStep(c1: Ctx, c2: Ctx, s1: St, s2: St, f1: St, target: seq<int>, ei: nat, pi: nat)
    returns (f2: St)
    requires Passes(c1, c2) && StOk(c1, s1) && StOk(c2, s2)
    requires ei < |c1.m.elements| && pi < |c1.m.elements[ei].properties|
    requires PropsFrom(c1, s1, ei, pi) == Ok(f1) && Below(f1, target) && Sim(c1, s1, s2, target)
    ensures PropsFrom(c2, s2, ei, pi) == Ok(f2) && Sim(c1, f1, f2, target)
    decreases |c1.m.elements[ei].properties| - pi, 0
  {
    FirstStepBelow(c1, s1, target, ei, pi);
    StepSim(c1, c2, s1, s2, target, ei, pi);
    var s1', s2' := PropStep(c1, s1, ei, pi).value, PropStep(c2, s2, ei, pi).value;
    PropsFromStep(c2, s2, ei, pi);
    f2 := PropsSim(c1, c2, s1', s2', f1, target, ei, pi + 1);
  }

  /** PropsFrom after a first property that succeeds. */
  lemma PropsFromStep(c: Ctx, s: St, ei: nat, pi: nat)
    requires CtxOk(c) && StOk(c, s) && ei < |c.m.elements| && pi < |c.m.elements[ei].properties|
    requires PropStep(c, s, ei, pi).Ok?
    ensures PropsFrom(c, s, ei, pi) == PropsFrom(c, PropStep(c, s, ei, pi).value, ei, pi + 1)
  {
  }

  /** The same for the instances of an element, ... */
  lemma {:induction false} InstancesSim(c1: Ctx, c2: Ctx, s1: St, s2: St, target: seq<int>, ei: nat, k: nat)
    requires Passes(c1, c2) && StOk(c1, s1) && StOk(c2, s2) && ei < |c1.m.elements|
    requires InstancesFrom(c1, s1, ei, k).Ok?
    requires Sim(c1, s1, s2, target) && Below(InstancesFrom(c1, s1, ei, k).value, target)
    ensures InstancesFrom(c2, s2, ei, k).Ok?
    ensures Sim(c1, InstancesFrom(c1, s1, ei, k).value, InstancesFrom(c2, s2, ei, k).value, target)
    decreases Reps(c1.m.elements[ei]) - k
  {
    if k < c1.m.elements[ei].size {
      var s1' := PropsFrom(c1, s1, ei, 0).value;
      InstancesGrow(c1, s1', ei, k + 1);
      var f2 := PropsSim(c1, c2, s1, s2, s1', target, ei, 0);
      var s2' := PropsFrom(c2, s2, ei, 0).value;
      InstancesSim(c1, c2, s1', s2', target, ei, k + 1);
    }
  }

  /** ... and for the rest of the pass. */
  lemma {:induction false} ElementsSim(c1: Ctx, c2: Ctx, s1: St, s2: St, target: seq<int>, ei: nat)
    requires Passes(c1, c2) && StOk(c1, s1) && StOk(c2, s2) && ei <= |c1.m.elements|
    requires ElementsFrom(c1, s1, ei).Ok?
    requires Sim(c1, s1, s2, target) && Below(ElementsFrom(c1, s1, ei).value, target)
    ensures ElementsFrom(c2, s2, ei).Ok?
    ensures Sim(c1, ElementsFrom(c1, s1, ei).value, ElementsFrom(c2, s2, ei).value, target)
    decreases |c1.m.elements| - ei
  {
    if ei < |c1.m.elements| {
      var s1' := InstancesFrom(c1, s1, ei, 0).value;
      ElementsGrow(c1, s1', ei + 1);
      InstancesSim(c1, c2, s1, s2, target, ei, 0);
      var s2' := InstancesFrom(c2, s2, ei, 0).value;
      ElementsSim(c1, c2, s1', s2', target, ei + 1);
    }
  }
}
