/**
 Packing the parameters of all generated materials into one mapped buffer, each in its own
 aligned block.
 */
module ParameterUploads {
  import opened Wrappers
  import opened Splices
  import opened ParameterBlocks
  import opened DescriptorContents
  import P = MaterialPacking

  predicate BlockPacks(a: Option<Artifact>, m: MaterialRecord) {
    a.Some? ==> AllPack(a.value.parameters, m.parameters, a.value.parameterSize)
  }

  /** The bytes of a block packed on its own. */
  function BlockOf(a: Artifact, m: MaterialRecord): (bytes: seq<P.Byte>)
    requires AllPack(a.parameters, m.parameters, a.parameterSize)
    ensures |bytes| == a.parameterSize
  {
    assert a.parameters[..|a.parameters|] == a.parameters;
    BindingsWritten(Zeros(a.parameterSize), 0, a.parameterSize, a.parameters, m.parameters, |a.parameters|)
  }

  // ------------------------------------------------------------ A block does not depend on its place

  lemma WriteIsLocal(buf: seq<P.Byte>, base: nat, size: nat, at: nat, items: seq<P.Byte>)
    requires base + size <= |buf| && at + |items| <= size
    ensures WriteAt(buf, base + at, items)[base..base + size] == WriteAt(buf[base..base + size], at, items)
  {
  }

  lemma {:induction false} ValuesAreLocal(buf: seq<P.Byte>, base: nat, size: P.Word, b: P.Binding,
                                          values: seq<P.Value>, n: nat)
    requires base + size <= |buf| && P.PackedSize(b.valueType).Some? && P.PackerEnd(b) <= size
    requires n <= |values| == b.arraySize && AllEncodable(values, b.valueType)
    ensures ValuesWritten(buf, base, size, b, values, n)[base..base + size] ==
            ValuesWritten(buf[base..base + size], 0, size, b, values, n)
  {
    hide P.Encoded, StartOf, P.PackerEnd, WriteAt;
    if n > 0 {
      ValuesAreLocal(buf, base, size, b, values, n - 1);
      StartFits(b, n - 1, size);
      WriteIsLocal(ValuesWritten(buf, base, size, b, values, n - 1), base, size, StartOf(b, n - 1),
                   P.Encoded(values[n - 1], b.valueType).value);
    }
  }

  lemma {:induction false} BindingsAreLocal(buf: seq<P.Byte>, base: nat, size: P.Word, bindings: seq<P.Binding>,
                                            entries: seq<P.Entry>, k: nat)
    requires base + size <= |buf| && k <= |bindings| && AllPack(bindings[..k], entries, size)
    ensures BindingsWritten(buf, base, size, bindings, entries, k)[base..base + size] ==
            BindingsWritten(Zeros(size), 0, size, bindings, entries, k)
  {
    hide P.Encoded, P.PackerEnd, ValuesWritten;
    if k == 0 {
      WriteIsLocal(buf, base, size, 0, Zeros(size));
      assert WriteAt(buf[base..base + size], 0, Zeros(size)) == Zeros(size) == WriteAt(Zeros(size), 0, Zeros(size));
    } else {
      var b := bindings[k - 1];
      assert bindings[..k][k - 1] == b && bindings[..k - 1] == bindings[..k][..k - 1];
      BindingsAreLocal(buf, base, size, bindings, entries, k - 1);
      ValuesAreLocal(BindingsWritten(buf, base, size, bindings, entries, k - 1), base, size, b,
                     Find(entries, b.name).value.values, b.arraySize);
      var zeros := BindingsWritten(Zeros(size), 0, size, bindings, entries, k - 1);
      assert zeros[0..size] == zeros;
    }
  }

  // ------------------------------------------------------------ All blocks

  /** The block of every generated material among the first n is in place. */
  ghost predicate BlocksInPlace(bytes: seq<P.Byte>, artifacts: seq<Option<Artifact>>, records: seq<MaterialRecord>,
                                alignment: nat, n: nat)
    requires n <= |artifacts| == |records| && alignment > 0
  {
    forall i :: 0 <= i < n && artifacts[i].Some? ==>
      BlockInPlace(bytes, artifacts[i].value, records[i], ParameterOffset(artifacts, alignment, i))
  }

  ghost predicate BlockInPlace(bytes: seq<P.Byte>, a: Artifact, m: MaterialRecord, offset: nat) {
    && offset + a.parameterSize <= |bytes|
    && AllPack(a.parameters, m.parameters, a.parameterSize)
    && bytes[offset..offset + a.parameterSize] == BlockOf(a, m)
  }

  /** What every generated material finds at its offset: its values, read value by value, where its
      bindings fit and do not overlap, and zero everywhere else in its block. */
  ghost predicate BlocksShown(bytes: seq<P.Byte>, offsets: seq<nat>, artifacts: seq<Option<Artifact>>,
                              records: seq<MaterialRecord>)
    requires |offsets| == |artifacts| == |records|
  {
    forall i :: 0 <= i < |artifacts| && artifacts[i].Some? ==>
      BlockShown(bytes, offsets[i], artifacts[i].value, records[i])
  }

  ghost predicate BlockShown(bytes: seq<P.Byte>, offset: nat, a: Artifact, m: MaterialRecord) {
    offset + a.parameterSize <= |bytes| && BlockReads(bytes, offset, a.parameterSize, a.parameters, m.parameters)
  }

  lemma InPlaceShown(bytes: seq<P.Byte>, offset: nat, a: Artifact, m: MaterialRecord)
    requires BlockInPlace(bytes, a, m, offset)
    ensures BlockShown(bytes, offset, a, m)
  {
    hide AllPack, BindingsWritten, PairwiseDisjoint, ValuesInPlace, P.GeneratedBindingFits, Unowned;
    var block := BlockOf(a, m);
    PackedReads(Zeros(a.parameterSize), 0, a.parameterSize, a.parameters, m.parameters);
    assert forall p: nat :: p < a.parameterSize ==> bytes[offset + p] == block[p] == block[0 + p];
    if ValuesInPlace(block, 0, a.parameters, m.parameters) {
      ValuesShift(bytes, offset, block, a.parameters, m.parameters);
    }
  }

  lemma HoldsShift(bytes: seq<P.Byte>, offset: nat, block: seq<P.Byte>, at: nat, t: P.ValueType, v: P.Value)
    requires offset + |block| <= |bytes| && bytes[offset..offset + |block|] == block && P.HoldsAt(block, at, t, v)
    ensures P.HoldsAt(bytes, offset + at, t, v)
  {
    forall x: nat, w | P.WordAt(block, x, w) ensures P.WordAt(bytes, offset + x, w) {
      assert forall q :: x <= q < x + 4 ==> bytes[offset + q] == bytes[offset..offset + |block|][q] == block[q];
    }
    hide P.WordAt;
  }

  lemma ValuesShift(bytes: seq<P.Byte>, offset: nat, block: seq<P.Byte>, bindings: seq<P.Binding>,
                    entries: seq<P.Entry>)
    requires offset + |block| <= |bytes| && bytes[offset..offset + |block|] == block
    requires ValuesInPlace(block, 0, bindings, entries)
    ensures ValuesInPlace(bytes, offset, bindings, entries)
  {
    hide P.HoldsAt, P.PackedSize;
    forall j, i: nat | 0 <= j < |bindings| && i < bindings[j].arraySize
      ensures ValueInPlace(bytes, offset, bindings[j], entries, i)
    {
      var b := bindings[j];
      assert ValueInPlace(block, 0, b, entries, i);
      var s: nat := if b.arrayStride != 0 then b.arrayStride else P.PackedSize(b.valueType).value;
      var k :| FirstNamed(entries, b.name, k) && i < |entries[k].values| &&
               P.HoldsAt(block, 0 + b.offset + s * i, b.valueType, entries[k].values[i]);
      HoldsShift(bytes, offset, block, b.offset + s * i, b.valueType, entries[k].values[i]);
    }
  }

  lemma AllShown(bytes: seq<P.Byte>, offsets: seq<nat>, artifacts: seq<Option<Artifact>>, records: seq<MaterialRecord>,
                 alignment: nat)
    requires |offsets| == |artifacts| == |records| && alignment > 0
    requires forall i :: 0 <= i < |offsets| ==> offsets[i] == ParameterOffset(artifacts, alignment, i)
    requires BlocksInPlace(bytes, artifacts, records, alignment, |artifacts|)
    ensures BlocksShown(bytes, offsets, artifacts, records)
  {
    hide BlockInPlace, BlockShown, ParameterOffset;
    forall i | 0 <= i < |artifacts| && artifacts[i].Some?
      ensures BlockShown(bytes, offsets[i], artifacts[i].value, records[i])
    {
      InPlaceShown(bytes, offsets[i], artifacts[i].value, records[i]);
    }
  }

  /** Writing block n leaves the earlier ones in place. */
  lemma EarlierBlocksKept(before: seq<P.Byte>, after: seq<P.Byte>, artifacts: seq<Option<Artifact>>,
                          records: seq<MaterialRecord>, alignment: nat, n: nat)
    requires n < |artifacts| == |records| && alignment > 0 && artifacts[n].Some?
    requires BlocksInPlace(before, artifacts, records, alignment, n)
    requires OutsideKept(before, after, ParameterOffset(artifacts, alignment, n), artifacts[n].value.parameterSize)
    ensures BlocksInPlace(after, artifacts, records, alignment, n)
  {
    hide BlockOf, AllPack, ParameterOffset;
    forall i | 0 <= i < n && artifacts[i].Some?
      ensures BlockInPlace(after, artifacts[i].value, records[i], ParameterOffset(artifacts, alignment, i))
    {
      ParameterBlocksApart(artifacts, alignment, i, n);
      var offset, size: nat := ParameterOffset(artifacts, alignment, i), artifacts[i].value.parameterSize;
      assert BlockInPlace(before, artifacts[i].value, records[i], offset);
      assert after[offset..offset + size] == before[offset..offset + size];
    }
  }

  lemma BlockFits(artifacts: seq<Option<Artifact>>, alignment: nat, i: nat)
    requires i < |artifacts| && alignment > 0 && artifacts[i].Some?
    ensures ParameterOffset(artifacts, alignment, i) + artifacts[i].value.parameterSize <=
            ParameterEnd(artifacts, alignment, |artifacts|)
  {
    ParameterEndGrows(artifacts, alignment, i + 1, |artifacts|);
  }

  /** Packs every block; stops at the first that cannot be packed. */
  method PackBlocks(buffer: array<P.Byte>, artifacts: seq<Option<Artifact>>, records: seq<MaterialRecord>,
                    offsets: seq<nat>, ghost alignment: nat)
    returns (ok: bool)
    requires |artifacts| == |records| == |offsets| && alignment > 0
    requires forall i :: 0 <= i < |offsets| ==> offsets[i] == ParameterOffset(artifacts, alignment, i)
    requires buffer.Length >= ParameterEnd(artifacts, alignment, |artifacts|)
    modifies buffer
    ensures ok <==> forall i :: 0 <= i < |artifacts| ==> BlockPacks(artifacts[i], records[i])
    ensures ok ==> BlocksInPlace(buffer[..], artifacts, records, alignment, |artifacts|)
    ensures ok ==> BlocksShown(buffer[..], offsets, artifacts, records)
  {
    hide AllPack, BindingsWritten, OutsideKept, ParameterOffset, ParameterEnd, BlocksShown, BlockReads, AllSuit;
    var i := 0;
    while i < |artifacts|
      invariant 0 <= i <= |artifacts|
      invariant forall j :: 0 <= j < i ==> BlockPacks(artifacts[j], records[j])
      invariant BlocksInPlace(buffer[..], artifacts, records, alignment, i)
    {
      if artifacts[i].Some? {
        var a := artifacts[i].value;
        BlockFits(artifacts, alignment, i);
        ghost var before := buffer[..];
        var outcome := PackGeneratedMaterialParameters(buffer, offsets[i], a.parameterSize, a.parameters,
                                                       records[i].parameters);
        if !outcome.Packed? {
          return false;
        }
        EarlierBlocksKept(before, buffer[..], artifacts, records, alignment, i);
        BindingsAreLocal(before, offsets[i], a.parameterSize, a.parameters, records[i].parameters, |a.parameters|);
      }
      i := i + 1;
    }
    AllShown(buffer[..], offsets, artifacts, records, alignment);
    ok := true;
  }
}
