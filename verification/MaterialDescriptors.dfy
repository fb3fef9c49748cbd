/**
 Preparing the material descriptor sets of a frame: a cache that is reused only while a
 full rebuild would write the same sets, and the resources a rebuild replaces.
 */
module MaterialDescriptors {
  import opened Wrappers
  import opened DescriptorContents
  import opened DescriptorSets
  import opened DescriptorWrites
  import opened ParameterUploads
  import P = MaterialPacking

  /** An immutable table; tables with the same identity have the same records. */
  datatype Table<T> = Table(id: nat, records: seq<T>)

  ghost predicate IdentityDetermines<T>(a: Table<T>, b: Table<T>) {
    a.id == b.id ==> a.records == b.records
  }

  datatype Snapshot = Snapshot(
    sourceId: nat, revision: nat, materials: Table<MaterialRecord>, textures: Table<nat>, samplers: Table<nat>,
    delta: Option<Delta>)

  /** Which revision a delta starts from, and whether it touches textures or samplers. */
  datatype Delta = Delta(baseRevision: nat, texturesOrSamplers: bool)

  datatype Source = Source(
    sourceId: nat, generation: nat, materials: Table<MaterialRecord>, textures: Table<nat>, samplers: Table<nat>,
    artifacts: seq<Option<Artifact>>)

  /** Handle 0 is no buffer. */
  datatype Buffer = Buffer(handle: nat, size: nat)

  const NO_BUFFER := Buffer(0, 0)

  datatype Pool = Pool(maxSets: nat, sizes: Counts, usedSets: nat, used: Counts)

  /** `contents` is what the device's descriptor sets hold. */
  datatype Frame = Frame(
    pool: Option<Pool>, capacity: nat, uniforms: Buffer, generated: Buffer, offsets: seq<nat>,
    setCount: nat, contents: seq<Content>, source: Option<Source>)

  // ------------------------------------------------------------ What a frame keeps

  /** A pool never hands out more than it was created for. */
  ghost predicate PoolSound(f: Frame, registered: seq<Artifact>) {
    && (f.pool.None? ==> f.capacity == 0)
    && (f.pool.Some? ==>
          && f.pool.value.maxSets == f.capacity && f.pool.value.sizes == PoolSizes(registered, f.capacity)
          && f.pool.value.usedSets <= f.pool.value.maxSets && Within(f.pool.value.used, f.pool.value.sizes))
  }

  function EnvironmentOf(s: Source, native: Native, uniforms: nat, generated: nat, layout: Layout): Environment {
    Environment(s.materials.records, s.textures.records, s.samplers.records, s.artifacts, native, uniforms, generated,
                layout)
  }

  /** The sets are what a full rebuild from the remembered source writes with these native
      objects, and the buffers they point to are large enough to stay. */
  ghost predicate Shows(f: Frame, native: Native, layout: Layout)
    requires layout.Sound()
  {
    f.source.Some? ==>
      var s := f.source.value;
      var n := |s.materials.records|;
      && n > 0 && |s.artifacts| == n
      && native.fallbackView != 0 && native.fallbackSampler != 0
      && f.pool.Some? && f.capacity >= n && f.setCount == n
      && f.uniforms.handle != 0 && f.uniforms.size >= AlignUp(layout.uniformSize, layout.alignment) * n
      && (ParameterEnd(s.artifacts, layout.alignment, n) != 0 ==>
            f.generated.handle != 0 && f.generated.size >= ParameterEnd(s.artifacts, layout.alignment, n))
      && var e := EnvironmentOf(s, native, f.uniforms.handle, f.generated.handle, layout);
      && f.contents == Contents(e, n)
      && (forall i :: 0 <= i < n ==> MaterialWritable(e, i))
  }

  // ------------------------------------------------------------ One preparation

  /** Which native calls of one preparation fail. */
  datatype Faults = Faults(
    fallback: bool, createPool: bool, resetPool: bool, createUniforms: bool, mapUniforms: bool, createGenerated: bool,
    mapGenerated: bool, allocate: bool)

  /** Handles of native objects created during one preparation. */
  datatype Fresh = Fresh(view: nat, sampler: nat, uniforms: nat, generated: nat)
  {
    predicate Sound() {
      view != 0 && sampler != 0 && uniforms != 0 && generated != 0
    }
  }

  datatype Outcome = Prepared | Reused | NoMaterials | Failed

  /** The test of the cached source against the snapshot. */
  predicate Reusable(f: Frame, snapshot: Snapshot, generation: nat, artifacts: seq<Option<Artifact>>) {
    && f.source.Some?
    && f.source.value.sourceId == snapshot.sourceId
    && f.source.value.generation == generation
    && f.source.value.materials.id == snapshot.materials.id
    && f.source.value.textures.id == snapshot.textures.id
    && f.source.value.samplers.id == snapshot.samplers.id
    && f.source.value.artifacts == artifacts
  }

  function SourceOf(snapshot: Snapshot, generation: nat, artifacts: seq<Option<Artifact>>): Source {
    Source(snapshot.sourceId, generation, snapshot.materials, snapshot.textures, snapshot.samplers, artifacts)
  }

  ghost predicate TablesDetermined(f: Frame, snapshot: Snapshot) {
    f.source.Some? ==>
      && IdentityDetermines(f.source.value.materials, snapshot.materials)
      && IdentityDetermines(f.source.value.textures, snapshot.textures)
      && IdentityDetermines(f.source.value.samplers, snapshot.samplers)
  }

  /** Texture references of every material lie inside the tables. */
  method ValidateMaterialTextureBindings(snapshot: Snapshot) returns (ok: bool)
    ensures ok <==> RefsInside(snapshot)
  {
    var i := 0;
    while i < |snapshot.materials.records|
      invariant 0 <= i <= |snapshot.materials.records|
      invariant forall j :: 0 <= j < i ==>
                  && RefInside(snapshot.materials.records[j].base, snapshot)
                  && RefInside(snapshot.materials.records[j].normal, snapshot)
    {
      var m := snapshot.materials.records[i];
      if !RefInside(m.base, snapshot) || !RefInside(m.normal, snapshot) {
        return false;
      }
      i := i + 1;
    }
    return true;
  }

  predicate RefInside(ref: Option<TextureRef>, snapshot: Snapshot) {
    ref.Some? ==> ref.value.texture < |snapshot.textures.records| && ref.value.sampler < |snapshot.samplers.records|
  }

  /** Assigns every generated material its block. */
  method AssignOffsets(artifacts: seq<Option<Artifact>>, alignment: nat) returns (offsets: seq<nat>, total: nat)
    requires alignment > 0
    ensures |offsets| == |artifacts| && total == ParameterEnd(artifacts, alignment, |artifacts|)
    ensures forall i :: 0 <= i < |offsets| ==> offsets[i] == ParameterOffset(artifacts, alignment, i)
    ensures BlocksPlaced(artifacts, alignment, offsets, total)
  {
    hide BlocksPlaced;
    offsets, total := [], 0;
    var i := 0;
    while i < |artifacts|
      invariant 0 <= i <= |artifacts| && |offsets| == i && total == ParameterEnd(artifacts, alignment, i)
      invariant forall j :: 0 <= j < i ==> offsets[j] == ParameterOffset(artifacts, alignment, j)
    {
      if artifacts[i].Some? {
        total := AlignUp(total, alignment);
        offsets := offsets + [total];
        total := total + artifacts[i].value.parameterSize;
      } else {
        offsets := offsets + [0];
      }
      i := i + 1;
    }
    OffsetsPlaced(artifacts, alignment, offsets);
  }

  /** Whether a pool has to be created, for want of one or of room. */
  predicate NeedsPool(f: Frame, count: nat) {
    f.pool.None? || f.capacity < count
  }

  predicate PoolFails(f: Frame, count: nat, reuse: bool, faults: Faults) {
    if NeedsPool(f, count) then faults.createPool else !reuse && faults.resetPool
  }

  /** A pool with room for the materials, empty unless the sets are kept.  `touched` says
      whether a pool was destroyed, created or reset. */
  method EnsurePool(f: Frame, count: nat, reuse: bool, registered: seq<Artifact>, faults: Faults)
    returns (ok: bool, f': Frame, touched: bool)
    requires PoolSound(f, registered) && count > 0
    ensures PoolSound(f', registered)
    ensures f' == f.(pool := f'.pool, capacity := f'.capacity)
    ensures ok <==> !PoolFails(f, count, reuse, faults)
    ensures touched <==> NeedsPool(f, count) || !reuse
    ensures !touched ==> f' == f
    ensures ok ==> f'.pool.Some? && f'.capacity == if NeedsPool(f, count) then count else f.capacity
    ensures ok && touched ==> f'.pool.value.usedSets == 0 && f'.pool.value.used == Counts(0, 0, 0, 0)
  {
    f', touched := f, false;
    if f.pool.None? || f.capacity < count {
      f', touched := f'.(pool := None, capacity := 0), true;
      if faults.createPool {
        return false, f', touched;
      }
      f' := f'.(pool := Some(Pool(count, PoolSizes(registered, count), 0, Counts(0, 0, 0, 0))), capacity := count);
    } else if !reuse {
      touched := true;
      if faults.resetPool {
        return false, f', touched;
      }
      f' := f'.(pool := Some(f.pool.value.(usedSets := 0, used := Counts(0, 0, 0, 0))));
    }
    ok := true;
  }

  predicate NeedsBuffer(b: Buffer, size: nat) {
    b.handle == 0 || b.size < size
  }

  /** A buffer of at least the given size; an existing one that is large enough stays. */
  method EnsureBuffer(b: Buffer, size: nat, created: nat, fault: bool) returns (ok: bool, b': Buffer)
    requires created != 0
    ensures ok <==> !(NeedsBuffer(b, size) && fault)
    ensures b' == if !NeedsBuffer(b, size) then b else if fault then NO_BUFFER else Buffer(created, size)
  {
    if b.handle == 0 || b.size < size {
      if fault {
        return false, NO_BUFFER;
      }
      return true, Buffer(created, size);
    }
    return true, b;
  }

  /** Allocates one set for every material. */
  method AllocateSets(p: Pool, artifacts: seq<Option<Artifact>>) returns (ok: bool, p': Pool)
    ensures ok <==> p.usedSets + |artifacts| <= p.maxSets &&
                    Within(Plus(p.used, Needs(artifacts, |artifacts|)), p.sizes)
    ensures ok ==> p' == p.(usedSets := p.usedSets + |artifacts|, used := Plus(p.used, Needs(artifacts, |artifacts|)))
    ensures !ok ==> p' == p
  {
    var used := Plus(p.used, Needs(artifacts, |artifacts|));
    ok := p.usedSets + |artifacts| <= p.maxSets && Within(used, p.sizes);
    p' := if ok then p.(usedSets := p.usedSets + |artifacts|, used := used) else p;
  }

  /** Rewrites every set; the pool was emptied before. */
  method RebuildSets(f: Frame, snapshot: Snapshot, generation: nat, artifacts: seq<Option<Artifact>>, native: Native,
                     registered: seq<Artifact>, layout: Layout, fault: bool)
    returns (ok: bool, f': Frame)
    requires layout.Sound() && PoolSound(f, registered) && f.source.None? && f.pool.Some?
    requires |artifacts| == |snapshot.materials.records| == |f.offsets| && 0 < |artifacts| <= f.capacity
    requires forall i :: 0 <= i < |artifacts| && artifacts[i].Some? ==> artifacts[i].value in registered
    requires forall i :: 0 <= i < |artifacts| ==> f.offsets[i] == ParameterOffset(artifacts, layout.alignment, i)
    requires f.pool.value.usedSets == 0 && f.pool.value.used == Counts(0, 0, 0, 0)
    requires native.fallbackView != 0 && native.fallbackSampler != 0
    requires f.uniforms.handle != 0 && f.uniforms.size >= AlignUp(layout.uniformSize, layout.alignment) * |artifacts|
    requires ParameterEnd(artifacts, layout.alignment, |artifacts|) != 0 ==>
               f.generated.handle != 0 && f.generated.size >= ParameterEnd(artifacts, layout.alignment, |artifacts|)
    ensures PoolSound(f', registered)
    ensures f' == f.(pool := f'.pool, setCount := f'.setCount, contents := f'.contents, source := f'.source)
    ensures ok ==> f'.source == Some(SourceOf(snapshot, generation, artifacts)) && Shows(f', native, layout)
    ensures !ok ==> f'.source.None?
    ensures var e := EnvironmentOf(SourceOf(snapshot, generation, artifacts), native, f.uniforms.handle,
                                   f.generated.handle, layout);
            ok <==> !fault && Within(Needs(artifacts, |artifacts|), PoolSizes(registered, f.capacity)) &&
                    forall i :: 0 <= i < |artifacts| ==> MaterialWritable(e, i)
  {
    f' := f.(setCount := |artifacts|);
    if fault {
      return false, f';
    }
    var pool;
    ok, pool := AllocateSets(f.pool.value, artifacts);
    if !ok {
      return;
    }
    f' := f'.(pool := Some(pool));
    var source := SourceOf(snapshot, generation, artifacts);
    var e := EnvironmentOf(source, native, f.uniforms.handle, f.generated.handle, layout);
    var l;
    ok, l := BuildWrites(e, f.offsets);
    if !ok {
      return;
    }
    f' := f'.(contents := Resolved(l), source := Some(source));
  }

  /** Creates what the fallback lacks; an existing fallback stays. */
  method EnsureFallback(native: Native, created: Fresh, fault: bool) returns (ok: bool, native': Native)
    requires created.Sound()
    ensures native' == native.(fallbackView := native'.fallbackView, fallbackSampler := native'.fallbackSampler)
    ensures native.fallbackView != 0 && native.fallbackSampler != 0 ==> native' == native
    ensures ok ==> native'.fallbackView == (if native.fallbackView != 0 then native.fallbackView else created.view)
    ensures ok ==> native'.fallbackSampler ==
                   (if native.fallbackSampler != 0 then native.fallbackSampler else created.sampler)
    ensures ok <==> !(fault && (native.fallbackView == 0 || native.fallbackSampler == 0))
  {
    native' := native;
    if native.fallbackView == 0 {
      if fault {
        return false, native';
      }
      native' := native'.(fallbackView := created.view);
    }
    if native.fallbackSampler == 0 {
      if fault {
        return false, native';
      }
      native' := native'.(fallbackSampler := created.sampler);
    }
    ok := true;
  }

  /** While the cached source matches, nothing has to be created and the sets are current. */
  lemma ReuseIsCurrent(f: Frame, snapshot: Snapshot, generation: nat, artifacts: seq<Option<Artifact>>, native: Native,
                       layout: Layout)
    requires layout.Sound() && Reusable(f, snapshot, generation, artifacts) && Shows(f, native, layout)
    requires TablesDetermined(f, snapshot)
    ensures var n := |snapshot.materials.records|;
            && n > 0 && |artifacts| == n && native.fallbackView != 0 && native.fallbackSampler != 0
            && f.pool.Some? && f.capacity >= n
            && f.uniforms.handle != 0 && f.uniforms.size >= AlignUp(layout.uniformSize, layout.alignment) * n
            && (ParameterEnd(artifacts, layout.alignment, n) != 0 ==>
                  f.generated.handle != 0 && f.generated.size >= ParameterEnd(artifacts, layout.alignment, n))
            && var e := EnvironmentOf(SourceOf(snapshot, generation, artifacts), native, f.uniforms.handle,
                                      f.generated.handle, layout);
            && f.contents == Contents(e, n) && (forall i :: 0 <= i < n ==> MaterialWritable(e, i))
  {
  }

  /** Whether the frame's sets are what a full rebuild for this snapshot would write: every set
      shows its material, and the parameter blocks lie one after the other. */
  ghost predicate Current(f: Frame, snapshot: Snapshot, artifacts: seq<Option<Artifact>>, native: Native,
                          layout: Layout)
    requires layout.Sound() && |artifacts| == |snapshot.materials.records|
  {
    && |f.offsets| == |artifacts|
    && var e := Environment(materials := snapshot.materials.records, textures := snapshot.textures.records,
                            samplers := snapshot.samplers.records, artifacts := artifacts, native := native,
                            uniforms := f.uniforms.handle, generatedUniforms := f.generated.handle, layout := layout);
    && f.contents == Contents(e, |artifacts|)
    && SetsShown(f.contents, e, f.offsets)
    && BlocksPlaced(artifacts, layout.alignment, f.offsets, ParameterEnd(artifacts, layout.alignment, |artifacts|))
  }

  /** Whether the parameter buffer cannot be made, mapped, or packed. */
  ghost predicate ParametersFail(b: Buffer, snapshot: Snapshot, artifacts: seq<Option<Artifact>>, layout: Layout,
                                 faults: Faults)
    requires layout.Sound() && |artifacts| == |snapshot.materials.records|
  {
    var total := ParameterEnd(artifacts, layout.alignment, |artifacts|);
    && total != 0
    && (|| (NeedsBuffer(b, total) && faults.createGenerated)
        || faults.mapGenerated
        || exists i :: 0 <= i < |artifacts| && !BlockPacks(artifacts[i], snapshot.materials.records[i]))
  }

  /** Exactly why a preparation fails: a reference outside the tables, a native call that is
      made and fails, parameters that cannot be packed, or a set that cannot be written. */
  ghost predicate Fails(f: Frame, snapshot: Snapshot, generation: nat, artifacts: seq<Option<Artifact>>, native: Native,
                        registered: seq<Artifact>, layout: Layout, faults: Faults)
    requires layout.Sound() && |artifacts| == |snapshot.materials.records|
  {
    var reuse, count := Reusable(f, snapshot, generation, artifacts), |artifacts|;
    || !RefsInside(snapshot)
    || (count > 0 &&
        (|| (faults.fallback && (native.fallbackView == 0 || native.fallbackSampler == 0))
         || PoolFails(f, count, reuse, faults)
         || UniformsFail(f, count, layout, faults)
         || ParametersFail(f.generated, snapshot, artifacts, layout, faults)
         || (!reuse && (faults.allocate || !PoolHolds(f, artifacts, registered) ||
                        !AllWritable(snapshot, artifacts, native, layout)))))
  }

  /** Whether the pool a rebuild uses has room for the sets; it has unless its sizes wrap. */
  predicate PoolHolds(f: Frame, artifacts: seq<Option<Artifact>>, registered: seq<Artifact>) {
    var capacity := if NeedsPool(f, |artifacts|) then |artifacts| else f.capacity;
    Within(Needs(artifacts, |artifacts|), PoolSizes(registered, capacity))
  }

  ghost predicate RefsInside(snapshot: Snapshot) {
    forall i :: 0 <= i < |snapshot.materials.records| ==>
      RefInside(snapshot.materials.records[i].base, snapshot) &&
          RefInside(snapshot.materials.records[i].normal, snapshot)
  }

  ghost predicate AllWritable(snapshot: Snapshot, artifacts: seq<Option<Artifact>>, native: Native, layout: Layout)
    requires |artifacts| == |snapshot.materials.records|
  {
    var e := EnvironmentOf(SourceOf(snapshot, 0, artifacts), native, 0, 0, layout);
    forall i :: 0 <= i < |artifacts| ==> MaterialWritable(e, i)
  }

  /** Which materials can be written does not depend on the buffers, the generation or the fallback. */
  lemma WritableAnywhere(snapshot: Snapshot, generation: nat, artifacts: seq<Option<Artifact>>, native: Native,
                         native': Native, uniforms: nat, generated: nat, layout: Layout)
    requires |artifacts| == |snapshot.materials.records|
    requires native'.views == native.views && native'.samplers == native.samplers
    ensures var e := EnvironmentOf(SourceOf(snapshot, generation, artifacts), native', uniforms, generated, layout);
            AllWritable(snapshot, artifacts, native, layout) <==>
            forall i :: 0 <= i < |artifacts| ==> MaterialWritable(e, i)
  {
    hide ResourceWritable;
    var e := EnvironmentOf(SourceOf(snapshot, generation, artifacts), native', uniforms, generated, layout);
    var e' := EnvironmentOf(SourceOf(snapshot, 0, artifacts), native, 0, 0, layout);
    forall i | 0 <= i < |artifacts| ensures MaterialWritable(e, i) <==> MaterialWritable(e', i) {
      WritableHere(e, e', i);
    }
  }

  lemma WritableHere(e: Environment, e': Environment, i: nat)
    requires i < |e.materials| == |e.artifacts| && e'.artifacts == e.artifacts && e'.materials == e.materials
    requires e'.textures == e.textures && e'.samplers == e.samplers
    requires e'.native.views == e.native.views && e'.native.samplers == e.native.samplers
    ensures MaterialWritable(e, i) <==> MaterialWritable(e', i)
  {
    if e.artifacts[i].Some? {
      var rs := e.artifacts[i].value.resources;
      assert forall k :: 0 <= k < |rs| ==>
               (ResourceWritable(e.materials[i], rs[k], e.native) <==>
                ResourceWritable(e.materials[i], rs[k], e'.native));
    }
  }

  /** Makes room for the parameter blocks and packs them, where there are any. */
  method UploadParameters(b: Buffer, artifacts: seq<Option<Artifact>>, records: seq<MaterialRecord>, offsets: seq<nat>,
                          total: nat, ghost alignment: nat, faults: Faults, created: nat)
    returns (ok: bool, b': Buffer, bytes: seq<P.Byte>)
    requires |artifacts| == |records| == |offsets| && alignment > 0 && created != 0
    requires forall i :: 0 <= i < |offsets| ==> offsets[i] == ParameterOffset(artifacts, alignment, i)
    requires total == ParameterEnd(artifacts, alignment, |artifacts|)
    ensures ok <==>
            || total == 0
            || (&& !(NeedsBuffer(b, total) && faults.createGenerated) && !faults.mapGenerated
                && forall i :: 0 <= i < |artifacts| ==> BlockPacks(artifacts[i], records[i]))
    ensures b' == if total == 0 || !NeedsBuffer(b, total) then b
                  else if faults.createGenerated then NO_BUFFER else Buffer(created, total)
    ensures ok && total != 0 ==>
              BlocksInPlace(bytes, artifacts, records, alignment, |artifacts|) &&
                  BlocksShown(bytes, offsets, artifacts, records)
  {
    hide BlockPacks, BlocksInPlace, BlocksShown, ParameterOffset, ParameterEnd;
    b', bytes := b, [];
    if total == 0 {
      return true, b', bytes;
    }
    ok, b' := EnsureBuffer(b, total, created, faults.createGenerated);
    if !ok || faults.mapGenerated {
      return false, b', bytes;
    }
    var mapped := new P.Byte[total];
    ok := PackBlocks(mapped, artifacts, records, offsets, alignment);
    bytes := mapped[..];
  }

  predicate UniformsFail(f: Frame, count: nat, layout: Layout, faults: Faults)
    requires layout.Sound()
  {
    || (NeedsBuffer(f.uniforms, AlignUp(layout.uniformSize, layout.alignment) * count) && faults.createUniforms)
    || faults.mapUniforms
  }

  /** Fills the uniform buffer and the parameter buffer; `grown` says whether one was created. */
  method FillBuffers(f: Frame, snapshot: Snapshot, artifacts: seq<Option<Artifact>>, registered: seq<Artifact>,
                     layout: Layout, faults: Faults, created: Fresh)
    returns (ok: bool, f': Frame, grown: bool, bytes: seq<P.Byte>)
    requires layout.Sound() && created.Sound() && PoolSound(f, registered)
    requires |artifacts| == |snapshot.materials.records|
    ensures PoolSound(f', registered)
    ensures ok <==>
            !UniformsFail(f, |artifacts|, layout, faults) &&
                !ParametersFail(f.generated, snapshot, artifacts, layout, faults)
    ensures f' == f.(uniforms := f'.uniforms, generated := f'.generated, offsets := f'.offsets)
    ensures grown <==> f'.uniforms != f.uniforms || f'.generated != f.generated
    ensures var size := AlignUp(layout.uniformSize, layout.alignment) * |artifacts|;
            && (!NeedsBuffer(f.uniforms, size) ==> f'.uniforms == f.uniforms)
            && (ok ==> !NeedsBuffer(f'.uniforms, size))
    ensures var total := ParameterEnd(artifacts, layout.alignment, |artifacts|);
            && (total == 0 || !NeedsBuffer(f.generated, total) ==> f'.generated == f.generated)
            && (ok && total != 0 ==> !NeedsBuffer(f'.generated, total))
    ensures ok ==> ParametersCurrent(bytes, f'.offsets, snapshot, artifacts, layout)
    ensures ok ==> |f'.offsets| == |artifacts| &&
                   forall i :: 0 <= i < |artifacts| ==> f'.offsets[i] == ParameterOffset(artifacts, layout.alignment, i)
  {
    hide PoolSound, ParameterOffset, ParameterEnd, AlignUp, BlockPacks, BlocksInPlace, BlocksShown;
    f', bytes := f, [];
    var buffer;
    ok, buffer := EnsureBuffer(f'.uniforms, AlignUp(layout.uniformSize, layout.alignment) * |artifacts|,
                               created.uniforms, faults.createUniforms);
    grown := buffer != f'.uniforms;
    UniformsChanged(f', registered, buffer);
    f' := f'.(uniforms := buffer);
    if !ok || faults.mapUniforms {
      return false, f', grown, bytes;
    }
    var offsets, total := AssignOffsets(artifacts, layout.alignment);
    OffsetsChanged(f', registered, offsets);
    f' := f'.(offsets := offsets);
    ok, buffer, bytes := UploadParameters(f'.generated, artifacts, snapshot.materials.records, offsets, total,
                                          layout.alignment, faults, created.generated);
    grown := grown || buffer != f'.generated;
    GeneratedChanged(f', registered, buffer);
    f' := f'.(generated := buffer);
  }

  /** `touched` says whether a pool or buffer was created or a pool was reset; `bytes` is what
      ends up in the parameter buffer. */
  method PrepareMaterialDescriptors(f: Frame, snapshot: Snapshot, generation: nat, artifacts: seq<Option<Artifact>>,
                                    native: Native, registered: seq<Artifact>, layout: Layout, faults: Faults,
                                    created: Fresh)
    returns (outcome: Outcome, f': Frame, native': Native, touched: bool, bytes: seq<P.Byte>)
    requires layout.Sound() && created.Sound() && PoolSound(f, registered) && TablesDetermined(f, snapshot)
    requires Reusable(f, snapshot, generation, artifacts) ==> Shows(f, native, layout)
    requires |artifacts| == |snapshot.materials.records|
    requires forall i :: 0 <= i < |artifacts| && artifacts[i].Some? ==> artifacts[i].value in registered
    ensures PoolSound(f', registered)
    ensures native.fallbackView != 0 && native.fallbackSampler != 0 ==> native' == native
    ensures Reusable(f, snapshot, generation, artifacts) ==>
              !touched && f' == f.(offsets := f'.offsets) && native' == native && !outcome.Prepared?
    ensures outcome.Reused? ==> Reusable(f, snapshot, generation, artifacts)
    ensures outcome.Reused? || outcome.Prepared? ==>
              (outcome.Reused? <==>
                 && f.source.Some? && f.source.value.sourceId == snapshot.sourceId
                 && f.source.value.generation == generation
                 && f.source.value.materials.id == snapshot.materials.id
                 && f.source.value.textures.id == snapshot.textures.id
                 && f.source.value.samplers.id == snapshot.samplers.id && f.source.value.artifacts == artifacts)
    ensures outcome.NoMaterials? ==> snapshot.materials.records == []
    ensures outcome.Failed? <==> Fails(f, snapshot, generation, artifacts, native, registered, layout, faults)
    ensures outcome.Prepared? ==>
              f'.source == Some(SourceOf(snapshot, generation, artifacts)) && Shows(f', native', layout)
    ensures outcome.Prepared? || outcome.Reused? ==> Current(f', snapshot, artifacts, native', layout)
    ensures outcome.Prepared? || outcome.Reused? ==> ParametersCurrent(bytes, f'.offsets, snapshot, artifacts, layout)
    ensures !outcome.Prepared? && !Reusable(f, snapshot, generation, artifacts) ==>
              f'.source.None? || (outcome.Failed? && f' == f && native' == native)
  {
    hide Shows, PoolSound, TablesDetermined, Contents, ParameterOffset, ParameterEnd, AlignUp, MaterialWritable,
      AllWritable, RefsInside, ParametersFail, ParametersCurrent, PoolSizes, Needs, Current;
    f', native', touched, outcome, bytes := f, native, false, Failed, [];
    var valid := ValidateMaterialTextureBindings(snapshot);
    if !valid {
      return;
    }
    var reuse := Reusable(f, snapshot, generation, artifacts);
    if reuse {
      ReuseIsCurrent(f, snapshot, generation, artifacts, native, layout);
    } else {
      f' := f'.(source := None, setCount := 0);
      WithoutSource(f, registered);
    }
    if snapshot.materials.records == [] {
      outcome := NoMaterials;
      return;
    }
    var ok;
    ok, native' := EnsureFallback(native, created, faults.fallback);
    if !ok {
      return;
    }
    var count := |snapshot.materials.records|;
    ok, f', touched := EnsurePool(f', count, reuse, registered, faults);
    if !ok {
      return;
    }
    var grown;
    ok, f', grown, bytes := FillBuffers(f', snapshot, artifacts, registered, layout, faults, created);
    touched := touched || grown;
    if !ok {
      return;
    }
    if reuse {
      WrittenIsCurrent(f', snapshot, generation, artifacts, native', layout);
      outcome := Reused;
      return;
    }
    WritableAnywhere(snapshot, generation, artifacts, native, native', f'.uniforms.handle, f'.generated.handle, layout);
    ok, f' := RebuildSets(f', snapshot, generation, artifacts, native', registered, layout, faults.allocate);
    if ok {
      RebuiltIsCurrent(f', snapshot, generation, artifacts, native', layout);
      outcome := Prepared;
    }
  }

  /** The parameter buffer, where there is one, holds every generated material's values at its offset. */
  ghost predicate ParametersCurrent(bytes: seq<P.Byte>, offsets: seq<nat>, snapshot: Snapshot,
                                    artifacts: seq<Option<Artifact>>, layout: Layout)
    requires layout.Sound() && |artifacts| == |snapshot.materials.records|
  {
    ParameterEnd(artifacts, layout.alignment, |artifacts|) != 0 ==>
      && |offsets| == |artifacts|
      && BlocksInPlace(bytes, artifacts, snapshot.materials.records, layout.alignment, |artifacts|)
      && BlocksShown(bytes, offsets, artifacts, snapshot.materials.records)
  }

  lemma WithoutSource(f: Frame, registered: seq<Artifact>)
    requires PoolSound(f, registered)
    ensures PoolSound(f.(source := None, setCount := 0), registered)
  {
  }

  lemma UniformsChanged(f: Frame, registered: seq<Artifact>, b: Buffer)
    requires PoolSound(f, registered)
    ensures PoolSound(f.(uniforms := b), registered)
  {
  }

  lemma GeneratedChanged(f: Frame, registered: seq<Artifact>, b: Buffer)
    requires PoolSound(f, registered)
    ensures PoolSound(f.(generated := b), registered)
  {
  }

  lemma OffsetsChanged(f: Frame, registered: seq<Artifact>, offsets: seq<nat>)
    requires PoolSound(f, registered)
    ensures PoolSound(f.(offsets := offsets), registered)
  {
  }

  lemma RebuiltIsCurrent(f: Frame, snapshot: Snapshot, generation: nat, artifacts: seq<Option<Artifact>>,
                         native: Native, layout: Layout)
    requires layout.Sound() && |artifacts| == |snapshot.materials.records| == |f.offsets|
    requires f.source == Some(SourceOf(snapshot, generation, artifacts)) && Shows(f, native, layout)
    requires forall i :: 0 <= i < |artifacts| ==> f.offsets[i] == ParameterOffset(artifacts, layout.alignment, i)
    ensures Current(f, snapshot, artifacts, native, layout)
  {
    WrittenIsCurrent(f, snapshot, generation, artifacts, native, layout);
  }

  lemma WrittenIsCurrent(f: Frame, snapshot: Snapshot, generation: nat, artifacts: seq<Option<Artifact>>,
                         native: Native, layout: Layout)
    requires layout.Sound() && |artifacts| == |snapshot.materials.records| == |f.offsets|
    requires forall i :: 0 <= i < |artifacts| ==> f.offsets[i] == ParameterOffset(artifacts, layout.alignment, i)
    requires var e := EnvironmentOf(SourceOf(snapshot, generation, artifacts), native, f.uniforms.handle,
                                    f.generated.handle, layout);
             f.contents == Contents(e, |artifacts|) && forall i :: 0 <= i < |artifacts| ==> MaterialWritable(e, i)
    ensures Current(f, snapshot, artifacts, native, layout)
  {
    hide ParameterOffset, Contents, MaterialWritable, SetsShown, BlocksPlaced, ParameterEnd, AlignUp;
    OffsetsPlaced(artifacts, layout.alignment, f.offsets);
    ContentsShow(EnvironmentOf(SourceOf(snapshot, generation, artifacts), native, f.uniforms.handle,
                               f.generated.handle, layout), f.offsets);
  }

  // ------------------------------------------------------------ Runs of frames

  datatype SyncMode = ReplaceAll | Full | Unchanged | Incremental

  /** Where a draw fails: before or while textures are synchronised, or after preparation. */
  datatype DrawFault = NoFault | BeforeSync | DuringSync | AfterPreparation

  class Renderer {
    const registered: seq<Artifact>
    const layout: Layout
    var frames: seq<Frame>
    var native: Native
    var generation: nat
    var residencyDirty: bool
    var residentSource: nat
    var residentRevision: nat

    /** No frame remembers a later generation, and one that remembers the current generation
        shows what a full rebuild would, unless a failed draw left the residency dirty. */
    ghost predicate Valid()
      reads this
    {
      && layout.Sound()
      && (forall k :: 0 <= k < |frames| ==> FrameValid(frames[k]))
    }

    ghost predicate FrameValid(f: Frame)
      requires layout.Sound()
      reads this
    {
      && PoolSound(f, registered)
      && (f.source.Some? ==> f.source.value.generation <= generation)
      && (f.source.Some? && f.source.value.generation == generation && !residencyDirty ==> Shows(f, native, layout))
    }

    /** Valid, and frames of the current generation are current, dirty or not. */
    ghost predicate FramesCurrent()
      reads this
    {
      && layout.Sound()
      && (forall k :: 0 <= k < |frames| ==>
            && FrameValid(frames[k])
            && (frames[k].source.Some? && frames[k].source.value.generation == generation ==>
                  Shows(frames[k], native, layout)))
    }

    constructor (count: nat, artifacts: seq<Artifact>, l: Layout)
      requires l.Sound()
      ensures Valid() && |frames| == count && registered == artifacts && layout == l
    {
      registered, layout := artifacts, l;
      frames := seq(count, _ => Frame(None, 0, NO_BUFFER, NO_BUFFER, [], 0, [], None));
      native := Native(map[], map[], 0, 0);
      generation, residencyDirty, residentSource, residentRevision := 0, false, 0, 0;
    }

    function SelectResourceSyncMode(snapshot: Snapshot): SyncMode
      reads this
    {
      if residencyDirty || snapshot.sourceId != residentSource then ReplaceAll
      else if snapshot.sourceId == 0 then Full
      else if snapshot.revision == residentRevision then Unchanged
      else if snapshot.delta.Some? && snapshot.delta.value.baseRevision == residentRevision then Incremental
      else Full
    }

    /** Native objects may change only together with the generation. */
    method SyncResources(snapshot: Snapshot, synced: Native)
      requires Valid()
      modifies this`native, this`generation, this`residencyDirty
      ensures residencyDirty && (generation == old(generation) || generation == old(generation) + 1)
      ensures generation == old(generation) <==>
              && !old(residencyDirty) && snapshot.sourceId == residentSource && snapshot.sourceId != 0
              && (|| snapshot.revision == residentRevision
                  || (&& snapshot.delta.Some? && snapshot.delta.value.baseRevision == residentRevision
                      && !snapshot.delta.value.texturesOrSamplers))
      ensures generation == old(generation) ==> !old(residencyDirty)
      ensures native == if generation == old(generation) then old(native) else synced
      ensures FramesCurrent()
    {
      hide Shows, PoolSound;
      assert forall k :: 0 <= k < |frames| ==> FrameValid(frames[k]);
      var mode := SelectResourceSyncMode(snapshot);
      residencyDirty := true;
      if mode != Unchanged && (mode != Incremental || snapshot.delta.value.texturesOrSamplers) {
        generation := generation + 1;
        native := synced;
      }
    }

    /** Prepares the descriptors of frame i after resources are synchronised. */
    method PrepareFrame(i: nat, snapshot: Snapshot, artifacts: seq<Option<Artifact>>, faults: Faults, created: Fresh)
      returns (outcome: Outcome, touched: bool, bytes: seq<P.Byte>)
      requires FramesCurrent() && i < |frames| && created.Sound()
      requires TablesDetermined(frames[i], snapshot) && |artifacts| == |snapshot.materials.records|
      requires forall k :: 0 <= k < |artifacts| && artifacts[k].Some? ==> artifacts[k].value in registered
      modifies this`frames, this`native
      ensures FramesCurrent() && |frames| == |old(frames)|
      ensures forall k :: 0 <= k < |frames| && k != i ==> frames[k] == old(frames)[k]
      ensures outcome.Prepared? || outcome.Reused? ==>
                && Current(frames[i], snapshot, artifacts, native, layout)
                && ParametersCurrent(bytes, frames[i].offsets, snapshot, artifacts, layout)
      ensures outcome.Failed? <==>
              Fails(old(frames)[i], snapshot, generation, artifacts, old(native), registered, layout, faults)
      ensures outcome.Reused? || outcome.Prepared? ==>
                (outcome.Reused? <==>
                   var s := old(frames)[i].source;
                   && s.Some? && s.value.sourceId == snapshot.sourceId && s.value.generation == generation
                   && s.value.materials.id == snapshot.materials.id && s.value.textures.id == snapshot.textures.id
                   && s.value.samplers.id == snapshot.samplers.id && s.value.artifacts == artifacts)
      ensures outcome.Reused? ==>
                && !touched && frames[i] == old(frames)[i].(offsets := frames[i].offsets)
                && old(frames)[i].source.Some? && old(frames)[i].source.value.generation == generation
                && native == old(native)
    {
      hide Shows, PoolSound, Current, TablesDetermined, Fails, ParametersCurrent;
      var frame, objects;
      outcome, frame, objects, touched, bytes :=
        PrepareMaterialDescriptors(frames[i], snapshot, generation, artifacts, native, registered, layout, faults,
                                   created);
      FallbackKeepsOthers(objects);
      OffsetsKeepShows(frames[i], frame.offsets, native);
      native := objects;
      frames := frames[i := frame];
    }

    /** One draw on frame i.  `abandoned` and `synced` are the native objects after dropping
        the uploads of a failed draw and after synchronising textures and samplers. */
    method Draw(i: nat, snapshot: Snapshot, artifacts: seq<Option<Artifact>>, abandoned: Native, synced: Native,
                fault: DrawFault, faults: Faults, created: Fresh)
      returns (outcome: Outcome, touched: bool, bytes: seq<P.Byte>)
      requires Valid() && i < |frames| && created.Sound()
      requires TablesDetermined(frames[i], snapshot) && |artifacts| == |snapshot.materials.records|
      requires forall k :: 0 <= k < |artifacts| && artifacts[k].Some? ==> artifacts[k].value in registered
      modifies this
      ensures Valid() && |frames| == |old(frames)|
      ensures forall k :: 0 <= k < |frames| && k != i ==> frames[k] == old(frames)[k]
      ensures outcome.Prepared? || outcome.Reused? ==>
                && Current(frames[i], snapshot, artifacts, native, layout)
                && ParametersCurrent(bytes, frames[i].offsets, snapshot, artifacts, layout)
      ensures outcome.Reused? || outcome.Prepared? ==>
                (outcome.Reused? <==>
                   var s := old(frames)[i].source;
                   && s.Some? && s.value.sourceId == snapshot.sourceId && s.value.generation == generation
                   && s.value.materials.id == snapshot.materials.id && s.value.textures.id == snapshot.textures.id
                   && s.value.samplers.id == snapshot.samplers.id && s.value.artifacts == artifacts)
      ensures outcome.Failed? <==>
              !fault.NoFault? ||
              Fails(old(frames)[i], snapshot, generation, artifacts,
                    if generation == old(generation) then old(native) else synced, registered, layout, faults)
      ensures outcome.Failed? ==> residentSource == old(residentSource) && residentRevision == old(residentRevision)
      ensures !outcome.Failed? ==>
                && !residencyDirty && residentSource == snapshot.sourceId
                && residentRevision == if snapshot.sourceId == 0 then 0 else snapshot.revision
      ensures outcome.Reused? ==>
                && !touched && frames[i] == old(frames)[i].(offsets := frames[i].offsets)
                && !old(residencyDirty) && native == old(native) && generation == old(generation)
    {
      hide Shows, PoolSound, Current, TablesDetermined, Fails, ParametersCurrent;
      outcome, touched, bytes := Failed, false, [];
      if residencyDirty {
        native := abandoned;
      }
      if fault.BeforeSync? {
        return;
      }
      SyncResources(snapshot, synced);
      if fault.DuringSync? {
        return;
      }
      outcome, touched, bytes := PrepareFrame(i, snapshot, artifacts, faults, created);
      if outcome.Failed? || fault.AfterPreparation? {
        outcome := Failed;
        return;
      }
      residentSource := snapshot.sourceId;
      residentRevision := if snapshot.sourceId == 0 then 0 else snapshot.revision;
      residencyDirty := false;
    }

    lemma OffsetsKeepShows(f: Frame, offsets: seq<nat>, objects: Native)
      requires layout.Sound()
      ensures Shows(f, objects, layout) <==> Shows(f.(offsets := offsets), objects, layout)
    {
    }

    /** A fallback is created only while no frame of the current generation shows one. */
    lemma FallbackKeepsOthers(objects: Native)
      requires layout.Sound()
      requires native.fallbackView != 0 && native.fallbackSampler != 0 ==> objects == native
      ensures forall f :: Shows(f, native, layout) ==> Shows(f, objects, layout)
    {
    }
  }
}
