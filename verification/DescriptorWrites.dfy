/**
 The list of descriptor writes a rebuild makes.  Image writes point into one array of image
 infos, which is reserved in advance and so never moves.
 */
module DescriptorWrites {
  import opened Wrappers
  import opened DescriptorContents
  import opened DescriptorSets

  /** An image write keeps the position of its first info. */
  datatype Write =
    | ImageWrite(target: nat, binding: nat, kind: ImageKind, first: nat, count: nat)
    | BufferWrite(target: nat, binding: nat, handle: nat, offset: nat, range: nat)

  datatype WriteList = WriteList(infos: seq<ImageInfo>, writes: seq<Write>)

  ghost predicate InRange(l: WriteList) {
    forall k :: 0 <= k < |l.writes| && l.writes[k].ImageWrite? ==> l.writes[k].first + l.writes[k].count <= |l.infos|
  }

  /** What the device reads through one write. */
  function Resolve(w: Write, infos: seq<ImageInfo>): Content
    requires w.ImageWrite? ==> w.first + w.count <= |infos|
  {
    match w
    case ImageWrite(target, binding, kind, first, count) => Images(target, binding, kind, infos[first..first + count])
    case BufferWrite(target, binding, handle, offset, range) => Uniform(target, binding, handle, offset, range)
  }

  function Resolved(l: WriteList): (cs: seq<Content>)
    requires InRange(l)
    ensures |cs| == |l.writes|
  {
    seq(|l.writes|, k requires 0 <= k < |l.writes| => Resolve(l.writes[k], l.infos))
  }

  /** Growing the infos leaves earlier writes as they were. */
  lemma ImagesAppended(l: WriteList, more: seq<ImageInfo>, target: nat, binding: nat, kind: ImageKind)
    requires InRange(l)
    ensures var l' := WriteList(l.infos + more, l.writes + [ImageWrite(target, binding, kind, |l.infos|, |more|)]);
            InRange(l') && Resolved(l') == Resolved(l) + [Images(target, binding, kind, more)]
  {
    var l' := WriteList(l.infos + more, l.writes + [ImageWrite(target, binding, kind, |l.infos|, |more|)]);
    forall k | 0 <= k < |l'.writes|
      ensures Resolved(l')[k] == (Resolved(l) + [Images(target, binding, kind, more)])[k]
    {
      if k < |l.writes| && l.writes[k].ImageWrite? {
        var w := l.writes[k];
        assert l'.infos[w.first..w.first + w.count] == l.infos[w.first..w.first + w.count];
      }
    }
  }

  lemma BufferAppended(l: WriteList, target: nat, binding: nat, handle: nat, offset: nat, range: nat)
    requires InRange(l)
    ensures var l' := WriteList(l.infos, l.writes + [BufferWrite(target, binding, handle, offset, range)]);
            InRange(l') && Resolved(l') == Resolved(l) + [Uniform(target, binding, handle, offset, range)]
  {
  }

  /** One resource write: an info for every value; fails where a value has no native object. */
  method WriteResources(l: WriteList, target: nat, binding: nat, values: seq<ResourceValue>, native: Native,
                        texture: bool, ghost reserved: nat)
    returns (ok: bool, l': WriteList)
    requires InRange(l) && |l.infos| + |values| <= reserved
    ensures ok <==> AllPresent(values, if texture then native.views else native.samplers, texture)
    ensures InRange(l') && (!ok ==> l'.writes == l.writes)
    ensures ok ==>
              && |l'.infos| == |l.infos| + |values| <= reserved
              && Resolved(l') == Resolved(l) +
                 [Images(target, binding, if texture then SampledImage else SamplerOnly,
                         if texture then SampledInfos(values, native) else SamplerInfos(values, native))]
  {
    var first := |l.infos|;
    l' := l;
    ghost var all := if texture then SampledInfos(values, native) else SamplerInfos(values, native);
    var k := 0;
    while k < |values|
      invariant 0 <= k <= |values| && l'.writes == l.writes && l'.infos == l.infos + all[..k]
      invariant AllPresent(values[..k], if texture then native.views else native.samplers, texture)
    {
      var objects, handle := if texture then native.views else native.samplers, Handle(values[k], texture);
      if handle.None? || handle.value !in objects {
        return false, l';
      }
      var info := if texture then ImageInfo(0, objects[handle.value]) else ImageInfo(objects[handle.value], 0);
      assert info == all[k] && |l'.infos| < reserved;
      l' := l'.(infos := l'.infos + [info]);
      k := k + 1;
    }
    assert all[..k] == all && values[..k] == values;
    ImagesAppended(l, all, target, binding, if texture then SampledImage else SamplerOnly);
    var kind := if texture then SampledImage else SamplerOnly;
    l' := l'.(writes := l'.writes + [ImageWrite(target, binding, kind, first, |values|)]);
    ok := true;
  }

  /** The writes of one resource of a generated material: an image write, a sampler write, or both. */
  method WriteResource(l: WriteList, m: MaterialRecord, target: nat, r: ResourceBinding, native: Native,
                       ghost reserved: nat)
    returns (ok: bool, l': WriteList)
    requires InRange(l)
    requires |l.infos| + ResourceCount([r], true, 1) + ResourceCount([r], false, 1) <= reserved
    ensures ok <==> ResourceWritable(m, r, native)
    ensures InRange(l')
    ensures ok ==>
              && |l'.infos| == |l.infos| + ResourceCount([r], true, 1) + ResourceCount([r], false, 1)
              && Resolved(l') == Resolved(l) + ResourceContents(m, target, r, native)
  {
    l' := l;
    var state := StateFor(m.resources, r.name);
    if state.None? || state.value.resourceType != r.resourceType || |state.value.values| != r.arraySize {
      return false, l';
    }
    assert ResourceCount([r], true, 1) ==
           ResourceCount([r], true, 0) + if HasTexture(r.resourceType) then r.arraySize else 0;
    assert ResourceCount([r], false, 1) ==
           ResourceCount([r], false, 0) + if HasSampler(r.resourceType) then r.arraySize else 0;
    if HasTexture(r.resourceType) {
      ok, l' := WriteResources(l', target, r.textureBinding, state.value.values, native, true, reserved);
      if !ok {
        return;
      }
    }
    if HasSampler(r.resourceType) {
      ok, l' := WriteResources(l', target, r.samplerBinding, state.value.values, native, false, reserved);
      if !ok {
        return;
      }
    }
    ok := true;
  }

  /** The writes of one generated material. */
  method WriteGenerated(l: WriteList, e: Environment, i: nat, offset: nat, ghost reserved: nat)
    returns (ok: bool, l': WriteList)
    requires InRange(l) && i < |e.materials| == |e.artifacts| && e.layout.Sound() && e.artifacts[i].Some?
    requires offset == ParameterOffset(e.artifacts, e.layout.alignment, i)
    requires |l.infos| + InfosOf(e.artifacts[i]) <= reserved
    ensures ok <==> MaterialWritable(e, i)
    ensures InRange(l')
    ensures ok ==>
              && |l'.infos| == |l.infos| + InfosOf(e.artifacts[i])
              && Resolved(l') == Resolved(l) + MaterialContents(e, i)
  {
    hide InRange, ResourceWritable, ResourceCount, ResourceContents, ParameterOffset, AlignUp;
    NoResources(e, i);
    var a, m := e.artifacts[i].value, e.materials[i];
    BufferAppended(l, i, a.parameterBinding, e.generatedUniforms, offset, a.parameterSize);
    l' := l.(writes := l.writes + [BufferWrite(i, a.parameterBinding, e.generatedUniforms, offset, a.parameterSize)]);
    ghost var start := Resolved(l');
    var k := 0;
    while k < |a.resources|
      invariant 0 <= k <= |a.resources| && InRange(l')
      invariant forall j :: 0 <= j < k ==> ResourceWritable(m, a.resources[j], e.native)
      invariant |l'.infos| == |l.infos| + ResourceCount(a.resources, true, k) + ResourceCount(a.resources, false, k)
      invariant Resolved(l') == start + ResourcesContents(m, i, a.resources, e.native, k)
    {
      CountsGrow(a.resources, k);
      ok, l' := WriteResource(l', m, i, a.resources[k], e.native, reserved);
      if !ok {
        return;
      }
      k := k + 1;
    }
    var constants := AlignUp(e.layout.uniformSize, e.layout.alignment) * i;
    BufferAppended(l', i, a.constantsBinding, e.uniforms, constants, e.layout.uniformSize);
    l' := l'.(writes := l'.writes + [BufferWrite(i, a.constantsBinding, e.uniforms, constants, e.layout.uniformSize)]);
    ok := true;
  }

  lemma NoResources(e: Environment, i: nat)
    requires i < |e.materials| == |e.artifacts| && e.artifacts[i].Some?
    ensures ResourceCount(e.artifacts[i].value.resources, true, 0) == 0
    ensures ResourceCount(e.artifacts[i].value.resources, false, 0) == 0
  {
  }

  /** Image infos that one material's set takes. */
  function InfosOf(a: Option<Artifact>): nat {
    if a.None? then 2
    else ResourceCount(a.value.resources, true, |a.value.resources|) +
         ResourceCount(a.value.resources, false, |a.value.resources|)
  }

  lemma CountsGrow(rs: seq<ResourceBinding>, k: nat)
    requires k < |rs|
    ensures ResourceCount(rs, true, k + 1) == ResourceCount(rs, true, k) + ResourceCount([rs[k]], true, 1)
    ensures ResourceCount(rs, false, k + 1) == ResourceCount(rs, false, k) + ResourceCount([rs[k]], false, 1)
    ensures ResourceCount(rs, true, k + 1) <= ResourceCount(rs, true, |rs|)
    ensures ResourceCount(rs, false, k + 1) <= ResourceCount(rs, false, |rs|)
  {
    assert ResourceCount([rs[k]], true, 0) == 0 && ResourceCount([rs[k]], false, 0) == 0;
    CountMonotone(rs, true, k + 1, |rs|);
    CountMonotone(rs, false, k + 1, |rs|);
  }

  lemma {:induction false} CountMonotone(rs: seq<ResourceBinding>, texture: bool, m: nat, n: nat)
    requires m <= n <= |rs|
    ensures ResourceCount(rs, texture, m) <= ResourceCount(rs, texture, n)
  {
    if m < n {
      CountMonotone(rs, texture, m, n - 1);
    }
  }

  /** One combined image and sampler of a conventional material. */
  method WriteTexture(l: WriteList, e: Environment, i: nat, ref: Option<TextureRef>, binding: nat, ghost reserved: nat)
    returns (ok: bool, l': WriteList)
    requires InRange(l) && |l.infos| < reserved
    ensures ok <==> RefWritable(e, ref)
    ensures InRange(l')
    ensures ok ==>
              && |l'.infos| == |l.infos| + 1
              && Resolved(l') == Resolved(l) + [Images(i, binding, CombinedImageSampler, [TextureInfo(e, ref)])]
  {
    l' := l;
    var info := ImageInfo(e.native.fallbackSampler, e.native.fallbackView);
    if ref.Some? {
      if ref.value.texture >= |e.textures| || ref.value.sampler >= |e.samplers| {
        return false, l';
      }
      var texture, sampler := e.textures[ref.value.texture], e.samplers[ref.value.sampler];
      if texture !in e.native.views || sampler !in e.native.samplers {
        return false, l';
      }
      info := ImageInfo(e.native.samplers[sampler], e.native.views[texture]);
    }
    ImagesAppended(l, [info], i, binding, CombinedImageSampler);
    l' := WriteList(l.infos + [info], l.writes + [ImageWrite(i, binding, CombinedImageSampler, |l.infos|, 1)]);
    ok := true;
  }

  method WriteConventional(l: WriteList, e: Environment, i: nat, ghost reserved: nat) returns (ok: bool, l': WriteList)
    requires InRange(l) && i < |e.materials| == |e.artifacts| && e.layout.Sound() && e.artifacts[i].None?
    requires |l.infos| + InfosOf(e.artifacts[i]) <= reserved
    ensures ok <==> MaterialWritable(e, i)
    ensures InRange(l')
    ensures ok ==>
              && |l'.infos| == |l.infos| + InfosOf(e.artifacts[i])
              && Resolved(l') == Resolved(l) + MaterialContents(e, i)
  {
    ok, l' := WriteTexture(l, e, i, e.materials[i].base, e.layout.baseBinding, reserved);
    if !ok {
      return;
    }
    ok, l' := WriteTexture(l', e, i, e.materials[i].normal, e.layout.normalBinding, reserved);
    if !ok {
      return;
    }
    var constants := AlignUp(e.layout.uniformSize, e.layout.alignment) * i;
    BufferAppended(l', i, e.layout.constantsBinding, e.uniforms, constants, e.layout.uniformSize);
    var write := BufferWrite(i, e.layout.constantsBinding, e.uniforms, constants, e.layout.uniformSize);
    l' := l'.(writes := l'.writes + [write]);
  }

  /** The whole list, within the reservation at every push. */
  method BuildWrites(e: Environment, offsets: seq<nat>) returns (ok: bool, l: WriteList)
    requires |e.materials| == |e.artifacts| == |offsets| && e.layout.Sound()
    requires forall i :: 0 <= i < |offsets| ==> offsets[i] == ParameterOffset(e.artifacts, e.layout.alignment, i)
    ensures ok <==> forall i :: 0 <= i < |e.materials| ==> MaterialWritable(e, i)
    ensures ok && 2 * |e.artifacts| < UINT32_LIMIT ==> |l.infos| <= Reservation(e.artifacts)
    ensures ok ==>
              && InRange(l) && Resolved(l) == Contents(e, |e.materials|)
              && SetsShown(Resolved(l), e, offsets)
  {
    hide ParameterOffset, MaterialWritable, MaterialContents, InRange, SetsShown;
    l := WriteList([], []);
    ghost var reserved := Reserved(e.artifacts, |e.artifacts|);
    EmptyInRange();
    var i := 0;
    while i < |e.materials|
      invariant 0 <= i <= |e.materials| && InRange(l) && |l.infos| == InfoCount(e.artifacts, i)
      invariant forall j :: 0 <= j < i ==> MaterialWritable(e, j)
      invariant Resolved(l) == Contents(e, i)
    {
      InfosWithinReserved(e.artifacts, i + 1);
      if e.artifacts[i].Some? {
        ok, l := WriteGenerated(l, e, i, offsets[i], reserved);
      } else {
        ok, l := WriteConventional(l, e, i, reserved);
      }
      if !ok {
        return;
      }
      i := i + 1;
    }
    ReservationHolds(e.artifacts, |e.artifacts|);
    ContentsShow(e, offsets);
    ok := true;
  }

  lemma EmptyInRange()
    ensures InRange(WriteList([], []))
  {
  }
}
