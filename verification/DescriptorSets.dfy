/**
 What the writes of a rebuild mean, set by set and binding by binding: which native objects,
 which buffer ranges and which values of the material each of them names.
 */
module DescriptorSets {
  import opened Wrappers
  import opened DescriptorContents

  // ------------------------------------------------------------ One write

  /** The texture and the sampler that a reference names in the tables, or the fallback ones. */
  ghost predicate InfoShows(e: Environment, ref: Option<TextureRef>, info: ImageInfo) {
    if ref.None? then info.sampler == e.native.fallbackSampler && info.view == e.native.fallbackView
    else
      && ref.value.texture < |e.textures| && e.textures[ref.value.texture] in e.native.views
      && info.view == e.native.views[e.textures[ref.value.texture]]
      && ref.value.sampler < |e.samplers| && e.samplers[ref.value.sampler] in e.native.samplers
      && info.sampler == e.native.samplers[e.samplers[ref.value.sampler]]
  }

  ghost predicate TextureWrite(e: Environment, i: nat, binding: nat, ref: Option<TextureRef>, c: Content) {
    && c.Images? && c.target == i && c.binding == binding && c.kind == CombinedImageSampler
    && |c.infos| == 1 && InfoShows(e, ref, c.infos[0])
  }

  /** The constants of material i lie i aligned blocks into the buffer. */
  ghost predicate ConstantsWrite(e: Environment, i: nat, binding: nat, c: Content)
    requires e.layout.Sound()
  {
    && c.Uniform? && c.target == i && c.binding == binding && c.handle == e.uniforms
    && c.range == e.layout.uniformSize && c.offset == i * AlignUp(e.layout.uniformSize, e.layout.alignment)
  }

  ghost predicate ParametersWrite(e: Environment, i: nat, a: Artifact, offset: nat, c: Content) {
    && c.Uniform? && c.target == i && c.binding == a.parameterBinding && c.handle == e.generatedUniforms
    && c.offset == offset && c.range == a.parameterSize
  }

  /** State k is the first of the resource's name. */
  predicate FirstState(states: seq<ResourceState>, name: string, k: int) {
    0 <= k < |states| && states[k].name == name && forall j :: 0 <= j < k ==> states[j].name != name
  }

  /** The textures of a resource, value by value. */
  ghost predicate SampledWrite(m: MaterialRecord, native: Native, i: nat, r: ResourceBinding, c: Content) {
    && (r.resourceType.TextureResource? || r.resourceType.CombinedResource?)
    && c.Images? && c.target == i && c.binding == r.textureBinding && c.kind == SampledImage
    && |c.infos| == r.arraySize
    && exists k :: FirstState(m.resources, r.name, k) && TexturesShown(m.resources[k].values, native, c.infos)
  }

  ghost predicate TexturesShown(values: seq<ResourceValue>, native: Native, infos: seq<ImageInfo>) {
    && |infos| == |values|
    && forall v :: 0 <= v < |values| ==>
         && values[v].texture.Some? && values[v].texture.value in native.views
         && infos[v].view == native.views[values[v].texture.value] && infos[v].sampler == 0
  }

  /** The samplers of a resource, value by value. */
  ghost predicate SamplerWrite(m: MaterialRecord, native: Native, i: nat, r: ResourceBinding, c: Content) {
    && (r.resourceType.SamplerResource? || r.resourceType.CombinedResource?)
    && c.Images? && c.target == i && c.binding == r.samplerBinding && c.kind == SamplerOnly
    && |c.infos| == r.arraySize
    && exists k :: FirstState(m.resources, r.name, k) && SamplersShown(m.resources[k].values, native, c.infos)
  }

  ghost predicate SamplersShown(values: seq<ResourceValue>, native: Native, infos: seq<ImageInfo>) {
    && |infos| == |values|
    && forall v :: 0 <= v < |values| ==>
         && values[v].sampler.Some? && values[v].sampler.value in native.samplers
         && infos[v].sampler == native.samplers[values[v].sampler.value] && infos[v].view == 0
  }

  // ------------------------------------------------------------ One set

  /** A conventional material's writes: base texture, normal texture, constants. */
  ghost predicate ConventionalSet(cs: seq<Content>, e: Environment, i: nat)
    requires i < |e.materials| && e.layout.Sound()
  {
    && |cs| == 3
    && TextureWrite(e, i, e.layout.baseBinding, e.materials[i].base, cs[0])
    && TextureWrite(e, i, e.layout.normalBinding, e.materials[i].normal, cs[1])
    && ConstantsWrite(e, i, e.layout.constantsBinding, cs[2])
  }

  /** A generated material's writes: its parameter block first, its constants last, and between
      them those of its resources, every one of them and nothing else. */
  ghost predicate GeneratedSet(cs: seq<Content>, e: Environment, i: nat, a: Artifact, offset: nat)
    requires i < |e.materials| && e.layout.Sound()
  {
    && |cs| >= 2
    && ParametersWrite(e, i, a, offset, cs[0])
    && ResourceSet(cs[1..|cs| - 1], e.materials[i], e.native, i, a.resources)
    && ConstantsWrite(e, i, a.constantsBinding, cs[|cs| - 1])
  }

  ghost predicate ResourceSet(cs: seq<Content>, m: MaterialRecord, native: Native, i: nat, rs: seq<ResourceBinding>) {
    && (forall j :: 0 <= j < |cs| ==> SomeResource(m, native, i, rs, cs[j]))
    && (forall k :: 0 <= k < |rs| ==> ResourceShown(cs, m, native, i, rs[k]))
  }

  ghost predicate SomeResource(m: MaterialRecord, native: Native, i: nat, rs: seq<ResourceBinding>, c: Content) {
    exists k :: 0 <= k < |rs| && (SampledWrite(m, native, i, rs[k], c) || SamplerWrite(m, native, i, rs[k], c))
  }

  ghost predicate ResourceShown(cs: seq<Content>, m: MaterialRecord, native: Native, i: nat, r: ResourceBinding) {
    && (r.resourceType.TextureResource? || r.resourceType.CombinedResource? ==>
          exists c :: c in cs && SampledWrite(m, native, i, r, c))
    && (r.resourceType.SamplerResource? || r.resourceType.CombinedResource? ==>
          exists c :: c in cs && SamplerWrite(m, native, i, r, c))
  }

  /** The writes with target i are the n from position k on, and they are the set of material i. */
  ghost predicate SetAt(cs: seq<Content>, e: Environment, i: nat, offset: nat, k: nat, n: nat)
    requires i < |e.materials| == |e.artifacts| && e.layout.Sound()
  {
    && TargetsAt(cs, i, k, n)
    && if e.artifacts[i].None? then ConventionalSet(cs[k..k + n], e, i)
       else GeneratedSet(cs[k..k + n], e, i, e.artifacts[i].value, offset)
  }

  /** Every material's set is written. */
  ghost predicate SetsShown(cs: seq<Content>, e: Environment, offsets: seq<nat>)
    requires |e.materials| == |e.artifacts| == |offsets| && e.layout.Sound()
  {
    forall i :: 0 <= i < |e.materials| ==> SetShown(cs, e, i, offsets[i])
  }

  ghost predicate SetShown(cs: seq<Content>, e: Environment, i: nat, offset: nat)
    requires i < |e.materials| == |e.artifacts| && e.layout.Sound()
  {
    exists k: nat, n: nat :: SetAt(cs, e, i, offset, k, n)
  }

  // ------------------------------------------------------------ A full rebuild writes them

  lemma {:induction false} StateIsFirst(states: seq<ResourceState>, name: string)
    ensures StateFor(states, name).Some? ==>
              exists k :: FirstState(states, name, k) && StateFor(states, name) == Some(states[k])
  {
    if states != [] && states[0].name == name {
      assert FirstState(states, name, 0);
    } else if states != [] {
      StateIsFirst(states[1..], name);
      if k :| FirstState(states[1..], name, k) && StateFor(states[1..], name) == Some(states[1..][k]) {
        assert FirstState(states, name, k + 1);
      }
    }
  }

  lemma ResourceIsShown(m: MaterialRecord, native: Native, i: nat, r: ResourceBinding, cs: seq<Content>)
    requires ResourceWritable(m, r, native) && cs == ResourceContents(m, i, r, native)
    ensures ResourceShown(cs, m, native, i, r)
    ensures forall j :: 0 <= j < |cs| ==> SampledWrite(m, native, i, r, cs[j]) || SamplerWrite(m, native, i, r, cs[j])
  {
    hide StateFor;
    StateIsFirst(m.resources, r.name);
    var k :| FirstState(m.resources, r.name, k) && StateFor(m.resources, r.name) == Some(m.resources[k]);
    var values := m.resources[k].values;
    if HasTexture(r.resourceType) {
      assert TexturesShown(values, native, SampledInfos(values, native));
      assert SampledWrite(m, native, i, r, cs[0]) && cs[0] in cs;
    }
    if HasSampler(r.resourceType) {
      assert SamplersShown(values, native, SamplerInfos(values, native));
      assert SamplerWrite(m, native, i, r, cs[|cs| - 1]) && cs[|cs| - 1] in cs;
    }
  }

  lemma {:induction false} ResourcesAreShown(m: MaterialRecord, native: Native, i: nat, rs: seq<ResourceBinding>,
                                             n: nat)
    requires n <= |rs| && forall k :: 0 <= k < n ==> ResourceWritable(m, rs[k], native)
    ensures ResourceSet(ResourcesContents(m, i, rs, native, n), m, native, i, rs[..n])
  {
    hide ResourceWritable, ResourceContents, SampledWrite, SamplerWrite;
    if n > 0 {
      ResourcesAreShown(m, native, i, rs, n - 1);
      var earlier, own := ResourcesContents(m, i, rs, native, n - 1), ResourceContents(m, i, rs[n - 1], native);
      ResourceIsShown(m, native, i, rs[n - 1], own);
      SetGrows(earlier, own, m, native, i, rs, n);
    }
  }

  lemma SetGrows(earlier: seq<Content>, own: seq<Content>, m: MaterialRecord, native: Native, i: nat,
                 rs: seq<ResourceBinding>, n: nat)
    requires 0 < n <= |rs| && ResourceSet(earlier, m, native, i, rs[..n - 1])
    requires ResourceShown(own, m, native, i, rs[n - 1])
    requires forall j :: 0 <= j < |own| ==>
               SampledWrite(m, native, i, rs[n - 1], own[j]) || SamplerWrite(m, native, i, rs[n - 1], own[j])
    ensures ResourceSet(earlier + own, m, native, i, rs[..n])
  {
    hide SampledWrite, SamplerWrite;
    var cs := earlier + own;
    forall j | 0 <= j < |cs| ensures SomeResource(m, native, i, rs[..n], cs[j]) {
      if j < |earlier| {
        assert SomeResource(m, native, i, rs[..n - 1], earlier[j]);
        var k :| 0 <= k < n - 1 && (SampledWrite(m, native, i, rs[..n - 1][k], earlier[j]) ||
                                    SamplerWrite(m, native, i, rs[..n - 1][k], earlier[j]));
        assert rs[..n][k] == rs[..n - 1][k];
      } else {
        assert rs[..n][n - 1] == rs[n - 1] && cs[j] == own[j - |earlier|];
      }
    }
    forall k | 0 <= k < n ensures ResourceShown(cs, m, native, i, rs[..n][k]) {
      assert k < n - 1 ==> ResourceShown(earlier, m, native, i, rs[..n - 1][k]);
    }
  }

  lemma MaterialIsShown(e: Environment, i: nat)
    requires i < |e.materials| == |e.artifacts| && e.layout.Sound() && MaterialWritable(e, i)
    ensures var cs := MaterialContents(e, i);
            && (forall j :: 0 <= j < |cs| ==> cs[j].target == i)
            && if e.artifacts[i].None? then ConventionalSet(cs, e, i)
               else GeneratedSet(cs, e, i, e.artifacts[i].value, ParameterOffset(e.artifacts, e.layout.alignment, i))
  {
    hide ParameterOffset, AlignUp, ResourceWritable, SampledWrite, SamplerWrite;
    if e.artifacts[i].Some? {
      var cs, rs := MaterialContents(e, i), e.artifacts[i].value.resources;
      ResourcesAreShown(e.materials[i], e.native, i, rs, |rs|);
      assert rs[..|rs|] == rs;
      var own := ResourcesContents(e.materials[i], i, rs, e.native, |rs|);
      assert cs[1..|cs| - 1] == own;
      TargetsOfResources(own, e.materials[i], e.native, i, rs);
    }
  }

  lemma TargetsOfResources(cs: seq<Content>, m: MaterialRecord, native: Native, i: nat, rs: seq<ResourceBinding>)
    requires ResourceSet(cs, m, native, i, rs)
    ensures forall j :: 0 <= j < |cs| ==> cs[j].target == i
  {
    forall j | 0 <= j < |cs| ensures cs[j].target == i {
      assert SomeResource(m, native, i, rs, cs[j]);
    }
  }

  /** Exactly the n writes from position k on have target i. */
  ghost predicate TargetsAt(cs: seq<Content>, i: nat, k: nat, n: nat) {
    k + n <= |cs| && forall j :: 0 <= j < |cs| ==> (cs[j].target == i <==> k <= j < k + n)
  }

  lemma TargetsLast(earlier: seq<Content>, own: seq<Content>, i: nat)
    requires forall j :: 0 <= j < |earlier| ==> earlier[j].target != i
    requires forall j :: 0 <= j < |own| ==> own[j].target == i
    ensures TargetsAt(earlier + own, i, |earlier|, |own|)
    ensures (earlier + own)[|earlier|..|earlier| + |own|] == own
  {
  }

  lemma TargetsStay(earlier: seq<Content>, more: seq<Content>, i: nat, k: nat, n: nat)
    requires TargetsAt(earlier, i, k, n) && forall j :: 0 <= j < |more| ==> more[j].target != i
    ensures TargetsAt(earlier + more, i, k, n) && (earlier + more)[k..k + n] == earlier[k..k + n]
  {
  }

  /** Where the writes of material i lie. */
  lemma {:induction false} SetPlace(e: Environment, n: nat, i: nat) returns (k: nat)
    requires i < n <= |e.materials| == |e.artifacts| && e.layout.Sound()
    requires forall j :: 0 <= j < n ==> MaterialWritable(e, j)
    ensures var cs, own := Contents(e, n), MaterialContents(e, i);
            TargetsAt(cs, i, k, |own|) && cs[k..k + |own|] == own
  {
    hide MaterialContents, MaterialWritable, ConventionalSet, GeneratedSet;
    MaterialIsShown(e, n - 1);
    if i == n - 1 {
      TargetsBelow(e, n - 1);
      TargetsLast(Contents(e, n - 1), MaterialContents(e, n - 1), i);
      k := |Contents(e, n - 1)|;
    } else {
      k := SetPlace(e, n - 1, i);
      TargetsStay(Contents(e, n - 1), MaterialContents(e, n - 1), i, k, |MaterialContents(e, i)|);
    }
  }

  lemma {:induction false} TargetsBelow(e: Environment, n: nat)
    requires n <= |e.materials| == |e.artifacts| && e.layout.Sound()
    requires forall j :: 0 <= j < n ==> MaterialWritable(e, j)
    ensures forall j :: 0 <= j < |Contents(e, n)| ==> Contents(e, n)[j].target < n
  {
    hide MaterialContents, MaterialWritable;
    if n > 0 {
      TargetsBelow(e, n - 1);
      MaterialIsShown(e, n - 1);
    }
  }

  lemma ContentsShow(e: Environment, offsets: seq<nat>)
    requires |e.materials| == |e.artifacts| == |offsets| && e.layout.Sound()
    requires forall i :: 0 <= i < |offsets| ==> offsets[i] == ParameterOffset(e.artifacts, e.layout.alignment, i)
    requires forall i :: 0 <= i < |e.materials| ==> MaterialWritable(e, i)
    ensures SetsShown(Contents(e, |e.materials|), e, offsets)
  {
    hide MaterialContents, MaterialWritable, Contents, ParameterOffset, ConventionalSet, GeneratedSet;
    forall i | 0 <= i < |e.materials|
      ensures SetShown(Contents(e, |e.materials|), e, i, offsets[i])
    {
      var k := SetPlace(e, |e.materials|, i);
      MaterialIsShown(e, i);
      assert offsets[i] == ParameterOffset(e.artifacts, e.layout.alignment, i);
      assert SetAt(Contents(e, |e.materials|), e, i, offsets[i], k, |MaterialContents(e, i)|);
    }
  }

  /** With differing bindings there is one write to each: the base binding shows the base texture,
      the normal binding the normal texture, and the constants binding the constants. */
  lemma OneWriteEach(cs: seq<Content>, e: Environment, offsets: seq<nat>, i: nat, j: nat)
    requires |e.materials| == |e.artifacts| == |offsets| && e.layout.Sound() && SetsShown(cs, e, offsets)
    requires i < |e.materials| && e.artifacts[i].None? && j < |cs| && cs[j].target == i
    requires e.layout.baseBinding != e.layout.normalBinding && e.layout.baseBinding != e.layout.constantsBinding
    requires e.layout.normalBinding != e.layout.constantsBinding
    ensures forall x :: 0 <= x < |cs| && cs[x].target == i && cs[x].binding == cs[j].binding ==> x == j
    ensures cs[j].binding == e.layout.baseBinding ==>
              TextureWrite(e, i, e.layout.baseBinding, e.materials[i].base, cs[j])
    ensures cs[j].binding == e.layout.normalBinding ==>
              TextureWrite(e, i, e.layout.normalBinding, e.materials[i].normal, cs[j])
    ensures cs[j].binding == e.layout.constantsBinding ==> ConstantsWrite(e, i, e.layout.constantsBinding, cs[j])
    ensures cs[j].binding in {e.layout.baseBinding, e.layout.normalBinding, e.layout.constantsBinding}
  {
    hide InfoShows, AlignUp;
    assert SetShown(cs, e, i, offsets[i]);
    var k: nat, n: nat :| SetAt(cs, e, i, offsets[i], k, n);
    assert forall x :: k <= x < k + n ==> cs[x] == cs[k..k + n][x - k];
  }

  // ------------------------------------------------------------ Where the blocks lie

  /** The first generated block starts at 0, every other at the first aligned position after the
      one before it, and the total is the end of the last. */
  ghost predicate BlocksPlaced(artifacts: seq<Option<Artifact>>, alignment: nat, offsets: seq<nat>, total: nat)
    requires alignment > 0
  {
    && |offsets| == |artifacts|
    && (forall i :: 0 <= i < |artifacts| && artifacts[i].None? ==> offsets[i] == 0)
    && (forall i :: 0 <= i < |artifacts| && artifacts[i].Some? ==> offsets[i] % alignment == 0)
    && (forall i :: 0 <= i < |artifacts| && artifacts[i].Some? && NoneBetween(artifacts, -1, i) ==> offsets[i] == 0)
    && (forall p, i :: 0 <= p < i < |artifacts| && artifacts[p].Some? && artifacts[i].Some? &&
                       NoneBetween(artifacts, p, i) ==>
          var end := offsets[p] + artifacts[p].value.parameterSize;
          end <= offsets[i] < end + alignment)
    && (NoneBetween(artifacts, -1, |artifacts|) ==> total == 0)
    && (forall p :: 0 <= p < |artifacts| && artifacts[p].Some? && NoneBetween(artifacts, p, |artifacts|) ==>
          total == offsets[p] + artifacts[p].value.parameterSize)
  }

  predicate NoneBetween(artifacts: seq<Option<Artifact>>, p: int, i: int)
    requires -1 <= p && i <= |artifacts|
  {
    forall q :: p < q < i ==> artifacts[q].None?
  }

  lemma {:induction false} EndAfterLast(artifacts: seq<Option<Artifact>>, alignment: nat, p: int, n: nat)
    requires alignment > 0 && -1 <= p < n <= |artifacts|
    requires NoneBetween(artifacts, p, n) && (p >= 0 ==> artifacts[p].Some?)
    ensures ParameterEnd(artifacts, alignment, n) ==
            if p < 0 then 0 else ParameterOffset(artifacts, alignment, p) + artifacts[p].value.parameterSize
  {
    if n > p + 1 {
      EndAfterLast(artifacts, alignment, p, n - 1);
    }
  }

  lemma OffsetsPlaced(artifacts: seq<Option<Artifact>>, alignment: nat, offsets: seq<nat>)
    requires alignment > 0 && |offsets| == |artifacts|
    requires forall i :: 0 <= i < |offsets| ==> offsets[i] == ParameterOffset(artifacts, alignment, i)
    ensures BlocksPlaced(artifacts, alignment, offsets, ParameterEnd(artifacts, alignment, |artifacts|))
  {
    hide ParameterEnd, AlignUp, NoneBetween;
    if NoneBetween(artifacts, -1, |artifacts|) {
      EndAfterLast(artifacts, alignment, -1, |artifacts|);
    }
    forall p | 0 <= p < |artifacts| && artifacts[p].Some? && NoneBetween(artifacts, p, |artifacts|)
      ensures ParameterEnd(artifacts, alignment, |artifacts|) == offsets[p] + artifacts[p].value.parameterSize
    {
      EndAfterLast(artifacts, alignment, p, |artifacts|);
    }
    forall i | 0 <= i < |artifacts| && artifacts[i].Some? && NoneBetween(artifacts, -1, i) ensures offsets[i] == 0 {
      EndAfterLast(artifacts, alignment, -1, i);
      ZeroAligned(alignment);
    }
    forall p, i | 0 <= p < i < |artifacts| && artifacts[p].Some? && artifacts[i].Some? && NoneBetween(artifacts, p, i)
      ensures var end := offsets[p] + artifacts[p].value.parameterSize; end <= offsets[i] < end + alignment
    {
      EndAfterLast(artifacts, alignment, p, i);
    }
  }

  lemma ZeroAligned(alignment: nat)
    requires alignment > 0
    ensures AlignUp(0, alignment) == 0
  {
  }
}
