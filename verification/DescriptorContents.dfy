/**
 What material descriptor sets contain: for every material the writes a full rebuild makes,
 how many descriptors they need, and where generated parameter blocks lie.
 */
module DescriptorContents {
  import opened Wrappers
  import opened Arithmetic
  import P = MaterialPacking

  datatype ResourceType = TextureResource | SamplerResource | CombinedResource | OtherResource

  datatype ResourceBinding = ResourceBinding(
    name: string, resourceType: ResourceType, arraySize: nat, textureBinding: nat, samplerBinding: nat)

  /** Registered once under a unique module key, and never changed. */
  datatype Artifact = Artifact(
    moduleKey: string, parameterSize: P.Word, parameterBinding: nat, constantsBinding: nat,
    parameters: seq<P.Binding>, resources: seq<ResourceBinding>)

  datatype ResourceValue = ResourceValue(texture: Option<nat>, sampler: Option<nat>)

  datatype ResourceState = ResourceState(name: string, resourceType: ResourceType, values: seq<ResourceValue>)

  /** Positions in the texture and sampler tables. */
  datatype TextureRef = TextureRef(texture: nat, sampler: nat)

  /** What a material module declares. */
  datatype ParameterLayout = ParameterLayout(name: string, valueType: P.ValueType, arraySize: P.Word)

  datatype ResourceLayout = ResourceLayout(name: string, resourceType: ResourceType, arraySize: nat)

  datatype Module = Module(key: string, parameters: seq<ParameterLayout>, resources: seq<ResourceLayout>)

  datatype MaterialRecord = MaterialRecord(
    base: Option<TextureRef>, normal: Option<TextureRef>, generated: Option<Module>, parameters: seq<P.Entry>,
    resources: seq<ResourceState>)

  /** The native objects behind texture and sampler handles; 0 is no object. */
  datatype Native = Native(views: map<nat, nat>, samplers: map<nat, nat>, fallbackView: nat, fallbackSampler: nat)

  datatype ImageInfo = ImageInfo(sampler: nat, view: nat)

  datatype ImageKind = CombinedImageSampler | SampledImage | SamplerOnly

  /** One write: descriptors of one set, with the objects or the buffer range they point to. */
  datatype Content =
    | Images(target: nat, binding: nat, kind: ImageKind, infos: seq<ImageInfo>)
    | Uniform(target: nat, binding: nat, handle: nat, offset: nat, range: nat)

  /** Constants of the device and of the shader interface. */
  datatype Layout = Layout(
    baseBinding: nat, normalBinding: nat, constantsBinding: nat, uniformSize: nat, alignment: nat)
  {
    predicate Sound() {
      alignment > 0
    }
  }

  /** Everything the sets depend on. */
  datatype Environment = Environment(
    materials: seq<MaterialRecord>, textures: seq<nat>, samplers: seq<nat>, artifacts: seq<Option<Artifact>>,
    native: Native, uniforms: nat, generatedUniforms: nat, layout: Layout)

  // ------------------------------------------------------------ Aligned blocks

  /** Rounds up to a multiple; the source divides and multiplies. */
  function AlignUp(value: nat, alignment: nat): (r: nat)
    requires alignment > 0
    ensures r % alignment == 0 && value <= r < value + alignment
  {
    var q := (value + alignment - 1) / alignment;
    Multiple(q, alignment);
    q * alignment
  }

  /** Where generated parameters end after the first n materials. */
  function ParameterEnd(artifacts: seq<Option<Artifact>>, alignment: nat, n: nat): nat
    requires n <= |artifacts| && alignment > 0
  {
    if n == 0 then 0
    else if artifacts[n - 1].None? then ParameterEnd(artifacts, alignment, n - 1)
    else AlignUp(ParameterEnd(artifacts, alignment, n - 1), alignment) + artifacts[n - 1].value.parameterSize
  }

  /** Where the parameters of material i start; 0 for a conventional one. */
  function ParameterOffset(artifacts: seq<Option<Artifact>>, alignment: nat, i: nat): nat
    requires i < |artifacts| && alignment > 0
  {
    if artifacts[i].None? then 0 else AlignUp(ParameterEnd(artifacts, alignment, i), alignment)
  }

  lemma {:induction false} ParameterEndGrows(artifacts: seq<Option<Artifact>>, alignment: nat, m: nat, n: nat)
    requires m <= n <= |artifacts| && alignment > 0
    ensures ParameterEnd(artifacts, alignment, m) <= ParameterEnd(artifacts, alignment, n)
  {
    if m < n {
      ParameterEndGrows(artifacts, alignment, m, n - 1);
    }
  }

  /** Blocks are aligned, inside the total, and one ends before the next begins. */
  lemma ParameterBlocksApart(artifacts: seq<Option<Artifact>>, alignment: nat, i: nat, j: nat)
    requires alignment > 0 && i < j < |artifacts| && artifacts[i].Some? && artifacts[j].Some?
    ensures ParameterOffset(artifacts, alignment, i) % alignment == 0
    ensures ParameterOffset(artifacts, alignment, i) + artifacts[i].value.parameterSize <=
            ParameterOffset(artifacts, alignment, j)
    ensures ParameterOffset(artifacts, alignment, j) + artifacts[j].value.parameterSize <=
            ParameterEnd(artifacts, alignment, |artifacts|)
  {
    ParameterEndGrows(artifacts, alignment, i + 1, j);
    ParameterEndGrows(artifacts, alignment, j + 1, |artifacts|);
  }

  // ------------------------------------------------------------ Contents

  function LookUp(m: map<nat, nat>, key: Option<nat>): nat {
    if key.Some? && key.value in m then m[key.value] else 0
  }

  function StateFor(states: seq<ResourceState>, name: string): (s: Option<ResourceState>)
  {
    if states == [] then None
    else if states[0].name == name then Some(states[0])
    else StateFor(states[1..], name)
  }

  function Values(m: MaterialRecord, r: ResourceBinding): seq<ResourceValue> {
    var s := StateFor(m.resources, r.name);
    if s.Some? then s.value.values else []
  }

  function SampledInfos(values: seq<ResourceValue>, native: Native): seq<ImageInfo> {
    seq(|values|, i requires 0 <= i < |values| => ImageInfo(0, LookUp(native.views, values[i].texture)))
  }

  function SamplerInfos(values: seq<ResourceValue>, native: Native): seq<ImageInfo> {
    seq(|values|, i requires 0 <= i < |values| => ImageInfo(LookUp(native.samplers, values[i].sampler), 0))
  }

  predicate HasTexture(t: ResourceType) {
    t.TextureResource? || t.CombinedResource?
  }

  predicate HasSampler(t: ResourceType) {
    t.SamplerResource? || t.CombinedResource?
  }

  function ResourceContents(m: MaterialRecord, target: nat, r: ResourceBinding, native: Native): seq<Content> {
    (if HasTexture(r.resourceType)
     then [Images(target, r.textureBinding, SampledImage, SampledInfos(Values(m, r), native))] else []) +
    (if HasSampler(r.resourceType)
     then [Images(target, r.samplerBinding, SamplerOnly, SamplerInfos(Values(m, r), native))] else [])
  }

  function ResourcesContents(m: MaterialRecord, target: nat, rs: seq<ResourceBinding>, native: Native, n: nat):
    seq<Content>
    requires n <= |rs|
  {
    if n == 0 then []
    else ResourcesContents(m, target, rs, native, n - 1) + ResourceContents(m, target, rs[n - 1], native)
  }

  function TextureInfo(e: Environment, ref: Option<TextureRef>): ImageInfo {
    if ref.Some? && ref.value.texture < |e.textures| && ref.value.sampler < |e.samplers| then
      ImageInfo(LookUp(e.native.samplers, Some(e.samplers[ref.value.sampler])),
                LookUp(e.native.views, Some(e.textures[ref.value.texture])))
    else ImageInfo(e.native.fallbackSampler, e.native.fallbackView)
  }

  /** The writes of one material's set. */
  function MaterialContents(e: Environment, i: nat): seq<Content>
    requires i < |e.materials| == |e.artifacts| && e.layout.Sound()
  {
    var constants := AlignUp(e.layout.uniformSize, e.layout.alignment) * i;
    if e.artifacts[i].Some? then
      var a := e.artifacts[i].value;
      [Uniform(i, a.parameterBinding, e.generatedUniforms, ParameterOffset(e.artifacts, e.layout.alignment, i),
               a.parameterSize)] +
      ResourcesContents(e.materials[i], i, a.resources, e.native, |a.resources|) +
      [Uniform(i, a.constantsBinding, e.uniforms, constants, e.layout.uniformSize)]
    else
      [Images(i, e.layout.baseBinding, CombinedImageSampler, [TextureInfo(e, e.materials[i].base)]),
       Images(i, e.layout.normalBinding, CombinedImageSampler, [TextureInfo(e, e.materials[i].normal)]),
       Uniform(i, e.layout.constantsBinding, e.uniforms, constants, e.layout.uniformSize)]
  }

  /** The writes of the first n sets. */
  function Contents(e: Environment, n: nat): seq<Content>
    requires n <= |e.materials| == |e.artifacts| && e.layout.Sound()
  {
    if n == 0 then []
    else Contents(e, n - 1) + MaterialContents(e, n - 1)
  }

  // ------------------------------------------------------------ When the writes succeed

  predicate ResourceWritable(m: MaterialRecord, r: ResourceBinding, native: Native) {
    var s := StateFor(m.resources, r.name);
    && s.Some? && s.value.resourceType == r.resourceType && |s.value.values| == r.arraySize
    && (HasTexture(r.resourceType) ==> AllPresent(s.value.values, native.views, true))
    && (HasSampler(r.resourceType) ==> AllPresent(s.value.values, native.samplers, false))
  }

  function Handle(v: ResourceValue, texture: bool): Option<nat> {
    if texture then v.texture else v.sampler
  }

  predicate AllPresent(values: seq<ResourceValue>, m: map<nat, nat>, texture: bool) {
    forall i :: 0 <= i < |values| ==> Handle(values[i], texture).Some? && Handle(values[i], texture).value in m
  }

  predicate RefWritable(e: Environment, ref: Option<TextureRef>) {
    ref.Some? ==>
      && ref.value.texture < |e.textures| && ref.value.sampler < |e.samplers|
      && e.textures[ref.value.texture] in e.native.views && e.samplers[ref.value.sampler] in e.native.samplers
  }

  predicate MaterialWritable(e: Environment, i: nat)
    requires i < |e.materials| == |e.artifacts|
  {
    if e.artifacts[i].Some? then
      forall k :: 0 <= k < |e.artifacts[i].value.resources| ==>
        ResourceWritable(e.materials[i], e.artifacts[i].value.resources[k], e.native)
    else RefWritable(e, e.materials[i].base) && RefWritable(e, e.materials[i].normal)
  }

  // ------------------------------------------------------------ How many descriptors

  /** Descriptors of one kind in a pool or in a set. */
  datatype Counts = Counts(combined: nat, uniform: nat, sampled: nat, samplers: nat)

  function Plus(a: Counts, b: Counts): Counts {
    Counts(a.combined + b.combined, a.uniform + b.uniform, a.sampled + b.sampled, a.samplers + b.samplers)
  }

  predicate Within(a: Counts, b: Counts) {
    a.combined <= b.combined && a.uniform <= b.uniform && a.sampled <= b.sampled && a.samplers <= b.samplers
  }

  /** Sampled images and samplers of the first n resources. */
  function ResourceCount(rs: seq<ResourceBinding>, texture: bool, n: nat): nat
    requires n <= |rs|
  {
    if n == 0 then 0
    else ResourceCount(rs, texture, n - 1) +
         if (if texture then HasTexture(rs[n - 1].resourceType) else HasSampler(rs[n - 1].resourceType))
         then rs[n - 1].arraySize else 0
  }

  /** What the layout of one set asks for. */
  function SetNeeds(a: Option<Artifact>): Counts {
    if a.None? then Counts(2, 1, 0, 0)
    else Counts(0, 2, ResourceCount(a.value.resources, true, |a.value.resources|),
                ResourceCount(a.value.resources, false, |a.value.resources|))
  }

  function Needs(artifacts: seq<Option<Artifact>>, n: nat): Counts
    requires n <= |artifacts|
  {
    if n == 0 then Counts(0, 0, 0, 0) else Plus(Needs(artifacts, n - 1), SetNeeds(artifacts[n - 1]))
  }

  const UINT32_LIMIT: nat := 0x1_0000_0000

  /** Sums and products of counts are kept in 32 bits. */
  function Wrapped(n: nat): (r: nat)
    ensures r < UINT32_LIMIT && (n < UINT32_LIMIT ==> r == n)
  {
    n % UINT32_LIMIT
  }

  function ArtifactCount(a: Artifact, texture: bool): nat {
    ResourceCount(a.resources, texture, |a.resources|)
  }

  /** The largest count over the registered artifacts. */
  function MaximumCount(registered: seq<Artifact>, texture: bool, n: nat): nat
    requires n <= |registered|
  {
    if n == 0 then 0
    else
      var m, c := MaximumCount(registered, texture, n - 1), Wrapped(ArtifactCount(registered[n - 1], texture));
      if c > m then c else m
  }

  /** The sizes of a pool created for a number of materials. */
  function PoolSizes(registered: seq<Artifact>, materials: nat): Counts {
    Counts(Wrapped(2 * materials), Wrapped(2 * materials),
           Wrapped(materials * MaximumCount(registered, true, |registered|)),
           Wrapped(materials * MaximumCount(registered, false, |registered|)))
  }

  /** The largest 32-bit count over the registered artifacts, 0 if there are none. */
  ghost predicate IsLargestCount(registered: seq<Artifact>, texture: bool, m: nat) {
    && (forall k :: 0 <= k < |registered| ==> ArtifactCount(registered[k], texture) % 0x1_0000_0000 <= m)
    && (m == 0 || exists k :: 0 <= k < |registered| && m == ArtifactCount(registered[k], texture) % 0x1_0000_0000)
  }

  /** For each material two combined samplers, two uniform buffers, and as many images and samplers
      as the neediest artifact has, in 32 bits. */
  lemma PoolSizesExactly(registered: seq<Artifact>, materials: nat) returns (images: nat, samplers: nat)
    ensures IsLargestCount(registered, true, images) && IsLargestCount(registered, false, samplers)
    ensures PoolSizes(registered, materials) ==
            Counts((2 * materials) % 0x1_0000_0000, (2 * materials) % 0x1_0000_0000,
                   (materials * images) % 0x1_0000_0000, (materials * samplers) % 0x1_0000_0000)
  {
    images, samplers := MaximumCount(registered, true, |registered|), MaximumCount(registered, false, |registered|);
    MaximumIsLargest(registered, true);
    MaximumIsLargest(registered, false);
  }

  lemma MaximumIsLargest(registered: seq<Artifact>, texture: bool)
    ensures IsLargestCount(registered, texture, MaximumCount(registered, texture, |registered|))
  {
    hide ArtifactCount;
    forall k | 0 <= k < |registered|
      ensures Wrapped(ArtifactCount(registered[k], texture)) <= MaximumCount(registered, texture, |registered|)
    {
      MaximumCovers(registered, texture, |registered|, k);
    }
    MaximumReached(registered, texture, |registered|);
  }

  lemma {:induction false} MaximumReached(registered: seq<Artifact>, texture: bool, n: nat)
    requires n <= |registered|
    ensures MaximumCount(registered, texture, n) == 0 ||
            exists k :: 0 <= k < n && MaximumCount(registered, texture, n) ==
                                      ArtifactCount(registered[k], texture) % 0x1_0000_0000
  {
    hide ArtifactCount;
    if n > 0 {
      MaximumReached(registered, texture, n - 1);
    }
  }

  /** No size of the pool needs more than 32 bits. */
  ghost predicate NoWrap(registered: seq<Artifact>, materials: nat) {
    && 2 * materials < UINT32_LIMIT
    && (forall k, texture :: 0 <= k < |registered| ==> materials * ArtifactCount(registered[k], texture) < UINT32_LIMIT)
  }

  lemma {:induction false} MaximumCovers(registered: seq<Artifact>, texture: bool, n: nat, k: nat)
    requires k < n <= |registered|
    ensures Wrapped(ArtifactCount(registered[k], texture)) <= MaximumCount(registered, texture, n)
  {
    if k < n - 1 {
      MaximumCovers(registered, texture, n - 1, k);
    }
  }

  /** The maximum is reached by some artifact, so no product with it wraps either. */
  lemma {:induction false} MaximumFits(registered: seq<Artifact>, materials: nat, texture: bool, n: nat)
    requires n <= |registered| && NoWrap(registered, materials)
    ensures materials * MaximumCount(registered, texture, n) < UINT32_LIMIT
  {
    hide ArtifactCount;
    if n > 0 {
      MaximumFits(registered, materials, texture, n - 1);
      var c := ArtifactCount(registered[n - 1], texture);
      ProductGrows(Wrapped(c), c, materials);
      assert materials * Wrapped(c) == Wrapped(c) * materials <= c * materials == materials * c < UINT32_LIMIT;
    }
  }

  /** One set never needs more than a pool provides for one material. */
  lemma SetNeedsWithin(registered: seq<Artifact>, a: Option<Artifact>)
    requires (a.Some? ==> a.value in registered) && NoWrap(registered, 1)
    ensures Within(SetNeeds(a), Counts(2, 2, MaximumCount(registered, true, |registered|),
                                       MaximumCount(registered, false, |registered|)))
  {
    if a.Some? {
      var k :| 0 <= k < |registered| && registered[k] == a.value;
      assert forall texture :: 1 * ArtifactCount(registered[k], texture) < UINT32_LIMIT;
      MaximumCovers(registered, true, |registered|, k);
      MaximumCovers(registered, false, |registered|, k);
    }
  }

  lemma {:induction false} NeedsWithin(registered: seq<Artifact>, artifacts: seq<Option<Artifact>>, n: nat)
    requires n <= |artifacts| && NoWrap(registered, 1)
    requires forall i :: 0 <= i < |artifacts| && artifacts[i].Some? ==> artifacts[i].value in registered
    ensures Within(Needs(artifacts, n), Counts(2 * n, 2 * n, n * MaximumCount(registered, true, |registered|),
                                               n * MaximumCount(registered, false, |registered|)))
  {
    hide MaximumCount, SetNeeds, NoWrap;
    if n > 0 {
      NeedsWithin(registered, artifacts, n - 1);
      SetNeedsWithin(registered, artifacts[n - 1]);
      ProductStep(n, MaximumCount(registered, true, |registered|));
      ProductStep(n, MaximumCount(registered, false, |registered|));
    }
  }

  /** A pool created for some number of materials suffices for any mix of at most as many. */
  lemma PoolSuffices(registered: seq<Artifact>, artifacts: seq<Option<Artifact>>, capacity: nat)
    requires |artifacts| <= capacity && capacity > 0 && NoWrap(registered, capacity)
    requires forall i :: 0 <= i < |artifacts| && artifacts[i].Some? ==> artifacts[i].value in registered
    ensures Within(Needs(artifacts, |artifacts|), PoolSizes(registered, capacity))
  {
    hide MaximumCount, ArtifactCount, Needs;
    assert NoWrap(registered, 1) by {
      forall k, texture | 0 <= k < |registered| ensures 1 * ArtifactCount(registered[k], texture) < UINT32_LIMIT {
        ProductGrows(1, capacity, ArtifactCount(registered[k], texture));
      }
    }
    NeedsWithin(registered, artifacts, |artifacts|);
    ProductGrows(|artifacts|, capacity, MaximumCount(registered, true, |registered|));
    ProductGrows(|artifacts|, capacity, MaximumCount(registered, false, |registered|));
    MaximumFits(registered, capacity, true, |registered|);
    MaximumFits(registered, capacity, false, |registered|);
  }

  function Repeated(a: Option<Artifact>, n: nat): (r: seq<Option<Artifact>>)
    ensures |r| == n && forall i :: 0 <= i < n ==> r[i] == a
  {
    seq(n, _ => a)
  }

  lemma {:induction false} RepeatedNeeds(a: Option<Artifact>, n: nat, k: nat)
    requires k <= n
    ensures Needs(Repeated(a, n), k) ==
            Counts(k * SetNeeds(a).combined, k * SetNeeds(a).uniform, k * SetNeeds(a).sampled, k * SetNeeds(a).samplers)
  {
    hide SetNeeds;
    if k > 0 {
      RepeatedNeeds(a, n, k - 1);
      ProductStep(k, SetNeeds(a).combined);
      ProductStep(k, SetNeeds(a).uniform);
      ProductStep(k, SetNeeds(a).sampled);
      ProductStep(k, SetNeeds(a).samplers);
    }
  }

  /** If a size wraps, some mix of that many materials does not fit the pool. */
  lemma WrappedPoolFails(registered: seq<Artifact>, capacity: nat) returns (artifacts: seq<Option<Artifact>>)
    requires capacity > 0 && !NoWrap(registered, capacity)
    ensures |artifacts| == capacity
    ensures forall i :: 0 <= i < |artifacts| && artifacts[i].Some? ==> artifacts[i].value in registered
    ensures !Within(Needs(artifacts, |artifacts|), PoolSizes(registered, capacity))
  {
    if 2 * capacity >= UINT32_LIMIT {
      artifacts := Repeated(None, capacity);
      RepeatedNeeds(None, capacity, capacity);
    } else {
      var k, texture :| 0 <= k < |registered| && capacity * ArtifactCount(registered[k], texture) >= UINT32_LIMIT;
      artifacts := Repeated(Some(registered[k]), capacity);
      RepeatedNeeds(Some(registered[k]), capacity, capacity);
    }
  }

  /** Image infos of the first n sets: two for a conventional one. */
  function InfoCount(artifacts: seq<Option<Artifact>>, n: nat): nat
    requires n <= |artifacts|
  {
    if n == 0 then 0
    else InfoCount(artifacts, n - 1) +
         if artifacts[n - 1].None? then 2
         else ResourceCount(artifacts[n - 1].value.resources, true, |artifacts[n - 1].value.resources|) +
              ResourceCount(artifacts[n - 1].value.resources, false, |artifacts[n - 1].value.resources|)
  }

  /** Two infos for every material, and those of the first n selected artifacts. */
  function Reserved(artifacts: seq<Option<Artifact>>, n: nat): nat
    requires n <= |artifacts|
  {
    if n == 0 then 2 * |artifacts|
    else Reserved(artifacts, n - 1) +
         if artifacts[n - 1].None? then 0
         else ResourceCount(artifacts[n - 1].value.resources, true, |artifacts[n - 1].value.resources|) +
              ResourceCount(artifacts[n - 1].value.resources, false, |artifacts[n - 1].value.resources|)
  }

  lemma {:induction false} InfosWithinReserved(artifacts: seq<Option<Artifact>>, n: nat)
    requires n <= |artifacts|
    ensures InfoCount(artifacts, n) + 2 * (|artifacts| - n) <= Reserved(artifacts, n)
    ensures Reserved(artifacts, n) <= Reserved(artifacts, |artifacts|)
  {
    if n > 0 {
      InfosWithinReserved(artifacts, n - 1);
    }
    ReservedGrows(artifacts, n, |artifacts|);
  }

  lemma {:induction false} ReservedGrows(artifacts: seq<Option<Artifact>>, m: nat, n: nat)
    requires m <= n <= |artifacts|
    ensures Reserved(artifacts, m) <= Reserved(artifacts, n)
  {
    if m < n {
      ReservedGrows(artifacts, m, n - 1);
    }
  }

  /** The reservation; doubling the number of materials happens in 32 bits. */
  function Reservation(artifacts: seq<Option<Artifact>>): nat {
    ReservedGrows(artifacts, 0, |artifacts|);
    Wrapped(2 * |artifacts|) + (Reserved(artifacts, |artifacts|) - 2 * |artifacts|)
  }

  /** Where doubling does not wrap, no prefix of the sets outgrows the reservation; where it
      does, that many conventional materials would. */
  lemma ReservationHolds(artifacts: seq<Option<Artifact>>, n: nat)
    requires n <= |artifacts|
    ensures 2 * |artifacts| < UINT32_LIMIT ==> InfoCount(artifacts, n) <= Reservation(artifacts)
    ensures 2 * |artifacts| >= UINT32_LIMIT ==>
              var plain := Repeated(None, |artifacts|);
              InfoCount(plain, |plain|) > Reservation(plain)
  {
    hide ResourceCount;
    InfosWithinReserved(artifacts, n);
    ConventionalInfos(|artifacts|, |artifacts|);
  }

  lemma {:induction false} ConventionalInfos(n: nat, k: nat)
    requires k <= n
    ensures InfoCount(Repeated(None, n), k) == 2 * k && Reserved(Repeated(None, n), k) == 2 * n
  {
    if k > 0 {
      ConventionalInfos(n, k - 1);
    }
  }
}
