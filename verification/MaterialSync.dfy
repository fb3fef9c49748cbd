/**
 What one SyncMaterial call does to an entry and to the world, as pure values: both slots
 are filled, the descriptor is written, and slots left without a binding are released.
 */
module MaterialSync {
  import opened Wrappers
  import opened RenderWorlds
  import opened SceneState
  import opened SceneMaterials

  /** A parsed material: texture payloads are absent where it has no such texture. */
  datatype ParsedMaterial = ParsedMaterial(
    parameters: int, features: int,
    texture: Option<int>, sampler: int, normalTexture: Option<int>, normalSampler: int)

  /** The entry after its descriptor is written and its unbound slots are released. */
  function Finished(e: MaterialEntry, d: MaterialDescriptor): MaterialEntry {
    var e1 := e.(descriptor := d);
    var e2 := if d.base.None? then WithoutSlot(e1, BaseColor) else e1;
    if d.normal.None? then WithoutSlot(e2, NormalMap) else e2
  }

  function FinishedWorld(w: World, e: MaterialEntry, d: MaterialDescriptor): World {
    var w1 := w.(materials := w.materials[e.handle := d]);
    var w2 := if d.base.None? then WithoutSlotHandles(w1, e, BaseColor) else w1;
    if d.normal.None? then WithoutSlotHandles(w2, e, NormalMap) else w2
  }

  predicate BindingShows(b: Option<TextureBinding>, texture: Option<int>, sampler: int, w: World) {
    && b.Some? == texture.Some?
    && (b.Some? ==>
          && b.value.texture in w.textures && w.textures[b.value.texture] == texture.value
          && b.value.sampler in w.samplers && w.samplers[b.value.sampler] == sampler)
  }

  /** The world shows the parsed material under the entry's handle. */
  predicate Shows(e: MaterialEntry, parsed: ParsedMaterial, w: World) {
    && e.handle in w.materials && w.materials[e.handle] == e.descriptor
    && e.descriptor.parameters == parsed.parameters && e.descriptor.features == parsed.features
    && BindingShows(e.descriptor.base, parsed.texture, parsed.sampler, w)
    && BindingShows(e.descriptor.normal, parsed.normalTexture, parsed.normalSampler, w)
  }

  lemma ShowsPlainly(e: MaterialEntry, parsed: ParsedMaterial, w: World)
    requires Shows(e, parsed, w)
    ensures e.handle in w.materials
    ensures var d := w.materials[e.handle];
            && d.parameters == parsed.parameters && d.features == parsed.features
            && (d.base.Some? <==> parsed.texture.Some?) && (d.normal.Some? <==> parsed.normalTexture.Some?)
    ensures forall b :: w.materials[e.handle].base == Some(b) ==>
              && b.texture in w.textures && Some(w.textures[b.texture]) == parsed.texture
              && b.sampler in w.samplers && w.samplers[b.sampler] == parsed.sampler
    ensures forall b :: w.materials[e.handle].normal == Some(b) ==>
              && b.texture in w.textures && Some(w.textures[b.texture]) == parsed.normalTexture
              && b.sampler in w.samplers && w.samplers[b.sampler] == parsed.normalSampler
  {
  }

  /** A known entry keeps its references and handles; a slot that stays bound keeps its pair. */
  predicate Keeps(e: MaterialEntry, e': MaterialEntry) {
    && e'.references == e.references && e'.handle == e.handle
    && (e.texture.Some? && e'.descriptor.base.Some? ==> e'.texture == e.texture && e'.sampler == e.sampler)
    && (e.normalTexture.Some? && e'.descriptor.normal.Some? ==>
          e'.normalTexture == e.normalTexture && e'.normalSampler == e.normalSampler)
  }

  function HandleSet(slot: Option<Handle>): set<Handle> {
    if slot.Some? then {slot.value} else {}
  }

  function TexturesOf(e: MaterialEntry): set<Handle> {
    HandleSet(e.texture) + HandleSet(e.normalTexture)
  }

  function SamplersOf(e: MaterialEntry): set<Handle> {
    HandleSet(e.sampler) + HandleSet(e.normalSampler)
  }

  /** All but `mine` stays as it was, and all that is new is in `mine'`. */
  predicate OthersKept(m: map<Handle, int>, m': map<Handle, int>, mine: set<Handle>, mine': set<Handle>) {
    && (forall h :: h in m && h !in mine ==> h in m' && m'[h] == m[h])
    && (forall h :: h in m' && h !in mine' ==> h in m)
    && (forall h :: h in m && h in mine' ==> h in mine)
  }

  /** Nothing differs but the entry's material, textures and samplers. */
  predicate OnlyEntryChanged(w: World, w': World, materials: map<string, MaterialEntry>, e: MaterialEntry,
                             key: string) {
    var textures := if key in materials then TexturesOf(materials[key]) else {};
    var samplers := if key in materials then SamplersOf(materials[key]) else {};
    && w'.meshes == w.meshes && w'.instances == w.instances
    && w'.materials == w.materials[e.handle := e.descriptor]
    && OthersKept(w.textures, w'.textures, textures, TexturesOf(e))
    && OthersKept(w.samplers, w'.samplers, samplers, SamplersOf(e))
  }

  /** One slot of entry e is filled from the parsed texture and sampler, or left alone. */
  predicate SlotAcquired(w: World, e: MaterialEntry, slot: TextureSlot, texture: Option<int>, sampler: int, w': World,
                         e': MaterialEntry, binding: Option<TextureBinding>)
  {
    if texture.None? then binding.None? && w' == w && e' == e
    else
      && binding.Some?
      && var t, s := binding.value.texture, binding.value.sampler;
      && (if TextureOf(e, slot).Some? then Some(t) == TextureOf(e, slot) else t == w.next && w.next < w'.next)
      && (if SamplerOf(e, slot).Some? then Some(s) == SamplerOf(e, slot) else w.next <= s < w'.next)
      && e' == WithSampler(WithTexture(e, slot, Some(t)), slot, Some(s))
      && w.next <= w'.next
      && w' == w.(textures := w.textures[t := texture.value], samplers := w.samplers[s := sampler], next := w'.next)
  }

  /** The entry's slots hold live, distinct handles below the next one to be issued. */
  predicate SlotsSound(e: MaterialEntry, w: World) {
    && (e.texture.Some? <==> e.sampler.Some?) && (e.normalTexture.Some? <==> e.normalSampler.Some?)
    && (e.texture.Some? ==> e.texture != e.normalTexture) && (e.sampler.Some? ==> e.sampler != e.normalSampler)
    && (e.texture.Some? ==> e.texture.value in w.textures) && (e.sampler.Some? ==> e.sampler.value in w.samplers)
    && (e.normalTexture.Some? ==> e.normalTexture.value in w.textures)
    && (e.normalSampler.Some? ==> e.normalSampler.value in w.samplers)
    && BelowNext(w.textures.Keys, w.next) && BelowNext(w.samplers.Keys, w.next)
  }

  lemma EntrySlotsSound(w: World, materials: map<string, MaterialEntry>, own: MaterialOwners, fallback: Handle,
                        key: string)
    requires MaterialSide(w, materials, own, fallback) && key in materials
    ensures SlotsSound(materials[key].(authored := true), w)
  {
    assert EntryHeld(key, materials[key], w, own, fallback);
  }

  lemma NewSlotsSound(w: World, materials: map<string, MaterialEntry>, own: MaterialOwners, fallback: Handle)
    requires MaterialSide(w, materials, own, fallback)
    ensures SlotsSound(NewEntry(0, true), w) && NO_HANDLE !in w.materials && BelowNext(w.materials.Keys, w.next)
  {
  }

  lemma SlotFilled(w: World, e: MaterialEntry, slot: TextureSlot, texture: Option<int>, sampler: int, w': World,
                   e': MaterialEntry, b: Option<TextureBinding>)
    requires SlotAcquired(w, e, slot, texture, sampler, w', e', b) && SlotsSound(e, w)
    ensures SlotsSound(e', w')
    ensures BindingShows(b, texture, sampler, w')
    ensures SlotCovers(TextureOf(e', slot), SamplerOf(e', slot), b)
    ensures TextureOf(e, slot).Some? || b.None? ==>
              TextureOf(e', slot) == TextureOf(e, slot) && SamplerOf(e', slot) == SamplerOf(e, slot)
    ensures e' == WithSampler(WithTexture(e, slot, TextureOf(e', slot)), slot, SamplerOf(e', slot))
    ensures forall t :: t in w.textures && Some(t) != TextureOf(e', slot) ==>
              t in w'.textures && w'.textures[t] == w.textures[t]
    ensures forall s :: s in w.samplers && Some(s) != SamplerOf(e', slot) ==>
              s in w'.samplers && w'.samplers[s] == w.samplers[s]
    ensures w'.materials == w.materials && w'.meshes == w.meshes && w'.instances == w.instances && w.next <= w'.next
  {
  }

  /** Filling both slots makes the bindings show the parsed payloads. */
  lemma SlotsFilled(w: World, e: MaterialEntry, w1: World, e1: MaterialEntry, w2: World, e2: MaterialEntry,
                    base: Option<TextureBinding>, normal: Option<TextureBinding>, parsed: ParsedMaterial)
    requires SlotAcquired(w, e, BaseColor, parsed.texture, parsed.sampler, w1, e1, base)
    requires SlotAcquired(w1, e1, NormalMap, parsed.normalTexture, parsed.normalSampler, w2, e2, normal)
    requires SlotsSound(e, w)
    ensures SlotsSound(e2, w2)
    ensures BindingShows(base, parsed.texture, parsed.sampler, w2)
    ensures BindingShows(normal, parsed.normalTexture, parsed.normalSampler, w2)
    ensures SlotCovers(e2.texture, e2.sampler, base) && SlotCovers(e2.normalTexture, e2.normalSampler, normal)
    ensures w2.materials == w.materials && w2.meshes == w.meshes && w2.instances == w.instances && w.next <= w2.next
    ensures e2 == e.(texture := e2.texture, sampler := e2.sampler, normalTexture := e2.normalTexture,
                     normalSampler := e2.normalSampler)
    ensures e.texture.Some? || base.None? ==> e2.texture == e.texture && e2.sampler == e.sampler
    ensures e.normalTexture.Some? || normal.None? ==>
              e2.normalTexture == e.normalTexture && e2.normalSampler == e.normalSampler
  {
    hide SlotAcquired;
    SlotFilled(w, e, BaseColor, parsed.texture, parsed.sampler, w1, e1, base);
    SlotFilled(w1, e1, NormalMap, parsed.normalTexture, parsed.normalSampler, w2, e2, normal);
  }

  /** Filling both slots touches no other texture or sampler. */
  lemma SlotsFilledFrame(w: World, e: MaterialEntry, w1: World, e1: MaterialEntry, w2: World, e2: MaterialEntry,
                         base: Option<TextureBinding>, normal: Option<TextureBinding>, parsed: ParsedMaterial)
    requires SlotAcquired(w, e, BaseColor, parsed.texture, parsed.sampler, w1, e1, base)
    requires SlotAcquired(w1, e1, NormalMap, parsed.normalTexture, parsed.normalSampler, w2, e2, normal)
    requires SlotsSound(e, w)
    ensures OthersKept(w.textures, w2.textures, TexturesOf(e), TexturesOf(e2))
    ensures OthersKept(w.samplers, w2.samplers, SamplersOf(e), SamplersOf(e2))
  {
    hide SlotAcquired, SlotsSound, TexturesOf, SamplersOf, OthersKept;
    SlotFilled(w, e, BaseColor, parsed.texture, parsed.sampler, w1, e1, base);
    SlotFilledFrame(w, e, BaseColor, parsed.texture, parsed.sampler, w1, e1, base);
    SlotFilledFrame(w1, e1, NormalMap, parsed.normalTexture, parsed.normalSampler, w2, e2, normal);
    KeptTwice(w.textures, w1.textures, w2.textures, TexturesOf(e), TexturesOf(e1), TexturesOf(e2));
    KeptTwice(w.samplers, w1.samplers, w2.samplers, SamplersOf(e), SamplersOf(e1), SamplersOf(e2));
  }

  lemma SlotFilledFrame(w: World, e: MaterialEntry, slot: TextureSlot, texture: Option<int>, sampler: int, w': World,
                        e': MaterialEntry, b: Option<TextureBinding>)
    requires SlotAcquired(w, e, slot, texture, sampler, w', e', b) && SlotsSound(e, w)
    ensures OthersKept(w.textures, w'.textures, TexturesOf(e), TexturesOf(e')) && TexturesOf(e) <= TexturesOf(e')
    ensures OthersKept(w.samplers, w'.samplers, SamplersOf(e), SamplersOf(e')) && SamplersOf(e) <= SamplersOf(e')
  {
  }

  lemma KeptTwice(m: map<Handle, int>, m1: map<Handle, int>, m2: map<Handle, int>, mine: set<Handle>,
                  mine1: set<Handle>, mine2: set<Handle>)
    requires OthersKept(m, m1, mine, mine1) && OthersKept(m1, m2, mine1, mine2) && mine1 <= mine2
    ensures OthersKept(m, m2, mine, mine2)
  {
  }

  /** The slots hold exactly what the descriptor binds. */
  predicate SlotsExact(e: MaterialEntry, d: MaterialDescriptor) {
    SlotBinds(e.texture, e.sampler, d.base) && SlotBinds(e.normalTexture, e.normalSampler, d.normal)
  }

  predicate Coverage(e: MaterialEntry, d: MaterialDescriptor) {
    SlotCovers(e.texture, e.sampler, d.base) && SlotCovers(e.normalTexture, e.normalSampler, d.normal)
  }

  /** Both slots of entry e are filled for a parsed material, which descriptor d describes. */
  predicate Filled(w: World, e: MaterialEntry, parsed: ParsedMaterial, w': World, e': MaterialEntry,
                   d: MaterialDescriptor)
  {
    && d.parameters == parsed.parameters && d.features == parsed.features
    && BindingShows(d.base, parsed.texture, parsed.sampler, w')
    && BindingShows(d.normal, parsed.normalTexture, parsed.normalSampler, w')
    && SlotsSound(e', w')
    && SlotCovers(e'.texture, e'.sampler, d.base) && SlotCovers(e'.normalTexture, e'.normalSampler, d.normal)
    && OthersKept(w.textures, w'.textures, TexturesOf(e), TexturesOf(e'))
    && OthersKept(w.samplers, w'.samplers, SamplersOf(e), SamplersOf(e'))
    && w'.materials == w.materials && w'.meshes == w.meshes && w'.instances == w.instances && w.next <= w'.next
    && e' == e.(texture := e'.texture, sampler := e'.sampler, normalTexture := e'.normalTexture,
                normalSampler := e'.normalSampler)
    && (e.texture.Some? || d.base.None? ==> e'.texture == e.texture && e'.sampler == e.sampler)
    && (e.normalTexture.Some? || d.normal.None? ==>
          e'.normalTexture == e.normalTexture && e'.normalSampler == e.normalSampler)
  }

  lemma BothFilled(w: World, e: MaterialEntry, w1: World, e1: MaterialEntry, w2: World, e2: MaterialEntry,
                   base: Option<TextureBinding>, normal: Option<TextureBinding>, parsed: ParsedMaterial)
    requires SlotAcquired(w, e, BaseColor, parsed.texture, parsed.sampler, w1, e1, base)
    requires SlotAcquired(w1, e1, NormalMap, parsed.normalTexture, parsed.normalSampler, w2, e2, normal)
    requires SlotsSound(e, w)
    ensures Filled(w, e, parsed, w2, e2, MaterialDescriptor(parsed.parameters, parsed.features, base, normal))
  {
    hide SlotAcquired, SlotsSound, OthersKept, BindingShows, TexturesOf, SamplersOf;
    SlotsFilled(w, e, w1, e1, w2, e2, base, normal, parsed);
    SlotsFilledFrame(w, e, w1, e1, w2, e2, base, normal, parsed);
  }

  lemma KeptReleased(m: map<Handle, int>, m2: map<Handle, int>, mine: set<Handle>, mine2: set<Handle>,
                     removed: set<Handle>)
    requires OthersKept(m, m2, mine, mine2) && removed <= mine2
    ensures OthersKept(m, m2 - removed, mine, mine2 - removed)
  {
  }

  /** The texture and the sampler a slot gives up when it ends up without a binding. */
  function Unbound(slot: Option<Handle>, b: Option<TextureBinding>): set<Handle> {
    if b.None? && slot.Some? then {slot.value} else {}
  }

  lemma FinishedTextures(w: World, e: MaterialEntry, d: MaterialDescriptor)
    requires SlotsSound(e, w)
    ensures FinishedWorld(w, e, d).textures ==
            w.textures - (Unbound(e.texture, d.base) + Unbound(e.normalTexture, d.normal))
    ensures TexturesOf(Finished(e, d)) ==
            TexturesOf(e) - (Unbound(e.texture, d.base) + Unbound(e.normalTexture, d.normal))
  {
    BothDropped(w.textures, e.texture, d.base, e.normalTexture, d.normal);
    hide SlotsSound, Unbound, WithoutHandle;
  }

  lemma FinishedSamplers(w: World, e: MaterialEntry, d: MaterialDescriptor)
    requires SlotsSound(e, w)
    ensures FinishedWorld(w, e, d).samplers ==
            w.samplers - (Unbound(e.sampler, d.base) + Unbound(e.normalSampler, d.normal))
    ensures SamplersOf(Finished(e, d)) ==
            SamplersOf(e) - (Unbound(e.sampler, d.base) + Unbound(e.normalSampler, d.normal))
  {
    BothDropped(w.samplers, e.sampler, d.base, e.normalSampler, d.normal);
    hide SlotsSound, Unbound, WithoutHandle;
  }

  /** Dropping the handles of unbound slots one after the other, from a map and from a set. */
  lemma BothDropped(m: map<Handle, int>, a: Option<Handle>, x: Option<TextureBinding>, b: Option<Handle>,
                    y: Option<TextureBinding>)
    requires a.Some? ==> a != b
    ensures var m1 := if x.None? then WithoutHandle(m, a) else m;
            (if y.None? then WithoutHandle(m1, b) else m1) == m - (Unbound(a, x) + Unbound(b, y))
    ensures HandleSet(if x.None? then None else a) + HandleSet(if y.None? then None else b) ==
            HandleSet(a) + HandleSet(b) - (Unbound(a, x) + Unbound(b, y))
  {
  }

  /** Releasing the unbound slots keeps what the bindings show. */
  lemma FinishedShows(w: World, e: MaterialEntry, d: MaterialDescriptor, parsed: ParsedMaterial)
    requires SlotsSound(e, w)
    requires BindingShows(d.base, parsed.texture, parsed.sampler, w)
    requires BindingShows(d.normal, parsed.normalTexture, parsed.normalSampler, w)
    requires SlotCovers(e.texture, e.sampler, d.base) && SlotCovers(e.normalTexture, e.normalSampler, d.normal)
    requires d.parameters == parsed.parameters && d.features == parsed.features
    ensures Shows(Finished(e, d), parsed, FinishedWorld(w, e, d))
  {
  }

  lemma KnownSynced(w: World, w2: World, e2: MaterialEntry, d: MaterialDescriptor, parsed: ParsedMaterial,
                    materials: map<string, MaterialEntry>, key: string)
    requires key in materials && Filled(w, materials[key].(authored := true), parsed, w2, e2, d)
    ensures var w', e' := FinishedWorld(w2, e2, d), Finished(e2, d);
            && Shows(e', parsed, w') && Keeps(materials[key], e') && OnlyEntryChanged(w, w', materials, e', key)
            && w.next <= w'.next && e'.authored
  {
    hide SlotsSound, OthersKept, BindingShows, Shows, TexturesOf, SamplersOf;
    var e := materials[key].(authored := true);
    FinishedShows(w2, e2, d, parsed);
    FinishedTextures(w2, e2, d);
    FinishedSamplers(w2, e2, d);
    SlotsOf(materials[key], e, e2);
    KeptReleased(w.textures, w2.textures, TexturesOf(e), TexturesOf(e2),
                 Unbound(e2.texture, d.base) + Unbound(e2.normalTexture, d.normal));
    KeptReleased(w.samplers, w2.samplers, SamplersOf(e), SamplersOf(e2),
                 Unbound(e2.sampler, d.base) + Unbound(e2.normalSampler, d.normal));
  }

  lemma SlotsOf(e0: MaterialEntry, e: MaterialEntry, e2: MaterialEntry)
    requires e == e0.(authored := true)
    ensures TexturesOf(e) == TexturesOf(e0) && SamplersOf(e) == SamplersOf(e0)
    ensures forall b :: Unbound(e2.texture, b) <= TexturesOf(e2) && Unbound(e2.normalTexture, b) <= TexturesOf(e2)
    ensures forall b :: Unbound(e2.sampler, b) <= SamplersOf(e2) && Unbound(e2.normalSampler, b) <= SamplersOf(e2)
  {
  }

  lemma NewSynced(w: World, w2: World, e2: MaterialEntry, d: MaterialDescriptor, parsed: ParsedMaterial,
                  materials: map<string, MaterialEntry>, key: string)
    requires key !in materials && Filled(w, NewEntry(0, true), parsed, w2, e2, d)
    requires BelowNext(w.materials.Keys, w.next)
    ensures var w' := w2.(materials := w2.materials[w2.next := d], next := w2.next + 1);
            var e' := e2.(handle := w2.next, descriptor := d);
            && Shows(e', parsed, w') && OnlyEntryChanged(w, w', materials, e', key)
            && w.next <= w'.next && e'.authored && e'.references == 0 && e'.handle !in w.materials
            && SlotsExact(e2, d)
  {
    hide SlotsSound, OthersKept;
    var e, e' := NewEntry(0, true), e2.(handle := w2.next, descriptor := d);
    assert TexturesOf(e) == {} && SamplersOf(e) == {};
    assert TexturesOf(e') == TexturesOf(e2) && SamplersOf(e') == SamplersOf(e2);
  }
}
