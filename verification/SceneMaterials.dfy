/**
 The steps that change one material entry.  While a step is in progress the entry is open:
 its slots may hold textures its descriptor does not bind yet, or no longer binds.
 */
module SceneMaterials {
  import opened Wrappers
  import opened RenderWorlds
  import opened SceneState

  type Who = (string, TextureSlot)

  predicate SlotOpen(texture: Option<Handle>, sampler: Option<Handle>, who: Who, w: World, own: MaterialOwners) {
    && (texture.Some? ==>
          texture.value in w.textures && texture.value in own.texture && own.texture[texture.value] == who)
    && (sampler.Some? ==>
          sampler.value in w.samplers && sampler.value in own.sampler && own.sampler[sampler.value] == who)
  }

  /** The slot holds whatever the binding uses. */
  predicate SlotCovers(texture: Option<Handle>, sampler: Option<Handle>, b: Option<TextureBinding>) {
    b.Some? ==> texture == Some(b.value.texture) && sampler == Some(b.value.sampler)
  }

  predicate EntryOpen(k: string, e: MaterialEntry, w: World, own: MaterialOwners, fallback: Handle) {
    && e.handle != fallback
    && SlotOpen(e.texture, e.sampler, (k, BaseColor), w, own)
    && SlotOpen(e.normalTexture, e.normalSampler, (k, NormalMap), w, own)
    && (e.handle in w.materials ==>
          && e.handle in own.material && own.material[e.handle] == k && w.materials[e.handle] == e.descriptor
          && SlotCovers(e.texture, e.sampler, e.descriptor.base)
          && SlotCovers(e.normalTexture, e.normalSampler, e.descriptor.normal))
  }

  /** The material side with the entry of `key` open. */
  ghost predicate OpenSide(w: World, materials: map<string, MaterialEntry>, own: MaterialOwners, fallback: Handle,
                           key: string)
  {
    && MaterialsCovered(w, materials, own, fallback)
    && key in materials && EntryOpen(key, materials[key], w, own, fallback)
    && (forall k {:trigger EntryHeld(k, materials[k], w, own, fallback)} :: k in materials && k != key ==>
          EntryHeld(k, materials[k], w, own, fallback))
  }

  function WithTexture(e: MaterialEntry, slot: TextureSlot, t: Option<Handle>): MaterialEntry {
    if slot.BaseColor? then e.(texture := t) else e.(normalTexture := t)
  }

  function WithSampler(e: MaterialEntry, slot: TextureSlot, s: Option<Handle>): MaterialEntry {
    if slot.BaseColor? then e.(sampler := s) else e.(normalSampler := s)
  }

  function WithoutSlot(e: MaterialEntry, slot: TextureSlot): MaterialEntry {
    WithSampler(WithTexture(e, slot, None), slot, None)
  }

  function WithoutHandle(m: map<Handle, int>, h: Option<Handle>): map<Handle, int> {
    if h.None? then m else m - {h.value}
  }

  function WithoutSlotHandles(w: World, e: MaterialEntry, slot: TextureSlot): World {
    w.(textures := WithoutHandle(w.textures, TextureOf(e, slot)),
       samplers := WithoutHandle(w.samplers, SamplerOf(e, slot)))
  }

  function BindingOf(d: MaterialDescriptor, slot: TextureSlot): Option<TextureBinding> {
    if slot.BaseColor? then d.base else d.normal
  }

  // ------------------------------------------------------------ Opening and closing

  lemma OpenKnown(w: World, materials: map<string, MaterialEntry>, own: MaterialOwners, fallback: Handle, key: string,
                  e: MaterialEntry)
    requires MaterialSide(w, materials, own, fallback) && key in materials
    requires e == materials[key].(references := e.references, authored := e.authored)
    ensures materials[key].handle in w.materials
    ensures OpenSide(w, materials[key := e], own, fallback, key)
  {
    var materials' := materials[key := e];
    assert EntryHeld(key, materials[key], w, own, fallback);
    forall k | k in materials' && k != key ensures EntryHeld(k, materials'[k], w, own, fallback) {
      assert EntryHeld(k, materials[k], w, own, fallback);
    }
    CoveredFrame(w, w, materials, e, own, own, fallback, key);
  }

  function NewEntry(references: nat, authored: bool): MaterialEntry {
    MaterialEntry(NO_HANDLE, references, authored, PLACEHOLDER, None, None, None, None)
  }

  lemma OpenNew(w: World, materials: map<string, MaterialEntry>, own: MaterialOwners, fallback: Handle, key: string,
                references: nat, authored: bool)
    requires MaterialSide(w, materials, own, fallback) && key !in materials
    ensures OpenSide(w, materials[key := NewEntry(references, authored)], own, fallback, key)
  {
    var materials' := materials[key := NewEntry(references, authored)];
    forall k | k in materials' && k != key ensures EntryHeld(k, materials'[k], w, own, fallback) {
      assert EntryHeld(k, materials[k], w, own, fallback);
    }
    CoveredFrame(w, w, materials, NewEntry(references, authored), own, own, fallback, key);
  }

  lemma CloseEntry(w: World, materials: map<string, MaterialEntry>, own: MaterialOwners, fallback: Handle, key: string)
    requires OpenSide(w, materials, own, fallback, key)
    requires var e := materials[key];
             && e.handle in w.materials
             && SlotBinds(e.texture, e.sampler, e.descriptor.base)
             && SlotBinds(e.normalTexture, e.normalSampler, e.descriptor.normal)
    ensures MaterialSide(w, materials, own, fallback)
  {
    forall k | k in materials ensures EntryHeld(k, materials[k], w, own, fallback) {
      assert k != key ==> EntryHeld(k, materials[k], w, own, fallback);
    }
  }

  /** Erases an entry whose material, textures and samplers are all gone. */
  lemma EraseEntry(w: World, materials: map<string, MaterialEntry>, own: MaterialOwners, fallback: Handle, key: string)
    requires OpenSide(w, materials, own, fallback, key)
    requires var e := materials[key];
             && e.handle !in w.materials
             && e.texture.None? && e.sampler.None? && e.normalTexture.None? && e.normalSampler.None?
    ensures MaterialSide(w, materials - {key}, own, fallback)
  {
    var materials' := materials - {key};
    forall k | k in materials' ensures EntryHeld(k, materials'[k], w, own, fallback) {
      assert EntryHeld(k, materials[k], w, own, fallback);
    }
    forall h | h in w.materials ensures MaterialCovered(h, own, materials', fallback) {
      assert MaterialCovered(h, own, materials, fallback);
    }
    forall t | t in w.textures ensures TextureCovered(t, own, materials') {
      assert TextureCovered(t, own, materials);
    }
    forall s | s in w.samplers ensures SamplerCovered(s, own, materials') {
      assert SamplerCovered(s, own, materials);
    }
  }

  // ------------------------------------------------------------ Frames

  /** Handle h needs no new argument: it is the entry's own, or nothing about it changed. */
  ghost predicate MaterialKept(h: Handle, w: World, own: MaterialOwners, own': MaterialOwners, e: Option<MaterialEntry>,
                               e': MaterialEntry, key: string)
  {
    || (h in own'.material && own'.material[h] == key && e'.handle == h)
    || (&& h in w.materials
        && (h in own.material ==> h in own'.material && own'.material[h] == own.material[h])
        && (e.Some? && e.value.handle == h ==> e'.handle == h))
  }

  ghost predicate TextureKept(t: Handle, w: World, own: MaterialOwners, own': MaterialOwners, e: Option<MaterialEntry>,
                              e': MaterialEntry, key: string)
  {
    || (t in own'.texture && own'.texture[t].0 == key && TextureOf(e', own'.texture[t].1) == Some(t))
    || (&& t in w.textures
        && (t in own.texture ==>
              && t in own'.texture && own'.texture[t] == own.texture[t]
              && (e.Some? && own.texture[t].0 == key && TextureOf(e.value, own.texture[t].1) == Some(t) ==>
                    TextureOf(e', own.texture[t].1) == Some(t))))
  }

  ghost predicate SamplerKept(s: Handle, w: World, own: MaterialOwners, own': MaterialOwners, e: Option<MaterialEntry>,
                              e': MaterialEntry, key: string)
  {
    || (s in own'.sampler && own'.sampler[s].0 == key && SamplerOf(e', own'.sampler[s].1) == Some(s))
    || (&& s in w.samplers
        && (s in own.sampler ==>
              && s in own'.sampler && own'.sampler[s] == own.sampler[s]
              && (e.Some? && own.sampler[s].0 == key && SamplerOf(e.value, own.sampler[s].1) == Some(s) ==>
                    SamplerOf(e', own.sampler[s].1) == Some(s))))
  }

  function Known(materials: map<string, MaterialEntry>, key: string): Option<MaterialEntry> {
    if key in materials then Some(materials[key]) else None
  }

  lemma CoveredFrame(w: World, w': World, materials: map<string, MaterialEntry>, e': MaterialEntry,
                     own: MaterialOwners, own': MaterialOwners, fallback: Handle, key: string)
    requires MaterialsCovered(w, materials, own, fallback)
    requires fallback in w'.materials && w'.materials[fallback] == w.materials[fallback] && w.next <= w'.next
    requires NO_HANDLE !in w'.materials
    requires BelowNext(w'.materials.Keys, w'.next) && BelowNext(w'.textures.Keys, w'.next)
    requires BelowNext(w'.samplers.Keys, w'.next)
    requires forall h :: h in w'.materials && h != fallback ==>
               MaterialKept(h, w, own, own', Known(materials, key), e', key)
    requires forall t :: t in w'.textures ==> TextureKept(t, w, own, own', Known(materials, key), e', key)
    requires forall s :: s in w'.samplers ==> SamplerKept(s, w, own, own', Known(materials, key), e', key)
    ensures MaterialsCovered(w', materials[key := e'], own', fallback)
  {
    var materials' := materials[key := e'];
    forall h | h in w'.materials ensures MaterialCovered(h, own', materials', fallback) {
      assert h != fallback ==> MaterialKept(h, w, own, own', Known(materials, key), e', key);
      assert h in w.materials ==> MaterialCovered(h, own, materials, fallback);
    }
    forall t | t in w'.textures ensures TextureCovered(t, own', materials') {
      assert TextureKept(t, w, own, own', Known(materials, key), e', key);
      assert t in w.textures ==> TextureCovered(t, own, materials);
    }
    forall s | s in w'.samplers ensures SamplerCovered(s, own', materials') {
      assert SamplerKept(s, w, own, own', Known(materials, key), e', key);
      assert s in w.samplers ==> SamplerCovered(s, own, materials);
    }
  }

  lemma OtherEntriesHeld(w: World, w': World, materials: map<string, MaterialEntry>, own: MaterialOwners,
                         own': MaterialOwners, fallback: Handle, key: string)
    requires forall k {:trigger EntryHeld(k, materials[k], w, own, fallback)} :: k in materials && k != key ==>
               EntryHeld(k, materials[k], w, own, fallback)
    requires forall h :: h in w.materials && h in own.material && own.material[h] != key ==>
               && h in w'.materials && w'.materials[h] == w.materials[h]
               && h in own'.material && own'.material[h] == own.material[h]
    requires forall t :: t in w.textures && t in own.texture && own.texture[t].0 != key ==>
               t in w'.textures && t in own'.texture && own'.texture[t] == own.texture[t]
    requires forall s :: s in w.samplers && s in own.sampler && own.sampler[s].0 != key ==>
               s in w'.samplers && s in own'.sampler && own'.sampler[s] == own.sampler[s]
    ensures forall k {:trigger EntryHeld(k, materials[k], w', own', fallback)} :: k in materials && k != key ==>
              EntryHeld(k, materials[k], w', own', fallback)
  {
    forall k | k in materials && k != key ensures EntryHeld(k, materials[k], w', own', fallback) {
      assert EntryHeld(k, materials[k], w, own, fallback);
    }
  }

  /** The open entry, its owners and what is live change together. */
  lemma OpenFrame(w: World, w': World, materials: map<string, MaterialEntry>, e': MaterialEntry, own: MaterialOwners,
                  own': MaterialOwners, fallback: Handle, key: string)
    requires OpenSide(w, materials, own, fallback, key)
    requires MaterialsCovered(w', materials[key := e'], own', fallback)
    requires EntryOpen(key, e', w', own', fallback)
    requires forall h :: h in w.materials && h in own.material && own.material[h] != key ==>
               && h in w'.materials && w'.materials[h] == w.materials[h]
               && h in own'.material && own'.material[h] == own.material[h]
    requires forall t :: t in w.textures && t in own.texture && own.texture[t].0 != key ==>
               t in w'.textures && t in own'.texture && own'.texture[t] == own.texture[t]
    requires forall s :: s in w.samplers && s in own.sampler && own.sampler[s].0 != key ==>
               s in w'.samplers && s in own'.sampler && own'.sampler[s] == own.sampler[s]
    ensures OpenSide(w', materials[key := e'], own', fallback, key)
  {
    OtherEntriesHeld(w, w', materials, own, own', fallback, key);
    forall k | k in materials && k != key ensures EntryHeld(k, materials[key := e'][k], w', own', fallback) {
      assert EntryHeld(k, materials[k], w', own', fallback);
    }
  }

  // ------------------------------------------------------------ Steps on the open entry

  lemma AddTexture(w: World, materials: map<string, MaterialEntry>, own: MaterialOwners, fallback: Handle, key: string,
                   slot: TextureSlot, payload: int)
    requires OpenSide(w, materials, own, fallback, key) && TextureOf(materials[key], slot).None?
    ensures OpenSide(w.(textures := w.textures[w.next := payload], next := w.next + 1),
                     materials[key := WithTexture(materials[key], slot, Some(w.next))],
                     own.(texture := own.texture[w.next := (key, slot)]), fallback, key)
  {
    var t := w.next;
    var w' := w.(textures := w.textures[t := payload], next := t + 1);
    var e' := WithTexture(materials[key], slot, Some(t));
    var own' := own.(texture := own.texture[t := (key, slot)]);
    assert t !in w.textures;
    assert EntryOpen(key, e', w', own', fallback);
    CoveredFrame(w, w', materials, e', own, own', fallback, key);
    OpenFrame(w, w', materials, e', own, own', fallback, key);
  }

  lemma AddSampler(w: World, materials: map<string, MaterialEntry>, own: MaterialOwners, fallback: Handle, key: string,
                   slot: TextureSlot, payload: int)
    requires OpenSide(w, materials, own, fallback, key) && SamplerOf(materials[key], slot).None?
    ensures OpenSide(w.(samplers := w.samplers[w.next := payload], next := w.next + 1),
                     materials[key := WithSampler(materials[key], slot, Some(w.next))],
                     own.(sampler := own.sampler[w.next := (key, slot)]), fallback, key)
  {
    var s := w.next;
    var w' := w.(samplers := w.samplers[s := payload], next := s + 1);
    var e' := WithSampler(materials[key], slot, Some(s));
    var own' := own.(sampler := own.sampler[s := (key, slot)]);
    assert s !in w.samplers;
    assert EntryOpen(key, e', w', own', fallback);
    CoveredFrame(w, w', materials, e', own, own', fallback, key);
    OpenFrame(w, w', materials, e', own, own', fallback, key);
  }

  /** Writing a texture or a sampler changes no handle. */
  lemma SetPayload(w: World, w': World, materials: map<string, MaterialEntry>, own: MaterialOwners, fallback: Handle,
                   key: string)
    requires OpenSide(w, materials, own, fallback, key)
    requires w'.materials == w.materials && w'.textures.Keys == w.textures.Keys && w'.samplers.Keys == w.samplers.Keys
    requires w'.next == w.next
    ensures OpenSide(w', materials, own, fallback, key)
  {
    assert materials[key := materials[key]] == materials;
    CoveredFrame(w, w', materials, materials[key], own, own, fallback, key);
    OpenFrame(w, w', materials, materials[key], own, own, fallback, key);
  }

  /** A material that binds a texture belongs to the entry that owns the texture. */
  lemma TextureUserOwner(w: World, materials: map<string, MaterialEntry>, own: MaterialOwners, fallback: Handle,
                         key: string, m: Handle, t: Handle)
    requires OpenSide(w, materials, own, fallback, key) && m in w.materials && BindsTexture(w.materials[m], t)
    ensures t in own.texture && own.texture[t].0 in materials && materials[own.texture[t].0].handle == m
    ensures BindingOf(w.materials[m], own.texture[t].1).Some?
  {
    assert MaterialCovered(m, own, materials, fallback);
    var k := own.material[m];
    if k != key {
      assert EntryHeld(k, materials[k], w, own, fallback);
    }
  }

  lemma SamplerUserOwner(w: World, materials: map<string, MaterialEntry>, own: MaterialOwners, fallback: Handle,
                         key: string, m: Handle, s: Handle)
    requires OpenSide(w, materials, own, fallback, key) && m in w.materials && BindsSampler(w.materials[m], s)
    ensures s in own.sampler && own.sampler[s].0 in materials && materials[own.sampler[s].0].handle == m
    ensures BindingOf(w.materials[m], own.sampler[s].1).Some?
  {
    assert MaterialCovered(m, own, materials, fallback);
    var k := own.material[m];
    if k != key {
      assert EntryHeld(k, materials[k], w, own, fallback);
    }
  }

  /** A texture the open entry no longer binds is unused, and can be removed. */
  lemma DropTexture(w: World, materials: map<string, MaterialEntry>, own: MaterialOwners, fallback: Handle, key: string,
                    slot: TextureSlot)
    requires OpenSide(w, materials, own, fallback, key)
    requires var e := materials[key];
             TextureOf(e, slot).Some? && (e.handle in w.materials ==> BindingOf(e.descriptor, slot).None?)
    ensures var t := TextureOf(materials[key], slot).value;
            && t in w.textures && !TextureUsed(w, t)
            && OpenSide(w.(textures := w.textures - {t}), materials[key := WithTexture(materials[key], slot, None)],
                        own, fallback, key)
  {
    var e := materials[key];
    var t := TextureOf(e, slot).value;
    var w' := w.(textures := w.textures - {t});
    var e' := WithTexture(e, slot, None);
    forall m | m in w.materials ensures !BindsTexture(w.materials[m], t) {
      if BindsTexture(w.materials[m], t) {
        TextureUserOwner(w, materials, own, fallback, key, m, t);
      }
    }
    assert EntryOpen(key, e', w', own, fallback);
    CoveredFrame(w, w', materials, e', own, own, fallback, key);
    OpenFrame(w, w', materials, e', own, own, fallback, key);
  }

  lemma DropSampler(w: World, materials: map<string, MaterialEntry>, own: MaterialOwners, fallback: Handle, key: string,
                    slot: TextureSlot)
    requires OpenSide(w, materials, own, fallback, key)
    requires var e := materials[key];
             SamplerOf(e, slot).Some? && (e.handle in w.materials ==> BindingOf(e.descriptor, slot).None?)
    ensures var s := SamplerOf(materials[key], slot).value;
            && s in w.samplers && !SamplerUsed(w, s)
            && OpenSide(w.(samplers := w.samplers - {s}), materials[key := WithSampler(materials[key], slot, None)],
                        own, fallback, key)
  {
    var e := materials[key];
    var s := SamplerOf(e, slot).value;
    var w' := w.(samplers := w.samplers - {s});
    var e' := WithSampler(e, slot, None);
    forall m | m in w.materials ensures !BindsSampler(w.materials[m], s) {
      if BindsSampler(w.materials[m], s) {
        SamplerUserOwner(w, materials, own, fallback, key, m, s);
      }
    }
    assert EntryOpen(key, e', w', own, fallback);
    CoveredFrame(w, w', materials, e', own, own, fallback, key);
    OpenFrame(w, w', materials, e', own, own, fallback, key);
  }

  /** Writing the entry's material, with bindings its slots hold. */
  lemma PutMaterial(w: World, materials: map<string, MaterialEntry>, own: MaterialOwners, fallback: Handle, key: string,
                    d: MaterialDescriptor)
    requires OpenSide(w, materials, own, fallback, key) && materials[key].handle in w.materials
    requires SlotCovers(materials[key].texture, materials[key].sampler, d.base)
    requires SlotCovers(materials[key].normalTexture, materials[key].normalSampler, d.normal)
    ensures MaterialLive(d, w)
    ensures OpenSide(w.(materials := w.materials[materials[key].handle := d]),
                     materials[key := materials[key].(descriptor := d)], own, fallback, key)
  {
    var w' := w.(materials := w.materials[materials[key].handle := d]);
    var e' := materials[key].(descriptor := d);
    assert EntryOpen(key, e', w', own, fallback);
    CoveredFrame(w, w', materials, e', own, own, fallback, key);
    OpenFrame(w, w', materials, e', own, own, fallback, key);
  }

  /** Creating the material of a new entry. */
  lemma PutNewMaterial(w: World, materials: map<string, MaterialEntry>, own: MaterialOwners, fallback: Handle,
                       key: string, d: MaterialDescriptor)
    requires OpenSide(w, materials, own, fallback, key) && materials[key].handle !in w.materials
    requires SlotCovers(materials[key].texture, materials[key].sampler, d.base)
    requires SlotCovers(materials[key].normalTexture, materials[key].normalSampler, d.normal)
    ensures MaterialLive(d, w)
    ensures OpenSide(w.(materials := w.materials[w.next := d], next := w.next + 1),
                     materials[key := materials[key].(handle := w.next, descriptor := d)],
                     own.(material := own.material[w.next := key]), fallback, key)
  {
    var h := w.next;
    var w' := w.(materials := w.materials[h := d], next := h + 1);
    var e' := materials[key].(handle := h, descriptor := d);
    var own' := own.(material := own.material[h := key]);
    assert h !in w.materials;
    assert EntryOpen(key, e', w', own', fallback);
    CoveredFrame(w, w', materials, e', own, own', fallback, key);
    OpenFrame(w, w', materials, e', own, own', fallback, key);
  }

  /** Removing the entry's material leaves the entry open. */
  lemma DropMaterial(w: World, materials: map<string, MaterialEntry>, own: MaterialOwners, fallback: Handle,
                     key: string)
    requires OpenSide(w, materials, own, fallback, key) && materials[key].handle in w.materials
    ensures OpenSide(w.(materials := w.materials - {materials[key].handle}), materials, own, fallback, key)
  {
    var w' := w.(materials := w.materials - {materials[key].handle});
    assert materials[key := materials[key]] == materials;
    assert EntryOpen(key, materials[key], w', own, fallback);
    CoveredFrame(w, w', materials, materials[key], own, own, fallback, key);
    OpenFrame(w, w', materials, materials[key], own, own, fallback, key);
  }
}
