/**
 Taking and dropping references to material entries, and retiring an entry nobody needs.
 */
module SceneReferences {
  import opened Wrappers
  import opened RenderWorlds
  import opened SceneState
  import opened SceneMaterials

  // ------------------------------------------------------------ Counting

  lemma RecountReferences(meshes: map<string, MeshState>, materials: map<string, MaterialEntry>,
                          extra: multiset<string>, key: string, e: MaterialEntry, extra': multiset<string>)
    requires ReferencesAgree(meshes, materials, extra) && key in materials
    requires e.references + extra[key] == materials[key].references + extra'[key]
    requires e.authored || e.references > 0
    requires forall k :: k != key ==> extra'[k] == extra[k]
    ensures ReferencesAgree(meshes, materials[key := e], extra')
  {
  }

  lemma FreshKey(w: World, meshes: map<string, MeshState>, own: MeshOwners, p: Option<Pending>,
                 handles: map<string, Handle>, key: string)
    requires MeshSide(w, meshes, own, p, handles) && key !in handles
    ensures forall k :: k in meshes ==> meshes[k].materialKey != key && meshes[k].materialKey in handles
    ensures Users(meshes, key) == {}
  {
    forall k | k in meshes ensures meshes[k].materialKey != key && meshes[k].materialKey in handles {
      assert MeshHeld(k, meshes[k], w, own, handles);
    }
  }

  lemma CountFreshKey(meshes: map<string, MeshState>, materials: map<string, MaterialEntry>, extra: multiset<string>,
                      key: string, e: MaterialEntry, extra': multiset<string>)
    requires ReferencesAgree(meshes, materials, extra) && key !in materials && (key == "" || Users(meshes, key) == {})
    requires e.references == extra'[key] && (e.authored || e.references > 0)
    requires forall k :: k != key ==> extra'[k] == extra[k]
    ensures ReferencesAgree(meshes, materials[key := e], extra')
  {
  }

  // ------------------------------------------------------------ Acquiring

  /** The world and memory after AcquireMaterialLocked. */
  function Acquired(w: World, b: Bridge, key: string): (World, Bridge) {
    if key == "" then (w, b)
    else if key in b.materials then
      var e := b.materials[key];
      (w, b.(materials := b.materials[key := e.(references := e.references + 1)]))
    else
      (w.(materials := w.materials[w.next := PLACEHOLDER], next := w.next + 1),
       b.(materials := b.materials[key := MaterialEntry(w.next, 1, false, PLACEHOLDER, None, None, None, None)],
          matOwn := b.matOwn.(material := b.matOwn.material[w.next := key])))
  }

  /** The empty key is the fallback; a known key gets one more reference; an unknown one gets an
      entry nobody authored, under a new handle that shows the placeholder. */
  predicate KeyAcquired(w: World, materials: map<string, MaterialEntry>, fallback: Handle, key: string, w': World,
                        materials': map<string, MaterialEntry>, h: Handle)
  {
    if key == "" then h == fallback && materials' == materials && w' == w
    else if key in materials then
      && h == materials[key].handle && w' == w
      && materials' == materials[key := materials[key].(references := materials[key].references + 1)]
    else
      && h == w.next && w' == w.(materials := w.materials[h := MaterialDescriptor(0, 0, None, None)], next := h + 1)
      && materials' ==
         materials[key := MaterialEntry(h, 1, false, MaterialDescriptor(0, 0, None, None), None, None, None, None)]
  }

  lemma AcquireKeeps(w: World, b: Bridge, p: Option<Pending>, extra: multiset<string>, key: string)
    requires Scene(w, b, p, extra) && (key !in b.Handles() ==> extra[key] == 0)
    ensures var (w', b') := Acquired(w, b, key);
            && Scene(w', b', p, extra + One(key))
            && key in b'.Handles() && b'.Handles()[key] in w'.materials
            && (forall k :: k in b.Handles() ==> k in b'.Handles() && b'.Handles()[k] == b.Handles()[k])
  {
    hide MeshSide, MaterialSide, ReferencesAgree;
    if key == "" {
      FallbackLive(w, b.materials, b.matOwn, b.fallback);
      assert extra + One(key) == extra;
    } else if key in b.materials {
      AcquireKnown(w, b, p, extra, key);
    } else {
      AcquireUnknown(w, b, p, extra, key);
    }
  }

  lemma FallbackLive(w: World, materials: map<string, MaterialEntry>, own: MaterialOwners, fallback: Handle)
    requires MaterialSide(w, materials, own, fallback)
    ensures fallback in w.materials
  {
  }

  lemma EntryLive(w: World, materials: map<string, MaterialEntry>, own: MaterialOwners, fallback: Handle, key: string)
    requires MaterialSide(w, materials, own, fallback) && key in materials
    ensures materials[key].handle in w.materials
  {
    assert EntryHeld(key, materials[key], w, own, fallback);
  }

  lemma AcquireKnown(w: World, b: Bridge, p: Option<Pending>, extra: multiset<string>, key: string)
    requires Scene(w, b, p, extra) && key in b.materials && key != ""
    ensures var e := b.materials[key];
            && e.handle in w.materials
            && Scene(w, b.(materials := b.materials[key := e.(references := e.references + 1)]), p, extra + One(key))
            && b.(materials := b.materials[key := e.(references := e.references + 1)]).Handles() == b.Handles()
  {
    hide MeshSide, MaterialSide, ReferencesAgree;
    var e := b.materials[key].(references := b.materials[key].references + 1);
    EntryLive(w, b.materials, b.matOwn, b.fallback, key);
    MaterialSideFrame(w, w, b.materials, b.materials[key := e], b.matOwn, b.fallback);
    RecountReferences(b.meshes, b.materials, extra, key, e, extra + One(key));
  }

  lemma AcquireUnknown(w: World, b: Bridge, p: Option<Pending>, extra: multiset<string>, key: string)
    requires Scene(w, b, p, extra) && key !in b.materials && key != "" && extra[key] == 0
    ensures var (w', b') := Acquired(w, b, key);
            && Scene(w', b', p, extra + One(key)) && w.next in w'.materials
            && b'.Handles() == b.Handles()[key := w.next]
  {
    hide MeshSide, MaterialSide, ReferencesAgree, OpenSide;
    var w' := w.(materials := w.materials[w.next := PLACEHOLDER], next := w.next + 1);
    var started := b.materials[key := NewEntry(1, false)];
    var e := MaterialEntry(w.next, 1, false, PLACEHOLDER, None, None, None, None);
    OpenNew(w, b.materials, b.matOwn, b.fallback, key, 1, false);
    NoHandleDead(w, b.materials, b.matOwn, b.fallback);
    PutNewMaterial(w, started, b.matOwn, b.fallback, key, PLACEHOLDER);
    assert started[key := e] == b.materials[key := e];
    CloseEntry(w', b.materials[key := e], b.matOwn.(material := b.matOwn.material[w.next := key]), b.fallback, key);
    HandlesWith(b.materials, b.fallback, key, e);
    FreshKey(w, b.meshes, b.meshOwn, p, b.Handles(), key);
    MeshSideFrame(w, w', b.meshes, b.meshOwn, p, b.Handles(), MaterialHandles(b.materials[key := e], b.fallback));
    CountFreshKey(b.meshes, b.materials, extra, key, e, extra + One(key));
  }

  lemma HandlesWith(materials: map<string, MaterialEntry>, fallback: Handle, key: string, e: MaterialEntry)
    requires key != ""
    ensures MaterialHandles(materials[key := e], fallback) == MaterialHandles(materials, fallback)[key := e.handle]
  {
  }

  lemma NoHandleDead(w: World, materials: map<string, MaterialEntry>, own: MaterialOwners, fallback: Handle)
    requires MaterialSide(w, materials, own, fallback)
    ensures NO_HANDLE !in w.materials
  {
  }

  // ------------------------------------------------------------ Retiring

  /** The world after RetireMaterialLocked. */
  function RetiredWorld(w: World, e: MaterialEntry): World {
    w.(materials := w.materials - {e.handle},
       textures := WithoutHandle(WithoutHandle(w.textures, e.texture), e.normalTexture),
       samplers := WithoutHandle(WithoutHandle(w.samplers, e.sampler), e.normalSampler))
  }

  /** Removing an unused material keeps the mesh side; the other keys keep their handles. */
  lemma MeshSideAfterRetiring(w: World, b: Bridge, p: Option<Pending>, extra: multiset<string>, key: string)
    requires Scene(w, b, p, extra) && key in b.materials && (key == "" || Users(b.meshes, key) == {})
    requires !MaterialUsed(w, b.materials[key].handle)
    ensures MeshSide(RetiredWorld(w, b.materials[key]), b.meshes, b.meshOwn, p,
                     MaterialHandles(b.materials - {key}, b.fallback))
  {
    forall k | k in b.meshes ensures key == "" || b.meshes[k].materialKey != key {
      assert key == "" || k !in Users(b.meshes, key);
    }
    MeshSideFrame(w, RetiredWorld(w, b.materials[key]), b.meshes, b.meshOwn, p, b.Handles(),
                  MaterialHandles(b.materials - {key}, b.fallback));
  }

  /** Whether dropping one reference retires the entry. */
  predicate Retires(e: MaterialEntry) {
    e.references <= 1 && !e.authored
  }

  /** The entry keeps its handle, descriptor and slots, and the world what they name. */
  ghost predicate EntryStays(e: MaterialEntry, w: World, e': MaterialEntry, w': World) {
    && e' == MaterialEntry(e.handle, e'.references, e.authored, e.descriptor, e.texture, e.sampler, e.normalTexture,
                           e.normalSampler)
    && e.handle in w.materials && e.handle in w'.materials && w'.materials[e.handle] == w.materials[e.handle]
    && StaysIn(e.texture, w.textures, w'.textures) && StaysIn(e.normalTexture, w.textures, w'.textures)
    && StaysIn(e.sampler, w.samplers, w'.samplers) && StaysIn(e.normalSampler, w.samplers, w'.samplers)
  }

  predicate StaysIn(h: Option<Handle>, m: map<Handle, int>, m': map<Handle, int>) {
    h.Some? ==> h.value in m && h.value in m' && m'[h.value] == m[h.value]
  }

  /** The entry's material, textures and samplers are gone from the world. */
  ghost predicate EntryGone(e: MaterialEntry, w': World) {
    && e.handle !in w'.materials
    && (e.texture.Some? ==> e.texture.value !in w'.textures)
    && (e.normalTexture.Some? ==> e.normalTexture.value !in w'.textures)
    && (e.sampler.Some? ==> e.sampler.value !in w'.samplers)
    && (e.normalSampler.Some? ==> e.normalSampler.value !in w'.samplers)
  }

  /** Every entry there was is there with all it names, or gone with all it names. */
  ghost predicate EntriesFollow(w: World, m: map<string, MaterialEntry>, w': World, m': map<string, MaterialEntry>) {
    forall k :: k in m ==> if k in m' then EntryStays(m[k], w, m'[k], w') else EntryGone(m[k], w')
  }

  /** Exactly the authored entries and those of a key that some mesh holds are still there. */
  ghost predicate KeptByUse(m: map<string, MaterialEntry>, m': map<string, MaterialEntry>,
                            meshes: map<string, MeshState>)
  {
    forall k :: k in m ==>
      (k in m' <==> m[k].authored || exists mesh :: mesh in meshes && meshes[mesh].materialKey == k)
  }

  /** Handles keep their owners. */
  ghost predicate OwnersKept(w: World, own: MaterialOwners, own': MaterialOwners) {
    && (forall h :: h in w.materials && h in own.material ==> h in own'.material && own'.material[h] == own.material[h])
    && (forall t :: t in w.textures && t in own.texture ==> t in own'.texture && own'.texture[t] == own.texture[t])
    && (forall s :: s in w.samplers && s in own.sampler ==> s in own'.sampler && own'.sampler[s] == own.sampler[s])
  }

  /** Textures, samplers and materials are never rewritten: they stay, go, or are new placeholders. */
  ghost predicate ResourcesKept(w: World, w': World) {
    && (forall t :: t in w'.textures ==> t in w.textures && w'.textures[t] == w.textures[t])
    && (forall s :: s in w'.samplers ==> s in w.samplers && w'.samplers[s] == w.samplers[s])
    && (forall m :: m in w'.materials ==>
          if m in w.materials then w'.materials[m] == w.materials[m] else w'.materials[m] == PLACEHOLDER)
  }

  /** Where the world only loses what entries lose, everything follows its entry. */
  lemma ResourcesFollow(w: World, m: map<string, MaterialEntry>, own: MaterialOwners, w': World,
                        m': map<string, MaterialEntry>, own': MaterialOwners, fallback: Handle)
    requires MaterialSide(w, m, own, fallback) && MaterialSide(w', m', own', fallback)
    requires ResourcesKept(w, w') && OwnersKept(w, own, own')
    requires forall k :: k in m && k in m' ==> m'[k] == m[k].(references := m'[k].references)
    ensures EntriesFollow(w, m, w', m')
  {
    forall k | k in m ensures if k in m' then EntryStays(m[k], w, m'[k], w') else EntryGone(m[k], w') {
      assert EntryHeld(k, m[k], w, own, fallback);
      if k in m' {
        EntryStaysHeld(w, m[k], own, w', m'[k], own', fallback, k);
      } else {
        EntryLost(w, m[k], own, w', m', own', fallback, k);
      }
    }
  }

  lemma EntryStaysHeld(w: World, e: MaterialEntry, own: MaterialOwners, w': World, e': MaterialEntry,
                       own': MaterialOwners, fallback: Handle, k: string)
    requires EntryHeld(k, e, w, own, fallback) && EntryHeld(k, e', w', own', fallback)
    requires ResourcesKept(w, w') && e' == e.(references := e'.references)
    ensures EntryStays(e, w, e', w')
  {
  }

  lemma EntryLost(w: World, e: MaterialEntry, own: MaterialOwners, w': World, m': map<string, MaterialEntry>,
                  own': MaterialOwners, fallback: Handle, k: string)
    requires EntryHeld(k, e, w, own, fallback) && MaterialsCovered(w', m', own', fallback)
    requires OwnersKept(w, own, own') && k !in m'
    ensures EntryGone(e, w')
  {
    assert e.handle in w'.materials ==> MaterialCovered(e.handle, own', m', fallback);
    assert e.texture.Some? && e.texture.value in w'.textures ==> TextureCovered(e.texture.value, own', m');
    assert e.normalTexture.Some? && e.normalTexture.value in w'.textures ==>
             TextureCovered(e.normalTexture.value, own', m');
    assert e.sampler.Some? && e.sampler.value in w'.samplers ==> SamplerCovered(e.sampler.value, own', m');
    assert e.normalSampler.Some? && e.normalSampler.value in w'.samplers ==>
             SamplerCovered(e.normalSampler.value, own', m');
  }

  lemma AllStay(w: World, m: map<string, MaterialEntry>, own: MaterialOwners, fallback: Handle)
    requires MaterialSide(w, m, own, fallback)
    ensures EntriesFollow(w, m, w, m)
  {
    forall k | k in m ensures EntryStays(m[k], w, m[k], w) {
      assert EntryHeld(k, m[k], w, own, fallback);
    }
  }

  /** Dropping a reference changes this one count and ends at most this one entry, exactly if it
      was the last reference and nobody authored the entry. */
  ghost predicate OneDropped(m: map<string, MaterialEntry>, m': map<string, MaterialEntry>, key: string) {
    && m'.Keys <= m.Keys
    && (forall k {:trigger k in m'} :: k in m ==>
          (k !in m' <==> k == key && key != "" && !m[k].authored && m[k].references <= 1))
    && (forall k {:trigger k in m'} :: k in m' ==>
          m'[k].references == m[k].references - if k == key && key != "" && m[k].references > 0 then 1 else 0)
  }

  lemma NoneDropped(m: map<string, MaterialEntry>, key: string)
    requires key == "" || key !in m
    ensures OneDropped(m, m, key)
  {
  }

  lemma ReleasedOne(m: map<string, MaterialEntry>, m': map<string, MaterialEntry>, key: string)
    requires key in m && key != ""
    requires if Retires(m[key]) then m' == m - {key}
             else m' == m[key := m[key].(references := if m[key].references != 0 then m[key].references - 1 else 0)]
    ensures OneDropped(m, m', key)
  {
  }

  lemma ReleasedFollows(w: World, m: map<string, MaterialEntry>, own: MaterialOwners, w': World,
                        m': map<string, MaterialEntry>, fallback: Handle, key: string)
    requires MaterialSide(w, m, own, fallback) && MaterialSide(w', m', own, fallback) && key in m
    requires if Retires(m[key]) then w' == RetiredWorld(w, m[key]) && m' == m - {key}
             else w' == w && m'.Keys == m.Keys && forall k :: k in m ==> m'[k] == m[k].(references := m'[k].references)
    ensures EntriesFollow(w, m, w', m')
  {
    hide MaterialSide, EntriesFollow;
    ResourcesFollow(w, m, own, w', m', own, fallback);
  }

  /** The world and memory after ReleaseMaterialLocked. */
  function Released(w: World, b: Bridge, key: string): (World, Bridge) {
    if key == "" || key !in b.materials then (w, b)
    else
      var e := b.materials[key];
      if Retires(e) then (RetiredWorld(w, e), b.(materials := b.materials - {key}))
      else (w, b.(materials := b.materials[key := e.(references := if e.references != 0 then e.references - 1 else 0)]))
  }

  lemma UncountedKey(meshes: map<string, MeshState>, materials: map<string, MaterialEntry>, extra: multiset<string>,
                     key: string)
    requires ReferencesAgree(meshes, materials, extra) && key in materials
    requires materials[key].references == extra[key]
    ensures key == "" || Users(meshes, key) == {}
  {
  }

  lemma CountRetired(meshes: map<string, MeshState>, materials: map<string, MaterialEntry>, extra: multiset<string>,
                     key: string, extra': multiset<string>)
    requires ReferencesAgree(meshes, materials, extra) && forall k :: k != key ==> extra'[k] == extra[k]
    ensures ReferencesAgree(meshes, materials - {key}, extra')
  {
  }

  lemma CountsReference(meshes: map<string, MeshState>, materials: map<string, MaterialEntry>, extra: multiset<string>,
                        key: string)
    requires ReferencesAgree(meshes, materials, extra) && key in materials && extra[key] > 0
    ensures materials[key].references >= extra[key]
  {
  }

  /** Whether dropping one reference to the key takes a material away that an instance shows. */
  ghost predicate TakesAway(w: World, b: Bridge, key: string) {
    key != "" && key in b.materials && Retires(b.materials[key]) && MaterialUsed(w, b.materials[key].handle)
  }

  /** Dropping a reference keeps the scene, unless it takes away a material still shown. */
  lemma ReleaseKeeps(w: World, b: Bridge, p: Option<Pending>, extra: multiset<string>, key: string)
    requires Scene(w, b, p, extra) && (key != "" ==> extra[key] == 1) && !TakesAway(w, b, key)
    requires var (w', b') := Released(w, b, key); MaterialSide(w', b'.materials, b'.matOwn, b'.fallback)
    ensures var (w', b') := Released(w, b, key); Scene(w', b', p, extra - One(key))
  {
    hide MeshSide, MaterialSide, ReferencesAgree, MaterialUsed;
    if key == "" || key !in b.materials {
      ForgetKey(b.meshes, b.materials, extra, key);
    } else {
      CountsReference(b.meshes, b.materials, extra, key);
      if Retires(b.materials[key]) {
        UncountedKey(b.meshes, b.materials, extra, key);
        MeshSideAfterRetiring(w, b, p, extra, key);
        CountRetired(b.meshes, b.materials, extra, key, extra - One(key));
      } else {
        var e := b.materials[key].(references := b.materials[key].references - 1);
        MaterialSideFrame(w, w, b.materials, b.materials[key := e], b.matOwn, b.fallback);
        RecountReferences(b.meshes, b.materials, extra, key, e, extra - One(key));
      }
    }
  }

  lemma ForgetKey(meshes: map<string, MeshState>, materials: map<string, MaterialEntry>, extra: multiset<string>,
                  key: string)
    requires ReferencesAgree(meshes, materials, extra) && (key == "" || key !in materials)
    ensures ReferencesAgree(meshes, materials, extra - One(key))
  {
  }

  /** An entry with no references can be retired, unless an instance still shows its material. */
  lemma RetireUnreferenced(w: World, b: Bridge, key: string)
    requires Scene(w, b, None, multiset{}) && key in b.materials && b.materials[key].references == 0
    requires !MaterialUsed(w, b.materials[key].handle)
    requires MaterialSide(RetiredWorld(w, b.materials[key]), b.materials - {key}, b.matOwn, b.fallback)
    ensures Scene(RetiredWorld(w, b.materials[key]), b.(materials := b.materials - {key}), None, multiset{})
  {
    hide MeshSide, MaterialSide, ReferencesAgree, MaterialUsed;
    UncountedKey(b.meshes, b.materials, multiset{}, key);
    MeshSideAfterRetiring(w, b, None, multiset{}, key);
    CountRetired(b.meshes, b.materials, multiset{}, key, multiset{});
  }

  /** Writing one entry and its material changes nothing a mesh relies on. */
  lemma SyncedKeeps(w: World, w': World, b: Bridge, e: MaterialEntry, own: MaterialOwners, key: string)
    requires Scene(w, b, None, multiset{}) && MaterialSide(w', b.materials[key := e], own, b.fallback)
    requires w'.meshes == w.meshes && w'.instances == w.instances && w.next <= w'.next
    requires w.materials.Keys <= w'.materials.Keys && e.authored
    requires key in b.materials ==> e.handle == b.materials[key].handle && e.references == b.materials[key].references
    requires key !in b.materials ==> e.references == 0
    ensures Scene(w', b.(materials := b.materials[key := e], matOwn := own), None, multiset{})
  {
    hide MeshSide, MaterialSide, ReferencesAgree;
    MeshSideFrame(w, w', b.meshes, b.meshOwn, None, b.Handles(), MaterialHandles(b.materials[key := e], b.fallback));
    if key in b.materials {
      RecountReferences(b.meshes, b.materials, multiset{}, key, e, multiset{});
    } else {
      if key != "" {
        FreshKey(w, b.meshes, b.meshOwn, None, b.Handles(), key);
      }
      CountFreshKey(b.meshes, b.materials, multiset{}, key, e, multiset{});
    }
  }
}
