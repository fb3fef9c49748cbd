/**
 What the Hydra scene bridge remembers about meshes and materials, and the relation to
 the render world that every one of its steps keeps.
 */
module SceneState {
  import opened Wrappers
  import opened RenderWorlds

  datatype TextureSlot = BaseColor | NormalMap

  datatype MeshState = MeshState(
    mesh: Handle,
    instances: seq<Handle>,
    descriptors: seq<InstanceDescriptor>,
    materialKey: string,
    authoredVisible: bool)

  datatype MaterialEntry = MaterialEntry(
    handle: Handle,
    references: nat,
    authored: bool,
    descriptor: MaterialDescriptor,
    texture: Option<Handle>,
    sampler: Option<Handle>,
    normalTexture: Option<Handle>,
    normalSampler: Option<Handle>)

  /** A mesh in the middle of a step: its instances may use any live material. */
  datatype Pending = Pending(key: string, mesh: Handle, instances: seq<Handle>)

  // Which mesh or material every handle was created for.
  datatype MeshOwners = MeshOwners(mesh: map<Handle, string>, instance: map<Handle, string>)

  datatype MaterialOwners = MaterialOwners(
    material: map<Handle, string>,
    texture: map<Handle, (string, TextureSlot)>,
    sampler: map<Handle, (string, TextureSlot)>)

  /** The material handle a mesh with the given key binds; the empty key is the fallback. */
  function MaterialHandles(materials: map<string, MaterialEntry>, fallback: Handle): map<string, Handle> {
    (map k | k in materials :: materials[k].handle)["" := fallback]
  }

  // ------------------------------------------------------------ Meshes and instances

  ghost predicate NoDuplicates(s: seq<Handle>) {
    forall i, j :: 0 <= i < j < |s| ==> s[i] != s[j]
  }

  /** The cached descriptor names the material of the mesh's key; the instance in the world may
      still show an earlier one, as long as that is live. */
  predicate InstanceHeld(h: Handle, d: InstanceDescriptor, key: string, mesh: Handle, material: Handle, w: World,
                         own: MeshOwners)
  {
    && h in w.instances && h in own.instance && own.instance[h] == key
    && w.instances[h].mesh == mesh && w.instances[h].material in w.materials
    && d.mesh == mesh && d.material == material
  }

  ghost predicate MeshHeld(key: string, st: MeshState, w: World, own: MeshOwners, handles: map<string, Handle>) {
    && st.mesh in w.meshes && st.mesh in own.mesh && own.mesh[st.mesh] == key
    && st.materialKey in handles
    && |st.descriptors| == |st.instances|
    && NoDuplicates(st.instances)
    && (forall i :: 0 <= i < |st.instances| ==>
          InstanceHeld(st.instances[i], st.descriptors[i], key, st.mesh, handles[st.materialKey], w, own))
  }

  ghost predicate InstanceCovered(h: Handle, own: MeshOwners, meshes: map<string, MeshState>, p: Option<Pending>) {
    && h in own.instance
    && var k := own.instance[h];
       if p.Some? && p.value.key == k then h in p.value.instances else k in meshes && h in meshes[k].instances
  }

  ghost predicate MeshCovered(h: Handle, own: MeshOwners, meshes: map<string, MeshState>, p: Option<Pending>) {
    && h in own.mesh
    && var k := own.mesh[h];
       if p.Some? && p.value.key == k then h == p.value.mesh else k in meshes && h == meshes[k].mesh
  }

  ghost predicate PendingHeld(p: Pending, w: World, own: MeshOwners) {
    && p.mesh in w.meshes && p.mesh in own.mesh && own.mesh[p.mesh] == p.key
    && NoDuplicates(p.instances)
    && (forall i :: 0 <= i < |p.instances| ==> PendingInstance(p.instances[i], p, w, own))
  }

  predicate PendingInstance(h: Handle, p: Pending, w: World, own: MeshOwners) {
    && h in w.instances && h in own.instance && own.instance[h] == p.key
    && w.instances[h].mesh == p.mesh && w.instances[h].material in w.materials
  }

  predicate BelowNext(s: set<Handle>, next: Handle) {
    forall h :: h in s ==> h < next
  }

  /** Every mesh the bridge remembers is live with its instances, cached with the material of
      its key, and nothing else is live. */
  ghost predicate MeshSide(w: World, meshes: map<string, MeshState>, own: MeshOwners, p: Option<Pending>,
                           handles: map<string, Handle>)
  {
    && (forall k {:trigger MeshHeld(k, meshes[k], w, own, handles)} :: k in meshes ==>
          MeshHeld(k, meshes[k], w, own, handles))
    && (forall h {:trigger InstanceCovered(h, own, meshes, p)} :: h in w.instances ==>
          InstanceCovered(h, own, meshes, p))
    && (forall h {:trigger MeshCovered(h, own, meshes, p)} :: h in w.meshes ==> MeshCovered(h, own, meshes, p))
    && (p.Some? ==> p.value.key !in meshes && PendingHeld(p.value, w, own))
    && BelowNext(w.meshes.Keys, w.next) && BelowNext(w.instances.Keys, w.next)
  }

  // ------------------------------------------------------------ Materials and textures

  ghost predicate BindingOwned(b: Option<TextureBinding>, who: (string, TextureSlot), w: World, own: MaterialOwners) {
    b.Some? ==>
      && b.value.texture in w.textures && b.value.texture in own.texture && own.texture[b.value.texture] == who
      && b.value.sampler in w.samplers && b.value.sampler in own.sampler && own.sampler[b.value.sampler] == who
  }

  predicate SlotBinds(texture: Option<Handle>, sampler: Option<Handle>, b: Option<TextureBinding>) {
    if b.None? then texture.None? && sampler.None?
    else texture == Some(b.value.texture) && sampler == Some(b.value.sampler)
  }

  ghost predicate EntryHeld(k: string, e: MaterialEntry, w: World, own: MaterialOwners, fallback: Handle) {
    && e.handle in w.materials && e.handle != fallback
    && e.handle in own.material && own.material[e.handle] == k
    && w.materials[e.handle] == e.descriptor
    && SlotBinds(e.texture, e.sampler, e.descriptor.base)
    && SlotBinds(e.normalTexture, e.normalSampler, e.descriptor.normal)
    && BindingOwned(e.descriptor.base, (k, BaseColor), w, own)
    && BindingOwned(e.descriptor.normal, (k, NormalMap), w, own)
  }

  ghost predicate MaterialCovered(h: Handle, own: MaterialOwners, materials: map<string, MaterialEntry>,
                                  fallback: Handle)
  {
    h != fallback ==> h in own.material && own.material[h] in materials && materials[own.material[h]].handle == h
  }

  function TextureOf(e: MaterialEntry, slot: TextureSlot): Option<Handle> {
    if slot.BaseColor? then e.texture else e.normalTexture
  }

  function SamplerOf(e: MaterialEntry, slot: TextureSlot): Option<Handle> {
    if slot.BaseColor? then e.sampler else e.normalSampler
  }

  ghost predicate TextureCovered(t: Handle, own: MaterialOwners, materials: map<string, MaterialEntry>) {
    && t in own.texture
    && own.texture[t].0 in materials && TextureOf(materials[own.texture[t].0], own.texture[t].1) == Some(t)
  }

  ghost predicate SamplerCovered(s: Handle, own: MaterialOwners, materials: map<string, MaterialEntry>) {
    && s in own.sampler
    && own.sampler[s].0 in materials && SamplerOf(materials[own.sampler[s].0], own.sampler[s].1) == Some(s)
  }

  /** The handle of an entry that has no material yet; the world issues handles from 1. */
  const NO_HANDLE: Handle := 0

  /** Every live material, texture and sampler is the fallback or belongs to an entry. */
  ghost predicate MaterialsCovered(w: World, materials: map<string, MaterialEntry>, own: MaterialOwners,
                                   fallback: Handle)
  {
    && fallback in w.materials && w.materials[fallback].base.None? && w.materials[fallback].normal.None?
    && fallback != NO_HANDLE && NO_HANDLE < w.next && NO_HANDLE !in w.materials
    && (forall h {:trigger MaterialCovered(h, own, materials, fallback)} :: h in w.materials ==>
          MaterialCovered(h, own, materials, fallback))
    && (forall t {:trigger TextureCovered(t, own, materials)} :: t in w.textures ==> TextureCovered(t, own, materials))
    && (forall s {:trigger SamplerCovered(s, own, materials)} :: s in w.samplers ==> SamplerCovered(s, own, materials))
    && BelowNext(w.materials.Keys, w.next) && BelowNext(w.textures.Keys, w.next) && BelowNext(w.samplers.Keys, w.next)
  }

  /** Every material entry is live with exactly its textures and samplers, the world holds
      the descriptor the entry remembers, and nothing else is live. */
  ghost predicate MaterialSide(w: World, materials: map<string, MaterialEntry>, own: MaterialOwners, fallback: Handle) {
    && MaterialsCovered(w, materials, own, fallback)
    && (forall k {:trigger EntryHeld(k, materials[k], w, own, fallback)} :: k in materials ==>
          EntryHeld(k, materials[k], w, own, fallback))
  }

  const PLACEHOLDER := MaterialDescriptor(0, 0, None, None)

  // ------------------------------------------------------------ References

  function Users(meshes: map<string, MeshState>, key: string): set<string> {
    set m | m in meshes && meshes[m].materialKey == key
  }

  /** Each entry counts the meshes that hold its key, plus the references `extra` that a
      step in progress still has to account for; an entry nobody counts is authored. */
  ghost predicate ReferencesAgree(meshes: map<string, MeshState>, materials: map<string, MaterialEntry>,
                                  extra: multiset<string>)
  {
    forall k :: k in materials ==>
      && materials[k].references == (if k == "" then 0 else |Users(meshes, k)|) + extra[k]
      && (materials[k].authored || materials[k].references > 0)
  }

  /** The bridge's fields as one value, with the owners of every handle it was given. */
  datatype Bridge = Bridge(
    meshes: map<string, MeshState>,
    materials: map<string, MaterialEntry>,
    fallback: Handle,
    meshOwn: MeshOwners,
    matOwn: MaterialOwners)
  {
    function Handles(): map<string, Handle> {
      MaterialHandles(materials, fallback)
    }
  }

  /** The whole relation.  Between calls nothing is pending and no reference is extra. */
  ghost predicate Scene(w: World, b: Bridge, p: Option<Pending>, extra: multiset<string>) {
    && MeshSide(w, b.meshes, b.meshOwn, p, b.Handles())
    && MaterialSide(w, b.materials, b.matOwn, b.fallback)
    && ReferencesAgree(b.meshes, b.materials, extra)
  }

  // ------------------------------------------------------------ The relation implies safety

  lemma SceneIsSafe(w: World, b: Bridge, p: Option<Pending>, extra: multiset<string>)
    requires Scene(w, b, p, extra)
    ensures NoDangling(w)
  {
    forall h | h in w.instances ensures InstanceLive(w.instances[h], w) {
      assert InstanceCovered(h, b.meshOwn, b.meshes, p);
      var k := b.meshOwn.instance[h];
      if p.Some? && p.value.key == k {
        var i :| 0 <= i < |p.value.instances| && p.value.instances[i] == h;
        assert PendingInstance(p.value.instances[i], p.value, w, b.meshOwn);
      } else {
        var st := b.meshes[k];
        assert MeshHeld(k, st, w, b.meshOwn, b.Handles());
        var i :| 0 <= i < |st.instances| && st.instances[i] == h;
        assert InstanceHeld(st.instances[i], st.descriptors[i], k, st.mesh, b.Handles()[st.materialKey], w, b.meshOwn);
        BoundMaterialLive(w, b.materials, b.matOwn, b.fallback, st.materialKey);
      }
    }
    forall h | h in w.materials ensures MaterialLive(w.materials[h], w) {
      assert MaterialCovered(h, b.matOwn, b.materials, b.fallback);
      if h != b.fallback {
        var k := b.matOwn.material[h];
        assert EntryHeld(k, b.materials[k], w, b.matOwn, b.fallback);
      }
    }
  }

  lemma BoundMaterialLive(w: World, materials: map<string, MaterialEntry>, own: MaterialOwners, fallback: Handle,
                          key: string)
    requires MaterialSide(w, materials, own, fallback) && key in MaterialHandles(materials, fallback)
    ensures MaterialHandles(materials, fallback)[key] in w.materials
  {
    if key != "" {
      assert EntryHeld(key, materials[key], w, own, fallback);
    }
  }

  function Elements(s: seq<Handle>): set<Handle> {
    set h | h in s
  }

  /** The world without a mesh and its instances. */
  function WithoutMesh(w: World, st: MeshState): World {
    w.(instances := w.instances - Elements(st.instances), meshes := w.meshes - {st.mesh})
  }

  // ------------------------------------------------------------ Frames

  lemma MeshSideFrame(w: World, w': World, meshes: map<string, MeshState>, own: MeshOwners, p: Option<Pending>,
                      handles: map<string, Handle>, handles': map<string, Handle>)
    requires MeshSide(w, meshes, own, p, handles)
    requires w'.meshes.Keys == w.meshes.Keys && w'.instances == w.instances && w.next <= w'.next
    requires forall h :: h in w.instances && w.instances[h].material in w.materials ==>
               w.instances[h].material in w'.materials
    requires forall k :: k in meshes && meshes[k].materialKey in handles ==>
               meshes[k].materialKey in handles' && handles'[meshes[k].materialKey] == handles[meshes[k].materialKey]
    ensures MeshSide(w', meshes, own, p, handles')
  {
    forall k | k in meshes ensures MeshHeld(k, meshes[k], w', own, handles') {
      var st := meshes[k];
      assert MeshHeld(k, st, w, own, handles);
      forall i | 0 <= i < |st.instances|
        ensures InstanceHeld(st.instances[i], st.descriptors[i], k, st.mesh, handles'[st.materialKey], w', own)
      {
        assert InstanceHeld(st.instances[i], st.descriptors[i], k, st.mesh, handles[st.materialKey], w, own);
      }
    }
    if p.Some? {
      forall i | 0 <= i < |p.value.instances| ensures PendingInstance(p.value.instances[i], p.value, w', own) {
        assert PendingInstance(p.value.instances[i], p.value, w, own);
      }
    }
  }

  lemma MaterialSideFrame(w: World, w': World, materials: map<string, MaterialEntry>,
                          materials': map<string, MaterialEntry>, own: MaterialOwners, fallback: Handle)
    requires MaterialSide(w, materials, own, fallback)
    requires w'.materials == w.materials && w'.textures == w.textures && w'.samplers == w.samplers && w.next <= w'.next
    requires materials'.Keys == materials.Keys
    requires forall k :: k in materials ==>
      materials'[k] == materials[k].(references := materials'[k].references, authored := materials'[k].authored)
    ensures MaterialSide(w', materials', own, fallback)
    ensures MaterialHandles(materials', fallback) == MaterialHandles(materials, fallback)
  {
    forall k | k in materials' ensures EntryHeld(k, materials'[k], w', own, fallback) {
      assert EntryHeld(k, materials[k], w, own, fallback);
    }
    forall h | h in w'.materials ensures MaterialCovered(h, own, materials', fallback) {
      assert MaterialCovered(h, own, materials, fallback);
    }
    forall t | t in w'.textures ensures TextureCovered(t, own, materials') {
      assert TextureCovered(t, own, materials);
    }
    forall s | s in w'.samplers ensures SamplerCovered(s, own, materials') {
      assert SamplerCovered(s, own, materials);
    }
  }

  // ------------------------------------------------------------ Mesh steps

  function One(key: string): multiset<string> {
    if key == "" then multiset{} else multiset{key}
  }

  /** Takes one mesh out of the memory and makes it the pending one. */
  lemma Detach(w: World, b: Bridge, key: string, extra: multiset<string>)
    requires Scene(w, b, None, extra) && key in b.meshes
    ensures var st := b.meshes[key];
            && st.materialKey in b.Handles() && b.Handles()[st.materialKey] in w.materials
            && st.mesh in w.meshes && |st.instances| == |st.descriptors|
            && (forall i :: 0 <= i < |st.instances| ==>
                  InstanceHeld(st.instances[i], st.descriptors[i], key, st.mesh, b.Handles()[st.materialKey], w,
                               b.meshOwn))
            && Scene(w, b.(meshes := b.meshes - {key}), Some(Pending(key, st.mesh, st.instances)),
                     extra + One(st.materialKey))
  {
    var st := b.meshes[key];
    var p := Pending(key, st.mesh, st.instances);
    var others := b.meshes - {key};
    assert MeshHeld(key, st, w, b.meshOwn, b.Handles());
    BoundMaterialLive(w, b.materials, b.matOwn, b.fallback, st.materialKey);
    forall i | 0 <= i < |st.instances| ensures PendingInstance(st.instances[i], p, w, b.meshOwn) {
      assert InstanceHeld(st.instances[i], st.descriptors[i], key, st.mesh, b.Handles()[st.materialKey], w, b.meshOwn);
    }
    assert MeshSide(w, others, b.meshOwn, Some(p), b.Handles()) by {
      forall k | k in others ensures MeshHeld(k, others[k], w, b.meshOwn, b.Handles()) {
        assert MeshHeld(k, b.meshes[k], w, b.meshOwn, b.Handles());
      }
      forall h | h in w.instances ensures InstanceCovered(h, b.meshOwn, others, Some(p)) {
        assert InstanceCovered(h, b.meshOwn, b.meshes, None);
      }
      forall h | h in w.meshes ensures MeshCovered(h, b.meshOwn, others, Some(p)) {
        assert MeshCovered(h, b.meshOwn, b.meshes, None);
      }
    }
    ReferencesDetach(b.meshes, b.materials, extra, key);
  }

  lemma ReferencesDetach(meshes: map<string, MeshState>, materials: map<string, MaterialEntry>,
                         extra: multiset<string>, key: string)
    requires ReferencesAgree(meshes, materials, extra) && key in meshes
    ensures ReferencesAgree(meshes - {key}, materials, extra + One(meshes[key].materialKey))
  {
    forall k | k in materials
      ensures materials[k].references == (if k == "" then 0 else |Users(meshes - {key}, k)|) +
                                         (extra + One(meshes[key].materialKey))[k]
    {
      if meshes[key].materialKey == k {
        assert Users(meshes, k) == Users(meshes - {key}, k) + {key};
      } else {
        assert Users(meshes, k) == Users(meshes - {key}, k);
      }
    }
  }

  lemma ReferencesAttach(meshes: map<string, MeshState>, materials: map<string, MaterialEntry>,
                         extra: multiset<string>, key: string, st: MeshState)
    requires ReferencesAgree(meshes, materials, extra + One(st.materialKey)) && key !in meshes
    ensures ReferencesAgree(meshes[key := st], materials, extra)
  {
    forall k | k in materials
      ensures materials[k].references == (if k == "" then 0 else |Users(meshes[key := st], k)|) + extra[k]
    {
      if st.materialKey == k {
        assert Users(meshes[key := st], k) == Users(meshes, k) + {key};
      } else {
        assert Users(meshes[key := st], k) == Users(meshes, k);
      }
    }
  }

  /** Puts the pending mesh back, once all its instances use the material of its key. */
  lemma Attach(w: World, b: Bridge, key: string, st: MeshState, extra: multiset<string>)
    requires Scene(w, b, Some(Pending(key, st.mesh, st.instances)), extra + One(st.materialKey))
    requires st.materialKey in b.Handles() && |st.descriptors| == |st.instances|
    requires forall i :: 0 <= i < |st.instances| ==>
               InstanceHeld(st.instances[i], st.descriptors[i], key, st.mesh, b.Handles()[st.materialKey], w, b.meshOwn)
    ensures Scene(w, b.(meshes := b.meshes[key := st]), None, extra)
  {
    var p, meshes := Some(Pending(key, st.mesh, st.instances)), b.meshes[key := st];
    assert PendingHeld(p.value, w, b.meshOwn);
    assert MeshHeld(key, st, w, b.meshOwn, b.Handles());
    assert MeshSide(w, meshes, b.meshOwn, None, b.Handles()) by {
      forall k | k in meshes ensures MeshHeld(k, meshes[k], w, b.meshOwn, b.Handles()) {
        assert k != key ==> MeshHeld(k, b.meshes[k], w, b.meshOwn, b.Handles());
      }
      forall h | h in w.instances ensures InstanceCovered(h, b.meshOwn, meshes, None) {
        assert InstanceCovered(h, b.meshOwn, b.meshes, p);
      }
      forall h | h in w.meshes ensures MeshCovered(h, b.meshOwn, meshes, None) {
        assert MeshCovered(h, b.meshOwn, b.meshes, p);
      }
    }
    ReferencesAttach(b.meshes, b.materials, extra, key, st);
  }

  /** A mesh has just been created for a key the bridge does not know. */
  lemma AddMesh(w: World, b: Bridge, key: string, payload: int, extra: multiset<string>)
    requires Scene(w, b, None, extra) && key !in b.meshes
    ensures w.next !in w.meshes
    ensures Scene(w.(meshes := w.meshes[w.next := payload], next := w.next + 1),
                  b.(meshOwn := b.meshOwn.(mesh := b.meshOwn.mesh[w.next := key])),
                  Some(Pending(key, w.next, [])), extra)
  {
    var w' := w.(meshes := w.meshes[w.next := payload], next := w.next + 1);
    var own' := b.meshOwn.(mesh := b.meshOwn.mesh[w.next := key]);
    var p := Some(Pending(key, w.next, []));
    assert MeshSide(w', b.meshes, own', p, b.Handles()) by {
      forall k | k in b.meshes ensures MeshHeld(k, b.meshes[k], w', own', b.Handles()) {
        var st := b.meshes[k];
        assert MeshHeld(k, st, w, b.meshOwn, b.Handles());
        forall i | 0 <= i < |st.instances|
          ensures InstanceHeld(st.instances[i], st.descriptors[i], k, st.mesh, b.Handles()[st.materialKey], w', own')
        {
          assert InstanceHeld(st.instances[i], st.descriptors[i], k, st.mesh, b.Handles()[st.materialKey], w,
                              b.meshOwn);
        }
      }
      forall h | h in w'.instances ensures InstanceCovered(h, own', b.meshes, p) {
        assert InstanceCovered(h, b.meshOwn, b.meshes, None);
      }
      forall h | h in w'.meshes ensures MeshCovered(h, own', b.meshes, p) {
        assert h in w.meshes ==> MeshCovered(h, b.meshOwn, b.meshes, None);
      }
    }
    MaterialSideFrame(w, w', b.materials, b.materials, b.matOwn, b.fallback);
  }

  /** Without instances the pending mesh is unused, and removing it leaves nothing pending. */
  lemma DropMesh(w: World, b: Bridge, p: Pending, extra: multiset<string>)
    requires Scene(w, b, Some(p), extra) && p.instances == []
    ensures p.mesh in w.meshes && !MeshUsed(w, p.mesh)
    ensures Scene(w.(meshes := w.meshes - {p.mesh}), b, None, extra)
  {
    var w' := w.(meshes := w.meshes - {p.mesh});
    forall h | h in w.instances ensures InstanceCovered(h, b.meshOwn, b.meshes, None) && w.instances[h].mesh != p.mesh {
      assert InstanceCovered(h, b.meshOwn, b.meshes, Some(p));
      var k := b.meshOwn.instance[h];
      var st := b.meshes[k];
      assert MeshHeld(k, st, w, b.meshOwn, b.Handles());
      var i :| 0 <= i < |st.instances| && st.instances[i] == h;
      assert InstanceHeld(st.instances[i], st.descriptors[i], k, st.mesh, b.Handles()[st.materialKey], w, b.meshOwn);
    }
    forall k | k in b.meshes ensures MeshHeld(k, b.meshes[k], w', b.meshOwn, b.Handles()) {
      var st := b.meshes[k];
      assert MeshHeld(k, st, w, b.meshOwn, b.Handles());
      forall i | 0 <= i < |st.instances|
        ensures InstanceHeld(st.instances[i], st.descriptors[i], k, st.mesh, b.Handles()[st.materialKey], w', b.meshOwn)
      {
        assert InstanceHeld(st.instances[i], st.descriptors[i], k, st.mesh, b.Handles()[st.materialKey], w, b.meshOwn);
      }
    }
    forall h | h in w'.meshes ensures MeshCovered(h, b.meshOwn, b.meshes, None) {
      assert MeshCovered(h, b.meshOwn, b.meshes, Some(p));
    }
    MaterialSideFrame(w, w', b.materials, b.materials, b.matOwn, b.fallback);
  }

  // ------------------------------------------------------------ Instance steps of the pending mesh

  /** Other meshes' instances are not the pending mesh's. */
  lemma OthersUntouched(w: World, w': World, b: Bridge, own': MeshOwners, p: Pending, h: Handle)
    requires forall k :: k in b.meshes ==> MeshHeld(k, b.meshes[k], w, b.meshOwn, b.Handles())
    requires p.key !in b.meshes && w'.meshes == w.meshes && w'.materials == w.materials
    requires h in w.instances ==> h in b.meshOwn.instance && b.meshOwn.instance[h] == p.key
    requires own'.mesh == b.meshOwn.mesh
    requires forall i :: i in b.meshOwn.instance && i != h ==>
               i in own'.instance && own'.instance[i] == b.meshOwn.instance[i]
    requires forall i :: i in w.instances && i != h ==> i in w'.instances && w'.instances[i] == w.instances[i]
    ensures forall k :: k in b.meshes ==> MeshHeld(k, b.meshes[k], w', own', b.Handles())
  {
    forall k | k in b.meshes ensures MeshHeld(k, b.meshes[k], w', own', b.Handles()) {
      var st := b.meshes[k];
      assert MeshHeld(k, st, w, b.meshOwn, b.Handles());
      forall i | 0 <= i < |st.instances|
        ensures InstanceHeld(st.instances[i], st.descriptors[i], k, st.mesh, b.Handles()[st.materialKey], w', own')
      {
        assert InstanceHeld(st.instances[i], st.descriptors[i], k, st.mesh, b.Handles()[st.materialKey], w, b.meshOwn);
      }
    }
  }

  lemma PendingGrows(w: World, w': World, own: MeshOwners, own': MeshOwners, p: Pending, h: Handle)
    requires PendingHeld(p, w, own) && h !in w.instances
    requires w'.meshes == w.meshes && w'.materials == w.materials && own'.mesh == own.mesh
    requires h in w'.instances && w'.instances == w.instances[h := w'.instances[h]]
    requires w'.instances[h].mesh == p.mesh && w'.instances[h].material in w.materials
    requires own'.instance == own.instance[h := p.key]
    ensures h !in p.instances && PendingHeld(p.(instances := p.instances + [h]), w', own')
  {
    assert forall i :: 0 <= i < |p.instances| ==> PendingInstance(p.instances[i], p, w, own);
  }

  lemma AddInstance(w: World, b: Bridge, p: Pending, extra: multiset<string>, d: InstanceDescriptor)
    requires Scene(w, b, Some(p), extra) && d.mesh == p.mesh && d.material in w.materials
    ensures InstanceLive(d, w) && w.next !in p.instances
    ensures Scene(w.(instances := w.instances[w.next := d], next := w.next + 1),
                  b.(meshOwn := b.meshOwn.(instance := b.meshOwn.instance[w.next := p.key])),
                  Some(p.(instances := p.instances + [w.next])), extra)
  {
    hide MaterialSide, ReferencesAgree, MeshHeld;
    var w' := w.(instances := w.instances[w.next := d], next := w.next + 1);
    var own' := b.meshOwn.(instance := b.meshOwn.instance[w.next := p.key]);
    var p' := p.(instances := p.instances + [w.next]);
    assert w.next !in w.instances;
    OthersUntouched(w, w', b, own', p, w.next);
    forall h | h in w'.instances ensures InstanceCovered(h, own', b.meshes, Some(p')) {
      if h == w.next {
        assert p'.instances[|p.instances|] == h;
      } else {
        assert InstanceCovered(h, b.meshOwn, b.meshes, Some(p));
        if h in p.instances {
          assert h in p'.instances;
        }
      }
    }
    forall h | h in w'.meshes ensures MeshCovered(h, own', b.meshes, Some(p')) {
      assert MeshCovered(h, b.meshOwn, b.meshes, Some(p));
    }
    PendingGrows(w, w', b.meshOwn, own', p, w.next);
    MaterialSideFrame(w, w', b.materials, b.materials, b.matOwn, b.fallback);
  }

  /** Removes instance h, which `rest` no longer lists. */
  lemma DropInstance(w: World, b: Bridge, p: Pending, extra: multiset<string>, h: Handle, rest: seq<Handle>)
    requires Scene(w, b, Some(p), extra) && h in p.instances && NoDuplicates(rest)
    requires forall x :: x in p.instances <==> x == h || x in rest
    requires h !in rest
    ensures h in w.instances
    ensures Scene(w.(instances := w.instances - {h}), b, Some(p.(instances := rest)), extra)
  {
    hide MaterialSide, ReferencesAgree, MeshHeld;
    var w' := w.(instances := w.instances - {h});
    var p' := p.(instances := rest);
    var j :| 0 <= j < |p.instances| && p.instances[j] == h;
    assert PendingInstance(p.instances[j], p, w, b.meshOwn);
    OthersUntouched(w, w', b, b.meshOwn, p, h);
    forall i | i in w'.instances ensures InstanceCovered(i, b.meshOwn, b.meshes, Some(p')) {
      assert InstanceCovered(i, b.meshOwn, b.meshes, Some(p));
    }
    forall m | m in w'.meshes ensures MeshCovered(m, b.meshOwn, b.meshes, Some(p')) {
      assert MeshCovered(m, b.meshOwn, b.meshes, Some(p));
    }
    forall i | 0 <= i < |rest| ensures PendingInstance(rest[i], p', w', b.meshOwn) {
      assert rest[i] in p.instances;
      var k :| 0 <= k < |p.instances| && p.instances[k] == rest[i];
      assert PendingInstance(p.instances[k], p, w, b.meshOwn);
    }
    MaterialSideFrame(w, w', b.materials, b.materials, b.matOwn, b.fallback);
  }

  lemma NextToDrop(w: World, b: Bridge, p: Pending, extra: multiset<string>)
    requires Scene(w, b, Some(p), extra) && p.instances != []
    ensures NoDuplicates(p.instances[1..]) && NoDuplicates(p.instances[..|p.instances| - 1])
    ensures p.instances[0] !in p.instances[1..]
    ensures p.instances[|p.instances| - 1] !in p.instances[..|p.instances| - 1]
    ensures forall x :: x in p.instances <==> x == p.instances[0] || x in p.instances[1..]
    ensures forall x :: x in p.instances <==>
              x == p.instances[|p.instances| - 1] || x in p.instances[..|p.instances| - 1]
  {
    hide MaterialSide, ReferencesAgree, MeshHeld, MeshCovered, InstanceCovered, PendingInstance;
    assert p.instances == [p.instances[0]] + p.instances[1..];
    assert p.instances == p.instances[..|p.instances| - 1] + [p.instances[|p.instances| - 1]];
  }

  lemma SetInstance(w: World, b: Bridge, p: Pending, extra: multiset<string>, h: Handle, d: InstanceDescriptor)
    requires Scene(w, b, Some(p), extra) && h in p.instances && d.mesh == p.mesh && d.material in w.materials
    ensures InstanceLive(d, w) && h in w.instances
    ensures Scene(w.(instances := w.instances[h := d]), b, Some(p), extra)
  {
    hide MaterialSide, ReferencesAgree, MeshHeld, MeshCovered;
    var w' := w.(instances := w.instances[h := d]);
    var j :| 0 <= j < |p.instances| && p.instances[j] == h;
    assert PendingInstance(p.instances[j], p, w, b.meshOwn);
    OthersUntouched(w, w', b, b.meshOwn, p, h);
    forall i | i in w'.instances ensures InstanceCovered(i, b.meshOwn, b.meshes, Some(p)) {
      assert InstanceCovered(i, b.meshOwn, b.meshes, Some(p));
    }
    forall i | 0 <= i < |p.instances| ensures PendingInstance(p.instances[i], p, w', b.meshOwn) {
      assert PendingInstance(p.instances[i], p, w, b.meshOwn);
    }
    MaterialSideFrame(w, w', b.materials, b.materials, b.matOwn, b.fallback);
  }

  lemma SetMeshPayload(w: World, b: Bridge, p: Option<Pending>, extra: multiset<string>, h: Handle, payload: int)
    requires Scene(w, b, p, extra) && h in w.meshes
    ensures Scene(w.(meshes := w.meshes[h := payload]), b, p, extra)
  {
    var w' := w.(meshes := w.meshes[h := payload]);
    assert w'.meshes.Keys == w.meshes.Keys;
    MeshSideFrame(w, w', b.meshes, b.meshOwn, p, b.Handles(), b.Handles());
    MaterialSideFrame(w, w', b.materials, b.materials, b.matOwn, b.fallback);
  }
}
