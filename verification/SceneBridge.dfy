/**
 The Hydra scene bridge: meshes, their instances and reference-counted materials kept in a
 mutable render world.
 */
module SceneBridges {
  import opened Wrappers
  import opened RenderWorlds
  import opened SceneState
  import opened SceneMaterials
  import opened SceneReferences
  import opened MaterialSync
  import opened MeshSync

  class SceneBridge {
    const world: RenderWorld
    const fallbackMaterial: Handle
    var meshes: map<string, MeshState>
    var materials: map<string, MaterialEntry>
    ghost var meshOwn: MeshOwners
    ghost var matOwn: MaterialOwners

    ghost function Memory(): Bridge
      reads this
    {
      Bridge(meshes, materials, fallbackMaterial, meshOwn, matOwn)
    }

    /** Every world so far is free of dangling references, and memory and world agree; an
        instance may still show an earlier material of its mesh, as long as that is live. */
    ghost predicate Valid()
      reads this, world
    {
      world.Safe() && Scene(world.contents, Memory(), None, multiset{})
    }

    /** The memory without one mesh, which a step in progress holds. */
    ghost function Others(key: string): Bridge
      reads this
    {
      Memory().(meshes := meshes - {key})
    }

    ghost predicate MaterialsHeld()
      reads this, world
    {
      MaterialSide(world.contents, materials, matOwn, fallbackMaterial)
    }

    ghost predicate Open(key: string)
      reads this, world
    {
      OpenSide(world.contents, materials, matOwn, fallbackMaterial, key)
    }

    constructor (w: RenderWorld)
      requires w.Safe() && w.contents == World(map[], map[], map[], map[], map[], 1)
      modifies w
      ensures Valid() && world == w && meshes == map[] && materials == map[]
    {
      var ok, h := w.CreateMaterial(PLACEHOLDER);
      world := w;
      fallbackMaterial := h;
      meshes, materials := map[], map[];
      meshOwn := MeshOwners(map[], map[]);
      matOwn := MaterialOwners(map[], map[], map[]);
      new;
      assert world.contents.materials == map[1 := PLACEHOLDER];
    }

    // ------------------------------------------------------------ Material references

    method AcquireMaterialLocked(key: string) returns (h: Handle)
      requires world.Recorded()
      modifies this`materials, this`matOwn, world
      ensures old(world.history) <= world.history
      ensures world.Recorded() && (world.Safe() <==> old(world.Safe()))
      ensures (world.contents, Memory()) == Acquired(old(world.contents), old(Memory()), key)
      ensures KeyAcquired(old(world.contents), old(materials), fallbackMaterial, key, world.contents, materials, h)
      ensures h == if key == "" then fallbackMaterial else if key in materials then materials[key].handle else 0
    {
      if key == "" {
        return fallbackMaterial;
      }
      ghost var earlier := materials;
      if key !in materials {
        var ok, created := world.CreateMaterial(PLACEHOLDER);
        materials := materials[key := MaterialEntry(created, 0, false, PLACEHOLDER, None, None, None, None)];
        matOwn := matOwn.(material := matOwn.material[created := key]);
      }
      materials := materials[key := materials[key].(references := materials[key].references + 1)];
      assert materials == earlier[key := materials[key]];
      h := materials[key].handle;
    }

    /** Removes a texture the open entry no longer binds. */
    method ReleaseTexture(key: string, slot: TextureSlot)
      requires world.Recorded() && Open(key)
      requires materials[key].handle in world.contents.materials ==> BindingOf(materials[key].descriptor, slot).None?
      modifies this`materials, world
      ensures old(world.history) <= world.history
      ensures world.Recorded() && Open(key) && (world.Safe() <==> old(world.Safe()))
      ensures materials == old(materials)[key := WithTexture(old(materials)[key], slot, None)]
      ensures world.contents == old(world.contents).(
                textures := WithoutHandle(old(world.contents).textures, TextureOf(old(materials)[key], slot)))
    {
      hide OpenSide, NoDangling, TextureUsed, RenderWorld.Safe, RenderWorld.Recorded;
      OpenKey(key);
      var texture := TextureOf(materials[key], slot);
      if texture.Some? {
        DropTexture(world.contents, materials, matOwn, fallbackMaterial, key, slot);
        var ok := world.RemoveTexture(texture.value);
        assert ok;
        materials := materials[key := WithTexture(materials[key], slot, None)];
      }
    }

    /** Removes a sampler the open entry no longer binds. */
    method ReleaseSampler(key: string, slot: TextureSlot)
      requires world.Recorded() && Open(key)
      requires materials[key].handle in world.contents.materials ==> BindingOf(materials[key].descriptor, slot).None?
      modifies this`materials, world
      ensures old(world.history) <= world.history
      ensures world.Recorded() && Open(key) && (world.Safe() <==> old(world.Safe()))
      ensures materials == old(materials)[key := WithSampler(old(materials)[key], slot, None)]
      ensures world.contents == old(world.contents).(
                samplers := WithoutHandle(old(world.contents).samplers, SamplerOf(old(materials)[key], slot)))
    {
      hide OpenSide, NoDangling, SamplerUsed, RenderWorld.Safe, RenderWorld.Recorded;
      OpenKey(key);
      var sampler := SamplerOf(materials[key], slot);
      if sampler.Some? {
        DropSampler(world.contents, materials, matOwn, fallbackMaterial, key, slot);
        var ok := world.RemoveSampler(sampler.value);
        assert ok;
        materials := materials[key := WithSampler(materials[key], slot, None)];
      }
    }

    /** Removes a pair the open entry no longer binds. */
    method ReleaseTextureSlotLocked(key: string, slot: TextureSlot)
      requires world.Recorded() && Open(key)
      requires materials[key].handle in world.contents.materials ==> BindingOf(materials[key].descriptor, slot).None?
      modifies this`materials, world
      ensures old(world.history) <= world.history
      ensures world.Recorded() && Open(key) && (world.Safe() <==> old(world.Safe()))
      ensures materials == old(materials)[key := WithoutSlot(old(materials)[key], slot)]
      ensures world.contents == WithoutSlotHandles(old(world.contents), old(materials)[key], slot)
    {
      hide OpenSide, RenderWorld.Safe, RenderWorld.Recorded;
      OpenKey(key);
      ReleaseTexture(key, slot);
      ReleaseSampler(key, slot);
    }

    lemma OpenKey(key: string)
      requires Open(key)
      ensures key in materials
    {
    }

    /** Removes the entry's material first, so that no live material binds its textures. */
    method RetireMaterialLocked(key: string)
      requires world.Recorded() && MaterialsHeld() && key in materials
      modifies this`materials, world
      ensures old(world.history) <= world.history
      ensures world.Recorded() && MaterialsHeld()
      ensures materials == old(materials) - {key}
      ensures world.contents == RetiredWorld(old(world.contents), old(materials)[key])
      ensures world.Safe() <==> old(world.Safe()) && !MaterialUsed(old(world.contents), old(materials)[key].handle)
    {
      hide MaterialSide, OpenSide, NoDangling, MaterialUsed, TextureUsed, SamplerUsed;
      var e := materials[key];
      assert materials[key := e] == materials;
      OpenKnown(world.contents, materials, matOwn, fallbackMaterial, key, e);
      DropMaterial(world.contents, materials, matOwn, fallbackMaterial, key);
      ghost var earlier := materials;
      var ok := world.RemoveMaterial(e.handle);
      assert ok;
      ReleaseTextureSlotLocked(key, BaseColor);
      ReleaseTextureSlotLocked(key, NormalMap);
      EraseEntry(world.contents, materials, matOwn, fallbackMaterial, key);
      assert materials - {key} == earlier - {key};
      materials := materials - {key};
    }

    method ReleaseMaterialLocked(key: string)
      requires world.Recorded() && MaterialsHeld()
      modifies this`materials, world
      ensures old(world.history) <= world.history
      ensures world.Recorded() && MaterialsHeld()
      ensures (world.contents, Memory()) == Released(old(world.contents), old(Memory()), key)
      ensures EntriesFollow(old(world.contents), old(materials), world.contents, materials)
      ensures OneDropped(old(materials), materials, key)
      ensures world.Safe() <==>
              && old(world.Safe())
              && !(key != "" && key in old(materials) && Retires(old(materials)[key]) &&
                   MaterialUsed(old(world.contents), old(materials)[key].handle))
    {
      hide MaterialSide, OpenSide, NoDangling, MaterialUsed, EntriesFollow, OneDropped, RenderWorld.Safe,
        RenderWorld.Recorded;
      ghost var w0, m0 := world.contents, materials;
      if key == "" || key !in materials {
        AllStay(w0, m0, matOwn, fallbackMaterial);
        NoneDropped(m0, key);
        return;
      }
      var e := materials[key];
      if e.references != 0 {
        e := e.(references := e.references - 1);
      }
      MaterialSideFrame(world.contents, world.contents, materials, materials[key := e], matOwn, fallbackMaterial);
      ghost var earlier := materials;
      materials := materials[key := e];
      if e.references == 0 && !e.authored {
        RetireMaterialLocked(key);
        assert materials == earlier - {key};
      }
      ReleasedOne(m0, materials, key);
      ReleasedFollows(w0, m0, matOwn, world.contents, materials, fallbackMaterial, key);
    }

    // ------------------------------------------------------------ Meshes

    /** Removes every instance of the pending mesh. */
    method RemoveInstances(key: string, mesh: Handle, instances: seq<Handle>, ghost extra: multiset<string>)
      requires world.Safe() && Scene(world.contents, Others(key), Some(Pending(key, mesh, instances)), extra)
      modifies world
      ensures old(world.history) <= world.history
      ensures world.Safe() && Scene(world.contents, Others(key), Some(Pending(key, mesh, [])), extra)
      ensures world.contents == old(world.contents).(instances := old(world.contents).instances - Elements(instances))
    {
      hide Scene, NoDangling, Elements;
      ghost var w, b := world.contents, Others(key);
      var i, n := 0, |instances|;
      assert instances[0..] == instances;
      RemovedNone(w.instances, instances);
      while i < n
        invariant old(world.history) <= world.history
        invariant 0 <= i <= n && world.Safe() && b == Others(key)
        invariant Scene(world.contents, b, Some(Pending(key, mesh, instances[i..])), extra)
        invariant world.contents == w.(instances := w.instances - Elements(instances[..i]))
      {
        ghost var p := Pending(key, mesh, instances[i..]);
        var h := instances[i];
        NextToDrop(world.contents, b, p, extra);
        assert p.instances[1..] == instances[i + 1..];
        DropInstance(world.contents, b, p, extra, h, p.instances[1..]);
        var ok := world.RemoveInstance(h);
        assert ok;
        RemovedFront(w.instances, instances, i);
        i := i + 1;
      }
      assert instances[..n] == instances && instances[n..] == [];
    }

    /** Removes a mesh, its instances and its material reference. */
    method RemoveFoundMesh(key: string)
      requires Valid() && key in meshes
      modifies this`meshes, this`materials, world
      ensures old(world.history) <= world.history
      ensures meshes == old(meshes) - {key} && (world.Safe() ==> Valid())
      ensures (world.contents, Memory()) ==
                Released(WithoutMesh(old(world.contents), old(meshes)[key]), old(Memory()).(meshes := meshes),
                         old(meshes)[key].materialKey)
      ensures EntriesFollow(old(world.contents), old(materials), world.contents, materials)
      ensures KeptByUse(old(materials), materials, meshes) && materials.Keys <= old(materials).Keys
      ensures world.Safe() <==>
              !Strands(old(world.contents), old(Memory()), old(meshes)[key].materialKey,
                       Elements(old(meshes)[key].instances))
    {
      hide MeshSide, MaterialSide, ReferencesAgree, NoDangling, MeshUsed, MaterialUsed, ShownBeyond, EntriesFollow,
        KeptByUse;
      var state := meshes[key];
      ghost var memory := Memory();
      ghost var w0, b := world.contents, Others(key);
      ghost var extra := multiset{} + One(state.materialKey);
      Detach(world.contents, Memory(), key, multiset{});
      RemoveInstances(key, state.mesh, state.instances, extra);
      DropMesh(world.contents, b, Pending(key, state.mesh, []), extra);
      var ok := world.RemoveMesh(state.mesh);
      assert ok;
      ghost var w := world.contents;
      ShownAfterRemoval(w0, state.instances);
      ReleaseMaterialLocked(state.materialKey);
      if world.Safe() {
        ReleaseKeeps(w, b, None, extra, state.materialKey);
      }
      meshes := meshes - {key};
      assert extra - One(state.materialKey) == multiset{};
      UnmeshedFollows(w0, memory, w, world.contents, Memory(), key);
    }

    lemma ShownAfterRemoval(w: World, instances: seq<Handle>)
      ensures forall w': World, m {:trigger MaterialUsed(w', m)} ::
                w'.instances == w.instances - Elements(instances) ==>
                  (MaterialUsed(w', m) <==> ShownBeyond(w, m, Elements(instances)))
    {
      forall w': World, m | w'.instances == w.instances - Elements(instances)
        ensures MaterialUsed(w', m) <==> ShownBeyond(w, m, Elements(instances))
      {
        if MaterialUsed(w', m) {
          var h :| h in w'.instances && w'.instances[h].material == m;
          assert h in w.instances;
        }
        if ShownBeyond(w, m, Elements(instances)) {
          var h :| h in w.instances && h !in Elements(instances) && w.instances[h].material == m;
          assert h in w'.instances;
        }
      }
    }

    /** Creates the mesh, which has no instances yet, and takes its reference. */
    method BeginNew(call: MeshCall) returns (mesh: Handle, material: Handle)
      requires Valid() && call.key !in meshes
      modifies this`materials, this`meshOwn, this`matOwn, world
      ensures old(world.history) <= world.history
      ensures world.Safe()
      ensures Scene(world.contents, Others(call.key), Some(Pending(call.key, mesh, [])),
                    multiset{} + One(call.materialKey))
      ensures call.materialKey in Memory().Handles() && material == Memory().Handles()[call.materialKey]
      ensures material in world.contents.materials
      ensures mesh == old(world.contents).next && mesh !in old(world.contents).meshes
      ensures world.contents.meshes == old(world.contents).meshes[mesh := call.payload]
      ensures world.contents.instances == old(world.contents).instances
      ensures ResourcesKept(old(world.contents), world.contents)
      ensures OwnersKept(old(world.contents), old(matOwn), matOwn)
      ensures materials == AcquiredEntries(old(materials), call.materialKey, material)
    {
      hide Scene, NoDangling, Acquired, ResourcesKept, AcquiredEntries, OwnersKept, KeyAcquired, RenderWorld.Recorded;
      var key := call.key;
      ghost var w := world.contents;
      AddMesh(w, Memory(), key, call.payload, multiset{});
      mesh := world.CreateMesh(call.payload);
      meshOwn := meshOwn.(mesh := meshOwn.mesh[mesh := key]);
      assert meshes - {key} == meshes;
      ghost var w1, b1 := world.contents, Memory();
      AcquireKeeps(w1, b1, Some(Pending(key, mesh, [])), multiset{}, call.materialKey);
      MaterialsBelowNext(w1, b1, Some(Pending(key, mesh, [])), multiset{});
      AcquiredFrame(w1, b1, call.materialKey);
      material := AcquireMaterialLocked(call.materialKey);
      OwnersFrame(w, w1, b1.matOwn, matOwn);
      ResourcesFrame(w, w1, world.contents);
    }

    method SyncNewMesh(call: MeshCall)
      requires Valid() && call.key !in meshes
      modifies this, world
      ensures old(world.history) <= world.history
      ensures Valid() && MeshSynced(old(world.contents), old(Memory()), world.contents, Memory(), call)
      ensures OwnersKept(old(world.contents), old(matOwn), matOwn)
    {
      hide Scene, NoDangling, MeshSynced, Grown, ResourcesKept, AcquiredEntries, OwnersKept, RenderWorld.Recorded;
      var key := call.key;
      ghost var w, b := world.contents, Memory();
      var mesh, material := BeginNew(call);
      assert meshes - {key} == meshes;
      ghost var w2 := world.contents;
      ghost var extra := multiset{} + One(call.materialKey);
      var instances := GrowInstances(key, mesh, material, [], call.transforms, call.visible, extra);
      var descriptors := Targets(mesh, material, call.transforms, call.visible);
      var state := MeshState(mesh, instances, descriptors, call.materialKey, call.visible);
      AttachTargets(world.contents, Memory(), key, state, multiset{}, call.transforms);
      NewMeshSynced(w, b, w2, world.contents, Memory(), call, state);
      meshes := meshes[key := state];
    }

    /** Gives the pending mesh one instance for every transform, and rewrites their descriptors. */
    method ResizeInstances(call: MeshCall, mesh: Handle, material: Handle, before: seq<Handle>, kept: nat,
                           ghost extra: multiset<string>)
      returns (instances: seq<Handle>, descriptors: seq<InstanceDescriptor>)
      requires world.Safe() && Scene(world.contents, Others(call.key), Some(Pending(call.key, mesh, before)), extra)
      requires material in world.contents.materials
      requires kept == if |before| <= |call.transforms| then |before| else |call.transforms|
      modifies this`meshOwn, world
      ensures old(world.history) <= world.history
      ensures world.Safe()
      ensures Scene(world.contents, Others(call.key), Some(Pending(call.key, mesh, instances)), extra)
      ensures |instances| == |call.transforms| && instances[..kept] == before[..kept]
      ensures descriptors == Targets(mesh, material, call.transforms, call.visible)
      ensures InstancesSynced(old(world.contents), world.contents, before, kept, instances, descriptors,
                              call.instancesFlagged)
      ensures world.contents == old(world.contents).(instances := world.contents.instances, next := world.contents.next)
    {
      hide MeshSide, MaterialSide, ReferencesAgree, NoDangling, InstancesSynced;
      ghost var w := world.contents;
      PendingDistinct(w, Others(call.key), Pending(call.key, mesh, before), extra);
      var trimmed := TrimInstances(call.key, mesh, before, |call.transforms|, extra);
      ghost var w1 := world.contents;
      instances := GrowInstances(call.key, mesh, material, trimmed, call.transforms, call.visible, extra);
      ghost var w2 := world.contents;
      descriptors := UpdateInstances(call.key, mesh, material, instances, call.transforms, call.visible,
                                     call.instancesFlagged, extra);
      ResizedSynced(w, w1, w2, world.contents, before, kept, instances, descriptors, call.instancesFlagged);
    }

    /** Resolves the binding: a changed key is acquired, and the former one handed back for release. */
    method ResolveBinding(key: string, former: string, desired: string, ghost p: Option<Pending>)
      returns (material: Handle, released: string)
      requires world.Safe() && Scene(world.contents, Others(key), p, multiset{} + One(former))
      requires former in Others(key).Handles()
      modifies this`materials, this`matOwn, world
      ensures old(world.history) <= world.history
      ensures world.Safe() && Scene(world.contents, Others(key), p, Extra(former, desired))
      ensures released == if former == desired then "" else former
      ensures desired in Others(key).Handles() && material == Others(key).Handles()[desired]
      ensures former in Others(key).Handles()
      ensures material in world.contents.materials
      ensures materials ==
              if former == desired then old(materials) else AcquiredEntries(old(materials), desired, material)
      ensures former != desired ==>
                && (former in old(materials) <==> former in materials)
                && (former in old(materials) ==> materials[former] == old(materials)[former])
      ensures world.contents.meshes == old(world.contents).meshes
      ensures world.contents.instances == old(world.contents).instances
      ensures ResourcesKept(old(world.contents), world.contents)
      ensures OwnersKept(old(world.contents), old(matOwn), matOwn)
    {
      hide MeshSide, MaterialSide, ReferencesAgree, NoDangling, Acquired, KeyAcquired;
      material, released := fallbackMaterial, "";
      ghost var w, b, rest := world.contents, Others(key), multiset{} + One(former);
      if desired != former {
        released := former;
        AcquireKeeps(w, b, p, rest, desired);
        MaterialsBelowNext(w, b, p, rest);
        AcquiredFrame(w, b, desired);
        AcquiredApart(w, b, desired, meshes);
        AcquiredApart(w, b, desired, meshes - {key});
        material := AcquireMaterialLocked(desired);
        assert (world.contents, Others(key)) == Acquired(w, b, desired);
      } else {
        HeldHandleLive(w, b, p, rest, desired);
        if desired != "" {
          material := materials[desired].handle;
        }
      }
    }

    /** Puts the mesh back and releases the former key. */
    method FinishMesh(key: string, st: MeshState, former: string, released: string, ghost transforms: seq<int>)
      requires world.Safe()
      requires Scene(world.contents, Others(key), Some(Pending(key, st.mesh, st.instances)),
                     Extra(former, st.materialKey))
      requires st.materialKey in Others(key).Handles() && |st.instances| == |transforms|
      requires st.descriptors == Targets(st.mesh, Others(key).Handles()[st.materialKey], transforms, st.authoredVisible)
      requires released == if former == st.materialKey then "" else former
      modifies this`meshes, this`materials, world
      ensures old(world.history) <= world.history
      ensures (world.contents, Memory()) ==
                Released(old(world.contents), old(Others(key)).(meshes := old(meshes)[key := st]), released)
      ensures world.Safe() <==> !TakesAway(old(world.contents), old(Others(key)), released)
      ensures MaterialsHeld() && (world.Safe() ==> Valid())
    {
      hide MeshSide, MaterialSide, ReferencesAgree, NoDangling, Released, MaterialUsed, EntriesFollow;
      ghost var w, held := world.contents, Others(key);
      assert held.meshes[key := st] == meshes[key := st];
      meshes := meshes[key := st];
      ReleaseMaterialLocked(released);
      if world.Safe() {
        ReleaseDone(w, held, key, st, former, released, transforms, world.contents, Memory());
      }
    }

    /** Takes the mesh out of the memory and writes its payload if an aspect is flagged. */
    method BeginUpdate(call: MeshCall)
      requires Valid() && call.key in meshes
      modifies world
      ensures old(world.history) <= world.history
      ensures world.Safe() && meshes[call.key].materialKey in Others(call.key).Handles()
      ensures var st := meshes[call.key];
              Scene(world.contents, Others(call.key), Some(Pending(call.key, st.mesh, st.instances)),
                    multiset{} + One(st.materialKey))
      ensures world.contents == old(world.contents).(
                meshes := if call.meshFlagged then old(world.contents).meshes[meshes[call.key].mesh := call.payload]
                          else old(world.contents).meshes)
    {
      hide MeshSide, MaterialSide, ReferencesAgree, NoDangling;
      var key, state := call.key, meshes[call.key];
      ghost var p := Some(Pending(key, state.mesh, state.instances));
      Detach(world.contents, Memory(), key, multiset{});
      if call.meshFlagged {
        SetMeshPayload(world.contents, Others(key), p, multiset{} + One(state.materialKey), state.mesh, call.payload);
        var ok := world.UpdateMesh(state.mesh, call.payload);
        assert ok;
      }
    }

    /** Acquires the new material before any instance moves to it, and releases the old one last. */
    method SyncKnownMesh(call: MeshCall)
      requires Valid() && call.key in meshes
      modifies this, world
      ensures old(world.history) <= world.history
      ensures MeshSynced(old(world.contents), old(Memory()), world.contents, Memory(), call)
      ensures OwnersKept(old(world.contents), old(matOwn), matOwn)
      ensures world.Safe() <==> !StrandsFormer(old(world.contents), old(Memory()), call)
      ensures MaterialsHeld() && (world.Safe() ==> Valid())
    {
      hide MaterialSide, OwnersKept;
      hide Scene, NoDangling, MeshSynced, InstancesSynced, Released, MaterialUsed, AcquiredEntries, ReleasedEntries,
        Extra, One, Retires, ShownBeyond, RenderWorld.Safe, RenderWorld.Recorded;
      var key, state := call.key, meshes[call.key];
      ghost var w, b := world.contents, Memory();
      ghost var p := Some(Pending(key, state.mesh, state.instances));
      BeginUpdate(call);
      ghost var w1 := world.contents;
      PendingDistinct(w1, Others(key), p.value, multiset{} + One(state.materialKey));
      var material, released := ResolveBinding(key, state.materialKey, call.materialKey, p);
      var kept := if |state.instances| <= |call.transforms| then |state.instances| else |call.transforms|;
      ghost var w2 := world.contents;
      ResourcesFrame(w, w1, w2);
      OwnersFrame(w, w1, b.matOwn, matOwn);
      var instances, descriptors := ResizeInstances(call, state.mesh, material, state.instances, kept,
                                                    Extra(state.materialKey, call.materialKey));
      ghost var w3, held := world.contents, Others(key);
      var st := MeshState(state.mesh, instances, descriptors, call.materialKey, call.visible);
      FormerTaken(w, w2, w3, b, held, call, st, released);
      FinishMesh(key, st, state.materialKey, released, call.transforms);
      ghost var b3 := held.(meshes := b.meshes[key := st]);
      KnownMeshSynced(w, b, w2, w3, b3, world.contents, Memory(), call, st, released);
    }

    /** Brings one Hydra mesh into the world: without points or indices it is removed. */
    method SyncMesh(call: MeshCall, empty: bool)
      requires Valid()
      modifies this, world
      ensures old(world.history) <= world.history
      ensures empty && call.key !in old(meshes) ==>
                world.contents == old(world.contents) && Memory() == old(Memory())
      ensures empty && call.key in old(meshes) ==>
                (world.contents, Memory()) ==
                Released(WithoutMesh(old(world.contents), old(meshes)[call.key]),
                         old(Memory()).(meshes := old(meshes) - {call.key}), old(meshes)[call.key].materialKey)
      ensures !empty ==> MeshSynced(old(world.contents), old(Memory()), world.contents, Memory(), call)
      ensures EntriesFollow(old(world.contents), old(materials), world.contents, materials)
      ensures KeptByUse(old(materials), materials, meshes)
      ensures NewAreUnauthored(old(materials), materials, call.materialKey)
      ensures !empty ==>
                && call.key in meshes && (call.materialKey == "" || call.materialKey in materials)
                && InstancesFollow(old(world.contents),
                                   if call.key in old(meshes) then old(meshes)[call.key].instances else [],
                                   world.contents, meshes[call.key],
                                   if call.materialKey == "" then fallbackMaterial
                                   else materials[call.materialKey].handle, call)
      ensures world.Safe() <==>
              if empty then !StrandsOwn(old(world.contents), old(Memory()), call.key)
              else !StrandsFormer(old(world.contents), old(Memory()), call)
      ensures world.Safe() ==> Valid()
    {
      hide Scene, NoDangling, MeshSynced, Released, Strands, EntriesFollow, KeptByUse, OwnersKept, InstancesFollow;
      ghost var w, b := world.contents, Memory();
      if empty {
        if call.key in meshes {
          RemoveFoundMesh(call.key);
        } else {
          SettledKeeps(w, b);
        }
        return;
      }
      if call.key !in meshes {
        SyncNewMesh(call);
        SceneHeld(world.contents, Memory());
      } else {
        SyncKnownMesh(call);
      }
      SyncedFollows(w, b, world.contents, Memory(), call);
      SyncedInstancesFollow(w, b, world.contents, Memory(), call);
    }

    method RemoveMesh(key: string)
      requires Valid()
      modifies this`meshes, this`materials, world
      ensures old(world.history) <= world.history
      ensures meshes == old(meshes) - {key} && (world.Safe() ==> Valid())
      ensures key !in old(meshes) ==> world.contents == old(world.contents) && materials == old(materials)
      ensures key in old(meshes) ==>
                (world.contents, Memory()) ==
                Released(WithoutMesh(old(world.contents), old(meshes)[key]), old(Memory()).(meshes := meshes),
                         old(meshes)[key].materialKey)
      ensures EntriesFollow(old(world.contents), old(materials), world.contents, materials)
      ensures KeptByUse(old(materials), materials, meshes) && materials.Keys <= old(materials).Keys
      ensures world.Safe() <==> !StrandsOwn(old(world.contents), old(Memory()), key)
    {
      hide Scene, Released, Strands, RenderWorld.Safe, EntriesFollow, KeptByUse;
      if key !in meshes {
        assert meshes - {key} == meshes;
        SettledKeeps(world.contents, Memory());
        return;
      }
      RemoveFoundMesh(key);
    }

    /** Removes instances from the end until at most n are left. */
    method TrimInstances(key: string, mesh: Handle, instances: seq<Handle>, n: nat, ghost extra: multiset<string>)
      returns (kept: seq<Handle>)
      requires world.Safe() && Scene(world.contents, Others(key), Some(Pending(key, mesh, instances)), extra)
      modifies world
      ensures old(world.history) <= world.history
      ensures world.Safe() && Scene(world.contents, Others(key), Some(Pending(key, mesh, kept)), extra)
      ensures kept == instances[..if |instances| <= n then |instances| else n]
      ensures world.contents ==
                old(world.contents).(instances := old(world.contents).instances - Elements(instances[|kept|..]))
    {
      hide Scene, NoDangling, Elements;
      kept := instances;
      ghost var w, b := world.contents, Others(key);
      RemovedNone(w.instances, instances);
      while |kept| > n
        invariant old(world.history) <= world.history
        invariant world.Safe() && b == Others(key) && |kept| <= |instances| && kept == instances[..|kept|]
        invariant |kept| >= n || kept == instances
        invariant Scene(world.contents, b, Some(Pending(key, mesh, kept)), extra)
        invariant world.contents == w.(instances := w.instances - Elements(instances[|kept|..]))
      {
        var h := kept[|kept| - 1];
        ghost var p := Pending(key, mesh, kept);
        NextToDrop(world.contents, b, p, extra);
        DropInstance(world.contents, b, p, extra, h, kept[..|kept| - 1]);
        var ok := world.RemoveInstance(h);
        assert ok;
        RemovedBack(w.instances, instances, |kept| - 1);
        kept := kept[..|kept| - 1];
      }
    }

    /** Creates instances at the end until there is one for every transform. */
    method GrowInstances(key: string, mesh: Handle, material: Handle, instances: seq<Handle>, transforms: seq<int>,
                         visible: bool, ghost extra: multiset<string>)
      returns (grown: seq<Handle>)
      requires world.Safe() && Scene(world.contents, Others(key), Some(Pending(key, mesh, instances)), extra)
      requires material in world.contents.materials && |instances| <= |transforms|
      modifies this`meshOwn, world
      ensures old(world.history) <= world.history
      ensures world.Safe() && Scene(world.contents, Others(key), Some(Pending(key, mesh, grown)), extra)
      ensures |grown| == |transforms| && grown[..|instances|] == instances
      ensures Grown(old(world.contents), world.contents, grown, |instances|,
                    Targets(mesh, material, transforms, visible))
    {
      hide Scene, NoDangling, Grown;
      grown := instances;
      ghost var w := world.contents;
      ghost var targets := Targets(mesh, material, transforms, visible);
      GrownNone(w, instances, targets);
      while |grown| < |transforms|
        invariant old(world.history) <= world.history
        invariant world.Safe() && |instances| <= |grown| <= |transforms| && grown[..|instances|] == instances
        invariant Scene(world.contents, Others(key), Some(Pending(key, mesh, grown)), extra)
        invariant Grown(w, world.contents, grown, |instances|, targets) && world.contents.materials == w.materials
      {
        var descriptor := InstanceDescriptor(mesh, material, transforms[|grown|], visible);
        ghost var p, w1 := Pending(key, mesh, grown), world.contents;
        AddInstance(world.contents, Others(key), p, extra, descriptor);
        InstancesBelowNext(world.contents, Others(key), Some(p), extra);
        var ok, h := world.CreateInstance(descriptor);
        assert ok;
        meshOwn := meshOwn.(instance := meshOwn.instance[h := key]);
        GrownMore(w, w1, world.contents, grown, |instances|, targets);
        grown := grown + [h];
      }
    }

    /** Rewrites every cached descriptor, and the instances too when an aspect is flagged. */
    method UpdateInstances(key: string, mesh: Handle, material: Handle, instances: seq<Handle>, transforms: seq<int>,
                           visible: bool, flagged: bool, ghost extra: multiset<string>)
      returns (descriptors: seq<InstanceDescriptor>)
      requires world.Safe() && Scene(world.contents, Others(key), Some(Pending(key, mesh, instances)), extra)
      requires material in world.contents.materials && |instances| == |transforms|
      modifies world
      ensures old(world.history) <= world.history
      ensures world.Safe() && Scene(world.contents, Others(key), Some(Pending(key, mesh, instances)), extra)
      ensures descriptors == Targets(mesh, material, transforms, visible)
      ensures !flagged ==> world.contents == old(world.contents)
      ensures flagged ==> Written(old(world.contents), world.contents, instances, descriptors)
    {
      hide Scene, NoDangling, Written;
      descriptors := [];
      ghost var w, p := world.contents, Pending(key, mesh, instances);
      WrittenNone(w, instances);
      PendingDistinct(w, Others(key), p, extra);
      while |descriptors| < |instances|
        invariant old(world.history) <= world.history
        invariant world.Safe() && |descriptors| <= |instances|
        invariant Scene(world.contents, Others(key), Some(p), extra)
        invariant descriptors == Targets(mesh, material, transforms, visible)[..|descriptors|]
        invariant !flagged ==> world.contents == w
        invariant flagged ==> Written(w, world.contents, instances[..|descriptors|], descriptors)
        invariant material in world.contents.materials
      {
        var i := |descriptors|;
        var descriptor := InstanceDescriptor(mesh, material, transforms[i], visible);
        if flagged {
          ghost var w1 := world.contents;
          SetInstance(world.contents, Others(key), p, extra, instances[i], descriptor);
          var ok := world.UpdateInstance(instances[i], descriptor);
          assert ok;
          WrittenMore(w, w1, world.contents, instances, descriptors, descriptor);
        }
        descriptors := descriptors + [descriptor];
      }
      assert instances[..|descriptors|] == instances;
    }

    // ------------------------------------------------------------ Materials

    /** The slot's texture shows the payload afterwards; a missing one is created. */
    method FillTexture(key: string, slot: TextureSlot, payload: int) returns (t: Handle)
      requires world.Recorded() && Open(key) && key in materials
      modifies this`materials, this`matOwn, world
      ensures old(world.history) <= world.history
      ensures world.Recorded() && Open(key) && (world.Safe() <==> old(world.Safe()))
      ensures t == if TextureOf(old(materials)[key], slot).Some? then TextureOf(old(materials)[key], slot).value
                   else old(world.contents).next
      ensures materials == old(materials)[key := WithTexture(old(materials)[key], slot, Some(t))]
      ensures world.contents == old(world.contents).(textures := old(world.contents).textures[t := payload],
                                                     next := world.contents.next)
      ensures world.contents.next ==
              old(world.contents).next + if TextureOf(old(materials)[key], slot).Some? then 0 else 1
    {
      hide OpenSide, NoDangling, TextureUsed, SamplerUsed, RenderWorld.Safe, RenderWorld.Recorded;
      if TextureOf(materials[key], slot).None? {
        AddTexture(world.contents, materials, matOwn, fallbackMaterial, key, slot, payload);
        t := world.CreateTexture(payload);
        materials := materials[key := WithTexture(materials[key], slot, Some(t))];
        matOwn := matOwn.(texture := matOwn.texture[t := (key, slot)]);
      } else {
        SlotsLive(key);
        t := TextureOf(materials[key], slot).value;
        WriteTexture(key, slot, payload);
      }
    }

    method FillSampler(key: string, slot: TextureSlot, payload: int) returns (s: Handle)
      requires world.Recorded() && Open(key) && key in materials
      modifies this`materials, this`matOwn, world
      ensures old(world.history) <= world.history
      ensures world.Recorded() && Open(key) && (world.Safe() <==> old(world.Safe()))
      ensures s == if SamplerOf(old(materials)[key], slot).Some? then SamplerOf(old(materials)[key], slot).value
                   else old(world.contents).next
      ensures materials == old(materials)[key := WithSampler(old(materials)[key], slot, Some(s))]
      ensures world.contents == old(world.contents).(samplers := old(world.contents).samplers[s := payload],
                                                     next := world.contents.next)
      ensures world.contents.next ==
              old(world.contents).next + if SamplerOf(old(materials)[key], slot).Some? then 0 else 1
    {
      hide OpenSide, NoDangling, TextureUsed, SamplerUsed, RenderWorld.Safe, RenderWorld.Recorded;
      if SamplerOf(materials[key], slot).None? {
        AddSampler(world.contents, materials, matOwn, fallbackMaterial, key, slot, payload);
        s := world.CreateSampler(payload);
        materials := materials[key := WithSampler(materials[key], slot, Some(s))];
        matOwn := matOwn.(sampler := matOwn.sampler[s := (key, slot)]);
      } else {
        SlotsLive(key);
        s := SamplerOf(materials[key], slot).value;
        WriteSampler(key, slot, payload);
      }
    }

    /** Creates or updates the texture and sampler of one slot of the open entry. */
    method AcquireTextureSlotLocked(key: string, slot: TextureSlot, texture: Option<int>, sampler: int)
      returns (binding: Option<TextureBinding>)
      requires world.Recorded() && Open(key) && key in materials
      modifies this`materials, this`matOwn, world
      ensures old(world.history) <= world.history
      ensures world.Recorded() && Open(key) && (world.Safe() <==> old(world.Safe()))
      ensures key in materials && materials == old(materials)[key := materials[key]]
      ensures SlotAcquired(old(world.contents), old(materials)[key], slot, texture, sampler, world.contents,
                           materials[key], binding)
    {
      hide OpenSide, RenderWorld.Safe, RenderWorld.Recorded;
      if texture.None? {
        return None;
      }
      var t := FillTexture(key, slot, texture.value);
      var s := FillSampler(key, slot, sampler);
      binding := Some(TextureBinding(t, s));
    }

    lemma SlotsLive(key: string)
      requires Open(key)
      ensures key in materials
      ensures forall slot :: TextureOf(materials[key], slot).Some? ==>
                TextureOf(materials[key], slot).value in world.contents.textures
      ensures forall slot :: SamplerOf(materials[key], slot).Some? ==>
                SamplerOf(materials[key], slot).value in world.contents.samplers
    {
    }

    /** Writes a texture the open entry holds, if its content changes. */
    method WriteTexture(key: string, slot: TextureSlot, payload: int)
      requires world.Recorded() && Open(key) && key in materials && TextureOf(materials[key], slot).Some?
      requires TextureOf(materials[key], slot).value in world.contents.textures
      modifies world
      ensures old(world.history) <= world.history
      ensures world.Recorded() && Open(key) && (world.Safe() <==> old(world.Safe()))
      ensures world.contents == old(world.contents).(
                textures := old(world.contents).textures[TextureOf(materials[key], slot).value := payload])
    {
      hide OpenSide, NoDangling;
      var t := TextureOf(materials[key], slot).value;
      if world.contents.textures[t] != payload {
        ghost var w := world.contents;
        var ok := world.UpdateTexture(t, payload);
        assert ok;
        SetPayload(w, world.contents, materials, matOwn, fallbackMaterial, key);
      }
      assert world.contents.textures == old(world.contents).textures[t := payload];
    }

    /** Writes a sampler the open entry holds, if its content changes. */
    method WriteSampler(key: string, slot: TextureSlot, payload: int)
      requires world.Recorded() && Open(key) && key in materials && SamplerOf(materials[key], slot).Some?
      requires SamplerOf(materials[key], slot).value in world.contents.samplers
      modifies world
      ensures old(world.history) <= world.history
      ensures world.Recorded() && Open(key) && (world.Safe() <==> old(world.Safe()))
      ensures world.contents == old(world.contents).(
                samplers := old(world.contents).samplers[SamplerOf(materials[key], slot).value := payload])
    {
      hide OpenSide, NoDangling;
      var s := SamplerOf(materials[key], slot).value;
      if world.contents.samplers[s] != payload {
        ghost var w := world.contents;
        var ok := world.UpdateSampler(s, payload);
        assert ok;
        SetPayload(w, world.contents, materials, matOwn, fallbackMaterial, key);
      }
      assert world.contents.samplers == old(world.contents).samplers[s := payload];
    }

    /** Writes the material of the open entry, if it changes. */
    method WriteMaterial(key: string, descriptor: MaterialDescriptor)
      requires world.Recorded() && Open(key) && key in materials
      requires materials[key].handle in world.contents.materials
      requires Coverage(materials[key], descriptor)
      modifies this`materials, world
      ensures old(world.history) <= world.history
      ensures world.Recorded() && Open(key) && (world.Safe() <==> old(world.Safe()))
      ensures materials == old(materials)[key := old(materials)[key].(descriptor := descriptor)]
      ensures world.contents == old(world.contents).(
                materials := old(world.contents).materials[old(materials)[key].handle := descriptor])
    {
      hide OpenSide, NoDangling;
      var e := materials[key];
      HeldDescriptor(key);
      PutMaterial(world.contents, materials, matOwn, fallbackMaterial, key, descriptor);
      ghost var w := world.contents;
      if e.descriptor.parameters != descriptor.parameters || e.descriptor.features != descriptor.features ||
         e.descriptor.base != descriptor.base || e.descriptor.normal != descriptor.normal {
        var ok := world.UpdateMaterial(e.handle, descriptor);
        assert ok;
      }
      assert world.contents.materials == w.materials[e.handle := descriptor];
      materials := materials[key := e.(descriptor := descriptor)];
    }

    /** Ends a step on an entry that has a material. */
    method FinishKnown(key: string, descriptor: MaterialDescriptor)
      requires world.Recorded() && Open(key) && key in materials
      requires materials[key].handle in world.contents.materials
      requires Coverage(materials[key], descriptor)
      modifies this`materials, world
      ensures old(world.history) <= world.history
      ensures world.Recorded() && MaterialsHeld() && (world.Safe() <==> old(world.Safe()))
      ensures materials == old(materials)[key := Finished(old(materials)[key], descriptor)]
      ensures world.contents == FinishedWorld(old(world.contents), old(materials)[key], descriptor)
    {
      hide MaterialSide, OpenSide, NoDangling;
      ghost var e, earlier := materials[key], materials;
      WriteMaterial(key, descriptor);
      if descriptor.base.None? {
        ReleaseTextureSlotLocked(key, BaseColor);
      }
      if descriptor.normal.None? {
        ReleaseTextureSlotLocked(key, NormalMap);
      }
      assert materials == earlier[key := Finished(e, descriptor)];
      CloseEntry(world.contents, materials, matOwn, fallbackMaterial, key);
    }

    lemma HeldDescriptor(key: string)
      requires Open(key) && key in materials && materials[key].handle in world.contents.materials
      ensures world.contents.materials[materials[key].handle] == materials[key].descriptor
    {
    }

    /** Creates the material of a new entry. */
    method PutNew(key: string, descriptor: MaterialDescriptor)
      requires world.Recorded() && Open(key) && key in materials
      requires materials[key].handle !in world.contents.materials && Coverage(materials[key], descriptor)
      requires SlotsExact(materials[key], descriptor)
      modifies this`materials, this`matOwn, world
      ensures old(world.history) <= world.history
      ensures world.Recorded() && MaterialsHeld() && (world.Safe() <==> old(world.Safe()))
      ensures var w := old(world.contents);
              && world.contents == w.(materials := w.materials[w.next := descriptor], next := w.next + 1)
              && materials == old(materials)[key := old(materials)[key].(handle := w.next, descriptor := descriptor)]
    {
      hide MaterialSide, OpenSide, NoDangling;
      ghost var earlier := materials;
      PutNewMaterial(world.contents, materials, matOwn, fallbackMaterial, key, descriptor);
      var ok, h := world.CreateMaterial(descriptor);
      assert ok;
      materials := materials[key := materials[key].(handle := h, descriptor := descriptor)];
      matOwn := matOwn.(material := matOwn.material[h := key]);
      CloseEntry(world.contents, materials, matOwn, fallbackMaterial, key);
    }

    /** Creates or updates both slots of the open entry, and describes the material. */
    method AcquireSlots(key: string, parsed: ParsedMaterial) returns (descriptor: MaterialDescriptor)
      requires world.Recorded() && Open(key) && key in materials && SlotsSound(materials[key], world.contents)
      modifies this`materials, this`matOwn, world
      ensures old(world.history) <= world.history
      ensures world.Recorded() && Open(key) && (world.Safe() <==> old(world.Safe()))
      ensures key in materials && materials == old(materials)[key := materials[key]]
      ensures Filled(old(world.contents), old(materials)[key], parsed, world.contents, materials[key], descriptor)
      ensures Coverage(materials[key], descriptor) && world.contents.materials == old(world.contents).materials
      ensures materials[key].handle == old(materials)[key].handle
    {
      hide OpenSide, NoDangling, SlotAcquired, SlotsSound, OthersKept, BindingShows, TexturesOf, SamplersOf;
      ghost var w, e := world.contents, materials[key];
      var base := AcquireTextureSlotLocked(key, BaseColor, parsed.texture, parsed.sampler);
      ghost var w1, e1 := world.contents, materials[key];
      var normal := AcquireTextureSlotLocked(key, NormalMap, parsed.normalTexture, parsed.normalSampler);
      BothFilled(w, e, w1, e1, world.contents, materials[key], base, normal, parsed);
      descriptor := MaterialDescriptor(parsed.parameters, parsed.features, base, normal);
    }

    /** Writes an authored material: afterwards the world shows exactly the parsed one. */
    method SyncMaterial(key: string, parsed: ParsedMaterial)
      requires Valid()
      modifies this`materials, this`matOwn, world
      ensures old(world.history) <= world.history
      ensures Valid()
      ensures key in materials && materials == old(materials)[key := materials[key]]
      ensures Shows(materials[key], parsed, world.contents)
      ensures materials[key].handle in world.contents.materials
      ensures var d := world.contents.materials[materials[key].handle];
              && d.parameters == parsed.parameters && d.features == parsed.features
              && (d.base.Some? <==> parsed.texture.Some?) && (d.normal.Some? <==> parsed.normalTexture.Some?)
      ensures forall b :: world.contents.materials[materials[key].handle].base == Some(b) ==>
                && b.texture in world.contents.textures && Some(world.contents.textures[b.texture]) == parsed.texture
                && b.sampler in world.contents.samplers && world.contents.samplers[b.sampler] == parsed.sampler
      ensures forall b :: world.contents.materials[materials[key].handle].normal == Some(b) ==>
                && b.texture in world.contents.textures
                && Some(world.contents.textures[b.texture]) == parsed.normalTexture
                && b.sampler in world.contents.samplers && world.contents.samplers[b.sampler] == parsed.normalSampler
      ensures materials[key].authored
      ensures key in old(materials) ==> Keeps(old(materials)[key], materials[key])
      ensures key !in old(materials) ==>
                materials[key].references == 0 && materials[key].handle !in old(world.contents).materials
      ensures OnlyEntryChanged(old(world.contents), world.contents, old(materials), materials[key], key)
    {
      hide MeshSide, MaterialSide, ReferencesAgree, OpenSide, NoDangling;
      hide Filled, SlotsSound, Shows, Coverage, Finished, FinishedWorld;
      ghost var w, b := world.contents, Memory();
      var created := key !in materials;
      NewSlotsSound(w, materials, matOwn, fallbackMaterial);
      if created {
        OpenNew(w, materials, matOwn, fallbackMaterial, key, 0, true);
        materials := materials[key := NewEntry(0, true)];
      } else {
        EntrySlotsSound(w, materials, matOwn, fallbackMaterial, key);
        OpenKnown(w, materials, matOwn, fallbackMaterial, key, materials[key].(authored := true));
        materials := materials[key := materials[key].(authored := true)];
      }
      var descriptor := AcquireSlots(key, parsed);
      if created {
        NewSynced(w, world.contents, materials[key], descriptor, parsed, b.materials, key);
        PutNew(key, descriptor);
      } else {
        KnownSynced(w, world.contents, materials[key], descriptor, parsed, b.materials, key);
        FinishKnown(key, descriptor);
      }
      assert materials == b.materials[key := materials[key]];
      ShowsPlainly(materials[key], parsed, world.contents);
      SyncedKeeps(w, world.contents, b, materials[key], matOwn, key);
    }

    /** Ends the life of an entry no mesh references; a referenced one stays until released. */
    method RemoveMaterial(key: string)
      requires Valid()
      modifies this`materials, world
      ensures old(world.history) <= world.history
      ensures world.Safe() <==> !StrandsEntry(old(world.contents), old(Memory()), key)
      ensures world.Safe() ==> Valid()
      ensures key !in old(materials) ==> world.contents == old(world.contents) && materials == old(materials)
      ensures key in old(materials) && old(materials)[key].references == 0 ==>
                && materials == old(materials) - {key}
                && world.contents == RetiredWorld(old(world.contents), old(materials)[key])
      ensures key in old(materials) && old(materials)[key].references > 0 ==>
                && materials == old(materials)[key := old(materials)[key].(authored := false)]
                && world.contents == old(world.contents)
    {
      hide MeshSide, MaterialSide, ReferencesAgree, NoDangling, MaterialUsed;
      if key !in materials {
        return;
      }
      ghost var w, b := world.contents, Memory();
      var e := materials[key].(authored := false);
      MaterialSideFrame(w, w, materials, materials[key := e], matOwn, fallbackMaterial);
      materials := materials[key := e];
      if e.references == 0 {
        RetireMaterialLocked(key);
        assert materials == b.materials - {key};
        if world.Safe() {
          RetireUnreferenced(w, b, key);
        }
      } else {
        RecountReferences(b.meshes, b.materials, multiset{}, key, e, multiset{});
      }
    }

    // ------------------------------------------------------------ Visibility

    /** Rewrites the instances of one mesh whose cached visibility differs. */
    method RevealMesh(key: string, visible: bool)
      requires Valid() && key in meshes
      modifies this`meshes, world
      ensures old(world.history) <= world.history
      ensures Valid() && meshes == old(meshes)[key := Revealed(old(meshes)[key], visible)]
      ensures |old(meshes)[key].instances| == |old(meshes)[key].descriptors|
      ensures RevealedUpTo(old(world.contents), world.contents, old(meshes)[key], visible, |old(meshes)[key].instances|)
    {
      hide MeshSide, MaterialSide, ReferencesAgree, NoDangling, RevealedUpTo;
      var state := meshes[key];
      ghost var w, b, p := world.contents, Others(key), Pending(key, state.mesh, state.instances);
      ghost var extra := multiset{} + One(state.materialKey);
      Detach(w, Memory(), key, multiset{});
      PendingDistinct(w, b, p, extra);
      RevealNone(w, state, visible);
      var i := 0;
      while i < |state.instances|
        invariant old(world.history) <= world.history
        invariant 0 <= i <= |state.instances| && world.Safe() && Scene(world.contents, b, Some(p), extra)
        invariant RevealedUpTo(w, world.contents, state, visible, i) && world.contents.materials == w.materials
        invariant meshes == old(meshes)
      {
        ghost var w1 := world.contents;
        if state.descriptors[i].visible != visible {
          var descriptor := state.descriptors[i].(visible := visible);
          SetInstance(w1, b, p, extra, state.instances[i], descriptor);
          var ok := world.UpdateInstance(state.instances[i], descriptor);
          assert ok;
        }
        RevealedMore(w, w1, world.contents, state, visible, i);
        i := i + 1;
      }
      RevealedHeld(w, world.contents, state, visible, key, b.Handles()[state.materialKey], meshOwn);
      Attach(world.contents, b, key, Revealed(state, visible), multiset{});
      assert (meshes - {key})[key := Revealed(state, visible)] == meshes[key := Revealed(state, visible)];
      meshes := meshes[key := Revealed(state, visible)];
    }

    /** Whether one mesh's share of the visibility update is done. */
    ghost predicate Shown(w: World, before: map<string, MeshState>, key: string, visible: bool)
      requires key in before
      reads this, world
    {
      && key in meshes && meshes[key] == Revealed(before[key], visible)
      && ShownAs(w, world.contents, before[key], visible)
    }

    ghost predicate Untouched(w: World, before: map<string, MeshState>, key: string)
      requires key in before
      reads this, world
    {
      && key in meshes && meshes[key] == before[key]
      && (forall h :: h in before[key].instances ==>
            h in w.instances && h in world.contents.instances && world.contents.instances[h] == w.instances[h])
    }

    lemma AllUntouched(w: World)
      requires Valid() && w == world.contents
      ensures forall k :: k in meshes ==> Untouched(w, meshes, k)
    {
      forall k | k in meshes ensures Untouched(w, meshes, k) {
        Detach(w, Memory(), k, multiset{});
        PendingDistinct(w, Others(k), Pending(k, meshes[k].mesh, meshes[k].instances),
                        multiset{} + One(meshes[k].materialKey));
      }
    }

    /** Only instances differ. */
    predicate OnlyInstances(w: World)
      reads world
    {
      world.contents == w.(instances := world.contents.instances) && world.contents.instances.Keys == w.instances.Keys
    }

    /** Doing one mesh leaves the others as they were. */
    method RevealOne(key: string, visible: bool, ghost w: World, ghost before: map<string, MeshState>)
      requires Valid() && before.Keys == meshes.Keys && key in before && Untouched(w, before, key) && OnlyInstances(w)
      modifies this`meshes, world
      ensures old(world.history) <= world.history
      ensures Valid() && meshes.Keys == old(meshes).Keys && OnlyInstances(w)
      ensures Shown(w, before, key, visible)
      ensures forall k :: k in before && k != key && old(Untouched(w, before, k)) ==> Untouched(w, before, k)
      ensures forall k, v :: k in before && k != key && old(Shown(w, before, k, v)) ==> Shown(w, before, k, v)
    {
      hide Scene, NoDangling;
      ghost var w1, b := world.contents, Memory();
      RevealMesh(key, visible);
      ghost var w2 := world.contents;
      ShownAround(w, w1, w2, w2, before[key], visible);
      forall k, h | k in before && k != key && h in b.meshes[k].instances
        ensures h in w1.instances && h in w2.instances && w2.instances[h] == w1.instances[h]
      {
        InstancesDisjoint(w1, b, multiset{}, k, key, h);
      }
    }

    /** The mesh's cache is rewritten, and those of its instances whose cached visibility differs. */
    ghost predicate RevealedPlainly(w: World, before: map<string, MeshState>, key: string, visible: bool)
      requires key in before
      reads this, world
    {
      && key in meshes && |meshes[key].descriptors| == |before[key].descriptors|
      && (forall i :: 0 <= i < |meshes[key].descriptors| ==>
            meshes[key].descriptors[i] == before[key].descriptors[i].(visible := visible))
      && (forall i :: 0 <= i < |before[key].instances| ==>
            InstanceRevealed(w, world.contents, before[key], i, visible))
    }

    lemma ShownPlainly(w: World, before: map<string, MeshState>, key: string, visible: bool)
      requires key in before && Shown(w, before, key, visible)
      ensures RevealedPlainly(w, before, key, visible)
    {
    }

    /** Render's first step: every mesh is cached as visible if it is authored visible and
        selected, and only the instances whose cached visibility differs are rewritten. */
    method UpdateVisibility(selected: set<string>)
      requires Valid()
      modifies this`meshes, world
      ensures old(world.history) <= world.history
      ensures Valid() && meshes.Keys == old(meshes).Keys && OnlyInstances(old(world.contents))
      ensures forall k :: k in old(meshes) ==>
                Shown(old(world.contents), old(meshes), k, old(meshes)[k].authoredVisible && k in selected)
      ensures forall k :: k in old(meshes) ==>
                RevealedPlainly(old(world.contents), old(meshes), k, old(meshes)[k].authoredVisible && k in selected)
    {
      hide Scene, NoDangling, RevealedUpTo, ShownAs, Shown, RevealedPlainly;
      ghost var w, before := world.contents, meshes;
      AllUntouched(w);
      var todo := meshes.Keys;
      while todo != {}
        invariant old(world.history) <= world.history
        invariant Valid() && todo <= before.Keys == meshes.Keys && OnlyInstances(w)
        invariant forall k :: k in before && k in todo ==> Untouched(w, before, k)
        invariant forall k :: k in before && k !in todo ==>
                    Shown(w, before, k, before[k].authoredVisible && k in selected)
        decreases |todo|
      {
        var key :| key in todo;
        RevealOne(key, meshes[key].authoredVisible && key in selected, w, before);
        todo := todo - {key};
      }
      forall k | k in before
        ensures RevealedPlainly(w, before, k, before[k].authoredVisible && k in selected)
      {
        ShownPlainly(w, before, k, before[k].authoredVisible && k in selected);
      }
    }
  }
}
