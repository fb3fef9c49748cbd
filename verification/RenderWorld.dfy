/**
 The render world as the scene bridge uses it: sets of live handles, the references
 their descriptors hold, and the payloads last written.  Handles are never reissued.
 Every mutation is recorded, so that properties can speak of all intermediate worlds.
 */
module RenderWorlds {
  import opened Wrappers

  type Handle = nat

  datatype TextureBinding = TextureBinding(texture: Handle, sampler: Handle)

  /** Parameters and features stand for the values the bridge compares. */
  datatype MaterialDescriptor = MaterialDescriptor(
    parameters: int, features: int, base: Option<TextureBinding>, normal: Option<TextureBinding>)

  datatype InstanceDescriptor = InstanceDescriptor(mesh: Handle, material: Handle, transform: int, visible: bool)

  datatype World = World(
    meshes: map<Handle, int>,
    materials: map<Handle, MaterialDescriptor>,
    textures: map<Handle, int>,
    samplers: map<Handle, int>,
    instances: map<Handle, InstanceDescriptor>,
    next: Handle)

  predicate BindingLive(b: Option<TextureBinding>, w: World) {
    b.Some? ==> b.value.texture in w.textures && b.value.sampler in w.samplers
  }

  predicate MaterialLive(d: MaterialDescriptor, w: World) {
    BindingLive(d.base, w) && BindingLive(d.normal, w)
  }

  predicate InstanceLive(d: InstanceDescriptor, w: World) {
    d.mesh in w.meshes && d.material in w.materials
  }

  /** No live instance refers to a removed mesh or material, and no live material to a
      removed texture or sampler. */
  ghost predicate NoDangling(w: World) {
    && (forall h :: h in w.instances ==> InstanceLive(w.instances[h], w))
    && (forall h :: h in w.materials ==> MaterialLive(w.materials[h], w))
  }

  ghost predicate MeshUsed(w: World, h: Handle) {
    exists i :: i in w.instances && w.instances[i].mesh == h
  }

  ghost predicate MaterialUsed(w: World, h: Handle) {
    exists i :: i in w.instances && w.instances[i].material == h
  }

  predicate BindsTexture(d: MaterialDescriptor, t: Handle) {
    (d.base.Some? && d.base.value.texture == t) || (d.normal.Some? && d.normal.value.texture == t)
  }

  predicate BindsSampler(d: MaterialDescriptor, s: Handle) {
    (d.base.Some? && d.base.value.sampler == s) || (d.normal.Some? && d.normal.value.sampler == s)
  }

  ghost predicate TextureUsed(w: World, t: Handle) {
    exists m :: m in w.materials && BindsTexture(w.materials[m], t)
  }

  ghost predicate SamplerUsed(w: World, s: Handle) {
    exists m :: m in w.materials && BindsSampler(w.materials[m], s)
  }

  // ------------------------------------------------------------ When removal dangles

  lemma RemovingMesh(w: World, h: Handle)
    requires NoDangling(w) && h in w.meshes
    ensures NoDangling(w.(meshes := w.meshes - {h})) <==> !MeshUsed(w, h)
  {
    var w' := w.(meshes := w.meshes - {h});
    if !MeshUsed(w, h) {
      forall i | i in w'.instances ensures InstanceLive(w'.instances[i], w') {
        assert InstanceLive(w.instances[i], w);
      }
      forall m | m in w'.materials ensures MaterialLive(w'.materials[m], w') {
        assert MaterialLive(w.materials[m], w);
      }
    } else {
      var i :| i in w.instances && w.instances[i].mesh == h;
      assert !InstanceLive(w'.instances[i], w');
    }
  }

  lemma RemovingMaterial(w: World, h: Handle)
    requires NoDangling(w) && h in w.materials
    ensures NoDangling(w.(materials := w.materials - {h})) <==> !MaterialUsed(w, h)
  {
    var w' := w.(materials := w.materials - {h});
    forall m | m in w'.materials ensures MaterialLive(w'.materials[m], w') {
      assert MaterialLive(w.materials[m], w);
    }
    if !MaterialUsed(w, h) {
      forall i | i in w'.instances ensures InstanceLive(w'.instances[i], w') {
        assert InstanceLive(w.instances[i], w);
      }
    } else {
      var i :| i in w.instances && w.instances[i].material == h;
      assert !InstanceLive(w'.instances[i], w');
    }
  }

  lemma RemovingTexture(w: World, t: Handle)
    requires NoDangling(w) && t in w.textures
    ensures NoDangling(w.(textures := w.textures - {t})) <==> !TextureUsed(w, t)
  {
    var w' := w.(textures := w.textures - {t});
    forall i | i in w'.instances ensures InstanceLive(w'.instances[i], w') {
      assert InstanceLive(w.instances[i], w);
    }
    if !TextureUsed(w, t) {
      forall m | m in w'.materials ensures MaterialLive(w'.materials[m], w') {
        assert MaterialLive(w.materials[m], w);
      }
    } else {
      var m :| m in w.materials && BindsTexture(w.materials[m], t);
      assert !MaterialLive(w'.materials[m], w');
    }
  }

  lemma RemovingSampler(w: World, s: Handle)
    requires NoDangling(w) && s in w.samplers
    ensures NoDangling(w.(samplers := w.samplers - {s})) <==> !SamplerUsed(w, s)
  {
    var w' := w.(samplers := w.samplers - {s});
    forall i | i in w'.instances ensures InstanceLive(w'.instances[i], w') {
      assert InstanceLive(w.instances[i], w);
    }
    if !SamplerUsed(w, s) {
      forall m | m in w'.materials ensures MaterialLive(w'.materials[m], w') {
        assert MaterialLive(w.materials[m], w);
      }
    } else {
      var m :| m in w.materials && BindsSampler(w.materials[m], s);
      assert !MaterialLive(w'.materials[m], w');
    }
  }

  /** Writing a descriptor whose references are live keeps every reference live. */
  lemma Writing(w: World, w': World)
    requires NoDangling(w)
    requires w.meshes.Keys <= w'.meshes.Keys && w.textures.Keys <= w'.textures.Keys
    requires w.samplers.Keys <= w'.samplers.Keys && w.materials.Keys <= w'.materials.Keys
    requires forall h :: h in w'.instances ==>
               InstanceLive(w'.instances[h], w) || (h in w.instances && w'.instances[h] == w.instances[h])
    requires forall h :: h in w'.materials ==>
               MaterialLive(w'.materials[h], w) || (h in w.materials && w'.materials[h] == w.materials[h])
    ensures NoDangling(w')
  {
    forall h | h in w'.instances ensures InstanceLive(w'.instances[h], w') {
      assert h in w.instances ==> InstanceLive(w.instances[h], w);
    }
    forall h | h in w'.materials ensures MaterialLive(w'.materials[h], w') {
      assert h in w.materials ==> MaterialLive(w.materials[h], w);
    }
  }

  // ------------------------------------------------------------ The world object

  /** `ok` is false where the source throws for a stale handle; then nothing changes. */
  class RenderWorld {
    var contents: World
    ghost var history: seq<World>

    ghost predicate Recorded()
      reads this
    {
      history != [] && history[|history| - 1] == contents
    }

    /** The current world and every earlier one are free of dangling references. */
    ghost predicate Safe()
      reads this
    {
      Recorded() && forall k :: 0 <= k < |history| ==> NoDangling(history[k])
    }

    constructor ()
      ensures Safe() && contents == World(map[], map[], map[], map[], map[], 1) && history == [contents]
    {
      contents := World(map[], map[], map[], map[], map[], 1);
      history := [World(map[], map[], map[], map[], map[], 1)];
    }

    method CreateMesh(payload: int) returns (h: Handle)
      requires Recorded()
      modifies this
      ensures Recorded() && (Safe() <==> old(Safe())) && h == old(contents).next && history == old(history) + [contents]
      ensures contents == old(contents).(meshes := old(contents).meshes[h := payload], next := h + 1)
    {
      h := contents.next;
      var next := contents.(meshes := contents.meshes[h := payload], next := h + 1);
      if NoDangling(contents) { Writing(contents, next); }
      contents := next;
      ghost var earlier := history;
      history := history + [next];
      assert history[..|earlier|] == earlier;
    }

    method UpdateMesh(h: Handle, payload: int) returns (ok: bool)
      requires Recorded()
      modifies this
      ensures Recorded() && (Safe() <==> old(Safe())) && ok == (h in old(contents).meshes)
      ensures ok ==> contents == old(contents).(meshes := old(contents).meshes[h := payload])
      ensures !ok ==> contents == old(contents)
      ensures history == old(history) + if ok then [contents] else []
    {
      ok := h in contents.meshes;
      if ok {
        var next := contents.(meshes := contents.meshes[h := payload]);
        if NoDangling(contents) { Writing(contents, next); }
        contents := next;
        ghost var earlier := history;
        history := history + [next];
        assert history[..|earlier|] == earlier;
      }
    }

    method RemoveMesh(h: Handle) returns (ok: bool)
      requires Recorded()
      modifies this
      ensures Recorded() && ok == (h in old(contents).meshes)
      ensures contents == old(contents).(meshes := old(contents).meshes - {h})
      ensures Safe() <==> old(Safe()) && !(ok && MeshUsed(old(contents), h))
      ensures history == old(history) + if ok then [contents] else []
    {
      ok := h in contents.meshes;
      assert !ok ==> contents.meshes - {h} == contents.meshes;
      if ok {
        if NoDangling(contents) { RemovingMesh(contents, h); }
        contents := contents.(meshes := contents.meshes - {h});
        ghost var earlier := history;
        history := history + [contents];
        assert history[..|earlier|] == earlier;
      }
    }

    method CreateMaterial(d: MaterialDescriptor) returns (ok: bool, h: Handle)
      requires Recorded()
      modifies this
      ensures Recorded() && (Safe() <==> old(Safe())) && ok == MaterialLive(d, old(contents)) && h == old(contents).next
      ensures ok ==> contents == old(contents).(materials := old(contents).materials[h := d], next := h + 1)
      ensures !ok ==> contents == old(contents)
      ensures history == old(history) + if ok then [contents] else []
    {
      ok := MaterialLive(d, contents);
      h := contents.next;
      if ok {
        var next := contents.(materials := contents.materials[h := d], next := h + 1);
        if NoDangling(contents) { Writing(contents, next); }
        contents := next;
        ghost var earlier := history;
        history := history + [next];
        assert history[..|earlier|] == earlier;
      }
    }

    method UpdateMaterial(h: Handle, d: MaterialDescriptor) returns (ok: bool)
      requires Recorded()
      modifies this
      ensures Recorded() && (Safe() <==> old(Safe())) &&
              ok == (MaterialLive(d, old(contents)) && h in old(contents).materials)
      ensures ok ==> contents == old(contents).(materials := old(contents).materials[h := d])
      ensures !ok ==> contents == old(contents)
      ensures history == old(history) + if ok then [contents] else []
    {
      ok := MaterialLive(d, contents) && h in contents.materials;
      if ok {
        var next := contents.(materials := contents.materials[h := d]);
        if NoDangling(contents) { Writing(contents, next); }
        contents := next;
        ghost var earlier := history;
        history := history + [next];
        assert history[..|earlier|] == earlier;
      }
    }

    method RemoveMaterial(h: Handle) returns (ok: bool)
      requires Recorded()
      modifies this
      ensures Recorded() && ok == (h in old(contents).materials)
      ensures contents == old(contents).(materials := old(contents).materials - {h})
      ensures Safe() <==> old(Safe()) && !(ok && MaterialUsed(old(contents), h))
      ensures history == old(history) + if ok then [contents] else []
    {
      ok := h in contents.materials;
      assert !ok ==> contents.materials - {h} == contents.materials;
      if ok {
        if NoDangling(contents) { RemovingMaterial(contents, h); }
        contents := contents.(materials := contents.materials - {h});
        ghost var earlier := history;
        history := history + [contents];
        assert history[..|earlier|] == earlier;
      }
    }

    method CreateTexture(payload: int) returns (h: Handle)
      requires Recorded()
      modifies this
      ensures Recorded() && (Safe() <==> old(Safe())) && h == old(contents).next && history == old(history) + [contents]
      ensures contents == old(contents).(textures := old(contents).textures[h := payload], next := h + 1)
    {
      h := contents.next;
      var next := contents.(textures := contents.textures[h := payload], next := h + 1);
      if NoDangling(contents) { Writing(contents, next); }
      contents := next;
      ghost var earlier := history;
      history := history + [next];
      assert history[..|earlier|] == earlier;
    }

    method UpdateTexture(h: Handle, payload: int) returns (ok: bool)
      requires Recorded()
      modifies this
      ensures Recorded() && (Safe() <==> old(Safe())) && ok == (h in old(contents).textures)
      ensures ok ==> contents == old(contents).(textures := old(contents).textures[h := payload])
      ensures !ok ==> contents == old(contents)
      ensures history == old(history) + if ok then [contents] else []
    {
      ok := h in contents.textures;
      if ok {
        var next := contents.(textures := contents.textures[h := payload]);
        if NoDangling(contents) { Writing(contents, next); }
        contents := next;
        ghost var earlier := history;
        history := history + [next];
        assert history[..|earlier|] == earlier;
      }
    }

    method RemoveTexture(h: Handle) returns (ok: bool)
      requires Recorded()
      modifies this
      ensures Recorded() && ok == (h in old(contents).textures)
      ensures contents == old(contents).(textures := old(contents).textures - {h})
      ensures Safe() <==> old(Safe()) && !(ok && TextureUsed(old(contents), h))
      ensures history == old(history) + if ok then [contents] else []
    {
      ok := h in contents.textures;
      assert !ok ==> contents.textures - {h} == contents.textures;
      if ok {
        if NoDangling(contents) { RemovingTexture(contents, h); }
        contents := contents.(textures := contents.textures - {h});
        ghost var earlier := history;
        history := history + [contents];
        assert history[..|earlier|] == earlier;
      }
    }

    method CreateSampler(payload: int) returns (h: Handle)
      requires Recorded()
      modifies this
      ensures Recorded() && (Safe() <==> old(Safe())) && h == old(contents).next && history == old(history) + [contents]
      ensures contents == old(contents).(samplers := old(contents).samplers[h := payload], next := h + 1)
    {
      h := contents.next;
      var next := contents.(samplers := contents.samplers[h := payload], next := h + 1);
      if NoDangling(contents) { Writing(contents, next); }
      contents := next;
      ghost var earlier := history;
      history := history + [next];
      assert history[..|earlier|] == earlier;
    }

    method UpdateSampler(h: Handle, payload: int) returns (ok: bool)
      requires Recorded()
      modifies this
      ensures Recorded() && (Safe() <==> old(Safe())) && ok == (h in old(contents).samplers)
      ensures ok ==> contents == old(contents).(samplers := old(contents).samplers[h := payload])
      ensures !ok ==> contents == old(contents)
      ensures history == old(history) + if ok then [contents] else []
    {
      ok := h in contents.samplers;
      if ok {
        var next := contents.(samplers := contents.samplers[h := payload]);
        if NoDangling(contents) { Writing(contents, next); }
        contents := next;
        ghost var earlier := history;
        history := history + [next];
        assert history[..|earlier|] == earlier;
      }
    }

    method RemoveSampler(h: Handle) returns (ok: bool)
      requires Recorded()
      modifies this
      ensures Recorded() && ok == (h in old(contents).samplers)
      ensures contents == old(contents).(samplers := old(contents).samplers - {h})
      ensures Safe() <==> old(Safe()) && !(ok && SamplerUsed(old(contents), h))
      ensures history == old(history) + if ok then [contents] else []
    {
      ok := h in contents.samplers;
      assert !ok ==> contents.samplers - {h} == contents.samplers;
      if ok {
        if NoDangling(contents) { RemovingSampler(contents, h); }
        contents := contents.(samplers := contents.samplers - {h});
        ghost var earlier := history;
        history := history + [contents];
        assert history[..|earlier|] == earlier;
      }
    }

    method CreateInstance(d: InstanceDescriptor) returns (ok: bool, h: Handle)
      requires Recorded()
      modifies this
      ensures Recorded() && (Safe() <==> old(Safe())) && ok == InstanceLive(d, old(contents)) && h == old(contents).next
      ensures ok ==> contents == old(contents).(instances := old(contents).instances[h := d], next := h + 1)
      ensures !ok ==> contents == old(contents)
      ensures history == old(history) + if ok then [contents] else []
    {
      ok := InstanceLive(d, contents);
      h := contents.next;
      if ok {
        var next := contents.(instances := contents.instances[h := d], next := h + 1);
        if NoDangling(contents) { Writing(contents, next); }
        contents := next;
        ghost var earlier := history;
        history := history + [next];
        assert history[..|earlier|] == earlier;
      }
    }

    method UpdateInstance(h: Handle, d: InstanceDescriptor) returns (ok: bool)
      requires Recorded()
      modifies this
      ensures Recorded() && (Safe() <==> old(Safe())) &&
              ok == (InstanceLive(d, old(contents)) && h in old(contents).instances)
      ensures ok ==> contents == old(contents).(instances := old(contents).instances[h := d])
      ensures !ok ==> contents == old(contents)
      ensures history == old(history) + if ok then [contents] else []
    {
      ok := InstanceLive(d, contents) && h in contents.instances;
      if ok {
        var next := contents.(instances := contents.instances[h := d]);
        if NoDangling(contents) { Writing(contents, next); }
        contents := next;
        ghost var earlier := history;
        history := history + [next];
        assert history[..|earlier|] == earlier;
      }
    }

    method RemoveInstance(h: Handle) returns (ok: bool)
      requires Recorded()
      modifies this
      ensures Recorded() && (Safe() <==> old(Safe())) && ok == (h in old(contents).instances)
      ensures contents == old(contents).(instances := old(contents).instances - {h})
      ensures history == old(history) + if ok then [contents] else []
    {
      ok := h in contents.instances;
      assert !ok ==> contents.instances - {h} == contents.instances;
      if ok {
        var next := contents.(instances := contents.instances - {h});
        if NoDangling(contents) { Writing(contents, next); }
        contents := next;
        ghost var earlier := history;
        history := history + [next];
        assert history[..|earlier|] == earlier;
      }
    }
  }
}
