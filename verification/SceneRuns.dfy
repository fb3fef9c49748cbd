/**
 Runs of bridge calls.  In a settled state every instance shows the material of its mesh's
 key, or the fallback, which never goes away.  A call that changes the key of a mesh without
 rewriting the instances it keeps unsettles the state, and then a later release can take a
 material away that is still shown.
 */
module SceneRuns {
  import opened Wrappers
  import opened RenderWorlds
  import opened SceneState
  import opened SceneReferences
  import opened MaterialSync
  import opened MeshSync
  import opened SceneBridges

  ghost predicate MeshSettled(st: MeshState, w: World, b: Bridge) {
    forall i :: 0 <= i < |st.instances| ==>
      && st.instances[i] in w.instances
      && var material := w.instances[st.instances[i]].material;
         material == b.fallback || (st.materialKey in b.Handles() && material == b.Handles()[st.materialKey])
  }

  ghost predicate Settled(w: World, b: Bridge) {
    forall k :: k in b.meshes ==> MeshSettled(b.meshes[k], w, b)
  }

  /** The call changes the key, rewrites no instance, and keeps one that shows more than the
      fallback. */
  predicate Misbinds(w: World, meshes: map<string, MeshState>, fallback: Handle, call: MeshCall) {
    && call.key in meshes && meshes[call.key].materialKey != call.materialKey && !call.instancesFlagged
    && exists i :: 0 <= i < Kept(meshes, call) && StillShows(w, Before(meshes, call.key)[i], fallback)
  }

  predicate StillShows(w: World, h: Handle, fallback: Handle) {
    h in w.instances && w.instances[h].material != fallback
  }

  // ------------------------------------------------------------ Settled states strand nothing

  lemma CoveredBy(w: World, b: Bridge, h: Handle) returns (k: string, i: nat)
    requires Scene(w, b, None, multiset{}) && h in w.instances
    ensures k in b.meshes && i < |b.meshes[k].instances| && b.meshes[k].instances[i] == h
  {
    hide MaterialSide, ReferencesAgree;
    assert InstanceCovered(h, b.meshOwn, b.meshes, None);
    k := b.meshOwn.instance[h];
    i :| 0 <= i < |b.meshes[k].instances| && b.meshes[k].instances[i] == h;
  }

  /** An entry's material is neither the fallback nor the material of another key. */
  lemma EntryDistinct(w: World, b: Bridge, key: string, other: string)
    requires Scene(w, b, None, multiset{}) && key in b.materials && other in b.Handles()
    requires other != key || key == ""
    ensures b.materials[key].handle != b.Handles()[other] && b.materials[key].handle != b.fallback
  {
    hide MeshSide, ReferencesAgree;
    assert EntryHeld(key, b.materials[key], w, b.matOwn, b.fallback);
    if other != "" {
      assert EntryHeld(other, b.materials[other], w, b.matOwn, b.fallback);
    }
  }

  /** Where only instances in `gone` can show the key's material, no other instance does. */
  lemma SettledUnused(w: World, b: Bridge, key: string, gone: set<Handle>)
    requires Scene(w, b, None, multiset{}) && Settled(w, b) && key in b.materials
    requires key != "" ==>
               forall k, h :: k in b.meshes && b.meshes[k].materialKey == key && h in b.meshes[k].instances ==>
                 StillShows(w, h, b.fallback) ==> h in gone
    ensures !ShownBeyond(w, b.materials[key].handle, gone)
  {
    hide Scene;
    forall h | h in w.instances && h !in gone ensures w.instances[h].material != b.materials[key].handle {
      var k, i := CoveredBy(w, b, h);
      assert MeshSettled(b.meshes[k], w, b) && b.meshes[k].instances[i] == h;
      var other := b.meshes[k].materialKey;
      EntryDistinct(w, b, key, "");
      if other in b.Handles() && (other != key || key == "") {
        EntryDistinct(w, b, key, other);
      } else {
        assert h in b.meshes[k].instances;
      }
    }
  }

  /** An entry about to go away has no user but the one that releases it. */
  lemma OnlyUser(b: Bridge, key: string, mesh: string)
    requires ReferencesAgree(b.meshes, b.materials, multiset{}) && key != "" && key in b.materials
    requires Retires(b.materials[key]) && mesh in b.meshes && b.meshes[mesh].materialKey == key
    ensures forall k :: k in b.meshes && b.meshes[k].materialKey == key ==> k == mesh
  {
    assert mesh in Users(b.meshes, key);
    forall k | k in b.meshes && b.meshes[k].materialKey == key ensures k == mesh {
      if k != mesh {
        assert {k, mesh} <= Users(b.meshes, key);
        Larger({k, mesh}, Users(b.meshes, key));
      }
    }
  }

  lemma Larger(a: set<string>, b: set<string>)
    requires a <= b
    ensures |a| <= |b|
  {
    assert b == a + (b - a);
  }

  lemma SettledStrandsNoMesh(w: World, b: Bridge, key: string)
    requires Scene(w, b, None, multiset{}) && Settled(w, b)
    ensures !StrandsOwn(w, b, key)
  {
    hide MeshSide, MaterialSide, ReferencesAgree, ShownBeyond, Settled;
    if key in b.meshes {
      var material := b.meshes[key].materialKey;
      if material != "" && material in b.materials && Retires(b.materials[material]) {
        OnlyUser(b, material, key);
        SettledUnused(w, b, material, Elements(b.meshes[key].instances));
      }
    }
  }

  lemma SettledStrandsNoEntry(w: World, b: Bridge, key: string)
    requires Scene(w, b, None, multiset{}) && Settled(w, b)
    ensures !StrandsEntry(w, b, key)
  {
    hide MeshSide, MaterialSide, ReferencesAgree, Settled;
    if key in b.materials && b.materials[key].references == 0 {
      UncountedKey(b.meshes, b.materials, multiset{}, key);
      assert forall k :: k in b.meshes && b.meshes[k].materialKey == key ==> k in Users(b.meshes, key);
      SettledUnused(w, b, key, {});
      assert forall h :: h in w.instances ==> h !in {};
    }
  }

  lemma SettledStrandsNoFormer(w: World, b: Bridge, call: MeshCall)
    requires Scene(w, b, None, multiset{}) && Settled(w, b) && !Misbinds(w, b.meshes, b.fallback, call)
    ensures !StrandsFormer(w, b, call)
  {
    hide MeshSide, MaterialSide, ReferencesAgree, ShownBeyond, Settled;
    if call.key in b.meshes && b.meshes[call.key].materialKey != call.materialKey {
      var material := b.meshes[call.key].materialKey;
      if material != "" && material in b.materials && Retires(b.materials[material]) {
        OnlyUser(b, material, call.key);
        var before, kept := Before(b.meshes, call.key), Kept(b.meshes, call);
        forall h | h in before && StillShows(w, h, b.fallback) ensures h in Rewritten(b, call) {
          var i :| 0 <= i < |before| && before[i] == h;
          if !call.instancesFlagged {
            assert i >= kept;
            assert before[kept..][i - kept] == h;
          }
        }
        SettledUnused(w, b, material, Rewritten(b, call));
      }
    }
  }

  // ------------------------------------------------------------ What keeps a state settled

  /** Meshes that keep their instances and their key stay settled. */
  lemma SettledKept(w: World, b: Bridge, w': World, b': Bridge)
    requires Settled(w, b) && Scene(w', b', None, multiset{}) && b'.fallback == b.fallback
    requires forall k :: k in b'.meshes ==> k in b.meshes && b'.meshes[k] == b.meshes[k]
    requires forall h :: h in w'.instances ==> h in w.instances && w'.instances[h] == w.instances[h]
    requires forall k :: k in b'.materials && k in b.materials ==> b'.materials[k].handle == b.materials[k].handle
    ensures Settled(w', b')
  {
    hide MaterialSide, ReferencesAgree;
    forall k | k in b'.meshes ensures MeshSettled(b'.meshes[k], w', b') {
      var st := b.meshes[k];
      assert MeshSettled(st, w, b);
      assert MeshHeld(k, b'.meshes[k], w', b'.meshOwn, b'.Handles());
      forall i | 0 <= i < |st.instances| ensures st.instances[i] in w'.instances {
        assert InstanceHeld(st.instances[i], st.descriptors[i], k, st.mesh, b'.Handles()[st.materialKey], w',
                            b'.meshOwn);
      }
    }
  }

  /** Rewriting instances with their cached descriptors keeps the state settled. */
  lemma SettledRevealed(w: World, b: Bridge, w': World, b': Bridge, visible: map<string, bool>)
    requires Scene(w, b, None, multiset{}) && Settled(w, b) && b'.fallback == b.fallback && b'.materials == b.materials
    requires b'.meshes.Keys == b.meshes.Keys == visible.Keys
    requires forall k :: k in b.meshes ==>
               b'.meshes[k] == Revealed(b.meshes[k], visible[k]) && ShownAs(w, w', b.meshes[k], visible[k])
    ensures Settled(w', b')
  {
    hide MaterialSide, ReferencesAgree;
    forall k | k in b'.meshes ensures MeshSettled(b'.meshes[k], w', b') {
      var st := b.meshes[k];
      assert MeshSettled(st, w, b) && MeshHeld(k, st, w, b.meshOwn, b.Handles());
      forall i | 0 <= i < |st.instances| ensures st.descriptors[i].material == b.Handles()[st.materialKey] {
        assert InstanceHeld(st.instances[i], st.descriptors[i], k, st.mesh, b.Handles()[st.materialKey], w, b.meshOwn);
      }
    }
  }

  lemma RereferencedHandles(b: Bridge, call: MeshCall, handle: Handle)
    ensures forall k :: k in b.materials && k in Rereferenced(b, call, handle) ==>
              Rereferenced(b, call, handle)[k].handle == b.materials[k].handle
  {
  }

  lemma OtherMeshSettled(w: World, b: Bridge, w': World, b': Bridge, call: MeshCall, k: string)
    requires Scene(w, b, None, multiset{}) && Settled(w, b) && Scene(w', b', None, multiset{})
    requires MeshSynced(w, b, w', b', call) && b'.fallback == b.fallback && k in b.meshes && k != call.key
    ensures MeshSettled(b'.meshes[k], w', b')
  {
    hide MaterialSide, ReferencesAgree, Rereferenced;
    var st := b.meshes[k];
    assert MeshSettled(st, w, b) && MeshHeld(k, b'.meshes[k], w', b'.meshOwn, b'.Handles());
    RereferencedHandles(b, call, b'.Handles()[call.materialKey]);
    forall i | 0 <= i < |st.instances|
      ensures st.instances[i] in w'.instances && w'.instances[st.instances[i]] == w.instances[st.instances[i]]
    {
      assert st.instances[i] in st.instances;
      if call.key in b.meshes {
        InstancesDisjoint(w, b, multiset{}, k, call.key, st.instances[i]);
      }
    }
  }

  lemma SyncedMeshSettled(w: World, b: Bridge, w': World, b': Bridge, call: MeshCall)
    requires Settled(w, b) && MeshSynced(w, b, w', b', call) && b'.fallback == b.fallback
    requires !Misbinds(w, b.meshes, b.fallback, call)
    ensures MeshSettled(b'.meshes[call.key], w', b')
  {
    hide Rereferenced;
    var st, before, kept := b'.meshes[call.key], Before(b.meshes, call.key), Kept(b.meshes, call);
    RereferencedHandles(b, call, b'.Handles()[call.materialKey]);
    forall i | 0 <= i < |st.instances|
      ensures w'.instances[st.instances[i]].material in {b.fallback, b'.Handles()[call.materialKey]}
    {
      if i < kept && !call.instancesFlagged {
        assert st.instances[i] == st.instances[..kept][i] == before[i];
        assert MeshSettled(b.meshes[call.key], w, b);
      }
    }
  }

  lemma SettledSynced(w: World, b: Bridge, w': World, b': Bridge, call: MeshCall)
    requires Scene(w, b, None, multiset{}) && Settled(w, b) && Scene(w', b', None, multiset{})
    requires MeshSynced(w, b, w', b', call) && b'.fallback == b.fallback
    requires !Misbinds(w, b.meshes, b.fallback, call)
    ensures Settled(w', b')
  {
    hide Scene, MeshSettled;
    forall k | k in b'.meshes ensures MeshSettled(b'.meshes[k], w', b') {
      if k == call.key {
        SyncedMeshSettled(w, b, w', b', call);
      } else {
        OtherMeshSettled(w, b, w', b', call, k);
      }
    }
  }

  /** The converse: a call that misbinds and strands nothing at once unsettles the state. */
  lemma MisboundIsUnsettled(w: World, b: Bridge, w': World, b': Bridge, call: MeshCall)
    requires Scene(w, b, None, multiset{}) && Settled(w, b) && Scene(w', b', None, multiset{})
    requires MeshSynced(w, b, w', b', call) && b'.fallback == b.fallback
    requires Misbinds(w, b.meshes, b.fallback, call) && !StrandsFormer(w, b, call)
    ensures exists i :: Astray(w', b', b.meshes[call.key].materialKey, call.key, i)
    ensures !Settled(w', b')
  {
    var i := KeptAstray(w, b, w', b', call);
    AstrayIsUnsettled(w', b', b.meshes[call.key].materialKey, call.key, i);
  }

  /** The instance shows the material of an entry that is not its mesh's. */
  ghost predicate Astray(w: World, b: Bridge, key: string, mesh: string, i: nat) {
    && key in b.materials && mesh in b.meshes && (key == "" || b.meshes[mesh].materialKey != key)
    && i < |b.meshes[mesh].instances| && b.meshes[mesh].instances[i] in w.instances
    && w.instances[b.meshes[mesh].instances[i]].material == b.materials[key].handle
  }

  lemma AstrayIsUnsettled(w: World, b: Bridge, key: string, mesh: string, i: nat)
    requires Scene(w, b, None, multiset{}) && Astray(w, b, key, mesh, i)
    ensures !Settled(w, b)
  {
    hide MeshSide, MaterialSide, ReferencesAgree;
    EntryDistinct(w, b, key, "");
    if b.meshes[mesh].materialKey in b.Handles() {
      EntryDistinct(w, b, key, b.meshes[mesh].materialKey);
    }
    assert !MeshSettled(b.meshes[mesh], w, b);
  }

  lemma UnsettledIsAstray(w: World, b: Bridge)
    requires Scene(w, b, None, multiset{}) && !Settled(w, b)
    ensures exists key, mesh, i :: Astray(w, b, key, mesh, i)
  {
    var mesh :| mesh in b.meshes && !MeshSettled(b.meshes[mesh], w, b);
    var st := b.meshes[mesh];
    assert MeshHeld(mesh, st, w, b.meshOwn, b.Handles());
    var i: nat :| i < |st.instances| &&
                  !(&& st.instances[i] in w.instances
                    && (w.instances[st.instances[i]].material == b.fallback ||
                        (st.materialKey in b.Handles() &&
                         w.instances[st.instances[i]].material == b.Handles()[st.materialKey])));
    assert InstanceHeld(st.instances[i], st.descriptors[i], mesh, st.mesh, b.Handles()[st.materialKey], w, b.meshOwn);
    assert MaterialCovered(w.instances[st.instances[i]].material, b.matOwn, b.materials, b.fallback);
    assert Astray(w, b, b.matOwn.material[w.instances[st.instances[i]].material], mesh, i);
  }

  lemma KeptAstray(w: World, b: Bridge, w': World, b': Bridge, call: MeshCall) returns (i: nat)
    requires Scene(w, b, None, multiset{}) && Settled(w, b) && MeshSynced(w, b, w', b', call)
    requires Misbinds(w, b.meshes, b.fallback, call) && !StrandsFormer(w, b, call)
    ensures Astray(w', b', b.meshes[call.key].materialKey, call.key, i)
  {
    hide Scene, ResourcesKept;
    var former, before, kept := b.meshes[call.key].materialKey, Before(b.meshes, call.key), Kept(b.meshes, call);
    i :| 0 <= i < kept && StillShows(w, before[i], b.fallback);
    assert MeshSettled(b.meshes[call.key], w, b);
    assert b'.meshes[call.key].instances[i] == b'.meshes[call.key].instances[..kept][i] == before[..kept][i] ==
           before[i];
    KeptInstanceShown(w, b, call, i);
  }

  /** The kept instance is not rewritten, so the former entry would strand it if it went away. */
  lemma KeptInstanceShown(w: World, b: Bridge, call: MeshCall, i: nat)
    requires Scene(w, b, None, multiset{}) && call.key in b.meshes && i < Kept(b.meshes, call) && !call.instancesFlagged
    requires Before(b.meshes, call.key)[i] in w.instances
    ensures Before(b.meshes, call.key)[i] !in Rewritten(b, call)
  {
    hide MaterialSide, ReferencesAgree;
    var st := b.meshes[call.key];
    assert MeshHeld(call.key, st, w, b.meshOwn, b.Handles());
  }

  /** Where the kept instances show exactly the material of their key, the guard needs no look
      at the world: the key changes away from a real one, nothing is rewritten, something kept. */
  lemma MisbindsWhenBound(w: World, b: Bridge, call: MeshCall)
    requires Scene(w, b, None, multiset{}) && call.key in b.meshes
    requires b.meshes[call.key].materialKey in b.Handles()
    requires forall h :: h in b.meshes[call.key].instances ==>
               h in w.instances && w.instances[h].material == b.Handles()[b.meshes[call.key].materialKey]
    ensures Misbinds(w, b.meshes, b.fallback, call) <==>
            && b.meshes[call.key].materialKey !in {call.materialKey, ""}
            && !call.instancesFlagged && Kept(b.meshes, call) > 0
  {
    hide Scene;
    var former, before := b.meshes[call.key].materialKey, Before(b.meshes, call.key);
    if former != "" {
      EntryDistinct(w, b, former, "");
      assert Kept(b.meshes, call) > 0 ==> StillShows(w, before[0], b.fallback);
    }
  }

  // ------------------------------------------------------------ Calls and runs

  datatype SceneCall =
    | CallSyncMesh(call: MeshCall, empty: bool)
    | CallRemoveMesh(key: string)
    | CallSyncMaterial(path: string, parsed: ParsedMaterial)
    | CallRemoveMaterial(path: string)
    | CallUpdateVisibility(selected: set<string>)

  /** Whether the call takes a material away that an instance goes on showing. */
  ghost predicate CallStrands(w: World, b: Bridge, c: SceneCall) {
    match c
    case CallSyncMesh(call, empty) => if empty then StrandsOwn(w, b, call.key) else StrandsFormer(w, b, call)
    case CallRemoveMesh(key) => StrandsOwn(w, b, key)
    case CallRemoveMaterial(path) => StrandsEntry(w, b, path)
    case _ => false
  }

  /** What the call makes of the world and the memory. */
  ghost predicate Performed(w: World, b: Bridge, c: SceneCall, w': World, b': Bridge) {
    && b'.fallback == b.fallback
    && match c
       case CallSyncMesh(call, empty) =>
         if empty then Unmeshed(w, b, call.key, w', b') else MeshSynced(w, b, w', b', call)
       case CallRemoveMesh(key) => Unmeshed(w, b, key, w', b')
       case CallSyncMaterial(path, parsed) =>
         && b'.meshes == b.meshes && path in b'.materials
         && b'.materials == b.materials[path := b'.materials[path]]
         && var e := b'.materials[path];
            && e.authored && Shows(e, parsed, w') && OnlyEntryChanged(w, w', b.materials, e, path)
            && (if path in b.materials then Keeps(b.materials[path], e)
                else e.references == 0 && e.handle !in w.materials)
       case CallRemoveMaterial(path) =>
         && b'.meshes == b.meshes
         && (if path !in b.materials then w' == w && b'.materials == b.materials
             else if b.materials[path].references == 0 then
               w' == RetiredWorld(w, b.materials[path]) && b'.materials == b.materials - {path}
             else w' == w && b'.materials == b.materials[path := b.materials[path].(authored := false)])
       case CallUpdateVisibility(selected) =>
         && b'.materials == b.materials && b'.meshes.Keys == b.meshes.Keys
         && w' == w.(instances := w'.instances) && w'.instances.Keys == w.instances.Keys
         && forall k :: k in b.meshes ==>
              var visible := b.meshes[k].authoredVisible && k in selected;
              b'.meshes[k] == Revealed(b.meshes[k], visible) && ShownAs(w, w', b.meshes[k], visible)
  }

  /** The mesh, its instances and its reference are gone; an unknown mesh changes nothing. */
  ghost predicate Unmeshed(w: World, b: Bridge, key: string, w': World, b': Bridge) {
    if key in b.meshes then
      (w', b') == Released(WithoutMesh(w, b.meshes[key]), b.(meshes := b.meshes - {key}), b.meshes[key].materialKey)
    else w' == w && b' == b
  }

  predicate CallMisbinds(w: World, meshes: map<string, MeshState>, fallback: Handle, c: SceneCall) {
    c.CallSyncMesh? && !c.empty && Misbinds(w, meshes, fallback, c.call)
  }

  lemma SettledStrandsNothing(w: World, b: Bridge, c: SceneCall)
    requires Scene(w, b, None, multiset{}) && Settled(w, b) && !CallMisbinds(w, b.meshes, b.fallback, c)
    ensures !CallStrands(w, b, c)
  {
    hide Scene, StrandsOwn, StrandsFormer, StrandsEntry, Misbinds, Settled;
    match c
    case CallSyncMesh(call, empty) =>
      SettledStrandsNoMesh(w, b, call.key);
      if !empty {
        SettledStrandsNoFormer(w, b, call);
      }
    case CallRemoveMesh(key) => SettledStrandsNoMesh(w, b, key);
    case CallRemoveMaterial(path) => SettledStrandsNoEntry(w, b, path);
    case _ =>
  }

  lemma AfterRemoval(w: World, b: Bridge, w': World, b': Bridge, st: MeshState, meshes: map<string, MeshState>)
    requires Settled(w, b) && Scene(w', b', None, multiset{})
    requires forall k :: k in meshes ==> k in b.meshes && meshes[k] == b.meshes[k]
    requires (w', b') == Released(WithoutMesh(w, st), b.(meshes := meshes), st.materialKey)
    ensures Settled(w', b')
  {
    hide Scene, MeshSettled;
    SettledKept(w, b, w', b');
  }

  /** Where settled states lead: to settled ones, unless a call misbinds. */
  lemma SettledStep(w: World, b: Bridge, c: SceneCall, w': World, b': Bridge, safe: bool)
    requires Scene(w, b, None, multiset{}) && (safe ==> Scene(w', b', None, multiset{}))
    requires Performed(w, b, c, w', b') && (safe <==> !CallStrands(w, b, c)) && Settled(w, b)
    ensures safe && Settled(w', b') <==> !CallMisbinds(w, b.meshes, b.fallback, c)
  {
    hide Scene, Settled, Released, Strands, StrandsOwn, StrandsFormer, StrandsEntry, Misbinds, MeshSynced, ShownAs,
      OnlyEntryChanged, Shows;
    if !CallMisbinds(w, b.meshes, b.fallback, c) {
      SettledStrandsNothing(w, b, c);
    }
    match c
    case CallSyncMesh(call, empty) =>
      if empty {
        AfterUnmeshed(w, b, call.key, w', b');
      } else if !Misbinds(w, b.meshes, b.fallback, call) {
        SettledSynced(w, b, w', b', call);
      } else if safe {
        MisboundIsUnsettled(w, b, w', b', call);
      }
    case CallRemoveMesh(key) => AfterUnmeshed(w, b, key, w', b');
    case CallSyncMaterial(path, parsed) => AfterSyncMaterial(w, b, w', b', path);
    case CallRemoveMaterial(path) => SettledKept(w, b, w', b');
    case CallUpdateVisibility(selected) =>
      SettledRevealed(w, b, w', b', map k | k in b.meshes :: b.meshes[k].authoredVisible && k in selected);
  }

  lemma AfterUnmeshed(w: World, b: Bridge, key: string, w': World, b': Bridge)
    requires Settled(w, b) && Scene(w', b', None, multiset{}) && Unmeshed(w, b, key, w', b')
    ensures Settled(w', b')
  {
    hide Scene, Settled, Released;
    if key in b.meshes {
      AfterRemoval(w, b, w', b', b.meshes[key], b.meshes - {key});
    }
  }

  lemma AfterSyncMaterial(w: World, b: Bridge, w': World, b': Bridge, path: string)
    requires Settled(w, b) && Scene(w', b', None, multiset{}) && b'.fallback == b.fallback && b'.meshes == b.meshes
    requires path in b'.materials && b'.materials == b.materials[path := b'.materials[path]]
    requires path in b.materials ==> Keeps(b.materials[path], b'.materials[path])
    requires OnlyEntryChanged(w, w', b.materials, b'.materials[path], path)
    ensures Settled(w', b')
  {
    hide Scene, Settled;
    SettledKept(w, b, w', b');
  }

  /** One call: exactly when it strands an instance the worlds stop being safe; and from a
      settled state it stays safe and settled exactly if it does not misbind. */
  method Perform(bridge: SceneBridge, c: SceneCall)
    requires bridge.Valid()
    modifies bridge, bridge.world
    ensures old(bridge.world.history) <= bridge.world.history
    ensures Performed(old(bridge.world.contents), old(bridge.Memory()), c, bridge.world.contents, bridge.Memory())
    ensures bridge.world.Safe() <==> !CallStrands(old(bridge.world.contents), old(bridge.Memory()), c)
    ensures bridge.world.Safe() ==> bridge.Valid()
    ensures old(Settled(bridge.world.contents, bridge.Memory())) ==>
              (bridge.world.Safe() && Settled(bridge.world.contents, bridge.Memory()) <==>
               !CallMisbinds(old(bridge.world.contents), old(bridge.meshes), bridge.fallbackMaterial, c))
  {
    hide Scene, Settled, Misbinds, MeshSynced, Released, RenderWorld.Safe, Strands,
      StrandsFormer, StrandsOwn, StrandsEntry, Shows, OnlyEntryChanged, ShownAs, Keeps;
    ghost var w, b := bridge.world.contents, bridge.Memory();
    match c {
      case CallSyncMesh(call, empty) => bridge.SyncMesh(call, empty);
      case CallRemoveMesh(key) => bridge.RemoveMesh(key);
      case CallSyncMaterial(path, parsed) => bridge.SyncMaterial(path, parsed);
      case CallRemoveMaterial(path) => bridge.RemoveMaterial(path);
      case CallUpdateVisibility(selected) => bridge.UpdateVisibility(selected);
    }
    if Settled(w, b) {
      SettledStep(w, b, c, bridge.world.contents, bridge.Memory(), bridge.world.Safe());
    }
  }

  /** Performs the calls up to the first one that misbinds.  The states so far are all settled,
      and so every world so far is safe. */
  method Run(bridge: SceneBridge, calls: seq<SceneCall>) returns (done: nat, ghost states: seq<(World, Bridge)>)
    requires bridge.Valid() && Settled(bridge.world.contents, bridge.Memory())
    modifies bridge, bridge.world
    ensures bridge.Valid() && done <= |calls| && |states| == done + 1
    ensures states[0] == old((bridge.world.contents, bridge.Memory()))
    ensures states[done] == (bridge.world.contents, bridge.Memory())
    ensures forall i :: 0 <= i <= done ==> Settled(states[i].0, states[i].1)
    ensures forall i :: 0 <= i < done ==>
              && !CallMisbinds(states[i].0, states[i].1.meshes, bridge.fallbackMaterial, calls[i])
              && Performed(states[i].0, states[i].1, calls[i], states[i + 1].0, states[i + 1].1)
    ensures done < |calls| ==>
              CallMisbinds(bridge.world.contents, bridge.meshes, bridge.fallbackMaterial, calls[done])
  {
    hide Scene, Settled, CallMisbinds, CallStrands, Performed, RenderWorld.Safe;
    done, states := 0, [(bridge.world.contents, bridge.Memory())];
    while done < |calls| && !CallMisbinds(bridge.world.contents, bridge.meshes, bridge.fallbackMaterial, calls[done])
      invariant done <= |calls| && |states| == done + 1 && bridge.Valid()
      invariant states[0] == old((bridge.world.contents, bridge.Memory()))
      invariant states[done] == (bridge.world.contents, bridge.Memory())
      invariant forall i :: 0 <= i <= done ==> Settled(states[i].0, states[i].1)
      invariant forall i :: 0 <= i < done ==>
                  && !CallMisbinds(states[i].0, states[i].1.meshes, bridge.fallbackMaterial, calls[i])
                  && Performed(states[i].0, states[i].1, calls[i], states[i + 1].0, states[i + 1].1)
      decreases |calls| - done
    {
      SettledStrandsNothing(bridge.world.contents, bridge.Memory(), calls[done]);
      Perform(bridge, calls[done]);
      done, states := done + 1, states + [(bridge.world.contents, bridge.Memory())];
    }
  }

  // ------------------------------------------------------------ Unsettled states can be stranded

  /** Removing another mesh leaves the stray instance where it is; if that mesh held the last
      reference, the instance is stranded. */
  lemma StrayStays(w: World, b: Bridge, w': World, b': Bridge, key: string, mesh: string, i: nat, user: string)
    requires Scene(w, b, None, multiset{}) && Astray(w, b, key, mesh, i)
    requires user in b.meshes && b.meshes[user].materialKey == key && key != "" && !b.materials[key].authored
    requires (w', b') == Released(WithoutMesh(w, b.meshes[user]), b.(meshes := b.meshes - {user}), key)
    ensures StrandsOwn(w, b, user) <==> Retires(b.materials[key])
    ensures Retires(b.materials[key]) ==> !NoDangling(w')
    ensures !Retires(b.materials[key]) ==>
              && Astray(w', b', key, mesh, i)
              && b'.materials[key] == b.materials[key].(references := b.materials[key].references - 1)
  {
    hide Scene;
    var h := b.meshes[mesh].instances[i];
    assert h in b.meshes[mesh].instances;
    InstancesDisjoint(w, b, multiset{}, mesh, user, h);
    assert Retires(b.materials[key]) ==> h in w'.instances && !InstanceLive(w'.instances[h], w');
  }

  lemma UserExists(w: World, b: Bridge, key: string)
    requires Scene(w, b, None, multiset{}) && key in b.materials && !b.materials[key].authored
    ensures key != "" && b.materials[key].references > 0
    ensures exists user :: user in b.meshes && b.meshes[user].materialKey == key
  {
    hide MeshSide, MaterialSide;
    assert b.materials[key].references > 0;
    var user :| user in Users(b.meshes, key);
  }

  /** From an unsettled state some calls of the scene delegate end unsafe: withdrawing the
      shown material and then every mesh of its key. */
  method Strand(bridge: SceneBridge, key: string, ghost mesh: string, ghost i: nat)
    requires bridge.Valid() && Astray(bridge.world.contents, bridge.Memory(), key, mesh, i)
    modifies bridge, bridge.world
    ensures !bridge.world.Safe()
  {
    hide Scene, RenderWorld.Safe, Released;
    var last := bridge.materials[key].references == 0;
    bridge.RemoveMaterial(key);
    while !last
      invariant if last then !bridge.world.Safe()
                else bridge.Valid() && Astray(bridge.world.contents, bridge.Memory(), key, mesh, i) &&
                     !bridge.materials[key].authored
      decreases !last, if last then 0 else bridge.materials[key].references
    {
      UserExists(bridge.world.contents, bridge.Memory(), key);
      var user :| user in bridge.meshes && bridge.meshes[user].materialKey == key;
      last := Retires(bridge.materials[key]);
      ghost var w, b := bridge.world.contents, bridge.Memory();
      bridge.RemoveMesh(user);
      StrayStays(w, b, bridge.world.contents, bridge.Memory(), key, mesh, i, user);
    }
  }

  /** So a call that misbinds is one that, alone or with such calls after it, ends unsafe. */
  method MisbindingStrands(bridge: SceneBridge, call: MeshCall)
    requires bridge.Valid() && Settled(bridge.world.contents, bridge.Memory())
    requires Misbinds(bridge.world.contents, bridge.meshes, bridge.fallbackMaterial, call)
    modifies bridge, bridge.world
    ensures !bridge.world.Safe()
  {
    hide Scene, RenderWorld.Safe, Released, MeshSynced, Settled;
    ghost var w, b := bridge.world.contents, bridge.Memory();
    var former := bridge.meshes[call.key].materialKey;
    FormerHeld(w, b, call);
    var retires := Retires(bridge.materials[former]);
    bridge.SyncMesh(call, false);
    if !retires {
      ghost var i := KeptAstray(w, b, bridge.world.contents, bridge.Memory(), call);
      Strand(bridge, former, call.key, i);
    }
  }

  lemma FormerHeld(w: World, b: Bridge, call: MeshCall)
    requires Scene(w, b, None, multiset{}) && Settled(w, b) && Misbinds(w, b.meshes, b.fallback, call)
    ensures var former := b.meshes[call.key].materialKey;
            former != "" && former in b.materials && (StrandsFormer(w, b, call) <==> Retires(b.materials[former]))
  {
    hide Scene;
    var i :| 0 <= i < Kept(b.meshes, call) && StillShows(w, Before(b.meshes, call.key)[i], b.fallback);
    assert MeshSettled(b.meshes[call.key], w, b);
    KeptInstanceShown(w, b, call, i);
  }

  // ------------------------------------------------------------ Two runs that end unsafe

  /** A new mesh counts one reference and shows the material of its key, so that an unflagged
      change of the key misbinds. */
  lemma NewMeshBound(w: World, b: Bridge, w': World, b': Bridge, call: MeshCall, next: MeshCall)
    requires call.key !in b.meshes && MeshSynced(w, b, w', b', call) && call.materialKey != "" && call.transforms != []
    requires Scene(w', b', None, multiset{})
    requires next.key == call.key && next.materialKey != call.materialKey && next.transforms != []
    requires !next.instancesFlagged
    ensures Misbinds(w', b'.meshes, b'.fallback, next)
    ensures b'.meshes == b.meshes[call.key := b'.meshes[call.key]] &&
            b'.meshes[call.key].materialKey == call.materialKey
    ensures call.materialKey in b'.materials
    ensures var e := b'.materials[call.materialKey];
            if call.materialKey in b.materials
            then e.references == b.materials[call.materialKey].references + 1 &&
                 e.authored == b.materials[call.materialKey].authored
            else e.references == 1 && !e.authored
  {
    hide Scene;
    var st := b'.meshes[call.key];
    EntryDistinct(w', b', call.materialKey, "");
    assert StillShows(w', Before(b'.meshes, next.key)[0], b'.fallback);
  }

  lemma ReleasedOne(w: World, b: Bridge, w': World, b': Bridge, call: MeshCall)
    requires MeshSynced(w, b, w', b', call) && call.key in b.meshes
    requires var former := b.meshes[call.key].materialKey;
             && former !in {call.materialKey, ""} && former in b.materials && b.materials[former].references > 1
    ensures var former := b.meshes[call.key].materialKey;
            && former in b'.materials
            && b'.materials[former] == b.materials[former].(references := b.materials[former].references - 1)
    ensures forall k :: k in b.meshes && k != call.key ==> k in b'.meshes && b'.meshes[k] == b.meshes[k]
  {
  }

  lemma NewPathBinds(w: World, b: Bridge, call: MeshCall)
    requires call.key !in b.meshes
    ensures !Misbinds(w, b.meshes, b.fallback, call)
  {
  }

  lemma NothingSettled(w: World, b: Bridge)
    requires b.meshes == map[]
    ensures Settled(w, b)
  {
  }

  const BIND_A := MeshCall("/a", 1, "/look", [0], true, true, true)
  const BIND_B := MeshCall("/b", 1, "/look", [0], true, true, true)
  const REBIND_A := MeshCall("/a", 1, "", [0], true, false, false)

  /** An unflagged change away from an unauthored material leaves a live instance dangling. */
  method StaleBindingExample() returns (bridge: SceneBridge)
    ensures !bridge.world.Safe()
  {
    hide Scene, RenderWorld.Safe, MeshSynced, Misbinds, Settled, CallStrands;
    var world := new RenderWorld();
    bridge := new SceneBridge(world);
    ghost var w, b := world.contents, bridge.Memory();
    NothingSettled(w, b);
    NewPathBinds(w, b, BIND_A);
    Perform(bridge, CallSyncMesh(BIND_A, false));
    NewMeshBound(w, b, bridge.world.contents, bridge.Memory(), BIND_A, REBIND_A);
    MisbindingStrands(bridge, REBIND_A);
  }

  const DELAYED := [CallSyncMesh(BIND_B, false), CallSyncMesh(BIND_A, false), CallSyncMesh(REBIND_A, false),
                    CallRemoveMesh("/b")]

  /** The states before, between and after the calls, each made from the one before. */
  ghost predicate Traces(states: seq<(World, Bridge)>, calls: seq<SceneCall>) {
    && |states| == |calls| + 1
    && forall i :: 0 <= i < |calls| ==>
         Performed(states[i].0, states[i].1, calls[i], states[i + 1].0, states[i + 1].1)
  }

  /** With a second user of the material the same call is safe: the first n recorded worlds, up
      to the one it leaves, have no dangling reference.  The removal of that user leaves one. */
  method DelayedStaleBindingExample() returns (bridge: SceneBridge, ghost states: seq<(World, Bridge)>, ghost n: nat)
    ensures Traces(states, DELAYED) && states[0].1.meshes == map[] && states[0].1.materials == map[]
    ensures 0 < n <= |bridge.world.history| && bridge.world.history[n - 1] == states[3].0
    ensures forall k :: 0 <= k < n ==> NoDangling(bridge.world.history[k])
    ensures bridge.world.contents == states[4].0 && !NoDangling(states[4].0)
  {
    hide Scene, NoDangling, Performed, Released, Astray;
    ghost var i;
    bridge, states, i := DelayedSetup();
    ghost var w, b := bridge.world.contents, bridge.Memory();
    n := |bridge.world.history|;
    Perform(bridge, DELAYED[3]);
    AfterRemovingB(w, b, bridge.world.contents, bridge.Memory(), i);
    states := states + [(bridge.world.contents, bridge.Memory())];
  }

  lemma AfterRemovingB(w: World, b: Bridge, w': World, b': Bridge, i: nat)
    requires Scene(w, b, None, multiset{}) && Astray(w, b, "/look", "/a", i)
    requires "/b" in b.meshes && b.meshes["/b"].materialKey == "/look"
    requires !b.materials["/look"].authored && b.materials["/look"].references == 1
    requires Performed(w, b, CallRemoveMesh("/b"), w', b')
    ensures !NoDangling(w')
  {
    hide Scene, NoDangling, Released, Astray;
    StrayStays(w, b, w', b', "/look", "/a", i, "/b");
  }

  /** The first three calls: one mesh is left with the only reference, another one shows it. */
  method DelayedSetup() returns (bridge: SceneBridge, ghost states: seq<(World, Bridge)>, ghost i: nat)
    ensures fresh(bridge) && fresh(bridge.world) && bridge.Valid()
    ensures Traces(states, DELAYED[..3]) && states[3] == (bridge.world.contents, bridge.Memory())
    ensures states[0].1.meshes == map[] && states[0].1.materials == map[]
    ensures Astray(states[3].0, states[3].1, "/look", "/a", i)
    ensures "/b" in bridge.meshes && bridge.meshes["/b"].materialKey == "/look"
    ensures !bridge.materials["/look"].authored && bridge.materials["/look"].references == 1
  {
    hide Scene, RenderWorld.Safe, MeshSynced, Misbinds, Settled, Astray, StrandsFormer;
    var world := new RenderWorld();
    bridge := new SceneBridge(world);
    ghost var w, b := world.contents, bridge.Memory();
    NothingSettled(w, b);
    NewPathBinds(w, b, BIND_B);
    Perform(bridge, DELAYED[0]);
    ghost var w1, b1 := bridge.world.contents, bridge.Memory();
    NewMeshBound(w, b, w1, b1, BIND_B, REBIND_A.(key := "/b"));
    NewPathBinds(w1, b1, BIND_A);
    Perform(bridge, DELAYED[1]);
    ghost var w2, b2 := bridge.world.contents, bridge.Memory();
    NewMeshBound(w1, b1, w2, b2, BIND_A, REBIND_A);
    FormerHeld(w2, b2, REBIND_A);
    Perform(bridge, DELAYED[2]);
    i := KeptAstray(w2, b2, bridge.world.contents, bridge.Memory(), REBIND_A);
    ReleasedOne(w2, b2, bridge.world.contents, bridge.Memory(), REBIND_A);
    states := [(w, b), (w1, b1), (w2, b2), (bridge.world.contents, bridge.Memory())];
  }
}
