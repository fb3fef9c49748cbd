/**
 What one SyncMesh call does to a mesh's instances, as pure values.
 */
module MeshSync {
  import opened Wrappers
  import opened RenderWorlds
  import opened SceneState
  import opened SceneReferences

  /** One descriptor for every transform. */
  function Targets(mesh: Handle, material: Handle, transforms: seq<int>, visible: bool): (ds: seq<InstanceDescriptor>)
    ensures |ds| == |transforms|
  {
    seq(|transforms|, i requires 0 <= i < |transforms| => InstanceDescriptor(mesh, material, transforms[i], visible))
  }

  /** From position n on, `instances` are new and show their targets; nothing else changed. */
  ghost predicate Grown(w: World, w': World, instances: seq<Handle>, n: nat, targets: seq<InstanceDescriptor>) {
    && n <= |instances| <= |targets|
    && w' == w.(instances := w'.instances, next := w'.next) && w.next <= w'.next
    && (forall h :: h in w.instances ==> h in w'.instances && w'.instances[h] == w.instances[h])
    && (forall i :: n <= i < |instances| ==>
          instances[i] !in w.instances && instances[i] in w'.instances && w'.instances[instances[i]] == targets[i])
    && (forall h :: h in w'.instances ==> h in w.instances || h in instances[n..])
  }

  lemma GrownNone(w: World, instances: seq<Handle>, targets: seq<InstanceDescriptor>)
    requires |instances| <= |targets|
    ensures Grown(w, w, instances, |instances|, targets)
  {
    assert instances[|instances|..] == [];
  }

  /** Removing one more instance from the front, or from the back. */
  lemma RemovedFront(m: map<Handle, InstanceDescriptor>, s: seq<Handle>, i: nat)
    requires i < |s|
    ensures m - Elements(s[..i]) - {s[i]} == m - Elements(s[..i + 1])
  {
    assert s[..i + 1] == s[..i] + [s[i]];
  }

  lemma RemovedBack(m: map<Handle, InstanceDescriptor>, s: seq<Handle>, i: nat)
    requires i < |s|
    ensures m - Elements(s[i + 1..]) - {s[i]} == m - Elements(s[i..])
  {
    assert s[i..] == [s[i]] + s[i + 1..];
  }

  lemma RemovedNone(m: map<Handle, InstanceDescriptor>, s: seq<Handle>)
    ensures m - Elements(s[..0]) == m && m - Elements(s[|s|..]) == m
  {
  }

  lemma GrownMore(w: World, w1: World, w2: World, instances: seq<Handle>, n: nat, targets: seq<InstanceDescriptor>)
    requires Grown(w, w1, instances, n, targets) && |instances| < |targets| && w1.next !in w1.instances
    requires w2 == w1.(instances := w1.instances[w1.next := targets[|instances|]], next := w1.next + 1)
    ensures Grown(w, w2, instances + [w1.next], n, targets)
  {
    assert (instances + [w1.next])[n..] == instances[n..] + [w1.next];
  }

  lemma InstancesBelowNext(w: World, b: Bridge, p: Option<Pending>, extra: multiset<string>)
    requires Scene(w, b, p, extra)
    ensures w.next !in w.instances
  {
  }

  lemma PendingDistinct(w: World, b: Bridge, p: Pending, extra: multiset<string>)
    requires Scene(w, b, Some(p), extra)
    ensures NoDuplicates(p.instances) && forall h :: h in p.instances ==> h in w.instances
  {
    forall h | h in p.instances ensures h in w.instances {
      var i :| 0 <= i < |p.instances| && p.instances[i] == h;
      assert PendingInstance(p.instances[i], p, w, b.meshOwn);
    }
  }

  /** The instances show the descriptors; nothing else changed. */
  ghost predicate Written(w: World, w': World, instances: seq<Handle>, descriptors: seq<InstanceDescriptor>) {
    && |instances| == |descriptors|
    && w' == w.(instances := w'.instances) && w'.instances.Keys == w.instances.Keys
    && (forall i :: 0 <= i < |instances| ==>
          instances[i] in w'.instances && w'.instances[instances[i]] == descriptors[i])
    && (forall h :: h in w.instances && h !in instances ==> w'.instances[h] == w.instances[h])
  }

  lemma WrittenNone(w: World, instances: seq<Handle>)
    ensures Written(w, w, instances[..0], [])
  {
  }

  lemma WrittenMore(w: World, w1: World, w2: World, instances: seq<Handle>, descriptors: seq<InstanceDescriptor>,
                    d: InstanceDescriptor)
    requires |descriptors| < |instances| && NoDuplicates(instances)
    requires Written(w, w1, instances[..|descriptors|], descriptors)
    requires instances[|descriptors|] in w1.instances
    requires w2 == w1.(instances := w1.instances[instances[|descriptors|] := d])
    ensures Written(w, w2, instances[..|descriptors| + 1], descriptors + [d])
  {
    assert instances[..|descriptors| + 1] == instances[..|descriptors|] + [instances[|descriptors|]];
  }

  /** Instance i shows descriptor i, for every i. */
  ghost predicate AllShown(w: World, instances: seq<Handle>, descriptors: seq<InstanceDescriptor>) {
    && |instances| == |descriptors|
    && (forall i :: 0 <= i < |instances| ==>
          instances[i] in w.instances && w.instances[instances[i]] == descriptors[i])
  }

  /** The pending mesh returns once its cached descriptors name the material of its key. */
  lemma AttachTargets(w: World, b: Bridge, key: string, st: MeshState, extra: multiset<string>, transforms: seq<int>)
    requires Scene(w, b, Some(Pending(key, st.mesh, st.instances)), extra + One(st.materialKey))
    requires st.materialKey in b.Handles() && |st.instances| == |transforms|
    requires st.descriptors == Targets(st.mesh, b.Handles()[st.materialKey], transforms, st.authoredVisible)
    ensures Scene(w, b.(meshes := b.meshes[key := st]), None, extra)
  {
    hide MaterialSide, ReferencesAgree;
    var p := Pending(key, st.mesh, st.instances);
    forall i | 0 <= i < |st.instances|
      ensures InstanceHeld(st.instances[i], st.descriptors[i], key, st.mesh, b.Handles()[st.materialKey], w, b.meshOwn)
    {
      assert PendingInstance(p.instances[i], p, w, b.meshOwn);
    }
    Attach(w, b, key, st, extra);
  }

  lemma HandlesDistinct(w: World, b: Bridge, p: Option<Pending>, extra: multiset<string>, key: string, other: string)
    requires Scene(w, b, p, extra) && key in b.Handles() && other in b.Handles() && key != other
    ensures b.Handles()[key] != b.Handles()[other] && b.Handles()[key] in w.materials
  {
    hide MeshSide, ReferencesAgree;
    if key != "" {
      assert EntryHeld(key, b.materials[key], w, b.matOwn, b.fallback);
    }
    if other != "" {
      assert EntryHeld(other, b.materials[other], w, b.matOwn, b.fallback);
    }
  }

  // ------------------------------------------------------------ The whole call

  /** The arguments of SyncMesh; the flags say whether any mesh or instance aspect is set. */
  datatype MeshCall = MeshCall(
    key: string, payload: int, materialKey: string, transforms: seq<int>, visible: bool,
    meshFlagged: bool, instancesFlagged: bool)

  function Before(meshes: map<string, MeshState>, key: string): seq<Handle> {
    if key in meshes then meshes[key].instances else []
  }

  function Kept(meshes: map<string, MeshState>, call: MeshCall): (n: nat)
    ensures n <= |Before(meshes, call.key)| && n <= |call.transforms|
  {
    var n := |Before(meshes, call.key)|;
    if n <= |call.transforms| then n else |call.transforms|
  }

  /** The cached mesh: as many instances as transforms, the first of them the old ones, and a
      descriptor for each, bound to the material of the key. */
  predicate CacheSynced(before: seq<Handle>, kept: nat, st: MeshState, handle: Handle, call: MeshCall)
    requires kept <= |before|
  {
    && st.materialKey == call.materialKey && st.authoredVisible == call.visible
    && |st.instances| == |call.transforms| && kept <= |st.instances| && st.instances[..kept] == before[..kept]
    && |st.descriptors| == |call.transforms|
    && (forall i :: 0 <= i < |call.transforms| ==>
          st.descriptors[i] == InstanceDescriptor(st.mesh, handle, call.transforms[i], call.visible))
  }

  /** The world's instances: kept ones are rewritten exactly if an aspect is flagged, others
      of the mesh are new, removed ones are gone, and no other mesh's instance changed. */
  ghost predicate InstancesSynced(w: World, w': World, before: seq<Handle>, kept: nat, instances: seq<Handle>,
                                  descriptors: seq<InstanceDescriptor>, flagged: bool)
  {
    && |descriptors| == |instances|
    && (forall i :: 0 <= i < |instances| ==> instances[i] in w'.instances)
    && (forall i :: kept <= i < |instances| ==>
          instances[i] !in w.instances && w'.instances[instances[i]] == descriptors[i])
    && (forall i :: 0 <= i < kept && i < |instances| ==>
          && instances[i] in w.instances
          && w'.instances[instances[i]] == if flagged then descriptors[i] else w.instances[instances[i]])
    && (forall h :: h in w.instances && h !in before ==> h in w'.instances && w'.instances[h] == w.instances[h])
    && (forall h :: h in w'.instances ==> h in instances || (h in w.instances && h !in before))
  }

  /** The entries after one reference is taken; an unknown key gets a placeholder entry. */
  function AcquiredEntries(m: map<string, MaterialEntry>, key: string, handle: Handle): map<string, MaterialEntry> {
    if key == "" then m
    else if key in m then m[key := m[key].(references := m[key].references + 1)]
    else m[key := MaterialEntry(handle, 1, false, PLACEHOLDER, None, None, None, None)]
  }

  /** The entries after one reference is dropped; the last one of an unauthored entry ends it. */
  function ReleasedEntries(m: map<string, MaterialEntry>, key: string): map<string, MaterialEntry> {
    if key == "" || key !in m then m
    else if Retires(m[key]) then m - {key}
    else m[key := m[key].(references := if m[key].references != 0 then m[key].references - 1 else 0)]
  }

  /** A new mesh takes a reference; a mesh that changes its key takes one and drops one. */
  function Rereferenced(b: Bridge, call: MeshCall, handle: Handle): map<string, MaterialEntry> {
    if call.key !in b.meshes then AcquiredEntries(b.materials, call.materialKey, handle)
    else if b.meshes[call.key].materialKey == call.materialKey then b.materials
    else ReleasedEntries(AcquiredEntries(b.materials, call.materialKey, handle), b.meshes[call.key].materialKey)
  }

  ghost predicate MeshSynced(w: World, b: Bridge, w': World, b': Bridge, call: MeshCall) {
    && call.key in b'.meshes && b'.meshes == b.meshes[call.key := b'.meshes[call.key]]
    && call.materialKey in b'.Handles()
    && var st := b'.meshes[call.key];
    && CacheSynced(Before(b.meshes, call.key), Kept(b.meshes, call), st, b'.Handles()[call.materialKey], call)
    && InstancesSynced(w, w', Before(b.meshes, call.key), Kept(b.meshes, call), st.instances, st.descriptors,
                       call.key !in b.meshes || call.instancesFlagged)
    && (if call.key in b.meshes then st.mesh == b.meshes[call.key].mesh else st.mesh !in w.meshes)
    && w'.meshes == (if call.key !in b.meshes || call.meshFlagged then w.meshes[st.mesh := call.payload] else w.meshes)
    && b'.materials == Rereferenced(b, call, b'.Handles()[call.materialKey])
    && ResourcesKept(w, w')
  }

  lemma AcquiredApart(w: World, b: Bridge, key: string, meshes: map<string, MeshState>)
    ensures Acquired(w, b.(meshes := meshes), key) ==
            (Acquired(w, b, key).0, Acquired(w, b, key).1.(meshes := meshes))
  {
  }

  lemma AcquiredFrame(w: World, b: Bridge, key: string)
    requires w.next !in w.materials
    ensures var (w', b') := Acquired(w, b, key);
            && ResourcesKept(w, w') && OwnersKept(w, b.matOwn, b'.matOwn)
            && w'.meshes == w.meshes && w'.instances == w.instances && w'.textures == w.textures
            && w'.samplers == w.samplers && w.next <= w'.next
            && b'.meshes == b.meshes && b'.meshOwn == b.meshOwn && b'.fallback == b.fallback
            && key in b'.Handles() && b'.materials == AcquiredEntries(b.materials, key, b'.Handles()[key])
  {
    AcquiredResources(w, b, key);
    AcquiredOwners(w, b, key);
    AcquiredMemory(w, b, key);
    hide ResourcesKept, OwnersKept, AcquiredEntries, Bridge.Handles;
  }

  lemma AcquiredResources(w: World, b: Bridge, key: string)
    requires w.next !in w.materials
    ensures ResourcesKept(w, Acquired(w, b, key).0)
  {
  }

  lemma AcquiredOwners(w: World, b: Bridge, key: string)
    requires w.next !in w.materials
    ensures OwnersKept(w, b.matOwn, Acquired(w, b, key).1.matOwn)
  {
  }

  lemma AcquiredMemory(w: World, b: Bridge, key: string)
    ensures var b' := Acquired(w, b, key).1;
            key in b'.Handles() && b'.materials == AcquiredEntries(b.materials, key, b'.Handles()[key])
  {
  }

  lemma NewMeshSynced(w: World, b: Bridge, w2: World, w': World, b': Bridge, call: MeshCall, st: MeshState)
    requires call.key !in b.meshes && b'.meshes == b.meshes && st.mesh !in w.meshes
    requires w2.meshes == w.meshes[st.mesh := call.payload] && w2.instances == w.instances && ResourcesKept(w, w2)
    requires Grown(w2, w', st.instances, 0, st.descriptors)
    requires call.materialKey in b'.Handles()
    requires st.descriptors == Targets(st.mesh, b'.Handles()[call.materialKey], call.transforms, call.visible)
    requires st.materialKey == call.materialKey && st.authoredVisible == call.visible
    requires |st.instances| == |call.transforms|
    requires b'.materials == AcquiredEntries(b.materials, call.materialKey, b'.Handles()[call.materialKey])
    ensures MeshSynced(w, b, w', b'.(meshes := b.meshes[call.key := st]), call)
  {
    hide Grown, InstancesSynced, AcquiredEntries;
    NewInstancesSynced(w, w2, w', st.instances, st.descriptors);
    NewResourcesKept(w, w2, w', st.instances, st.descriptors);
    hide ResourcesKept;
  }

  lemma NewInstancesSynced(w: World, w2: World, w': World, instances: seq<Handle>, descriptors: seq<InstanceDescriptor>)
    requires w2.instances == w.instances && Grown(w2, w', instances, 0, descriptors) && |instances| == |descriptors|
    ensures InstancesSynced(w, w', [], 0, instances, descriptors, true)
    ensures w'.meshes == w2.meshes
  {
    assert instances[0..] == instances;
  }

  lemma NewResourcesKept(w: World, w2: World, w': World, instances: seq<Handle>, descriptors: seq<InstanceDescriptor>)
    requires ResourcesKept(w, w2) && Grown(w2, w', instances, 0, descriptors)
    ensures ResourcesKept(w, w')
  {
  }

  lemma ResourcesFrame(w: World, w1: World, w2: World)
    requires w1.materials == w.materials && w1.textures == w.textures && w1.samplers == w.samplers
    requires ResourcesKept(w1, w2)
    ensures ResourcesKept(w, w2)
  {
  }

  // ------------------------------------------------------------ Which entries outlive the call

  lemma OtherUsers(meshes: map<string, MeshState>, key: string, k: string)
    requires key in meshes && meshes[key].materialKey == k
    ensures |Users(meshes, k)| > 1 <==> exists m :: m in meshes && m != key && meshes[m].materialKey == k
    ensures |Users(meshes, k)| >= 1
  {
    var others := Users(meshes, k) - {key};
    assert Users(meshes, k) == others + {key};
    if |others| > 0 {
      var m :| m in others;
    }
    if m :| m in meshes && m != key && meshes[m].materialKey == k {
      assert m in others;
    }
  }

  lemma AnyUser(meshes: map<string, MeshState>, k: string)
    ensures |Users(meshes, k)| > 0 <==> exists m :: m in meshes && meshes[m].materialKey == k
  {
    if |Users(meshes, k)| > 0 {
      var m :| m in Users(meshes, k);
    }
    if m :| m in meshes && meshes[m].materialKey == k {
      assert m in Users(meshes, k);
    }
  }

  /** Without the mesh, exactly the entries that are authored or used by another mesh stay. */
  lemma UnmeshedKeeps(b: Bridge, key: string)
    requires ReferencesAgree(b.meshes, b.materials, multiset{}) && key in b.meshes
    ensures KeptByUse(b.materials, ReleasedEntries(b.materials, b.meshes[key].materialKey), b.meshes - {key})
  {
    var former := b.meshes[key].materialKey;
    var materials, meshes := ReleasedEntries(b.materials, former), b.meshes - {key};
    OtherUsers(b.meshes, key, former);
    forall k | k in b.materials
      ensures k in materials <==> b.materials[k].authored || exists m :: m in meshes && meshes[m].materialKey == k
    {
      AnyUser(b.meshes, k);
      if exists m :: m in meshes && meshes[m].materialKey == k {
        var m :| m in meshes && meshes[m].materialKey == k;
        assert m in b.meshes && m != key && b.meshes[m].materialKey == k;
      }
      if m :| m in b.meshes && m != key && b.meshes[m].materialKey == k {
        assert m in meshes && meshes[m].materialKey == k;
      }
    }
  }

  /** The same after a sync, which puts the mesh back under its new key. */
  lemma SyncedKeepsEntries(b: Bridge, call: MeshCall, st: MeshState, handle: Handle)
    requires ReferencesAgree(b.meshes, b.materials, multiset{}) && st.materialKey == call.materialKey
    ensures KeptByUse(b.materials, Rereferenced(b, call, handle), b.meshes[call.key := st])
  {
    var materials, meshes := Rereferenced(b, call, handle), b.meshes[call.key := st];
    if call.key in b.meshes {
      OtherUsers(b.meshes, call.key, b.meshes[call.key].materialKey);
    }
    forall k | k in b.materials
      ensures k in materials <==> b.materials[k].authored || exists m :: m in meshes && meshes[m].materialKey == k
    {
      AnyUser(b.meshes, k);
      if m :| m in meshes && meshes[m].materialKey == k {
        assert m != call.key ==> m in b.meshes && b.meshes[m].materialKey == k;
      }
      if m :| m in b.meshes && m != call.key && b.meshes[m].materialKey == k {
        assert m in meshes && meshes[m].materialKey == k;
      }
      if k == call.materialKey {
        assert call.key in meshes && meshes[call.key].materialKey == k;
      }
    }
  }

  lemma SameButReferences(b: Bridge, call: MeshCall, handle: Handle)
    ensures var m' := Rereferenced(b, call, handle);
            && (forall k :: k in b.materials && k in m' ==> m'[k] == b.materials[k].(references := m'[k].references))
            && (forall k :: k in m' && k !in b.materials ==>
                  k == call.materialKey && !m'[k].authored && m'[k].descriptor == PLACEHOLDER && m'[k].handle == handle)
  {
  }

  /** Of the key's entry a sync may make anew, only a placeholder nobody authored. */
  ghost predicate NewAreUnauthored(m: map<string, MaterialEntry>, m': map<string, MaterialEntry>, key: string) {
    forall k {:trigger k in m'} :: k in m' && k !in m ==> k == key && !m'[k].authored && m'[k].descriptor == PLACEHOLDER
  }

  /** Between calls every entry is authored or used. */
  lemma SettledKeeps(w: World, b: Bridge)
    requires Scene(w, b, None, multiset{})
    ensures EntriesFollow(w, b.materials, w, b.materials) && KeptByUse(b.materials, b.materials, b.meshes)
  {
    hide MeshSide, MaterialSide, EntriesFollow;
    AllStay(w, b.materials, b.matOwn, b.fallback);
    forall k | k in b.materials
      ensures b.materials[k].authored || exists m :: m in b.meshes && b.meshes[m].materialKey == k
    {
      AnyUser(b.meshes, k);
    }
  }

  lemma SceneHeld(w: World, b: Bridge)
    requires Scene(w, b, None, multiset{})
    ensures MaterialSide(w, b.materials, b.matOwn, b.fallback)
  {
  }

  lemma SyncedFollows(w: World, b: Bridge, w': World, b': Bridge, call: MeshCall)
    requires Scene(w, b, None, multiset{}) && MeshSynced(w, b, w', b', call)
    requires OwnersKept(w, b.matOwn, b'.matOwn) && MaterialSide(w', b'.materials, b'.matOwn, b.fallback)
    ensures EntriesFollow(w, b.materials, w', b'.materials)
    ensures KeptByUse(b.materials, b'.materials, b'.meshes)
    ensures NewAreUnauthored(b.materials, b'.materials, call.materialKey)
  {
    hide MeshSide, MaterialSide, ReferencesAgree, CacheSynced, InstancesSynced, ResourcesKept, OwnersKept,
      EntriesFollow, KeptByUse, Rereferenced;
    var handle := b'.Handles()[call.materialKey];
    SameButReferences(b, call, handle);
    ResourcesFollow(w, b.materials, b.matOwn, w', b'.materials, b'.matOwn, b.fallback);
    CachedKey(Before(b.meshes, call.key), Kept(b.meshes, call), b'.meshes[call.key], handle, call);
    SyncedKeepsEntries(b, call, b'.meshes[call.key], handle);
  }

  lemma CachedKey(before: seq<Handle>, kept: nat, st: MeshState, handle: Handle, call: MeshCall)
    requires kept <= |before| && CacheSynced(before, kept, st, handle, call)
    ensures st.materialKey == call.materialKey
  {
  }

  /** The first instances are the ones there were, rewritten exactly if an aspect is flagged; the
      others are new and show the call; those past the transforms are gone, and no other differs. */
  ghost predicate InstancesFollow(w: World, before: seq<Handle>, w': World, st: MeshState, material: Handle,
                                  call: MeshCall)
  {
    && |st.instances| == |call.transforms|
    && (forall i :: 0 <= i < |st.instances| ==>
          InstanceFollows(w, before, w', st.instances[i], i,
                          InstanceDescriptor(st.mesh, material, call.transforms[i], call.visible),
                          call.instancesFlagged))
    && (forall i :: |call.transforms| <= i < |before| ==> before[i] !in w'.instances)
    && (forall h :: h in w.instances && h !in before ==> h in w'.instances && w'.instances[h] == w.instances[h])
    && (forall h :: h in w'.instances ==> h in w.instances || h in st.instances)
  }

  predicate InstanceFollows(w: World, before: seq<Handle>, w': World, h: Handle, i: nat, d: InstanceDescriptor,
                            flagged: bool)
  {
    && h in w'.instances
    && if i < |before|
       then h == before[i] && h in w.instances && w'.instances[h] == if flagged then d else w.instances[h]
       else h !in w.instances && w'.instances[h] == d
  }

  lemma SyncedInstancesFollow(w: World, b: Bridge, w': World, b': Bridge, call: MeshCall)
    requires Scene(w, b, None, multiset{}) && MeshSynced(w, b, w', b', call)
    ensures call.key in b'.meshes && call.materialKey in b'.Handles()
    ensures InstancesFollow(w, if call.key in b.meshes then b.meshes[call.key].instances else [], w',
                            b'.meshes[call.key], b'.Handles()[call.materialKey], call)
  {
    hide MaterialSide, ReferencesAgree, Rereferenced, ResourcesKept;
    var before, st := Before(b.meshes, call.key), b'.meshes[call.key];
    if call.key in b.meshes {
      assert MeshHeld(call.key, b.meshes[call.key], w, b.meshOwn, b.Handles());
    }
    KeptFollow(w, w', before, Kept(b.meshes, call), st, call.key !in b.meshes || call.instancesFlagged,
               b'.Handles()[call.materialKey], call);
  }

  lemma KeptFollow(w: World, w': World, before: seq<Handle>, kept: nat, st: MeshState, flagged: bool, material: Handle,
                   call: MeshCall)
    requires kept == if |before| <= |call.transforms| then |before| else |call.transforms|
    requires NoDuplicates(before) && (before == [] || flagged == call.instancesFlagged)
    requires CacheSynced(before, kept, st, material, call)
    requires InstancesSynced(w, w', before, kept, st.instances, st.descriptors, flagged)
    ensures InstancesFollow(w, before, w', st, material, call)
  {
    forall i | 0 <= i < |st.instances|
      ensures InstanceFollows(w, before, w', st.instances[i], i,
                              InstanceDescriptor(st.mesh, material, call.transforms[i], call.visible),
                              call.instancesFlagged)
    {
      if i < kept {
        assert st.instances[i] == st.instances[..kept][i] == before[..kept][i] == before[i];
      }
    }
    forall i | |call.transforms| <= i < |before| ensures before[i] !in w'.instances {
      assert st.instances == st.instances[..kept];
      assert forall j :: 0 <= j < kept ==> st.instances[j] == before[..kept][j] == before[j];
      assert before[i] !in st.instances;
    }
  }

  lemma UnmeshedFollows(w: World, b: Bridge, w1: World, w': World, b': Bridge, key: string)
    requires Scene(w, b, None, multiset{}) && key in b.meshes && w1 == WithoutMesh(w, b.meshes[key])
    requires (w', b') == Released(w1, b.(meshes := b.meshes - {key}), b.meshes[key].materialKey)
    requires EntriesFollow(w1, b.materials, w', b'.materials)
    ensures EntriesFollow(w, b.materials, w', b'.materials)
    ensures KeptByUse(b.materials, b'.materials, b'.meshes) && b'.materials.Keys <= b.materials.Keys
  {
    hide MeshSide, MaterialSide, ReferencesAgree, KeptByUse, EntriesFollow;
    FollowsFrame(w, w1, b.materials, w', b'.materials);
    UnmeshedKeeps(b, key);
    ReleasedFrame(w1, b.(meshes := b.meshes - {key}), b.meshes[key].materialKey);
    hide Released;
  }

  lemma FollowsFrame(w: World, w1: World, m: map<string, MaterialEntry>, w': World, m': map<string, MaterialEntry>)
    requires w1.materials == w.materials && w1.textures == w.textures && w1.samplers == w.samplers
    requires EntriesFollow(w1, m, w', m')
    ensures EntriesFollow(w, m, w', m')
  {
  }

  lemma OwnersFrame(w: World, w1: World, own: MaterialOwners, own': MaterialOwners)
    requires w1.materials == w.materials && w1.textures == w.textures && w1.samplers == w.samplers
    requires OwnersKept(w1, own, own')
    ensures OwnersKept(w, own, own')
  {
  }

  lemma ReleasedFrame(w: World, b: Bridge, key: string)
    ensures var (w', b') := Released(w, b, key);
            && ResourcesKept(w, w')
            && w'.meshes == w.meshes && w'.instances == w.instances
            && b'.meshes == b.meshes && b'.fallback == b.fallback
            && b'.materials == ReleasedEntries(b.materials, key)
            && (forall k :: k in b.Handles() && k != key ==> k in b'.Handles() && b'.Handles()[k] == b.Handles()[k])
            && (key == "" ==> b' == b && w' == w)
  {
  }

  /** Trimming, growing and updating leave the instances as the call asks for. */
  lemma ResizedSynced(w: World, w1: World, w2: World, w3: World, before: seq<Handle>, kept: nat, grown: seq<Handle>,
                      descriptors: seq<InstanceDescriptor>, flagged: bool)
    requires kept <= |before| && (forall h :: h in before ==> h in w.instances) && NoDuplicates(before)
    requires w1 == w.(instances := w.instances - Elements(before[kept..]))
    requires |grown| == |descriptors| && kept <= |grown| && grown[..kept] == before[..kept]
    requires kept == |before| || |grown| == kept
    requires Grown(w1, w2, grown, kept, descriptors)
    requires if flagged then Written(w2, w3, grown, descriptors) else w3 == w2
    requires forall i :: kept <= i < |grown| ==> grown[i] !in w.instances
    ensures InstancesSynced(w, w3, before, kept, grown, descriptors, flagged)
  {
    forall i | 0 <= i < kept ensures grown[i] in w1.instances && w1.instances[grown[i]] == w.instances[grown[i]] {
      assert grown[i] == grown[..kept][i] == before[i];
      assert forall j :: kept <= j < |before| ==> before[j] != before[i];
    }
    assert before == before[..kept] + before[kept..] && grown == grown[..kept] + grown[kept..];
    forall h | h in w1.instances && h in before ensures h in grown {
      assert h in grown[..kept];
    }
  }

  /** The references a step in progress holds: the former key, and the desired one if it differs. */
  function Extra(former: string, desired: string): multiset<string> {
    if former == desired then multiset{} + One(former) else multiset{} + One(former) + One(desired)
  }

  lemma HeldHandleLive(w: World, b: Bridge, p: Option<Pending>, extra: multiset<string>, key: string)
    requires Scene(w, b, p, extra) && key in b.Handles()
    ensures b.Handles()[key] in w.materials
  {
    hide MeshSide, ReferencesAgree;
    if key != "" {
      assert EntryHeld(key, b.materials[key], w, b.matOwn, b.fallback);
    }
  }

  /** Whether an instance outside `gone` shows the material. */
  ghost predicate ShownBeyond(w: World, material: Handle, gone: set<Handle>) {
    exists h :: h in w.instances && h !in gone && w.instances[h].material == material
  }

  /** The instances of the mesh that the call removes or rewrites. */
  function Rewritten(b: Bridge, call: MeshCall): set<Handle> {
    var before := Before(b.meshes, call.key);
    Elements(if call.instancesFlagged then before else before[Kept(b.meshes, call)..])
  }

  /** Whether dropping one reference to the key, once the instances in `gone` have moved off
      it, takes a material away that another instance still shows. */
  ghost predicate Strands(w: World, b: Bridge, key: string, gone: set<Handle>) {
    key != "" && key in b.materials && Retires(b.materials[key]) && ShownBeyond(w, b.materials[key].handle, gone)
  }

  /** Whether the call leaves an instance with a material that goes away: it changes the key
      and drops the last reference to the former one. */
  ghost predicate StrandsFormer(w: World, b: Bridge, call: MeshCall) {
    && call.key in b.meshes && b.meshes[call.key].materialKey != call.materialKey
    && Strands(w, b, b.meshes[call.key].materialKey, Rewritten(b, call))
  }

  /** Whether removing the mesh leaves another mesh's instance with a material that goes away. */
  ghost predicate StrandsOwn(w: World, b: Bridge, key: string) {
    key in b.meshes && Strands(w, b, b.meshes[key].materialKey, Elements(b.meshes[key].instances))
  }

  /** Whether the entry can go away while an instance shows its material. */
  ghost predicate StrandsEntry(w: World, b: Bridge, key: string) {
    key in b.materials && b.materials[key].references == 0 && MaterialUsed(w, b.materials[key].handle)
  }

  /** A material that no new descriptor names is shown afterwards where it is not rewritten. */
  lemma ShownAfterResize(w: World, w': World, before: seq<Handle>, kept: nat, instances: seq<Handle>,
                         descriptors: seq<InstanceDescriptor>, flagged: bool, m: Handle)
    requires InstancesSynced(w, w', before, kept, instances, descriptors, flagged) && NoDuplicates(before)
    requires kept <= |instances| && kept <= |before| && instances[..kept] == before[..kept]
    requires forall i :: 0 <= i < |descriptors| ==> descriptors[i].material != m
    ensures MaterialUsed(w', m) <==> ShownBeyond(w, m, Elements(if flagged then before else before[kept..]))
  {
    var gone := Elements(if flagged then before else before[kept..]);
    assert forall i :: 0 <= i < kept ==> instances[i] == instances[..kept][i] == before[i];
    if MaterialUsed(w', m) {
      var h :| h in w'.instances && w'.instances[h].material == m;
      if h in instances {
        var i :| 0 <= i < |instances| && instances[i] == h;
        assert forall j :: kept <= j < |before| ==> before[i] != before[j];
        assert h !in gone;
      } else {
        assert h in w.instances && h !in before;
        assert h !in gone;
      }
    }
    if ShownBeyond(w, m, gone) {
      var h :| h in w.instances && h !in gone && w.instances[h].material == m;
      if h in before {
        assert before == before[..kept] + before[kept..];
        var i :| 0 <= i < kept && before[..kept][i] == h;
        assert instances[i] == h;
      }
      assert h in w'.instances && w'.instances[h].material == m;
    }
  }

  /** Releasing the former key takes a material away exactly if an instance still shows it. */
  lemma TakesAwayExactly(w: World, w': World, b: Bridge, held: Bridge, p: Pending, call: MeshCall, st: MeshState)
    requires call.key in b.meshes && st.materialKey == call.materialKey && p.instances == st.instances
    requires var former := b.meshes[call.key].materialKey;
             && former != call.materialKey && former in held.Handles() && call.materialKey in held.Handles()
             && (former in b.materials <==> former in held.materials)
             && (former in b.materials ==> held.materials[former] == b.materials[former])
             && Scene(w', held, Some(p), Extra(former, call.materialKey))
    requires NoDuplicates(Before(b.meshes, call.key))
    requires InstancesSynced(w, w', Before(b.meshes, call.key), Kept(b.meshes, call), st.instances, st.descriptors,
                             call.instancesFlagged)
    requires CacheSynced(Before(b.meshes, call.key), Kept(b.meshes, call), st, held.Handles()[call.materialKey], call)
    ensures var former := b.meshes[call.key].materialKey;
            TakesAway(w', held, former) <==> Strands(w, b, former, Rewritten(b, call))
  {
    hide MeshSide, MaterialSide, ReferencesAgree, InstancesSynced, MaterialUsed, ShownBeyond, Elements;
    var former := b.meshes[call.key].materialKey;
    if former != "" && former in b.materials {
      HandlesDistinct(w', held, Some(p), Extra(former, call.materialKey), former, call.materialKey);
      ShownAfterResize(w, w', Before(b.meshes, call.key), Kept(b.meshes, call), st.instances, st.descriptors,
                       call.instancesFlagged, b.materials[former].handle);
    }
  }

  lemma FormerTaken(w: World, w2: World, w3: World, b: Bridge, held: Bridge, call: MeshCall, st: MeshState,
                    released: string)
    requires call.key in b.meshes && st.materialKey == call.materialKey
    requires var former := b.meshes[call.key].materialKey;
             && released == (if former == call.materialKey then "" else former)
             && former in held.Handles() && call.materialKey in held.Handles()
             && (former != call.materialKey ==>
                   && (former in b.materials <==> former in held.materials)
                   && (former in b.materials ==> held.materials[former] == b.materials[former]))
             && Scene(w3, held, Some(Pending(call.key, st.mesh, st.instances)), Extra(former, call.materialKey))
    requires NoDuplicates(Before(b.meshes, call.key)) && w2.instances == w.instances
    requires InstancesSynced(w2, w3, Before(b.meshes, call.key), Kept(b.meshes, call), st.instances, st.descriptors,
                             call.instancesFlagged)
    requires CacheSynced(Before(b.meshes, call.key), Kept(b.meshes, call), st, held.Handles()[call.materialKey], call)
    ensures TakesAway(w3, held, released) <==> StrandsFormer(w, b, call)
  {
    hide Scene, InstancesSynced, MaterialUsed, CacheSynced, Elements;
    if released != "" {
      TakesAwayExactly(w2, w3, b, held, Pending(call.key, st.mesh, st.instances), call, st);
      assert ShownBeyond(w2, held.materials[released].handle, Rewritten(b, call)) <==>
             ShownBeyond(w, held.materials[released].handle, Rewritten(b, call));
    }
  }

  /** After the release everything agrees again, unless a material still shown went away. */
  lemma ReleaseDone(w: World, held: Bridge, key: string, st: MeshState, former: string, released: string,
                    transforms: seq<int>, w': World, b': Bridge)
    requires Scene(w, held, Some(Pending(key, st.mesh, st.instances)), Extra(former, st.materialKey))
    requires st.materialKey in held.Handles() && |st.instances| == |transforms|
    requires st.descriptors == Targets(st.mesh, held.Handles()[st.materialKey], transforms, st.authoredVisible)
    requires released == if former == st.materialKey then "" else former
    requires (w', b') == Released(w, held.(meshes := held.meshes[key := st]), released)
    requires MaterialSide(w', b'.materials, b'.matOwn, b'.fallback) && !TakesAway(w, held, released)
    ensures Scene(w', b', None, multiset{})
  {
    hide MeshSide, MaterialSide, ReferencesAgree, Released, MaterialUsed;
    var rest := if former == st.materialKey then multiset{} else multiset{} + One(former);
    AttachTargets(w, held, key, st, rest, transforms);
    ReleaseKeeps(w, held.(meshes := held.meshes[key := st]), None, rest, released);
    assert rest - One(released) == multiset{};
  }

  lemma KnownMeshSynced(w: World, b: Bridge, w1: World, w2: World, b2: Bridge, w3: World, b3: Bridge, call: MeshCall,
                        st: MeshState, released: string)
    requires call.key in b.meshes && st.mesh == b.meshes[call.key].mesh
    requires w1.meshes == (if call.meshFlagged then w.meshes[st.mesh := call.payload] else w.meshes)
    requires w1.instances == w.instances && ResourcesKept(w, w1)
    requires w2 == w1.(instances := w2.instances, next := w2.next)
    requires InstancesSynced(w1, w2, Before(b.meshes, call.key), Kept(b.meshes, call), st.instances, st.descriptors,
                             call.instancesFlagged)
    requires b2.meshes == b.meshes[call.key := st] && call.materialKey in b2.Handles()
    requires CacheSynced(Before(b.meshes, call.key), Kept(b.meshes, call), st, b2.Handles()[call.materialKey], call)
    requires b2.materials == if b.meshes[call.key].materialKey == call.materialKey then b.materials
                             else AcquiredEntries(b.materials, call.materialKey, b2.Handles()[call.materialKey])
    requires (w3, b3) == Released(w2, b2, released)
    requires released == if b.meshes[call.key].materialKey == call.materialKey then ""
                         else b.meshes[call.key].materialKey
    ensures MeshSynced(w, b, w3, b3, call)
  {
    ReleasedFrame(w2, b2, released);
    ResourcesKeptTwice(w, w2, w3);
    InstancesFrame(w, w1, w2, w3, Before(b.meshes, call.key), Kept(b.meshes, call), st, call.instancesFlagged);
    hide Released, InstancesSynced, ResourcesKept, AcquiredEntries, ReleasedEntries;
  }

  /** Only the instances of the worlds matter. */
  lemma InstancesFrame(w: World, w1: World, w2: World, w3: World, before: seq<Handle>, kept: nat, st: MeshState,
                       flagged: bool)
    requires InstancesSynced(w1, w2, before, kept, st.instances, st.descriptors, flagged)
    requires w1.instances == w.instances && w3.instances == w2.instances
    ensures InstancesSynced(w, w3, before, kept, st.instances, st.descriptors, flagged)
  {
  }

  lemma ResourcesKeptTwice(w: World, w1: World, w2: World)
    requires ResourcesKept(w, w1) && ResourcesKept(w1, w2) && forall m :: m in w2.materials ==> m in w1.materials
    ensures ResourcesKept(w, w2)
  {
  }

  lemma MaterialsBelowNext(w: World, b: Bridge, p: Option<Pending>, extra: multiset<string>)
    requires Scene(w, b, p, extra)
    ensures w.next !in w.materials
  {
  }

  // ------------------------------------------------------------ Visibility

  /** The cached mesh with every descriptor's visibility set. */
  function Revealed(st: MeshState, visible: bool): MeshState {
    st.(descriptors := seq(|st.descriptors|,
                           i requires 0 <= i < |st.descriptors| => st.descriptors[i].(visible := visible)))
  }

  /** The first n instances whose cached visibility differs are rewritten; nothing else changes. */
  ghost predicate RevealedUpTo(w: World, w': World, st: MeshState, visible: bool, n: nat)
    requires n <= |st.instances| == |st.descriptors|
  {
    && w' == w.(instances := w'.instances) && w'.instances.Keys == w.instances.Keys
    && (forall i :: 0 <= i < n ==>
          && st.instances[i] in w.instances
          && w'.instances[st.instances[i]] ==
             if st.descriptors[i].visible != visible then st.descriptors[i].(visible := visible)
             else w.instances[st.instances[i]])
    && (forall h :: h in w.instances && h !in st.instances[..n] ==> w'.instances[h] == w.instances[h])
  }

  lemma RevealNone(w: World, st: MeshState, visible: bool)
    requires |st.instances| == |st.descriptors|
    ensures RevealedUpTo(w, w, st, visible, 0)
  {
  }

  lemma RevealedMore(w: World, w1: World, w2: World, st: MeshState, visible: bool, n: nat)
    requires n < |st.instances| == |st.descriptors| && NoDuplicates(st.instances)
    requires RevealedUpTo(w, w1, st, visible, n) && st.instances[n] in w.instances
    requires w2 == if st.descriptors[n].visible != visible
                   then w1.(instances := w1.instances[st.instances[n] := st.descriptors[n].(visible := visible)])
                   else w1
    ensures RevealedUpTo(w, w2, st, visible, n + 1)
  {
    assert st.instances[..n + 1] == st.instances[..n] + [st.instances[n]];
  }

  /** The mesh's instances whose cached visibility differs get the cached descriptor with the
      new one, the others stay as they were. */
  ghost predicate ShownAs(w: World, w': World, st: MeshState, visible: bool) {
    && |st.instances| == |st.descriptors|
    && (forall i :: 0 <= i < |st.instances| ==>
          && st.instances[i] in w.instances && st.instances[i] in w'.instances
          && w'.instances[st.instances[i]] ==
             if st.descriptors[i].visible != visible then st.descriptors[i].(visible := visible)
             else w.instances[st.instances[i]])
  }

  /** Instance i is rewritten with the new visibility if the cached one differs, else left alone. */
  ghost predicate InstanceRevealed(w: World, w': World, st: MeshState, i: nat, visible: bool)
    requires i < |st.instances|
  {
    var h := st.instances[i];
    && i < |st.descriptors| && h in w.instances && h in w'.instances
    && (st.descriptors[i].visible == visible ==> w'.instances[h] == w.instances[h])
    && (st.descriptors[i].visible != visible ==>
          w'.instances[h] == InstanceDescriptor(st.descriptors[i].mesh, st.descriptors[i].material,
                                                st.descriptors[i].transform, visible))
  }

  /** Where cache and world agreed, they agree on the new visibility. */
  lemma RevealKeepsAgreement(w: World, w': World, st: MeshState, visible: bool)
    requires ShownAs(w, w', st, visible) && AllShown(w, st.instances, st.descriptors)
    ensures AllShown(w', st.instances, Revealed(st, visible).descriptors)
  {
  }

  /** What happens to other instances before or after does not matter. */
  lemma ShownAround(w: World, w1: World, w2: World, w3: World, st: MeshState, visible: bool)
    requires ShownAs(w1, w2, st, visible)
    requires forall h :: h in st.instances ==>
               h in w.instances && h in w1.instances && w1.instances[h] == w.instances[h]
    requires forall h :: h in st.instances ==>
               h in w3.instances && h in w2.instances && w3.instances[h] == w2.instances[h]
    ensures ShownAs(w, w3, st, visible)
  {
  }

  /** Rewriting visibilities keeps every instance bound to its mesh and material. */
  lemma RevealedHeld(w: World, w': World, st: MeshState, visible: bool, key: string, material: Handle, own: MeshOwners)
    requires |st.instances| == |st.descriptors| && RevealedUpTo(w, w', st, visible, |st.instances|)
    requires material in w.materials
    requires forall i :: 0 <= i < |st.instances| ==>
               InstanceHeld(st.instances[i], st.descriptors[i], key, st.mesh, material, w, own)
    ensures var st' := Revealed(st, visible);
            forall i :: 0 <= i < |st'.instances| ==>
              InstanceHeld(st'.instances[i], st'.descriptors[i], key, st.mesh, material, w', own)
  {
    var st' := Revealed(st, visible);
    forall i | 0 <= i < |st'.instances|
      ensures InstanceHeld(st'.instances[i], st'.descriptors[i], key, st.mesh, material, w', own)
    {
      assert InstanceHeld(st.instances[i], st.descriptors[i], key, st.mesh, material, w, own);
    }
  }

  /** Two meshes share no instance. */
  lemma InstancesDisjoint(w: World, b: Bridge, extra: multiset<string>, key: string, other: string, h: Handle)
    requires Scene(w, b, None, extra) && key in b.meshes && other in b.meshes && key != other
    requires h in b.meshes[key].instances
    ensures h !in b.meshes[other].instances && h in w.instances
  {
    hide MaterialSide, ReferencesAgree;
    var st, st' := b.meshes[key], b.meshes[other];
    assert MeshHeld(key, st, w, b.meshOwn, b.Handles()) && MeshHeld(other, st', w, b.meshOwn, b.Handles());
    var i :| 0 <= i < |st.instances| && st.instances[i] == h;
    assert InstanceHeld(st.instances[i], st.descriptors[i], key, st.mesh, b.Handles()[st.materialKey], w, b.meshOwn);
    forall j | 0 <= j < |st'.instances| ensures st'.instances[j] != h {
      assert InstanceHeld(st'.instances[j], st'.descriptors[j], other, st'.mesh, b.Handles()[st'.materialKey], w,
                          b.meshOwn);
    }
  }
}
