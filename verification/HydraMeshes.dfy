/**
 The callers of the scene bridge: Hydra meshes, each driving one path, interleaved with material
 syncs, material removals and visibility updates.  No such run ever misbinds, so no live
 instance ever refers to a removed material.
 */
module HydraMeshes {
  import opened Wrappers
  import opened RenderWorlds
  import opened SceneState
  import opened SceneReferences
  import opened MaterialSync
  import opened MeshSync
  import opened SceneBridges
  import opened SceneRuns

  /** What a Hydra mesh remembers of its binding.  It fetches a binding exactly when it flags it. */
  class HdMerlinMesh {
    const id: string
    const bridge: SceneBridge
    var materialId: string

    /** The bridge holds the mesh under the binding fetched last. */
    ghost predicate Tracks()
      reads this, bridge
    {
      id in bridge.meshes ==> bridge.meshes[id].materialKey == materialId
    }

    constructor (path: string, b: SceneBridge)
      ensures id == path && bridge == b && materialId == ""
    {
      id, bridge, materialId := path, b, "";
    }

    /** No sync misbinds, whatever else is dirty; other meshes keep their state. */
    method Sync(fetched: Option<string>, otherAspects: bool, payload: int, transforms: seq<int>, visible: bool,
                meshFlagged: bool, empty: bool)
      requires bridge.Valid() && Settled(bridge.world.contents, bridge.Memory()) && Tracks()
      modifies this, bridge, bridge.world
      ensures bridge.Valid() && Settled(bridge.world.contents, bridge.Memory()) && Tracks()
      ensures materialId == if fetched.Some? then fetched.value else old(materialId)
      ensures bridge.meshes - {id} == old(bridge.meshes) - {id}
    {
      hide Scene, Settled, RenderWorld.Safe, Released, MeshSynced;
      if fetched.Some? {
        materialId := fetched.value;
      }
      var call := MeshCall(id, payload, materialId, transforms, visible, meshFlagged, otherAspects || fetched.Some?);
      ghost var w, b := bridge.world.contents, bridge.Memory();
      Perform(bridge, CallSyncMesh(call, empty));
      SyncedMeshes(w, b, bridge.world.contents, bridge.Memory(), call, empty);
    }

    /** The destructor removes the mesh, so that a later one may take its path. */
    method Destroy()
      requires bridge.Valid() && Settled(bridge.world.contents, bridge.Memory())
      modifies bridge, bridge.world
      ensures bridge.Valid() && Settled(bridge.world.contents, bridge.Memory())
      ensures bridge.meshes == old(bridge.meshes) - {id}
    {
      hide Scene, Settled, RenderWorld.Safe, MeshSynced;
      Perform(bridge, CallRemoveMesh(id));
    }
  }

  lemma SyncedMeshes(w: World, b: Bridge, w': World, b': Bridge, call: MeshCall, empty: bool)
    requires Performed(w, b, CallSyncMesh(call, empty), w', b')
    ensures b'.meshes - {call.key} == b.meshes - {call.key}
    ensures call.key in b'.meshes ==> b'.meshes[call.key].materialKey == call.materialKey
  {
  }

  // ------------------------------------------------------------ All meshes of one bridge

  /** One step; one for a mesh that does not exist, or a mesh for a path in use, does nothing. */
  datatype HydraStep =
    | Syncing(who: nat, fetched: Option<string>, otherAspects: bool, payload: int, transforms: seq<int>,
              visible: bool, meshFlagged: bool, empty: bool)
    | Constructing(path: string)
    | Destructing(who: nat)
    | Authoring(material: string, parsed: ParsedMaterial)
    | Withdrawing(material: string)
    | Rendering(selected: set<string>)

  ghost predicate DistinctPaths(bridge: SceneBridge, meshes: seq<HdMerlinMesh>)
  {
    && (forall i :: 0 <= i < |meshes| ==> meshes[i].bridge == bridge)
    && (forall i, j :: 0 <= i < j < |meshes| ==> meshes[i] != meshes[j] && meshes[i].id != meshes[j].id)
  }

  /** The bridge knows the paths of these meshes only, each under the binding its mesh fetched. */
  ghost predicate PathsTracked(bridge: SceneBridge, meshes: seq<HdMerlinMesh>)
    reads bridge, meshes
  {
    && (forall i :: 0 <= i < |meshes| ==>
          meshes[i].id in bridge.meshes ==> bridge.meshes[meshes[i].id].materialKey == meshes[i].materialId)
    && (forall k :: k in bridge.meshes ==> exists i :: 0 <= i < |meshes| && meshes[i].id == k)
  }

  ghost predicate Driven(bridge: SceneBridge, meshes: seq<HdMerlinMesh>)
    reads bridge, bridge.world, meshes
  {
    && bridge.Valid() && Settled(bridge.world.contents, bridge.Memory())
    && DistinctPaths(bridge, meshes) && PathsTracked(bridge, meshes)
  }

  method SyncOne(bridge: SceneBridge, meshes: seq<HdMerlinMesh>, s: HydraStep)
    requires Driven(bridge, meshes) && s.Syncing? && s.who < |meshes|
    modifies bridge, bridge.world, meshes
    ensures Driven(bridge, meshes)
  {
    hide Settled, SceneBridge.Valid;
    var m := meshes[s.who];
    ghost var before := bridge.meshes;
    m.Sync(s.fetched, s.otherAspects, s.payload, s.transforms, s.visible, s.meshFlagged, s.empty);
    OthersTracked(bridge, meshes, s.who, before);
  }

  /** Where only the path of mesh i changed, all paths are still tracked. */
  lemma OthersTracked(bridge: SceneBridge, meshes: seq<HdMerlinMesh>, i: nat, before: map<string, MeshState>)
    requires i < |meshes| && DistinctPaths(bridge, meshes) && meshes[i].Tracks()
    requires bridge.meshes - {meshes[i].id} == before - {meshes[i].id}
    requires forall j :: 0 <= j < |meshes| && j != i && meshes[j].id in before ==>
               before[meshes[j].id].materialKey == meshes[j].materialId
    requires forall k :: k in before ==> exists j :: 0 <= j < |meshes| && meshes[j].id == k
    ensures PathsTracked(bridge, meshes)
  {
    forall k | k in bridge.meshes && k != meshes[i].id ensures k in before && bridge.meshes[k] == before[k] {
      assert k in bridge.meshes - {meshes[i].id};
      assert (before - {meshes[i].id})[k] == before[k];
    }
  }

  method DestroyOne(bridge: SceneBridge, meshes: seq<HdMerlinMesh>, i: nat) returns (meshes': seq<HdMerlinMesh>)
    requires Driven(bridge, meshes) && i < |meshes|
    modifies bridge, bridge.world
    ensures Driven(bridge, meshes') && meshes' == meshes[..i] + meshes[i + 1..]
  {
    hide Settled, SceneBridge.Valid;
    var m := meshes[i];
    ghost var before := bridge.meshes;
    m.Destroy();
    meshes' := meshes[..i] + meshes[i + 1..];
    RestTracked(bridge, meshes, i, before);
  }

  /** Where only the path of mesh i went away, the other meshes are still tracked. */
  lemma RestTracked(bridge: SceneBridge, meshes: seq<HdMerlinMesh>, i: nat, before: map<string, MeshState>)
    requires i < |meshes| && DistinctPaths(bridge, meshes) && bridge.meshes == before - {meshes[i].id}
    requires forall j :: 0 <= j < |meshes| && meshes[j].id in before ==>
               before[meshes[j].id].materialKey == meshes[j].materialId
    requires forall k :: k in before ==> exists j :: 0 <= j < |meshes| && meshes[j].id == k
    ensures var rest := meshes[..i] + meshes[i + 1..]; DistinctPaths(bridge, rest) && PathsTracked(bridge, rest)
  {
    var rest := meshes[..i] + meshes[i + 1..];
    assert forall j :: 0 <= j < |rest| ==> rest[j] == meshes[if j < i then j else j + 1];
    forall k | k in bridge.meshes ensures exists j :: 0 <= j < |rest| && rest[j].id == k {
      var j :| 0 <= j < |meshes| && meshes[j].id == k;
      assert rest[if j < i then j else j - 1].id == k;
    }
  }

  method ConstructOne(bridge: SceneBridge, meshes: seq<HdMerlinMesh>, path: string) returns (meshes': seq<HdMerlinMesh>)
    requires Driven(bridge, meshes) && forall i :: 0 <= i < |meshes| ==> meshes[i].id != path
    ensures Driven(bridge, meshes') && |meshes'| == |meshes| + 1 && meshes'[..|meshes|] == meshes
    ensures fresh(meshes'[|meshes|]) && meshes'[|meshes|].id == path
  {
    hide Settled, SceneBridge.Valid;
    var m := new HdMerlinMesh(path, bridge);
    meshes' := meshes + [m];
    forall k | k in bridge.meshes ensures exists j :: 0 <= j < |meshes'| && meshes'[j].id == k {
      var j :| 0 <= j < |meshes| && meshes[j].id == k;
      assert meshes'[j].id == k;
    }
  }

  /** A call that is no mesh sync keeps every mesh's key. */
  method OtherCall(bridge: SceneBridge, meshes: seq<HdMerlinMesh>, c: SceneCall)
    requires Driven(bridge, meshes) && !c.CallSyncMesh? && !c.CallRemoveMesh?
    modifies bridge, bridge.world
    ensures Driven(bridge, meshes)
  {
    hide Settled, SceneBridge.Valid, Shows, OnlyEntryChanged, Keeps, ShownAs, RetiredWorld;
    Perform(bridge, c);
  }

  function Members(meshes: seq<HdMerlinMesh>): set<HdMerlinMesh> {
    set m | m in meshes
  }

  method TakeStep(bridge: SceneBridge, meshes: seq<HdMerlinMesh>, s: HydraStep) returns (meshes': seq<HdMerlinMesh>)
    requires Driven(bridge, meshes)
    modifies bridge, bridge.world, meshes
    ensures Driven(bridge, meshes') && fresh(Members(meshes') - Members(meshes))
  {
    hide Driven;
    meshes' := meshes;
    match s {
      case Syncing(who, _, _, _, _, _, _, _) =>
        if who < |meshes| {
          SyncOne(bridge, meshes, s);
        }
      case Constructing(path) =>
        if forall i :: 0 <= i < |meshes| ==> meshes[i].id != path {
          meshes' := ConstructOne(bridge, meshes, path);
          assert meshes' == meshes + [meshes'[|meshes|]];
        }
      case Destructing(who) =>
        if who < |meshes| {
          meshes' := DestroyOne(bridge, meshes, who);
        }
      case Authoring(material, parsed) => OtherCall(bridge, meshes, CallSyncMaterial(material, parsed));
      case Withdrawing(material) => OtherCall(bridge, meshes, CallRemoveMaterial(material));
      case Rendering(selected) => OtherCall(bridge, meshes, CallUpdateVisibility(selected));
    }
  }

  /** Whatever the meshes and the delegate do, in any order: every world the bridge goes through
      is free of dangling references, and every instance shows its mesh's material or the fallback. */
  method Run(bridge: SceneBridge, meshes: seq<HdMerlinMesh>, steps: seq<HydraStep>)
    returns (meshes': seq<HdMerlinMesh>)
    requires Driven(bridge, meshes)
    modifies bridge, bridge.world, meshes
    ensures Driven(bridge, meshes') && fresh(Members(meshes') - Members(meshes))
  {
    hide Driven;
    meshes' := meshes;
    var k := 0;
    while k < |steps|
      invariant 0 <= k <= |steps| && Driven(bridge, meshes') && fresh(Members(meshes') - Members(meshes))
    {
      assert forall m :: m in meshes' ==> m in Members(meshes');
      meshes' := TakeStep(bridge, meshes', steps[k]);
      k := k + 1;
    }
  }

  /** A new bridge without meshes is driven, and so all this is true of every run from it. */
  method Start(world: RenderWorld) returns (bridge: SceneBridge)
    requires world.Safe() && world.contents == World(map[], map[], map[], map[], map[], 1)
    modifies world
    ensures Driven(bridge, []) && bridge.world == world && fresh(bridge)
  {
    bridge := new SceneBridge(world);
    NothingSettled(world.contents, bridge.Memory());
  }
}
