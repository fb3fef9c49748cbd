# hdMerlin verification model

A Dafny model of the host-side state machines and in-place algorithms of the hdMerlin
renderer, with proofs of the properties the rest of the renderer relies on. `dafny verify
dfyconfig.toml` checks everything.

## What is modelled

**Deferred-retirement slot tables.** `SlotMachine.dfy` is one abstract machine: every cell is
reserved, free, active, or retiring until a completion value, and counts its lives. The Vulkan
allocator (`BindlessSlots.dfy`) and the Metal table (`MetalTable.dfy`) are classes with the
fields of the original; each carries a ghost run of the machine, so that what is proved over
all runs of the machine (reuse only after a sufficient collection, conservation, the
generation period, the historical peak) holds in every reachable state of both.
`BindlessSamplers.dfy` puts the sampler table with its deduplicated, counted descriptors on top.

**The Hydra scene bridge.** `RenderWorld.dfy` is the render world as sets of live handles with
the references their descriptors hold. It records every world it has gone through, so "at every
intermediate mutation" is a statement about that history. The `Scene*` files give the relation
between what the bridge remembers and the world, one lemma for each kind of step;
`SceneBridge.dfy` is the class, whose methods keep the relation and the safety of the history.
`MaterialSync.dfy` and `MeshSync.dfy` describe the effect of one sync as pure values, and
`SceneRuns.dfy` says which runs of calls stay safe, and `HydraMeshes.dfy` that the runs of its
callers do. An instance may go on showing an earlier
material of its mesh; the relation asks only that the material is live, and a state is called
settled if every instance shows the material of its mesh's key or the fallback.

**Mesh and particle updates.** `Triangulation.dfy` (fan triangulation with holes and
orientation), `ChangedRanges.dfy` (runs of changed elements), `MeshRanges.dfy` (index and vertex
ranges), `MeshPacking.dfy` (preparing and packing attributes), `ParticleRanges.dfy` (aspect-gated particle ranges).

**Vulkan material descriptors.** `MaterialPacking.dfy` and `ParameterBlocks.dfy` (the fit test
and the byte packer), `DescriptorContents.dfy`, `DescriptorSets.dfy` and `DescriptorWrites.dfy`
(what a full rebuild writes, what each write means, pool sizes, reservations), `ParameterUploads.dfy` (all parameter blocks of a frame in
one buffer), `MaterialModules.dfy` (which generated materials are accepted, and which artifact
is selected for them), `MaterialDescriptors.dfy` (the per-frame cache over runs of
successful and failing draws).

**GPU copies into host textures.** `HgiTargets.dfy` (the bridge to the host's Hgi: target
ownership, copy serials, leases), `RenderBuffers.dfy` (allocation, CPU writes, copies,
convergence) and `RenderRuns.dfy` (all buffers of one bridge under any interleaving).

**Two smaller parts.** `GpuSceneUpdates.dfy` (validated range updates of a scene table) and
`TraceIntervals.dfy` (matching trace events and attributing scopes to presented frames).

`Wrappers.dfy`, `Splices.dfy`, `FreeStacks.dfy`, `Injections.dfy` and `Arithmetic.dfy` hold what several parts share.

## Findings

- That no live instance ever refers to a removed material is false of the bridge, and the exact
  conditions are proved, for one call and for runs.
  - One call: every retiring method (`SyncMesh`, `RemoveMesh`, `RemoveMaterial`) states that the
    worlds stay safe if and only if the call does not take away a material that some instance
    it neither removes nor rewrites still shows. All other calls are always safe.
  - Runs: a call misbinds if it changes the key of a known mesh, no instance aspect is set, and
    an instance it keeps shows a material other than the fallback
    (`SceneRuns.Misbinds`). From a settled state a run without such a call is safe and settled
    throughout (`SceneRuns.Run`). A call that misbinds leaves a state from which removing
    meshes and one material ends unsafe, if it is not unsafe at once
    (`SceneRuns.MisbindingStrands`), even though each of those removals is an ordinary call.
  - `SceneRuns.StaleBindingExample` dangles with the misbinding call itself;
    `SceneRuns.DelayedStaleBindingExample` passes it safely, because a second mesh still holds
    the material, and dangles when that mesh is removed.
  - The one caller, `HdMerlinMesh::Sync`, sets the MaterialBinding aspect whenever it fetches a
    binding, and so never misbinds (`HydraMeshes.HdMerlinMesh.Sync`); any interleaving of such
    meshes with material and visibility updates is safe (`HydraMeshes.Run`).
- A descriptor pool created for c materials suffices for every mix of at most c materials if and
  only if none of its sizes wraps in 32 bits (`DescriptorContents.PoolSuffices`,
  `DescriptorContents.WrappedPoolFails`); the same holds of the reservation for image infos
  (`DescriptorContents.ReservationHolds`).
- The comment in `DestroyTarget` that its orphan branch is unreachable is proved: the branch is
  `assert false` in the model. The two internal-inconsistency errors of the sampler table's
  `Release`, and a rejection of its handle by the allocator underneath, are unreachable too.
- That the changed ranges are exact is false of the code for very large arrays, because both
  numbers of a range are cast to 32 bits. The narrowed runs are exact, and patching the previous
  array with them gives the current one, if and only if no run starts at or beyond 2^32 and none
  is that long (`ChangedRanges.NarrowedExactly`, `MeshRanges.IndexPatch`,
  `MeshRanges.VertexPatch`); arrays of fewer than 2^32 elements always meet this. When sizes
  differ, the range over everything covers the first size mod 2^32 elements, so it is exact if
  and only if the size is below 2^32 (`ChangedRanges.FullRangeExactly`), and it is empty at every
  multiple of 2^32 (`ChangedRanges.FullRangeWraps`).
- No draw over validated materials fails because a parameter block is rejected or a resource is
  missing: with selected artifacts and native objects behind the tables, a preparation fails
  exactly when a native call it makes does (`MaterialModules.OnlyNativeCallsFail`).

## Model

| member | source | states |
|---|---|---|
| SlotMachine.ReuseNeedsCollection | backend/merlin-vulkan/src/bindless_resource_table.cpp:143-190 | over every legal run, a cell retired until v is handed out again only after a collection with a value of at least v in between |
| SlotMachine.CollectAbsorbs | backend/merlin-vulkan/src/bindless_resource_table.cpp:168-190 | collecting a and then b >= a leaves the same cells, phases and lives as collecting b alone |
| SlotMachine.ExhaustedAfterCollect | backend/merlin-metal/src/resource_table.cpp:19-50 | after a collection nothing is free exactly when every cell was reserved, active, or retiring and not yet due |
| SlotMachine.NextGenerationCounts | backend/merlin-vulkan/src/bindless_resource_table.cpp:13-16 | the generation of a life is 1 + lives mod (2^32 - 1), never 0, and incrementing past 0 computes the next one |
| SlotMachine.GenerationsCollide | backend/merlin-vulkan/src/bindless_resource_table.cpp:13-16 | two lives share a generation exactly when 2^32 - 1 divides the collections between them |
| SlotMachine.ReissuedHandles | backend/merlin-vulkan/src/bindless_resource_table.cpp:57-60 | two allocations of one cell in a run have different lives, and equal handles exactly in the case above |
| SlotMachine.Conservation | backend/merlin-vulkan/src/bindless_resource_table.cpp:93-190 | over every run, allocations less retirements are the active cells gained, retirements less collections the retiring ones |
| SlotMachine.PeakUseIsMaximum | backend/merlin-vulkan/src/bindless_resource_table.cpp:105-110 | the recorded peak bounds the use in every state of the run and is reached in one |
| BindlessSlots.BindlessSlotAllocator.constructor | backend/merlin-vulkan/src/bindless_resource_table.cpp:25-55 | reserved slots first, generation 1, free stack descending, reserved slots dirty, counters set; establishes the invariant |
| BindlessSlots.BindlessSlotAllocator.Create | backend/merlin-vulkan/src/bindless_resource_table.cpp:33-36 | rejects exactly a capacity below the reserved count |
| BindlessSlots.BindlessSlotAllocator.ValidateOwnedHandle | backend/merlin-vulkan/src/bindless_resource_table.cpp:74-91 | accepts exactly the handle the slot has now, names the first mismatch otherwise, and counts stale generations only |
| BindlessSlots.BindlessSlotAllocator.Allocate | backend/merlin-vulkan/src/bindless_resource_table.cpp:93-117 | fails exactly on an empty free stack; otherwise the top slot becomes active under its present generation and dirty, nothing else changes, and a reuse is counted exactly beyond generation 1 |
| BindlessSlots.BindlessSlotAllocator.RequireActive | backend/merlin-vulkan/src/bindless_resource_table.cpp:119-141 | succeeds exactly where IsActive holds and explains every rejection by the slot's phase |
| BindlessSlots.BindlessSlotAllocator.Retire | backend/merlin-vulkan/src/bindless_resource_table.cpp:143-166 | retires exactly active slots under their current handle; every rejection changes the mismatch counter at most |
| BindlessSlots.BindlessSlotAllocator.Collect | backend/merlin-vulkan/src/bindless_resource_table.cpp:168-190 | a retirement stays exactly if its value is beyond the completed one; the slots of the others are free in the next generation, in the order reported, and dirty; no other slot changes |
| BindlessSlots.DueHandlesExact | backend/merlin-vulkan/src/bindless_resource_table.cpp:168-190 | a handle is reported as collected exactly if a due retirement holds it |
| BindlessSlots.BindlessSlotAllocator.ReservedSlot | backend/merlin-vulkan/src/bindless_resource_table.cpp:192-199 | reserved slots keep generation 1 and stay active over every run; other indices are rejected |
| BindlessSlots.BindlessSlotAllocator.ConsumeDirtySlots | backend/merlin-vulkan/src/bindless_resource_table.cpp:201-213 | reports, in ascending order, exactly the slots handed out or collected since the last time, before the first time also the reserved ones, and leaves none dirty |
| BindlessSlots.DirtyAfterCollect | backend/merlin-vulkan/src/bindless_resource_table.cpp:168-190 | over every run the dirty slots are exactly those handed out or collected since the marks were last consumed: a collection keeps that |
| BindlessSlots.DirtyAfterAllocate | backend/merlin-vulkan/src/bindless_resource_table.cpp:93-117 | and so does an allocation |
| BindlessSlots.CountersAgree | backend/merlin-vulkan/src/bindless_resource_table.cpp:42-213 | in every reachable state the gauges partition the capacity, match the lists, and account for all events; the peak is historical |
| BindlessSlots.ExhaustedExactly | backend/merlin-vulkan/src/bindless_resource_table.cpp:93-104 | allocation fails exactly when every slot is reserved, active or retiring, due or not |
| BindlessSlots.IssuedHandleStatus | backend/merlin-vulkan/src/bindless_resource_table.cpp:74-91 | any handle ever issued is stale exactly if its slot was since collected a number of times 2^32 - 1 does not divide |
| SamplerRuns.ReuseAfterCompletion | backend/merlin-vulkan/src/bindless_resource_table.cpp:225-273 | a sampler slot goes to a new descriptor only after a collection covering every completion value its releases named |
| SamplerRuns.NoReleasingFrameInFlight | backend/merlin-vulkan/src/bindless_resource_table.cpp:225-273 | if collections never run ahead of the device, no frame that released the old descriptor is in flight at reuse |
| SamplerRuns.RunConsistent | backend/merlin-vulkan/src/bindless_resource_table.cpp:225-273 | over every run live descriptors are in bijection with active slots and have a positive count |
| SamplerRuns.ReferencesConserved | backend/merlin-vulkan/src/bindless_resource_table.cpp:225-273 | the sum of all counts is acquisitions less releases |
| BindlessSamplers.BindlessSamplerTable.Acquire | backend/merlin-vulkan/src/bindless_resource_table.cpp:225-245 | an equal live descriptor shares its slot with one more reference, a new one takes the top free slot or fails by exhaustion; every other entry stays; the peak follows the count |
| BindlessSamplers.BindlessSamplerTable.Release | backend/merlin-vulkan/src/bindless_resource_table.cpp:247-273 | succeeds exactly on active handles with one reference less and the greater value; internal errors are unreachable; the last reference removes the entry and retires the slot at the greatest value |
| BindlessSamplers.BindlessSamplerTable.Collect | backend/merlin-vulkan/src/bindless_resource_table.cpp:168-190 | collection of the inner slots leaves descriptors and counts alone |
| BindlessSamplers.EntriesDisjoint | backend/merlin-vulkan/src/bindless_resource_table.cpp:225-245 | distinct live descriptors never share a slot, and there are as many entries as active slots |
| BindlessSamplers.PeakReferencesIsMaximum | backend/merlin-vulkan/src/bindless_resource_table.cpp:225-245 | the recorded peak of references bounds every state of the run and is reached in one |
| MetalTable.StableResourceTable.Acquire | backend/merlin-metal/src/resource_table.cpp:19-50 | collects first; a live resource keeps its slot; otherwise exhausted exactly if all entries are active or not yet due, and else the top free entry is the resource's in its next generation |
| MetalTable.StableResourceTable.Find | backend/merlin-metal/src/resource_table.cpp:52-60 | finds exactly live resources under their entry's present generation |
| MetalTable.StableResourceTable.Release | backend/merlin-metal/src/resource_table.cpp:62-75 | fails exactly for a resource not resident; otherwise its entry alone retires at the value and the resource is no longer found |
| MetalTable.StableResourceTable.Collect | backend/merlin-metal/src/resource_table.cpp:77-88 | frees exactly the due entries, which keep resource and generation, and pushes them in ascending order; no other entry changes |
| MetalTable.CollectibleUpToExact | backend/merlin-metal/src/resource_table.cpp:77-88 | the indices a collection frees are exactly those of retiring entries due by then |
| MetalTable.CountersAgree | backend/merlin-metal/src/resource_table.cpp:19-88 | in every reachable state counters partition the table; acquisitions are reuses plus first uses |
| TableRefinement.GenerationsAgree | backend/merlin-metal/src/resource_table.cpp:33-45 | on equal machines both tables give a slot in use the same generation although they advance it at different times |
| TableRefinement.SameRunSameMachine | backend/merlin-metal/src/resource_table.cpp:19-88 | the same events leave both tables on the same machine, with the same free slots and counters |
| RenderWorlds.RemovingMaterial | core/merlin-render-world/src/render_world.cpp:783-785 | removing a live material keeps the world free of dangling references exactly if no instance uses it |
| RenderWorlds.RemovingTexture | core/merlin-render-world/src/render_world.cpp:786-788 | the same for a texture and the materials that bind it |
| SceneState.SceneIsSafe | adapters/merlin-hydra2/src/adapter.cpp:1283-1310 | the relation between the bridge's memory and the world implies that nothing dangles |
| SceneReferences.AcquireKeeps | adapters/merlin-hydra2/src/adapter.cpp:2585-2602 | acquiring keeps the relation with one reference outstanding, yields a live material, and moves no other key's handle |
| SceneReferences.ReleaseKeeps | adapters/merlin-hydra2/src/adapter.cpp:2604-2638 | releasing keeps the relation unless it takes away a material that an instance shows |
| MeshSync.ShownAfterResize | adapters/merlin-hydra2/src/adapter.cpp:1508-1533 | after the instances of a sync are trimmed, grown and rewritten, a material no new descriptor names is shown exactly where it was shown by an instance neither removed nor rewritten |
| SceneReferences.ResourcesFollow | adapters/merlin-hydra2/src/adapter.cpp:2604-2638 | where references alone change and entries end, every entry that stays keeps handle, descriptor and slots and all they name in the world, and one that ends loses all of it |
| MeshSync.UnmeshedKeeps | adapters/merlin-hydra2/src/adapter.cpp:1539-1551 | without the mesh an entry stays exactly if it is authored or some other mesh holds its key |
| MeshSync.SyncedKeepsEntries | adapters/merlin-hydra2/src/adapter.cpp:1491-1536 | after a sync an entry there was stays exactly if it is authored or some mesh of the new memory holds its key |
| MeshSync.SyncedInstancesFollow | adapters/merlin-hydra2/src/adapter.cpp:1508-1533 | instance by instance: the first ones are those before, with their handles, and show transform i of the call exactly if an aspect is set; the others are new and show it; surplus ones are gone |
| SceneMaterials.DropTexture | adapters/merlin-hydra2/src/adapter.cpp:1627-1639 | a texture the open entry no longer binds is used by no live material |
| SceneBridges.SceneBridge.constructor | adapters/merlin-hydra2/src/adapter.cpp:1343-1355 | the bridge starts with the fallback material alone and the invariant established |
| SceneBridges.SceneBridge.AcquireMaterialLocked | adapters/merlin-hydra2/src/adapter.cpp:2585-2602 | the empty key is the fallback, a known key gets one more reference, an unknown one a placeholder entry nobody authored under a new handle |
| SceneBridges.SceneBridge.RetireMaterialLocked | adapters/merlin-hydra2/src/adapter.cpp:2604-2620 | removes material, textures and samplers of the entry; every removal finds its handle; safe exactly if no instance uses the material |
| SceneBridges.SceneBridge.ReleaseMaterialLocked | adapters/merlin-hydra2/src/adapter.cpp:2624-2638 | drops one reference of this key only and ends its entry exactly if that was the last and nobody authored it; every other entry stays with all it names in the world, an ended one goes with all it names |
| SceneBridges.SceneBridge.SyncMesh | adapters/merlin-hydra2/src/adapter.cpp:1440-1537 | kept instances keep their handles and are rewritten exactly if an aspect is set, new ones show the call, surplus ones are gone, no other changes; authored entries and exactly the unauthored ones some mesh holds stay, with all they name; every intermediate world is safe exactly if no instance that the call neither removes nor rewrites shows a material it retires |
| SceneBridges.SceneBridge.RemoveMesh | adapters/merlin-hydra2/src/adapter.cpp:1539-1551 | removes instances, then the mesh, then the reference; authored entries and exactly the unauthored ones another mesh holds stay, with all they name; safe exactly if no other mesh's instance shows a material it retires |
| SceneBridges.SceneBridge.SyncMaterial | adapters/merlin-hydra2/src/adapter.cpp:1641-1683 | afterwards the material of the entry has the parsed values, and its bindings name textures and samplers with the parsed contents exactly where there are any; kept slots keep their handles; nothing else changes; every intermediate world is safe |
| SceneBridges.SceneBridge.AcquireTextureSlotLocked | adapters/merlin-hydra2/src/adapter.cpp:1606-1625 | a missing texture or sampler is created, a different one updated, and the binding names both |
| SceneBridges.SceneBridge.ReleaseTextureSlotLocked | adapters/merlin-hydra2/src/adapter.cpp:1629-1639 | removes the pair of a slot the material no longer binds, safely |
| SceneBridges.SceneBridge.RemoveMaterial | adapters/merlin-hydra2/src/adapter.cpp:1685-1695 | an unreferenced entry ends at once, a referenced one only stops being authored; safe exactly if no instance shows a material it retires |
| SceneBridges.SceneBridge.UpdateVisibility | adapters/merlin-hydra2/src/adapter.cpp:1729-1744 | every cached descriptor gets the authored-and-selected visibility; exactly the instances whose cached visibility differs are rewritten, each with its cached descriptor |
| SceneRuns.SettledStrandsNothing | adapters/merlin-hydra2/src/adapter.cpp:1491-1536 | from a settled state no call that does not misbind takes away a material still shown |
| SceneRuns.MisbindsWhenBound | adapters/merlin-hydra2/src/adapter.cpp:1495-1536 | where the kept instances show the material of their key, a call misbinds exactly if it changes a non-empty key, sets no instance aspect and keeps an instance |
| SceneRuns.MisboundIsUnsettled | adapters/merlin-hydra2/src/adapter.cpp:1508-1536 | a call that misbinds and strands nothing at once leaves an instance astray |
| SceneRuns.UnsettledIsAstray | adapters/merlin-hydra2/src/adapter.cpp:1524-1533 | in an unsettled state some instance shows the material of an entry that is not its mesh's |
| SceneRuns.Perform | adapters/merlin-hydra2/src/adapter.cpp:1440-1744 | any call: safe exactly if it strands nothing; from a settled state safe and settled afterwards exactly if it does not misbind |
| SceneRuns.SettledStep | adapters/merlin-hydra2/src/adapter.cpp:1440-1744 | whatever a call makes of a settled state is safe and settled exactly if the call does not misbind |
| SceneRuns.Run | adapters/merlin-hydra2/src/adapter.cpp:1440-1744 | over any run from a settled state, each state made from the one before by its call, every world is safe and every state settled up to the first call that misbinds |
| SceneRuns.Strand | adapters/merlin-hydra2/src/adapter.cpp:1539-1551 | from a state with an instance astray, removing one material and the meshes of its key ends unsafe |
| SceneRuns.MisbindingStrands | adapters/merlin-hydra2/src/adapter.cpp:1491-1536 | so a call that misbinds ends unsafe, alone or with such removals after it |
| SceneRuns.StaleBindingExample | adapters/merlin-hydra2/src/adapter.cpp:1491-1536 | a run of two calls that leaves a live instance bound to a removed material |
| SceneRuns.DelayedStaleBindingExample | adapters/merlin-hydra2/src/adapter.cpp:1491-1551 | a run whose worlds have no dangling reference up to and including the one its misbinding call leaves, and whose later mesh removal leaves one |
| HydraMeshes.HdMerlinMesh.Sync | adapters/merlin-hydra2/src/adapter.cpp:3028-3199 | a Hydra mesh that flags every fetched binding never misbinds, whatever else is dirty |
| HydraMeshes.HdMerlinMesh.Destroy | adapters/merlin-hydra2/src/adapter.cpp:3025-3027 | its destructor frees the path and leaves the bridge settled |
| HydraMeshes.OthersTracked | adapters/merlin-hydra2/src/adapter.cpp:3187-3199 | a sync of one path leaves every other path under the binding its mesh fetched |
| HydraMeshes.Start | adapters/merlin-hydra2/src/adapter.cpp:1343-1355 | a new bridge meets what such runs require |
| HydraMeshes.Run | adapters/merlin-hydra2/src/adapter.cpp:3015-3199 | over any interleaving of syncs, creations and destructions of meshes with material syncs, removals and visibility updates, every world is safe and every state settled |
| MeshSync.RevealKeepsAgreement | adapters/merlin-hydra2/src/adapter.cpp:1735-1743 | rewriting only the differing instances is enough if cache and world agreed |
| Triangulation.TriangulateFace | adapters/merlin-hydra2/src/adapter.cpp:520-536 | the fan of n - 2 triangles around corner 0; none below three corners |
| Triangulation.FanHasFaceBoundary | adapters/merlin-hydra2/src/adapter.cpp:520-536 | for any antisymmetric edge weight the fan weighs what the closed boundary weighs: diagonals cancel |
| Triangulation.HydraMesh.RebuildTriangulation | adapters/merlin-hydra2/src/adapter.cpp:3420-3511 | accepts exactly the sound topologies; the fans of all faces that are no holes follow in order, corners 0, k + 1 and k + 2 for triangle k, swapped in a left-handed mesh, and nothing else; explains each rejection and then leaves no corners |
| Triangulation.AllFansEmitted | adapters/merlin-hydra2/src/adapter.cpp:3476-3501 | triangle k of a face lies after all triangles of the faces before it, with the point, the face and the authored position of each of its corners |
| Triangulation.ExplanationUnique | adapters/merlin-hydra2/src/adapter.cpp:3420-3511 | at most one diagnostic fits a topology: the first problem met when holes, counts and points are read in order |
| Triangulation.CornersFaithful | adapters/merlin-hydra2/src/adapter.cpp:3486-3500 | three corners for each of count - 2 triangles of every face that is no hole, each with its authored point and place |
| Triangulation.CornersCover | adapters/merlin-hydra2/src/adapter.cpp:3486-3500 | no authored corner of an accepted face is lost |
| Triangulation.TriangulationPreservesPolygons | adapters/merlin-hydra2/src/adapter.cpp:3420-3511 | over the whole mesh inner edges cancel and the signed area is the shoelace area of the authored faces, negated if left-handed |
| ChangedRanges.RunsExact | adapters/merlin-hydra2/src/adapter.cpp:3654-3672 | the runs are non-empty, ordered, separated by a gap, and cover exactly the changed elements |
| ChangedRanges.ExactUnique | adapters/merlin-hydra2/src/adapter.cpp:3654-3672 | no other list of ranges has these properties |
| ChangedRanges.PatchRestores | adapters/merlin-hydra2/src/adapter.cpp:3648-3673 | copying ranges over the previous array gives the current one exactly if they cover every element that differs |
| ChangedRanges.NarrowedExactly | adapters/merlin-hydra2/src/adapter.cpp:3654-3672 | the narrowed runs are exact, and cover what changed, if and only if no run starts at or beyond 2^32 and none is as long |
| ChangedRanges.FullRangeCovers | adapters/merlin-hydra2/src/adapter.cpp:3641-3646 | the full range covers the first size mod 2^32 elements |
| ChangedRanges.FullRangeExactly | adapters/merlin-hydra2/src/adapter.cpp:3641-3646 | when everything changed it is exact if and only if the size is below 2^32 |
| ChangedRanges.FullRangeWraps | adapters/merlin-hydra2/src/adapter.cpp:3641-3646 | at every multiple of 2^32 elements it is empty |
| MeshRanges.ChangedIndexRanges | adapters/merlin-hydra2/src/adapter.cpp:3648-3673 | the narrowed runs of differing indices, or the full range when sizes differ |
| MeshRanges.VertexEqual | adapters/merlin-hydra2/src/adapter.cpp:3686-3722 | the component-wise test is equality in every present attribute; all accesses are in bounds |
| MeshRanges.ChangedVertexRanges | adapters/merlin-hydra2/src/adapter.cpp:3675-3741 | the narrowed runs of differing vertices, or the full range when any array size differs |
| MeshRanges.IndexPatch | adapters/merlin-hydra2/src/adapter.cpp:3648-3673 | patching the previous indices with the ranges restores the current ones exactly if every run fits the fields of a range |
| MeshRanges.RestoredExactly | adapters/merlin-hydra2/src/adapter.cpp:3675-3741 | copying ranges restores every array exactly if they cover every vertex that differs in some attribute |
| MeshRanges.VertexPatch | adapters/merlin-hydra2/src/adapter.cpp:3675-3741 | the vertex ranges do so exactly if every run fits the fields of a range |
| MeshPacking.ReadGets | adapters/merlin-hydra2/src/adapter.cpp:538-580 | a read succeeds exactly if the place for the interpolation exists and then gives the value there: the first for constant, by face for uniform, by point for vertex and varying, by authored corner for face-varying, through the indices where there are any; none for instance primvars |
| MeshPacking.PrepareCornerNormals | core/merlin-render-world/src/mesh_attributes.cpp:352-407 | accepts exactly whole triangles over existing points whose authored places exist; then corner i has the unit of the value at its place, or the flat normal of the corners i - i mod 3 to i - i mod 3 + 2 |
| MeshPacking.PrepareCornerTangents | core/merlin-render-world/src/mesh_attributes.cpp:445-550 | accepts exactly if the authored places exist; then corner i has the usable tangent at its place, the generated one where there are texture coordinates, or zero |
| MeshPacking.PackedMesh.RebuildPackedMesh | adapters/merlin-hydra2/src/adapter.cpp:3513-3639 | accepts exactly whole triangles with existing places for every authored primvar; then corner i holds the position of its point, the values at its places, white and opaque colours by default, clamped opacity, and index i; otherwise all arrays are empty; optional arrays are empty or full |
| ParticleRanges.ChangedParticleRanges | adapters/merlin-hydra2/src/adapter.cpp:4120-4185 | absent exactly without payload aspects or for unmatched particles; otherwise the runs of particles differing in a gated attribute |
| ParticleRanges.GatedExactly | adapters/merlin-hydra2/src/adapter.cpp:4130-4170 | a particle counts as changed exactly if its position, covariance, opacity or one of its (degree + 1)^2 coefficients differs, each only if its aspect is set |
| ParticleRanges.ParticleRangesComplete | adapters/merlin-hydra2/src/adapter.cpp:3898-3920 | with the aspects a sync computes, the gates hide nothing: ranges are exactly the particles differing in any attribute, if and only if every run fits the fields of a range |
| MaterialPacking.FitsExactly | backend/merlin-vulkan/src/forward.cpp:80-105 | the subtraction-and-division test means that the last value ends inside the buffer and values do not overlap, where they lie the declared stride apart, or their own size if it is 0 |
| MaterialPacking.PackerEndIsExact | backend/merlin-vulkan/src/forward.cpp:313-322 | the packer's 64-bit end is the offset, the distance times the values before the last, and one size; it never overflows, rejects empty arrays, and passes whatever the fit test passed |
| MaterialPacking.ValueRoundTrip | backend/merlin-vulkan/src/forward.cpp:253-296 | decoding the copied bytes gives the value back |
| MaterialPacking.EncodedHolds | backend/merlin-vulkan/src/forward.cpp:253-296 | the components of a value lie one after the other, each as four bytes from the lowest on, a flag as 1 or 0 |
| ParameterBlocks.CopyMaterialValue | backend/merlin-vulkan/src/forward.cpp:253-296 | writes exactly the value's bytes, or nothing if the value has another type |
| ParameterBlocks.PackGeneratedMaterialParameters | backend/merlin-vulkan/src/forward.cpp:298-331 | succeeds exactly if for every binding the first entry of its name has its type, its count and values of the type, and the last value ends in the block, and otherwise names what hinders the first that cannot; if bindings fit and do not overlap, value i lies at offset + i times the stride or else the size; all other bytes are zero; outside the block nothing changes; bounds and type errors excluded by the fit test |
| ParameterBlocks.HinderedOnce | backend/merlin-vulkan/src/forward.cpp:302-329 | a binding packs, or exactly one of the packer's diagnoses fits it |
| ParameterBlocks.PacksExactly | backend/merlin-vulkan/src/forward.cpp:302-329 | a binding packs exactly if the first entry of its name has its type and count, the type is no resource, the last value ends in the block, and every value is of the type |
| ParameterBlocks.PackedReadsBack | backend/merlin-vulkan/src/forward.cpp:298-331 | for pairwise disjoint bindings that fit, value i reads back at the offset plus i times the declared stride, or its size if that is 0 |
| ParameterBlocks.PackedInPlace | backend/merlin-vulkan/src/forward.cpp:298-331 | and so do all values of all bindings of the block at once, component by component |
| ParameterBlocks.BlockElsewhere | backend/merlin-vulkan/src/forward.cpp:298-331 | every byte of the block that belongs to no value is zero |
| DescriptorContents.ParameterBlocksApart | backend/merlin-vulkan/src/forward.cpp:563-572 | generated parameter blocks are aligned, disjoint and inside the total |
| MaterialModules.ValidateMaterial | core/merlin-render-world/src/render_world.cpp:219-370 | accepts exactly named declarations of at least one value, of no resource type for parameters, without a name declared or stated twice, and as many states, each of the type and count of a declaration of its name with values of the type |
| MaterialModules.FirstIsOnly | core/merlin-render-world/src/render_world.cpp:304-321 | with distinct declarations, comparing a state with the first of its name is enough |
| MaterialModules.VerifyDeclaredNamesUnique | core/merlin-render-world/src/material_abi.cpp:73-99 | reports nothing exactly if no name is declared twice |
| MaterialModules.ConcreteLayoutMatches | backend/merlin-vulkan/src/forward.cpp:129-181 | as many bindings as declarations and a fitting one for each |
| MaterialModules.SelectGeneratedMaterials | backend/merlin-vulkan/src/forward.cpp:107-242 | selects the first artifact of the module's key exactly if its constants binding, layout, names, resources and the rest of the interface agree and nothing else speaks against it |
| MaterialModules.BindingIsDeclared | backend/merlin-vulkan/src/forward.cpp:160-181 | by counting, every binding of a matching artifact is the one of some declaration, and fits |
| MaterialModules.SelectedPacks | backend/merlin-vulkan/src/forward.cpp:298-331 | a validated material packs into its selected artifact: no diagnosis of the packer occurs |
| MaterialModules.SelectedWritable | backend/merlin-vulkan/src/forward.cpp:663-719 | and every resource of it can be written if the tables have native objects |
| MaterialModules.OnlyNativeCallsFail | backend/merlin-vulkan/src/forward.cpp:457-776 | over validated materials and selected artifacts a preparation fails exactly when a native call it makes fails or the pool's sizes wrap |
| ParameterUploads.PackBlocks | backend/merlin-vulkan/src/forward.cpp:587-594 | succeeds exactly if every selected artifact can be packed from its record; then every material finds its values, read value by value, in the block at its own offset, and zeros between them |
| ParameterUploads.BindingsAreLocal | backend/merlin-vulkan/src/forward.cpp:587-594 | a block packed at an offset has the bytes of the block packed on its own |
| DescriptorContents.PoolSuffices | backend/merlin-vulkan/src/forward.cpp:486-534 | a pool created for c materials has room for any mix of at most c generated and conventional ones, if none of its sizes wraps in 32 bits |
| DescriptorContents.WrappedPoolFails | backend/merlin-vulkan/src/forward.cpp:497-525 | if a size wraps, some mix of c materials does not fit |
| DescriptorContents.PoolSizesExactly | backend/merlin-vulkan/src/forward.cpp:493-525 | two combined samplers and two uniform buffers for each material, and as many images and samplers as the neediest registered artifact counts, all modulo 2^32 |
| DescriptorContents.ReservationHolds | backend/merlin-vulkan/src/forward.cpp:622-641 | the image infos of any prefix of the sets stay within the reservation if doubling the count does not wrap; if it does, conventional materials outgrow it |
| DescriptorWrites.ImagesAppended | backend/merlin-vulkan/src/forward.cpp:677-702 | appending infos leaves what earlier writes point to unchanged |
| DescriptorWrites.BuildWrites | backend/merlin-vulkan/src/forward.cpp:622-768 | fails exactly if some resource state does not match or has no native object; otherwise every set is written, and only as its material says, within the reservation unless its size wraps |
| DescriptorSets.ContentsShow | backend/merlin-vulkan/src/forward.cpp:643-768 | a conventional set gets its base texture, its normal texture and its constants, in this order, with the fallbacks where it has none; a generated set its parameter block, every texture and sampler of its resources, value by value, and its constants; nothing else |
| DescriptorSets.OneWriteEach | backend/merlin-vulkan/src/forward.cpp:724-768 | where the three bindings differ there is one write to each: base binding and base texture, normal binding and normal texture, constants at the material's number times the aligned size |
| DescriptorSets.OffsetsPlaced | backend/merlin-vulkan/src/forward.cpp:563-572 | the first generated block starts at 0, every other at the first aligned position after the one before, and the total is the end of the last |
| MaterialDescriptors.AssignOffsets | backend/merlin-vulkan/src/forward.cpp:563-572 | the first generated material starts at 0, every other at the first aligned position after the one before, conventional ones have 0; the total is the end of the last |
| MaterialDescriptors.EnsurePool | backend/merlin-vulkan/src/forward.cpp:486-538 | fails exactly if a call it needs fails; a pool with room, emptied unless the sets are reused; touches nothing on reuse with room |
| MaterialDescriptors.ReuseIsCurrent | backend/merlin-vulkan/src/forward.cpp:465-475 | while the cached source matches, no recreation condition holds and the sets are what a full rebuild would write |
| MaterialDescriptors.PrepareMaterialDescriptors | backend/merlin-vulkan/src/forward.cpp:457-776 | reuse, exactly while source, generation, tables and artifacts are those remembered, touches no pool or buffer; reused or rebuilt, every set shows its material of this snapshot, texture by texture, and the parameter buffer its values at the offsets assigned; fails exactly under the stated faults |
| MaterialDescriptors.Renderer.SyncResources | backend/merlin-vulkan/src/renderer.cpp:253-270 | native objects change only together with the resource generation, which grows exactly unless the residency is clean and the snapshot is the resident one or a delta on it that touches no texture or sampler |
| MaterialDescriptors.Renderer.Draw | backend/merlin-vulkan/src/renderer.cpp:246-452 | over every run of draws, failed or not, the sets of a frame that draws, reused or rebuilt, show the materials of its snapshot, texture by texture, and the parameter buffer their values; exact conditions of reuse and of failure |
| HgiTargets.CompletionIsExact | adapters/merlin-hydra2/src/hgi_vulkan_bridge.cpp:770-777 | with in-order completion, comparing serials says exactly whether the copy is done |
| HgiTargets.DiscoversFirst | adapters/merlin-hydra2/src/hgi_vulkan_bridge.cpp:265-339 | the driver found is that of the first render driver, none if there is no such driver |
| HgiTargets.HgiVulkanBridge.SetDrivers | adapters/merlin-hydra2/src/hgi_vulkan_bridge.cpp:265-339 | the Hgi is kept while any target is live; a swap is then refused; otherwise exact new driver and status |
| HgiTargets.HgiVulkanBridge.CreateTarget | adapters/merlin-hydra2/src/hgi_vulkan_bridge.cpp:392-437 | the new target belongs to the current Hgi; outstanding targets are creations less retirements |
| HgiTargets.HgiVulkanBridge.DestroyTarget | adapters/merlin-hydra2/src/hgi_vulkan_bridge.cpp:439-464 | retires a live target by the Hgi that created it; no target is ever orphaned |
| HgiTargets.HgiVulkanBridge.Copy | adapters/merlin-hydra2/src/hgi_vulkan_bridge.cpp:563-768 | succeeds exactly with a usable source and target, with a new serial; every failure gives the lease back and latches the fallback |
| HgiTargets.HgiVulkanBridge.CopyCompleted | adapters/merlin-hydra2/src/hgi_vulkan_bridge.cpp:714-737 | completion releases the copy's lease once and advances the completed serial and the pending count |
| HgiTargets.HgiVulkanBridge.IsCopyComplete | adapters/merlin-hydra2/src/hgi_vulkan_bridge.cpp:770-777 | exact for submitted copies |
| RenderBuffers.OthersStaySound | adapters/merlin-hydra2/src/adapter.cpp:4271-4649 | steps on another target, and completions, leave a buffer sound and its claim of convergence true |
| RenderRuns.OneStep | adapters/merlin-hydra2/src/adapter.cpp:4271-4649 | any step of a buffer replaces at most its own target, by a new one |
| RenderRuns.StepKeeps | adapters/merlin-hydra2/src/adapter.cpp:4271-4649 | after a step of one buffer all buffers are sound, no two share a target, and every live target is held |
| RenderRuns.StepDestruction | adapters/merlin-hydra2/src/adapter.cpp:4266-4269 | destroying a buffer, mapped or not, retires its target and keeps the rest |
| RenderRuns.Run | adapters/merlin-hydra2/src/adapter.cpp:4254-4649 | under any interleaving of all buffers' steps with their creation and destruction, driver declarations and completions: targets stay apart, none is lost, every buffer stays sound |
| RenderRuns.SettledIsTrue | adapters/merlin-hydra2/src/adapter.cpp:4583-4586 | in every such state a buffer told since its last copy whether it converged reports it from the GPU alone only after an earlier copy into its present target is done |
| RenderRuns.OutstandingTargets | adapters/merlin-hydra2/src/hgi_vulkan_bridge.cpp:392-464 | as many targets are outstanding as buffers hold one |
| RenderBuffers.PixelCountExact | adapters/merlin-hydra2/src/adapter.cpp:4281-4297 | the three divisions find exactly the sizes that do not fit 64 bits |
| RenderBuffers.HdMerlinRenderBuffer.Allocate | adapters/merlin-hydra2/src/adapter.cpp:4271-4360 | accepts exactly unmapped, single-sampled buffers of a known format whose planes and bytes fit 64 bits; an unchanged description keeps target and serial, any other gets a new target with serial 0 exactly if one can be published, or none |
| RenderBuffers.HdMerlinRenderBuffer.Write | adapters/merlin-hydra2/src/adapter.cpp:4445-4496 | a CPU write ends GPU-only state; a failed upload retires the target |
| RenderBuffers.HdMerlinRenderBuffer.CopyAov | adapters/merlin-hydra2/src/adapter.cpp:4520-4553 | ready exactly if the previous copy into the same target has completed; a failure retires the target and clears the serial |
| RenderBuffers.HdMerlinRenderBuffer.SetConverged | adapters/merlin-hydra2/src/adapter.cpp:4583-4586 | a converged GPU-only buffer has had an earlier copy into its present target complete |
| RenderBuffers.HdMerlinRenderBuffer.Map | adapters/merlin-hydra2/src/adapter.cpp:4387-4413 | colour stays on the GPU; other formats are downloaded before they are mapped |
| RenderBuffers.HdMerlinRenderBuffer.Deallocate | adapters/merlin-hydra2/src/adapter.cpp:4588-4602 | gives the target back unless mapped |
| RenderBuffers.HdMerlinRenderBuffer.Destroy | adapters/merlin-hydra2/src/adapter.cpp:4266-4269 | gives the target back even while mapped |
| TraceIntervals.CollectIntervals | scripts/hydra-performance-report.py:171-198 | the intervals are exactly the complete events and the pairs whose scope opens at the begin and first closes at the end, each once |
| TraceIntervals.ScopesNest | scripts/hydra-performance-report.py:183-197 | matched pairs of one thread nest or follow each other |
| TraceIntervals.PairsNestInTime | scripts/hydra-performance-report.py:183-197 | with non-decreasing timestamps the intervals of one thread are disjoint or nested, with distinct begins and ends |
| TraceIntervals.PresentationWindows | scripts/hydra-performance-report.py:246-258 | one window for every presentation in the order they end, each from the end of the one before, the first from the phase's start |
| TraceIntervals.WindowsOrdered | scripts/hydra-performance-report.py:246-258 | the windows run forward and do not overlap |
| TraceIntervals.WindowsCountOnce | scripts/hydra-performance-report.py:275-285 | the windows together count every scope inside one of them exactly once, and so never exceed the total |
| TraceIntervals.PhasesAreLast | scripts/hydra-performance-report.py:199-206 | a phase is known exactly if an interval bears its prefixed name, and spans the last of these |
| TraceIntervals.MeasuredAreMatches | scripts/hydra-performance-report.py:260-274 | the scopes of a stage are those inside the phase whose names end with one of its suffixes; only if there are none, those of its fallbacks |
| TraceIntervals.TraceStageSamples | scripts/hydra-performance-report.py:231-299 | one value for every presentation of the phase, the time measured between its end and the end before it; without presentations one for every scope; measured are the stage's own scopes, or its fallbacks where it has none; nothing for an unknown phase |
| TraceIntervals.NoNegativeScopes | scripts/hydra-performance-report.py:171-198 | with monotone threads and non-negative durations no interval lasts less than nothing |
| TraceIntervals.SamplesOfTrace | scripts/hydra-performance-report.py:171-299 | from events to samples: in such a trace no stage of any phase reports more time than its scopes inside the phase last |
| GpuSceneUpdates.ValidateGpuSceneTableUpdate | backend/merlin-metal/src/backend_impl.hpp:200-244 | accepts exactly non-empty ranges that match the plan, are ordered, fit the table, and add up to the stated totals; a rejection names the first range at fault |
| GpuSceneUpdates.AppliedAt | backend/merlin-metal/src/backend_impl.hpp:215-236 | applying accepted ranges puts each record in its slot once and leaves every other slot alone |
| GpuSceneUpdates.TotalsFit | backend/merlin-metal/src/backend_impl.hpp:212-238 | the running 64-bit totals of ordered ranges cannot overflow |
| GpuSceneUpdates.TotalCountsSlots | backend/merlin-metal/src/backend_impl.hpp:212-238 | the total is the number of slots that the ranges write |

## Left out

- Vulkan, Metal, Hgi, OpenUSD, ImGui and GLFW calls: native objects are opaque handles, and which calls fail is a parameter.
- Threads and locks: each method is atomic, a copy's completion is a step of its own.
- Floating-point rendering maths: cameras, lights, tone mapping, normal and tangent generation. Vertex components are reals compared for equality, so NaN and signed zero are not captured.
- 64-bit counters, serials, revisions and the resource generation are unbounded; 32-bit slot generations and range fields wrap as in the source.
- The process-wide counter behind a Vulkan table id, labels, and the text of exceptions and diagnostics; a thrown error is a result value.
- Render world handles are issued from one counter and never reissued; the source issues 32-bit generations for each kind. Validation of descriptor contents by the world, its change list, cameras, lights and Gaussians are not part of the scene bridge model.
- SceneBridges.SceneBridge.SyncMesh: does not keep the cached mesh descriptor, labels and dirty ranges, because they do not influence which handles are live; a mesh's geometry is one payload value. Updates in place through a map reference become one map update at the end of the call.
- SceneBridges.SceneBridge.UpdateVisibility: does not claim that the world always shows authored-and-selected visibility, because SyncMesh can rewrite the cached visibility without updating the world when no instance aspect is set.
- SceneBridges.SceneBridge.RetireMaterialLocked: removes both pairs through the slot helper, which also clears the slots of the entry that is erased right after.
- Triangulation.HydraMesh.RebuildTriangulation: face, corner and point numbers are unbounded, where the source keeps them in 32 bits; this matters only for topologies of 2^32 or more face-vertices.
- MeshPacking.PackedMesh.RebuildPackedMesh: the arithmetic of normals and tangents is a parameter; their counts of degenerate corners and the diagnostics about them are not kept.
- MaterialModules.SelectGeneratedMaterials: whether the mesh is drawn, the remaining interface and reflection checks and the loading of the shader are parameters; finite values and version numbers are not checked.
- MaterialDescriptors.PrepareMaterialDescriptors: does not model the cast of the number of materials to 32 bits, which matters from 2^32 materials on.
- MaterialDescriptors.Renderer.Draw: takes the selected artifacts as an input; relies on equal table identities meaning equal records, as the persistent table documents; geometry, pipelines, the bindless path and the uniform contents, which are rewritten every frame, are not modelled.
- HgiTargets.HgiVulkanBridge.Copy: leaves nothing pending when submission fails. The source attaches the completion handler before it submits, so a submission that throws may leave a handler behind, which would later raise the completion count and the completed serial.
- HgiTargets.HgiVulkanBridge.CopyCompleted: copies complete in submission order, which one queue guarantees; the Metal bridge beside it is not modelled.
- RenderBuffers.HdMerlinRenderBuffer.Write: does not model pixel contents; the three typed writers differ only in the format they check.
- TraceIntervals.TraceStageSamples: values are before scaling and rounding to integer nanoseconds; the stage table is a parameter, JSON parsing is left out.
- RenderRuns.Run: the host never reissues a target handle or a lease.
- GPU scene commits and range normalisation, shaders, GPU sorting and tiling, argument parsing, report output, developer UI, telemetry copying, benchmark drivers and evidence scripts.
- SelectDescriptorBackend, the direct-share evaluation and FindMemoryType, which a reading of their branches settles.
