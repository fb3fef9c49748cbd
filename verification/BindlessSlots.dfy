/**
 The Vulkan bindless slot allocator: a fixed table of slots, a stack of the free ones and a
 list of retirements.  A collection at a completion value ends the retirements due by then:
 it bumps the generation of each slot and pushes it back.
 */
module BindlessSlots {
  import opened Wrappers
  import opened FreeStacks
  import M = SlotMachine

  const INVALID_SLOT_INDEX: nat := 0xFFFF_FFFF

  datatype SlotHandle = SlotHandle(index: nat, generation: nat, tableId: nat) {
    /** A default-constructed handle, or one with a zero part, names nothing. */
    predicate IsSet() {
      index != INVALID_SLOT_INDEX && generation != 0 && tableId != 0
    }
  }

  datatype SlotError =
    | InvalidHandle | ForeignHandle | ReservedSlotError | SlotNotAllocated | SlotRetired | StaleGeneration | Exhausted

  datatype State = Free | Reserved | Active | Retired

  datatype Slot = Slot(generation: nat, state: State)

  datatype Retirement = Retirement(slot: SlotHandle, completionValue: nat)

  datatype Telemetry = Telemetry(
    capacity: nat,
    reservedSlots: nat,
    currentUse: nat,
    peakUse: nat,
    retiringSlots: nat,
    availableSlots: nat,
    dirtyDescriptorSlots: nat,
    allocationCount: nat,
    reuseCount: nat,
    retirementCount: nat,
    retirementCollectionCount: nat,
    descriptorUpdateCount: nat,
    exhaustionCount: nat,
    generationMismatchCount: nat)

  // ------------------------------------------------------------ What the fields mean

  predicate StateMatches(state: State, phase: M.Phase) {
    match phase
    case Free => state.Free?
    case Reserved => state.Reserved?
    case Active => state.Active?
    case Retiring(_) => state.Retired?
  }

  ghost predicate SlotsMatch(slots: seq<Slot>, m: M.Machine) {
    && |slots| == |m|
    && forall i :: 0 <= i < |m| ==>
         && slots[i].generation == M.Generation(m[i].lives)
         && StateMatches(slots[i].state, m[i].phase)
  }

  /** The retirement list holds exactly the retiring cells, each once, under the handle
      the slot still has and with the value it is waiting for. */
  ghost predicate RetirementsMatch(retirements: seq<Retirement>, m: M.Machine, tableId: nat) {
    && (forall j :: 0 <= j < |retirements| ==> RetirementMatches(retirements[j], m, tableId))
    && (forall j, k :: 0 <= j < k < |retirements| ==> retirements[j].slot.index != retirements[k].slot.index)
    && (forall i {:trigger IsListed(retirements, i)} :: 0 <= i < |m| && m[i].phase.Retiring? ==>
          IsListed(retirements, i))
    && |retirements| == M.Count(m, M.RetiringKind)
  }

  ghost predicate RetirementMatches(r: Retirement, m: M.Machine, tableId: nat) {
    && r.slot.index < |m|
    && m[r.slot.index].phase == M.Retiring(r.completionValue)
    && r.slot == SlotHandle(r.slot.index, M.Generation(m[r.slot.index].lives), tableId)
  }

  ghost predicate IsListed(retirements: seq<Retirement>, index: nat) {
    exists j :: 0 <= j < |retirements| && retirements[j].slot.index == index
  }

  function DirtyCount(dirty: seq<bool>): nat {
    if dirty == [] then 0
    else DirtyCount(dirty[..|dirty| - 1]) + if dirty[|dirty| - 1] then 1 else 0
  }

  ghost predicate GaugesAgree(t: Telemetry, m: M.Machine, dirty: seq<bool>) {
    && t.capacity == |m| == |dirty|
    && t.reservedSlots == M.Count(m, M.ReservedKind)
    && t.currentUse == M.InUse(m)
    && t.retiringSlots == M.Count(m, M.RetiringKind)
    && t.availableSlots == M.Count(m, M.FreeKind)
    && t.retirementCollectionCount == M.Lives(m)
    && t.dirtyDescriptorSlots == DirtyCount(dirty)
  }

  ghost predicate HistoryAgrees(t: Telemetry, initial: M.Machine, trace: seq<M.Event>) {
    && t.peakUse == M.PeakUse(initial, trace)
    && t.allocationCount == M.Allocations(trace)
    && t.retirementCount == M.Retirements(trace)
  }

  /** The allocator's fields as one value, for contracts that compare whole states. */
  datatype Fields = Fields(
    slots: seq<Slot>,
    free: seq<nat>,
    retirements: seq<Retirement>,
    dirty: seq<bool>,
    telemetry: Telemetry)

  /** The fields describe machine `m`. */
  ghost predicate FieldsMatch(f: Fields, id: nat, m: M.Machine) {
    && id != 0
    && |f.slots| <= INVALID_SLOT_INDEX
    && SlotsMatch(f.slots, m)
    && FreeStackMatches(f.free, m)
    && RetirementsMatch(f.retirements, m, id)
    && GaugesAgree(f.telemetry, m, f.dirty)
  }

  /** Everything the allocator keeps: its fields describe the machine that the run so
      far has produced, and its history counters agree with that run. */
  ghost predicate TableInvariant(f: Fields, id: nat, m: M.Machine, initial: M.Machine, trace: seq<M.Event>) {
    && FieldsMatch(f, id, m)
    && HistoryAgrees(f.telemetry, initial, trace)
    && M.Initial(initial)
    && M.Legal(initial, trace)
    && m == M.After(initial, trace)
  }

  // ------------------------------------------------------------ Whole-state steps

  function MarkedDirty(f: Fields, x: nat): Fields
    requires x < |f.dirty|
  {
    var dirty := f.dirty[x := true];
    f.(dirty := dirty, telemetry := f.telemetry.(dirtyDescriptorSlots := DirtyCount(dirty)))
  }

  /** One more allocation; a generation beyond the first makes it a reuse. */
  function CountedAllocation(t: Telemetry, generation: nat): Telemetry
    requires t.availableSlots > 0
  {
    t.(availableSlots := t.availableSlots - 1,
       currentUse := t.currentUse + 1,
       peakUse := if t.peakUse < t.currentUse + 1 then t.currentUse + 1 else t.peakUse,
       allocationCount := t.allocationCount + 1,
       reuseCount := t.reuseCount + if generation > 1 then 1 else 0)
  }

  /** Slot x is active and off the free stack, and every counter has moved. */
  function Allocated(f: Fields, x: nat): Fields
    requires x < |f.slots| && x < |f.dirty| && f.free != [] && f.telemetry.availableSlots > 0
  {
    MarkedDirty(f.(
      slots := f.slots[x := f.slots[x].(state := Active)],
      free := f.free[..|f.free| - 1],
      telemetry := CountedAllocation(f.telemetry, f.slots[x].generation)), x)
  }

  /** Slot x has left the table's users and waits for `due`. */
  function RetiredAt(f: Fields, slot: SlotHandle, due: nat): Fields
    requires slot.index < |f.slots| && f.telemetry.currentUse > 0
  {
    var t := f.telemetry;
    f.(slots := f.slots[slot.index := f.slots[slot.index].(state := Retired)],
       retirements := f.retirements + [Retirement(slot, due)],
       telemetry := t.(currentUse := t.currentUse - 1,
                       retiringSlots := t.retiringSlots + 1,
                       retirementCount := t.retirementCount + 1))
  }

  /** The k-th retirement has been collected: its slot is free in its next generation. */
  function CollectedAt(f: Fields, k: nat): Fields
    requires k < |f.retirements| && f.telemetry.retiringSlots > 0
    requires f.retirements[k].slot.index < |f.slots| && f.retirements[k].slot.index < |f.dirty|
  {
    var t, x := f.telemetry, f.retirements[k].slot.index;
    MarkedDirty(f.(
      slots := f.slots[x := Slot(M.NextGeneration(f.slots[x].generation), Free)],
      free := f.free + [x],
      retirements := WithoutAt(f.retirements, k),
      telemetry := t.(retiringSlots := t.retiringSlots - 1,
                      availableSlots := t.availableSlots + 1,
                      retirementCollectionCount := t.retirementCollectionCount + 1)), x)
  }

  lemma InvariantSlots(f: Fields, id: nat, m: M.Machine, initial: M.Machine, trace: seq<M.Event>)
    requires TableInvariant(f, id, m, initial, trace)
    ensures SlotsMatch(f.slots, m)
  {
  }

  /** The event counters the invariant does not mention may change freely. */
  lemma CountersOutsideInvariant(f: Fields, id: nat, m: M.Machine, initial: M.Machine, trace: seq<M.Event>)
    requires TableInvariant(f, id, m, initial, trace)
    ensures forall reuse, updates, exhausted, mismatches ::
      TableInvariant(f.(telemetry := f.telemetry.(reuseCount := reuse, descriptorUpdateCount := updates,
                        exhaustionCount := exhausted, generationMismatchCount := mismatches)), id, m, initial, trace)
  {
  }

  /** Clearing every dirty mark and its gauge keeps the invariant. */
  lemma ClearedDirtyKeeps(f: Fields, id: nat, m: M.Machine, initial: M.Machine, trace: seq<M.Event>)
    requires TableInvariant(f, id, m, initial, trace)
    ensures f.telemetry.dirtyDescriptorSlots == DirtyCount(f.dirty)
    ensures forall updates :: TableInvariant(
              f.(dirty := seq(|f.dirty|, _ => false),
                 telemetry := f.telemetry.(dirtyDescriptorSlots := 0, descriptorUpdateCount := updates)),
              id, m, initial, trace)
  {
    DirtyCountNone(seq(|f.dirty|, _ => false));
  }

  lemma AllocateKeeps(f: Fields, id: nat, m: M.Machine, initial: M.Machine, trace: seq<M.Event>, x: nat)
    requires TableInvariant(f, id, m, initial, trace)
    requires f.free != [] && x == f.free[|f.free| - 1]
    ensures x < |f.slots| == |m| == |f.dirty| && f.telemetry.availableSlots > 0
    ensures f.telemetry.dirtyDescriptorSlots == DirtyCount(f.dirty)
    ensures f.slots[x].generation == M.Generation(m[x].lives) && SlotHandle(x, f.slots[x].generation, id).IsSet()
    ensures m[x].phase.Free?
    ensures TableInvariant(Allocated(f, x), id, m[x := m[x].(phase := M.Active)], initial, trace + [M.Allocate(x)])
  {
    var active := m[x].(phase := M.Active);
    var event := M.Allocate(x);
    assert FreeStackMatches(f.free[..|f.free| - 1], m[x := active]) by { PopFree(f.free, m); }
    assert RetirementsMatch(f.retirements, m[x := active], id) by { KeepRetirements(f.retirements, m, id, x, active); }
    M.CountsAfterUpdate(m, x, active);
    M.AfterAppend(initial, trace, event);
    assert (trace + [event])[..|trace|] == trace;
  }

  lemma RetireKeeps(f: Fields, id: nat, m: M.Machine, initial: M.Machine, trace: seq<M.Event>, x: nat, due: nat)
    requires TableInvariant(f, id, m, initial, trace)
    requires x < |f.slots| && f.slots[x].state.Active?
    ensures |m| == |f.slots| && f.telemetry.currentUse > 0
    ensures TableInvariant(RetiredAt(f, SlotHandle(x, f.slots[x].generation, id), due), id,
                           m[x := m[x].(phase := M.Retiring(due))], initial, trace + [M.Retire(x, due)])
  {
    var retiring := m[x].(phase := M.Retiring(due));
    var event := M.Retire(x, due);
    assert FreeStackMatches(f.free, m[x := retiring]) by { KeepFree(f.free, m, x, retiring); }
    AddRetirement(f.retirements, m, id, x, due);
    M.CountsAfterUpdate(m, x, retiring);
    M.AfterAppend(initial, trace, event);
    M.UseBelowPeak(initial, trace);
    assert (trace + [event])[..|trace|] == trace;
  }

  lemma CollectOneKeeps(f: Fields, id: nat, m: M.Machine, k: nat)
    requires FieldsMatch(f, id, m) && k < |f.retirements|
    ensures f.retirements[k].slot.index < |f.slots| == |m| == |f.dirty| && f.telemetry.retiringSlots > 0
    ensures f.telemetry.dirtyDescriptorSlots == DirtyCount(f.dirty)
    ensures var x := f.retirements[k].slot.index;
            && m[x].phase == M.Retiring(f.retirements[k].completionValue)
            && FieldsMatch(CollectedAt(f, k), id, m[x := M.Cell(m[x].lives + 1, M.Free)])
  {
    assert RetirementMatches(f.retirements[k], m, id);
    var x := f.retirements[k].slot.index;
    var freed := M.Cell(m[x].lives + 1, M.Free);
    assert FreeStackMatches(f.free + [x], m[x := freed]) by { PushFree(f.free, m, x); }
    assert RetirementsMatch(WithoutAt(f.retirements, k), m[x := freed], id) by {
      RemoveRetirement(f.retirements, m, id, k);
    }
    M.CountsAfterUpdate(m, x, freed);
    M.NextGenerationCounts(m[x].lives);
  }

  lemma CollectKeepsHistory(t: Telemetry, t': Telemetry, m: M.Machine, initial: M.Machine, trace: seq<M.Event>,
                            completed: nat)
    requires HistoryAgrees(t, initial, trace) && M.Initial(initial) && M.Legal(initial, trace)
    requires m == M.After(initial, trace)
    requires t'.peakUse == t.peakUse && t'.allocationCount == t.allocationCount
    requires t'.retirementCount == t.retirementCount
    ensures HistoryAgrees(t', initial, trace + [M.Collect(completed)])
    ensures M.Legal(initial, trace + [M.Collect(completed)])
    ensures M.After(initial, trace + [M.Collect(completed)]) == M.Step(m, M.Collect(completed))
  {
    var event := M.Collect(completed);
    M.AfterAppend(initial, trace, event);
    M.CollectConserves(m, completed);
    M.UseBelowPeak(initial, trace);
    assert (trace + [event])[..|trace|] == trace;
  }

  /** A new table: reserved slots first and marked dirty, then the free ones, which will
      be handed out in ascending order. */
  ghost predicate IsFresh(f: Fields, m: M.Machine, capacity: nat, reserved: nat) {
    && reserved <= capacity == |f.slots| == |f.dirty| == |m| && |f.free| == capacity - reserved
    && (forall i :: 0 <= i < capacity ==>
          && m[i] == M.Cell(0, if i < reserved then M.Reserved else M.Free)
          && f.slots[i] == Slot(1, if i < reserved then Reserved else Free)
          && f.dirty[i] == (i < reserved))
    && (forall i :: 0 <= i < |f.free| ==> f.free[i] == capacity - 1 - i)
    && f.retirements == []
    && f.telemetry == Telemetry(capacity, reserved, reserved, reserved, 0, capacity - reserved, DirtyCount(f.dirty),
                                0, 0, 0, 0, 0, 0, 0)
  }

  // ------------------------------------------------------------ Lemmas about single updates

  /** Why a slot in this phase cannot be retired. */
  function RetireError(phase: M.Phase): Option<SlotError> {
    match phase
    case Active => None
    case Reserved => Some(ReservedSlotError)
    case Free => Some(SlotNotAllocated)
    case Retiring(_) => Some(SlotRetired)
  }

  lemma {:induction false} DirtyCountUpdate(dirty: seq<bool>, x: nat)
    requires x < |dirty| && !dirty[x]
    ensures DirtyCount(dirty[x := true]) == DirtyCount(dirty) + 1
  {
    var init := dirty[..|dirty| - 1];
    if x < |init| {
      assert dirty[x := true][..|dirty| - 1] == init[x := true];
      DirtyCountUpdate(init, x);
    } else {
      assert dirty[x := true][..|dirty| - 1] == init;
    }
  }

  lemma {:induction false} DirtyCountNone(dirty: seq<bool>)
    requires forall i :: 0 <= i < |dirty| ==> !dirty[i]
    ensures DirtyCount(dirty) == 0
  {
    if dirty != [] {
      DirtyCountNone(dirty[..|dirty| - 1]);
    }
  }

  /** The dirty slots among the first n, in ascending order. */
  ghost predicate ListsDirty(result: seq<nat>, dirty: seq<bool>, n: nat)
    requires n <= |dirty|
  {
    && (forall k: nat {:trigger k in result} :: k in result <==> k < n && dirty[k])
    && (forall j, k :: 0 <= j < k < |result| ==> result[j] < result[k])
    && |result| == DirtyCount(dirty[..n])
  }

  lemma ListsNone(dirty: seq<bool>)
    ensures ListsDirty([], dirty, 0)
  {
  }

  lemma ListsMore(result: seq<nat>, dirty: seq<bool>, n: nat)
    requires n < |dirty| && ListsDirty(result, dirty, n)
    ensures ListsDirty(if dirty[n] then result + [n] else result, dirty, n + 1)
  {
    DirtyCountNext(dirty, n);
    forall j | 0 <= j < |result| ensures result[j] < n {
      assert result[j] in result;
    }
    hide DirtyCount;
  }

  lemma DirtyCountNext(dirty: seq<bool>, n: nat)
    requires n < |dirty|
    ensures DirtyCount(dirty[..n + 1]) == DirtyCount(dirty[..n]) + if dirty[n] then 1 else 0
  {
    assert dirty[..n + 1][..n] == dirty[..n];
  }

  lemma ListsAll(result: seq<nat>, dirty: seq<bool>)
    requires ListsDirty(result, dirty, |dirty|)
    ensures forall k: nat :: k in result <==> k < |dirty| && dirty[k]
    ensures forall j, k :: 0 <= j < k < |result| ==> result[j] < result[k]
    ensures |result| == DirtyCount(dirty)
  {
    assert dirty[..|dirty|] == dirty;
  }

  lemma KeepRetirements(retirements: seq<Retirement>, m: M.Machine, id: nat, x: nat, c: M.Cell)
    requires RetirementsMatch(retirements, m, id) && x < |m| && !m[x].phase.Retiring? && !c.phase.Retiring?
    ensures RetirementsMatch(retirements, m[x := c], id)
  {
    M.CountUpdate(m, x, c, M.RetiringKind);
  }

  lemma AddRetirement(retirements: seq<Retirement>, m: M.Machine, id: nat, x: nat, due: nat)
    requires RetirementsMatch(retirements, m, id) && x < |m| && m[x].phase.Active?
    ensures RetirementsMatch(retirements + [Retirement(SlotHandle(x, M.Generation(m[x].lives), id), due)],
                             m[x := m[x].(phase := M.Retiring(due))], id)
  {
    var c := m[x].(phase := M.Retiring(due));
    var rs := retirements + [Retirement(SlotHandle(x, M.Generation(m[x].lives), id), due)];
    M.CountUpdate(m, x, c, M.RetiringKind);
    forall i: nat | i == x || IsListed(retirements, i) ensures IsListed(rs, i) {
      if i == x {
        assert rs[|retirements|].slot.index == i;
      } else {
        var j :| 0 <= j < |retirements| && retirements[j].slot.index == i;
        assert rs[j].slot.index == i;
      }
    }
  }

  lemma RemoveRetirement(retirements: seq<Retirement>, m: M.Machine, id: nat, k: nat)
    requires RetirementsMatch(retirements, m, id) && k < |retirements|
    ensures var x := retirements[k].slot.index;
            RetirementsMatch(WithoutAt(retirements, k), m[x := M.Cell(m[x].lives + 1, M.Free)], id)
  {
    var x := retirements[k].slot.index;
    var c := M.Cell(m[x].lives + 1, M.Free);
    var rs, r := WithoutAt(retirements, k), m[x := c];
    M.CountUpdate(m, x, c, M.RetiringKind);
    forall j | 0 <= j < |rs| ensures RetirementMatches(rs[j], r, id) && rs[j].slot.index != x {
      assert rs[j] == retirements[Skip(j, k)] && RetirementMatches(retirements[Skip(j, k)], m, id);
    }
    forall i: nat | i != x && IsListed(retirements, i) ensures IsListed(rs, i) {
      var j :| 0 <= j < |retirements| && retirements[j].slot.index == i;
      assert rs[if j < k then j else j - 1] == retirements[j];
    }
  }

  function WithoutAt<T>(s: seq<T>, k: nat): (r: seq<T>)
    requires k < |s|
  {
    s[..k] + s[k + 1..]
  }

  function Skip(j: nat, k: nat): nat {
    if j < k then j else j + 1
  }

  // ------------------------------------------------------------ What a collection selects

  /** Handles of the retirements that a completed value releases, oldest first. */
  function DueHandles(rs: seq<Retirement>, completed: nat): seq<SlotHandle> {
    if rs == [] then []
    else
      var last := rs[|rs| - 1];
      DueHandles(rs[..|rs| - 1], completed) + if last.completionValue <= completed then [last.slot] else []
  }

  /** Retirements that still wait, in their original order. */
  function Waiting(rs: seq<Retirement>, completed: nat): seq<Retirement> {
    if rs == [] then []
    else
      var last := rs[|rs| - 1];
      Waiting(rs[..|rs| - 1], completed) + if last.completionValue <= completed then [] else [last]
  }

  function Indices(handles: seq<SlotHandle>): (r: seq<nat>)
    ensures |r| == |handles|
    ensures forall j :: 0 <= j < |r| ==> r[j] == handles[j].index
  {
    if handles == [] then [] else Indices(handles[..|handles| - 1]) + [handles[|handles| - 1].index]
  }

  /** A collected handle is exactly one that a due retirement holds. */
  lemma {:induction false} DueHandlesExact(rs: seq<Retirement>, completed: nat, h: SlotHandle)
    ensures h in DueHandles(rs, completed) <==>
            exists j :: 0 <= j < |rs| && rs[j].slot == h && rs[j].completionValue <= completed
  {
    if rs != [] {
      var init := rs[..|rs| - 1];
      DueHandlesExact(init, completed, h);
      if h in DueHandles(init, completed) {
        var j :| 0 <= j < |init| && init[j].slot == h && init[j].completionValue <= completed;
        assert rs[j].slot == h;
      }
      if j :| 0 <= j < |rs| && rs[j].slot == h && rs[j].completionValue <= completed {
        if j < |init| {
          assert init[j].slot == h;
        }
      }
    }
  }

  // ------------------------------------------------------------ The collection loop

  /** What a collection leaves of the fields: due retirements are gone in order, their
      slots are on the free stack in that order, and the gauges have moved by as many. */
  ghost predicate Collects(f0: Fields, m0: M.Machine, completed: nat, f: Fields, m: M.Machine,
                           collected: seq<SlotHandle>) {
    && collected == DueHandles(f0.retirements, completed)
    && f.retirements == Waiting(f0.retirements, completed)
    && f.free == f0.free + Indices(collected)
    && GaugesMoved(f0.telemetry, f.telemetry, |collected|, f.dirty)
    && m == M.Step(m0, M.Collect(completed))
    && |f.dirty| == |f0.dirty| == |m0|
    && (forall i :: 0 <= i < |f.dirty| ==> f.dirty[i] == (f0.dirty[i] || M.Collectible(m0[i], completed)))
  }

  ghost predicate GaugesMoved(t0: Telemetry, t: Telemetry, n: nat, dirty: seq<bool>) {
    && n <= t0.retiringSlots
    && t == t0.(retiringSlots := t0.retiringSlots - n,
                availableSlots := t0.availableSlots + n,
                retirementCollectionCount := t0.retirementCollectionCount + n,
                dirtyDescriptorSlots := DirtyCount(dirty))
  }

  /** Where the loop stands after looking at the first `seen` retirements: those that wait
      are kept in front of cursor `i`, the due ones have been collected. */
  ghost predicate Collecting(f0: Fields, m0: M.Machine, completed: nat, seen: nat, f: Fields, m: M.Machine, i: nat,
                             collected: seq<SlotHandle>)
  {
    ListsTaken(f0, completed, seen, f, i, collected) && CellsTaken(f0, m0, completed, f, m, |collected|)
  }

  ghost predicate ListsTaken(f0: Fields, completed: nat, seen: nat, f: Fields, i: nat, collected: seq<SlotHandle>) {
    var rs := f0.retirements;
    && seen <= |rs|
    && f.retirements == Waiting(rs[..seen], completed) + rs[seen..]
    && i == |Waiting(rs[..seen], completed)|
    && (forall k :: 0 <= k < i ==> f.retirements[k].completionValue > completed)
    && collected == DueHandles(rs[..seen], completed)
    && f.free == f0.free + Indices(collected)
  }

  ghost predicate CellsTaken(f0: Fields, m0: M.Machine, completed: nat, f: Fields, m: M.Machine, n: nat) {
    && GaugesMoved(f0.telemetry, f.telemetry, n, f.dirty)
    && |m0| == |f0.dirty| == |m| == |f.dirty|
    && (forall k :: 0 <= k < |m0| ==> PartlyCollected(m0[k], f0.dirty[k], m[k], f.dirty[k], completed))
  }

  /** Midway a cell is as before, or collected and marked dirty. */
  predicate PartlyCollected(c0: M.Cell, dirty0: bool, c: M.Cell, dirty: bool, completed: nat) {
    || (c == c0 && dirty == dirty0)
    || (M.Collectible(c0, completed) && c == M.CollectCell(c0, completed) && dirty)
  }

  lemma CollectingStarts(f: Fields, id: nat, m: M.Machine, completed: nat)
    requires FieldsMatch(f, id, m)
    ensures Collecting(f, m, completed, 0, f, m, 0, [])
  {
    assert f.retirements[..0] == [] && f.retirements[0..] == f.retirements;
    assert Indices([]) == [];
  }

  lemma CollectingKeeps(f0: Fields, m0: M.Machine, completed: nat, seen: nat, f: Fields, m: M.Machine, i: nat,
                        collected: seq<SlotHandle>)
    requires Collecting(f0, m0, completed, seen, f, m, i, collected) && i < |f.retirements|
    requires f.retirements[i].completionValue > completed
    ensures seen < |f0.retirements| && Collecting(f0, m0, completed, seen + 1, f, m, i + 1, collected)
  {
    var rs := f0.retirements;
    assert rs[..seen + 1][..seen] == rs[..seen];
    assert rs[seen..] == [rs[seen]] + rs[seen + 1..];
  }

  lemma ListsTake(f0: Fields, completed: nat, seen: nat, f: Fields, i: nat, collected: seq<SlotHandle>)
    requires ListsTaken(f0, completed, seen, f, i, collected) && i < |f.retirements|
    requires f.retirements[i].completionValue <= completed
    requires f.retirements[i].slot.index < |f.slots| && f.retirements[i].slot.index < |f.dirty|
    requires f.telemetry.retiringSlots > 0
    ensures seen < |f0.retirements|
    ensures ListsTaken(f0, completed, seen + 1, CollectedAt(f, i), i, collected + [f.retirements[i].slot])
  {
    var rs := f0.retirements;
    assert rs[..seen + 1][..seen] == rs[..seen];
    assert rs[seen..] == [rs[seen]] + rs[seen + 1..];
    assert (collected + [f.retirements[i].slot])[..|collected|] == collected;
  }

  lemma CellsTake(f0: Fields, m0: M.Machine, completed: nat, f: Fields, m: M.Machine, n: nat, i: nat, id: nat)
    requires CellsTaken(f0, m0, completed, f, m, n) && i < |f.retirements|
    requires f.retirements[i].completionValue <= completed && FieldsMatch(f, id, m)
    ensures var r := f.retirements[i];
            && r.slot.index < |f.slots| == |m| == |f.dirty| && f.telemetry.retiringSlots > 0
            && CellsTaken(f0, m0, completed, CollectedAt(f, i),
                          m[r.slot.index := M.Cell(m[r.slot.index].lives + 1, M.Free)], n + 1)
  {
    assert RetirementMatches(f.retirements[i], m, id);
  }

  lemma CollectingTakes(f0: Fields, m0: M.Machine, completed: nat, seen: nat, f: Fields, m: M.Machine, i: nat,
                        collected: seq<SlotHandle>, id: nat)
    requires Collecting(f0, m0, completed, seen, f, m, i, collected) && i < |f.retirements|
    requires f.retirements[i].completionValue <= completed && FieldsMatch(f, id, m)
    ensures seen < |f0.retirements|
    ensures var r := f.retirements[i];
            && r.slot.index < |f.slots| == |m| == |f.dirty| && f.telemetry.retiringSlots > 0
            && Collecting(f0, m0, completed, seen + 1, CollectedAt(f, i),
                          m[r.slot.index := M.Cell(m[r.slot.index].lives + 1, M.Free)], i, collected + [r.slot])
  {
    hide FieldsMatch, ListsTaken, CellsTaken;
    CellsTake(f0, m0, completed, f, m, |collected|, i, id);
    ListsTake(f0, completed, seen, f, i, collected);
  }

  /** When no listed retirement is due any more, the whole collection step has been taken,
      and exactly the collected cells have become dirty. */
  lemma CollectingEnds(f0: Fields, m0: M.Machine, completed: nat, seen: nat, f: Fields, m: M.Machine, i: nat,
                       collected: seq<SlotHandle>, id: nat)
    requires Collecting(f0, m0, completed, seen, f, m, i, collected) && i >= |f.retirements|
    requires FieldsMatch(f, id, m)
    ensures Collects(f0, m0, completed, f, m, collected)
  {
    assert f0.retirements[..seen] == f0.retirements;
    forall k | 0 <= k < |m|
      ensures m[k] == M.CollectCell(m0[k], completed)
      ensures f.dirty[k] == (f0.dirty[k] || M.Collectible(m0[k], completed))
    {
      assert PartlyCollected(m0[k], f0.dirty[k], m[k], f.dirty[k], completed);
      if m[k].phase.Retiring? {
        assert IsListed(f.retirements, k);
        var j :| 0 <= j < |f.retirements| && f.retirements[j].slot.index == k;
        assert RetirementMatches(f.retirements[j], m, id);
      }
    }
  }

  // ------------------------------------------------------------ In the fields alone

  /** The retirement of slot i is due at the completed value. */
  ghost predicate Due(rs: seq<Retirement>, completed: nat, i: nat) {
    exists j :: 0 <= j < |rs| && rs[j].slot.index == i && rs[j].completionValue <= completed
  }

  /** Any two elements of the part occur in the whole, in the same order. */
  ghost predicate KeepsOrder<T>(part: seq<T>, whole: seq<T>) {
    forall j, k :: 0 <= j < k < |part| ==> InOrder(part[j], part[k], whole)
  }

  ghost predicate InOrder<T>(a: T, b: T, whole: seq<T>) {
    exists p, q :: 0 <= p < q < |whole| && whole[p] == a && whole[q] == b
  }

  /** A retirement stays exactly if its value is larger than the completed one, all in their
      order; the slots of the others are free in their next generation, in the order in which
      their handles are reported, and dirty; nothing else changes. */
  ghost predicate DueCollected(f0: Fields, completed: nat, f: Fields, collected: seq<SlotHandle>) {
    && (forall r :: r in f.retirements <==> r in f0.retirements && r.completionValue > completed)
    && KeepsOrder(f.retirements, f0.retirements)
    && (forall h :: h in collected <==>
          exists j :: 0 <= j < |f0.retirements| && f0.retirements[j].slot == h &&
                      f0.retirements[j].completionValue <= completed)
    && |collected| + |f.retirements| == |f0.retirements|
    && |f.free| == |f0.free| + |collected| && f.free[..|f0.free|] == f0.free
    && (forall j :: 0 <= j < |collected| ==> f.free[|f0.free| + j] == collected[j].index)
    && |f.slots| == |f0.slots| && |f.dirty| == |f0.dirty| == |f0.slots|
    && (forall i :: 0 <= i < |f.slots| ==> SlotCollected(f0.slots[i], f.slots[i], Due(f0.retirements, completed, i)))
    && (forall i :: 0 <= i < |f.dirty| ==> f.dirty[i] == (f0.dirty[i] || Due(f0.retirements, completed, i)))
  }

  /** The generation counts up in 32 bits and skips zero. */
  ghost predicate SlotCollected(before: Slot, after: Slot, due: bool) {
    after == if due then Slot(if before.generation == 0xFFFF_FFFF then 1 else before.generation + 1, Free) else before
  }

  lemma {:induction false} WaitingOrdered(rs: seq<Retirement>, completed: nat)
    ensures forall r :: r in Waiting(rs, completed) <==> r in rs && r.completionValue > completed
    ensures KeepsOrder(Waiting(rs, completed), rs)
    ensures |Waiting(rs, completed)| + |DueHandles(rs, completed)| == |rs|
  {
    if rs != [] {
      var init, last := rs[..|rs| - 1], rs[|rs| - 1];
      WaitingOrdered(init, completed);
      var earlier, now := Waiting(init, completed), Waiting(rs, completed);
      forall j, k | 0 <= j < k < |now| ensures InOrder(now[j], now[k], rs) {
        if k < |earlier| {
          assert InOrder(earlier[j], earlier[k], init);
          var p, q :| 0 <= p < q < |init| && init[p] == earlier[j] && init[q] == earlier[k];
          assert rs[p] == now[j] && rs[q] == now[k];
        } else {
          assert earlier[j] in init;
          var p :| 0 <= p < |init| && init[p] == now[j];
          assert rs[p] == now[j] && rs[|rs| - 1] == now[k];
        }
      }
    }
  }

  lemma DueExactly(f: Fields, id: nat, m: M.Machine, completed: nat, i: nat)
    requires FieldsMatch(f, id, m) && i < |m|
    ensures Due(f.retirements, completed, i) <==> M.Collectible(m[i], completed)
  {
    if M.Collectible(m[i], completed) {
      assert IsListed(f.retirements, i);
      var j :| 0 <= j < |f.retirements| && f.retirements[j].slot.index == i;
      assert RetirementMatches(f.retirements[j], m, id);
    }
    if Due(f.retirements, completed, i) {
      var j :| 0 <= j < |f.retirements| && f.retirements[j].slot.index == i &&
               f.retirements[j].completionValue <= completed;
      assert RetirementMatches(f.retirements[j], m, id);
    }
  }

  lemma CollectedCell(s0: Slot, c0: M.Cell, s: Slot, completed: nat)
    requires s0.generation == M.Generation(c0.lives) && StateMatches(s0.state, c0.phase)
    requires var c := M.CollectCell(c0, completed);
             s.generation == M.Generation(c.lives) && StateMatches(s.state, c.phase)
    ensures SlotCollected(s0, s, M.Collectible(c0, completed))
  {
    M.NextGenerationCounts(c0.lives);
  }

  lemma CollectsPlainly(f0: Fields, id: nat, m0: M.Machine, completed: nat, f: Fields, m: M.Machine,
                        collected: seq<SlotHandle>)
    requires FieldsMatch(f0, id, m0) && FieldsMatch(f, id, m) && Collects(f0, m0, completed, f, m, collected)
    ensures DueCollected(f0, completed, f, collected)
  {
    hide KeepsOrder, FreeStackMatches, GaugesAgree, GaugesMoved, Waiting, DueHandles, M.CollectCell, SlotCollected,
      M.Generation, StateMatches, RetirementsMatch, Due;
    WaitingOrdered(f0.retirements, completed);
    forall h {
      DueHandlesExact(f0.retirements, completed, h);
    }
    forall i | 0 <= i < |m0| ensures Due(f0.retirements, completed, i) <==> M.Collectible(m0[i], completed) {
      DueExactly(f0, id, m0, completed, i);
    }
    forall i | 0 <= i < |m0| ensures SlotCollected(f0.slots[i], f.slots[i], Due(f0.retirements, completed, i)) {
      CollectedCell(f0.slots[i], m0[i], f.slots[i], completed);
    }
  }

  // ------------------------------------------------------------ What becomes dirty

  /** Event j of the run hands slot i out, or collects it: it was retiring and due. */
  ghost predicate Touches(initial: M.Machine, trace: seq<M.Event>, j: nat, i: nat)
    requires j < |trace|
  {
    || trace[j] == M.Allocate(i)
    || (&& trace[j].Collect? && i < |initial|
        && var phase := M.After(initial, trace[..j])[i].phase; phase.Retiring? && phase.due <= trace[j].completed)
  }

  ghost predicate TouchedSince(initial: M.Machine, trace: seq<M.Event>, start: nat, i: nat) {
    exists j: nat :: start <= j < |trace| && Touches(initial, trace, j, i)
  }

  /** The slots that need their descriptor written: those handed out or collected since the dirty
      marks were last consumed, and before the first time also the reserved ones. */
  ghost predicate NeedsWrite(initial: M.Machine, trace: seq<M.Event>, consumed: Option<nat>, i: nat)
    requires i < |initial|
  {
    match consumed
    case None => initial[i].phase.Reserved? || TouchedSince(initial, trace, 0, i)
    case Some(start) => TouchedSince(initial, trace, start, i)
  }

  /** A slot is dirty exactly if its descriptor needs to be written. */
  ghost predicate DirtyExactly(dirty: seq<bool>, initial: M.Machine, trace: seq<M.Event>, consumed: Option<nat>) {
    && |dirty| == |initial| && (consumed.Some? ==> consumed.value <= |trace|)
    && forall i :: 0 <= i < |dirty| ==> (dirty[i] <==> NeedsWrite(initial, trace, consumed, i))
  }

  lemma TouchedNext(initial: M.Machine, trace: seq<M.Event>, e: M.Event, start: nat, i: nat)
    requires start <= |trace|
    ensures TouchedSince(initial, trace + [e], start, i) <==>
            TouchedSince(initial, trace, start, i) || Touches(initial, trace + [e], |trace|, i)
  {
    var more := trace + [e];
    forall j: nat | j < |trace| ensures Touches(initial, more, j, i) <==> Touches(initial, trace, j, i) {
      assert more[..j] == trace[..j];
    }
    if TouchedSince(initial, trace, start, i) {
      var j: nat :| start <= j < |trace| && Touches(initial, trace, j, i);
      assert Touches(initial, more, j, i);
    }
  }

  lemma DirtyNext(dirty: seq<bool>, initial: M.Machine, trace: seq<M.Event>, consumed: Option<nat>, e: M.Event,
                  dirty': seq<bool>)
    requires DirtyExactly(dirty, initial, trace, consumed) && |dirty'| == |dirty|
    requires forall i :: 0 <= i < |dirty| ==> dirty'[i] == (dirty[i] || Touches(initial, trace + [e], |trace|, i))
    ensures DirtyExactly(dirty', initial, trace + [e], consumed)
  {
    hide Touches, TouchedSince;
    forall i | 0 <= i < |dirty|
      ensures NeedsWrite(initial, trace + [e], consumed, i) <==>
              NeedsWrite(initial, trace, consumed, i) || Touches(initial, trace + [e], |trace|, i)
    {
      TouchedNext(initial, trace, e, if consumed.Some? then consumed.value else 0, i);
    }
  }

  lemma DirtyAfterAllocate(dirty: seq<bool>, initial: M.Machine, trace: seq<M.Event>, consumed: Option<nat>, x: nat)
    requires DirtyExactly(dirty, initial, trace, consumed) && x < |dirty|
    ensures DirtyExactly(dirty[x := true], initial, trace + [M.Allocate(x)], consumed)
  {
    DirtyNext(dirty, initial, trace, consumed, M.Allocate(x), dirty[x := true]);
  }

  lemma DirtyAfterRetire(dirty: seq<bool>, initial: M.Machine, trace: seq<M.Event>, consumed: Option<nat>, x: nat,
                         due: nat)
    requires DirtyExactly(dirty, initial, trace, consumed)
    ensures DirtyExactly(dirty, initial, trace + [M.Retire(x, due)], consumed)
  {
    DirtyNext(dirty, initial, trace, consumed, M.Retire(x, due), dirty);
  }

  lemma DirtyAfterCollect(dirty: seq<bool>, initial: M.Machine, trace: seq<M.Event>, consumed: Option<nat>,
                          completed: nat, dirty': seq<bool>)
    requires DirtyExactly(dirty, initial, trace, consumed) && |dirty'| == |dirty|
    requires forall i :: 0 <= i < |dirty| ==>
               dirty'[i] == (dirty[i] || M.Collectible(M.After(initial, trace)[i], completed))
    ensures DirtyExactly(dirty', initial, trace + [M.Collect(completed)], consumed)
  {
    assert (trace + [M.Collect(completed)])[..|trace|] == trace;
    DirtyNext(dirty, initial, trace, consumed, M.Collect(completed), dirty');
  }

  lemma DirtyAfterConsume(initial: M.Machine, trace: seq<M.Event>, clean: seq<bool>)
    requires |clean| == |initial| && forall i :: 0 <= i < |clean| ==> !clean[i]
    ensures DirtyExactly(clean, initial, trace, Some(|trace|))
  {
  }

  lemma DirtySized(dirty: seq<bool>, initial: M.Machine, trace: seq<M.Event>, consumed: Option<nat>)
    requires DirtyExactly(dirty, initial, trace, consumed)
    ensures |dirty| == |initial|
  {
  }

  lemma DirtyAtFirst(f: Fields, m: M.Machine, capacity: nat, reserved: nat)
    requires IsFresh(f, m, capacity, reserved)
    ensures DirtyExactly(f.dirty, m, [], None)
  {
  }

  // ------------------------------------------------------------ The allocator

  class BindlessSlotAllocator {
    const tableId: nat
    var slots: seq<Slot>
    var freeSlots: seq<nat>
    var retirements: seq<Retirement>
    var dirtySlots: seq<bool>
    var telemetry: Telemetry

    // The run so far, over the abstract machine the table was built with.
    ghost const initial: M.Machine
    ghost var trace: seq<M.Event>
    ghost var machine: M.Machine
    // How far the run was when the dirty marks were last consumed.
    ghost var consumed: Option<nat>

    ghost function Snapshot(): Fields
      reads this
    {
      Fields(slots, freeSlots, retirements, dirtySlots, telemetry)
    }

    ghost predicate Valid()
      reads this
    {
      TableInvariant(Snapshot(), tableId, machine, initial, trace) && DirtyExactly(dirtySlots, initial, trace, consumed)
    }

    /** The source throws when the capacity is below the reserved count; Create models
        that path.  The table id comes from a process-wide counter that skips zero. */
    constructor (tableId: nat, capacity: nat, reservedSlots: nat)
      requires tableId != 0 && reservedSlots <= capacity <= INVALID_SLOT_INDEX
      ensures Valid() && trace == [] && consumed == None && this.tableId == tableId
      ensures IsFresh(Snapshot(), initial, capacity, reservedSlots)
    {
      hide TableInvariant, DirtyExactly;
      this.tableId := tableId;
      slots := seq(capacity, _ => Slot(1, Free));
      dirtySlots := seq(capacity, _ => false);
      telemetry := Telemetry(capacity, reservedSlots, reservedSlots, reservedSlots, 0, capacity - reservedSlots,
                             0, 0, 0, 0, 0, 0, 0, 0);
      freeSlots := [];
      retirements := [];
      trace := [];
      initial := seq(capacity, i => M.Cell(0, if i < reservedSlots then M.Reserved else M.Free));
      machine := initial;
      consumed := None;
      new;
      DirtyCountNone(dirtySlots);
      var index := 0;
      while index < reservedSlots
        modifies `slots, `dirtySlots, `telemetry
        invariant 0 <= index <= reservedSlots
        invariant |slots| == |dirtySlots| == capacity
        invariant forall i :: 0 <= i < capacity ==> slots[i] == Slot(1, if i < index then Reserved else Free)
        invariant forall i :: 0 <= i < capacity ==> dirtySlots[i] == (i < index)
        invariant telemetry == Telemetry(capacity, reservedSlots, reservedSlots, reservedSlots, 0,
                                         capacity - reservedSlots, DirtyCount(dirtySlots), 0, 0, 0, 0, 0, 0, 0)
      {
        slots := slots[index := slots[index].(state := Reserved)];
        MarkDirty(index);
        index := index + 1;
      }
      index := capacity;
      while index > reservedSlots
        modifies `freeSlots
        invariant reservedSlots <= index <= capacity
        invariant |freeSlots| == capacity - index
        invariant forall i :: 0 <= i < |freeSlots| ==> freeSlots[i] == capacity - 1 - i
      {
        freeSlots := freeSlots + [index - 1];
        index := index - 1;
      }
      FreshTable(Snapshot(), tableId, machine, reservedSlots);
      DirtyAtFirst(Snapshot(), machine, capacity, reservedSlots);
    }

    /** Construction with the source's argument check. */
    static method Create(tableId: nat, capacity: nat, reservedSlots: nat)
      returns (r: Option<BindlessSlotAllocator>)
      requires tableId != 0 && capacity <= INVALID_SLOT_INDEX
      ensures r.None? <==> capacity < reservedSlots
      ensures r.Some? ==> fresh(r.value) && r.value.Valid() && r.value.trace == [] && |r.value.slots| == capacity
    {
      if capacity < reservedSlots {
        return None;
      }
      var table := new BindlessSlotAllocator(tableId, capacity, reservedSlots);
      return Some(table);
    }

    method MarkDirty(index: nat)
      requires index < |dirtySlots| && telemetry.dirtyDescriptorSlots == DirtyCount(dirtySlots)
      modifies `dirtySlots, `telemetry
      ensures dirtySlots == old(dirtySlots)[index := true]
      ensures telemetry == old(telemetry).(dirtyDescriptorSlots := DirtyCount(dirtySlots))
    {
      if !dirtySlots[index] {
        DirtyCountUpdate(dirtySlots, index);
        dirtySlots := dirtySlots[index := true];
        telemetry := telemetry.(dirtyDescriptorSlots := telemetry.dirtyDescriptorSlots + 1);
      } else {
        assert dirtySlots[index := true] == dirtySlots;
      }
    }

    function HandleFor(index: nat): SlotHandle
      reads this
      requires index < |slots|
    {
      SlotHandle(index, slots[index].generation, tableId)
    }

    /** The error an operation on `slot` reports before it looks at the slot's state. */
    function HandleError(slot: SlotHandle): Option<SlotError>
      reads this
    {
      if !slot.IsSet() then Some(InvalidHandle)
      else if slot.tableId != tableId then Some(ForeignHandle)
      else if slot.index >= |slots| then Some(InvalidHandle)
      else if slot.generation != slots[slot.index].generation then Some(StaleGeneration)
      else None
    }

    method ValidateOwnedHandle(slot: SlotHandle) returns (error: Option<SlotError>)
      requires Valid()
      modifies `telemetry
      ensures Valid()
      ensures error == HandleError(slot)
      ensures error.None? <==> slot.index < |slots| && slot == HandleFor(slot.index)
      ensures telemetry == old(telemetry).(generationMismatchCount :=
                old(telemetry).generationMismatchCount + if error == Some(StaleGeneration) then 1 else 0)
    {
      if !slot.IsSet() {
        return Some(InvalidHandle);
      }
      if slot.tableId != tableId {
        return Some(ForeignHandle);
      }
      if slot.index >= |slots| {
        return Some(InvalidHandle);
      }
      if slot.generation != slots[slot.index].generation {
        telemetry := telemetry.(generationMismatchCount := telemetry.generationMismatchCount + 1);
        return Some(StaleGeneration);
      }
      return None;
    }

    method CountAllocation(generation: nat)
      requires telemetry.availableSlots > 0
      modifies `telemetry
      ensures telemetry == CountedAllocation(old(telemetry), generation)
      ensures telemetry.dirtyDescriptorSlots == old(telemetry).dirtyDescriptorSlots
    {
      telemetry := telemetry.(availableSlots := telemetry.availableSlots - 1);
      telemetry := telemetry.(currentUse := telemetry.currentUse + 1);
      telemetry := telemetry.(peakUse := if telemetry.peakUse < telemetry.currentUse
                                         then telemetry.currentUse else telemetry.peakUse);
      telemetry := telemetry.(allocationCount := telemetry.allocationCount + 1);
      if generation > 1 {
        telemetry := telemetry.(reuseCount := telemetry.reuseCount + 1);
      }
    }

    /** Hands out the most recently freed slot; fails exactly when nothing is free. */
    method Allocate() returns (r: Result<SlotHandle, SlotError>)
      requires Valid()
      modifies this
      ensures Valid()
      ensures r.Err? <==> old(freeSlots) == []
      ensures r.Err? ==>
        && r == Err(Exhausted)
        && Snapshot() == old(Snapshot()).(telemetry :=
             old(telemetry).(exhaustionCount := old(telemetry).exhaustionCount + 1))
        && trace == old(trace) && machine == old(machine)
      ensures consumed == old(consumed)
      ensures r.Ok? ==>
        && old(freeSlots) != [] && old(telemetry).availableSlots > 0
        && r.value.index == old(freeSlots)[|old(freeSlots)| - 1] < |old(slots)| == |old(dirtySlots)|
        && r.value.generation == old(slots)[r.value.index].generation
        && freeSlots + [r.value.index] == old(freeSlots) && retirements == old(retirements)
        && slots == old(slots)[r.value.index := Slot(r.value.generation, Active)]
        && dirtySlots == old(dirtySlots)[r.value.index := true]
        && telemetry.allocationCount == old(telemetry).allocationCount + 1
        && telemetry.reuseCount == old(telemetry).reuseCount + (if r.value.generation > 1 then 1 else 0)
        && var x := old(freeSlots)[|old(freeSlots)| - 1];
           && x < |old(slots)| == |old(dirtySlots)| == |old(machine)| && old(machine)[x].phase.Free?
           && r.value == SlotHandle(x, M.Generation(old(machine)[x].lives), tableId) && r.value.IsSet()
           && Snapshot() == Allocated(old(Snapshot()), x)
           && trace == old(trace) + [M.Allocate(x)]
           && machine == old(machine)[x := old(machine)[x].(phase := M.Active)]
    {
      hide TableInvariant, DirtyExactly;
      if freeSlots == [] {
        CountersOutsideInvariant(Snapshot(), tableId, machine, initial, trace);
        telemetry := telemetry.(exhaustionCount := telemetry.exhaustionCount + 1);
        return Err(Exhausted);
      }
      var index := freeSlots[|freeSlots| - 1];
      AllocateKeeps(Snapshot(), tableId, machine, initial, trace, index);
      DirtySized(dirtySlots, initial, trace, consumed);
      DirtyAfterAllocate(dirtySlots, initial, trace, consumed, index);
      freeSlots := freeSlots[..|freeSlots| - 1];
      slots := slots[index := slots[index].(state := Active)];
      CountAllocation(slots[index].generation);
      MarkDirty(index);
      machine := machine[index := machine[index].(phase := M.Active)];
      trace := trace + [M.Allocate(index)];
      r := Ok(HandleFor(index));
    }

    predicate IsActive(slot: SlotHandle)
      reads this
    {
      if !slot.IsSet() || slot.tableId != tableId || slot.index >= |slots| then false
      else
        var state := slots[slot.index];
        state.generation == slot.generation && (state.state.Active? || state.state.Reserved?)
    }

    /** Succeeds exactly on handles IsActive accepts, and says why it rejects the others. */
    method RequireActive(slot: SlotHandle) returns (error: Option<SlotError>)
      requires Valid()
      modifies `telemetry
      ensures Valid()
      ensures error.None? <==> IsActive(slot)
      ensures HandleError(slot).Some? ==> error == HandleError(slot)
      ensures error == Some(SlotNotAllocated) ==> slot.index < |machine| && machine[slot.index].phase.Free?
      ensures error == Some(SlotRetired) ==> slot.index < |machine| && machine[slot.index].phase.Retiring?
      ensures error.Some? ==> !error.value.ReservedSlotError? && !error.value.Exhausted?
      ensures telemetry == old(telemetry).(generationMismatchCount :=
                old(telemetry).generationMismatchCount + if error == Some(StaleGeneration) then 1 else 0)
    {
      error := ValidateOwnedHandle(slot);
      if error.Some? {
        return;
      }
      match slots[slot.index].state
      case Active =>
        return None;
      case Reserved =>
        return None;
      case Free =>
        return Some(SlotNotAllocated);
      case Retired =>
        return Some(SlotRetired);
    }

    /** Moves an active slot to the retirement list; every other handle is rejected and
        nothing but the mismatch counter changes. */
    method Retire(slot: SlotHandle, lastCompletionValue: nat) returns (error: Option<SlotError>)
      requires Valid()
      modifies this
      ensures Valid()
      ensures error.None? <==> old(IsActive(slot)) && old(slots)[slot.index].state.Active?
      ensures old(HandleError(slot)).Some? ==> error == old(HandleError(slot))
      ensures old(HandleError(slot)).None? ==>
        slot.index < |old(machine)| && error == RetireError(old(machine)[slot.index].phase)
      ensures error.Some? ==>
        && trace == old(trace) && machine == old(machine)
        && Snapshot() == old(Snapshot()).(telemetry := old(telemetry).(generationMismatchCount :=
             old(telemetry).generationMismatchCount + if error == Some(StaleGeneration) then 1 else 0))
      ensures consumed == old(consumed)
      ensures error.None? ==>
        && slot.index < |old(slots)|
        && slots == old(slots)[slot.index := Slot(slot.generation, Retired)]
        && retirements == old(retirements) + [Retirement(slot, lastCompletionValue)]
        && freeSlots == old(freeSlots) && dirtySlots == old(dirtySlots)
      ensures error.None? ==>
        && slot.index < |old(machine)| && old(telemetry).currentUse > 0
        && Snapshot() == RetiredAt(old(Snapshot()), slot, lastCompletionValue)
        && trace == old(trace) + [M.Retire(slot.index, lastCompletionValue)]
        && machine == old(machine)[slot.index :=
             old(machine)[slot.index].(phase := M.Retiring(lastCompletionValue))]
    {
      hide TableInvariant, DirtyExactly;
      InvariantSlots(Snapshot(), tableId, machine, initial, trace);
      error := ValidateOwnedHandle(slot);
      if error.Some? {
        return;
      }
      match slots[slot.index].state {
        case Reserved =>
          return Some(ReservedSlotError);
        case Free =>
          return Some(SlotNotAllocated);
        case Retired =>
          return Some(SlotRetired);
        case Active =>
      }
      RetireKeeps(Snapshot(), tableId, machine, initial, trace, slot.index, lastCompletionValue);
      DirtyAfterRetire(dirtySlots, initial, trace, consumed, slot.index, lastCompletionValue);
      slots := slots[slot.index := slots[slot.index].(state := Retired)];
      retirements := retirements + [Retirement(slot, lastCompletionValue)];
      telemetry := telemetry.(currentUse := telemetry.currentUse - 1);
      telemetry := telemetry.(retiringSlots := telemetry.retiringSlots + 1);
      telemetry := telemetry.(retirementCount := telemetry.retirementCount + 1);
      machine := machine[slot.index := machine[slot.index].(phase := M.Retiring(lastCompletionValue))];
      trace := trace + [M.Retire(slot.index, lastCompletionValue)];
    }

    /** Frees every retirement the completed value covers, oldest first, and no other. */
    method Collect(completedValue: nat) returns (collected: seq<SlotHandle>)
      requires Valid()
      modifies this
      ensures Valid()
      ensures trace == old(trace) + [M.Collect(completedValue)]
      ensures Collects(old(Snapshot()), old(machine), completedValue, Snapshot(), machine, collected)
      ensures DueCollected(old(Snapshot()), completedValue, Snapshot(), collected)
      ensures consumed == old(consumed)
    {
      hide FieldsMatch, DirtyExactly, DueCollected;
      collected := CollectDue(completedValue);
      CollectKeepsHistory(old(telemetry), telemetry, old(machine), initial, trace, completedValue);
      CollectsPlainly(old(Snapshot()), tableId, old(machine), completedValue, Snapshot(), machine, collected);
      DirtySized(old(dirtySlots), initial, trace, consumed);
      DirtyAfterCollect(old(dirtySlots), initial, trace, consumed, completedValue, dirtySlots);
      trace := trace + [M.Collect(completedValue)];
    }

    /** The source's loop over the retirement list. */
    method CollectDue(completedValue: nat) returns (collected: seq<SlotHandle>)
      requires FieldsMatch(Snapshot(), tableId, machine)
      modifies `slots, `freeSlots, `retirements, `dirtySlots, `telemetry, `machine
      ensures FieldsMatch(Snapshot(), tableId, machine)
      ensures Collects(old(Snapshot()), old(machine), completedValue, Snapshot(), machine, collected)
    {
      hide FieldsMatch, Collecting, CollectedAt, Collects;
      ghost var f0, m0 := Snapshot(), machine;
      CollectingStarts(f0, tableId, machine, completedValue);
      collected := [];
      ghost var seen := 0;
      var i := 0;
      while i < |retirements|
        invariant FieldsMatch(Snapshot(), tableId, machine)
        invariant Collecting(f0, m0, completedValue, seen, Snapshot(), machine, i, collected)
        decreases |f0.retirements| - seen
      {
        if retirements[i].completionValue > completedValue {
          CollectingKeeps(f0, m0, completedValue, seen, Snapshot(), machine, i, collected);
          i := i + 1;
        } else {
          CollectingTakes(f0, m0, completedValue, seen, Snapshot(), machine, i, collected, tableId);
          var oldHandle := retirements[i].slot;
          CollectOne(i);
          collected := collected + [oldHandle];
        }
        seen := seen + 1;
      }
      CollectingEnds(f0, m0, completedValue, seen, Snapshot(), machine, i, collected, tableId);
    }

    /** One due iteration's work. */
    method CollectOne(k: nat)
      requires k < |retirements| && FieldsMatch(Snapshot(), tableId, machine)
      modifies `slots, `freeSlots, `retirements, `dirtySlots, `telemetry, `machine
      ensures FieldsMatch(Snapshot(), tableId, machine)
      ensures var x := old(retirements)[k].slot.index;
              && x < |old(slots)| == |old(machine)| == |old(dirtySlots)| && old(telemetry).retiringSlots > 0
              && Snapshot() == CollectedAt(old(Snapshot()), k)
              && machine == old(machine)[x := M.Cell(old(machine)[x].lives + 1, M.Free)]
    {
      hide FieldsMatch;
      var x := retirements[k].slot.index;
      CollectOneKeeps(Snapshot(), tableId, machine, k);
      slots := slots[x := Slot(M.NextGeneration(slots[x].generation), Free)];
      freeSlots := freeSlots + [x];
      MarkDirty(x);
      telemetry := telemetry.(retiringSlots := telemetry.retiringSlots - 1);
      telemetry := telemetry.(availableSlots := telemetry.availableSlots + 1);
      telemetry := telemetry.(retirementCollectionCount := telemetry.retirementCollectionCount + 1);
      retirements := WithoutAt(retirements, k);
      machine := machine[x := M.Cell(machine[x].lives + 1, M.Free)];
    }

    method ReservedSlot(index: nat) returns (r: Result<SlotHandle, SlotError>)
      requires Valid()
      ensures r.Ok? <==> index < |initial| && initial[index].phase.Reserved?
      ensures r.Ok? ==> r.value == SlotHandle(index, 1, tableId) && IsActive(r.value)
      ensures r.Err? ==> r == Err(InvalidHandle)
    {
      ReservedForever(initial, trace);
      if index >= |slots| || !slots[index].state.Reserved? {
        return Err(InvalidHandle);
      }
      return Ok(HandleFor(index));
    }

    /** Reports the slots that need their descriptor written, in ascending order, and leaves none dirty. */
    method ConsumeDirtySlots() returns (result: seq<nat>)
      requires Valid()
      modifies `dirtySlots, `telemetry, `consumed
      ensures Valid() && consumed == Some(|trace|)
      ensures forall i: nat {:trigger i in result} ::
                i in result <==> i < |initial| && NeedsWrite(initial, trace, old(consumed), i)
      ensures forall i: nat :: i in result <==> i < |old(dirtySlots)| && old(dirtySlots)[i]
      ensures forall j, k :: 0 <= j < k < |result| ==> result[j] < result[k]
      ensures |dirtySlots| == |old(dirtySlots)| && forall i :: 0 <= i < |dirtySlots| ==> !dirtySlots[i]
      ensures |result| == old(telemetry).dirtyDescriptorSlots
      ensures telemetry == old(telemetry).(dirtyDescriptorSlots := 0,
                descriptorUpdateCount := old(telemetry).descriptorUpdateCount + |result|)
    {
      hide TableInvariant, DirtyCount, ListsDirty, NeedsWrite;
      ClearedDirtyKeeps(Snapshot(), tableId, machine, initial, trace);
      ListsNone(dirtySlots);
      result := [];
      var index := 0;
      ghost var before := dirtySlots;
      while index < |dirtySlots|
        invariant 0 <= index <= |dirtySlots| == |before|
        invariant forall k :: 0 <= k < |before| ==> dirtySlots[k] == (before[k] && index <= k)
        invariant ListsDirty(result, before, index) && telemetry == old(telemetry)
      {
        ListsMore(result, before, index);
        if dirtySlots[index] {
          result := result + [index];
          dirtySlots := dirtySlots[index := false];
        }
        index := index + 1;
      }
      ListsAll(result, before);
      assert dirtySlots == seq(|before|, _ => false);
      telemetry := telemetry.(dirtyDescriptorSlots := 0);
      telemetry := telemetry.(descriptorUpdateCount := telemetry.descriptorUpdateCount + |result|);
      DirtyAfterConsume(initial, trace, dirtySlots);
      consumed := Some(|trace|);
    }
  }

  // ------------------------------------------------------------ What a valid allocator implies

  /** In every reachable state the gauges partition the capacity, and the event counters
      account for every slot in use and every slot that is retiring. */
  lemma CountersAgree(a: BindlessSlotAllocator)
    requires a.Valid()
    ensures var t := a.telemetry;
            && t.currentUse + t.retiringSlots + t.availableSlots == t.capacity == |a.slots|
            && t.allocationCount - t.retirementCount == t.currentUse - t.reservedSlots
            && t.retirementCount - t.retirementCollectionCount == t.retiringSlots
            && t.availableSlots == |a.freeSlots| && t.retiringSlots == |a.retirements|
            && t.dirtyDescriptorSlots == DirtyCount(a.dirtySlots)
    ensures forall k :: 0 <= k <= |a.trace| ==> M.InUse(M.After(a.initial, a.trace[..k])) <= a.telemetry.peakUse
    ensures exists k :: 0 <= k <= |a.trace| && M.InUse(M.After(a.initial, a.trace[..k])) == a.telemetry.peakUse
  {
    M.KindsPartition(a.machine);
    M.Conservation(a.initial, a.trace);
    M.PeakUseIsMaximum(a.initial, a.trace);
  }

  /** Allocation fails exactly when every slot is reserved, active, or retiring, whatever
      value a retiring slot waits for: only Collect makes it available. */
  lemma ExhaustedExactly(a: BindlessSlotAllocator)
    requires a.Valid()
    ensures a.freeSlots == [] <==> forall i :: 0 <= i < |a.machine| ==>
              a.machine[i].phase.Reserved? || a.machine[i].phase.Active? || a.machine[i].phase.Retiring?
  {
    if a.freeSlots == [] {
      forall i | 0 <= i < |a.machine| ensures !a.machine[i].phase.Free? {
        assert i !in a.freeSlots;
      }
    } else {
      assert a.machine[a.freeSlots[0]].phase.Free?;
    }
  }

  /** The handle the i-th event of the run handed out. */
  ghost function IssuedHandle(a: BindlessSlotAllocator, i: nat): SlotHandle
    requires i < |a.trace| && a.trace[i].Allocate? && a.trace[i].index < |a.initial|
    reads a
  {
    var x := a.trace[i].index;
    SlotHandle(x, M.Generation(M.After(a.initial, a.trace[..i])[x].lives), a.tableId)
  }

  /** Any handle ever issued is stale exactly when its slot has since been collected a
      number of times that 2^32 - 1 does not divide, and otherwise active exactly when
      the slot is. */
  lemma IssuedHandleStatus(a: BindlessSlotAllocator, i: nat)
    requires a.Valid() && i < |a.trace| && a.trace[i].Allocate?
    ensures a.trace[i].index < |a.initial| == |a.machine|
    ensures var x, h := a.trace[i].index, IssuedHandle(a, i);
            var issued := M.After(a.initial, a.trace[..i])[x].lives;
            && issued <= a.machine[x].lives
            && (a.HandleError(h) == Some(StaleGeneration) <==> !M.WholePeriods(issued, a.machine[x].lives))
            && (a.IsActive(h) <==> M.WholePeriods(issued, a.machine[x].lives) && a.machine[x].phase.Active?)
  {
    var x := a.trace[i].index;
    M.LifeUntilCollected(a.initial, a.trace, i);
    M.GenerationsCollide(M.After(a.initial, a.trace[..i])[x].lives, a.machine[x].lives);
    M.LegalPrefix(a.initial, a.trace, i + 1);
    assert a.trace[..i + 1][..i] == a.trace[..i];
    M.LegalPrefix(a.initial, a.trace, i);
    ReservedForever(a.initial, a.trace[..i]);
    ReservedForever(a.initial, a.trace);
  }

  /** Reserved cells keep their phase and their first generation over every run. */
  lemma {:induction false} ReservedForever(m: M.Machine, es: seq<M.Event>)
    requires M.Initial(m) && M.Legal(m, es)
    ensures forall i :: 0 <= i < |m| ==> (m[i].phase.Reserved? <==> M.After(m, es)[i].phase.Reserved?)
    ensures forall i :: 0 <= i < |m| && m[i].phase.Reserved? ==> M.After(m, es)[i].lives == 0
  {
    if es != [] {
      ReservedForever(m, es[..|es| - 1]);
    }
  }

  lemma FreshTable(f: Fields, id: nat, m: M.Machine, reserved: nat)
    requires id != 0 && |m| <= INVALID_SLOT_INDEX
    requires IsFresh(f, m, |m|, reserved)
    ensures TableInvariant(f, id, m, m, [])
  {
    FreshFields(f, id, m, reserved);
    FreshHistory(f, m, reserved);
    hide FieldsMatch, HistoryAgrees;
  }

  lemma FreshFields(f: Fields, id: nat, m: M.Machine, reserved: nat)
    requires id != 0 && |m| <= INVALID_SLOT_INDEX
    requires IsFresh(f, m, |m|, reserved)
    ensures FieldsMatch(f, id, m)
  {
    InitialCounts(m, reserved);
    FreshFreeStack(f.free, m, reserved);
    hide FreeStackMatches, M.Count, M.Lives;
  }

  lemma FreshHistory(f: Fields, m: M.Machine, reserved: nat)
    requires IsFresh(f, m, |m|, reserved)
    ensures HistoryAgrees(f.telemetry, m, []) && M.Initial(m)
  {
    InitialCounts(m, reserved);
    hide M.Count;
  }

  lemma FreshFreeStack(free: seq<nat>, m: M.Machine, reserved: nat)
    requires reserved <= |m| && |free| == |m| - reserved == M.Count(m, M.FreeKind)
    requires forall i :: 0 <= i < |m| ==> m[i].phase == if i < reserved then M.Reserved else M.Free
    requires forall i :: 0 <= i < |free| ==> free[i] == |m| - 1 - i
    ensures FreeStackMatches(free, m)
  {
    forall i | reserved <= i < |m| ensures i in free {
      assert free[|m| - 1 - i] == i;
    }
  }

  lemma {:induction false} InitialCounts(m: M.Machine, reserved: nat)
    requires forall i :: 0 <= i < |m| ==> m[i] == M.Cell(0, if i < reserved then M.Reserved else M.Free)
    ensures M.Count(m, M.ReservedKind) == if |m| < reserved then |m| else reserved
    ensures M.Count(m, M.FreeKind) == if |m| < reserved then 0 else |m| - reserved
    ensures M.Count(m, M.ActiveKind) == 0 && M.Count(m, M.RetiringKind) == 0 && M.Lives(m) == 0
  {
    if m != [] {
      InitialCounts(m[..|m| - 1], reserved);
    }
  }
}
