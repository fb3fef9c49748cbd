/**
 The Metal stable resource table: argument-buffer entries found by resource identity,
 acquired at most once per live resource, and reused only after the completion value
 they were released with has been observed.  It runs the same abstract slot machine as
 the Vulkan allocator, but advances a generation when an entry is taken rather than
 when it is collected.
 */
module MetalTable {
  import opened Wrappers
  import opened FreeStacks
  import M = SlotMachine

  datatype ResourceSlot = ResourceSlot(index: nat, generation: nat)

  datatype TableError = ZeroResource | Exhausted | NotResident

  datatype State = Free | Active | Retiring

  datatype Entry = Entry(resource: nat, retireValue: nat, generation: nat, state: State)

  datatype Telemetry = Telemetry(
    capacity: nat, inUse: nat, retiring: nat, acquisitions: nat, releases: nat, reuses: nat, exhaustionCount: nat)

  /** The table's fields as one value. */
  datatype Fields = Fields(entries: seq<Entry>, free: seq<nat>, active: map<nat, nat>, telemetry: Telemetry)

  // ------------------------------------------------------------ What the fields mean

  /** A free entry still carries the generation of its previous life. */
  predicate EntryMatches(e: Entry, c: M.Cell) {
    match c.phase
    case Free =>
      && e.state.Free? && e.retireValue == 0
      && e.generation == (if c.lives == 0 then 0 else M.Generation(c.lives - 1))
      && (e.resource != 0 <==> c.lives > 0)
    case Reserved => false
    case Active => e.state.Active? && e.retireValue == 0 && e.generation == M.Generation(c.lives) && e.resource != 0
    case Retiring(due) =>
      e.state.Retiring? && e.retireValue == due && e.generation == M.Generation(c.lives) && e.resource != 0
  }

  ghost predicate ActiveMatches(active: map<nat, nat>, entries: seq<Entry>) {
    && (forall r :: r in active ==>
          active[r] < |entries| && entries[active[r]].state.Active? && entries[active[r]].resource == r)
    && (forall x :: 0 <= x < |entries| && entries[x].state.Active? ==> IsFoundAt(active, entries[x].resource, x))
  }

  predicate IsFoundAt(active: map<nat, nat>, resource: nat, x: nat) {
    resource in active && active[resource] == x
  }

  function UsedEntries(entries: seq<Entry>): nat {
    if entries == [] then 0
    else UsedEntries(entries[..|entries| - 1]) + if entries[|entries| - 1].resource != 0 then 1 else 0
  }

  ghost predicate FieldsMatch(f: Fields, m: M.Machine) {
    && |f.entries| == |m|
    && (forall i :: 0 <= i < |m| ==> EntryMatches(f.entries[i], m[i]))
    && FreeStackMatches(f.free, m)
    && ActiveMatches(f.active, f.entries)
    && f.telemetry.capacity == |m|
    && f.telemetry.inUse == M.Count(m, M.ActiveKind)
    && f.telemetry.retiring == M.Count(m, M.RetiringKind)
    && f.telemetry.acquisitions == f.telemetry.reuses + UsedEntries(f.entries)
  }

  ghost predicate TableInvariant(f: Fields, m: M.Machine, initial: M.Machine, trace: seq<M.Event>) {
    && FieldsMatch(f, m)
    && f.telemetry.acquisitions == M.Allocations(trace)
    && f.telemetry.releases == M.Retirements(trace)
    && M.Initial(initial)
    && M.Legal(initial, trace)
    && m == M.After(initial, trace)
  }

  // ------------------------------------------------------------ Whole-state steps

  function TakenAt(f: Fields, x: nat, resource: nat): Fields
    requires x < |f.entries| && f.free != []
  {
    var e, t := f.entries[x], f.telemetry;
    Fields(f.entries[x := Entry(resource, 0, M.NextGeneration(e.generation), Active)],
           f.free[..|f.free| - 1],
           f.active[resource := x],
           t.(reuses := t.reuses + (if e.resource != 0 then 1 else 0), acquisitions := t.acquisitions + 1,
              inUse := t.inUse + 1))
  }

  function ReleasedAt(f: Fields, resource: nat, retireValue: nat): Fields
    requires resource in f.active && f.active[resource] < |f.entries| && f.telemetry.inUse > 0
  {
    var x, t := f.active[resource], f.telemetry;
    f.(entries := f.entries[x := f.entries[x].(retireValue := retireValue, state := Retiring)],
       active := f.active - {resource},
       telemetry := t.(releases := t.releases + 1, inUse := t.inUse - 1, retiring := t.retiring + 1))
  }

  function FreedAt(f: Fields, x: nat): Fields
    requires x < |f.entries| && f.telemetry.retiring > 0
  {
    f.(entries := f.entries[x := f.entries[x].(state := Free, retireValue := 0)],
       free := f.free + [x],
       telemetry := f.telemetry.(retiring := f.telemetry.retiring - 1))
  }

  // ------------------------------------------------------------ Steps keep the fields matched

  lemma {:induction false} UsedEntriesUpdate(entries: seq<Entry>, x: nat, e: Entry)
    requires x < |entries|
    ensures UsedEntries(entries[x := e]) + (if entries[x].resource != 0 then 1 else 0)
         == UsedEntries(entries) + (if e.resource != 0 then 1 else 0)
  {
    var init := entries[..|entries| - 1];
    if x < |init| {
      assert entries[x := e][..|entries| - 1] == init[x := e];
      UsedEntriesUpdate(init, x, e);
    } else {
      assert entries[x := e][..|entries| - 1] == init;
    }
  }

  lemma NextEntryGeneration(e: Entry, c: M.Cell)
    requires EntryMatches(e, c) && c.phase.Free?
    ensures M.NextGeneration(e.generation) == M.Generation(c.lives)
  {
    if c.lives > 0 {
      M.NextGenerationCounts(c.lives - 1);
    }
  }

  lemma ActivateKeeps(active: map<nat, nat>, entries: seq<Entry>, x: nat, e: Entry)
    requires ActiveMatches(active, entries) && x < |entries| && !entries[x].state.Active?
    requires e.state.Active? && e.resource !in active
    ensures ActiveMatches(active[e.resource := x], entries[x := e])
  {
    var after := entries[x := e];
    forall y | 0 <= y < |entries| && after[y].state.Active?
      ensures IsFoundAt(active[e.resource := x], after[y].resource, y)
    {
      assert y != x ==> IsFoundAt(active, entries[y].resource, y);
    }
  }

  lemma DeactivateKeeps(active: map<nat, nat>, entries: seq<Entry>, x: nat, e: Entry)
    requires ActiveMatches(active, entries) && x < |entries| && !e.state.Active?
    ensures ActiveMatches(if entries[x].state.Active? then active - {entries[x].resource} else active, entries[x := e])
  {
    forall y | 0 <= y < |entries| && entries[y].state.Active?
      ensures IsFoundAt(active, entries[y].resource, y)
    {
    }
  }

  lemma TakeKeeps(f: Fields, m: M.Machine, initial: M.Machine, trace: seq<M.Event>, resource: nat)
    requires TableInvariant(f, m, initial, trace)
    requires resource != 0 && resource !in f.active && f.free != []
    ensures var x := f.free[|f.free| - 1];
            && x < |f.entries| == |m| && m[x].phase.Free?
            && M.NextGeneration(f.entries[x].generation) == M.Generation(m[x].lives)
            && TableInvariant(TakenAt(f, x, resource), m[x := m[x].(phase := M.Active)], initial,
                              trace + [M.Allocate(x)])
  {
    var x := f.free[|f.free| - 1];
    var active, event := m[x].(phase := M.Active), M.Allocate(x);
    var f' := TakenAt(f, x, resource);
    assert EntryMatches(f.entries[x], m[x]);
    NextEntryGeneration(f.entries[x], m[x]);
    assert FreeStackMatches(f'.free, m[x := active]) by { PopFree(f.free, m); }
    M.CountsAfterUpdate(m, x, active);
    UsedEntriesUpdate(f.entries, x, f'.entries[x]);
    assert ActiveMatches(f'.active, f'.entries) by { ActivateKeeps(f.active, f.entries, x, f'.entries[x]); }
    M.AfterAppend(initial, trace, event);
    assert (trace + [event])[..|trace|] == trace;
  }

  lemma ReleaseKeeps(f: Fields, m: M.Machine, initial: M.Machine, trace: seq<M.Event>, resource: nat, due: nat)
    requires TableInvariant(f, m, initial, trace) && resource in f.active
    ensures var x := f.active[resource];
            && x < |f.entries| == |m| && f.telemetry.inUse > 0 && m[x].phase.Active?
            && TableInvariant(ReleasedAt(f, resource, due), m[x := m[x].(phase := M.Retiring(due))], initial,
                              trace + [M.Retire(x, due)])
  {
    var x := f.active[resource];
    var retiring, event := m[x].(phase := M.Retiring(due)), M.Retire(x, due);
    assert EntryMatches(f.entries[x], m[x]);
    M.CountsAfterUpdate(m, x, retiring);
    var f' := ReleasedAt(f, resource, due);
    UsedEntriesUpdate(f.entries, x, f'.entries[x]);
    assert FreeStackMatches(f.free, m[x := retiring]) by { KeepFree(f.free, m, x, retiring); }
    assert ActiveMatches(f'.active, f'.entries) by { DeactivateKeeps(f.active, f.entries, x, f'.entries[x]); }
    M.AfterAppend(initial, trace, event);
    assert (trace + [event])[..|trace|] == trace;
  }

  lemma FreeKeeps(f: Fields, m: M.Machine, x: nat)
    requires FieldsMatch(f, m) && x < |m| && m[x].phase.Retiring?
    ensures |f.entries| == |m| && f.telemetry.retiring > 0
    ensures FieldsMatch(FreedAt(f, x), m[x := M.Cell(m[x].lives + 1, M.Free)])
  {
    var freed := M.Cell(m[x].lives + 1, M.Free);
    assert EntryMatches(f.entries[x], m[x]);
    M.CountUpdate(m, x, freed, M.ActiveKind);
    M.CountUpdate(m, x, freed, M.RetiringKind);
    var f' := FreedAt(f, x);
    UsedEntriesUpdate(f.entries, x, f'.entries[x]);
    assert FreeStackMatches(f.free + [x], m[x := freed]) by { PushFree(f.free, m, x); }
    assert ActiveMatches(f'.active, f'.entries) by { DeactivateKeeps(f.active, f.entries, x, f'.entries[x]); }
  }

  /** The machine when the collection loop has passed the first `n` entries. */
  ghost predicate CollectedUpTo(m0: M.Machine, m: M.Machine, completed: nat, n: nat) {
    && |m| == |m0|
    && (forall k :: 0 <= k < |m0| ==> m[k] == if k < n then M.CollectCell(m0[k], completed) else m0[k])
  }

  /** No entry is free, and none would be after a collection at `completed`. */
  ghost predicate AllTaken(m: M.Machine, completed: nat) {
    forall i :: 0 <= i < |m| ==> m[i].phase.Active? || (m[i].phase.Retiring? && m[i].phase.due > completed)
  }

  /** Indices of the collectible cells among the first n, ascending. */
  function CollectibleUpTo(m: M.Machine, completed: nat, n: nat): seq<nat>
    requires n <= |m|
  {
    if n == 0 then []
    else CollectibleUpTo(m, completed, n - 1) + if M.Collectible(m[n - 1], completed) then [n - 1] else []
  }

  lemma {:induction false} CollectibleUpToExact(m: M.Machine, completed: nat, n: nat, i: nat)
    requires n <= |m|
    ensures i in CollectibleUpTo(m, completed, n) <==> i < n && M.Collectible(m[i], completed)
  {
    if n > 0 {
      CollectibleUpToExact(m, completed, n - 1, i);
    }
  }

  lemma CollectKeepsHistory(f: Fields, f': Fields, m: M.Machine, m': M.Machine, initial: M.Machine,
                            trace: seq<M.Event>, completed: nat)
    requires TableInvariant(f, m, initial, trace)
    requires FieldsMatch(f', m') && CollectedUpTo(m, m', completed, |m|)
    requires f'.telemetry.acquisitions == f.telemetry.acquisitions
    requires f'.telemetry.releases == f.telemetry.releases
    ensures m' == M.Step(m, M.Collect(completed))
    ensures TableInvariant(f', m', initial, trace + [M.Collect(completed)])
  {
    CollectedIsStep(m, m', completed);
    CollectAppended(m, initial, trace, completed);
    hide FieldsMatch, CollectedUpTo, M.Step, M.After, M.Legal, M.Initial, M.Allocations, M.Retirements;
  }

  lemma CollectedIsStep(m: M.Machine, m': M.Machine, completed: nat)
    requires CollectedUpTo(m, m', completed, |m|)
    ensures m' == M.Step(m, M.Collect(completed))
  {
  }

  lemma CollectAppended(m: M.Machine, initial: M.Machine, trace: seq<M.Event>, completed: nat)
    requires M.Legal(initial, trace) && m == M.After(initial, trace)
    ensures var trace' := trace + [M.Collect(completed)];
            && M.Legal(initial, trace') && M.After(initial, trace') == M.Step(m, M.Collect(completed))
            && M.Allocations(trace') == M.Allocations(trace) && M.Retirements(trace') == M.Retirements(trace)
  {
    var event := M.Collect(completed);
    M.AfterAppend(initial, trace, event);
    assert (trace + [event])[..|trace|] == trace;
  }

  /** Entry x as the collection loop meets it. */
  lemma LoopEntry(f: Fields, m0: M.Machine, m: M.Machine, completed: nat, x: nat)
    requires FieldsMatch(f, m) && CollectedUpTo(m0, m, completed, x) && x < |m|
    ensures |f.entries| == |m| == |m0| && m[x] == m0[x]
    ensures f.entries[x].state.Retiring? && f.entries[x].retireValue <= completed <==> M.Collectible(m0[x], completed)
  {
    assert EntryMatches(f.entries[x], m[x]);
  }

  /** Nothing is collected before the first entry. */
  lemma CollectionStarts(m0: M.Machine, completed: nat)
    ensures CollectedUpTo(m0, m0, completed, 0) && CollectibleUpTo(m0, completed, 0) == []
  {
  }

  /** Entry x is collected if it is due, and left alone otherwise. */
  lemma CollectionNext(m0: M.Machine, m: M.Machine, completed: nat, x: nat)
    requires CollectedUpTo(m0, m, completed, x) && x < |m|
    ensures |m| == |m0| && m[x] == m0[x]
    ensures M.Collectible(m[x], completed) ==>
              && CollectedUpTo(m0, m[x := M.Cell(m[x].lives + 1, M.Free)], completed, x + 1)
              && CollectibleUpTo(m0, completed, x + 1) == CollectibleUpTo(m0, completed, x) + [x]
    ensures !M.Collectible(m[x], completed) ==>
              && CollectedUpTo(m0, m, completed, x + 1)
              && CollectibleUpTo(m0, completed, x + 1) == CollectibleUpTo(m0, completed, x)
  {
  }

  // ------------------------------------------------------------ In the fields alone

  /** Whether a collection at the completed value frees the entry. */
  predicate IsDue(e: Entry, completed: nat) {
    e.state.Retiring? && e.retireValue <= completed
  }

  /** Every due entry is free and keeps its resource and generation; the others are as they were. */
  ghost predicate EntriesFreed(before: seq<Entry>, completed: nat, after: seq<Entry>, n: nat) {
    && |after| == |before|
    && forall i :: 0 <= i < |before| ==>
         after[i] == if i < n && before[i].state.Retiring? && before[i].retireValue <= completed
                     then Entry(before[i].resource, 0, before[i].generation, Free) else before[i]
  }

  /** The due entries are pushed in ascending order, on top of what was free. */
  ghost predicate DuePushed(before: seq<Entry>, completed: nat, free: seq<nat>, free': seq<nat>) {
    && |free| <= |free'| && free'[..|free|] == free
    && (forall i: nat :: i in free'[|free|..] <==>
          i < |before| && before[i].state.Retiring? && before[i].retireValue <= completed)
    && (forall j, k :: |free| <= j < k < |free'| ==> free'[j] < free'[k])
  }

  lemma {:induction false} CollectibleAscending(m: M.Machine, completed: nat, n: nat)
    requires n <= |m|
    ensures var c := CollectibleUpTo(m, completed, n);
            && (forall i: nat :: i in c <==> i < n && M.Collectible(m[i], completed))
            && (forall j, k :: 0 <= j < k < |c| ==> c[j] < c[k])
  {
    if n > 0 {
      CollectibleAscending(m, completed, n - 1);
      var c := CollectibleUpTo(m, completed, n - 1);
      assert forall j :: 0 <= j < |c| ==> c[j] in c;
    }
  }

  lemma CollectiblePushed(f: Fields, m: M.Machine, completed: nat, free': seq<nat>)
    requires FieldsMatch(f, m) && free' == f.free + CollectibleUpTo(m, completed, |m|)
    ensures DuePushed(f.entries, completed, f.free, free')
  {
    CollectibleAscending(m, completed, |m|);
    assert free'[|f.free|..] == CollectibleUpTo(m, completed, |m|);
    hide FreeStackMatches, ActiveMatches, CollectibleUpTo, M.Count, UsedEntries, M.Generation;
    forall i: nat | i < |m| ensures M.Collectible(m[i], completed) <==> IsDue(f.entries[i], completed) {
      assert EntryMatches(f.entries[i], m[i]);
    }
  }

  /** Nothing is free and nothing is due. */
  lemma TakenInFields(f: Fields, m: M.Machine, initial: M.Machine, trace: seq<M.Event>, completed: nat)
    requires TableInvariant(f, m, initial, trace)
    ensures AllTaken(m, completed) <==>
            forall i :: 0 <= i < |f.entries| ==>
              f.entries[i].state.Active? || (f.entries[i].state.Retiring? && f.entries[i].retireValue > completed)
  {
    hide FreeStackMatches, ActiveMatches, M.Count, UsedEntries, M.Generation, M.Legal, M.After;
    forall i | 0 <= i < |m| ensures EntryMatches(f.entries[i], m[i]) {
    }
  }

  // ------------------------------------------------------------ The table

  class StableResourceTable {
    var entries: seq<Entry>
    var free: seq<nat>
    var active: map<nat, nat>
    var telemetry: Telemetry

    // The run so far, over the abstract machine the table was built with.
    ghost const initial: M.Machine
    ghost var trace: seq<M.Event>
    ghost var machine: M.Machine

    ghost function Snapshot(): Fields
      reads this
    {
      Fields(entries, free, active, telemetry)
    }

    ghost predicate Valid()
      reads this
    {
      TableInvariant(Snapshot(), machine, initial, trace)
    }

    /** The source throws for a zero capacity; Create models that path. */
    constructor (capacity: nat)
      requires capacity != 0
      ensures Valid() && trace == [] && |initial| == capacity
      ensures forall i :: 0 <= i < capacity ==> initial[i] == M.Cell(0, M.Free)
      ensures free == seq(capacity, i requires 0 <= i < capacity => capacity - 1 - i)
    {
      entries := seq(capacity, _ => Entry(0, 0, 0, Free));
      active := map[];
      free := [];
      telemetry := Telemetry(capacity, 0, 0, 0, 0, 0, 0);
      initial := seq(capacity, _ => M.Cell(0, M.Free));
      machine := initial;
      trace := [];
      new;
      hide TableInvariant;
      var index := capacity;
      while index != 0
        modifies `free
        invariant 0 <= index <= capacity
        invariant |free| == capacity - index
        invariant forall i :: 0 <= i < |free| ==> free[i] == capacity - 1 - i
      {
        free := free + [index - 1];
        index := index - 1;
      }
      FreshTable(Snapshot(), machine);
    }

    static method Create(capacity: nat) returns (r: Option<StableResourceTable>)
      ensures r.None? <==> capacity == 0
      ensures r.Some? ==> fresh(r.value) && r.value.Valid() && |r.value.initial| == capacity
    {
      if capacity == 0 {
        return None;
      }
      var table := new StableResourceTable(capacity);
      return Some(table);
    }

    /** Collects first.  A live resource keeps its slot; a new one takes the most recently
        freed entry, in a generation no handle of the entry's current life has had; and
        the table is exhausted exactly when every entry is active or not yet collectible. */
    method Acquire(resource: nat, completedValue: nat) returns (r: Result<ResourceSlot, TableError>)
      requires Valid()
      modifies this
      ensures Valid()
      ensures resource == 0 ==>
        r == Err(ZeroResource) && Snapshot() == old(Snapshot()) && trace == old(trace) && machine == old(machine)
      ensures resource != 0 && resource in old(active) ==>
        && r.Ok? && r.value.index == old(active)[resource] < |old(entries)|
        && r.value.generation == old(entries)[r.value.index].generation
        && EntriesFreed(old(entries), completedValue, entries, |old(entries)|)
        && DuePushed(old(entries), completedValue, old(free), free)
      ensures resource != 0 && resource !in old(active) ==>
        (r.Err? <==> forall i :: 0 <= i < |old(entries)| ==>
           || old(entries)[i].state.Active?
           || (old(entries)[i].state.Retiring? && old(entries)[i].retireValue > completedValue))
      ensures resource != 0 && resource !in old(active) && r.Ok? ==>
        && DuePushed(old(entries), completedValue, old(free), free + [r.value.index])
        && exists freed :: EntriesFreed(old(entries), completedValue, freed, |old(entries)|)
                           && TakenPlainly(freed, entries, r.value, resource)
      ensures resource != 0 ==>
        var collected := M.Step(old(machine), M.Collect(completedValue));
        var stack := old(free) + CollectibleUpTo(old(machine), completedValue, |old(machine)|);
        && telemetry.exhaustionCount == old(telemetry).exhaustionCount + (if r.Err? then 1 else 0)
        && (resource in old(active) ==>
              && old(active)[resource] < |old(machine)|
              && r == Ok(ResourceSlot(old(active)[resource],
                                      M.Generation(old(machine)[old(active)[resource]].lives)))
              && trace == old(trace) + [M.Collect(completedValue)]
              && machine == collected && active == old(active) && free == stack)
        && (resource !in old(active) ==>
              && (r.Err? <==> AllTaken(old(machine), completedValue))
              && (r.Err? ==> r == Err(Exhausted) && trace == old(trace) + [M.Collect(completedValue)] &&
                             machine == collected)
              && (r.Ok? ==>
                    && var x := r.value.index;
                       && stack != [] && x == stack[|stack| - 1] && free == stack[..|stack| - 1]
                       && x < |collected| && collected[x].phase.Free?
                       && r.value.generation == M.Generation(collected[x].lives)
                       && trace == old(trace) + [M.Collect(completedValue)] + [M.Allocate(x)]
                       && machine == collected[x := collected[x].(phase := M.Active)]
                       && active == old(active)[resource := x]))
    {
      hide TableInvariant, AllTaken, M.Step, DuePushed, EntriesFreed;
      if resource == 0 {
        return Err(ZeroResource);
      }
      TakenInFields(Snapshot(), machine, initial, trace, completedValue);
      Collect(completedValue);
      ghost var freed, stack := entries, free;
      if resource in active {
        FoundSlot(Snapshot(), machine, initial, trace, resource);
        FoundBefore(old(Snapshot()), old(machine), initial, old(trace), resource, completedValue);
        var index := active[resource];
        StaysActive(old(Snapshot()), old(machine), initial, old(trace), resource, completedValue, entries);
        return Ok(ResourceSlot(index, entries[index].generation));
      }
      WhenExhausted(Snapshot(), old(machine), machine, initial, trace, completedValue);
      if free == [] {
        telemetry := telemetry.(exhaustionCount := telemetry.exhaustionCount + 1);
        return Err(Exhausted);
      }
      var slot := Take(resource);
      assert TakenPlainly(freed, entries, slot, resource) && free + [slot.index] == stack;
      return Ok(slot);
    }

    /** The entry is the resource's, in the generation after its former one, which skips zero. */
    ghost predicate TakenPlainly(before: seq<Entry>, after: seq<Entry>, slot: ResourceSlot, resource: nat) {
      && slot.index < |before|
      && slot.generation == (if before[slot.index].generation == 0xFFFF_FFFF then 1
                             else before[slot.index].generation + 1)
      && after == before[slot.index := Entry(resource, 0, slot.generation, Active)]
    }

    /** The second half of Acquire: the top of the free stack becomes the resource's entry. */
    method Take(resource: nat) returns (slot: ResourceSlot)
      requires Valid() && resource != 0 && resource !in active && free != []
      modifies this
      ensures Valid()
      ensures var x := old(free)[|old(free)| - 1];
              && x < |old(entries)| == |old(machine)| && old(machine)[x].phase.Free?
              && slot == ResourceSlot(x, M.Generation(old(machine)[x].lives))
              && TakenPlainly(old(entries), entries, slot, resource)
              && telemetry.reuses == old(telemetry).reuses + (if old(entries)[x].resource != 0 then 1 else 0)
              && Snapshot() == TakenAt(old(Snapshot()), x, resource)
              && trace == old(trace) + [M.Allocate(x)]
              && machine == old(machine)[x := old(machine)[x].(phase := M.Active)]
    {
      hide TableInvariant;
      TakeKeeps(Snapshot(), machine, initial, trace, resource);
      PresentGeneration(Snapshot(), machine, initial, trace, free[|free| - 1]);
      var index := free[|free| - 1];
      free := free[..|free| - 1];
      var entry := entries[index];
      entry := entry.(generation := (entry.generation + 1) % 0x1_0000_0000);
      if entry.generation == 0 {
        entry := entry.(generation := entry.generation + 1);
      }
      if entry.resource != 0 {
        telemetry := telemetry.(reuses := telemetry.reuses + 1);
      }
      entry := entry.(resource := resource);
      entry := entry.(retireValue := 0);
      entry := entry.(state := Active);
      entries := entries[index := entry];
      active := active[resource := index];
      telemetry := telemetry.(acquisitions := telemetry.acquisitions + 1);
      telemetry := telemetry.(inUse := telemetry.inUse + 1);
      machine := machine[index := machine[index].(phase := M.Active)];
      trace := trace + [M.Allocate(index)];
      return ResourceSlot(index, entry.generation);
    }

    /** Finds exactly the live resources, under the handle their entry has now. */
    method Find(resource: nat) returns (r: Option<ResourceSlot>)
      requires Valid()
      ensures r.Some? <==> resource in active
      ensures r.Some? ==>
        && r.value.index < |machine| && machine[r.value.index].phase.Active?
        && r.value.index < |entries| && entries[r.value.index].resource == resource
        && r.value.generation == entries[r.value.index].generation
        && r.value.generation == M.Generation(machine[r.value.index].lives)
    {
      if resource !in active {
        return None;
      }
      FoundSlot(Snapshot(), machine, initial, trace, resource);
      var index := active[resource];
      return Some(ResourceSlot(index, entries[index].generation));
    }

    method Release(resource: nat, retireValue: nat) returns (error: Option<TableError>)
      requires Valid()
      modifies this
      ensures Valid()
      ensures error.Some? <==> resource !in old(active)
      ensures error.Some? ==>
        error == Some(NotResident) && Snapshot() == old(Snapshot()) && trace == old(trace) && machine == old(machine)
      ensures error.None? ==>
        && var x := old(active)[resource];
           && x < |old(entries)|
           && entries == old(entries)[x := Entry(old(entries)[x].resource, retireValue, old(entries)[x].generation,
                                                 Retiring)]
           && active == old(active) - {resource} && free == old(free)
      ensures error.None? ==>
        && var x := old(active)[resource];
           && x < |old(entries)| == |old(machine)| && old(telemetry).inUse > 0
           && Snapshot() == ReleasedAt(old(Snapshot()), resource, retireValue)
           && trace == old(trace) + [M.Retire(x, retireValue)]
           && machine == old(machine)[x := old(machine)[x].(phase := M.Retiring(retireValue))]
    {
      hide TableInvariant;
      if resource !in active {
        return Some(NotResident);
      }
      ReleaseKeeps(Snapshot(), machine, initial, trace, resource, retireValue);
      var found := active[resource];
      var entry := entries[found];
      active := active - {resource};
      entry := entry.(retireValue := retireValue);
      entry := entry.(state := Retiring);
      entries := entries[found := entry];
      telemetry := telemetry.(releases := telemetry.releases + 1);
      telemetry := telemetry.(inUse := telemetry.inUse - 1);
      telemetry := telemetry.(retiring := telemetry.retiring + 1);
      machine := machine[found := machine[found].(phase := M.Retiring(retireValue))];
      trace := trace + [M.Retire(found, retireValue)];
      return None;
    }

    /** Frees exactly the retiring entries the value covers, in ascending order. */
    method Collect(completedValue: nat)
      requires Valid()
      modifies this
      ensures Valid()
      ensures trace == old(trace) + [M.Collect(completedValue)]
      ensures machine == M.Step(old(machine), M.Collect(completedValue))
      ensures free == old(free) + CollectibleUpTo(old(machine), completedValue, |old(machine)|)
      ensures active == old(active)
      ensures telemetry == old(telemetry).(retiring := telemetry.retiring)
      ensures EntriesFreed(old(entries), completedValue, entries, |old(entries)|)
      ensures DuePushed(old(entries), completedValue, old(free), free)
    {
      hide FieldsMatch, CollectedUpTo, CollectibleUpTo, M.Step, DuePushed;
      ghost var f0, m0 := Snapshot(), machine;
      MatchedLength(f0, m0);
      CollectionStarts(m0, completedValue);
      var index := 0;
      while index < |entries|
        modifies `entries, `free, `telemetry, `machine
        invariant 0 <= index <= |entries| == |m0| == |machine|
        invariant FieldsMatch(Snapshot(), machine)
        invariant CollectedUpTo(m0, machine, completedValue, index)
        invariant free == f0.free + CollectibleUpTo(m0, completedValue, index)
        invariant telemetry == f0.telemetry.(retiring := telemetry.retiring)
        invariant EntriesFreed(f0.entries, completedValue, entries, index)
      {
        LoopEntry(Snapshot(), m0, machine, completedValue, index);
        CollectionNext(m0, machine, completedValue, index);
        var entry := entries[index];
        if entry.state.Retiring? && entry.retireValue <= completedValue {
          FreeKeeps(Snapshot(), machine, index);
          entry := entry.(state := Free);
          entry := entry.(retireValue := 0);
          entries := entries[index := entry];
          free := free + [index];
          telemetry := telemetry.(retiring := telemetry.retiring - 1);
          machine := machine[index := M.Cell(machine[index].lives + 1, M.Free)];
        }
        index := index + 1;
      }
      CollectKeepsHistory(f0, Snapshot(), m0, machine, initial, trace, completedValue);
      CollectiblePushed(f0, m0, completedValue, free);
      trace := trace + [M.Collect(completedValue)];
    }
  }

  lemma PresentGeneration(f: Fields, m: M.Machine, initial: M.Machine, trace: seq<M.Event>, x: nat)
    requires TableInvariant(f, m, initial, trace) && x < |f.entries|
    ensures f.entries[x].generation <= 0xFFFF_FFFF
  {
    assert EntryMatches(f.entries[x], m[x]);
  }

  lemma MatchedLength(f: Fields, m: M.Machine)
    requires FieldsMatch(f, m)
    ensures |f.entries| == |m|
  {
  }

  lemma FoundSlot(f: Fields, m: M.Machine, initial: M.Machine, trace: seq<M.Event>, resource: nat)
    requires TableInvariant(f, m, initial, trace) && resource in f.active
    ensures var x := f.active[resource];
            && x < |f.entries| == |m| && m[x].phase.Active?
            && f.entries[x].resource == resource && f.entries[x].generation == M.Generation(m[x].lives)
  {
    assert EntryMatches(f.entries[f.active[resource]], m[f.active[resource]]);
  }

  /** A collection does not touch the cell of a live resource. */
  lemma FoundBefore(f: Fields, m: M.Machine, initial: M.Machine, trace: seq<M.Event>, resource: nat, completed: nat)
    requires TableInvariant(f, m, initial, trace) && resource in f.active
    ensures f.active[resource] < |m|
    ensures M.Step(m, M.Collect(completed))[f.active[resource]] == m[f.active[resource]]
  {
    FoundSlot(f, m, initial, trace, resource);
  }

  lemma StaysActive(f: Fields, m: M.Machine, initial: M.Machine, trace: seq<M.Event>, resource: nat, completed: nat,
                    after: seq<Entry>)
    requires TableInvariant(f, m, initial, trace) && resource in f.active
    requires EntriesFreed(f.entries, completed, after, |f.entries|)
    ensures f.active[resource] < |f.entries| == |after| && after[f.active[resource]] == f.entries[f.active[resource]]
  {
  }

  lemma WhenExhausted(f: Fields, m0: M.Machine, m: M.Machine, initial: M.Machine, trace: seq<M.Event>, completed: nat)
    requires TableInvariant(f, m, initial, trace) && m == M.Step(m0, M.Collect(completed))
    ensures f.free == [] <==> AllTaken(m0, completed)
    ensures forall exhausted ::
      TableInvariant(f.(telemetry := f.telemetry.(exhaustionCount := exhausted)), m, initial, trace)
  {
    M.ExhaustedAfterCollect(m0, completed);
    NeverReserved(f, m, initial, trace);
    forall i | 0 <= i < |m0| ensures !m0[i].phase.Reserved? {
      assert !m[i].phase.Reserved?;
    }
    if f.free == [] {
      forall i | 0 <= i < |m| ensures !m[i].phase.Free? {
        assert i !in f.free;
      }
    } else {
      assert m[f.free[0]].phase.Free?;
    }
  }

  lemma NeverReserved(f: Fields, m: M.Machine, initial: M.Machine, trace: seq<M.Event>)
    requires TableInvariant(f, m, initial, trace)
    ensures forall i :: 0 <= i < |m| ==> !m[i].phase.Reserved?
  {
    forall i | 0 <= i < |m| ensures !m[i].phase.Reserved? {
      assert EntryMatches(f.entries[i], m[i]);
    }
  }

  lemma FreshTable(f: Fields, m: M.Machine)
    requires |f.entries| == |m| == |f.free| && f.active == map[]
    requires forall i :: 0 <= i < |m| ==> m[i] == M.Cell(0, M.Free) && f.entries[i] == Entry(0, 0, 0, Free)
    requires forall i :: 0 <= i < |m| ==> f.free[i] == |m| - 1 - i
    requires f.telemetry == Telemetry(|m|, 0, 0, 0, 0, 0, 0)
    ensures TableInvariant(f, m, m, [])
  {
    FreshCounts(f.entries, m);
    assert FreeStackMatches(f.free, m) by {
      forall i | 0 <= i < |m| ensures i in f.free {
        assert f.free[|m| - 1 - i] == i;
      }
    }
  }

  lemma {:induction false} FreshCounts(entries: seq<Entry>, m: M.Machine)
    requires |entries| == |m|
    requires forall i :: 0 <= i < |m| ==> m[i] == M.Cell(0, M.Free) && entries[i] == Entry(0, 0, 0, Free)
    ensures M.Count(m, M.FreeKind) == |m| && UsedEntries(entries) == 0
    ensures M.Count(m, M.ActiveKind) == 0 && M.Count(m, M.RetiringKind) == 0
  {
    if m != [] {
      FreshCounts(entries[..|m| - 1], m[..|m| - 1]);
    }
  }

  /** In every reachable state: what is in use, retiring and free partitions the table,
      acquisitions not released are in use, and every acquisition either reused an entry
      or was the first of its entry. */
  lemma CountersAgree(t: StableResourceTable)
    requires t.Valid()
    ensures t.telemetry.inUse + t.telemetry.retiring + |t.free| == |t.entries| == t.telemetry.capacity
    ensures t.telemetry.acquisitions == t.telemetry.releases + t.telemetry.inUse
    ensures t.telemetry.acquisitions == t.telemetry.reuses + UsedEntries(t.entries)
  {
    M.KindsPartition(t.machine);
    M.Conservation(t.initial, t.trace);
    NeverReserved(t.Snapshot(), t.machine, t.initial, t.trace);
    NoneReserved(t.machine);
  }

  lemma {:induction false} NoneReserved(m: M.Machine)
    requires forall i :: 0 <= i < |m| ==> !m[i].phase.Reserved?
    ensures M.Count(m, M.ReservedKind) == 0
  {
    if m != [] {
      NoneReserved(m[..|m| - 1]);
    }
  }
}

/** Both tables refine one machine: on equal machines their handles agree. */
module TableRefinement {
  import V = BindlessSlots
  import T = MetalTable
  import M = SlotMachine

  /** When the two tables stand for the same machine, every slot in use carries the same
      generation in both, although Vulkan advances it at collection and Metal at the next
      acquisition: a free Metal entry is one increment behind. */
  lemma GenerationsAgree(v: V.BindlessSlotAllocator, t: T.StableResourceTable, x: nat)
    requires v.Valid() && t.Valid() && v.machine == t.machine && x < |v.machine|
    ensures x < |v.slots| == |t.entries|
    ensures !v.machine[x].phase.Free? ==> t.entries[x].generation == v.slots[x].generation
    ensures v.machine[x].phase.Free? ==> M.NextGeneration(t.entries[x].generation) == v.slots[x].generation
  {
    assert T.EntryMatches(t.entries[x], t.machine[x]);
    if v.machine[x].phase.Free? {
      T.NextEntryGeneration(t.entries[x], t.machine[x]);
    }
  }

  /** Runs with the same events from the same start leave the two tables on the same
      machine, so a handle taken in one names the same life as in the other. */
  lemma SameRunSameMachine(v: V.BindlessSlotAllocator, t: T.StableResourceTable)
    requires v.Valid() && t.Valid() && v.initial == t.initial && v.trace == t.trace
    ensures v.machine == t.machine
    ensures forall x :: 0 <= x < |v.freeSlots| ==> v.freeSlots[x] in t.free
    ensures v.telemetry.currentUse == t.telemetry.inUse && v.telemetry.retiringSlots == t.telemetry.retiring
    ensures v.telemetry.allocationCount == t.telemetry.acquisitions
  {
    T.NeverReserved(t.Snapshot(), t.machine, t.initial, t.trace);
    T.NoneReserved(t.machine);
  }
}
