/**
 Sampler runs: which descriptor uses which slot, how often it is referenced, and the
 greatest completion value its references have been released with.  This is the
 specification the sampler table is proved against; the reuse guarantee is stated
 here over all legal runs.
 */
module SamplerRuns {
  import M = SlotMachine

  datatype FilterMode = Nearest | Linear

  datatype AddressMode = Repeat | MirroredRepeat | ClampToEdge

  /** The values that affect sampler creation; debug labels are not part of identity. */
  datatype Descriptor = Descriptor(
    minFilter: FilterMode, magFilter: FilterMode, addressU: AddressMode, addressV: AddressMode)

  datatype Use = Unused | Used(descriptor: Descriptor, references: nat, lastCompletion: nat)

  /** One machine cell and its user for every slot. */
  datatype Samplers = Samplers(cells: M.Machine, uses: seq<Use>)

  datatype Event =
    | Create(index: nat, descriptor: Descriptor)
    | Share(index: nat)
    | Release(index: nat, completion: nat)
    | Collect(completed: nat)

  ghost predicate InUse(s: Samplers, d: Descriptor) {
    exists x :: 0 <= x < |s.uses| && s.uses[x].Used? && s.uses[x].descriptor == d
  }

  ghost predicate Enabled(s: Samplers, e: Event) {
    match e
    case Create(x, d) => x < |s.cells| && s.cells[x].phase.Free? && !InUse(s, d)
    case Share(x) => x < |s.uses| && s.uses[x].Used?
    case Release(x, _) => x < |s.uses| && s.uses[x].Used?
    case Collect(_) => true
  }

  function Later(a: nat, b: nat): nat {
    if a < b then b else a
  }

  function Step(s: Samplers, e: Event): Samplers {
    match e
    case Create(x, d) =>
      if x < |s.uses| then Samplers(M.Step(s.cells, M.Allocate(x)), s.uses[x := Used(d, 1, 0)]) else s
    case Share(x) =>
      if x < |s.uses| && s.uses[x].Used?
      then s.(uses := s.uses[x := s.uses[x].(references := s.uses[x].references + 1)]) else s
    case Release(x, v) =>
      if x >= |s.uses| || s.uses[x].Unused? then s
      else
        var last := Later(s.uses[x].lastCompletion, v);
        if s.uses[x].references > 1
        then s.(uses := s.uses[x := Used(s.uses[x].descriptor, s.uses[x].references - 1, last)])
        else Samplers(M.Step(s.cells, M.Retire(x, last)), s.uses[x := Unused])
    case Collect(c) => s.(cells := M.Step(s.cells, M.Collect(c)))
  }

  function After(s: Samplers, es: seq<Event>): Samplers {
    if es == [] then s else Step(After(s, es[..|es| - 1]), es[|es| - 1])
  }

  ghost predicate Legal(s: Samplers, es: seq<Event>) {
    es == [] || (Legal(s, es[..|es| - 1]) && Enabled(After(s, es[..|es| - 1]), es[|es| - 1]))
  }

  /** Exactly the active slots are used, by pairwise different descriptors, each with at
      least one reference. */
  ghost predicate Consistent(s: Samplers) {
    && |s.uses| == |s.cells|
    && (forall x :: 0 <= x < |s.uses| ==> (s.uses[x].Used? <==> s.cells[x].phase.Active?))
    && (forall x :: 0 <= x < |s.uses| && s.uses[x].Used? ==> s.uses[x].references > 0)
    && (forall x, y :: 0 <= x < y < |s.uses| && s.uses[x].Used? && s.uses[y].Used? ==>
          s.uses[x].descriptor != s.uses[y].descriptor)
  }

  lemma StepConsistent(s: Samplers, e: Event)
    requires Consistent(s) && Enabled(s, e)
    ensures Consistent(Step(s, e))
  {
    match e
    case Create(x, d) =>
      forall y | 0 <= y < |s.uses| && s.uses[y].Used? ensures s.uses[y].descriptor != d {
        assert !InUse(s, d);
      }
    case Share(x) =>
    case Release(x, v) =>
    case Collect(c) =>
  }

  lemma {:induction false} RunConsistent(s: Samplers, es: seq<Event>)
    requires Consistent(s) && Legal(s, es)
    ensures Consistent(After(s, es)) && |After(s, es).cells| == |s.cells|
  {
    if es != [] {
      RunConsistent(s, es[..|es| - 1]);
      StepConsistent(After(s, es[..|es| - 1]), es[|es| - 1]);
    }
  }

  lemma AfterAppend(s: Samplers, es: seq<Event>, e: Event)
    ensures After(s, es + [e]) == Step(After(s, es), e)
    ensures Legal(s, es + [e]) <==> Legal(s, es) && Enabled(After(s, es), e)
  {
    assert (es + [e])[..|es|] == es;
  }

  lemma {:induction false} LegalPrefix(s: Samplers, es: seq<Event>, k: nat)
    requires Legal(s, es) && k <= |es|
    ensures Legal(s, es[..k])
  {
    if k < |es| {
      LegalPrefix(s, es[..|es| - 1], k);
      assert es[..|es| - 1][..k] == es[..k];
    } else {
      assert es[..k] == es;
    }
  }

  // ------------------------------------------------------------ No reuse before completion

  ghost predicate CollectedBetween(es: seq<Event>, i: int, k: int, completion: nat) {
    exists j :: 0 <= i < j < k <= |es| && es[j].Collect? && es[j].completed >= completion
  }

  /** Slot x still remembers that it may be in use until `completion`. */
  predicate Guards(s: Samplers, x: nat, completion: nat) {
    && x < |s.cells| == |s.uses|
    && if s.uses[x].Used? then s.uses[x].lastCompletion >= completion
       else s.cells[x].phase.Retiring? && s.cells[x].phase.due >= completion
  }

  lemma {:induction false} ReleaseIsGuarded(s: Samplers, es: seq<Event>, i: nat)
    requires Consistent(s) && Legal(s, es) && i < |es| && es[i].Release?
    ensures CollectedBetween(es, i, |es|, es[i].completion) ||
            Guards(After(s, es), es[i].index, es[i].completion)
  {
    var init, e := es[..|es| - 1], es[|es| - 1];
    RunConsistent(s, init);
    if i < |init| {
      assert init[i] == es[i];
      ReleaseIsGuarded(s, init, i);
      if CollectedBetween(init, i, |init|, es[i].completion) {
        var j :| 0 <= i < j < |init| && init[j].Collect? && init[j].completed >= es[i].completion;
        assert es[j] == init[j];
      } else if e.Collect? && e.completed >= es[i].completion {
        assert CollectedBetween(es, i, |es|, es[i].completion);
      }
    }
  }

  /** A slot is given to a new descriptor only after a collection whose value is at least
      every completion value any earlier release of that slot was made with: across all
      references and all descriptors that ever used the slot. */
  lemma ReuseAfterCompletion(s: Samplers, es: seq<Event>, i: nat, k: nat)
    requires Consistent(s) && Legal(s, es) && i < k < |es|
    requires es[i].Release? && es[k].Create? && es[i].index == es[k].index
    ensures CollectedBetween(es, i, k, es[i].completion)
  {
    var before := es[..k];
    LegalPrefix(s, es, k + 1);
    assert es[..k + 1][..k] == before;
    assert before[i] == es[i];
    RunConsistent(s, before);
    ReleaseIsGuarded(s, before, i);
    var j :| 0 <= i < j < k && before[j].Collect? && before[j].completed >= es[i].completion;
    assert es[j] == before[j];
  }

  /** When collections report only completed values and the GPU's completion value never
      falls, no frame that released a slot is in flight when the slot changes hands. */
  lemma NoReleasingFrameInFlight(s: Samplers, es: seq<Event>, gpu: seq<nat>, i: nat, k: nat)
    requires Consistent(s) && Legal(s, es) && i < k < |es| == |gpu|
    requires es[i].Release? && es[k].Create? && es[i].index == es[k].index
    requires forall j :: 0 <= j < |es| && es[j].Collect? ==> es[j].completed <= gpu[j]
    requires forall a, b :: 0 <= a <= b < |gpu| ==> gpu[a] <= gpu[b]
    ensures es[i].completion <= gpu[k]
  {
    ReuseAfterCompletion(s, es, i, k);
    var j :| 0 <= i < j < k <= |es| && es[j].Collect? && es[j].completed >= es[i].completion;
    assert gpu[j] <= gpu[k];
  }

  // ------------------------------------------------------------ Reference conservation

  function References(uses: seq<Use>): nat {
    if uses == [] then 0
    else References(uses[..|uses| - 1]) + if uses[|uses| - 1].Used? then uses[|uses| - 1].references else 0
  }

  function Held(u: Use): nat {
    if u.Used? then u.references else 0
  }

  lemma {:induction false} ReferencesUpdate(uses: seq<Use>, x: nat, u: Use)
    requires x < |uses|
    ensures References(uses[x := u]) + Held(uses[x]) == References(uses) + Held(u)
  {
    var init := uses[..|uses| - 1];
    if x < |init| {
      assert uses[x := u][..|uses| - 1] == init[x := u];
      ReferencesUpdate(init, x, u);
    } else {
      assert uses[x := u][..|uses| - 1] == init;
    }
  }

  /** Acquiring adds one reference, releasing drops one, collecting none. */
  lemma ReferencesStep(s: Samplers, e: Event)
    requires Consistent(s) && Enabled(s, e)
    ensures References(Step(s, e).uses) ==
            References(s.uses) + if e.Release? then -1 else if e.Collect? then 0 else 1
  {
    if !e.Collect? {
      ReferencesUpdate(s.uses, e.index, Step(s, e).uses[e.index]);
    }
  }

  function Acquisitions(es: seq<Event>): nat {
    if es == [] then 0
    else Acquisitions(es[..|es| - 1]) + if es[|es| - 1].Create? || es[|es| - 1].Share? then 1 else 0
  }

  function Releases(es: seq<Event>): nat {
    if es == [] then 0
    else Releases(es[..|es| - 1]) + if es[|es| - 1].Release? then 1 else 0
  }

  /** Over every legal run from an unused table, acquisitions not yet released are
      exactly the references the slots hold. */
  lemma {:induction false} ReferencesConserved(s: Samplers, es: seq<Event>)
    requires Consistent(s) && References(s.uses) == 0 && Legal(s, es)
    ensures Acquisitions(es) == Releases(es) + References(After(s, es).uses)
  {
    if es != [] {
      var init, e := es[..|es| - 1], es[|es| - 1];
      ReferencesConserved(s, init);
      RunConsistent(s, init);
      ReferencesStep(After(s, init), e);
    }
  }
}

/**
 The Vulkan bindless sampler table: slots shared by descriptor value and reference
 counted; the last release retires the slot at the greatest completion value any
 reference to it was released with.
 */
module BindlessSamplers {
  import opened Wrappers
  import opened BindlessSlots
  import M = SlotMachine
  import S = SamplerRuns

  datatype Entry = Entry(slot: SlotHandle, referenceCount: nat, lastCompletionValue: nat)

  datatype SamplerError = SlotFailure(error: SlotError) | MissingDescriptor | InconsistentReferences | InnerRejection

  /** Entries, the per-slot descriptors and the run's state are three views of one
      bijection between live descriptors and active slots. */
  ghost predicate EntriesMatch(entries: map<S.Descriptor, Entry>, bySlot: seq<Option<S.Descriptor>>, s: S.Samplers,
                               id: nat)
  {
    && S.Consistent(s)
    && |bySlot| == |s.uses|
    && (forall x :: 0 <= x < |s.uses| ==> SlotMatches(bySlot[x], entries, s, id, x))
    && (forall d :: d in entries ==> EntryMatches(entries[d], d, s))
    && |entries| == M.Count(s.cells, M.ActiveKind)
    && (forall x :: 0 <= x < |s.cells| ==> !s.cells[x].phase.Reserved?)
  }

  ghost predicate SlotMatches(descriptor: Option<S.Descriptor>, entries: map<S.Descriptor, Entry>, s: S.Samplers,
                              id: nat, x: nat)
    requires x < |s.uses| == |s.cells|
  {
    match s.uses[x]
    case Unused => descriptor.None?
    case Used(d, references, last) =>
      && descriptor == Some(d)
      && d in entries
      && entries[d] == Entry(SlotHandle(x, M.Generation(s.cells[x].lives), id), references, last)
  }

  ghost predicate EntryMatches(entry: Entry, d: S.Descriptor, s: S.Samplers) {
    && entry.slot.index < |s.uses|
    && s.uses[entry.slot.index].Used?
    && s.uses[entry.slot.index].descriptor == d
  }

  /** The largest total of references over every state the run has gone through. */
  function PeakReferences(s: S.Samplers, es: seq<S.Event>): nat {
    if es == [] then S.References(s.uses)
    else S.Later(PeakReferences(s, es[..|es| - 1]), S.References(S.After(s, es).uses))
  }

  /** It bounds every state of the run, and one of them reaches it. */
  lemma {:induction false} PeakReferencesIsMaximum(s: S.Samplers, es: seq<S.Event>)
    ensures forall k :: 0 <= k <= |es| ==> S.References(S.After(s, es[..k]).uses) <= PeakReferences(s, es)
    ensures exists k :: 0 <= k <= |es| && S.References(S.After(s, es[..k]).uses) == PeakReferences(s, es)
  {
    hide S.References;
    assert es[..|es|] == es;
    if es != [] {
      var init := es[..|es| - 1];
      PeakReferencesIsMaximum(s, init);
      forall k | 0 <= k <= |es| ensures S.References(S.After(s, es[..k]).uses) <= PeakReferences(s, es) {
        assert k < |es| ==> init[..k] == es[..k];
      }
      if k :| 0 <= k <= |init| && S.References(S.After(s, init[..k]).uses) == PeakReferences(s, init) {
        assert init[..k] == es[..k];
      }
    }
  }

  function Hits(es: seq<S.Event>): nat {
    if es == [] then 0 else Hits(es[..|es| - 1]) + if es[|es| - 1].Share? then 1 else 0
  }

  /** The table's fields as one value. */
  datatype Books = Books(
    entries: map<S.Descriptor, Entry>,
    bySlot: seq<Option<S.Descriptor>>,
    current: nat,
    peak: nat,
    hits: nat)

  ghost predicate CountsMatch(b: Books, initial: S.Samplers, run: seq<S.Event>) {
    && b.current == S.References(S.After(initial, run).uses)
    && b.peak == PeakReferences(initial, run)
    && b.hits == Hits(run)
  }

  ghost predicate SamplerInvariant(b: Books, id: nat, s: S.Samplers, initial: S.Samplers, run: seq<S.Event>) {
    && EntriesMatch(b.entries, b.bySlot, s, id)
    && S.Consistent(initial)
    && S.References(initial.uses) == 0
    && S.Legal(initial, run)
    && s == S.After(initial, run)
    && CountsMatch(b, initial, run)
  }

  /** One more reference to a live descriptor. */
  function Shared(b: Books, d: S.Descriptor): Books
    requires d in b.entries
  {
    b.(entries := b.entries[d := b.entries[d].(referenceCount := b.entries[d].referenceCount + 1)],
       current := b.current + 1, peak := S.Later(b.peak, b.current + 1), hits := b.hits + 1)
  }

  /** A descriptor that was not live takes slot h. */
  function Created(b: Books, d: S.Descriptor, h: SlotHandle): Books
    requires h.index < |b.bySlot|
  {
    b.(entries := b.entries[d := Entry(h, 1, 0)], bySlot := b.bySlot[h.index := Some(d)],
       current := b.current + 1, peak := S.Later(b.peak, b.current + 1))
  }

  /** One reference of d is gone; with the last one, so is everything about d. */
  function Dropped(b: Books, d: S.Descriptor, v: nat): Books
    requires d in b.entries && b.entries[d].slot.index < |b.bySlot|
    requires b.entries[d].referenceCount > 0 && b.current > 0
  {
    var e := b.entries[d];
    if e.referenceCount > 1 then
      b.(entries := b.entries[d := e.(referenceCount := e.referenceCount - 1,
                                      lastCompletionValue := S.Later(e.lastCompletionValue, v))],
         current := b.current - 1)
    else
      b.(entries := b.entries - {d}, bySlot := b.bySlot[e.slot.index := None], current := b.current - 1)
  }

  // ------------------------------------------------------------ Steps keep the views together

  lemma ShareKeeps(entries: map<S.Descriptor, Entry>, bySlot: seq<Option<S.Descriptor>>, s: S.Samplers, id: nat,
                   d: S.Descriptor)
    requires EntriesMatch(entries, bySlot, s, id) && d in entries
    ensures var e := entries[d];
            && e.slot.index < |s.cells| == |s.uses| && s.cells[e.slot.index].phase.Active?
            && e.slot == SlotHandle(e.slot.index, M.Generation(s.cells[e.slot.index].lives), id)
            && s.uses[e.slot.index].Used? && S.Enabled(s, S.Share(e.slot.index))
            && EntriesMatch(entries[d := e.(referenceCount := e.referenceCount + 1)], bySlot,
                            S.Step(s, S.Share(e.slot.index)), id)
  {
    assert EntryMatches(entries[d], d, s);
    var x := entries[d].slot.index;
    assert SlotMatches(bySlot[x], entries, s, id, x);
    S.StepConsistent(s, S.Share(x));
    var entries' := entries[d := entries[d].(referenceCount := entries[d].referenceCount + 1)];
    var s' := S.Step(s, S.Share(x));
    forall y | 0 <= y < |s.uses| ensures SlotMatches(bySlot[y], entries', s', id, y) {
      assert SlotMatches(bySlot[y], entries, s, id, y);
    }
    forall d' | d' in entries' ensures EntryMatches(entries'[d'], d', s') {
      assert EntryMatches(entries[d'], d', s);
    }
    assert entries'.Keys == entries.Keys;
    KeysCount(entries', entries);
  }

  lemma KeysCount<K, V>(a: map<K, V>, b: map<K, V>)
    requires a.Keys == b.Keys
    ensures |a| == |b|
  {
    assert |a.Keys| == |a| && |b.Keys| == |b|;
  }

  lemma KeysWithout<K, V>(m: map<K, V>, k: K)
    requires k in m
    ensures |m - {k}| == |m| - 1
  {
    assert (m - {k}).Keys == m.Keys - {k};
    assert |(m - {k}).Keys| == |m - {k}| && |m.Keys| == |m|;
  }

  lemma CreateKeeps(entries: map<S.Descriptor, Entry>, bySlot: seq<Option<S.Descriptor>>, s: S.Samplers, id: nat,
                    d: S.Descriptor, x: nat)
    requires EntriesMatch(entries, bySlot, s, id) && d !in entries
    requires x < |s.cells| && s.cells[x].phase.Free?
    ensures |bySlot| == |s.cells| && S.Enabled(s, S.Create(x, d))
    ensures EntriesMatch(entries[d := Entry(SlotHandle(x, M.Generation(s.cells[x].lives), id), 1, 0)],
                         bySlot[x := Some(d)], S.Step(s, S.Create(x, d)), id)
  {
    var entries' := entries[d := Entry(SlotHandle(x, M.Generation(s.cells[x].lives), id), 1, 0)];
    var bySlot' := bySlot[x := Some(d)];
    var s' := S.Step(s, S.Create(x, d));
    forall y | 0 <= y < |s.uses| && s.uses[y].Used? ensures s.uses[y].descriptor != d {
      assert SlotMatches(bySlot[y], entries, s, id, y);
    }
    S.StepConsistent(s, S.Create(x, d));
    forall y | 0 <= y < |s.uses| ensures SlotMatches(bySlot'[y], entries', s', id, y) {
      assert SlotMatches(bySlot[y], entries, s, id, y);
    }
    forall d' | d' in entries' ensures EntryMatches(entries'[d'], d', s') {
      if d' != d {
        assert EntryMatches(entries[d'], d', s);
      }
    }
    M.CountUpdate(s.cells, x, s.cells[x].(phase := M.Active), M.ActiveKind);
  }

  /** An active slot always has the descriptor and the entry Release looks up. */
  lemma ReleaseFindsEntry(entries: map<S.Descriptor, Entry>, bySlot: seq<Option<S.Descriptor>>, s: S.Samplers, id: nat,
                          x: nat)
    requires EntriesMatch(entries, bySlot, s, id)
    requires x < |s.cells| && (s.cells[x].phase.Active? || s.cells[x].phase.Reserved?)
    ensures x < |bySlot| == |s.uses| && s.uses[x].Used? && bySlot[x] == Some(s.uses[x].descriptor)
    ensures s.cells[x].phase.Active? && S.Consistent(s)
    ensures var d := s.uses[x].descriptor;
            && d in entries && entries[d].referenceCount == s.uses[x].references > 0
            && entries[d].lastCompletionValue == s.uses[x].lastCompletion
            && entries[d].slot == SlotHandle(x, M.Generation(s.cells[x].lives), id)
  {
    assert SlotMatches(bySlot[x], entries, s, id, x);
  }

  lemma DropReferenceKeeps(entries: map<S.Descriptor, Entry>, bySlot: seq<Option<S.Descriptor>>, s: S.Samplers,
                           id: nat, x: nat, v: nat)
    requires EntriesMatch(entries, bySlot, s, id)
    requires x < |s.uses| && s.uses[x].Used? && s.uses[x].references > 1
    ensures var u := s.uses[x];
            && u.descriptor in entries
            && EntriesMatch(
                 entries[u.descriptor := entries[u.descriptor].(referenceCount := u.references - 1,
                                                                lastCompletionValue := S.Later(u.lastCompletion, v))],
                 bySlot, S.Step(s, S.Release(x, v)), id)
  {
    assert SlotMatches(bySlot[x], entries, s, id, x);
    var u := s.uses[x];
    var d := u.descriptor;
    var entries' := entries[d := entries[d].(referenceCount := u.references - 1,
                                             lastCompletionValue := S.Later(u.lastCompletion, v))];
    var s' := S.Step(s, S.Release(x, v));
    S.StepConsistent(s, S.Release(x, v));
    forall y | 0 <= y < |s.uses| ensures SlotMatches(bySlot[y], entries', s', id, y) {
      assert SlotMatches(bySlot[y], entries, s, id, y);
    }
    forall d' | d' in entries' ensures EntryMatches(entries'[d'], d', s') {
      assert EntryMatches(entries[d'], d', s);
    }
    assert entries'.Keys == entries.Keys;
    KeysCount(entries', entries);
  }

  lemma LastReferenceKeeps(entries: map<S.Descriptor, Entry>, bySlot: seq<Option<S.Descriptor>>, s: S.Samplers,
                           id: nat, x: nat, v: nat)
    requires EntriesMatch(entries, bySlot, s, id)
    requires x < |s.uses| && s.uses[x].Used? && s.uses[x].references == 1
    ensures x < |bySlot| == |s.cells|
    ensures EntriesMatch(entries - {s.uses[x].descriptor}, bySlot[x := None], S.Step(s, S.Release(x, v)), id)
  {
    hide S.Consistent, SlotMatches, EntryMatches;
    LastReferenceElsewhere(entries, bySlot, s, id, x, v);
    var d := s.uses[x].descriptor;
    var s' := S.Step(s, S.Release(x, v));
    S.StepConsistent(s, S.Release(x, v));
    KeysWithout(entries, d);
    M.CountUpdate(s.cells, x, s'.cells[x], M.ActiveKind);
  }

  lemma LastReferenceElsewhere(entries: map<S.Descriptor, Entry>, bySlot: seq<Option<S.Descriptor>>, s: S.Samplers,
                               id: nat, x: nat, v: nat)
    requires EntriesMatch(entries, bySlot, s, id)
    requires x < |s.uses| && s.uses[x].Used? && s.uses[x].references == 1
    ensures |bySlot| == |s.uses| == |s.cells| && s.cells[x].phase.Active? && s.uses[x].descriptor in entries
    ensures var entries', bySlot', s' := entries - {s.uses[x].descriptor}, bySlot[x := None],
            S.Step(s, S.Release(x, v));
            && (forall y :: 0 <= y < |s.uses| ==> SlotMatches(bySlot'[y], entries', s', id, y))
            && (forall d :: d in entries' ==> EntryMatches(entries'[d], d, s'))
  {
    var entries', bySlot', s' := entries - {s.uses[x].descriptor}, bySlot[x := None], S.Step(s, S.Release(x, v));
    assert SlotMatches(bySlot[x], entries, s, id, x);
    forall y | 0 <= y < |s.uses| ensures SlotMatches(bySlot'[y], entries', s', id, y) {
      assert SlotMatches(bySlot[y], entries, s, id, y);
    }
    forall d | d in entries' ensures EntryMatches(entries'[d], d, s') {
      assert EntryMatches(entries[d], d, s);
    }
  }

  lemma CollectKeeps(entries: map<S.Descriptor, Entry>, bySlot: seq<Option<S.Descriptor>>, s: S.Samplers, id: nat,
                     completed: nat)
    requires EntriesMatch(entries, bySlot, s, id)
    ensures EntriesMatch(entries, bySlot, S.Step(s, S.Collect(completed)), id)
  {
    var s' := S.Step(s, S.Collect(completed));
    S.StepConsistent(s, S.Collect(completed));
    M.CollectConserves(s.cells, completed);
    forall y | 0 <= y < |s.uses| ensures SlotMatches(bySlot[y], entries, s', id, y) {
      assert SlotMatches(bySlot[y], entries, s, id, y);
    }
    forall d | d in entries ensures EntryMatches(entries[d], d, s') {
      assert EntryMatches(entries[d], d, s);
    }
  }

  lemma CountsAfter(b: Books, b': Books, initial: S.Samplers, run: seq<S.Event>, e: S.Event)
    requires CountsMatch(b, initial, run)
    requires S.Consistent(initial) && S.Legal(initial, run) && S.Enabled(S.After(initial, run), e)
    requires b'.current == b.current + (if e.Release? then -1 else if e.Collect? then 0 else 1)
    requires b'.peak == S.Later(b.peak, b'.current) && b'.hits == b.hits + if e.Share? then 1 else 0
    ensures CountsMatch(b', initial, run + [e])
    ensures S.After(initial, run + [e]) == S.Step(S.After(initial, run), e) && S.Legal(initial, run + [e])
  {
    hide S.Consistent, S.References, S.Step, S.Enabled;
    S.RunConsistent(initial, run);
    S.AfterAppend(initial, run, e);
    S.ReferencesStep(S.After(initial, run), e);
    assert (run + [e])[..|run|] == run;
  }

  lemma PeakCoversNow(initial: S.Samplers, run: seq<S.Event>)
    ensures S.References(S.After(initial, run).uses) <= PeakReferences(initial, run)
  {
  }

  // ------------------------------------------------------------ One lemma per operation

  lemma ShareStep(b: Books, id: nat, s: S.Samplers, initial: S.Samplers, run: seq<S.Event>, d: S.Descriptor)
    requires SamplerInvariant(b, id, s, initial, run) && d in b.entries
    ensures var x := b.entries[d].slot.index;
            && x < |s.cells| == |s.uses| && s.cells[x].phase.Active?
            && b.entries[d].slot == SlotHandle(x, M.Generation(s.cells[x].lives), id)
            && S.Step(s, S.Share(x)).cells == s.cells
            && SamplerInvariant(Shared(b, d), id, S.Step(s, S.Share(x)), initial, run + [S.Share(x)])
  {
    hide EntriesMatch, CountsMatch, S.Legal, S.After, S.References;
    ShareKeeps(b.entries, b.bySlot, s, id, d);
    CountsAfter(b, Shared(b, d), initial, run, S.Share(b.entries[d].slot.index));
  }

  lemma CreateStep(b: Books, id: nat, s: S.Samplers, initial: S.Samplers, run: seq<S.Event>, d: S.Descriptor, x: nat)
    requires SamplerInvariant(b, id, s, initial, run) && d !in b.entries
    requires x < |s.cells| && s.cells[x].phase.Free?
    ensures |b.bySlot| == |s.cells|
    ensures var h := SlotHandle(x, M.Generation(s.cells[x].lives), id);
            && S.Step(s, S.Create(x, d)).cells == s.cells[x := s.cells[x].(phase := M.Active)]
            && SamplerInvariant(Created(b, d, h), id, S.Step(s, S.Create(x, d)), initial, run + [S.Create(x, d)])
  {
    hide EntriesMatch;
    CreateKeeps(b.entries, b.bySlot, s, id, d, x);
    CountsAfter(b, Created(b, d, SlotHandle(x, M.Generation(s.cells[x].lives), id)), initial, run, S.Create(x, d));
  }

  /** What Release finds for an active handle, and what dropping that reference keeps. */
  lemma ReleaseStep(b: Books, id: nat, s: S.Samplers, initial: S.Samplers, run: seq<S.Event>, h: SlotHandle, v: nat)
    requires SamplerInvariant(b, id, s, initial, run) && h.index < |s.cells|
    requires h == SlotHandle(h.index, M.Generation(s.cells[h.index].lives), id)
    requires s.cells[h.index].phase.Active? || s.cells[h.index].phase.Reserved?
    ensures h.index < |b.bySlot| && s.cells[h.index].phase.Active?
    ensures b.bySlot[h.index].Some? && b.bySlot[h.index].value in b.entries
    ensures var d := b.bySlot[h.index].value;
            var e := b.entries[d];
            && e.slot == h && e.referenceCount > 0 && b.current > 0
            && S.Step(s, S.Release(h.index, v)).cells ==
                 (if e.referenceCount > 1 then s.cells
                  else s.cells[h.index := s.cells[h.index].(phase := M.Retiring(S.Later(e.lastCompletionValue, v)))])
            && SamplerInvariant(Dropped(b, d, v), id, S.Step(s, S.Release(h.index, v)), initial,
                                run + [S.Release(h.index, v)])
  {
    hide EntriesMatch;
    ReleaseFindsEntry(b.entries, b.bySlot, s, id, h.index);
    S.ReferencesStep(s, S.Release(h.index, v));
    var d := s.uses[h.index].descriptor;
    if s.uses[h.index].references > 1 {
      DropReferenceKeeps(b.entries, b.bySlot, s, id, h.index, v);
    } else {
      LastReferenceKeeps(b.entries, b.bySlot, s, id, h.index, v);
    }
    PeakCoversNow(initial, run);
    CountsAfter(b, Dropped(b, d, v), initial, run, S.Release(h.index, v));
  }

  lemma CollectStep(b: Books, id: nat, s: S.Samplers, initial: S.Samplers, run: seq<S.Event>, completed: nat)
    requires SamplerInvariant(b, id, s, initial, run)
    ensures SamplerInvariant(b, id, S.Step(s, S.Collect(completed)), initial, run + [S.Collect(completed)])
  {
    CollectKeeps(b.entries, b.bySlot, s, id, completed);
    PeakCoversNow(initial, run);
    CountsAfter(b, b, initial, run, S.Collect(completed));
  }

  /** Distinct live descriptors never share a slot, and every active slot has one. */
  lemma EntriesDisjoint(b: Books, id: nat, s: S.Samplers, initial: S.Samplers, run: seq<S.Event>)
    requires SamplerInvariant(b, id, s, initial, run)
    ensures |b.entries| == M.Count(s.cells, M.ActiveKind)
    ensures forall d, d' :: d in b.entries && d' in b.entries && d != d' ==>
              b.entries[d].slot.index != b.entries[d'].slot.index
  {
    forall d, d' | d in b.entries && d' in b.entries && d != d'
      ensures b.entries[d].slot.index != b.entries[d'].slot.index
    {
      assert EntryMatches(b.entries[d'], d', s) && EntryMatches(b.entries[d], d, s);
    }
  }

  // ------------------------------------------------------------ The table

  class BindlessSamplerTable {
    const slots: BindlessSlotAllocator
    var entries: map<S.Descriptor, Entry>
    var descriptorsBySlot: seq<Option<S.Descriptor>>
    var currentReferenceCount: nat
    var peakReferenceCount: nat
    var deduplicationHitCount: nat

    ghost const initial: S.Samplers
    ghost var run: seq<S.Event>
    ghost var samplers: S.Samplers

    ghost predicate Valid()
      reads this, slots
    {
      && slots.Valid()
      && slots.machine == samplers.cells
      && SamplerInvariant(CurrentBooks(), slots.tableId, samplers, initial, run)
    }

    ghost function CurrentBooks(): Books
      reads this
    {
      Books(entries, descriptorsBySlot, currentReferenceCount, peakReferenceCount, deduplicationHitCount)
    }

    constructor (tableId: nat, capacity: nat)
      requires tableId != 0 && capacity <= INVALID_SLOT_INDEX
      ensures Valid() && fresh(slots) && run == [] && entries == map[]
      ensures |descriptorsBySlot| == |slots.machine| == capacity
    {
      var table := new BindlessSlotAllocator(tableId, capacity, 0);
      slots := table;
      entries := map[];
      descriptorsBySlot := seq(capacity, _ => None);
      currentReferenceCount, peakReferenceCount, deduplicationHitCount := 0, 0, 0;
      run := [];
      initial := S.Samplers(table.machine, seq(capacity, _ => S.Unused));
      samplers := S.Samplers(table.machine, seq(capacity, _ => S.Unused));
      new;
      FreshSamplers(samplers);
    }

    /** One more reference is counted; the peak is the larger of the former one and the new count. */
    predicate Referenced(before: nat, peak: nat)
      reads this
    {
      && currentReferenceCount == before + 1
      && peakReferenceCount >= peak && peakReferenceCount >= currentReferenceCount
      && (peakReferenceCount == peak || peakReferenceCount == currentReferenceCount)
    }

    /** Equal descriptors share one slot while any of them is live; a new descriptor takes
        a free slot, and only then can the table be exhausted. */
    method Acquire(descriptor: S.Descriptor) returns (r: Result<SlotHandle, SamplerError>)
      requires Valid()
      modifies this, slots
      ensures Valid()
      ensures r.Err? <==> descriptor !in old(entries) && old(slots.freeSlots) == []
      ensures r.Err? ==>
        && r == Err(SlotFailure(Exhausted))
        && CurrentBooks() == old(CurrentBooks()) && run == old(run) && samplers == old(samplers)
      ensures r.Ok? ==> Referenced(old(currentReferenceCount), old(peakReferenceCount))
      ensures descriptor in old(entries) ==>
        && r == Ok(old(entries)[descriptor].slot)
        && entries == old(entries)[descriptor := Entry(r.value, old(entries)[descriptor].referenceCount + 1,
                                                       old(entries)[descriptor].lastCompletionValue)]
        && descriptorsBySlot == old(descriptorsBySlot) && deduplicationHitCount == old(deduplicationHitCount) + 1
        && slots.slots == old(slots.slots) && slots.freeSlots == old(slots.freeSlots)
        && slots.retirements == old(slots.retirements)
        && CurrentBooks() == Shared(old(CurrentBooks()), descriptor)
        && run == old(run) + [S.Share(r.value.index)]
        && samplers == S.Step(old(samplers), S.Share(r.value.index))
      ensures descriptor !in old(entries) && r.Ok? ==>
        && entries == old(entries)[descriptor := Entry(r.value, 1, 0)]
        && r.value.index < |old(descriptorsBySlot)|
        && descriptorsBySlot == old(descriptorsBySlot)[r.value.index := Some(descriptor)]
        && deduplicationHitCount == old(deduplicationHitCount)
        && slots.freeSlots + [r.value.index] == old(slots.freeSlots)
      ensures descriptor !in old(entries) && r.Ok? ==>
        && r.value.index < |old(descriptorsBySlot)| == |old(samplers).cells|
        && old(samplers).cells[r.value.index].phase.Free?
        && CurrentBooks() == Created(old(CurrentBooks()), descriptor, r.value)
        && run == old(run) + [S.Create(r.value.index, descriptor)]
        && samplers == S.Step(old(samplers), S.Create(r.value.index, descriptor))
    {
      hide SamplerInvariant, TableInvariant;
      if descriptor in entries {
        r := AcquireShared(descriptor);
      } else {
        r := AcquireNew(descriptor);
      }
    }

    method AcquireShared(descriptor: S.Descriptor) returns (r: Result<SlotHandle, SamplerError>)
      requires Valid() && descriptor in entries
      modifies this, slots`telemetry
      ensures Valid()
      ensures Referenced(old(currentReferenceCount), old(peakReferenceCount))
      ensures r == Ok(old(entries)[descriptor].slot)
      ensures entries == old(entries)[descriptor := Entry(r.value, old(entries)[descriptor].referenceCount + 1,
                                                       old(entries)[descriptor].lastCompletionValue)]
      ensures descriptorsBySlot == old(descriptorsBySlot) && deduplicationHitCount == old(deduplicationHitCount) + 1
      ensures slots.slots == old(slots.slots) && slots.freeSlots == old(slots.freeSlots)
      ensures slots.retirements == old(slots.retirements)
      ensures CurrentBooks() == Shared(old(CurrentBooks()), descriptor)
      ensures run == old(run) + [S.Share(r.value.index)]
      ensures samplers == S.Step(old(samplers), S.Share(r.value.index))
    {
      hide SamplerInvariant, TableInvariant;
      var existing := entries[descriptor];
      ShareStep(CurrentBooks(), slots.tableId, samplers, initial, run, descriptor);
      ActiveHandle(slots, existing.slot);
      var error := slots.RequireActive(existing.slot);
      if error.Some? {
        return Err(InnerRejection);
      }
      entries := entries[descriptor := existing.(referenceCount := existing.referenceCount + 1)];
      currentReferenceCount := currentReferenceCount + 1;
      peakReferenceCount := S.Later(peakReferenceCount, currentReferenceCount);
      deduplicationHitCount := deduplicationHitCount + 1;
      run := run + [S.Share(existing.slot.index)];
      samplers := S.Step(samplers, S.Share(existing.slot.index));
      return Ok(existing.slot);
    }

    method AcquireNew(descriptor: S.Descriptor) returns (r: Result<SlotHandle, SamplerError>)
      requires Valid() && descriptor !in entries
      modifies this, slots
      ensures Valid()
      ensures r.Err? <==> old(slots.freeSlots) == []
      ensures r.Err? ==>
        && r == Err(SlotFailure(Exhausted))
        && CurrentBooks() == old(CurrentBooks()) && run == old(run) && samplers == old(samplers)
      ensures r.Ok? ==>
        && Referenced(old(currentReferenceCount), old(peakReferenceCount))
        && slots.freeSlots + [r.value.index] == old(slots.freeSlots)
      ensures r.Ok? ==>
        && r.value.index < |old(descriptorsBySlot)| == |old(samplers).cells|
        && old(samplers).cells[r.value.index].phase.Free?
        && CurrentBooks() == Created(old(CurrentBooks()), descriptor, r.value)
        && run == old(run) + [S.Create(r.value.index, descriptor)]
        && samplers == S.Step(old(samplers), S.Create(r.value.index, descriptor))
    {
      hide SamplerInvariant, TableInvariant;
      var grant := slots.Allocate();
      if grant.Err? {
        return Err(SlotFailure(grant.error));
      }
      var slot := grant.value;
      CreateStep(CurrentBooks(), slots.tableId, samplers, initial, run, descriptor, slot.index);
      entries := entries[descriptor := Entry(slot, 1, 0)];
      descriptorsBySlot := descriptorsBySlot[slot.index := Some(descriptor)];
      currentReferenceCount := currentReferenceCount + 1;
      peakReferenceCount := S.Later(peakReferenceCount, currentReferenceCount);
      run := run + [S.Create(slot.index, descriptor)];
      samplers := S.Step(samplers, S.Create(slot.index, descriptor));
      return Ok(slot);
    }

    /** Succeeds exactly on active handles; the two internal-inconsistency errors and a
        rejection by the slot allocator underneath cannot happen. */
    method Release(slot: SlotHandle, lastCompletionValue: nat) returns (error: Option<SamplerError>)
      requires Valid()
      modifies this, slots
      ensures Valid()
      ensures error.None? <==> old(slots.IsActive(slot))
      ensures error.Some? ==>
        && error.value.SlotFailure? && error.value.error != ReservedSlotError
        && CurrentBooks() == old(CurrentBooks()) && run == old(run) && samplers == old(samplers)
      ensures error.None? ==>
        && slot.index < |old(descriptorsBySlot)| && old(descriptorsBySlot)[slot.index].Some?
        && var d := old(descriptorsBySlot)[slot.index].value;
           && d in old(entries)
           && var e := old(entries)[d];
              var last := if e.lastCompletionValue < lastCompletionValue then lastCompletionValue
                          else e.lastCompletionValue;
           && e.slot == slot && e.referenceCount > 0 && currentReferenceCount == old(currentReferenceCount) - 1
           && peakReferenceCount == old(peakReferenceCount)
           && (e.referenceCount > 1 ==>
                 && entries == old(entries)[d := Entry(slot, e.referenceCount - 1, last)]
                 && descriptorsBySlot == old(descriptorsBySlot)
                 && slots.slots == old(slots.slots) && slots.retirements == old(slots.retirements))
           && (e.referenceCount == 1 ==>
                 && entries == old(entries) - {d} && descriptorsBySlot == old(descriptorsBySlot)[slot.index := None]
                 && slots.retirements == old(slots.retirements) + [Retirement(slot, last)])
      ensures error.None? ==>
        && slot.index < |old(descriptorsBySlot)| && old(descriptorsBySlot)[slot.index].Some?
        && var d := old(descriptorsBySlot)[slot.index].value;
           && d in old(entries) && old(entries)[d].slot == slot
           && old(entries)[d].referenceCount > 0 && old(currentReferenceCount) > 0
           && CurrentBooks() == Dropped(old(CurrentBooks()), d, lastCompletionValue)
           && run == old(run) + [S.Release(slot.index, lastCompletionValue)]
           && samplers == S.Step(old(samplers), S.Release(slot.index, lastCompletionValue))
    {
      hide SamplerInvariant;
      hide TableInvariant;
      var rejected := slots.RequireActive(slot);
      if rejected.Some? {
        return Some(SlotFailure(rejected.value));
      }
      ActiveIsUsed(slots, slot);
      ReleaseStep(CurrentBooks(), slots.tableId, samplers, initial, run, slot, lastCompletionValue);
      var descriptor := descriptorsBySlot[slot.index];
      if descriptor.None? {
        return Some(MissingDescriptor);
      }
      if descriptor.value !in entries || entries[descriptor.value].slot != slot ||
         entries[descriptor.value].referenceCount == 0 {
        return Some(InconsistentReferences);
      }
      var entry := entries[descriptor.value];
      entry := entry.(lastCompletionValue := S.Later(entry.lastCompletionValue, lastCompletionValue));
      entry := entry.(referenceCount := entry.referenceCount - 1);
      currentReferenceCount := currentReferenceCount - 1;
      run := run + [S.Release(slot.index, lastCompletionValue)];
      samplers := S.Step(samplers, S.Release(slot.index, lastCompletionValue));
      if entry.referenceCount != 0 {
        entries := entries[descriptor.value := entry];
        return None;
      }
      descriptorsBySlot := descriptorsBySlot[slot.index := None];
      entries := entries - {descriptor.value};
      var inner := slots.Retire(slot, entry.lastCompletionValue);
      if inner.Some? {
        return Some(InnerRejection);
      }
      return None;
    }

    method Collect(completedValue: nat) returns (collected: seq<SlotHandle>)
      requires Valid()
      modifies this, slots
      ensures Valid()
      ensures CurrentBooks() == old(CurrentBooks())
      ensures run == old(run) + [S.Collect(completedValue)]
      ensures samplers == S.Step(old(samplers), S.Collect(completedValue))
      ensures Collects(old(slots.Snapshot()), old(slots.machine), completedValue, slots.Snapshot(), slots.machine,
                       collected)
      ensures DueCollected(old(slots.Snapshot()), completedValue, slots.Snapshot(), collected)
    {
      hide SamplerInvariant, DueCollected;
      hide TableInvariant;
      CollectStep(CurrentBooks(), slots.tableId, samplers, initial, run, completedValue);
      collected := slots.Collect(completedValue);
      run := run + [S.Collect(completedValue)];
      samplers := S.Step(samplers, S.Collect(completedValue));
    }
  }

  /** The handle of an active cell is one the allocator accepts. */
  lemma ActiveHandle(slots: BindlessSlotAllocator, h: SlotHandle)
    requires slots.Valid() && h.index < |slots.machine| && slots.machine[h.index].phase.Active?
    requires h == SlotHandle(h.index, M.Generation(slots.machine[h.index].lives), slots.tableId)
    ensures slots.IsActive(h)
  {
  }

  lemma ActiveIsUsed(slots: BindlessSlotAllocator, h: SlotHandle)
    requires slots.Valid() && slots.IsActive(h)
    ensures h.index < |slots.machine| == |slots.slots|
    ensures h == SlotHandle(h.index, M.Generation(slots.machine[h.index].lives), slots.tableId)
    ensures slots.machine[h.index].phase.Active? || slots.machine[h.index].phase.Reserved?
    ensures slots.slots[h.index].state.Active? <==> slots.machine[h.index].phase.Active?
  {
  }

  lemma {:induction false} FreshSamplers(s: S.Samplers)
    requires |s.uses| == |s.cells| && (forall x :: 0 <= x < |s.uses| ==> s.uses[x].Unused?)
    requires forall x :: 0 <= x < |s.cells| ==> s.cells[x] == M.Cell(0, M.Free)
    ensures S.Consistent(s) && S.References(s.uses) == 0 && M.Count(s.cells, M.ActiveKind) == 0
    decreases |s.uses|
  {
    if s.uses != [] {
      FreshSamplers(S.Samplers(s.cells[..|s.cells| - 1], s.uses[..|s.uses| - 1]));
    }
  }
}
