/**
 The adapter's bridge to the host's Hgi: which host textures it owns, and which copies into
 them are under way.
 */
module HgiTargets {
  import opened Wrappers

  type Target = nat
  type Lease = nat

  /** One Hgi of the host; whether it speaks Vulkan never changes. */
  datatype Hgi = Hgi(id: nat, isVulkan: bool)

  datatype Fallback =
    | NoFallback | BridgeDisabled | MissingRenderDriver | NonVulkanRenderDriver | UnsupportedOpenUsd
    | GpuCopyUnavailable | DriverSwapRejected | InvalidTarget | TargetCreationFailed | TargetUploadFailed
    | NativeContextUnavailable | SourceMismatch | GpuCopyFailed

  datatype Status = Status(hgiOwnedTargets: bool, gpuCopy: bool, fallback: Fallback)

  datatype Telemetry = Telemetry(
    generation: nat, creations: nat, recreations: nat, retirements: nat, orphans: nat,
    copies: nat, completions: nat, pending: nat)

  /** A host driver: not a render driver, or one holding an Hgi that may be null. */
  datatype Driver = OtherDriver | RenderDriver(hgi: Option<Hgi>)

  /** A submitted copy that has not completed. */
  datatype PendingCopy = PendingCopy(serial: nat, target: Target, lease: Lease)

  /** The unsigned difference, or 0. */
  function Difference(a: nat, b: nat): nat {
    if a > b then a - b else 0
  }

  function Maximum(a: nat, b: nat): nat {
    if a < b then b else a
  }

  function EvaluateSupport(enabled: bool, validated: bool, hasDriver: bool, isVulkan: bool): Status {
    if !enabled then Status(false, false, BridgeDisabled)
    else if !validated then Status(false, false, UnsupportedOpenUsd)
    else if !hasDriver then Status(false, false, MissingRenderDriver)
    else if !isVulkan then Status(false, false, NonVulkanRenderDriver)
    else Status(true, false, GpuCopyUnavailable)
  }

  /** The Hgi of the first render driver. */
  function Discovered(drivers: seq<Driver>): Option<Hgi> {
    if drivers == [] then None
    else if drivers[0].RenderDriver? then drivers[0].hgi
    else Discovered(drivers[1..])
  }

  /** Whether the driver at position k is the first render driver. */
  predicate FirstRender(drivers: seq<Driver>, k: int) {
    0 <= k < |drivers| && drivers[k].RenderDriver? && forall j :: 0 <= j < k ==> drivers[j].OtherDriver?
  }

  lemma {:induction false} DiscoversFirst(drivers: seq<Driver>)
    ensures forall k :: FirstRender(drivers, k) ==> Discovered(drivers) == drivers[k].hgi
    ensures (forall k :: 0 <= k < |drivers| ==> drivers[k].OtherDriver?) ==> Discovered(drivers).None?
  {
    if drivers != [] && drivers[0].OtherDriver? {
      DiscoversFirst(drivers[1..]);
      assert forall k :: FirstRender(drivers, k) ==> FirstRender(drivers[1..], k - 1);
    }
  }

  // ------------------------------------------------------------ Copies as values

  /** Copies in submission order: serials grow, and what is not pending has completed. */
  ghost predicate CopiesSound(submitted: map<nat, Target>, pending: seq<PendingCopy>, next: nat, completed: nat,
                              released: set<Lease>)
  {
    && completed <= next
    && (forall s :: s in submitted ==> 0 < s <= next)
    && (forall k :: 0 <= k < |pending| ==>
          && completed < pending[k].serial && pending[k].serial in submitted
          && submitted[pending[k].serial] == pending[k].target && pending[k].lease !in released)
    && (forall j, k :: 0 <= j < k < |pending| ==>
          pending[j].serial < pending[k].serial && pending[j].lease != pending[k].lease)
    && (forall s :: s in submitted && completed < s ==> IsPending(pending, s))
  }

  ghost predicate IsPending(pending: seq<PendingCopy>, serial: nat) {
    exists k :: 0 <= k < |pending| && pending[k].serial == serial
  }

  lemma PendingRest(pending: seq<PendingCopy>, serial: nat)
    requires pending != [] && IsPending(pending, serial) && pending[0].serial != serial
    ensures IsPending(pending[1..], serial)
  {
    var k :| 0 <= k < |pending| && pending[k].serial == serial;
    assert pending[1..][k - 1].serial == serial;
  }

  lemma CopySubmitted(submitted: map<nat, Target>, pending: seq<PendingCopy>, next: nat, completed: nat,
                      released: set<Lease>, target: Target, lease: Lease)
    requires CopiesSound(submitted, pending, next, completed, released) && lease !in released
    requires forall k :: 0 <= k < |pending| ==> pending[k].lease != lease
    ensures CopiesSound(submitted[next + 1 := target], pending + [PendingCopy(next + 1, target, lease)], next + 1,
                        completed, released)
  {
    var pending' := pending + [PendingCopy(next + 1, target, lease)];
    var submitted' := submitted[next + 1 := target];
    forall s | s in submitted' && completed < s ensures IsPending(pending', s) {
      if s == next + 1 {
        assert pending'[|pending|].serial == s;
      } else {
        var k :| 0 <= k < |pending| && pending[k].serial == s;
        assert pending'[k].serial == s;
      }
    }
  }

  lemma CopyCompletes(submitted: map<nat, Target>, pending: seq<PendingCopy>, next: nat, completed: nat,
                      released: set<Lease>)
    requires CopiesSound(submitted, pending, next, completed, released) && pending != []
    ensures completed < pending[0].serial
    ensures CopiesSound(submitted, pending[1..], next, pending[0].serial, released + {pending[0].lease})
  {
    forall s | s in submitted && pending[0].serial < s ensures IsPending(pending[1..], s) {
      PendingRest(pending, s);
    }
    hide IsPending;
  }

  /** Under in-order completion the comparison of serials says exactly that the copy is done. */
  lemma CompletionIsExact(submitted: map<nat, Target>, pending: seq<PendingCopy>, next: nat, completed: nat,
                          released: set<Lease>, s: nat)
    requires CopiesSound(submitted, pending, next, completed, released) && s in submitted
    ensures completed >= s <==> forall k :: 0 <= k < |pending| ==> pending[k].serial != s
  {
  }

  // ------------------------------------------------------------ The bridge

  class HgiVulkanBridge {
    const enabled: bool
    const validatedOpenUsd: bool
    var hgi: Option<Hgi>
    var outstandingTargets: nat
    var nextCopySerial: nat
    var completedCopySerial: nat
    var status: Status
    var telemetry: Telemetry
    // The Hgi that created each target not yet retired.
    ghost var live: map<Target, Hgi>
    ghost var submitted: map<nat, Target>
    ghost var pending: seq<PendingCopy>
    ghost var released: set<Lease>

    /** Every live target was created by the current Hgi, and the counters say how many there are. */
    ghost predicate TargetsSound()
      reads this
    {
      && |live| == outstandingTargets
      && telemetry.creations == telemetry.retirements + outstandingTargets
      && telemetry.orphans == 0 && telemetry.generation == telemetry.creations
      && (forall t :: t in live ==> hgi == Some(live[t]) && live[t].isVulkan)
      && (status.hgiOwnedTargets ==> hgi.Some?) && (status.gpuCopy ==> status.hgiOwnedTargets)
      && (hgi.Some? ==> enabled && validatedOpenUsd && hgi.value.isVulkan)
    }

    ghost predicate Valid()
      reads this
    {
      && TargetsSound()
      && CopiesSound(submitted, pending, nextCopySerial, completedCopySerial, released)
      && telemetry.copies == telemetry.completions + |pending| && telemetry.pending == |pending|
    }

    /** Nothing another buffer relies on has changed, except for target `mine`. */
    ghost predicate Undisturbed(live0: map<Target, Hgi>, submitted0: map<nat, Target>, completed0: nat,
                                mine: Option<Target>)
      reads this
    {
      && (forall t :: t in live0 && Some(t) != mine ==> t in live && live[t] == live0[t])
      && (forall s :: s in submitted0 ==> s in submitted && submitted[s] == submitted0[s])
      && completed0 <= completedCopySerial
    }

    /** Every live target was live before, unless it took the place of `mine0`. */
    ghost predicate LiveWithin(live0: map<Target, Hgi>, mine0: Option<Target>, mine: Option<Target>)
      reads this
    {
      forall t :: t in live ==> (t in live0 && Some(t) != mine0) || Some(t) == mine
    }

    /** A new copy, or the loss of one target, leaves everything else alone. */
    lemma MineOnly(live0: map<Target, Hgi>, submitted0: map<nat, Target>, completed0: nat, mine0: Option<Target>,
                   mine: Option<Target>, serial: nat)
      requires (live == live0 && mine == mine0) ||
               (mine0.Some? && live == live0 - {mine0.value} && mine.None?)
      requires submitted == submitted0 ||
               (serial !in submitted0 && serial in submitted && submitted == submitted0[serial := submitted[serial]])
      requires completed0 <= completedCopySerial
      ensures Undisturbed(live0, submitted0, completed0, mine0) && LiveWithin(live0, mine0, mine)
    {
    }

    ghost predicate LeasesBelow(n: nat)
      reads this`released, this`pending
    {
      (forall l :: l in released ==> l < n) && (forall k :: 0 <= k < |pending| ==> pending[k].lease < n)
    }

    constructor (enable: bool, validated: bool)
      ensures Valid() && live == map[] && LeasesBelow(0) && fresh(this)
    {
      enabled, validatedOpenUsd := enable, validated;
      hgi := None;
      outstandingTargets, nextCopySerial, completedCopySerial := 0, 0, 0;
      status := EvaluateSupport(enable, validated, false, false);
      telemetry := Telemetry(0, 0, 0, 0, 0, 0, 0, 0);
      live, submitted, pending, released := map[], map[], [], {};
    }

    method SetOperationalFallback(reason: Fallback)
      modifies this`status
      ensures status == Status(false, false, reason)
    {
      status := Status(false, false, reason);
    }

    /** The loop over the host's drivers. */
    method Discover(drivers: seq<Driver>) returns (discovered: Option<Hgi>)
      ensures discovered == Discovered(drivers)
    {
      discovered := None;
      assert drivers[0..] == drivers;
      var i, found := 0, false;
      while i < |drivers| && !found
        invariant 0 <= i <= |drivers|
        invariant Discovered(drivers) == if found then discovered else Discovered(drivers[i..])
        invariant found || discovered.None?
        decreases |drivers| - i, !found
      {
        assert drivers[i..][1..] == drivers[i + 1..];
        if drivers[i].RenderDriver? {
          discovered := drivers[i].hgi;
          found := true;
        } else {
          i := i + 1;
        }
      }
    }

    /** A swap away from an Hgi with live targets is refused; a refused or failed declaration
        keeps the Hgi that has to retire them. */
    method SetDrivers(drivers: seq<Driver>, contextAvailable: bool)
      requires Valid()
      modifies this`hgi, this`status
      ensures Valid()
      ensures Discovered(drivers) != old(hgi) && live != map[] ==>
                hgi == old(hgi) && status == Status(false, false, DriverSwapRejected)
      ensures live != map[] ==> hgi == old(hgi)
      ensures Discovered(drivers) == old(hgi) || live == map[] ==>
                var d := Discovered(drivers);
                var s := EvaluateSupport(enabled, validatedOpenUsd, d.Some?, d.Some? && d.value.isVulkan);
                && hgi == (if s.hgiOwnedTargets then d else None)
                && status == (if !s.hgiOwnedTargets then s
                              else if contextAvailable then Status(true, true, NoFallback)
                              else Status(false, false, NativeContextUnavailable))
      ensures Discovered(drivers) == old(hgi) || live == map[] ==>
                var d := Discovered(drivers);
                && (hgi.Some? <==> enabled && validatedOpenUsd && d.Some? && d.value.isVulkan)
                && (hgi.Some? ==> hgi == d)
                && status.gpuCopy == status.hgiOwnedTargets == (hgi.Some? && contextAvailable)
                && status.fallback == if !enabled then BridgeDisabled
                                      else if !validatedOpenUsd then UnsupportedOpenUsd
                                      else if d.None? then MissingRenderDriver
                                      else if !d.value.isVulkan then NonVulkanRenderDriver
                                      else if !contextAvailable then NativeContextUnavailable else NoFallback
    {
      hide CopiesSound;
      var discovered := Discover(drivers);
      EmptyHasNoLive();
      if discovered != hgi && outstandingTargets != 0 {
        SetOperationalFallback(DriverSwapRejected);
        return;
      }
      hgi := discovered;
      status := EvaluateSupport(enabled, validatedOpenUsd, hgi.Some?, hgi.Some? && hgi.value.isVulkan);
      if !status.hgiOwnedTargets {
        hgi := None;
        return;
      }
      if !contextAvailable {
        SetOperationalFallback(NativeContextUnavailable);
        return;
      }
      status := Status(true, true, NoFallback);
    }

    lemma EmptyHasNoLive()
      requires Valid()
      ensures outstandingTargets == 0 <==> live == map[]
    {
      assert |live| == 0 <==> live == map[];
    }

    /** `created` is the new texture, absent if the host's creation fails or throws. */
    method CreateTarget(descriptorValid: bool, recreation: bool, created: Option<Target>)
      returns (target: Option<Target>)
      requires Valid() && (created.Some? ==> created.value !in live)
      modifies this`outstandingTargets, this`telemetry, this`status, this`live
      ensures Valid()
      ensures target == if old(status).hgiOwnedTargets && descriptorValid then created else None
      ensures live == if target.Some? then old(live)[target.value := hgi.value] else old(live)
      ensures telemetry == if target.None? then old(telemetry) else old(telemetry).(
                generation := old(telemetry).generation + 1, creations := old(telemetry).creations + 1,
                recreations := old(telemetry).recreations + if recreation then 1 else 0)
      ensures target.Some? ==> status == old(status)
      ensures target.None? ==>
                status == if !old(status).hgiOwnedTargets then old(status)
                          else if descriptorValid then Status(false, false, TargetCreationFailed)
                          else Status(false, false, InvalidTarget)
    {
      if hgi.None? || !status.hgiOwnedTargets {
        return None;
      }
      if !descriptorValid {
        SetOperationalFallback(InvalidTarget);
        return None;
      }
      if created.None? {
        SetOperationalFallback(TargetCreationFailed);
        return None;
      }
      outstandingTargets := outstandingTargets + 1;
      telemetry := telemetry.(
        generation := telemetry.generation + 1, creations := telemetry.creations + 1,
        recreations := telemetry.recreations + if recreation then 1 else 0);
      live := live[created.value := hgi.value];
      return created;
    }

    /** Retires a target this bridge created; the branch for a lost Hgi is dead. */
    method DestroyTarget(target: Option<Target>) returns (cleared: Option<Target>)
      requires Valid() && (target.Some? ==> target.value in live)
      modifies this`outstandingTargets, this`telemetry, this`live
      ensures Valid() && cleared.None?
      ensures live == if target.Some? then old(live) - {target.value} else old(live)
      ensures telemetry == old(telemetry).(
                retirements := old(telemetry).retirements + if target.Some? then 1 else 0)
    {
      if target.None? {
        return None;
      }
      if hgi.Some? {
        telemetry := telemetry.(retirements := telemetry.retirements + 1);
      } else {
        assert false;
      }
      if outstandingTargets != 0 {
        outstandingTargets := outstandingTargets - 1;
      }
      live := live - {target.value};
      return None;
    }

    method Upload(target: Option<Target>, bytes: nat, hostOk: bool) returns (ok: bool)
      requires Valid()
      modifies this`status
      ensures Valid()
      ensures ok <==> hgi.Some? && target.Some? && bytes != 0 && hostOk
      ensures status == if ok then old(status)
                        else Status(false, false, if hgi.Some? && target.Some? && bytes != 0
                                                  then TargetUploadFailed else InvalidTarget)
    {
      if hgi.None? || target.None? || bytes == 0 {
        SetOperationalFallback(InvalidTarget);
        return false;
      }
      if !hostOk {
        SetOperationalFallback(TargetUploadFailed);
        return false;
      }
      return true;
    }

    /** Every path gives the lease back, at once or when the copy completes. */
    method Copy(target: Option<Target>, lease: Option<Lease>, exporter: bool, sourceValid: bool, submits: bool)
      returns (ok: bool, serial: nat)
      requires Valid()
      requires lease.Some? ==>
                 && lease.value !in released
                 && forall k :: 0 <= k < |pending| ==> pending[k].lease != lease.value
      modifies this`nextCopySerial, this`status, this`telemetry, this`submitted, this`pending, this`released
      ensures Valid() && live == old(live)
      ensures forall n :: old(LeasesBelow(n)) && (lease.Some? ==> lease.value < n) ==> LeasesBelow(n)
      ensures ok <==> old(status).gpuCopy && target.Some? && exporter && lease.Some? && sourceValid && submits
      ensures ok ==>
                && serial == nextCopySerial > old(nextCopySerial)
                && serial !in old(submitted) && submitted == old(submitted)[serial := target.value]
                && pending == old(pending) + [PendingCopy(serial, target.value, lease.value)]
                && released == old(released) && status == old(status)
      ensures !ok ==>
                && serial == 0 && submitted == old(submitted) && pending == old(pending)
                && released == old(released) + (if exporter && lease.Some? then {lease.value} else {})
                && status == Status(false, false,
                     if !old(status).gpuCopy || target.None? || !exporter || lease.None? then GpuCopyUnavailable
                     else if !sourceValid then SourceMismatch else GpuCopyFailed)
    {
      hide CopiesSound, LeasesBelow;
      serial := 0;
      if hgi.None? || !status.gpuCopy || target.None? || !exporter || lease.None? {
        if exporter && lease.Some? {
          ReleaseLease(lease.value);
        }
        SetOperationalFallback(GpuCopyUnavailable);
        return false, 0;
      }
      if !sourceValid || !submits {
        AbandonCopy(lease.value);
        SetOperationalFallback(if !sourceValid then SourceMismatch else GpuCopyFailed);
        return false, 0;
      }
      serial := RecordCopy(target.value, lease.value);
      ok := true;
    }

    /** Uses up a serial for a copy that is not submitted, and gives its lease back. */
    method AbandonCopy(lease: Lease)
      requires Valid() && forall k :: 0 <= k < |pending| ==> pending[k].lease != lease
      modifies this`nextCopySerial, this`released
      ensures Valid() && released == old(released) + {lease}
      ensures forall n :: old(LeasesBelow(n)) && lease < n ==> LeasesBelow(n)
    {
      hide CopiesSound;
      LeaseReturned(lease, nextCopySerial + 1);
      nextCopySerial := nextCopySerial + 1;
      released := released + {lease};
    }

    /** Numbers a submitted copy and remembers it as pending. */
    method RecordCopy(target: Target, lease: Lease) returns (serial: nat)
      requires Valid() && lease !in released && forall k :: 0 <= k < |pending| ==> pending[k].lease != lease
      modifies this`nextCopySerial, this`telemetry, this`submitted, this`pending
      ensures Valid() && serial == nextCopySerial == old(nextCopySerial) + 1
      ensures serial !in old(submitted) && submitted == old(submitted)[serial := target]
      ensures pending == old(pending) + [PendingCopy(serial, target, lease)]
      ensures forall n :: old(LeasesBelow(n)) && lease < n ==> LeasesBelow(n)
    {
      hide CopiesSound;
      FreshSerial();
      CopySubmitted(submitted, pending, nextCopySerial, completedCopySerial, released, target, lease);
      nextCopySerial := nextCopySerial + 1;
      submitted := submitted[nextCopySerial := target];
      pending := pending + [PendingCopy(nextCopySerial, target, lease)];
      var copies := telemetry.copies + 1;
      telemetry := telemetry.(copies := copies, pending := Difference(copies, telemetry.completions));
      return nextCopySerial;
    }

    /** Gives a lease back at once. */
    method ReleaseLease(lease: Lease)
      requires Valid() && forall k :: 0 <= k < |pending| ==> pending[k].lease != lease
      modifies this`released
      ensures Valid() && released == old(released) + {lease}
      ensures forall n :: old(LeasesBelow(n)) && lease < n ==> LeasesBelow(n)
    {
      hide CopiesSound;
      LeaseReturned(lease, nextCopySerial);
      released := released + {lease};
    }

    lemma FreshSerial()
      requires Valid()
      ensures nextCopySerial + 1 !in submitted
    {
    }

    lemma SerialBound(s: nat)
      requires Valid() && s in submitted
      ensures 0 < s <= nextCopySerial
    {
    }

    lemma LeaseReturned(lease: Lease, next: nat)
      requires Valid() && nextCopySerial <= next
      requires forall k :: 0 <= k < |pending| ==> pending[k].lease != lease
      ensures CopiesSound(submitted, pending, next, completedCopySerial, released + {lease})
    {
    }

    /** The completion handler of the oldest pending copy. */
    method CopyCompleted(serial: nat, lease: Lease)
      requires Valid() && pending != [] && pending[0].serial == serial && pending[0].lease == lease
      modifies this`completedCopySerial, this`telemetry, this`pending, this`released
      ensures Valid() && completedCopySerial == serial && pending == old(pending)[1..]
      ensures released == old(released) + {lease}
      ensures Undisturbed(old(live), old(submitted), old(completedCopySerial), None)
      ensures forall n :: old(LeasesBelow(n)) ==> LeasesBelow(n)
    {
      hide CopiesSound;
      CopyCompletes(submitted, pending, nextCopySerial, completedCopySerial, released);
      released := released + {lease};
      completedCopySerial := Maximum(completedCopySerial, serial);
      var completions := telemetry.completions + 1;
      telemetry := telemetry.(
        completions := completions, pending := Difference(telemetry.copies, completions));
      pending := pending[1..];
    }

    /** Exact for a submitted copy, because copies complete in order. */
    method IsCopyComplete(serial: nat) returns (complete: bool)
      requires Valid()
      ensures complete <==> serial != 0 && completedCopySerial >= serial
      ensures serial in submitted ==>
                (complete <==> forall k :: 0 <= k < |pending| ==> pending[k].serial != serial)
    {
      if serial in submitted {
        CompletionIsExact(submitted, pending, nextCopySerial, completedCopySerial, released, serial);
      }
      return serial != 0 && completedCopySerial >= serial;
    }
  }
}
