/**
 All render buffers of one bridge: under any interleaving of their steps with the creation and
 destruction of buffers, driver declarations and completed copies, their targets stay apart and
 none is lost, and no settled buffer reports convergence before a copy into its present target
 is done.
 */
module RenderRuns {
  import opened Wrappers
  import opened HgiTargets
  import opened RenderBuffers
  import opened Injections

  /** One step; one for a buffer that does not exist does nothing.  Handles and leases come from
      the host, which never issues one twice. */
  datatype Step =
    | Allocating(who: nat, d: Dimensions, f: Format, multiSampled: bool, creates: bool)
    | Writing(who: nat, f: Format, width: int, height: int, size: nat, hostOk: bool)
    | Copying(who: nat, leased: bool, exporter: bool, sourceValid: bool, submits: bool)
    | Settling(who: nat, requested: bool)
    | Mapping(who: nat, downloads: bool)
    | Unmapping(who: nat)
    | Deallocating(who: nat)
    | Creating
    | Destroying(who: nat)
    | Declaring(drivers: seq<Driver>, contextAvailable: bool)
    | Completing
  {
    /** A step that one buffer takes and survives. */
    predicate OfBuffer() {
      !Creating? && !Destroying? && !Declaring? && !Completing?
    }
  }

  /** What the host has issued, and the copies it has not completed. */
  datatype Host = Host(targets: nat, leases: nat, inFlight: seq<PendingCopy>)

  ghost predicate Apart(buffers: seq<HdMerlinRenderBuffer>)
    reads buffers
  {
    forall i, j :: 0 <= i < j < |buffers| ==>
      buffers[i] != buffers[j] && (buffers[i].target.Some? ==> buffers[i].target != buffers[j].target)
  }

  /** Every live target is some buffer's. */
  ghost predicate NoneLost(live: map<Target, Hgi>, buffers: seq<HdMerlinRenderBuffer>)
    reads buffers
  {
    forall t :: t in live ==> exists i :: 0 <= i < |buffers| && buffers[i].target == Some(t)
  }

  ghost predicate Issued(bridge: HgiVulkanBridge, host: Host)
    reads bridge
  {
    && bridge.LeasesBelow(host.leases) && bridge.pending == host.inFlight
    && (forall t :: t in bridge.live ==> t < host.targets)
  }

  ghost predicate BufferOk(b: HdMerlinRenderBuffer, live: map<Target, Hgi>, submitted: map<nat, Target>, completed: nat)
    reads b
  {
    BufferSound(b.target, b.copySerial, b.gpuOnly, b.gpuCopyReady, b.settled && b.converged && b.gpuOnly, live,
                submitted, completed)
  }

  ghost predicate AllOk(bridge: HgiVulkanBridge, buffers: seq<HdMerlinRenderBuffer>)
    reads bridge, buffers
  {
    && bridge.Valid() && Apart(buffers) && NoneLost(bridge.live, buffers)
    && (forall i :: 0 <= i < |buffers| ==>
          && buffers[i].bridge == bridge
          && BufferOk(buffers[i], bridge.live, bridge.submitted, bridge.completedCopySerial))
  }

  /** A buffer stays as it is while the bridge changes only where it does not look. */
  lemma BufferStays(b: HdMerlinRenderBuffer, live: map<Target, Hgi>, submitted: map<nat, Target>, completed: nat,
                    bridge: HgiVulkanBridge, theirs: Option<Target>)
    requires BufferOk(b, live, submitted, completed) && bridge.Undisturbed(live, submitted, completed, theirs)
    requires b.target.Some? ==> b.target != theirs
    ensures BufferOk(b, bridge.live, bridge.submitted, bridge.completedCopySerial)
  {
    OthersStaySound(b.target, b.copySerial, b.gpuOnly, b.gpuCopyReady, b.settled && b.converged && b.gpuOnly, live,
                    submitted, completed, bridge.live, bridge.submitted, bridge.completedCopySerial, theirs);
  }

  /** A step of buffer i keeps everything the others rely on. */
  lemma StepKeeps(bridge: HgiVulkanBridge, buffers: seq<HdMerlinRenderBuffer>, i: nat,
                  live: map<Target, Hgi>, submitted: map<nat, Target>, completed: nat, target: Option<Target>)
    requires i < |buffers| && buffers[i].Valid()
    requires forall j, k :: 0 <= j < k < |buffers| ==> buffers[j] != buffers[k]
    requires forall j :: 0 <= j < |buffers| ==> buffers[j].bridge == bridge
    requires forall j :: 0 <= j < |buffers| && j != i ==> BufferOk(buffers[j], live, submitted, completed)
    requires forall j :: 0 <= j < |buffers| && j != i && buffers[j].target.Some? ==>
               buffers[j].target != target && buffers[j].target.value in live
    requires forall j, k :: 0 <= j < k < |buffers| && j != i && k != i && buffers[j].target.Some? ==>
               buffers[j].target != buffers[k].target
    requires bridge.Undisturbed(live, submitted, completed, target) &&
             bridge.LiveWithin(live, target, buffers[i].target)
    requires buffers[i].target.Some? ==> buffers[i].target == target || buffers[i].target.value !in live
    requires forall t :: t in live && Some(t) != target ==>
               exists j :: 0 <= j < |buffers| && j != i && buffers[j].target == Some(t)
    ensures AllOk(bridge, buffers)
  {
    hide HgiVulkanBridge.Valid, BufferOk, HgiVulkanBridge.Undisturbed;
    forall j | 0 <= j < |buffers|
      ensures BufferOk(buffers[j], bridge.live, bridge.submitted, bridge.completedCopySerial)
    {
      if j != i {
        BufferStays(buffers[j], live, submitted, completed, bridge, target);
      } else {
        OwnOk(buffers[i]);
      }
    }
  }

  lemma OwnOk(b: HdMerlinRenderBuffer)
    ensures b.Valid() <==>
            b.bridge.Valid() && BufferOk(b, b.bridge.live, b.bridge.submitted, b.bridge.completedCopySerial)
    ensures b.Valid() && b.target.Some? ==> b.target.value in b.bridge.live
  {
  }

  /** The part of the state that the buffers other than i rely on and keep. */
  lemma OthersBefore(bridge: HgiVulkanBridge, buffers: seq<HdMerlinRenderBuffer>, i: nat)
    requires i < |buffers| && AllOk(bridge, buffers)
    ensures buffers[i].Valid() && buffers[i].bridge == bridge
    ensures forall j :: 0 <= j < |buffers| && j != i && buffers[j].target.Some? ==>
              buffers[j].target != buffers[i].target && buffers[j].target.value in bridge.live
    ensures forall t :: t in bridge.live && Some(t) != buffers[i].target ==>
              exists j :: 0 <= j < |buffers| && j != i && buffers[j].target == Some(t)
  {
    hide HgiVulkanBridge.Valid, HdMerlinRenderBuffer.Valid, BufferOk;
    forall j | 0 <= j < |buffers|
      ensures buffers[j].Valid() && (buffers[j].target.Some? ==> buffers[j].target.value in bridge.live)
    {
      OwnOk(buffers[j]);
    }
  }

  /** What a step of a buffer does to its bridge and to the buffer itself. */
  method OneStep(b: HdMerlinRenderBuffer, s: Step, host: Host) returns (host': Host)
    requires b.Valid() && Issued(b.bridge, host) && s.OfBuffer()
    modifies b, b.bridge
    ensures b.Valid() && (s.Settling? || (old(b.settled) && !s.Copying?) ==> b.settled)
    ensures b.bridge.Undisturbed(old(b.bridge.live), old(b.bridge.submitted), old(b.bridge.completedCopySerial),
                                 old(b.target))
    ensures b.bridge.LiveWithin(old(b.bridge.live), old(b.target), b.target)
    ensures b.target.Some? ==> b.target == old(b.target) || b.target.value !in old(b.bridge.live)
    ensures Issued(b.bridge, host')
  {
    hide HgiVulkanBridge.Valid, BufferSound, HgiVulkanBridge.LeasesBelow, PixelCount;
    OwnOk(b);
    host' := host;
    match s {
      case Allocating(_, d, f, multiSampled, creates) =>
        var ok := b.Allocate(d, f, multiSampled, if creates then Some(host.targets) else None);
        host' := host.(targets := host.targets + 1);
      case Writing(_, f, width, height, size, hostOk) =>
        var ok := b.Write(f, width, height, size, hostOk);
      case Copying(_, leased, exporter, sourceValid, submits) =>
        host' := CopyStep(b, leased, exporter, sourceValid, submits, host);
      case Settling(_, requested) =>
        b.SetConverged(requested);
      case Mapping(_, downloads) =>
        var mapped := b.Map(downloads);
      case Unmapping(_) =>
        b.Unmap();
      case Deallocating(_) =>
        b.Deallocate();
    }
  }

  method CopyStep(b: HdMerlinRenderBuffer, leased: bool, exporter: bool, sourceValid: bool, submits: bool, host: Host)
    returns (host': Host)
    requires b.Valid() && Issued(b.bridge, host)
    modifies b, b.bridge
    ensures b.Valid()
    ensures b.bridge.Undisturbed(old(b.bridge.live), old(b.bridge.submitted), old(b.bridge.completedCopySerial),
                                 old(b.target))
    ensures b.bridge.LiveWithin(old(b.bridge.live), old(b.target), b.target)
    ensures b.target.Some? ==> b.target == old(b.target)
    ensures Issued(b.bridge, host')
  {
    hide HgiVulkanBridge.Valid, BufferSound;
    OwnOk(b);
    var ok := b.CopyAov(if leased then Some(host.leases) else None, exporter, sourceValid, submits);
    host' := host.(leases := host.leases + 1,
                   inFlight := if ok then host.inFlight + [PendingCopy(b.copySerial, b.target.value, host.leases)]
                               else host.inFlight);
  }

  /** A step of one buffer among all. */
  method StepBuffer(bridge: HgiVulkanBridge, buffers: seq<HdMerlinRenderBuffer>, s: Step, host: Host)
    returns (host': Host)
    requires AllOk(bridge, buffers) && Issued(bridge, host) && s.OfBuffer() && s.who < |buffers|
    modifies bridge, buffers
    ensures AllOk(bridge, buffers) && Issued(bridge, host')
    ensures s.Settling? || (old(buffers[s.who].settled) && !s.Copying?) ==> buffers[s.who].settled
    ensures forall j :: 0 <= j < |buffers| && j != s.who ==> unchanged(buffers[j])
  {
    hide HgiVulkanBridge.Valid, BufferSound, HgiVulkanBridge.LeasesBelow, HdMerlinRenderBuffer.Valid, Issued,
      HgiVulkanBridge.Undisturbed, HgiVulkanBridge.LiveWithin;
    var b := buffers[s.who];
    ghost var live, submitted, completed := bridge.live, bridge.submitted, bridge.completedCopySerial;
    ghost var target := b.target;
    OthersBefore(bridge, buffers, s.who);
    host' := OneStep(b, s, host);
    StepKeeps(bridge, buffers, s.who, live, submitted, completed, target);
  }

  /** A new buffer has no target. */
  method StepCreation(bridge: HgiVulkanBridge, buffers: seq<HdMerlinRenderBuffer>, host: Host)
    returns (buffers': seq<HdMerlinRenderBuffer>)
    requires AllOk(bridge, buffers) && Issued(bridge, host)
    ensures AllOk(bridge, buffers') && Issued(bridge, host)
    ensures |buffers'| == |buffers| + 1 && buffers'[..|buffers|] == buffers && fresh(buffers'[|buffers|])
  {
    hide HgiVulkanBridge.Valid, BufferSound, Issued;
    var b := new HdMerlinRenderBuffer(bridge);
    buffers' := buffers + [b];
    OwnOk(b);
    forall t | t in bridge.live ensures exists i :: 0 <= i < |buffers'| && buffers'[i].target == Some(t) {
      var i :| 0 <= i < |buffers| && buffers[i].target == Some(t);
      assert buffers'[i].target == Some(t);
    }
  }

  /** A destroyed buffer takes its target with it, mapped or not. */
  method StepDestruction(bridge: HgiVulkanBridge, buffers: seq<HdMerlinRenderBuffer>, i: nat, host: Host)
    returns (buffers': seq<HdMerlinRenderBuffer>)
    requires AllOk(bridge, buffers) && Issued(bridge, host) && i < |buffers|
    modifies bridge, buffers
    ensures AllOk(bridge, buffers') && Issued(bridge, host)
    ensures buffers' == buffers[..i] + buffers[i + 1..]
  {
    hide HgiVulkanBridge.Valid, BufferOk, HgiVulkanBridge.Undisturbed, HgiVulkanBridge.LeasesBelow;
    var b := buffers[i];
    ghost var live, submitted, completed := bridge.live, bridge.submitted, bridge.completedCopySerial;
    ghost var target := b.target;
    OthersBefore(bridge, buffers, i);
    b.Destroy();
    bridge.MineOnly(live, submitted, completed, target, None, 0);
    buffers' := buffers[..i] + buffers[i + 1..];
    OthersKept(bridge, buffers, i, live, submitted, completed, target);
  }

  /** Without buffer i the rest is as it should be. */
  lemma OthersKept(bridge: HgiVulkanBridge, buffers: seq<HdMerlinRenderBuffer>, i: nat, live: map<Target, Hgi>,
                   submitted: map<nat, Target>, completed: nat, target: Option<Target>)
    requires bridge.Valid() && i < |buffers|
    requires forall j, k :: 0 <= j < k < |buffers| ==> buffers[j] != buffers[k]
    requires forall j, k :: 0 <= j < k < |buffers| && j != i && k != i && buffers[j].target.Some? ==>
               buffers[j].target != buffers[k].target
    requires forall j :: 0 <= j < |buffers| && j != i ==>
               && buffers[j].bridge == bridge && BufferOk(buffers[j], live, submitted, completed)
               && (buffers[j].target.Some? ==> buffers[j].target != target)
    requires bridge.Undisturbed(live, submitted, completed, target) && bridge.LiveWithin(live, target, None)
    requires forall t :: t in live && Some(t) != target ==>
               exists j :: 0 <= j < |buffers| && j != i && buffers[j].target == Some(t)
    ensures AllOk(bridge, buffers[..i] + buffers[i + 1..])
  {
    hide HgiVulkanBridge.Valid, BufferOk, HgiVulkanBridge.Undisturbed;
    var rest := buffers[..i] + buffers[i + 1..];
    assert forall j :: 0 <= j < |rest| ==> rest[j] == buffers[if j < i then j else j + 1];
    forall j | 0 <= j < |rest| ensures BufferOk(rest[j], bridge.live, bridge.submitted, bridge.completedCopySerial) {
      BufferStays(rest[j], live, submitted, completed, bridge, target);
    }
    forall t | t in bridge.live ensures exists j :: 0 <= j < |rest| && rest[j].target == Some(t) {
      var j :| 0 <= j < |buffers| && j != i && buffers[j].target == Some(t);
      assert rest[if j < i then j else j - 1].target == Some(t);
    }
  }

  /** A driver declaration touches no target and no copy. */
  method StepDrivers(bridge: HgiVulkanBridge, buffers: seq<HdMerlinRenderBuffer>, drivers: seq<Driver>,
                     contextAvailable: bool, host: Host)
    requires AllOk(bridge, buffers) && Issued(bridge, host)
    modifies bridge
    ensures AllOk(bridge, buffers) && Issued(bridge, host)
  {
    hide HgiVulkanBridge.Valid, BufferSound;
    bridge.SetDrivers(drivers, contextAvailable);
  }

  /** The host completes the oldest copy, if one is under way. */
  method StepCompletion(bridge: HgiVulkanBridge, buffers: seq<HdMerlinRenderBuffer>, host: Host) returns (host': Host)
    requires AllOk(bridge, buffers) && Issued(bridge, host)
    modifies bridge
    ensures AllOk(bridge, buffers) && Issued(bridge, host')
  {
    hide HgiVulkanBridge.Valid, BufferOk;
    host' := host;
    if host.inFlight != [] {
      ghost var live, submitted, completed := bridge.live, bridge.submitted, bridge.completedCopySerial;
      bridge.CopyCompleted(host.inFlight[0].serial, host.inFlight[0].lease);
      host' := host.(inFlight := host.inFlight[1..]);
      forall i | 0 <= i < |buffers|
        ensures BufferOk(buffers[i], bridge.live, bridge.submitted, bridge.completedCopySerial)
      {
        BufferStays(buffers[i], live, submitted, completed, bridge, None);
      }
    }
  }

  function Members(buffers: seq<HdMerlinRenderBuffer>): set<HdMerlinRenderBuffer> {
    set b | b in buffers
  }

  method TakeStep(bridge: HgiVulkanBridge, buffers: seq<HdMerlinRenderBuffer>, s: Step, host: Host)
    returns (buffers': seq<HdMerlinRenderBuffer>, host': Host)
    requires AllOk(bridge, buffers) && Issued(bridge, host)
    modifies bridge, buffers
    ensures AllOk(bridge, buffers') && Issued(bridge, host')
    ensures fresh(Members(buffers') - Members(buffers))
    ensures !s.Creating? && !s.Destroying? ==> buffers' == buffers
    ensures s.Creating? ==> |buffers'| == |buffers| + 1 && buffers'[..|buffers|] == buffers
    ensures s.Destroying? ==>
              buffers' == if s.who < |buffers| then buffers[..s.who] + buffers[s.who + 1..] else buffers
  {
    hide AllOk, Issued, HgiVulkanBridge.Valid;
    buffers', host' := buffers, host;
    match s {
      case Creating =>
        buffers' := StepCreation(bridge, buffers, host);
        assert buffers' == buffers + [buffers'[|buffers|]];
      case Destroying(who) =>
        if who < |buffers| {
          buffers' := StepDestruction(bridge, buffers, who, host);
        }
      case Declaring(drivers, contextAvailable) =>
        StepDrivers(bridge, buffers, drivers, contextAvailable, host);
      case Completing =>
        host' := StepCompletion(bridge, buffers, host);
      case _ =>
        if s.who < |buffers| {
          host' := StepBuffer(bridge, buffers, s, host);
        }
    }
  }

  /** Any number of steps in any order. */
  method Run(bridge: HgiVulkanBridge, buffers: seq<HdMerlinRenderBuffer>, steps: seq<Step>, host: Host)
    returns (buffers': seq<HdMerlinRenderBuffer>, host': Host)
    requires AllOk(bridge, buffers) && Issued(bridge, host)
    modifies bridge, buffers
    ensures AllOk(bridge, buffers') && Issued(bridge, host')
    ensures fresh(Members(buffers') - Members(buffers))
    ensures |buffers'| == Alive(|buffers|, steps)
  {
    hide AllOk, Issued, HgiVulkanBridge.Valid;
    buffers', host' := buffers, host;
    var k := 0;
    assert steps[..0] == [];
    while k < |steps|
      invariant 0 <= k <= |steps|
      invariant AllOk(bridge, buffers') && Issued(bridge, host')
      invariant fresh(Members(buffers') - Members(buffers))
      invariant |buffers'| == Alive(|buffers|, steps[..k])
    {
      assert steps[..k + 1][..k] == steps[..k];
      assert forall b :: b in buffers' ==> b in Members(buffers');
      buffers', host' := TakeStep(bridge, buffers', steps[k], host');
      k := k + 1;
    }
    assert steps[..k] == steps;
  }

  /** How many buffers there are after the steps. */
  function Alive(n: nat, steps: seq<Step>): nat {
    if steps == [] then n
    else
      var before, s := Alive(n, steps[..|steps| - 1]), steps[|steps| - 1];
      if s.Creating? then before + 1 else if s.Destroying? && s.who < before then before - 1 else before
  }

  function TargetsHeld(buffers: seq<HdMerlinRenderBuffer>): map<nat, Target>
    reads buffers
  {
    map i: nat | i < |buffers| && buffers[i].target.Some? :: buffers[i].target.value
  }

  /** So as many targets are outstanding as buffers hold one. */
  lemma OutstandingTargets(bridge: HgiVulkanBridge, buffers: seq<HdMerlinRenderBuffer>)
    requires AllOk(bridge, buffers)
    ensures bridge.outstandingTargets == |TargetsHeld(buffers)|
  {
    var held := TargetsHeld(buffers);
    forall i | i in held ensures held[i] in bridge.live {
      assert BufferOk(buffers[i], bridge.live, bridge.submitted, bridge.completedCopySerial);
    }
    forall t | t in bridge.live ensures t in held.Values {
      var i :| 0 <= i < |buffers| && buffers[i].target == Some(t);
      assert i in held && held[i] == t;
    }
    forall i, j | i in held && j in held && i != j ensures held[i] != held[j] {
      assert if j < i then buffers[j].target != buffers[i].target else buffers[i].target != buffers[j].target;
    }
    assert held.Values == bridge.live.Keys;
    InjectiveCount(held, |buffers|);
    assert |bridge.live| == |bridge.live.Keys|;
  }

  /** And a settled buffer that says it has converged, with its content on the GPU alone, has
      had a copy into its present target complete before the last one it submitted. */
  lemma SettledIsTrue(bridge: HgiVulkanBridge, buffers: seq<HdMerlinRenderBuffer>, i: nat)
    requires AllOk(bridge, buffers) && i < |buffers|
    ensures var b := buffers[i];
            b.settled && b.converged && b.gpuOnly ==>
              && b.target.Some? && b.target.value in bridge.live
              && exists s :: s in bridge.submitted && s < b.copySerial && s <= bridge.completedCopySerial &&
                             bridge.submitted[s] == b.target.value
  {
    assert BufferOk(buffers[i], bridge.live, bridge.submitted, bridge.completedCopySerial);
  }
}
