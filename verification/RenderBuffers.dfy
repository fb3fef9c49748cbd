/**
 Render buffers over host textures: allocation, CPU writes, asynchronous GPU copies, and
 when a buffer may report that it has converged.
 */
module RenderBuffers {
  import opened Wrappers
  import opened Arithmetic
  import opened HgiTargets

  datatype Format = NoFormat | UNorm8Vec4 | Float32 | Int32 | OtherFormat

  datatype Dimensions = Dimensions(width: int, height: int, depth: int)

  const SIZE_MAX := 0xFFFF_FFFF_FFFF_FFFF
  const PIXEL_SIZE := 4

  /** What a buffer relies on: its target is live and its serial belongs to that target; a
      GPU-only buffer has both; being ready, or claiming to have converged, means that an
      earlier copy into the target is done. */
  ghost predicate BufferSound(target: Option<Target>, serial: nat, gpuOnly: bool, ready: bool, claims: bool,
                              live: map<Target, Hgi>, submitted: map<nat, Target>, completed: nat)
  {
    && (target.Some? ==> target.value in live)
    && (target.Some? && serial != 0 ==> serial in submitted && submitted[serial] == target.value)
    && (gpuOnly ==> target.Some? && serial != 0)
    && (ready || claims ==> target.Some? && EarlierCopyDone(target.value, serial, submitted, completed))
  }

  /** Some copy into the target, before the one with the given serial, has completed. */
  ghost predicate EarlierCopyDone(target: Target, serial: nat, submitted: map<nat, Target>, completed: nat) {
    exists s :: s in submitted && s < serial && submitted[s] == target && s <= completed
  }

  /** Another buffer's steps, or a completion, leave a buffer sound. */
  lemma OthersStaySound(target: Option<Target>, serial: nat, gpuOnly: bool, ready: bool, claims: bool,
                        live: map<Target, Hgi>, submitted: map<nat, Target>, completed: nat,
                        live': map<Target, Hgi>, submitted': map<nat, Target>, completed': nat, theirs: Option<Target>)
    requires BufferSound(target, serial, gpuOnly, ready, claims, live, submitted, completed)
    requires forall t :: t in live && Some(t) != theirs ==> t in live' && live'[t] == live[t]
    requires forall s :: s in submitted ==> s in submitted' && submitted'[s] == submitted[s]
    requires completed <= completed' && (target.Some? ==> target != theirs)
    ensures BufferSound(target, serial, gpuOnly, ready, claims, live', submitted', completed')
  {
    if ready || claims {
      var s :| s in submitted && s < serial && submitted[s] == target.value && s <= completed;
      assert submitted'[s] == target.value;
    }
  }

  /** A new copy is sound; it is ready if the copy before it was into this target and is complete. */
  lemma CopyKeepsSound(target: Target, serial: nat, gpuOnly: bool, ready: bool, claims: bool, live: map<Target, Hgi>,
                       submitted: map<nat, Target>, completed: nat, next: nat, complete: bool)
    requires BufferSound(Some(target), serial, gpuOnly, ready, claims, live, submitted, completed)
    requires serial != 0 ==> serial < next
    requires next != 0 && (complete <==> serial != 0 && serial <= completed)
    ensures BufferSound(Some(target), next, true, complete, false, live, submitted[next := target], completed)
  {
    if complete {
      assert submitted[next := target][serial] == target;
    }
  }

  /** The three divisions find exactly the sizes that do not fit 64 bits. */
  function PixelCount(d: Dimensions): (pixels: Option<nat>)
    requires d.width >= 0 && d.height >= 0 && d.depth >= 0
  {
    if d.width != 0 && d.height > SIZE_MAX / d.width then None
    else
      assert d.width * d.height >= 0;
      var plane: nat := d.width * d.height;
      if d.depth != 0 && plane > SIZE_MAX / d.depth then None
      else
        assert plane * d.depth >= 0;
        var pixels: nat := plane * d.depth;
        if pixels > SIZE_MAX / PIXEL_SIZE then None else Some(pixels)
  }

  lemma PixelCountExact(d: Dimensions)
    requires d.width >= 0 && d.height >= 0 && d.depth >= 0
    ensures PixelCount(d).Some? <==>
            d.width * d.height <= SIZE_MAX && d.width * d.height * d.depth * PIXEL_SIZE <= SIZE_MAX
    ensures PixelCount(d).Some? ==> PixelCount(d).value == d.width * d.height * d.depth
  {
    if d.width != 0 {
      QuotientBounds(d.height, SIZE_MAX, d.width);
    } else {
      assert d.width * d.height == 0;
    }
    assert d.width * d.height >= 0;
    var plane: nat := d.width * d.height;
    if d.depth != 0 {
      QuotientBounds(plane, SIZE_MAX, d.depth);
      assert plane * d.depth == d.depth * plane;
    } else {
      assert plane * d.depth == 0;
    }
    assert plane * d.depth >= 0;
  }

  /** A plane of one texel or more has pixels. */
  lemma PlanePixels(d: Dimensions)
    requires d.width > 0 && d.height > 0 && d.depth == 1 ==> PixelCount(d).Some?
    ensures d.width > 0 && d.height > 0 && d.depth == 1 ==> PixelCount(d).value > 0
  {
    if d.width > 0 && d.height > 0 && d.depth == 1 {
      PixelCountExact(d);
      ProductGrows(1, d.width, d.height);
    }
  }

  /** Whether a new allocation gets a host texture: colour wherever the bridge owns targets,
      depth and ids only if it can copy into them. */
  predicate Publishes(d: Dimensions, f: Format, s: Status) {
    && d.width > 0 && d.height > 0 && d.depth == 1 && s.hgiOwnedTargets && (f.UNorm8Vec4? || s.gpuCopy)
  }

  class HdMerlinRenderBuffer {
    const bridge: HgiVulkanBridge
    var dimensions: Dimensions
    var format: Format
    var bytes: nat
    var gpuOnly: bool
    var gpuCopyReady: bool
    var converged: bool
    var mapCount: nat
    var target: Option<Target>
    var copySerial: nat
    // Told since its last copy whether it has converged.
    ghost var settled: bool

    /** Sound; and once settled, a GPU-only buffer that says it has converged speaks the truth. */
    ghost predicate Valid()
      reads this, bridge
    {
      && bridge.Valid()
      && BufferSound(target, copySerial, gpuOnly, gpuCopyReady, settled && converged && gpuOnly, bridge.live,
                     bridge.submitted, bridge.completedCopySerial)
    }

    constructor (b: HgiVulkanBridge)
      requires b.Valid()
      ensures Valid() && bridge == b && target.None? && fresh(this)
    {
      bridge := b;
      dimensions, format, bytes := Dimensions(0, 0, 0), NoFormat, 0;
      gpuOnly, gpuCopyReady, converged, mapCount := false, false, false, 0;
      target, copySerial, settled := None, 0, true;
    }

    method DestroyHgiTarget()
      requires Valid() && !gpuOnly
      modifies this`target, this`copySerial, this`gpuCopyReady, bridge`outstandingTargets, bridge`telemetry, bridge`live
      ensures Valid() && target.None? && copySerial == 0 && !gpuCopyReady
      ensures bridge.live == if old(target).Some? then old(bridge.live) - {old(target).value} else old(bridge.live)
    {
      hide CopiesSound, HgiVulkanBridge.TargetsSound, HgiVulkanBridge.Valid;
      target := bridge.DestroyTarget(target);
      copySerial, gpuCopyReady := 0, false;
    }

    /** Retires the old target and publishes a new one, if one can be published. */
    method ReplaceTarget(pixels: nat, d: Dimensions, f: Format, recreation: bool, created: Option<Target>)
      requires Valid() && !gpuOnly && (created.Some? ==> created.value !in bridge.live)
      requires d.width >= 0 && d.height >= 0 && d.depth >= 0 && PixelCount(d) == Some(pixels)
      modifies this`target, this`copySerial, this`gpuCopyReady, bridge`outstandingTargets, bridge`telemetry,
          bridge`live,
        bridge`status
      ensures Valid() && copySerial == 0 && !gpuCopyReady
      ensures target == if Publishes(d, f, old(bridge.status)) then created else None
      ensures bridge.Undisturbed(old(bridge.live), old(bridge.submitted), old(bridge.completedCopySerial), old(target))
      ensures old(target).Some? ==> old(target).value !in bridge.live
      ensures bridge.LiveWithin(old(bridge.live), old(target), target)
    {
      hide CopiesSound, PixelCount, HgiVulkanBridge.TargetsSound, HgiVulkanBridge.Valid;
      PlanePixels(d);
      DestroyHgiTarget();
      if pixels != 0 && (f.UNorm8Vec4? || bridge.status.gpuCopy) && d.depth == 1 {
        target := bridge.CreateTarget(d.width > 0 && d.height > 0, recreation, created);
      }
    }

    /** Whether an allocation of this description is accepted. */
    predicate Acceptable(d: Dimensions, f: Format, multiSampled: bool)
      reads this`mapCount
    {
      && mapCount == 0 && d.width >= 0 && d.height >= 0 && d.depth >= 0 && !multiSampled
      && (f.UNorm8Vec4? || f.Float32? || f.Int32?)
      && PixelCount(d).Some?
    }

    lemma AcceptableExactly(d: Dimensions, f: Format, multiSampled: bool)
      ensures Acceptable(d, f, multiSampled) <==>
              && mapCount == 0 && d.width >= 0 && d.height >= 0 && d.depth >= 0 && !multiSampled
              && (f.UNorm8Vec4? || f.Float32? || f.Int32?)
              && d.width * d.height <= 0xFFFF_FFFF_FFFF_FFFF
              && d.width * d.height * d.depth * 4 <= 0xFFFF_FFFF_FFFF_FFFF
      ensures Acceptable(d, f, multiSampled) ==>
                d.width >= 0 && d.height >= 0 && d.depth >= 0 && PixelCount(d) == Some(d.width * d.height * d.depth)
    {
      if d.width >= 0 && d.height >= 0 && d.depth >= 0 {
        PixelCountExact(d);
      }
    }

    method CheckAllocation(d: Dimensions, f: Format, multiSampled: bool) returns (pixels: Option<nat>)
      ensures pixels.Some? <==> Acceptable(d, f, multiSampled)
      ensures pixels.Some? ==> d.width >= 0 && d.height >= 0 && d.depth >= 0 && pixels == PixelCount(d)
    {
      if mapCount != 0 || d.width < 0 || d.height < 0 || d.depth < 0 || multiSampled ||
         !(f.UNorm8Vec4? || f.Float32? || f.Int32?) {
        return None;
      }
      return PixelCount(d);
    }

    /** The GPU-only state ends. */
    method EndGpuOnly()
      requires Valid()
      modifies this`gpuOnly, this`gpuCopyReady
      ensures Valid() && !gpuOnly && !gpuCopyReady
    {
      gpuOnly, gpuCopyReady := false, false;
    }

    /** Describes the new allocation; the GPU-only state ends. */
    method Redescribe(d: Dimensions, f: Format, pixels: nat)
      requires Valid()
      modifies this`dimensions, this`format, this`bytes, this`gpuOnly, this`gpuCopyReady, this`converged
      ensures Valid() && !gpuOnly && !gpuCopyReady && !converged && dimensions == d && format == f
      ensures bytes == pixels * PIXEL_SIZE
    {
      EndGpuOnly();
      dimensions, format := d, f;
      converged := false;
      bytes := pixels * PIXEL_SIZE;
    }

    /** An unchanged description keeps its target and the copies into it; any other starts anew. */
    method Allocate(d: Dimensions, f: Format, multiSampled: bool, created: Option<Target>) returns (ok: bool)
      requires Valid() && (created.Some? ==> created.value !in bridge.live)
      modifies this`dimensions, this`format, this`bytes, this`gpuOnly, this`gpuCopyReady, this`converged, this`target,
        this`copySerial, bridge`outstandingTargets, bridge`telemetry, bridge`live, bridge`status
      ensures Valid() && ok == old(Acceptable(d, f, multiSampled))
      ensures ok <==>
              && mapCount == 0 && d.width >= 0 && d.height >= 0 && d.depth >= 0 && !multiSampled
              && (f.UNorm8Vec4? || f.Float32? || f.Int32?)
              && d.width * d.height <= 0xFFFF_FFFF_FFFF_FFFF
              && d.width * d.height * d.depth * 4 <= 0xFFFF_FFFF_FFFF_FFFF
      ensures ok ==> bytes == d.width * d.height * d.depth * 4
      ensures bridge.Undisturbed(old(bridge.live), old(bridge.submitted), old(bridge.completedCopySerial), old(target))
      ensures !ok ==>
                target == old(target) && copySerial == old(copySerial) && gpuOnly == old(gpuOnly) &&
                converged == old(converged) && bridge.live == old(bridge.live)
      ensures ok ==> !gpuOnly && !gpuCopyReady && !converged && dimensions == d && format == f
      ensures ok ==> d.width >= 0 && d.height >= 0 && d.depth >= 0 && PixelCount(d).Some? &&
                     bytes == PixelCount(d).value * PIXEL_SIZE
      ensures ok && old(target).Some? && old(dimensions) == d && old(format) == f ==>
                target == old(target) && copySerial == old(copySerial) && bridge.live == old(bridge.live)
      ensures ok && !(old(target).Some? && old(dimensions) == d && old(format) == f) ==>
                copySerial == 0 && (old(target).Some? ==> old(target).value !in bridge.live) &&
                target == if && d.width > 0 && d.height > 0 && d.depth == 1 && old(bridge.status).hgiOwnedTargets
                             && (f.UNorm8Vec4? || old(bridge.status).gpuCopy)
                          then created else None
      ensures bridge.LiveWithin(old(bridge.live), old(target), target)
    {
      AcceptableExactly(d, f, multiSampled);
      hide CopiesSound, PixelCount, HgiVulkanBridge.TargetsSound, HgiVulkanBridge.Valid, Acceptable, EarlierCopyDone,
        BufferSound;
      var pixels := CheckAllocation(d, f, multiSampled);
      if pixels.None? {
        return false;
      }
      var hasTarget := target.Some?;
      var reusable := hasTarget && dimensions == d && format == f;
      var recreation := hasTarget && !reusable;
      Redescribe(d, f, pixels.value);
      if !reusable {
        ReplaceTarget(pixels.value, d, f, recreation, created);
      }
      return true;
    }

    method UploadHgiTarget(hostOk: bool)
      requires Valid() && !gpuOnly && !gpuCopyReady
      modifies this`target, bridge`status, bridge`outstandingTargets, bridge`telemetry, bridge`live
      ensures Valid() && target == if bridge.hgi.Some? && bytes != 0 && hostOk then old(target) else None
      ensures bridge.Undisturbed(old(bridge.live), old(bridge.submitted), old(bridge.completedCopySerial), old(target))
      ensures bridge.LiveWithin(old(bridge.live), old(target), target)
    {
      if target.None? {
        return;
      }
      var ok := bridge.Upload(target, bytes, hostOk);
      if !ok {
        target := bridge.DestroyTarget(target);
      }
    }

    /** A CPU write of the whole buffer; a failed upload retires the target. */
    method Write(f: Format, width: int, height: int, size: nat, hostOk: bool) returns (ok: bool)
      requires Valid()
      modifies this`gpuOnly, this`gpuCopyReady, this`target, bridge`status, bridge`outstandingTargets,
        bridge`telemetry, bridge`live
      ensures Valid()
      ensures ok <==> mapCount == 0 && format == f && dimensions == Dimensions(width, height, 1) && size == bytes
      ensures bridge.Undisturbed(old(bridge.live), old(bridge.submitted), old(bridge.completedCopySerial), old(target))
      ensures ok ==> !gpuOnly && !gpuCopyReady
      ensures ok ==> target == if bridge.hgi.Some? && bytes != 0 && hostOk then old(target) else None
      ensures !ok ==> gpuOnly == old(gpuOnly) && gpuCopyReady == old(gpuCopyReady) && target == old(target)
      ensures bridge.LiveWithin(old(bridge.live), old(target), target)
    {
      hide CopiesSound, BufferSound, EarlierCopyDone, HgiVulkanBridge.TargetsSound, HgiVulkanBridge.Valid;
      if mapCount != 0 || format != f || dimensions != Dimensions(width, height, 1) || size != bytes {
        return false;
      }
      EndGpuOnly();
      UploadHgiTarget(hostOk);
      return true;
    }

    /** Submits an asynchronous copy; the buffer is ready once an earlier one is complete. */
    method CopyAov(lease: Option<Lease>, exporter: bool, sourceValid: bool, submits: bool) returns (ok: bool)
      requires Valid()
      requires lease.Some? ==>
                 lease.value !in bridge.released &&
                 forall k :: 0 <= k < |bridge.pending| ==> bridge.pending[k].lease != lease.value
      modifies this`gpuOnly, this`gpuCopyReady, this`target, this`copySerial, this`settled, bridge
      ensures Valid() && (ok ==> !settled)
      ensures bridge.Undisturbed(old(bridge.live), old(bridge.submitted), old(bridge.completedCopySerial), old(target))
      ensures ok <==> mapCount == 0 && old(target).Some? && old(bridge.status).gpuCopy && exporter && lease.Some? &&
                      sourceValid && submits
      ensures ok ==>
                && target == old(target) && gpuOnly
                && copySerial !in old(bridge.submitted) && copySerial in bridge.submitted
                && (gpuCopyReady <==> old(copySerial) != 0 && old(bridge.completedCopySerial) >= old(copySerial))
                && bridge.released == old(bridge.released)
                && bridge.pending == old(bridge.pending) + [PendingCopy(copySerial, target.value, lease.value)]
      ensures !ok ==> bridge.pending == old(bridge.pending)
      ensures !ok && exporter && lease.Some? ==> bridge.released == old(bridge.released) + {lease.value}
      ensures !ok && mapCount == 0 && old(target).Some? ==> target.None? && copySerial == 0 && !gpuOnly && !gpuCopyReady
      ensures !ok && (mapCount != 0 || old(target).None?) ==>
                target == old(target) && copySerial == old(copySerial) && gpuOnly == old(gpuOnly) &&
                gpuCopyReady == old(gpuCopyReady) && settled == old(settled) && bridge.live == old(bridge.live)
      ensures bridge.LiveWithin(old(bridge.live), old(target), target)
      ensures forall n :: old(bridge.LeasesBelow(n)) && (lease.Some? ==> lease.value < n) ==> bridge.LeasesBelow(n)
    {
      hide BufferSound, HgiVulkanBridge.LeasesBelow, CopiesSound, HgiVulkanBridge.TargetsSound, HgiVulkanBridge.Valid;
      if mapCount != 0 || target.None? {
        if exporter && lease.Some? {
          bridge.ReleaseLease(lease.value);
        }
        return false;
      }
      ok := SubmitAov(lease, exporter, sourceValid, submits);
    }

    lemma SerialSubmitted()
      requires Valid() && target.Some? && copySerial != 0
      ensures copySerial in bridge.submitted
    {
    }

    /** The copy into a target; its failure retires the target. */
    method SubmitAov(lease: Option<Lease>, exporter: bool, sourceValid: bool, submits: bool) returns (ok: bool)
      requires Valid() && target.Some?
      requires lease.Some? ==>
                 lease.value !in bridge.released &&
                 forall k :: 0 <= k < |bridge.pending| ==> bridge.pending[k].lease != lease.value
      modifies this`gpuOnly, this`gpuCopyReady, this`target, this`copySerial, this`settled, bridge
      ensures Valid()
      ensures bridge.Undisturbed(old(bridge.live), old(bridge.submitted), old(bridge.completedCopySerial), old(target))
      ensures ok <==> old(bridge.status).gpuCopy && exporter && lease.Some? && sourceValid && submits
      ensures ok ==>
                && !settled && target == old(target) && gpuOnly
                && copySerial !in old(bridge.submitted) && copySerial in bridge.submitted
                && (gpuCopyReady <==> old(copySerial) != 0 && old(bridge.completedCopySerial) >= old(copySerial))
                && bridge.released == old(bridge.released)
                && bridge.pending == old(bridge.pending) + [PendingCopy(copySerial, target.value, lease.value)]
      ensures !ok ==>
                && target.None? && copySerial == 0 && !gpuOnly && !gpuCopyReady
                && bridge.pending == old(bridge.pending)
      ensures !ok && exporter && lease.Some? ==> bridge.released == old(bridge.released) + {lease.value}
      ensures bridge.LiveWithin(old(bridge.live), old(target), target)
      ensures forall n :: old(bridge.LeasesBelow(n)) && (lease.Some? ==> lease.value < n) ==> bridge.LeasesBelow(n)
    {
      hide BufferSound, EarlierCopyDone, HgiVulkanBridge.LeasesBelow, CopiesSound, HgiVulkanBridge.TargetsSound,
        HgiVulkanBridge.Valid, HgiVulkanBridge.Undisturbed, HgiVulkanBridge.LiveWithin;
      var complete := PreviousComplete();
      ghost var live, submitted, completed := bridge.live, bridge.submitted, bridge.completedCopySerial;
      var serial;
      ok, serial := bridge.Copy(target, lease, exporter, sourceValid, submits);
      if !ok {
        GiveUpTarget();
      } else {
        bridge.MineOnly(live, submitted, completed, target, target, serial);
        CopyKeepsSound(target.value, copySerial, gpuOnly, gpuCopyReady, settled && converged && gpuOnly, live,
                       submitted, completed, serial, complete);
        copySerial, gpuOnly, gpuCopyReady, settled := serial, true, complete, false;
      }
    }

    /** Whether the last copy into the present target is done; its serial was issued. */
    method PreviousComplete() returns (complete: bool)
      requires Valid() && target.Some?
      ensures complete <==> copySerial != 0 && bridge.completedCopySerial >= copySerial
      ensures copySerial <= bridge.nextCopySerial
    {
      hide BufferSound, HgiVulkanBridge.Valid;
      complete := false;
      if copySerial != 0 {
        SerialSubmitted();
        complete := bridge.IsCopyComplete(copySerial);
        bridge.SerialBound(copySerial);
      }
    }

    /** Retires the target after a failed copy. */
    method GiveUpTarget()
      requires Valid()
      modifies this`gpuOnly, this`gpuCopyReady, this`target, this`copySerial, bridge`outstandingTargets,
        bridge`telemetry, bridge`live
      ensures Valid() && target.None? && copySerial == 0 && !gpuOnly && !gpuCopyReady
      ensures bridge.Undisturbed(old(bridge.live), bridge.submitted, bridge.completedCopySerial, old(target))
      ensures bridge.LiveWithin(old(bridge.live), old(target), target)
    {
      hide BufferSound, HgiVulkanBridge.Valid, CopiesSound;
      EndGpuOnly();
      DestroyHgiTarget();
    }

    /** A converged GPU-only buffer has had an earlier copy into its present target complete. */
    method SetConverged(requested: bool)
      requires Valid()
      modifies this`converged, this`settled
      ensures Valid() && settled
      ensures converged <==> requested && (!gpuOnly || gpuCopyReady)
      ensures converged && gpuOnly ==>
                && target.Some?
                && EarlierCopyDone(target.value, copySerial, bridge.submitted, bridge.completedCopySerial)
                && bridge.submitted[copySerial] == target.value
    {
      converged := requested && (!gpuOnly || gpuCopyReady);
      settled := true;
    }

    /** Colour stays on the GPU; other formats are downloaded once. */
    method Map(downloads: bool) returns (mapped: bool)
      requires Valid()
      modifies this`mapCount, this`gpuOnly
      ensures Valid() && (mapped ==> mapCount == old(mapCount) + 1 && !gpuOnly)
      ensures mapped <==> bytes != 0 && (old(gpuOnly) ==> !format.UNorm8Vec4? && downloads)
      ensures !mapped ==> mapCount == old(mapCount) && gpuOnly == old(gpuOnly)
    {
      if bytes == 0 {
        return false;
      }
      if gpuOnly {
        if format.UNorm8Vec4? || !downloads {
          return false;
        }
        gpuOnly := false;
      }
      mapCount := mapCount + 1;
      return true;
    }

    method Unmap()
      requires Valid()
      modifies this`mapCount
      ensures Valid() && mapCount == if old(mapCount) != 0 then old(mapCount) - 1 else 0
    {
      if mapCount != 0 {
        mapCount := mapCount - 1;
      }
    }

    /** Gives the target back, unless the buffer is mapped. */
    method Deallocate()
      requires Valid()
      modifies this`dimensions, this`format, this`bytes, this`gpuOnly, this`gpuCopyReady, this`converged, this`target,
        this`copySerial, bridge`outstandingTargets, bridge`telemetry, bridge`live
      ensures Valid()
      ensures bridge.Undisturbed(old(bridge.live), old(bridge.submitted), old(bridge.completedCopySerial), old(target))
      ensures bridge.LiveWithin(old(bridge.live), old(target), target)
      ensures mapCount != 0 ==> target == old(target) && bridge.live == old(bridge.live)
      ensures mapCount == 0 ==>
                && target.None? && copySerial == 0 && !gpuOnly && !converged && bytes == 0
                && bridge.live == if old(target).Some? then old(bridge.live) - {old(target).value} else old(bridge.live)
    {
      hide CopiesSound, HgiVulkanBridge.TargetsSound, HgiVulkanBridge.Valid;
      if mapCount != 0 {
        return;
      }
      gpuOnly, gpuCopyReady := false, false;
      DestroyHgiTarget();
      dimensions, format, bytes := Dimensions(0, 0, 0), NoFormat, 0;
      converged := false;
    }

    /** The destructor retires the target, even while the buffer is mapped. */
    method Destroy()
      requires Valid()
      modifies this`target, this`copySerial, this`gpuCopyReady, bridge`outstandingTargets, bridge`telemetry, bridge`live
      ensures bridge.Valid() && target.None?
      ensures bridge.live == if old(target).Some? then old(bridge.live) - {old(target).value} else old(bridge.live)
    {
      hide CopiesSound, HgiVulkanBridge.TargetsSound, HgiVulkanBridge.Valid;
      target := bridge.DestroyTarget(target);
      copySerial, gpuCopyReady := 0, false;
    }
  }
}
