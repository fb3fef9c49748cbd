/**
 Range updates of a GPU scene table: what validation accepts, and what applying the accepted
 ranges does to the table.
 */
module GpuSceneUpdates {
  import opened Arithmetic
  import opened Splices

  const CAPACITY_LIMIT := 0x1_0000_0000
  const TOTAL_LIMIT := 0x1_0000_0000_0000_0000

  datatype PackedRange<T> = PackedRange(first: nat, records: seq<T>)

  datatype DirtyRange = DirtyRange(first: nat, count: nat)

  datatype Packed<T> = Packed(ranges: seq<PackedRange<T>>, recordCount: nat, copyBytes: nat)

  datatype Outcome = Accepted | PlanMismatch | RangeMismatch | Unordered | TotalMismatch

  function Total<T>(ranges: seq<PackedRange<T>>): nat {
    if ranges == [] then 0 else Total(ranges[..|ranges| - 1]) + |ranges[|ranges| - 1].records|
  }

  predicate MatchesPlan<T>(r: PackedRange<T>, d: DirtyRange) {
    r.records != [] && r.first == d.first && |r.records| == d.count
  }

  /** Every range ends inside the table, before the next one starts. */
  ghost predicate Ordered<T>(ranges: seq<PackedRange<T>>, capacity: nat) {
    && AllFit(ranges, capacity)
    && (forall j, k :: 0 <= j < k < |ranges| ==> ranges[j].first + |ranges[j].records| <= ranges[k].first)
  }

  /** The first n ranges match the plan and keep the order. */
  ghost predicate SoundUpTo<T>(ranges: seq<PackedRange<T>>, dirty: seq<DirtyRange>, capacity: nat, n: nat)
    requires n <= |ranges| == |dirty|
  {
    (forall k :: 0 <= k < n ==> MatchesPlan(ranges[k], dirty[k])) && Ordered(ranges[..n], capacity)
  }

  method ValidateGpuSceneTableUpdate<T>(packed: Packed<T>, dirty: seq<DirtyRange>, capacity: nat, recordSize: nat)
    returns (outcome: Outcome)
    ensures outcome.Accepted? <==>
              && |packed.ranges| == |dirty|
              && (forall k :: 0 <= k < |dirty| ==>
                    packed.ranges[k].first == dirty[k].first && |packed.ranges[k].records| == dirty[k].count > 0)
              && Ordered(packed.ranges, capacity)
              && packed.recordCount == Total(packed.ranges)
              && packed.copyBytes == Total(packed.ranges) * recordSize
    ensures outcome.Accepted? ==>
              && (forall k :: 0 <= k < |dirty| ==> dirty[k].first + dirty[k].count <= capacity)
              && (forall j, k :: 0 <= j < k < |dirty| ==> dirty[j].first + dirty[j].count <= dirty[k].first)
    ensures outcome.PlanMismatch? <==> |packed.ranges| != |dirty|
    ensures outcome.RangeMismatch? ==>
              exists k :: 0 <= k < |dirty| && SoundUpTo(packed.ranges, dirty, capacity, k) &&
                          !MatchesPlan(packed.ranges[k], dirty[k])
    ensures outcome.Unordered? ==>
              exists k :: 0 <= k < |dirty| && SoundUpTo(packed.ranges, dirty, capacity, k) &&
                          MatchesPlan(packed.ranges[k], dirty[k]) && !Ordered(packed.ranges[..k + 1], capacity)
    ensures outcome.TotalMismatch? ==> SoundUpTo(packed.ranges, dirty, capacity, |dirty|)
  {
    hide Ordered, Total;
    if |packed.ranges| != |dirty| {
      return PlanMismatch;
    }
    var records, bytes, previousEnd := 0, 0, 0;
    var i := 0;
    NothingOrdered(packed.ranges, capacity);
    while i < |packed.ranges|
      invariant 0 <= i <= |packed.ranges|
      invariant forall k :: 0 <= k < i ==> MatchesPlan(packed.ranges[k], dirty[k])
      invariant Ordered(packed.ranges[..i], capacity) && previousEnd == EndOf(packed.ranges[..i])
      invariant records == Total(packed.ranges[..i]) && bytes == records * recordSize
    {
      var range := packed.ranges[i];
      if !MatchesPlan(range, dirty[i]) {
        return RangeMismatch;
      }
      var end := range.first + |range.records|;
      OrderedMore(packed.ranges, i, capacity);
      if range.first < previousEnd || end > capacity {
        return Unordered;
      }
      Distributes(records, |range.records|, recordSize);
      previousEnd := end;
      records := records + |range.records|;
      bytes := bytes + |range.records| * recordSize;
      i := i + 1;
    }
    assert packed.ranges[..i] == packed.ranges;
    OrderedPlainly(packed.ranges, capacity);
    return if packed.recordCount == records && packed.copyBytes == bytes then Accepted else TotalMismatch;
  }

  function EndOf<T>(ranges: seq<PackedRange<T>>): nat {
    if ranges == [] then 0 else ranges[|ranges| - 1].first + |ranges[|ranges| - 1].records|
  }

  lemma OrderedPlainly<T>(ranges: seq<PackedRange<T>>, capacity: nat)
    requires Ordered(ranges, capacity)
    ensures forall k :: 0 <= k < |ranges| ==> ranges[k].first + |ranges[k].records| <= capacity
    ensures forall j, k :: 0 <= j < k < |ranges| ==> ranges[j].first + |ranges[j].records| <= ranges[k].first
  {
  }

  lemma NothingOrdered<T>(ranges: seq<PackedRange<T>>, capacity: nat)
    ensures Ordered(ranges[..0], capacity) && Total(ranges[..0]) == 0
  {
  }

  /** Comparing with the previous end alone decides whether one more range keeps the order. */
  lemma OrderedMore<T>(ranges: seq<PackedRange<T>>, i: nat, capacity: nat)
    requires i < |ranges| && Ordered(ranges[..i], capacity)
    ensures var r := ranges[i];
            && (Ordered(ranges[..i + 1], capacity) <==>
                EndOf(ranges[..i]) <= r.first && r.first + |r.records| <= capacity)
            && (!Ordered(ranges[..i + 1], capacity) ==> !Ordered(ranges, capacity))
            && Total(ranges[..i + 1]) == Total(ranges[..i]) + |r.records|
            && EndOf(ranges[..i + 1]) == r.first + |r.records|
  {
    var before, after := ranges[..i], ranges[..i + 1];
    assert after == before + [ranges[i]] && after[..i] == before;
    if EndOf(before) <= ranges[i].first {
      forall j | 0 <= j < i ensures before[j].first + |before[j].records| <= ranges[i].first {
        assert j < i - 1 ==> before[j].first + |before[j].records| <= before[i - 1].first;
      }
    } else {
      assert after[i - 1].first + |after[i - 1].records| > after[i].first;
    }
    PrefixOrdered(ranges, i + 1, capacity);
  }

  lemma PrefixOrdered<T>(ranges: seq<PackedRange<T>>, n: nat, capacity: nat)
    requires n <= |ranges|
    ensures Ordered(ranges, capacity) ==> Ordered(ranges[..n], capacity)
  {
  }

  lemma Distributes(a: nat, b: nat, k: nat)
    ensures (a + b) * k == a * k + b * k
  {
  }

  // ------------------------------------------------------------ Applying the ranges

  predicate AllFit<T>(ranges: seq<PackedRange<T>>, capacity: nat) {
    forall k :: 0 <= k < |ranges| ==> ranges[k].first + |ranges[k].records| <= capacity
  }

  /** The table after the ranges are copied one after another. */
  function Applied<T>(table: seq<T>, ranges: seq<PackedRange<T>>): (r: seq<T>)
    requires AllFit(ranges, |table|)
    ensures |r| == |table|
  {
    if ranges == [] then table
    else
      var last := ranges[|ranges| - 1];
      WriteAt(Applied(table, ranges[..|ranges| - 1]), last.first, last.records)
  }

  predicate Holds<T>(r: PackedRange<T>, slot: nat) {
    r.first <= slot < r.first + |r.records|
  }

  /** Accepted ranges never overwrite each other: each record ends up in its slot, and a slot
      outside all ranges keeps its record. */
  lemma {:induction false} AppliedAt<T>(table: seq<T>, ranges: seq<PackedRange<T>>, slot: nat)
    requires Ordered(ranges, |table|) && slot < |table|
    ensures AllFit(ranges, |table|)
    ensures forall k :: 0 <= k < |ranges| && Holds(ranges[k], slot) ==>
              Applied(table, ranges)[slot] == ranges[k].records[slot - ranges[k].first]
    ensures (forall k :: 0 <= k < |ranges| ==> !Holds(ranges[k], slot)) ==> Applied(table, ranges)[slot] == table[slot]
  {
    hide Ordered, AllFit;
    OrderedFits(ranges, |table|);
    if ranges != [] {
      var n := |ranges| - 1;
      var init := ranges[..n];
      PrefixOrdered(ranges, n, |table|);
      AppliedAt(table, init, slot);
      AppliedByLast(table, ranges, slot);
      if Holds(ranges[n], slot) {
        forall k | 0 <= k < n ensures !Holds(ranges[k], slot) {
          HoldsOnce(ranges, k, slot, |table|);
        }
      } else {
        assert forall k :: 0 <= k < n ==> init[k] == ranges[k];
      }
      hide Holds, Applied;
    }
  }

  lemma OrderedFits<T>(ranges: seq<PackedRange<T>>, capacity: nat)
    requires Ordered(ranges, capacity)
    ensures AllFit(ranges, capacity)
  {
  }

  lemma HoldsOnce<T>(ranges: seq<PackedRange<T>>, k: nat, slot: nat, capacity: nat)
    requires Ordered(ranges, capacity) && k < |ranges| - 1 && Holds(ranges[|ranges| - 1], slot)
    ensures !Holds(ranges[k], slot)
  {
  }

  lemma AppliedByLast<T>(table: seq<T>, ranges: seq<PackedRange<T>>, slot: nat)
    requires AllFit(ranges, |table|) && slot < |table| && ranges != []
    ensures AllFit(ranges[..|ranges| - 1], |table|)
    ensures var last := ranges[|ranges| - 1];
            Applied(table, ranges)[slot] ==
            if Holds(last, slot) then last.records[slot - last.first]
            else Applied(table, ranges[..|ranges| - 1])[slot]
  {
    assert AllFit(ranges[..|ranges| - 1], |table|);
    hide AllFit;
  }

  lemma {:induction false} TotalWithinEnd<T>(ranges: seq<PackedRange<T>>, capacity: nat)
    requires Ordered(ranges, capacity)
    ensures Total(ranges) <= EndOf(ranges) <= capacity
  {
    if ranges != [] {
      TotalWithinEnd(ranges[..|ranges| - 1], capacity);
    }
  }

  /** n slots from position first on. */
  function Span(first: nat, n: nat): set<nat> {
    if n == 0 then {} else Span(first, n - 1) + {first + n - 1}
  }

  lemma {:induction false} SpanSize(first: nat, n: nat)
    ensures |Span(first, n)| == n && forall s :: s in Span(first, n) <==> first <= s < first + n
  {
    if n > 0 {
      SpanSize(first, n - 1);
    }
  }

  ghost predicate Covered<T>(ranges: seq<PackedRange<T>>, slot: nat) {
    exists k :: 0 <= k < |ranges| && Holds(ranges[k], slot)
  }

  /** The slots that some range writes. */
  function Slots<T>(ranges: seq<PackedRange<T>>): set<nat> {
    if ranges == [] then {}
    else Slots(ranges[..|ranges| - 1]) + Span(ranges[|ranges| - 1].first, |ranges[|ranges| - 1].records|)
  }

  /** The total is the number of slots that some range writes. */
  lemma {:induction false} TotalCountsSlots<T>(ranges: seq<PackedRange<T>>, capacity: nat)
    requires Ordered(ranges, capacity)
    ensures Total(ranges) == |Slots(ranges)| && forall s :: s in Slots(ranges) <==> s >= 0 && Covered(ranges, s)
  {
    hide Covered, Holds;
    if ranges == [] {
      NothingCovered(ranges);
    } else {
      var n := |ranges| - 1;
      var init, last := ranges[..n], ranges[n];
      TotalCountsSlots(init, capacity);
      SpanSize(last.first, |last.records|);
      forall s: nat ensures Covered(ranges, s) <==> Covered(init, s) || s in Span(last.first, |last.records|) {
        CoveredNext(ranges, s);
      }
      forall s | s in Slots(init) ensures s !in Span(last.first, |last.records|) {
        CoveredBefore(ranges, capacity, s);
      }
    }
  }

  lemma NothingCovered<T>(ranges: seq<PackedRange<T>>)
    requires ranges == []
    ensures forall s: nat :: !Covered(ranges, s)
  {
  }

  lemma CoveredBefore<T>(ranges: seq<PackedRange<T>>, capacity: nat, s: nat)
    requires ranges != [] && Ordered(ranges, capacity) && Covered(ranges[..|ranges| - 1], s)
    ensures s < ranges[|ranges| - 1].first
  {
    var init := ranges[..|ranges| - 1];
    var k :| 0 <= k < |init| && Holds(init[k], s);
    assert init[k] == ranges[k];
  }

  lemma CoveredNext<T>(ranges: seq<PackedRange<T>>, s: nat)
    requires ranges != []
    ensures var last := ranges[|ranges| - 1];
            Covered(ranges, s) <==>
            Covered(ranges[..|ranges| - 1], s) || last.first <= s < last.first + |last.records|
  {
    var init := ranges[..|ranges| - 1];
    if Covered(init, s) {
      var k :| 0 <= k < |init| && Holds(init[k], s);
      assert ranges[k] == init[k];
    }
    if Covered(ranges, s) {
      var k :| 0 <= k < |ranges| && Holds(ranges[k], s);
      assert k < |init| ==> init[k] == ranges[k];
    }
  }

  /** The running 64-bit totals cannot overflow for ordered ranges in a 32-bit table. */
  lemma TotalsFit<T>(ranges: seq<PackedRange<T>>, capacity: nat, recordSize: nat)
    requires Ordered(ranges, capacity) && capacity < CAPACITY_LIMIT && recordSize < CAPACITY_LIMIT
    ensures Total(ranges) < CAPACITY_LIMIT && Total(ranges) * recordSize < TOTAL_LIMIT
  {
    TotalWithinEnd(ranges, capacity);
    ProductGrows(Total(ranges), CAPACITY_LIMIT - 1, recordSize);
  }
}
