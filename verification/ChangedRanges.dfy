/**
 Runs of changed elements.  A scan turns a per-element change test into ranges that are
 non-empty, ordered, separated by unchanged elements and cover exactly what changed.
 */
module ChangedRanges {
  import opened Arithmetic
  import opened Splices

  const UINT32 := 0x1_0000_0000

  /** Both numbers are kept in 32 bits. */
  datatype ElementRange = ElementRange(first: nat, count: nat)

  /** The cast of a size to 32 bits. */
  function Narrow(n: nat): (r: nat)
    ensures n < UINT32 ==> r == n
    ensures r < UINT32
  {
    n % UINT32
  }

  predicate Covers(r: ElementRange, j: nat) {
    r.first <= j < r.first + r.count
  }

  ghost predicate Covered(ranges: seq<ElementRange>, j: nat) {
    exists k :: 0 <= k < |ranges| && Covers(ranges[k], j)
  }

  /** The ranges are exactly the maximal runs of changed elements. */
  ghost predicate Exact(ranges: seq<ElementRange>, changed: seq<bool>) {
    && (forall k :: 0 <= k < |ranges| ==> ranges[k].count > 0 && ranges[k].first + ranges[k].count <= |changed|)
    && (forall k :: 0 <= k < |ranges| - 1 ==> ranges[k].first + ranges[k].count < ranges[k + 1].first)
    && (forall j :: 0 <= j < |changed| ==> (changed[j] <==> Covered(ranges, j)))
  }

  // ------------------------------------------------------------ The runs as a function

  /** The runs of changed elements, before any narrowing. */
  function Runs(changed: seq<bool>): (ranges: seq<ElementRange>)
    ensures forall k :: 0 <= k < |ranges| ==> ranges[k].first + ranges[k].count <= |changed|
  {
    if changed == [] then []
    else
      var n := |changed| - 1;
      var before := Runs(changed[..n]);
      if !changed[n] then before
      else if EndsAt(before, n) then
        before[..|before| - 1] + [ElementRange(before[|before| - 1].first, before[|before| - 1].count + 1)]
      else before + [ElementRange(n, 1)]
  }

  function Narrowed(ranges: seq<ElementRange>): (r: seq<ElementRange>)
    ensures |r| == |ranges|
  {
    seq(|ranges|, k requires 0 <= k < |ranges| => ElementRange(Narrow(ranges[k].first), Narrow(ranges[k].count)))
  }

  lemma {:induction false} RunsExact(changed: seq<bool>)
    ensures Exact(Runs(changed), changed)
  {
    hide Exact, EndsAt;
    if changed == [] {
      NoRuns();
    } else {
      var n := |changed| - 1;
      RunsExact(changed[..n]);
      ExtendExact(Runs(changed[..n]), changed);
    }
  }

  lemma NoRuns()
    ensures Exact([], [])
  {
  }

  lemma ExtendExact(before: seq<ElementRange>, changed: seq<bool>)
    requires changed != [] && Exact(before, changed[..|changed| - 1])
    ensures var n := |changed| - 1;
            && (!changed[n] ==> Exact(before, changed))
            && (changed[n] && EndsAt(before, n) ==>
                  Exact(before[..|before| - 1] +
                        [ElementRange(before[|before| - 1].first, before[|before| - 1].count + 1)], changed))
            && (changed[n] && !EndsAt(before, n) ==> Exact(before + [ElementRange(n, 1)], changed))
  {
    hide *;
    var n := |changed| - 1;
    if !changed[n] {
      KeepRuns(before, changed);
    } else if EndsAt(before, n) {
      ExtendLastRun(before, changed);
    } else {
      StartRun(before, changed);
    }
  }

  /** The last run ends just before element n. */
  predicate EndsAt(runs: seq<ElementRange>, n: nat) {
    runs != [] && runs[|runs| - 1].first + runs[|runs| - 1].count == n
  }

  /** Runs of the elements so far say the same about the longer sequence. */
  lemma CoverSoFar(before: seq<ElementRange>, changed: seq<bool>)
    requires changed != [] && Exact(before, changed[..|changed| - 1])
    ensures forall j :: 0 <= j < |changed| - 1 ==> (changed[j] <==> Covered(before, j))
    ensures !Covered(before, |changed| - 1)
  {
    assert forall j :: 0 <= j < |changed| - 1 ==> changed[..|changed| - 1][j] == changed[j];
  }

  lemma KeepRuns(before: seq<ElementRange>, changed: seq<bool>)
    requires changed != [] && !changed[|changed| - 1] && Exact(before, changed[..|changed| - 1])
    ensures Exact(before, changed)
  {
    CoverSoFar(before, changed);
  }

  lemma ExtendLastRun(before: seq<ElementRange>, changed: seq<bool>)
    requires changed != [] && changed[|changed| - 1] && Exact(before, changed[..|changed| - 1])
    requires EndsAt(before, |changed| - 1)
    ensures Exact(before[..|before| - 1] +
                  [ElementRange(before[|before| - 1].first, before[|before| - 1].count + 1)], changed)
  {
    var n, last := |changed| - 1, |before| - 1;
    var after := before[..last] + [ElementRange(before[last].first, before[last].count + 1)];
    CoverSoFar(before, changed);
    assert Covers(after[last], n);
    forall j | 0 <= j < n ensures Covered(after, j) <==> Covered(before, j) {
      SameCover(before, after, last, j);
    }
    hide Covers, Covered;
  }

  lemma StartRun(before: seq<ElementRange>, changed: seq<bool>)
    requires changed != [] && changed[|changed| - 1] && Exact(before, changed[..|changed| - 1])
    requires !EndsAt(before, |changed| - 1)
    ensures Exact(before + [ElementRange(|changed| - 1, 1)], changed)
  {
    var n := |changed| - 1;
    var after := before + [ElementRange(n, 1)];
    CoverSoFar(before, changed);
    assert Covers(after[|before|], n);
    forall j | 0 <= j < n ensures Covered(after, j) <==> Covered(before, j) {
      MoreCover(before, n, j);
    }
    hide Covers, Covered;
  }

  lemma MoreCover(before: seq<ElementRange>, n: nat, j: nat)
    requires j < n
    ensures Covered(before + [ElementRange(n, 1)], j) <==> Covered(before, j)
  {
    var after := before + [ElementRange(n, 1)];
    if Covered(before, j) {
      var k :| 0 <= k < |before| && Covers(before[k], j);
      assert Covers(after[k], j);
    }
    if Covered(after, j) {
      var k :| 0 <= k < |after| && Covers(after[k], j);
      assert Covers(before[k], j);
    }
  }

  lemma SameCover(before: seq<ElementRange>, after: seq<ElementRange>, last: nat, j: nat)
    requires last == |before| - 1 && |after| == |before| && after[..last] == before[..last]
    requires after[last].first == before[last].first && after[last].count == before[last].count + 1
    requires j != before[last].first + before[last].count
    ensures Covered(after, j) <==> Covered(before, j)
  {
    assert forall k :: 0 <= k < last ==> after[..last][k] == before[..last][k];
    if Covered(before, j) {
      var k :| 0 <= k < |before| && Covers(before[k], j);
      assert Covers(after[k], j);
    }
    if Covered(after, j) {
      var k :| 0 <= k < |after| && Covers(after[k], j);
      assert Covers(before[k], j);
    }
  }

  /** No other list of ranges has the three properties: they say everything about it. */
  lemma {:induction false} ExactUnique(a: seq<ElementRange>, b: seq<ElementRange>, changed: seq<bool>)
    requires Exact(a, changed) && Exact(b, changed)
    ensures a == b
  {
    var k := 0;
    while k < |a| && k < |b| && a[k] == b[k]
      invariant k <= |a| && k <= |b| && a[..k] == b[..k]
    {
      k := k + 1;
    }
    assert k == |a| && k == |b| by {
      if k < |a| || k < |b| {
        NextRunAgrees(a, b, changed, k);
      }
    }
  }

  /** Ranges never overlap or touch. */
  lemma {:induction false} Ordered(ranges: seq<ElementRange>, changed: seq<bool>, j: nat, k: nat)
    requires Exact(ranges, changed) && j < k < |ranges|
    ensures ranges[j].first + ranges[j].count < ranges[k].first
    decreases k - j
  {
    if j + 1 < k {
      Ordered(ranges, changed, j + 1, k);
    }
  }

  /** Where two exact lists agree so far, they have the same next run. */
  lemma NextRunAgrees(a: seq<ElementRange>, b: seq<ElementRange>, changed: seq<bool>, k: nat)
    requires Exact(a, changed) && Exact(b, changed) && k <= |a| && k <= |b| && a[..k] == b[..k]
    ensures k < |a| <==> k < |b|
    ensures k < |a| && k < |b| ==> a[k] == b[k]
  {
    if k < |a| {
      RunNotEarlier(a, b, changed, k);
    }
    if k < |b| {
      assert b[..k] == a[..k];
      RunNotEarlier(b, a, changed, k);
    }
    if k < |a| && k < |b| {
      RunNotLonger(a, b, changed, k);
      RunNotLonger(b, a, changed, k);
    }
  }

  lemma RunNotEarlier(a: seq<ElementRange>, b: seq<ElementRange>, changed: seq<bool>, k: nat)
    requires Exact(a, changed) && Exact(b, changed) && k < |a| && k <= |b| && a[..k] == b[..k]
    ensures k < |b| && b[k].first <= a[k].first
  {
    var j := a[k].first;
    assert Covers(a[k], j);
    assert changed[j];
    var i :| 0 <= i < |b| && Covers(b[i], j);
    assert i >= k by {
      if i < k {
        assert b[i] == a[..k][i] == a[i];
        Ordered(a, changed, i, k);
      }
    }
    if i > k {
      Ordered(b, changed, k, i);
    }
  }

  lemma RunNotLonger(a: seq<ElementRange>, b: seq<ElementRange>, changed: seq<bool>, k: nat)
    requires Exact(a, changed) && Exact(b, changed) && k < |a| && k < |b| && a[k].first == b[k].first
    ensures a[k].count <= b[k].count
  {
    var end := b[k].first + b[k].count;
    if end < a[k].first + a[k].count {
      assert Covers(a[k], end);
      assert changed[end];
      var i :| 0 <= i < |b| && Covers(b[i], end);
      if i < k {
        Ordered(b, changed, i, k);
      } else if k < i {
        Ordered(b, changed, k, i);
      }
    }
  }

  // ------------------------------------------------------------ Applying the ranges

  predicate InBounds(ranges: seq<ElementRange>, size: nat) {
    forall k :: 0 <= k < |ranges| ==> ranges[k].first + ranges[k].count <= size
  }

  /** Copies the elements of every range from `current` over `previous`. */
  function Patched<T>(previous: seq<T>, current: seq<T>, ranges: seq<ElementRange>): (r: seq<T>)
    requires |previous| == |current| && InBounds(ranges, |current|)
    ensures |r| == |current|
  {
    if ranges == [] then previous
    else
      var r := ranges[|ranges| - 1];
      var before := Patched(previous, current, ranges[..|ranges| - 1]);
      WriteAt(before, r.first, current[r.first..r.first + r.count])
  }

  lemma {:induction false} PatchedAt<T>(previous: seq<T>, current: seq<T>, ranges: seq<ElementRange>, j: nat)
    requires |previous| == |current| && j < |current| && InBounds(ranges, |current|)
    ensures Patched(previous, current, ranges)[j] == if Covered(ranges, j) then current[j] else previous[j]
  {
    if ranges != [] {
      var init := ranges[..|ranges| - 1];
      PatchedAt(previous, current, init, j);
      CoveredByLast(ranges, j);
      var r := ranges[|ranges| - 1];
      assert Covers(r, j) ==> current[r.first..r.first + r.count][j - r.first] == current[j];
    }
  }

  lemma CoveredByLast(ranges: seq<ElementRange>, j: nat)
    requires ranges != []
    ensures Covered(ranges, j) <==> Covered(ranges[..|ranges| - 1], j) || Covers(ranges[|ranges| - 1], j)
  {
    var init := ranges[..|ranges| - 1];
    if Covered(init, j) {
      var k :| 0 <= k < |init| && Covers(init[k], j);
      assert Covers(ranges[k], j);
    }
    if Covered(ranges, j) && !Covers(ranges[|ranges| - 1], j) {
      var k :| 0 <= k < |ranges| && Covers(ranges[k], j);
      assert Covers(init[k], j);
    }
  }

  /** Copying ranges over the previous array gives the current one exactly if they cover
      every element that differs. */
  lemma PatchRestores<T>(previous: seq<T>, current: seq<T>, ranges: seq<ElementRange>)
    requires |previous| == |current| && InBounds(ranges, |current|)
    ensures Patched(previous, current, ranges) == current <==>
            forall j :: 0 <= j < |current| && previous[j] != current[j] ==> Covered(ranges, j)
  {
    forall j | 0 <= j < |current|
      ensures Patched(previous, current, ranges)[j] == if Covered(ranges, j) then current[j] else previous[j]
    {
      PatchedAt(previous, current, ranges, j);
    }
    hide Covered;
    var patched := Patched(previous, current, ranges);
    if patched != current {
      var j :| 0 <= j < |current| && patched[j] != current[j];
    }
  }

  // ------------------------------------------------------------ Narrowing

  /** Both numbers of every range fit their 32 bits. */
  predicate FieldsFit(ranges: seq<ElementRange>) {
    forall k :: 0 <= k < |ranges| ==> ranges[k].first < UINT32 && ranges[k].count < UINT32
  }

  /** The last element of the last run whose fields do not fit is lost. */
  lemma LostElement(changed: seq<bool>, ranges: seq<ElementRange>, r: nat)
    requires Exact(ranges, changed) && r < |ranges| && !(ranges[r].first < UINT32 && ranges[r].count < UINT32)
    requires forall k :: r < k < |ranges| ==> ranges[k].first < UINT32 && ranges[k].count < UINT32
    ensures var j := ranges[r].first + ranges[r].count - 1; changed[j] && !Covered(Narrowed(ranges), j)
  {
    var j := ranges[r].first + ranges[r].count - 1;
    assert Covers(ranges[r], j);
    forall k | 0 <= k < |ranges| ensures !Covers(Narrowed(ranges)[k], j) {
      if k < r {
        Ordered(ranges, changed, k, r);
      } else if r < k {
        Ordered(ranges, changed, r, k);
      }
    }
  }

  lemma LastMisfit(ranges: seq<ElementRange>) returns (r: nat)
    requires !FieldsFit(ranges)
    ensures r < |ranges| && !(ranges[r].first < UINT32 && ranges[r].count < UINT32)
    ensures forall k :: r < k < |ranges| ==> ranges[k].first < UINT32 && ranges[k].count < UINT32
  {
    var i := |ranges|;
    while ranges[i - 1].first < UINT32 && ranges[i - 1].count < UINT32
      invariant 0 < i <= |ranges|
      invariant forall k :: i <= k < |ranges| ==> ranges[k].first < UINT32 && ranges[k].count < UINT32
      decreases i
    {
      i := i - 1;
    }
    r := i - 1;
  }

  /** Narrowing never moves a range past the end. */
  lemma NarrowedInBounds(changed: seq<bool>)
    ensures InBounds(Narrowed(Runs(changed)), |changed|)
  {
  }

  /** The narrowed runs are exact, or just cover what changed, if and only if no run starts at
      or beyond 2^32 and none is as long. */
  lemma NarrowedExactly(changed: seq<bool>)
    ensures Exact(Narrowed(Runs(changed)), changed) <==> FieldsFit(Runs(changed))
    ensures (forall j :: 0 <= j < |changed| && changed[j] ==> Covered(Narrowed(Runs(changed)), j)) <==>
            FieldsFit(Runs(changed))
    ensures |changed| < UINT32 ==> FieldsFit(Runs(changed))
  {
    var runs := Runs(changed);
    RunsExact(changed);
    if FieldsFit(runs) {
      assert Narrowed(runs) == runs;
    } else {
      var r := LastMisfit(runs);
      LostElement(changed, runs, r);
    }
  }

  // ------------------------------------------------------------ The scan

  /** Elements below i are scanned; `first` is the start of an open run, or |changed| if none is. */
  ghost predicate Scanned(changed: seq<bool>, i: nat, ranges: seq<ElementRange>, first: nat)
    requires i <= |changed|
  {
    var runs := Runs(changed[..i]);
    if first == |changed| then
      && ranges == Narrowed(runs)
      && (runs != [] ==> runs[|runs| - 1].first + runs[|runs| - 1].count < i)
    else
      && first < i && runs != []
      && runs[|runs| - 1] == ElementRange(first, i - first)
      && ranges == Narrowed(runs[..|runs| - 1])
  }

  lemma ScanStart(changed: seq<bool>)
    ensures Scanned(changed, 0, [], |changed|)
  {
  }

  lemma ScanStep(changed: seq<bool>, i: nat, ranges: seq<ElementRange>, first: nat)
    requires i < |changed| && Scanned(changed, i, ranges, first)
    ensures changed[i] && first == |changed| ==> Scanned(changed, i + 1, ranges, i)
    ensures changed[i] && first != |changed| ==> Scanned(changed, i + 1, ranges, first)
    ensures !changed[i] && first == |changed| ==> Scanned(changed, i + 1, ranges, first)
    ensures !changed[i] && first != |changed| ==>
              && first <= i
              && Scanned(changed, i + 1, ranges + [ElementRange(Narrow(first), Narrow(i - first))], |changed|)
  {
    hide Narrow;
    assert changed[..i + 1][..i] == changed[..i];
    var runs, next := Runs(changed[..i]), Runs(changed[..i + 1]);
    if !changed[i] && first != |changed| {
      assert runs == runs[..|runs| - 1] + [ElementRange(first, i - first)];
    } else if changed[i] && first == |changed| {
      assert next[..|next| - 1] == runs;
    } else if changed[i] {
      assert next[..|next| - 1] == runs[..|runs| - 1];
    }
  }

  lemma ScanEnd(changed: seq<bool>, ranges: seq<ElementRange>, first: nat)
    requires Scanned(changed, |changed|, ranges, first)
    ensures first == |changed| ==> ranges == Narrowed(Runs(changed))
    ensures first != |changed| ==>
              && first <= |changed|
              && ranges + [ElementRange(Narrow(first), Narrow(|changed| - first))] == Narrowed(Runs(changed))
  {
    hide Runs, Narrow, Narrowed;
    assert changed[..|changed|] == changed;
    var runs := Runs(changed);
    if first != |changed| {
      NarrowedLast(runs);
    }
  }

  lemma NarrowedLast(runs: seq<ElementRange>)
    requires runs != []
    ensures var last := runs[|runs| - 1];
            Narrowed(runs) == Narrowed(runs[..|runs| - 1]) + [ElementRange(Narrow(last.first), Narrow(last.count))]
  {
  }

  /** One range over everything; nothing for an empty array. */
  function FullRange(size: nat): seq<ElementRange> {
    if size == 0 then [] else [ElementRange(0, Narrow(size))]
  }

  /** The range covers the first size mod 2^32 elements. */
  lemma FullRangeCovers(size: nat, j: nat)
    ensures Covered(FullRange(size), j) <==> j < Narrow(size)
  {
    if j < Narrow(size) {
      assert Covers(FullRange(size)[0], j);
    }
  }

  /** When everything changed, the full range is exact if and only if the size fits 32 bits. */
  lemma FullRangeExactly(size: nat, changed: seq<bool>)
    requires |changed| == size && forall j :: 0 <= j < size ==> changed[j]
    ensures Exact(FullRange(size), changed) <==> size < UINT32
  {
    forall j: nat ensures Covered(FullRange(size), j) <==> j < Narrow(size) {
      FullRangeCovers(size, j);
    }
    if size >= UINT32 {
      assert changed[size - 1] && !Covered(FullRange(size), size - 1);
    }
  }

  /** At every multiple of 2^32 the full range is empty. */
  lemma FullRangeWraps(m: nat, j: nat)
    ensures !Covered(FullRange(m * UINT32), j)
  {
    Multiple(m, UINT32);
    FullRangeCovers(m * UINT32, j);
  }
}
