/**
 Matching begin and end events of a trace, thread by thread, and attributing the matched
 scopes to presented frames.
 */
module TraceIntervals {

  datatype Event =
    | Complete(name: string, ts: real, dur: real)
    | Begin(name: string, tid: string, ts: real)
    | End(tid: string, ts: real)
    | OtherEvent

  /** A matched scope; for a begin/end pair also the positions of both events. */
  datatype Interval =
    | Whole(name: string, start: real, end: real, at: nat)
    | Paired(name: string, start: real, end: real, tid: string, first: nat, last: nat)

  // ------------------------------------------------------------ When a begin meets an end

  predicate BeginsOn(e: Event, tid: string) {
    e.Begin? && e.tid == tid
  }

  predicate EndsOn(e: Event, tid: string) {
    e.End? && e.tid == tid
  }

  /** Begins minus ends of one thread from position i up to, not including, position j. */
  function Height(events: seq<Event>, tid: string, i: nat, j: nat): int
    requires i <= j <= |events|
    decreases j
  {
    if i == j then 0
    else Height(events, tid, i, j - 1) +
         if BeginsOn(events[j - 1], tid) then 1 else if EndsOn(events[j - 1], tid) then -1 else 0
  }

  /** The scope begun at position b is still open just before position i. */
  ghost predicate Open(events: seq<Event>, tid: string, b: nat, i: nat) {
    && b < i <= |events| && BeginsOn(events[b], tid)
    && forall j {:trigger Height(events, tid, b, j)} :: b < j <= i ==> Height(events, tid, b, j) >= 1
  }

  /** The event at position e closes the scope begun at b: it is open until e and no longer. */
  ghost predicate Matches(events: seq<Event>, tid: string, b: nat, e: nat) {
    Open(events, tid, b, e) && e < |events| && Height(events, tid, b, e + 1) == 0
  }

  lemma {:induction false} HeightSplits(events: seq<Event>, tid: string, i: nat, j: nat, k: nat)
    requires i <= j <= k <= |events|
    ensures Height(events, tid, i, k) == Height(events, tid, i, j) + Height(events, tid, j, k)
    decreases k
  {
    if j < k {
      HeightSplits(events, tid, i, j, k - 1);
    }
  }

  lemma OpenThrough(events: seq<Event>, tid: string, b: nat, i: nat, j: nat)
    requires Open(events, tid, b, i) && b < j <= i
    ensures Height(events, tid, b, j) >= 1
  {
  }

  /** While an inner scope is open, the outer one cannot close. */
  lemma OuterStaysOpen(events: seq<Event>, tid: string, b: nat, e: nat, b': nat, e': nat)
    requires Open(events, tid, b, e) && Open(events, tid, b', e') && b < b' <= e <= e' && e < |events|
    ensures Height(events, tid, b, e + 1) >= 1
  {
    HeightSplits(events, tid, b, b', e + 1);
    OpenThrough(events, tid, b, e, b');
    if e < e' {
      OpenThrough(events, tid, b', e', e + 1);
    } else {
      OpenThrough(events, tid, b', e', e);
    }
  }

  /** Scopes of one thread nest or follow each other. */
  lemma ScopesNest(events: seq<Event>, tid: string, b: nat, e: nat, b': nat, e': nat)
    requires Matches(events, tid, b, e) && Matches(events, tid, b', e') && b < b'
    ensures e < b' || e' < e
  {
    if b' <= e && e <= e' {
      OuterStaysOpen(events, tid, b, e, b', e');
    }
  }

  /** A begin meets at most one end. */
  lemma OneEnd(events: seq<Event>, tid: string, b: nat, e: nat, e': nat)
    requires Matches(events, tid, b, e) && Matches(events, tid, b, e')
    ensures e == e'
  {
    var after: nat, after': nat := e + 1, e' + 1;
    if e < e' {
      OpenThrough(events, tid, b, e', after);
    } else if e' < e {
      OpenThrough(events, tid, b, e, after');
    }
  }

  /** An end meets at most one begin. */
  lemma OneBegin(events: seq<Event>, tid: string, b: nat, b': nat, e: nat)
    requires Matches(events, tid, b, e) && Matches(events, tid, b', e)
    ensures b == b'
  {
    if b < b' {
      ScopesNest(events, tid, b, e, b', e);
    } else if b' < b {
      ScopesNest(events, tid, b', e, b, e);
    }
  }

  // ------------------------------------------------------------ The stacks

  function StackOf(stacks: map<string, seq<nat>>, tid: string): seq<nat> {
    if tid in stacks then stacks[tid] else []
  }

  /** The stack of a thread holds its open begins, outermost first. */
  ghost predicate StackHolds(events: seq<Event>, tid: string, stack: seq<nat>, i: nat)
    requires i <= |events|
  {
    && (forall k :: 0 <= k < |stack| ==>
          Open(events, tid, stack[k], i) && Height(events, tid, stack[k], i) == |stack| - k)
    && (forall b: nat :: Open(events, tid, b, i) ==> b in stack)
  }

  lemma OpenNext(events: seq<Event>, tid: string, b: nat, i: nat)
    requires b <= i < |events|
    ensures b < i ==> (Open(events, tid, b, i + 1) <==> Open(events, tid, b, i) && Height(events, tid, b, i + 1) >= 1)
    ensures b == i ==> (Open(events, tid, b, i + 1) <==> BeginsOn(events[i], tid))
  {
    if b == i && BeginsOn(events[i], tid) {
      assert Height(events, tid, b, i) == 0;
      assert Height(events, tid, b, i + 1) == 1;
    }
  }

  lemma StackPushed(events: seq<Event>, tid: string, stack: seq<nat>, i: nat)
    requires i < |events| && StackHolds(events, tid, stack, i) && BeginsOn(events[i], tid)
    ensures StackHolds(events, tid, stack + [i], i + 1)
  {
    var stack' := stack + [i];
    forall k | 0 <= k < |stack'|
      ensures Open(events, tid, stack'[k], i + 1) && Height(events, tid, stack'[k], i + 1) == |stack'| - k
    {
      OpenNext(events, tid, stack'[k], i);
      if k == |stack| {
        assert Height(events, tid, i, i) == 0;
      }
    }
    forall b: nat | Open(events, tid, b, i + 1) ensures b in stack' {
      OpenNext(events, tid, b, i);
      assert stack'[|stack|] == i;
    }
  }

  lemma StackPopped(events: seq<Event>, tid: string, stack: seq<nat>, i: nat)
    requires i < |events| && StackHolds(events, tid, stack, i) && EndsOn(events[i], tid) && stack != []
    ensures StackHolds(events, tid, stack[..|stack| - 1], i + 1) && Matches(events, tid, stack[|stack| - 1], i)
  {
    var stack' := stack[..|stack| - 1];
    forall k | 0 <= k < |stack'|
      ensures Open(events, tid, stack'[k], i + 1) && Height(events, tid, stack'[k], i + 1) == |stack'| - k
    {
      OpenNext(events, tid, stack'[k], i);
    }
    forall b: nat | Open(events, tid, b, i + 1) ensures b in stack' {
      OpenNext(events, tid, b, i);
      assert b < i;
      var k :| 0 <= k < |stack| && stack[k] == b;
      assert k < |stack| - 1;
      assert stack'[k] == b;
    }
  }

  lemma StackKept(events: seq<Event>, tid: string, stack: seq<nat>, i: nat)
    requires i < |events| && StackHolds(events, tid, stack, i) && !BeginsOn(events[i], tid)
    requires EndsOn(events[i], tid) ==> stack == []
    ensures StackHolds(events, tid, stack, i + 1)
  {
    forall k | 0 <= k < |stack|
      ensures Open(events, tid, stack[k], i + 1) && Height(events, tid, stack[k], i + 1) == |stack| - k
    {
      OpenNext(events, tid, stack[k], i);
    }
    forall b: nat | Open(events, tid, b, i + 1) ensures b in stack {
      OpenNext(events, tid, b, i);
    }
  }

  // ------------------------------------------------------------ Collecting the intervals

  /** What one interval says about the events. */
  ghost predicate Faithful(x: Interval, events: seq<Event>) {
    match x
    case Whole(name, start, end, at) =>
      at < |events| && events[at].Complete? && name == events[at].name && start == events[at].ts &&
      end == events[at].ts + events[at].dur
    case Paired(name, start, end, tid, b, e) =>
      Matches(events, tid, b, e) && EndsOn(events[e], tid) && name == events[b].name && start == events[b].ts &&
      end == events[e].ts
  }

  /** The intervals of the events below position i, each once. */
  ghost predicate Collected(intervals: seq<Interval>, events: seq<Event>, i: nat)
    requires i <= |events|
  {
    && (forall k :: 0 <= k < |intervals| ==> Faithful(intervals[k], events) && ClosedAt(intervals[k]) < i)
    && (forall j, k :: 0 <= j < k < |intervals| ==> ClosedAt(intervals[j]) < ClosedAt(intervals[k]))
    && (forall at: nat :: at < i && events[at].Complete? ==> exists x :: x in intervals && x.Whole? && x.at == at)
    && (forall tid, b: nat, e: nat {:trigger Matches(events, tid, b, e)} :: e < i && Matches(events, tid, b, e) ==>
          exists x :: x in intervals && IsPair(x, tid, b, e))
  }

  predicate IsPair(x: Interval, tid: string, b: nat, e: nat) {
    x.Paired? && x.tid == tid && x.first == b && x.last == e
  }

  /** The position of the event that produced the interval. */
  function ClosedAt(x: Interval): nat {
    match x
    case Whole(_, _, _, at) => at
    case Paired(_, _, _, _, _, last) => last
  }

  lemma MatchEnds(events: seq<Event>, tid: string, b: nat, e: nat)
    requires Matches(events, tid, b, e)
    ensures EndsOn(events[e], tid)
  {
    assert Height(events, tid, b, e) >= 1;
  }

  lemma CollectedNone(intervals: seq<Interval>, events: seq<Event>, i: nat)
    requires i < |events| && Collected(intervals, events, i) && !events[i].Complete?
    requires forall tid, b: nat {:trigger Matches(events, tid, b, i)} :: !Matches(events, tid, b, i)
    ensures Collected(intervals, events, i + 1)
  {
  }

  lemma CollectedOne(intervals: seq<Interval>, events: seq<Event>, i: nat, x: Interval)
    requires i < |events| && Collected(intervals, events, i) && Faithful(x, events) && ClosedAt(x) == i
    ensures Collected(intervals + [x], events, i + 1)
  {
    var intervals' := intervals + [x];
    assert x in intervals';
    forall at: nat | at < i + 1 && events[at].Complete? ensures exists y :: y in intervals' && y.Whole? && y.at == at {
      if at < i {
        var y :| y in intervals && y.Whole? && y.at == at;
        assert y in intervals';
      } else {
        assert x.Whole?;
      }
    }
    forall tid, b: nat, e: nat | e < i + 1 && Matches(events, tid, b, e)
      ensures exists y :: y in intervals' && IsPair(y, tid, b, e)
    {
      MatchEnds(events, tid, b, e);
      if e < i {
        var y :| y in intervals && IsPair(y, tid, b, e);
        assert y in intervals';
      } else {
        OneBegin(events, tid, b, x.first, e);
        assert IsPair(x, tid, b, e);
      }
    }
  }

  lemma NothingOpen(events: seq<Event>, i: nat, stack: seq<nat>)
    requires i < |events| && events[i].End? && StackHolds(events, events[i].tid, stack, i) && stack == []
    ensures forall tid, b: nat {:trigger Matches(events, tid, b, i)} :: !Matches(events, tid, b, i)
  {
    forall tid, b: nat ensures !Matches(events, tid, b, i) {
      if Matches(events, tid, b, i) {
        MatchEnds(events, tid, b, i);
      }
    }
  }

  lemma NoEndNoMatch(events: seq<Event>, i: nat)
    requires i < |events| && !events[i].End?
    ensures forall tid, b: nat {:trigger Matches(events, tid, b, i)} :: !Matches(events, tid, b, i)
  {
    forall tid, b: nat ensures !Matches(events, tid, b, i) {
      if Matches(events, tid, b, i) {
        MatchEnds(events, tid, b, i);
      }
    }
  }

  /** All complete events and all matching pairs, in the order in which they end. */
  method CollectIntervals(events: seq<Event>) returns (intervals: seq<Interval>)
    ensures Collected(intervals, events, |events|)
  {
    hide Collected, StackHolds, Matches, Open, Height;
    var stacks: map<string, seq<nat>> := map[];
    intervals := [];
    var i := 0;
    StartEmpty(events);
    while i < |events|
      invariant 0 <= i <= |events| && Collected(intervals, events, i)
      invariant forall tid :: StackHolds(events, tid, StackOf(stacks, tid), i)
    {
      var event := events[i];
      ghost var before := stacks;
      match event {
        case Complete(name, ts, dur) =>
          CollectedOne(intervals, events, i, Whole(name, ts, ts + dur, i));
          intervals := intervals + [Whole(name, ts, ts + dur, i)];
        case Begin(_, tid, _) =>
          NoEndNoMatch(events, i);
          CollectedNone(intervals, events, i);
          StackPushed(events, tid, StackOf(stacks, tid), i);
          stacks := stacks[tid := StackOf(stacks, tid) + [i]];
        case End(tid, ts) =>
          var stack := StackOf(stacks, tid);
          if stack == [] {
            NothingOpen(events, i, stack);
            CollectedNone(intervals, events, i);
            StackKept(events, tid, stack, i);
          } else {
            var first := stack[|stack| - 1];
            StackPopped(events, tid, stack, i);
            BeginAt(events, tid, first, i);
            var x := Paired(events[first].name, events[first].ts, ts, tid, first, i);
            CollectedOne(intervals, events, i, x);
            intervals := intervals + [x];
            stacks := stacks[tid := stack[..|stack| - 1]];
          }
        case OtherEvent =>
          NoEndNoMatch(events, i);
          CollectedNone(intervals, events, i);
      }
      forall tid | !BeginsOn(event, tid) && !EndsOn(event, tid)
        ensures StackHolds(events, tid, StackOf(stacks, tid), i + 1)
      {
        assert StackOf(stacks, tid) == StackOf(before, tid);
        StackKept(events, tid, StackOf(before, tid), i);
      }
      i := i + 1;
    }
  }

  lemma BeginAt(events: seq<Event>, tid: string, b: nat, e: nat)
    requires Matches(events, tid, b, e)
    ensures b < e < |events| && events[b].Begin? && EndsOn(events[e], tid)
  {
    MatchEnds(events, tid, b, e);
  }

  lemma StartEmpty(events: seq<Event>)
    ensures Collected([], events, 0) && forall tid :: StackHolds(events, tid, [], 0)
  {
  }

  // ------------------------------------------------------------ Intervals in time

  /** Time never runs backwards on a thread. */
  ghost predicate Monotone(events: seq<Event>, tid: string) {
    forall i, j {:trigger events[i], events[j]} ::
      0 <= i < j < |events| && Scoped(events[i], tid) && Scoped(events[j], tid) ==> events[i].ts <= events[j].ts
  }

  predicate Scoped(e: Event, tid: string) {
    BeginsOn(e, tid) || EndsOn(e, tid)
  }

  /** Two scopes of one thread are disjoint in time, or one lies inside the other; each has a
      begin and an end of its own, and none lasts less than nothing. */
  lemma PairsNestInTime(intervals: seq<Interval>, events: seq<Event>, j: nat, k: nat)
    requires Collected(intervals, events, |events|) && j < k < |intervals|
    requires intervals[j].Paired? && intervals[k].Paired? && intervals[j].tid == intervals[k].tid
    requires Monotone(events, intervals[j].tid)
    ensures var x, y := intervals[j], intervals[k];
            && x.first != y.first && x.last != y.last
            && x.start <= x.end && y.start <= y.end
            && (x.end <= y.start || (y.start <= x.start && x.end <= y.end))
  {
    var x, y := intervals[j], intervals[k];
    assert Faithful(x, events) && Faithful(y, events) && x.last < y.last;
    BeginAt(events, x.tid, x.first, x.last);
    BeginAt(events, y.tid, y.first, y.last);
    if x.first == y.first {
      OneEnd(events, x.tid, x.first, x.last, y.last);
    } else if x.first < y.first {
      ScopesNest(events, x.tid, x.first, x.last, y.first, y.last);
    }
  }

  /** With monotone threads and non-negative durations no interval lasts less than nothing. */
  lemma NoNegativeScopes(intervals: seq<Interval>, events: seq<Event>)
    requires Collected(intervals, events, |events|) && Sensible(events)
    ensures forall x :: x in intervals ==> Duration(x) >= 0.0
  {
    forall k | 0 <= k < |intervals| ensures Duration(intervals[k]) >= 0.0 {
      var x := intervals[k];
      assert Faithful(x, events);
      if x.Paired? {
        BeginAt(events, x.tid, x.first, x.last);
        assert Monotone(events, x.tid);
      }
    }
  }

  ghost predicate Sensible(events: seq<Event>) {
    && (forall tid {:trigger Monotone(events, tid)} :: Monotone(events, tid))
    && (forall i :: 0 <= i < |events| && events[i].Complete? ==> events[i].dur >= 0.0)
  }

  function Duration(x: Interval): real {
    x.end - x.start
  }

  // ------------------------------------------------------------ Presented frames

  /** Phases are the intervals named so; a later one of the same name replaces an earlier. */
  function Phases(intervals: seq<Interval>, prefix: string): map<string, (real, real)> {
    if intervals == [] then map[]
    else
      var x := intervals[|intervals| - 1];
      var before := Phases(intervals[..|intervals| - 1], prefix);
      if prefix <= x.name then before[x.name[|prefix|..] := (x.start, x.end)] else before
  }

  /** Interval i is the last of the phase's name. */
  predicate LastNamed(intervals: seq<Interval>, name: string, i: int) {
    0 <= i < |intervals| && intervals[i].name == name &&
    forall j :: i < j < |intervals| ==> intervals[j].name != name
  }

  lemma {:induction false} PhasesAreLast(intervals: seq<Interval>, prefix: string, phase: string)
    ensures phase in Phases(intervals, prefix) <==> exists i :: LastNamed(intervals, prefix + phase, i)
    ensures forall i :: LastNamed(intervals, prefix + phase, i) ==>
              Phases(intervals, prefix)[phase] == (intervals[i].start, intervals[i].end)
  {
    if intervals != [] {
      var init, last := intervals[..|intervals| - 1], |intervals| - 1;
      PhasesAreLast(init, prefix, phase);
      if intervals[last].name == prefix + phase {
        assert LastNamed(intervals, prefix + phase, last);
      } else {
        assert prefix <= intervals[last].name ==> intervals[last].name == prefix + intervals[last].name[|prefix|..];
        assert forall i :: LastNamed(init, prefix + phase, i) <==> LastNamed(intervals, prefix + phase, i);
      }
    }
  }

  predicate Inside(x: Interval, start: real, end: real) {
    x.start >= start && x.end <= end
  }

  /** The intervals inside a phase, in order. */
  function PhaseEvents(intervals: seq<Interval>, start: real, end: real): (r: seq<Interval>)
    ensures forall x :: x in r <==> x in intervals && Inside(x, start, end)
  {
    if intervals == [] then []
    else
      var x := intervals[|intervals| - 1];
      PhaseEvents(intervals[..|intervals| - 1], start, end) + if Inside(x, start, end) then [x] else []
  }

  predicate EndsWith(name: string, suffix: string) {
    |suffix| <= |name| && name[|name| - |suffix|..] == suffix
  }

  predicate EndsWithAny(name: string, suffixes: seq<string>) {
    exists k :: 0 <= k < |suffixes| && EndsWith(name, suffixes[k])
  }

  /** The intervals whose name ends with one of the suffixes, in order. */
  function NamedLike(intervals: seq<Interval>, suffixes: seq<string>): (r: seq<Interval>)
    ensures forall x :: x in r <==> x in intervals && EndsWithAny(x.name, suffixes)
  {
    if intervals == [] then []
    else
      var x := intervals[|intervals| - 1];
      NamedLike(intervals[..|intervals| - 1], suffixes) + if EndsWithAny(x.name, suffixes) then [x] else []
  }

  predicate SortedByEnd(xs: seq<Interval>) {
    forall i, j :: 0 <= i < j < |xs| ==> xs[i].end <= xs[j].end
  }

  function InsertByEnd(xs: seq<Interval>, x: Interval): (r: seq<Interval>)
    requires SortedByEnd(xs)
    ensures SortedByEnd(r) && multiset(r) == multiset(xs) + multiset{x}
  {
    if xs == [] || xs[|xs| - 1].end <= x.end then xs + [x]
    else
      var r := InsertByEnd(xs[..|xs| - 1], x);
      assert xs == xs[..|xs| - 1] + [xs[|xs| - 1]];
      SortedLast(r, xs[..|xs| - 1], x, xs[|xs| - 1]);
      r + [xs[|xs| - 1]]
  }

  lemma SortedLast(r: seq<Interval>, xs: seq<Interval>, x: Interval, last: Interval)
    requires SortedByEnd(r) && multiset(r) == multiset(xs) + multiset{x} && x.end <= last.end
    requires forall i :: 0 <= i < |xs| ==> xs[i].end <= last.end
    ensures SortedByEnd(r + [last])
  {
    forall i | 0 <= i < |r| ensures r[i].end <= last.end {
      assert r[i] in multiset(r);
    }
  }

  /** The stable order in which presentations end. */
  function SortByEnd(xs: seq<Interval>): (r: seq<Interval>)
    ensures SortedByEnd(r) && multiset(r) == multiset(xs)
  {
    if xs == [] then []
    else
      assert xs == xs[..|xs| - 1] + [xs[|xs| - 1]];
      InsertByEnd(SortByEnd(xs[..|xs| - 1]), xs[|xs| - 1])
  }

  /** Window k starts where the one before ended, and ends with presentation k. */
  ghost predicate Follows(windows: seq<(real, real)>, presentations: seq<Interval>, start: real, k: nat)
    requires k < |windows| == |presentations|
  {
    && windows[k].1 == presentations[k].end
    && windows[k].0 == if k == 0 then start else windows[k - 1].1
  }

  lemma SameScopes(xs: seq<Interval>)
    ensures forall x :: x in SortByEnd(xs) <==> x in xs
  {
    forall x ensures x in SortByEnd(xs) <==> x in xs {
      assert x in SortByEnd(xs) <==> x in multiset(SortByEnd(xs));
    }
  }

  /** Windows follow each other without a gap, from the phase's start to the last presentation. */
  ghost predicate Tiles(windows: seq<(real, real)>, presentations: seq<Interval>, start: real) {
    && |windows| == |presentations|
    && (forall k {:trigger Follows(windows, presentations, start, k)} :: 0 <= k < |windows| ==>
          Follows(windows, presentations, start, k))
  }

  lemma TilesMore(windows: seq<(real, real)>, presentations: seq<Interval>, start: real, x: Interval)
    requires Tiles(windows, presentations, start)
    ensures Tiles(windows + [(if windows == [] then start else windows[|windows| - 1].1, x.end)],
                  presentations + [x], start)
  {
    var windows' := windows + [(if windows == [] then start else windows[|windows| - 1].1, x.end)];
    forall k | 0 <= k < |windows'| ensures Follows(windows', presentations + [x], start, k) {
      assert k < |windows| ==> Follows(windows, presentations, start, k);
    }
  }

  /** Presentations in the order in which they end, none before the phase starts, give windows
      that run forward in time. */
  lemma WindowsOrdered(windows: seq<(real, real)>, presentations: seq<Interval>, start: real)
    requires Tiles(windows, presentations, start) && SortedByEnd(presentations)
    requires forall x :: x in presentations ==> start <= x.end
    ensures Ordered(windows)
  {
    forall k | 0 <= k < |windows| ensures windows[k].0 <= windows[k].1 {
      assert Follows(windows, presentations, start, k);
      assert k > 0 ==> Follows(windows, presentations, start, k - 1);
    }
    forall j, k | 0 <= j < k < |windows| ensures windows[j].1 <= windows[k].0 {
      assert Follows(windows, presentations, start, k) && Follows(windows, presentations, start, k - 1);
      assert Follows(windows, presentations, start, j);
    }
  }

  /** No window ends before it starts, or after a later one starts. */
  ghost predicate Ordered(windows: seq<(real, real)>) {
    && (forall k :: 0 <= k < |windows| ==> windows[k].0 <= windows[k].1)
    && (forall j, k :: 0 <= j < k < |windows| ==> windows[j].1 <= windows[k].0)
  }

  /** One window for every presentation, from the end of the one before. */
  method PresentationWindows(presentations: seq<Interval>, phaseStart: real) returns (windows: seq<(real, real)>)
    ensures Tiles(windows, SortByEnd(presentations), phaseStart)
  {
    hide Tiles, SortByEnd;
    var sorted := SortByEnd(presentations);
    windows := [];
    var start := phaseStart;
    var k := 0;
    NoTiles(phaseStart);
    while k < |sorted|
      invariant 0 <= k <= |sorted| && Tiles(windows, sorted[..k], phaseStart) && |windows| == k
      invariant start == if windows == [] then phaseStart else windows[|windows| - 1].1
    {
      TilesMore(windows, sorted[..k], phaseStart, sorted[k]);
      assert sorted[..k + 1] == sorted[..k] + [sorted[k]];
      windows := windows + [(start, sorted[k].end)];
      start := sorted[k].end;
      k := k + 1;
    }
    assert sorted[..k] == sorted;
  }

  lemma NoTiles(start: real)
    ensures Tiles([], [], start)
  {
  }

  // ------------------------------------------------------------ What the windows add up to

  /** The durations of the scopes that lie inside one window, before any rounding. */
  function WindowSum(matches: seq<Interval>, start: real, end: real): real {
    if matches == [] then 0.0
    else
      var x := matches[|matches| - 1];
      WindowSum(matches[..|matches| - 1], start, end) + if Inside(x, start, end) then Duration(x) else 0.0
  }

  /** Whether a scope lies inside one of the first n windows. */
  ghost predicate InSome(x: Interval, windows: seq<(real, real)>, n: nat)
    requires n <= |windows|
  {
    exists k :: 0 <= k < n && Inside(x, windows[k].0, windows[k].1)
  }

  /** The durations of the scopes that lie inside some of the first n windows, each once. */
  ghost function PresentedSum(matches: seq<Interval>, windows: seq<(real, real)>, n: nat): real
    requires n <= |windows|
  {
    if matches == [] then 0.0
    else
      var x := matches[|matches| - 1];
      PresentedSum(matches[..|matches| - 1], windows, n) + if InSome(x, windows, n) then Duration(x) else 0.0
  }

  ghost function TotalDuration(matches: seq<Interval>): real {
    if matches == [] then 0.0 else TotalDuration(matches[..|matches| - 1]) + Duration(matches[|matches| - 1])
  }

  ghost function SumOfWindows(matches: seq<Interval>, windows: seq<(real, real)>, n: nat): real
    requires n <= |windows|
  {
    if n == 0 then 0.0
    else SumOfWindows(matches, windows, n - 1) + WindowSum(matches, windows[n - 1].0, windows[n - 1].1)
  }

  /** A scope in two windows lies on the boundary between them, and lasts no time. */
  lemma OnBoundary(x: Interval, windows: seq<(real, real)>, n: nat)
    requires Ordered(windows) && n < |windows| && Duration(x) >= 0.0
    requires InSome(x, windows, n) && Inside(x, windows[n].0, windows[n].1)
    ensures Duration(x) == 0.0
  {
    var k :| 0 <= k < n && Inside(x, windows[k].0, windows[k].1);
  }

  lemma {:induction false} OneMoreWindow(matches: seq<Interval>, windows: seq<(real, real)>, n: nat)
    requires Ordered(windows) && n < |windows| && forall x :: x in matches ==> Duration(x) >= 0.0
    ensures PresentedSum(matches, windows, n + 1) ==
            PresentedSum(matches, windows, n) + WindowSum(matches, windows[n].0, windows[n].1)
  {
    if matches != [] {
      var x := matches[|matches| - 1];
      assert x in matches;
      OneMoreWindow(matches[..|matches| - 1], windows, n);
      if InSome(x, windows, n) && Inside(x, windows[n].0, windows[n].1) {
        OnBoundary(x, windows, n);
      }
    }
  }

  /** The windows together count every scope that lies inside one of them exactly once, and so
      never exceed the total. */
  lemma {:induction false} WindowsCountOnce(matches: seq<Interval>, windows: seq<(real, real)>, n: nat)
    requires Ordered(windows) && n <= |windows| && forall x :: x in matches ==> Duration(x) >= 0.0
    ensures SumOfWindows(matches, windows, n) == PresentedSum(matches, windows, n) <= TotalDuration(matches)
  {
    if n > 0 {
      WindowsCountOnce(matches, windows, n - 1);
      OneMoreWindow(matches, windows, n - 1);
    } else {
      NonePresented(matches, windows);
    }
    PresentedWithinTotal(matches, windows, n);
  }

  lemma {:induction false} NonePresented(matches: seq<Interval>, windows: seq<(real, real)>)
    ensures PresentedSum(matches, windows, 0) == 0.0
  {
    if matches != [] {
      NonePresented(matches[..|matches| - 1], windows);
    }
  }

  lemma {:induction false} PresentedWithinTotal(matches: seq<Interval>, windows: seq<(real, real)>, n: nat)
    requires n <= |windows| && forall x :: x in matches ==> Duration(x) >= 0.0
    ensures PresentedSum(matches, windows, n) <= TotalDuration(matches)
  {
    if matches != [] {
      PresentedWithinTotal(matches[..|matches| - 1], windows, n);
      assert matches[|matches| - 1] in matches;
    }
  }

  // ------------------------------------------------------------ Samples of one stage

  /** A stage with the scopes it is measured by, and others in case there are none. */
  datatype Stage = Stage(name: string, suffixes: seq<string>, fallbacks: seq<string>)

  function StageMatches(events: seq<Interval>, stage: Stage): (r: seq<Interval>)
    ensures forall x :: x in r ==> x in events
  {
    var matches := NamedLike(events, stage.suffixes);
    if matches == [] then NamedLike(events, stage.fallbacks) else matches
  }

  const PRESENTATION := ["HdxPresentTask::Execute"]

  /** One sample for every window, or for every scope where nothing was presented. */
  function Samples(matches: seq<Interval>, windows: seq<(real, real)>): (values: seq<real>)
    ensures |values| == if windows != [] && matches != [] then |windows| else |matches|
  {
    if windows != [] && matches != [] then
      seq(|windows|, k requires 0 <= k < |windows| => WindowSum(matches, windows[k].0, windows[k].1))
    else seq(|matches|, k requires 0 <= k < |matches| => Duration(matches[k]))
  }

  ghost function Sum(values: seq<real>, n: nat): real
    requires n <= |values|
  {
    if n == 0 then 0.0 else Sum(values, n - 1) + values[n - 1]
  }

  lemma {:induction false} WindowSamples(matches: seq<Interval>, windows: seq<(real, real)>, n: nat)
    requires windows != [] && matches != [] && n <= |windows|
    ensures Sum(Samples(matches, windows), n) == SumOfWindows(matches, windows, n)
  {
    hide WindowSum;
    if n > 0 {
      WindowSamples(matches, windows, n - 1);
    }
  }

  lemma {:induction false} ScopeSamples(matches: seq<Interval>, windows: seq<(real, real)>, n: nat)
    requires windows == [] && n <= |matches|
    ensures Sum(Samples(matches, windows), n) == TotalDuration(matches[..n])
  {
    if n > 0 {
      ScopeSamples(matches, windows, n - 1);
      assert matches[..n][..n - 1] == matches[..n - 1];
    }
  }

  /** Whatever the trace, the samples of a stage never add up to more than its scopes last. */
  lemma SamplesWithinTotal(matches: seq<Interval>, windows: seq<(real, real)>)
    requires Ordered(windows) && forall x :: x in matches ==> Duration(x) >= 0.0
    ensures Sum(Samples(matches, windows), |Samples(matches, windows)|) <= TotalDuration(matches)
  {
    if windows != [] && matches != [] {
      WindowSamples(matches, windows, |windows|);
      WindowsCountOnce(matches, windows, |windows|);
    } else if windows == [] {
      ScopeSamples(matches, windows, |matches|);
      assert matches[..|matches|] == matches;
    }
  }

  // ------------------------------------------------------------ Samples in the inputs alone

  /** The interval lies inside the phase, and its name ends with one of the given ones. */
  ghost predicate NamedInPhase(x: Interval, start: real, end: real, names: seq<string>) {
    && start <= x.start && x.end <= end
    && exists k :: 0 <= k < |names| && |names[k]| <= |x.name| && x.name[|x.name| - |names[k]|..] == names[k]
  }

  /** The intervals a stage is measured by: its own scopes, or its fallbacks if the phase has none. */
  ghost function Measured(intervals: seq<Interval>, start: real, end: real, stage: Stage): Interval -> bool {
    if exists y :: y in intervals && NamedInPhase(y, start, end, stage.suffixes)
    then x => NamedInPhase(x, start, end, stage.suffixes)
    else x => NamedInPhase(x, start, end, stage.fallbacks)
  }

  ghost function InWindow(p: Interval -> bool, window: (real, real)): Interval -> bool {
    x => p(x) && window.0 <= x.start && x.end <= window.1
  }

  /** The intervals that satisfy p, in order. */
  ghost function Selected(xs: seq<Interval>, p: Interval -> bool): seq<Interval> {
    if xs == [] then []
    else Selected(xs[..|xs| - 1], p) + if p(xs[|xs| - 1]) then [xs[|xs| - 1]] else []
  }

  /** One value for every window, the time measured inside it; without windows one for every
      measured interval. */
  ghost predicate StageSampled(values: seq<real>, windows: seq<(real, real)>, intervals: seq<Interval>,
                               measured: Interval -> bool)
  {
    var own := Selected(intervals, measured);
    if windows != [] && own != [] then
      && |values| == |windows|
      && forall w :: 0 <= w < |windows| ==>
           values[w] == TotalDuration(Selected(intervals, InWindow(measured, windows[w])))
    else |values| == |own| && forall j :: 0 <= j < |own| ==> values[j] == own[j].end - own[j].start
  }

  ghost function Presenting(start: real, end: real): Interval -> bool {
    x => NamedInPhase(x, start, end, ["HdxPresentTask::Execute"])
  }

  /** The windows end with the presentations of the phase, in the order in which those end. */
  ghost predicate WindowsPresented(windows: seq<(real, real)>, intervals: seq<Interval>, start: real, end: real) {
    && (exists order: seq<Interval> ::
          && multiset(order) ==
             multiset(Selected(intervals, Presenting(start, end)))
          && EndsOf(windows, order))
    && (forall k :: 0 <= k < |windows| ==> windows[k].0 == if k == 0 then start else windows[k - 1].1)
  }

  ghost predicate EndsOf(windows: seq<(real, real)>, order: seq<Interval>) {
    && |windows| == |order| && (forall k :: 0 <= k < |order| ==> windows[k].1 == order[k].end)
    && (forall j, k :: 0 <= j < k < |order| ==> order[j].end <= order[k].end)
  }

  lemma NamedNext(xs: seq<Interval>, x: Interval, start: real, end: real, names: seq<string>)
    ensures NamedLike(xs + if Inside(x, start, end) then [x] else [], names) ==
            NamedLike(xs, names) + if NamedInPhase(x, start, end, names) then [x] else []
  {
    assert EndsWithAny(x.name, names) <==>
           exists k :: 0 <= k < |names| && |names[k]| <= |x.name| && x.name[|x.name| - |names[k]|..] == names[k];
    assert (xs + [x])[..|xs|] == xs && xs + [] == xs;
  }

  lemma {:induction false} NamedAreSelected(intervals: seq<Interval>, start: real, end: real, names: seq<string>,
                                            p: Interval -> bool)
    requires forall x :: p(x) <==> NamedInPhase(x, start, end, names)
    ensures NamedLike(PhaseEvents(intervals, start, end), names) == Selected(intervals, p)
  {
    if intervals != [] {
      var init, x := intervals[..|intervals| - 1], intervals[|intervals| - 1];
      NamedAreSelected(init, start, end, names, p);
      NamedNext(PhaseEvents(init, start, end), x, start, end, names);
      hide NamedLike, NamedInPhase, Inside;
    }
  }

  lemma DurationNext(xs: seq<Interval>, x: Interval, keep: bool)
    ensures TotalDuration(xs + if keep then [x] else []) == TotalDuration(xs) + if keep then Duration(x) else 0.0
  {
    assert (xs + [x])[..|xs|] == xs && xs + [] == xs;
  }

  lemma WindowNext(xs: seq<Interval>, x: Interval, keep: bool, start: real, end: real)
    ensures WindowSum(xs + if keep then [x] else [], start, end) ==
            WindowSum(xs, start, end) + if keep && Inside(x, start, end) then Duration(x) else 0.0
  {
    assert (xs + [x])[..|xs|] == xs && xs + [] == xs;
  }

  lemma {:induction false} WindowSumSelected(intervals: seq<Interval>, p: Interval -> bool, window: (real, real))
    ensures WindowSum(Selected(intervals, p), window.0, window.1) ==
            TotalDuration(Selected(intervals, InWindow(p, window)))
  {
    if intervals != [] {
      var init, x := intervals[..|intervals| - 1], intervals[|intervals| - 1];
      WindowSumSelected(init, p, window);
      WindowNext(Selected(init, p), x, p(x), window.0, window.1);
      DurationNext(Selected(init, InWindow(p, window)), x, InWindow(p, window)(x));
      hide WindowSum, TotalDuration;
    }
  }

  lemma {:induction false} SelectedExactly(xs: seq<Interval>, p: Interval -> bool)
    ensures forall x :: x in Selected(xs, p) <==> x in xs && p(x)
  {
    if xs != [] {
      SelectedExactly(xs[..|xs| - 1], p);
    }
  }

  lemma FirstIsIn(xs: seq<Interval>)
    ensures xs != [] ==> xs[0] in xs
  {
  }

  lemma MeasuredAreMatches(intervals: seq<Interval>, start: real, end: real, stage: Stage)
    ensures StageMatches(PhaseEvents(intervals, start, end), stage) ==
            Selected(intervals, Measured(intervals, start, end, stage))
  {
    hide NamedLike, PhaseEvents, Selected, NamedInPhase;
    var own := (x: Interval) => NamedInPhase(x, start, end, stage.suffixes);
    var p := Measured(intervals, start, end, stage);
    NamedAreSelected(intervals, start, end, stage.suffixes, own);
    SelectedExactly(intervals, own);
    if y :| y in intervals && NamedInPhase(y, start, end, stage.suffixes) {
      assert y in Selected(intervals, own);
      NamedAreSelected(intervals, start, end, stage.suffixes, p);
    } else {
      var none := Selected(intervals, own);
      FirstIsIn(none);
      NamedAreSelected(intervals, start, end, stage.fallbacks, p);
    }
  }

  lemma SamplesAreSampled(intervals: seq<Interval>, start: real, end: real, stage: Stage, windows: seq<(real, real)>)
    ensures StageSampled(Samples(StageMatches(PhaseEvents(intervals, start, end), stage), windows), windows, intervals,
                         Measured(intervals, start, end, stage))
  {
    hide WindowSum, TotalDuration, Selected, InWindow, StageMatches, PhaseEvents;
    MeasuredAreMatches(intervals, start, end, stage);
    forall w | 0 <= w < |windows| {
      WindowSumSelected(intervals, Measured(intervals, start, end, stage), windows[w]);
    }
  }

  lemma TilesArePresented(windows: seq<(real, real)>, intervals: seq<Interval>, start: real, end: real)
    requires Tiles(windows, SortByEnd(NamedLike(PhaseEvents(intervals, start, end), PRESENTATION)), start)
    ensures WindowsPresented(windows, intervals, start, end)
  {
    hide SortByEnd, NamedLike, PhaseEvents, Selected;
    var p := Presenting(start, end);
    NamedAreSelected(intervals, start, end, PRESENTATION, p);
    var order := SortByEnd(Selected(intervals, p));
    assert PRESENTATION == ["HdxPresentTask::Execute"];
    assert Tiles(windows, order, start);
    forall k | 0 <= k < |windows|
      ensures windows[k].1 == order[k].end && windows[k].0 == if k == 0 then start else windows[k - 1].1
    {
      assert Follows(windows, order, start, k);
    }
    assert EndsOf(windows, order) && multiset(order) == multiset(Selected(intervals, p));
  }

  /** The samples of every stage in one phase; none for a phase the trace does not have. */
  method TraceStageSamples(phase: string, phases: map<string, (real, real)>, intervals: seq<Interval>,
                           stages: seq<Stage>)
    returns (values: seq<seq<real>>, windows: seq<(real, real)>)
    ensures phase !in phases ==> values == [] && windows == []
    ensures phase in phases ==>
              var (start, end) := phases[phase];
              var inside := PhaseEvents(intervals, start, end);
              && Tiles(windows, SortByEnd(NamedLike(inside, PRESENTATION)), start)
              && |values| == |stages|
              && (forall k :: 0 <= k < |stages| ==> values[k] == Samples(StageMatches(inside, stages[k]), windows))
              && WindowsPresented(windows, intervals, start, end)
              && (forall k :: 0 <= k < |stages| ==>
                    StageSampled(values[k], windows, intervals, Measured(intervals, start, end, stages[k])))
  {
    hide Tiles, SortByEnd, Samples, WindowsPresented, StageSampled, Measured, NamedLike, PhaseEvents, StageMatches;
    values, windows := [], [];
    if phase !in phases {
      return;
    }
    var (start, end) := phases[phase];
    var inside := PhaseEvents(intervals, start, end);
    windows := PresentationWindows(NamedLike(inside, PRESENTATION), start);
    TilesArePresented(windows, intervals, start, end);
    while |values| < |stages|
      invariant |values| <= |stages|
      invariant forall k :: 0 <= k < |values| ==>
                  && values[k] == Samples(StageMatches(inside, stages[k]), windows)
                  && StageSampled(values[k], windows, intervals, Measured(intervals, start, end, stages[k]))
    {
      SamplesAreSampled(intervals, start, end, stages[|values|], windows);
      values := values + [Samples(StageMatches(inside, stages[|values|]), windows)];
    }
  }

  const PHASE_PREFIX := "MerlinPhase:"

  /** From events to samples: in a sensible trace no stage of any phase reports more time than
      its matched scopes inside the phase last. */
  method SamplesOfTrace(events: seq<Event>, phase: string, stages: seq<Stage>)
    returns (values: seq<seq<real>>, intervals: seq<Interval>)
    ensures Collected(intervals, events, |events|)
    ensures phase !in Phases(intervals, PHASE_PREFIX) ==> values == []
    ensures phase in Phases(intervals, PHASE_PREFIX) ==>
              var (start, end) := Phases(intervals, PHASE_PREFIX)[phase];
              && |values| == |stages|
              && (Sensible(events) ==>
                    forall k :: 0 <= k < |stages| ==>
                      Sum(values[k], |values[k]|) <=
                        TotalDuration(Selected(intervals, Measured(intervals, start, end, stages[k]))))
  {
    hide Collected, Phases, Tiles, SortByEnd, Samples, Sensible, Sum, TotalDuration, StageMatches, Ordered, Measured,
      Selected, StageSampled, WindowsPresented;
    intervals := CollectIntervals(events);
    var windows;
    values, windows := TraceStageSamples(phase, Phases(intervals, PHASE_PREFIX), intervals, stages);
    if phase in Phases(intervals, PHASE_PREFIX) && Sensible(events) {
      ghost var (start, end) := Phases(intervals, PHASE_PREFIX)[phase];
      ghost var inside := PhaseEvents(intervals, start, end);
      NoNegativeScopes(intervals, events);
      SameScopes(NamedLike(inside, PRESENTATION));
      WindowsOrdered(windows, SortByEnd(NamedLike(inside, PRESENTATION)), start);
      forall k | 0 <= k < |stages|
        ensures Sum(values[k], |values[k]|) <=
                TotalDuration(Selected(intervals, Measured(intervals, start, end, stages[k])))
      {
        MeasuredAreMatches(intervals, start, end, stages[k]);
        SamplesWithinTotal(StageMatches(inside, stages[k]), windows);
      }
    }
  }
}
