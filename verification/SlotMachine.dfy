/**
 The abstract slot machine behind both deferred-retirement tables (the Vulkan
 bindless slot allocator and the Metal stable resource table): a slot is free,
 permanently reserved, active, or retiring until a GPU completion value has been
 observed.  A run is a sequence of events; everything the tables promise about
 reuse and about handles is stated here over all legal runs.
 */
module SlotMachine {

  /** Generations are non-zero 32-bit values, so they repeat with this period. */
  const GENERATION_PERIOD: nat := 0xFFFF_FFFF

  datatype Phase = Free | Reserved | Active | Retiring(due: nat)

  /** `lives` counts how often the cell has been collected. */
  datatype Cell = Cell(lives: nat, phase: Phase)

  type Machine = seq<Cell>

  datatype Event = Allocate(index: nat) | Retire(index: nat, due: nat) | Collect(completed: nat)

  datatype Kind = FreeKind | ReservedKind | ActiveKind | RetiringKind

  function KindOf(phase: Phase): Kind {
    match phase
    case Free => FreeKind
    case Reserved => ReservedKind
    case Active => ActiveKind
    case Retiring(_) => RetiringKind
  }

  // ------------------------------------------------------------ Steps and runs

  predicate Enabled(m: Machine, e: Event) {
    match e
    case Allocate(x) => x < |m| && m[x].phase.Free?
    case Retire(x, _) => x < |m| && m[x].phase.Active?
    case Collect(_) => true
  }

  predicate Collectible(c: Cell, completed: nat) {
    c.phase.Retiring? && c.phase.due <= completed
  }

  function CollectCell(c: Cell, completed: nat): Cell {
    if Collectible(c, completed) then Cell(c.lives + 1, Free) else c
  }

  function Step(m: Machine, e: Event): (r: Machine)
    ensures |r| == |m|
  {
    match e
    case Allocate(x) => if x < |m| then m[x := m[x].(phase := Active)] else m
    case Retire(x, due) => if x < |m| then m[x := m[x].(phase := Retiring(due))] else m
    case Collect(c) => seq(|m|, i requires 0 <= i < |m| => CollectCell(m[i], c))
  }

  function After(m: Machine, es: seq<Event>): (r: Machine)
    ensures |r| == |m|
  {
    if es == [] then m else Step(After(m, es[..|es| - 1]), es[|es| - 1])
  }

  predicate Legal(m: Machine, es: seq<Event>) {
    es == [] || (Legal(m, es[..|es| - 1]) && Enabled(After(m, es[..|es| - 1]), es[|es| - 1]))
  }

  /** A machine as it is built: some cells reserved, the others free, none lived in. */
  predicate Initial(m: Machine) {
    forall i :: 0 <= i < |m| ==> m[i].lives == 0 && (m[i].phase.Free? || m[i].phase.Reserved?)
  }

  lemma AfterAppend(m: Machine, es: seq<Event>, e: Event)
    ensures After(m, es + [e]) == Step(After(m, es), e)
    ensures Legal(m, es + [e]) <==> Legal(m, es) && Enabled(After(m, es), e)
  {
    assert (es + [e])[..|es|] == es;
  }

  lemma {:induction false} LegalPrefix(m: Machine, es: seq<Event>, k: nat)
    requires Legal(m, es) && k <= |es|
    ensures Legal(m, es[..k])
  {
    if k < |es| {
      LegalPrefix(m, es[..|es| - 1], k);
      assert es[..|es| - 1][..k] == es[..k];
    } else {
      assert es[..k] == es;
    }
  }

  // ------------------------------------------------------------ Reuse safety

  ghost predicate CollectedBetween(es: seq<Event>, i: int, k: int, due: nat) {
    exists j :: 0 <= i < j < k <= |es| && es[j].Collect? && es[j].completed >= due
  }

  lemma CollectedInPrefix(es: seq<Event>, i: nat, k: nat, due: nat)
    requires k <= |es| && CollectedBetween(es[..k], i, k, due)
    ensures CollectedBetween(es, i, k, due) && CollectedBetween(es, i, |es|, due)
  {
    var j :| 0 <= i < j < k && es[..k][j].Collect? && es[..k][j].completed >= due;
    assert es[j] == es[..k][j];
  }

  /** Until a sufficient collection, a retired cell stays retiring with its value. */
  lemma {:induction false} RetiredStays(m: Machine, es: seq<Event>, i: nat)
    requires Legal(m, es) && i < |es| && es[i].Retire?
    ensures es[i].index < |m|
    ensures CollectedBetween(es, i, |es|, es[i].due) ||
            After(m, es)[es[i].index].phase == Retiring(es[i].due)
  {
    var init := es[..|es| - 1];
    if i < |init| {
      assert init[i] == es[i];
      RetiredStays(m, init, i);
      if CollectedBetween(init, i, |init|, es[i].due) {
        CollectedInPrefix(es, i, |init|, es[i].due);
      } else if es[|es| - 1].Collect? && es[|es| - 1].completed >= es[i].due {
        assert CollectedBetween(es, i, |es|, es[i].due);
      }
    }
  }

  /** Between a retirement at `due` and the next allocation of the same cell lies a
      collection at a completion value that is at least `due`. */
  lemma ReuseNeedsCollection(m: Machine, es: seq<Event>, i: nat, k: nat)
    requires Legal(m, es) && i < k < |es|
    requires es[i].Retire? && es[k].Allocate? && es[i].index == es[k].index
    ensures CollectedBetween(es, i, k, es[i].due)
  {
    var before := es[..k];
    LegalPrefix(m, es, k + 1);
    assert es[..k + 1][..k] == before;
    assert before[i] == es[i];
    RetiredStays(m, before, i);
    CollectedInPrefix(es, i, k, es[i].due);
  }

  // ------------------------------------------------------------ Collection algebra

  /** Two collections act like one at the larger value; in particular, when the
      values do not decrease, the last collection alone decides. */
  lemma CollectAbsorbs(m: Machine, a: nat, b: nat)
    ensures Step(Step(m, Collect(a)), Collect(b)) == Step(m, Collect(if a <= b then b else a))
  {
    var twice := Step(Step(m, Collect(a)), Collect(b));
    var once := Step(m, Collect(if a <= b then b else a));
    forall i | 0 <= i < |m| ensures twice[i] == once[i] {
      assert Step(m, Collect(a))[i] == CollectCell(m[i], a);
    }
  }

  /** After a collection nothing is free exactly when every cell is reserved, active,
      or retiring and not yet collectible. */
  lemma ExhaustedAfterCollect(m: Machine, completed: nat)
    ensures (forall i :: 0 <= i < |m| ==> !Step(m, Collect(completed))[i].phase.Free?)
       <==> (forall i :: 0 <= i < |m| ==> m[i].phase.Reserved? || m[i].phase.Active? ||
                                          (m[i].phase.Retiring? && m[i].phase.due > completed))
  {
    forall i | 0 <= i < |m|
      ensures Step(m, Collect(completed))[i] == CollectCell(m[i], completed)
    {
    }
  }

  // ------------------------------------------------------------ Generations

  /** The generation a handle carries in a cell's n-th life, counted from zero. */
  function Generation(lives: nat): (g: nat)
    ensures 1 <= g <= GENERATION_PERIOD
  {
    1 + lives % GENERATION_PERIOD
  }

  /** The sources' increment: 32-bit addition that skips zero. */
  function NextGeneration(generation: nat): nat {
    var next := (generation + 1) % 0x1_0000_0000;
    if next == 0 then 1 else next
  }

  lemma NextGenerationCounts(lives: nat)
    ensures NextGeneration(Generation(lives)) == Generation(lives + 1)
  {
    var q, r := lives / GENERATION_PERIOD, lives % GENERATION_PERIOD;
    assert lives == q * GENERATION_PERIOD + r;
    if r + 1 < GENERATION_PERIOD {
      ModUnique(lives + 1, q, r + 1);
    } else {
      ModUnique(lives + 1, q + 1, 0);
    }
  }

  lemma ModUnique(n: nat, q: nat, r: nat)
    requires n == q * GENERATION_PERIOD + r && r < GENERATION_PERIOD
    ensures n % GENERATION_PERIOD == r
  {
  }

  /** The generation counter comes round a whole number of times between two lives. */
  predicate WholePeriods(a: nat, b: nat)
    requires a <= b
  {
    (b - a) % GENERATION_PERIOD == 0
  }

  /** Two lives of one cell share a generation exactly when they are a multiple of
      2^32 - 1 collections apart. */
  lemma GenerationsCollide(a: nat, b: nat)
    requires a <= b
    ensures Generation(a) == Generation(b) <==> WholePeriods(a, b)
  {
    var p := GENERATION_PERIOD;
    var qa, ra := a / p, a % p;
    var qb, rb := b / p, b % p;
    assert a == qa * p + ra && b == qb * p + rb;
    if ra == rb {
      ModUnique(b - a, qb - qa, 0);
    } else if ra < rb {
      ModUnique(b - a, qb - qa, rb - ra);
    } else {
      ModUnique(b - a, qb - qa - 1, p + rb - ra);
    }
  }

  /** Once allocated, a cell stays in use until a collection starts a later life. */
  lemma {:induction false} LifeUntilCollected(m: Machine, es: seq<Event>, i: nat)
    requires Legal(m, es) && i < |es| && es[i].Allocate?
    ensures es[i].index < |m|
    ensures var x := es[i].index;
            var was, now := After(m, es[..i])[x], After(m, es)[x];
            was.lives < now.lives || (was.lives == now.lives && (now.phase.Active? || now.phase.Retiring?))
  {
    var init := es[..|es| - 1];
    if i < |init| {
      assert init[i] == es[i] && init[..i] == es[..i];
      LifeUntilCollected(m, init, i);
    } else {
      assert es[..i] == init;
    }
  }

  lemma LivesApart(m: Machine, es: seq<Event>, i: nat, k: nat)
    requires Legal(m, es) && i < k < |es|
    requires es[i].Allocate? && es[k].Allocate? && es[i].index == es[k].index
    ensures es[i].index < |After(m, es[..i])| == |After(m, es[..k])| == |m|
    ensures After(m, es[..i])[es[i].index].lives < After(m, es[..k])[es[i].index].lives
  {
    hide Generation, NextGeneration;
    var before := es[..k];
    LegalPrefix(m, es, k + 1);
    assert es[..k + 1][..k] == before;
    assert before[i] == es[i] && before[..i] == es[..i];
    LifeUntilCollected(m, before, i);
  }

  /** Two allocations of one cell belong to different lives, and the handles they hand
      out are equal exactly when the collections between them are a multiple of 2^32 - 1. */
  lemma ReissuedHandles(m: Machine, es: seq<Event>, i: nat, k: nat)
    requires Legal(m, es) && i < k < |es|
    requires es[i].Allocate? && es[k].Allocate? && es[i].index == es[k].index
    ensures es[i].index < |m|
    ensures var x := es[i].index;
            var a, b := After(m, es[..i])[x].lives, After(m, es[..k])[x].lives;
            a < b && (Generation(a) == Generation(b) <==> WholePeriods(a, b))
  {
    LivesApart(m, es, i, k);
    hide *;
    var x := es[i].index;
    GenerationsCollide(After(m, es[..i])[x].lives, After(m, es[..k])[x].lives);
  }

  // ------------------------------------------------------------ Conservation

  function Count(m: Machine, kind: Kind): nat {
    if m == [] then 0
    else Count(m[..|m| - 1], kind) + if KindOf(m[|m| - 1].phase) == kind then 1 else 0
  }

  function Lives(m: Machine): nat {
    if m == [] then 0 else Lives(m[..|m| - 1]) + m[|m| - 1].lives
  }

  lemma {:induction false} CountUpdate(m: Machine, x: nat, c: Cell, kind: Kind)
    requires x < |m|
    ensures Count(m[x := c], kind) + (if KindOf(m[x].phase) == kind then 1 else 0)
         == Count(m, kind) + (if KindOf(c.phase) == kind then 1 else 0)
  {
    var init := m[..|m| - 1];
    if x < |init| {
      assert m[x := c][..|m| - 1] == init[x := c];
      CountUpdate(init, x, c, kind);
    } else {
      assert m[x := c][..|m| - 1] == init;
    }
  }

  lemma {:induction false} LivesUpdate(m: Machine, x: nat, c: Cell)
    requires x < |m|
    ensures Lives(m[x := c]) + m[x].lives == Lives(m) + c.lives
  {
    var init := m[..|m| - 1];
    if x < |init| {
      assert m[x := c][..|m| - 1] == init[x := c];
      LivesUpdate(init, x, c);
    } else {
      assert m[x := c][..|m| - 1] == init;
    }
  }

  /** The four kinds partition the table. */
  lemma {:induction false} KindsPartition(m: Machine)
    ensures Count(m, FreeKind) + Count(m, ReservedKind) + Count(m, ActiveKind) + Count(m, RetiringKind) == |m|
  {
    if m != [] {
      KindsPartition(m[..|m| - 1]);
    }
  }

  /** A collection turns retiring cells into free ones with one more life, one for one,
      and touches nothing else. */
  lemma {:induction false} CollectConserves(m: Machine, completed: nat)
    ensures var r := Step(m, Collect(completed));
            && Count(r, ReservedKind) == Count(m, ReservedKind)
            && Count(r, ActiveKind) == Count(m, ActiveKind)
            && Count(r, FreeKind) + Count(r, RetiringKind) == Count(m, FreeKind) + Count(m, RetiringKind)
            && Lives(r) + Count(r, RetiringKind) == Lives(m) + Count(m, RetiringKind)
  {
    if m != [] {
      var init := m[..|m| - 1];
      CollectConserves(init, completed);
      assert Step(m, Collect(completed))[..|m| - 1] == Step(init, Collect(completed));
    }
  }

  function Allocations(es: seq<Event>): nat {
    if es == [] then 0 else Allocations(es[..|es| - 1]) + if es[|es| - 1].Allocate? then 1 else 0
  }

  function Retirements(es: seq<Event>): nat {
    if es == [] then 0 else Retirements(es[..|es| - 1]) + if es[|es| - 1].Retire? then 1 else 0
  }

  /** Over every legal run: allocations not yet retired are active, retirements not yet
      collected are retiring, and reserved cells stay reserved. */
  lemma {:induction false} Conservation(m: Machine, es: seq<Event>)
    requires Initial(m) && Legal(m, es)
    ensures var r := After(m, es);
            && Allocations(es) == Retirements(es) + Count(r, ActiveKind)
            && Retirements(es) == Lives(r) + Count(r, RetiringKind)
            && Count(r, ReservedKind) == Count(m, ReservedKind)
  {
    if es == [] {
      InitialCounts(m);
    } else {
      var init, e := es[..|es| - 1], es[|es| - 1];
      Conservation(m, init);
      var before := After(m, init);
      match e
      case Allocate(x) =>
        CountsAfterUpdate(before, x, before[x].(phase := Active));
      case Retire(x, due) =>
        CountsAfterUpdate(before, x, before[x].(phase := Retiring(due)));
      case Collect(c) =>
        CollectConserves(before, c);
    }
  }

  lemma CountsAfterUpdate(m: Machine, x: nat, c: Cell)
    requires x < |m|
    ensures forall kind :: Count(m[x := c], kind) + (if KindOf(m[x].phase) == kind then 1 else 0)
                        == Count(m, kind) + (if KindOf(c.phase) == kind then 1 else 0)
    ensures Lives(m[x := c]) + m[x].lives == Lives(m) + c.lives
  {
    forall kind
      ensures Count(m[x := c], kind) + (if KindOf(m[x].phase) == kind then 1 else 0)
           == Count(m, kind) + (if KindOf(c.phase) == kind then 1 else 0)
    {
      CountUpdate(m, x, c, kind);
    }
    LivesUpdate(m, x, c);
  }

  lemma {:induction false} InitialCounts(m: Machine)
    requires Initial(m)
    ensures Count(m, ActiveKind) == 0 && Count(m, RetiringKind) == 0 && Lives(m) == 0
  {
    if m != [] {
      InitialCounts(m[..|m| - 1]);
    }
  }

  /** Slots in use as the telemetry reports them: reserved plus active. */
  function InUse(m: Machine): nat {
    Count(m, ReservedKind) + Count(m, ActiveKind)
  }

  /** The largest use over every state the run has gone through. */
  function PeakUse(m: Machine, es: seq<Event>): (peak: nat) {
    if es == [] then InUse(m)
    else
      var before, now := PeakUse(m, es[..|es| - 1]), InUse(After(m, es));
      if before < now then now else before
  }

  lemma UseBelowPeak(m: Machine, es: seq<Event>)
    ensures InUse(After(m, es)) <= PeakUse(m, es)
  {
  }

  /** PeakUse is the maximum over all prefixes of the run. */
  lemma {:induction false} PeakUseIsMaximum(m: Machine, es: seq<Event>)
    ensures forall k :: 0 <= k <= |es| ==> InUse(After(m, es[..k])) <= PeakUse(m, es)
    ensures exists k :: 0 <= k <= |es| && InUse(After(m, es[..k])) == PeakUse(m, es)
  {
    hide InUse;
    assert es[..|es|] == es;
    if es != [] {
      var init := es[..|es| - 1];
      PeakUseIsMaximum(m, init);
      forall k | 0 <= k <= |es| ensures InUse(After(m, es[..k])) <= PeakUse(m, es) {
        if k <= |init| {
          assert init[..k] == es[..k];
        }
      }
      var k :| 0 <= k <= |init| && InUse(After(m, init[..k])) == PeakUse(m, init);
      assert init[..k] == es[..k];
      assert InUse(After(m, es[..k])) == PeakUse(m, init);
    } else {
      assert InUse(After(m, es[..0])) == PeakUse(m, es);
    }
  }
}
