/**
 Changed ranges of Gaussian particles.  Each attribute is compared only if its aspect is
 set; with the aspects of a sync, which compares whole arrays, nothing is missed.
 */
module ParticleRanges {
  import opened Wrappers
  import opened Arithmetic
  import opened ChangedRanges
  import opened MeshRanges

  datatype Covariance = Covariance(xx: real, xy: real, xz: real, yy: real, yz: real, zz: real)

  datatype Gaussians = Gaussians(
    positions: seq<Vec3>, covariances: seq<Covariance>, opacities: seq<real>, degree: nat, coefficients: seq<Vec3>,
    projection: int, sorting: int)

  datatype Aspects = Aspects(positions: bool, covariance: bool, opacity: bool, radiance: bool, policy: bool)

  /** Coefficients of one particle. */
  function PerParticle(degree: nat): (n: nat)
    ensures n > 0
  {
    (degree + 1) * (degree + 1)
  }

  /** The attribute lengths that normalisation establishes. */
  predicate Normalised(g: Gaussians) {
    && |g.covariances| == |g.positions| && |g.opacities| == |g.positions|
    && |g.coefficients| == |g.positions| * PerParticle(g.degree)
  }

  /** The aspects a sync sets: one for every array that differs anywhere. */
  function SyncAspects(previous: Gaussians, next: Gaussians): Aspects {
    Aspects(
      previous.positions != next.positions,
      previous.covariances != next.covariances,
      previous.opacities != next.opacities,
      previous.degree != next.degree || previous.coefficients != next.coefficients,
      previous.projection != next.projection || previous.sorting != next.sorting)
  }

  predicate Comparable(previous: Gaussians, next: Gaussians) {
    && Normalised(previous) && Normalised(next)
    && |previous.positions| == |next.positions| && previous.degree == next.degree
  }

  function CoefficientsOf(g: Gaussians, i: nat): (s: seq<Vec3>)
    requires Normalised(g) && i < |g.positions|
    ensures |s| == PerParticle(g.degree)
  {
    SpanFits(i, |g.positions|, PerParticle(g.degree));
    g.coefficients[i * PerParticle(g.degree)..(i + 1) * PerParticle(g.degree)]
  }

  lemma SpanFits(i: nat, n: nat, k: nat)
    requires i < n
    ensures 0 <= i * k <= (i + 1) * k <= n * k && (i + 1) * k - i * k == k
  {
    ProductStep(i + 1, k);
    ProductGrows(i + 1, n, k);
    ProductGrows(0, i, k);
  }

  /** Whether the two descriptors agree in everything about particle i. */
  predicate ParticleSame(previous: Gaussians, next: Gaussians, i: nat)
    requires Comparable(previous, next) && i < |next.positions|
  {
    && previous.positions[i] == next.positions[i]
    && previous.covariances[i] == next.covariances[i]
    && previous.opacities[i] == next.opacities[i]
    && CoefficientsOf(previous, i) == CoefficientsOf(next, i)
  }

  /** The same, looking only at the attributes whose aspect is set. */
  predicate GatedSame(previous: Gaussians, next: Gaussians, aspects: Aspects, i: nat)
    requires Comparable(previous, next) && i < |next.positions|
  {
    && (aspects.positions ==> previous.positions[i] == next.positions[i])
    && (aspects.covariance ==> previous.covariances[i] == next.covariances[i])
    && (aspects.opacity ==> previous.opacities[i] == next.opacities[i])
    && (aspects.radiance ==> CoefficientsOf(previous, i) == CoefficientsOf(next, i))
  }

  /** With the aspects of a sync the gates hide nothing. */
  lemma GatesAreComplete(previous: Gaussians, next: Gaussians, i: nat)
    requires Comparable(previous, next) && i < |next.positions|
    ensures GatedSame(previous, next, SyncAspects(previous, next), i) <==> ParticleSame(previous, next, i)
  {
  }

  /** In the arrays themselves: an attribute whose aspect is set differs at particle i, or one of its
      (degree + 1)^2 coefficients does. */
  lemma GatedExactly(previous: Gaussians, next: Gaussians, aspects: Aspects, i: nat)
    requires Comparable(previous, next) && i < |next.positions|
    ensures var k := (next.degree + 1) * (next.degree + 1);
            && (i + 1) * k <= |next.coefficients| == |previous.coefficients|
            && (GatedChanges(previous, next, aspects)[i] <==>
                  || (aspects.positions && previous.positions[i] != next.positions[i])
                  || (aspects.covariance && previous.covariances[i] != next.covariances[i])
                  || (aspects.opacity && previous.opacities[i] != next.opacities[i])
                  || (aspects.radiance &&
                      exists j :: i * k <= j < (i + 1) * k && previous.coefficients[j] != next.coefficients[j]))
  {
    var k := (next.degree + 1) * (next.degree + 1);
    SpanFits(i, |next.positions|, k);
    var before, after := CoefficientsOf(previous, i), CoefficientsOf(next, i);
    assert before == previous.coefficients[i * k..(i + 1) * k] && after == next.coefficients[i * k..(i + 1) * k];
    hide CoefficientsOf, PerParticle;
    if j :| i * k <= j < (i + 1) * k && previous.coefficients[j] != next.coefficients[j] {
      assert before[j - i * k] != after[j - i * k];
    }
    if before != after {
      var q :| 0 <= q < |before| && before[q] != after[q];
      assert previous.coefficients[i * k + q] != next.coefficients[i * k + q];
    }
  }

  function ParticleChanges(previous: Gaussians, next: Gaussians): (changed: seq<bool>)
    requires Comparable(previous, next)
    ensures |changed| == |next.positions|
    ensures forall i :: 0 <= i < |next.positions| ==> changed[i] == !ParticleSame(previous, next, i)
  {
    seq(|next.positions|, i requires 0 <= i < |next.positions| => !ParticleSame(previous, next, i))
  }

  function GatedChanges(previous: Gaussians, next: Gaussians, aspects: Aspects): (changed: seq<bool>)
    requires Comparable(previous, next)
    ensures |changed| == |next.positions|
    ensures forall i :: 0 <= i < |next.positions| ==> changed[i] == !GatedSame(previous, next, aspects, i)
  {
    seq(|next.positions|, i requires 0 <= i < |next.positions| => !GatedSame(previous, next, aspects, i))
  }

  /** The gated comparison of one particle; the coefficients are compared until one differs. */
  method ParticleChanged(previous: Gaussians, next: Gaussians, aspects: Aspects, index: nat) returns (changed: bool)
    requires Comparable(previous, next) && index < |next.positions|
    ensures changed == !GatedSame(previous, next, aspects, index)
  {
    changed := false;
    if aspects.positions {
      changed := previous.positions[index] != next.positions[index];
    }
    if !changed && aspects.covariance {
      changed := previous.covariances[index] != next.covariances[index];
    }
    if !changed && aspects.opacity {
      changed := previous.opacities[index] != next.opacities[index];
    }
    if !changed && aspects.radiance {
      var count := PerParticle(next.degree);
      var offset := index * count;
      ghost var before, after := CoefficientsOf(previous, index), CoefficientsOf(next, index);
      SpanFits(index, |next.positions|, count);
      var coefficient := 0;
      while coefficient < count
        invariant 0 <= coefficient <= count && before[..coefficient] == after[..coefficient]
      {
        assert previous.coefficients[offset + coefficient] == before[coefficient];
        assert next.coefficients[offset + coefficient] == after[coefficient];
        if previous.coefficients[offset + coefficient] != next.coefficients[offset + coefficient] {
          changed := true;
          return;
        }
        coefficient := coefficient + 1;
      }
      assert before == before[..count] && after == after[..count];
    }
  }

  /** None when no payload aspect is set or the particles cannot be matched up. */
  method ChangedParticleRanges(previous: Gaussians, next: Gaussians, aspects: Aspects)
    returns (ranges: Option<seq<ElementRange>>)
    requires Normalised(previous) && Normalised(next)
    ensures ranges.None? <==>
              || !(aspects.positions || aspects.covariance || aspects.opacity || aspects.radiance)
              || |previous.positions| != |next.positions| || previous.degree != next.degree
    ensures ranges.Some? ==> ranges.value == Narrowed(Runs(GatedChanges(previous, next, aspects)))
  {
    hide Scanned, Runs, Narrowed, Narrow, GatedSame, PerParticle;
    if !(aspects.positions || aspects.covariance || aspects.opacity || aspects.radiance) {
      return None;
    }
    if |previous.positions| != |next.positions| || previous.degree != next.degree {
      return None;
    }
    ghost var changes := GatedChanges(previous, next, aspects);
    var found: seq<ElementRange> := [];
    var n := |next.positions|;
    var first, index := n, 0;
    ScanStart(changes);
    while index < n
      invariant 0 <= index <= n && 0 <= first <= n && Scanned(changes, index, found, first)
    {
      ScanStep(changes, index, found, first);
      var changed := ParticleChanged(previous, next, aspects, index);
      if changed && first == n {
        first := index;
      } else if !changed && first != n {
        found := found + [ElementRange(Narrow(first), Narrow(index - first))];
        first := n;
      }
      index := index + 1;
    }
    ScanEnd(changes, found, first);
    if first != n {
      found := found + [ElementRange(Narrow(first), Narrow(n - first))];
    }
    return Some(found);
  }

  /** With a sync's aspects the ranges are exactly the particles that differ in any attribute,
      and their absence means that no particle of a matching set differs. */
  lemma ParticleRangesComplete(previous: Gaussians, next: Gaussians)
    requires Comparable(previous, next)
    ensures GatedChanges(previous, next, SyncAspects(previous, next)) == ParticleChanges(previous, next)
    ensures var changed := ParticleChanges(previous, next);
            && (Exact(Narrowed(Runs(GatedChanges(previous, next, SyncAspects(previous, next)))), changed) <==>
                FieldsFit(Runs(changed)))
            && (|changed| < UINT32 ==> FieldsFit(Runs(changed)))
    ensures var a := SyncAspects(previous, next);
            !(a.positions || a.covariance || a.opacity || a.radiance) <==>
              forall i :: 0 <= i < |next.positions| ==> ParticleSame(previous, next, i)
  {
    NoAspectNoChange(previous, next);
    hide ParticleSame, GatedSame, SyncAspects, Runs, Narrowed, Exact, FieldsFit;
    var a := SyncAspects(previous, next);
    forall i | 0 <= i < |next.positions|
      ensures GatedChanges(previous, next, a)[i] == ParticleChanges(previous, next)[i]
    {
      GatesAreComplete(previous, next, i);
    }
    NarrowedExactly(ParticleChanges(previous, next));
  }

  lemma NoAspectNoChange(previous: Gaussians, next: Gaussians)
    requires Comparable(previous, next)
    ensures var a := SyncAspects(previous, next);
            !(a.positions || a.covariance || a.opacity || a.radiance) <==>
              forall i :: 0 <= i < |next.positions| ==> ParticleSame(previous, next, i)
  {
    if forall i :: 0 <= i < |next.positions| ==> ParticleSame(previous, next, i) {
      AllSame(previous, next);
    }
  }

  /** Particles that agree one by one agree as arrays. */
  lemma AllSame(previous: Gaussians, next: Gaussians)
    requires Comparable(previous, next)
    requires forall i :: 0 <= i < |next.positions| ==> ParticleSame(previous, next, i)
    ensures previous.positions == next.positions && previous.covariances == next.covariances
    ensures previous.opacities == next.opacities && previous.coefficients == next.coefficients
  {
    hide CoefficientsOf, PerParticle;
    forall i | 0 <= i < |next.positions|
      ensures previous.positions[i] == next.positions[i] && previous.covariances[i] == next.covariances[i]
      ensures previous.opacities[i] == next.opacities[i]
    {
      assert ParticleSame(previous, next, i);
    }
    forall j | 0 <= j < |next.coefficients| ensures previous.coefficients[j] == next.coefficients[j] {
      SameCoefficient(previous, next, j);
    }
  }

  lemma SameCoefficient(previous: Gaussians, next: Gaussians, j: nat)
    requires Comparable(previous, next) && j < |next.coefficients|
    requires forall i :: 0 <= i < |next.positions| ==> ParticleSame(previous, next, i)
    ensures previous.coefficients[j] == next.coefficients[j]
  {
    hide ParticleSame, PerParticle;
    var k := PerParticle(next.degree);
    var i := j / k;
    assert j == i * k + j % k;
    if i >= |next.positions| {
      SpanGrows(|next.positions|, i, k);
    }
    SpanFits(i, |next.positions|, k);
    SameSpan(previous, next, i);
    assert CoefficientsOf(previous, i)[j % k] == previous.coefficients[j];
    assert CoefficientsOf(next, i)[j % k] == next.coefficients[j];
  }

  lemma SameSpan(previous: Gaussians, next: Gaussians, i: nat)
    requires Comparable(previous, next) && i < |next.positions| && ParticleSame(previous, next, i)
    ensures CoefficientsOf(previous, i) == CoefficientsOf(next, i)
  {
  }

  lemma SpanGrows(n: nat, i: nat, k: nat)
    requires n <= i
    ensures n * k <= i * k
  {
    assert i * k == n * k + (i - n) * k;
  }
}
