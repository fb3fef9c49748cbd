/**
 The packed mesh descriptor, and which ranges of its vertices and indices a new version changes.
 */
module MeshRanges {
  import opened ChangedRanges

  datatype Vec2 = Vec2(x: real, y: real)
  datatype Vec3 = Vec3(x: real, y: real, z: real)
  datatype Vec4 = Vec4(x: real, y: real, z: real, w: real)

  datatype MeshDescriptor = MeshDescriptor(
    positions: seq<Vec3>, normals: seq<Vec3>, colors: seq<Vec4>, texcoords: seq<Vec2>, tangents: seq<Vec4>,
    indices: seq<nat>)

  const EMPTY_MESH := MeshDescriptor([], [], [], [], [], [])

  predicate EmptyOrFull<T>(s: seq<T>, n: nat) {
    s == [] || |s| == n
  }

  /** Every optional array has one element for each position, or none. */
  predicate Packed(d: MeshDescriptor) {
    && EmptyOrFull(d.normals, |d.positions|) && EmptyOrFull(d.colors, |d.positions|)
    && EmptyOrFull(d.texcoords, |d.positions|) && EmptyOrFull(d.tangents, |d.positions|)
  }

  // ------------------------------------------------------------ Index ranges

  function IndexChanges(previous: seq<nat>, current: seq<nat>): (changed: seq<bool>)
    requires |previous| == |current|
    ensures |changed| == |current|
    ensures forall i :: 0 <= i < |current| ==> changed[i] == (previous[i] != current[i])
  {
    seq(|current|, i requires 0 <= i < |current| => previous[i] != current[i])
  }

  method ChangedIndexRanges(previous: MeshDescriptor, current: MeshDescriptor) returns (ranges: seq<ElementRange>)
    ensures |previous.indices| != |current.indices| ==> ranges == FullRange(|current.indices|)
    ensures |previous.indices| == |current.indices| ==>
              ranges == Narrowed(Runs(IndexChanges(previous.indices, current.indices)))
  {
    hide Scanned, Runs, Narrowed, Narrow;
    if |previous.indices| != |current.indices| {
      return FullRange(|current.indices|);
    }
    ghost var changes := IndexChanges(previous.indices, current.indices);
    ranges := [];
    var n := |current.indices|;
    var first, i := n, 0;
    ScanStart(changes);
    while i < n
      invariant 0 <= i <= n && 0 <= first <= n && Scanned(changes, i, ranges, first)
    {
      ScanStep(changes, i, ranges, first);
      var changed := previous.indices[i] != current.indices[i];
      if changed && first == n {
        first := i;
      }
      if !changed && first != n {
        ranges := ranges + [ElementRange(Narrow(first), Narrow(i - first))];
        first := n;
      }
      i := i + 1;
    }
    ScanEnd(changes, ranges, first);
    if first != n {
      ranges := ranges + [ElementRange(Narrow(first), Narrow(n - first))];
    }
  }

  // ------------------------------------------------------------ Vertex ranges

  predicate SameShape(previous: MeshDescriptor, current: MeshDescriptor) {
    && |previous.positions| == |current.positions| && |previous.normals| == |current.normals|
    && |previous.colors| == |current.colors| && |previous.texcoords| == |current.texcoords|
    && |previous.tangents| == |current.tangents|
  }

  /** Whether the two descriptors agree in every attribute of one vertex. */
  predicate VertexSame(previous: MeshDescriptor, current: MeshDescriptor, i: nat)
    requires Packed(current) && SameShape(previous, current) && i < |current.positions|
  {
    && previous.positions[i] == current.positions[i]
    && (current.normals != [] ==> previous.normals[i] == current.normals[i])
    && (current.colors != [] ==> previous.colors[i] == current.colors[i])
    && (current.texcoords != [] ==> previous.texcoords[i] == current.texcoords[i])
    && (current.tangents != [] ==> previous.tangents[i] == current.tangents[i])
  }

  function VertexChanges(previous: MeshDescriptor, current: MeshDescriptor): (changed: seq<bool>)
    requires Packed(current) && SameShape(previous, current)
    ensures |changed| == |current.positions|
    ensures forall i :: 0 <= i < |current.positions| ==> changed[i] == !VertexSame(previous, current, i)
  {
    seq(|current.positions|, i requires 0 <= i < |current.positions| => !VertexSame(previous, current, i))
  }

  /** The component-wise comparison of one vertex, attribute by attribute. */
  method VertexEqual(previous: MeshDescriptor, current: MeshDescriptor, index: nat) returns (equal: bool)
    requires Packed(current) && SameShape(previous, current) && index < |current.positions|
    ensures equal == VertexSame(previous, current, index)
  {
    var a, b := previous.positions[index], current.positions[index];
    if a.x != b.x || a.y != b.y || a.z != b.z {
      return false;
    }
    if current.normals != [] {
      var a, b := previous.normals[index], current.normals[index];
      if a.x != b.x || a.y != b.y || a.z != b.z {
        return false;
      }
    }
    if current.colors != [] {
      var a, b := previous.colors[index], current.colors[index];
      if a.x != b.x || a.y != b.y || a.z != b.z || a.w != b.w {
        return false;
      }
    }
    if current.texcoords != [] {
      var a, b := previous.texcoords[index], current.texcoords[index];
      if a.x != b.x || a.y != b.y {
        return false;
      }
    }
    if current.tangents != [] {
      var a, b := previous.tangents[index], current.tangents[index];
      if a.x != b.x || a.y != b.y || a.z != b.z || a.w != b.w {
        return false;
      }
    }
    return true;
  }

  method ChangedVertexRanges(previous: MeshDescriptor, current: MeshDescriptor) returns (ranges: seq<ElementRange>)
    requires Packed(current)
    ensures !SameShape(previous, current) ==> ranges == FullRange(|current.positions|)
    ensures SameShape(previous, current) ==> ranges == Narrowed(Runs(VertexChanges(previous, current)))
  {
    hide Scanned, Runs, Narrowed, Narrow, VertexSame;
    var n := |current.positions|;
    if |previous.positions| != n || |previous.normals| != |current.normals| ||
       |previous.colors| != |current.colors| || |previous.texcoords| != |current.texcoords| ||
       |previous.tangents| != |current.tangents| {
      return FullRange(n);
    }
    ghost var changes := VertexChanges(previous, current);
    ranges := [];
    var first, i := n, 0;
    ScanStart(changes);
    while i < n
      invariant 0 <= i <= n && 0 <= first <= n && Scanned(changes, i, ranges, first)
    {
      ScanStep(changes, i, ranges, first);
      var equal := VertexEqual(previous, current, i);
      if !equal && first == n {
        first := i;
      }
      if equal && first != n {
        ranges := ranges + [ElementRange(Narrow(first), Narrow(i - first))];
        first := n;
      }
      i := i + 1;
    }
    ScanEnd(changes, ranges, first);
    if first != n {
      ranges := ranges + [ElementRange(Narrow(first), Narrow(n - first))];
    }
  }

  // ------------------------------------------------------------ What the ranges mean

  /** The index ranges are exact, and copying them over the old indices gives the new ones,
      exactly if every run fits the fields of a range. */
  lemma IndexPatch(previous: seq<nat>, current: seq<nat>)
    requires |previous| == |current|
    ensures var changed := IndexChanges(previous, current);
            var ranges := Narrowed(Runs(changed));
            && InBounds(ranges, |current|)
            && (Exact(ranges, changed) <==> FieldsFit(Runs(changed)))
            && (Patched(previous, current, ranges) == current <==> FieldsFit(Runs(changed)))
            && (|current| < UINT32 ==> FieldsFit(Runs(changed)))
  {
    var changed := IndexChanges(previous, current);
    NarrowedInBounds(changed);
    NarrowedExactly(changed);
    PatchRestores(previous, current, Narrowed(Runs(changed)));
  }

  /** Copying the ranges over the old mesh restores every array. */
  ghost predicate MeshRestored(previous: MeshDescriptor, current: MeshDescriptor, ranges: seq<ElementRange>)
    requires Packed(current) && SameShape(previous, current) && InBounds(ranges, |current.positions|)
  {
    && Patched(previous.positions, current.positions, ranges) == current.positions
    && (current.normals != [] ==> Patched(previous.normals, current.normals, ranges) == current.normals)
    && (current.colors != [] ==> Patched(previous.colors, current.colors, ranges) == current.colors)
    && (current.texcoords != [] ==> Patched(previous.texcoords, current.texcoords, ranges) == current.texcoords)
    && (current.tangents != [] ==> Patched(previous.tangents, current.tangents, ranges) == current.tangents)
  }

  /** A mesh is restored exactly if every vertex that differs in some attribute is covered. */
  lemma RestoredExactly(previous: MeshDescriptor, current: MeshDescriptor, ranges: seq<ElementRange>)
    requires Packed(current) && SameShape(previous, current) && InBounds(ranges, |current.positions|)
    ensures MeshRestored(previous, current, ranges) <==>
            forall j :: 0 <= j < |current.positions| && VertexChanges(previous, current)[j] ==> Covered(ranges, j)
  {
    hide Covered, Patched;
    PatchRestores(previous.positions, current.positions, ranges);
    if current.normals != [] {
      PatchRestores(previous.normals, current.normals, ranges);
    }
    if current.colors != [] {
      PatchRestores(previous.colors, current.colors, ranges);
    }
    if current.texcoords != [] {
      PatchRestores(previous.texcoords, current.texcoords, ranges);
    }
    if current.tangents != [] {
      PatchRestores(previous.tangents, current.tangents, ranges);
    }
  }

  /** The same for vertices, whose ranges all arrays share. */
  lemma VertexPatch(previous: MeshDescriptor, current: MeshDescriptor)
    requires Packed(current) && SameShape(previous, current)
    ensures var changed := VertexChanges(previous, current);
            var ranges := Narrowed(Runs(changed));
            && InBounds(ranges, |current.positions|)
            && (Exact(ranges, changed) <==> FieldsFit(Runs(changed)))
            && (MeshRestored(previous, current, ranges) <==> FieldsFit(Runs(changed)))
            && (|current.positions| < UINT32 ==> FieldsFit(Runs(changed)))
  {
    hide MeshRestored;
    var changed := VertexChanges(previous, current);
    NarrowedInBounds(changed);
    NarrowedExactly(changed);
    RestoredExactly(previous, current, Narrowed(Runs(changed)));
  }
}
