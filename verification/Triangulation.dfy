/**
 Fan triangulation of authored faces, with holes and orientation, and what it preserves:
 the triangles of a face have exactly the face's boundary, and so its signed area.
 */
module Triangulation {
  import opened Wrappers

  /** Three local corners of one face. */
  datatype Triangle = Triangle(a: nat, b: nat, c: nat)

  /** The point, the face and the position in the authored index array of one emitted corner. */
  datatype Corner = Corner(point: int, face: nat, authoredCorner: nat)

  datatype Topology = Topology(counts: seq<int>, indices: seq<int>, holes: seq<int>, leftHanded: bool)

  /** The fan over a face of n corners. */
  function Fan(n: nat): (ts: seq<Triangle>)
    ensures |ts| == if n < 3 then 0 else n - 2
    ensures forall k :: 0 <= k < |ts| ==> ts[k] == Triangle(0, k + 1, k + 2)
  {
    if n < 3 then [] else Fan(n - 1) + [Triangle(0, n - 2, n - 1)]
  }

  /** An empty result stands for the diagnostic of a face with fewer than three vertices. */
  method TriangulateFace(points: seq<int>) returns (triangles: seq<Triangle>)
    ensures triangles == Fan(|points|)
    ensures triangles == [] <==> |points| < 3
  {
    if |points| < 3 {
      return [];
    }
    triangles := [];
    var corner := 1;
    while corner + 1 < |points|
      invariant 1 <= corner <= |points| - 1
      invariant triangles == Fan(corner + 1)
    {
      triangles := triangles + [Triangle(0, corner, corner + 1)];
      corner := corner + 1;
    }
  }

  /** The orientation swap for left-handed meshes. */
  function Oriented(t: Triangle, leftHanded: bool): Triangle {
    if leftHanded then Triangle(t.a, t.c, t.b) else t
  }

  // ------------------------------------------------------------ Boundary of a fan

  /** A weight of directed edges that changes sign with the direction. */
  ghost predicate Antisymmetric(w: (int, int) -> real) {
    forall u, v :: w(u, v) == -w(v, u)
  }

  ghost function TriangleWeight(t: Triangle, w: (int, int) -> real): real {
    w(t.a, t.b) + w(t.b, t.c) + w(t.c, t.a)
  }

  ghost function FanWeight(ts: seq<Triangle>, w: (int, int) -> real): real {
    if ts == [] then 0.0 else FanWeight(ts[..|ts| - 1], w) + TriangleWeight(ts[|ts| - 1], w)
  }

  /** The weight of the path 0, 1, ..., n - 1. */
  ghost function PathWeight(n: nat, w: (int, int) -> real): real {
    if n < 2 then 0.0 else PathWeight(n - 1, w) + w(n - 2, n - 1)
  }

  /** The weight of the closed boundary of a face with n corners. */
  ghost function CycleWeight(n: nat, w: (int, int) -> real): real {
    if n < 3 then 0.0 else PathWeight(n, w) + w(n - 1, 0)
  }

  /** Every diagonal of the fan is crossed once in each direction, so only the boundary stays. */
  lemma {:induction false} FanHasFaceBoundary(n: nat, w: (int, int) -> real)
    requires Antisymmetric(w)
    ensures FanWeight(Fan(n), w) == CycleWeight(n, w)
  {
    if n >= 3 {
      var ts := Fan(n);
      assert ts[..|ts| - 1] == Fan(n - 1);
      FanHasFaceBoundary(n - 1, w);
      assert w(n - 2, 0) == -w(0, n - 2);
      if n == 3 {
        assert PathWeight(2, w) == PathWeight(1, w) + w(0, 1);
      }
    }
  }

  /** How often the edge from u to v is used, counted against the edge from v to u. */
  function EdgeUse(u: int, v: int): (int, int) -> real {
    (x, y) => (if x == u && y == v then 1.0 else 0.0) - (if x == v && y == u then 1.0 else 0.0)
  }

  /** Twice the signed area swept by an edge, as in the shoelace formula. */
  function Shoelace(xs: int -> real, ys: int -> real): (int, int) -> real {
    (u, v) => xs(u) * ys(v) - ys(u) * xs(v)
  }

  lemma {:induction false} WeightsAntisymmetric(u: int, v: int, xs: int -> real, ys: int -> real)
    ensures Antisymmetric(EdgeUse(u, v)) && Antisymmetric(Shoelace(xs, ys))
  {
    forall p, q ensures Shoelace(xs, ys)(p, q) == -Shoelace(xs, ys)(q, p) {
      assert xs(p) * ys(q) == ys(q) * xs(p) && ys(p) * xs(q) == xs(q) * ys(p);
    }
  }

  // ------------------------------------------------------------ Expected output

  /** Where the span of face n starts in the index array. */
  function Offset(counts: seq<int>, n: nat): int
    requires n <= |counts|
  {
    if n == 0 then 0 else Offset(counts, n - 1) + counts[n - 1]
  }

  function CornerAt(indices: seq<int>, offset: nat, face: nat, local: nat): Corner
    requires offset + local < |indices|
  {
    Corner(indices[offset + local], face, offset + local)
  }

  function TriangleCorners(indices: seq<int>, offset: nat, face: nat, t: Triangle): seq<Corner>
    requires offset + t.a < |indices| && offset + t.b < |indices| && offset + t.c < |indices|
  {
    [CornerAt(indices, offset, face, t.a), CornerAt(indices, offset, face, t.b), CornerAt(indices, offset, face, t.c)]
  }

  /** The corners of the first k fan triangles of a face. */
  function FaceCorners(indices: seq<int>, offset: nat, face: nat, leftHanded: bool, k: nat): (cs: seq<Corner>)
    requires offset + k + 2 <= |indices|
    ensures |cs| == 3 * k
  {
    if k == 0 then []
    else FaceCorners(indices, offset, face, leftHanded, k - 1) +
         TriangleCorners(indices, offset, face, Oriented(Triangle(0, k, k + 1), leftHanded))
  }

  /** The first n faces have at least three vertices each and fit the index array. */
  ghost predicate FacesFit(t: Topology, n: nat)
    requires n <= |t.counts|
  {
    && (forall f {:trigger t.counts[f]} :: 0 <= f < n ==> t.counts[f] >= 3)
    && (forall f {:trigger Offset(t.counts, f)} :: 0 <= f <= n ==> 0 <= Offset(t.counts, f) <= |t.indices|)
  }

  /** The corners of the first n faces that are not holes. */
  ghost function CornersUpTo(t: Topology, n: nat): seq<Corner>
    requires n <= |t.counts| && FacesFit(t, n)
  {
    if n == 0 then []
    else if n - 1 in t.holes then CornersUpTo(t, n - 1)
    else
      assert Offset(t.counts, n) == Offset(t.counts, n - 1) + t.counts[n - 1];
      CornersUpTo(t, n - 1) +
      FaceCorners(t.indices, Offset(t.counts, n - 1), n - 1, t.leftHanded, t.counts[n - 1] - 2)
  }

  ghost predicate HolesSound(t: Topology) {
    && (forall i :: 0 <= i < |t.holes| ==> 0 <= t.holes[i] < |t.counts|)
    && (forall i, j :: 0 <= i < j < |t.holes| ==> t.holes[i] != t.holes[j])
  }

  /** Every index of face f names a point. */
  ghost predicate PointsSound(t: Topology, points: nat, f: nat)
    requires f < |t.counts|
  {
    forall j {:trigger t.indices[j]} ::
      0 <= j < |t.indices| && Offset(t.counts, f) <= j < Offset(t.counts, f) + t.counts[f] ==>
        0 <= t.indices[j] < points
  }

  /** What a topology must satisfy to be triangulated. */
  ghost predicate Sound(t: Topology, points: nat) {
    && HolesSound(t)
    && (forall f {:trigger t.counts[f]} :: 0 <= f < |t.counts| ==> t.counts[f] >= 3)
    && Offset(t.counts, |t.counts|) == |t.indices|
    && (forall f {:trigger PointsSound(t, points, f)} :: 0 <= f < |t.counts| && f !in t.holes ==>
          PointsSound(t, points, f))
  }

  lemma {:induction false} OffsetGrows(t: Topology, f: nat, n: nat)
    requires f <= n <= |t.counts| && forall g {:trigger t.counts[g]} :: 0 <= g < n ==> t.counts[g] >= 3
    ensures Offset(t.counts, f) + 3 * (n - f) <= Offset(t.counts, n)
    ensures 0 <= Offset(t.counts, f)
  {
    if f < n {
      OffsetGrows(t, f, n - 1);
    } else if n > 0 {
      OffsetGrows(t, n - 1, n - 1);
    }
  }

  /** A sound topology fits, face by face. */
  lemma SoundFits(t: Topology, points: nat)
    requires Sound(t, points)
    ensures FacesFit(t, |t.counts|)
  {
    forall f | 0 <= f <= |t.counts| ensures 0 <= Offset(t.counts, f) <= |t.indices| {
      OffsetGrows(t, f, |t.counts|);
    }
  }

  // ------------------------------------------------------------ The mesh

  datatype Rejection =
    | HoleIndex(hole: int)
    | FaceCount(face: nat)
    | PointIndex(badFace: nat, point: int)
    | TrailingIndices

  /** The first k holes are in range and distinct. */
  ghost predicate HolesSoundUpTo(t: Topology, k: nat)
    requires k <= |t.holes|
  {
    && (forall i :: 0 <= i < k ==> 0 <= t.holes[i] < |t.counts|)
    && (forall i, j :: 0 <= i < j < k ==> t.holes[i] != t.holes[j])
  }

  /** The points of the first n faces that are not holes exist. */
  ghost predicate PointsSoundUpTo(t: Topology, points: nat, n: nat)
    requires n <= |t.counts|
  {
    forall f {:trigger PointsSound(t, points, f)} :: 0 <= f < n && f !in t.holes ==> PointsSound(t, points, f)
  }

  /** What the reported diagnostic says about the topology: it names the first problem, with
      holes looked at first and then the faces in order. */
  ghost predicate Explains(r: Rejection, t: Topology, points: nat) {
    match r
    case HoleIndex(h) =>
      exists k :: 0 <= k < |t.holes| && t.holes[k] == h && HolesSoundUpTo(t, k) && !HolesSoundUpTo(t, k + 1)
    case FaceCount(f) =>
      && HolesSound(t) && f < |t.counts| && FacesFit(t, f) && PointsSoundUpTo(t, points, f)
      && (t.counts[f] < 3 || t.counts[f] > |t.indices| - Offset(t.counts, f))
    case PointIndex(f, p) =>
      && HolesSound(t) && f < |t.counts| && f !in t.holes && FacesFit(t, f + 1) && PointsSoundUpTo(t, points, f)
      && (exists j {:trigger t.indices[j]} ::
            && 0 <= j < |t.indices| && Offset(t.counts, f) <= j < Offset(t.counts, f + 1) && t.indices[j] == p
            && (p < 0 || p >= points)
            && forall i :: Offset(t.counts, f) <= i < j ==> 0 <= t.indices[i] < points)
    case TrailingIndices =>
      && HolesSound(t) && FacesFit(t, |t.counts|) && PointsSoundUpTo(t, points, |t.counts|)
      && Offset(t.counts, |t.counts|) < |t.indices|
  }

  /** A reported topology is unsound. */
  lemma ExplainedIsUnsound(r: Rejection, t: Topology, points: nat)
    requires Explains(r, t, points)
    ensures !Sound(t, points)
  {
    if r.PointIndex? {
      assert Sound(t, points) ==> PointsSound(t, points, r.badFace);
    }
    if Sound(t, points) {
      match r
      case HoleIndex(h) =>
        assert false;
      case FaceCount(f) =>
        OffsetGrows(t, f + 1, |t.counts|);
        assert false;
      case PointIndex(f, p) =>
        assert false;
      case TrailingIndices =>
        assert false;
    }
  }

  /** At most one diagnostic fits a topology. */
  lemma ExplanationUnique(r: Rejection, r': Rejection, t: Topology, points: nat)
    requires Explains(r, t, points) && Explains(r', t, points)
    ensures r == r'
  {
    hide Explains;
    if r.HoleIndex? && r'.HoleIndex? {
      HolesDistinguish(r.hole, r'.hole, t, points);
    } else {
      FacesDistinguish(r, r', t, points);
      FacesDistinguish(r', r, t, points);
    }
  }

  lemma HolesDistinguish(h: int, h': int, t: Topology, points: nat)
    requires Explains(HoleIndex(h), t, points) && Explains(HoleIndex(h'), t, points)
    ensures h == h'
  {
    var k :| 0 <= k < |t.holes| && t.holes[k] == h && HolesSoundUpTo(t, k) && !HolesSoundUpTo(t, k + 1);
    var k' :| 0 <= k' < |t.holes| && t.holes[k'] == h' && HolesSoundUpTo(t, k') && !HolesSoundUpTo(t, k' + 1);
    hide *;
    HolesSoundBelow(t);
  }

  lemma HolesSoundBelow(t: Topology)
    ensures forall m: nat, n: nat :: m <= n <= |t.holes| && HolesSoundUpTo(t, n) ==> HolesSoundUpTo(t, m)
  {
  }

  /** The face a diagnostic names; past the last for trailing indices, before the first for a hole. */
  function FaceOf(r: Rejection, t: Topology): int {
    match r
    case HoleIndex(_) => -1
    case FaceCount(f) => f
    case PointIndex(f, _) => f
    case TrailingIndices => |t.counts|
  }

  /** The holes and the first n faces have no problem. */
  ghost predicate FineUpTo(t: Topology, points: nat, n: nat)
    requires n <= |t.counts|
  {
    HolesSound(t) && FacesFit(t, n) && PointsSoundUpTo(t, points, n)
  }

  /** Faces that are fine have no problem to report. */
  lemma NoProblemBelow(r: Rejection, t: Topology, points: nat, n: nat)
    requires n <= |t.counts| && FineUpTo(t, points, n) && FaceOf(r, t) < n
    ensures !Explains(r, t, points)
  {
    match r
    case HoleIndex(_) =>
      forall k: nat | k <= |t.holes| ensures HolesSoundUpTo(t, k) {
      }
    case FaceCount(f) =>
      FitsOne(t, f, n);
    case PointIndex(f, _) =>
      assert f !in t.holes ==> PointsSound(t, points, f);
    case TrailingIndices =>
  }

  /** A later problem excludes an earlier one, and one face has at most one problem. */
  lemma FacesDistinguish(r: Rejection, r': Rejection, t: Topology, points: nat)
    requires Explains(r, t, points) && Explains(r', t, points) && !(r.HoleIndex? && r'.HoleIndex?)
    ensures FaceOf(r, t) >= FaceOf(r', t)
    ensures FaceOf(r, t) == FaceOf(r', t) ==> r == r'
  {
    if !r'.HoleIndex? {
      var n: nat := FaceOf(r', t);
      if FaceOf(r, t) < n {
        NoProblemBelow(r, t, points, n);
      }
      if r.FaceCount? && r'.PointIndex? {
        FitsOne(t, r'.badFace, n + 1);
      } else if r.PointIndex? && r'.FaceCount? {
        FitsOne(t, r.badFace, r.badFace + 1);
      }
    }
  }

  lemma FitsOne(t: Topology, f: nat, n: nat)
    requires f < n <= |t.counts| && FacesFit(t, n)
    ensures t.counts[f] >= 3 && t.counts[f] <= |t.indices| - Offset(t.counts, f)
  {
    assert Offset(t.counts, f + 1) == Offset(t.counts, f) + t.counts[f];
  }

  lemma FitsNone(t: Topology)
    ensures FacesFit(t, 0) && CornersUpTo(t, 0) == [] && Offset(t.counts, 0) == 0
  {
  }

  /** One more face fits; its corners follow, unless it is a hole. */
  lemma FitsNext(t: Topology, face: nat)
    requires face < |t.counts| && FacesFit(t, face)
    ensures 0 <= Offset(t.counts, face) <= |t.indices|
    ensures Offset(t.counts, face + 1) == Offset(t.counts, face) + t.counts[face]
    ensures 3 <= t.counts[face] <= |t.indices| - Offset(t.counts, face) ==>
              && FacesFit(t, face + 1)
              && CornersUpTo(t, face + 1) ==
                 CornersUpTo(t, face) +
                 if face in t.holes then []
                 else FaceCorners(t.indices, Offset(t.counts, face), face, t.leftHanded, t.counts[face] - 2)
  {
    hide FaceCorners;
    if 3 <= t.counts[face] <= |t.indices| - Offset(t.counts, face) {
      assert FacesFit(t, face + 1);
      if face in t.holes {
        assert CornersUpTo(t, face) + [] == CornersUpTo(t, face);
      }
    }
  }

  /** Once all faces fit, what is left to check is the length and the points. */
  lemma FitsAll(t: Topology, points: nat)
    requires HolesSound(t) && FacesFit(t, |t.counts|)
    requires PointsSoundUpTo(t, points, |t.counts|)
    ensures Offset(t.counts, |t.counts|) <= |t.indices|
    ensures Sound(t, points) <==> Offset(t.counts, |t.counts|) == |t.indices|
  {
  }

  lemma NoCorners(indices: seq<int>, offset: nat, face: nat, leftHanded: bool)
    requires offset + 2 <= |indices|
    ensures FaceCorners(indices, offset, face, leftHanded, 0) == []
  {
  }

  /** The corners of triangle k, read from the points of the face, are the next ones. */
  lemma CornersGrow(indices: seq<int>, offset: nat, face: nat, leftHanded: bool, k: nat, points: seq<int>)
    requires offset + |points| <= |indices| && points == indices[offset..offset + |points|] && k + 2 < |points|
    ensures var t := Oriented(Triangle(0, k + 1, k + 2), leftHanded);
            FaceCorners(indices, offset, face, leftHanded, k + 1) ==
            FaceCorners(indices, offset, face, leftHanded, k) +
            [Corner(points[t.a], face, offset + t.a), Corner(points[t.b], face, offset + t.b),
             Corner(points[t.c], face, offset + t.c)]
  {
    var t := Oriented(Triangle(0, k + 1, k + 2), leftHanded);
    assert FaceCorners(indices, offset, face, leftHanded, k + 1) ==
           FaceCorners(indices, offset, face, leftHanded, k) + TriangleCorners(indices, offset, face, t);
    hide FaceCorners;
    assert points[t.a] == indices[offset + t.a] && points[t.b] == indices[offset + t.b] &&
           points[t.c] == indices[offset + t.c];
  }

  /** A face with a bad count is the first problem. */
  lemma BadCount(t: Topology, points: nat, face: nat)
    requires HolesSound(t) && face < |t.counts| && FacesFit(t, face) && PointsSoundUpTo(t, points, face)
    requires t.counts[face] < 3 || t.counts[face] > |t.indices| - Offset(t.counts, face)
    ensures Explains(FaceCount(face), t, points) && !Sound(t, points)
  {
    ExplainedIsUnsound(FaceCount(face), t, points);
  }

  /** A point that does not exist, the first of its face, is the first problem. */
  lemma BadPoint(t: Topology, points: nat, face: nat, p: int)
    requires HolesSound(t) && face < |t.counts| && face !in t.holes && FacesFit(t, face + 1)
    requires PointsSoundUpTo(t, points, face)
    requires exists j ::
               && Offset(t.counts, face) <= j < Offset(t.counts, face) + t.counts[face] <= |t.indices|
               && t.indices[j] == p && (p < 0 || p >= points)
               && forall i :: Offset(t.counts, face) <= i < j ==> 0 <= t.indices[i] < points
    ensures Explains(PointIndex(face, p), t, points) && !Sound(t, points)
  {
    assert Offset(t.counts, face + 1) == Offset(t.counts, face) + t.counts[face];
    assert Offset(t.counts, face) >= 0;
    ExplainedIsUnsound(PointIndex(face, p), t, points);
  }

  lemma BadEnd(t: Topology, points: nat)
    requires HolesSound(t) && FacesFit(t, |t.counts|) && PointsSoundUpTo(t, points, |t.counts|)
    requires Offset(t.counts, |t.counts|) < |t.indices|
    ensures Explains(TrailingIndices, t, points) && !Sound(t, points)
  {
    ExplainedIsUnsound(TrailingIndices, t, points);
  }

  lemma NoPoints(t: Topology, points: nat)
    ensures PointsSoundUpTo(t, points, 0)
  {
  }

  /** One more face has its points, or is a hole. */
  lemma PointsNext(t: Topology, points: nat, face: nat)
    requires face < |t.counts| && PointsSoundUpTo(t, points, face)
    requires face !in t.holes ==>
               forall j ::
                 0 <= j < |t.indices| && Offset(t.counts, face) <= j < Offset(t.counts, face) + t.counts[face] ==>
                   0 <= t.indices[j] < points
    ensures PointsSoundUpTo(t, points, face + 1)
  {
    if face !in t.holes {
      assert PointsSound(t, points, face);
    }
  }

  lemma BadHole(t: Topology, i: nat)
    requires i < |t.holes|
    requires t.holes[i] < 0 || t.holes[i] >= |t.counts| || exists k :: 0 <= k < i && t.holes[k] == t.holes[i]
    ensures !HolesSoundUpTo(t, i + 1) && !HolesSound(t)
  {
  }

  // ------------------------------------------------------------ Triangle by triangle

  /** Faces that are not holes give count - 2 triangles each. */
  function TriangleCount(t: Topology, n: nat): int
    requires n <= |t.counts|
  {
    if n == 0 then 0 else TriangleCount(t, n - 1) + if n - 1 in t.holes then 0 else t.counts[n - 1] - 2
  }

  /** Triangle k of a face follows those of the faces before it: the face's corners 0, k + 1 and
      k + 2, the last two swapped in a left-handed mesh. */
  ghost predicate TriangleAt(cs: seq<Corner>, t: Topology, face: nat, k: nat)
    requires face < |t.counts|
  {
    var at, o := 3 * (TriangleCount(t, face) + k), Offset(t.counts, face);
    && 0 <= at && at + 2 < |cs| && 0 <= o && o + k + 2 < |t.indices|
    && cs[at] == Corner(t.indices[o], face, o)
    && cs[if t.leftHanded then at + 2 else at + 1] == Corner(t.indices[o + k + 1], face, o + k + 1)
    && cs[if t.leftHanded then at + 1 else at + 2] == Corner(t.indices[o + k + 2], face, o + k + 2)
  }

  /** The fans of all faces that are not holes, in order, and nothing else. */
  ghost predicate FansEmitted(cs: seq<Corner>, t: Topology, n: nat)
    requires n <= |t.counts|
  {
    && |cs| == 3 * TriangleCount(t, n)
    && forall f, k :: 0 <= f < n && f !in t.holes && 0 <= k < t.counts[f] - 2 ==> TriangleAt(cs, t, f, k)
  }

  /** Triangle k of one face is where it should be among the face's corners. */
  lemma {:induction false} FaceTriangleAt(indices: seq<int>, offset: nat, face: nat, leftHanded: bool, n: nat, k: nat)
    requires k < n && offset + n + 2 <= |indices|
    ensures var cs := FaceCorners(indices, offset, face, leftHanded, n);
            && cs[3 * k] == Corner(indices[offset], face, offset)
            && cs[if leftHanded then 3 * k + 2 else 3 * k + 1] ==
               Corner(indices[offset + k + 1], face, offset + k + 1)
            && cs[if leftHanded then 3 * k + 1 else 3 * k + 2] ==
               Corner(indices[offset + k + 2], face, offset + k + 2)
  {
    var earlier := FaceCorners(indices, offset, face, leftHanded, n - 1);
    var last := TriangleCorners(indices, offset, face, Oriented(Triangle(0, n, n + 1), leftHanded));
    assert FaceCorners(indices, offset, face, leftHanded, n) == earlier + last;
    hide FaceCorners, TriangleCorners, Oriented;
    if k < n - 1 {
      FaceTriangleAt(indices, offset, face, leftHanded, n - 1, k);
    } else {
      OwnTriangle(indices, offset, face, leftHanded, k);
    }
  }

  lemma OwnTriangle(indices: seq<int>, offset: nat, face: nat, leftHanded: bool, k: nat)
    requires offset + k + 2 < |indices|
    ensures var t := TriangleCorners(indices, offset, face, Oriented(Triangle(0, k + 1, k + 2), leftHanded));
            && |t| == 3 && t[0] == Corner(indices[offset], face, offset)
            && t[if leftHanded then 2 else 1] == Corner(indices[offset + k + 1], face, offset + k + 1)
            && t[if leftHanded then 1 else 2] == Corner(indices[offset + k + 2], face, offset + k + 2)
  {
  }

  lemma TriangleStays(cs: seq<Corner>, more: seq<Corner>, t: Topology, face: nat, k: nat)
    requires face < |t.counts| && TriangleAt(cs, t, face, k)
    ensures TriangleAt(cs + more, t, face, k)
  {
  }

  lemma {:induction false} AllFansEmitted(t: Topology, n: nat)
    requires n <= |t.counts| && FacesFit(t, n)
    ensures FansEmitted(CornersUpTo(t, n), t, n)
  {
    hide FaceCorners, FacesFit, TriangleAt;
    if n > 0 {
      FitsLess(t, n);
      AllFansEmitted(t, n - 1);
      FitsNext(t, n - 1);
      FitsOne(t, n - 1, n);
      var earlier := CornersUpTo(t, n - 1);
      var own := if n - 1 in t.holes then []
                 else FaceCorners(t.indices, Offset(t.counts, n - 1), n - 1, t.leftHanded, t.counts[n - 1] - 2);
      assert CornersUpTo(t, n) == earlier + own;
      forall f, k | 0 <= f < n && f !in t.holes && 0 <= k < t.counts[f] - 2
        ensures TriangleAt(CornersUpTo(t, n), t, f, k)
      {
        if f < n - 1 {
          TriangleStays(earlier, own, t, f, k);
        } else {
          LastTriangleAt(earlier, t, n - 1, k);
        }
      }
    }
  }

  lemma LastTriangleAt(earlier: seq<Corner>, t: Topology, face: nat, k: nat)
    requires face < |t.counts| && 0 <= Offset(t.counts, face) && k < t.counts[face] - 2
    requires Offset(t.counts, face) + t.counts[face] <= |t.indices| && |earlier| == 3 * TriangleCount(t, face)
    ensures TriangleAt(earlier + FaceCorners(t.indices, Offset(t.counts, face), face, t.leftHanded,
                                             t.counts[face] - 2), t, face, k)
  {
    hide FaceCorners, Offset, TriangleCount;
    FaceTriangleAt(t.indices, Offset(t.counts, face), face, t.leftHanded, t.counts[face] - 2, k);
  }

  lemma FitsLess(t: Topology, n: nat)
    requires 0 < n <= |t.counts| && FacesFit(t, n)
    ensures FacesFit(t, n - 1)
  {
  }

  class HydraMesh {
    var pointCount: nat
    var topology: Topology
    var packedCorners: seq<Corner>
    var triangulationInitialized: bool

    constructor (points: nat, t: Topology)
      ensures pointCount == points && topology == t && packedCorners == [] && !triangulationInitialized
    {
      pointCount, topology, packedCorners, triangulationInitialized := points, t, [], false;
    }

    /** Checks the authored holes: in range, and no hole twice. */
    method CheckHoles() returns (rejected: Option<Rejection>, holes: set<int>)
      ensures rejected.None? <==> HolesSound(topology)
      ensures rejected.None? ==> holes == set h | h in topology.holes
      ensures rejected.Some? ==> rejected.value.HoleIndex? && Explains(rejected.value, topology, pointCount)
    {
      holes := {};
      var i := 0;
      while i < |topology.holes|
        invariant 0 <= i <= |topology.holes|
        invariant holes == set k | 0 <= k < i :: topology.holes[k]
        invariant HolesSoundUpTo(topology, i)
      {
        var hole := topology.holes[i];
        if hole < 0 || hole >= |topology.counts| || hole in holes {
          BadHole(topology, i);
          return Some(HoleIndex(hole)), holes;
        }
        holes := holes + {hole};
        i := i + 1;
      }
      return None, holes;
    }

    /** Reads the points of one face; stops at the first that does not exist. */
    method ReadFace(offset: nat, count: nat) returns (points: seq<int>, bad: Option<int>)
      requires offset + count <= |topology.indices|
      ensures bad.None? ==> points == topology.indices[offset..offset + count]
      ensures bad.None? ==> forall j :: offset <= j < offset + count ==> 0 <= topology.indices[j] < pointCount
      ensures bad.Some? ==>
                exists j ::
                  && offset <= j < offset + count && topology.indices[j] == bad.value
                  && (bad.value < 0 || bad.value >= pointCount)
                  && forall i :: offset <= i < j ==> 0 <= topology.indices[i] < pointCount
    {
      points := [];
      var corner := 0;
      while corner < count
        invariant 0 <= corner <= count && points == topology.indices[offset..offset + corner]
        invariant forall j :: offset <= j < offset + corner ==> 0 <= topology.indices[j] < pointCount
      {
        var point := topology.indices[offset + corner];
        if point < 0 || point >= pointCount {
          return points, Some(point);
        }
        points := points + [point];
        corner := corner + 1;
      }
      return points, None;
    }

    /** Emits the oriented fan of one face. */
    method PackFace(points: seq<int>, offset: nat, face: nat, triangles: seq<Triangle>)
      requires offset + |points| <= |topology.indices| && points == topology.indices[offset..offset + |points|]
      requires |points| >= 3 && triangles == Fan(|points|)
      modifies this`packedCorners
      ensures packedCorners ==
                old(packedCorners) + FaceCorners(topology.indices, offset, face, topology.leftHanded, |points| - 2)
    {
      hide FaceCorners;
      var k := 0;
      ghost var before := packedCorners;
      NoCorners(topology.indices, offset, face, topology.leftHanded);
      while k < |triangles|
        invariant 0 <= k <= |triangles|
        invariant packedCorners == before + FaceCorners(topology.indices, offset, face, topology.leftHanded, k)
      {
        var triangle := Oriented(triangles[k], topology.leftHanded);
        CornersGrow(topology.indices, offset, face, topology.leftHanded, k, points);
        packedCorners := packedCorners + [
          Corner(points[triangle.a], face, offset + triangle.a),
          Corner(points[triangle.b], face, offset + triangle.b),
          Corner(points[triangle.c], face, offset + triangle.c)];
        k := k + 1;
      }
    }

    /** Accepts exactly the sound topologies; a rejected one leaves no corners. */
    method RebuildTriangulation() returns (rejected: Option<Rejection>)
      modifies this`packedCorners, this`triangulationInitialized
      ensures triangulationInitialized
      ensures pointCount == 0 ==> rejected.None? && packedCorners == []
      ensures pointCount > 0 ==> (rejected.None? <==> Sound(topology, pointCount))
      ensures rejected.Some? ==> packedCorners == [] && Explains(rejected.value, topology, pointCount)
      ensures pointCount > 0 && rejected.None? ==>
                FacesFit(topology, |topology.counts|) && packedCorners == CornersUpTo(topology, |topology.counts|)
      ensures pointCount > 0 && rejected.None? ==> FansEmitted(packedCorners, topology, |topology.counts|)
    {
      hide FansEmitted;
      hide Sound, FacesFit, CornersUpTo, FaceCorners, HolesSound, Offset, Fan, Explains, PointsSoundUpTo, PointsSound;
      triangulationInitialized := true;
      packedCorners := [];
      if pointCount == 0 {
        return None;
      }
      var holes: set<int>;
      rejected, holes := CheckHoles();
      if rejected.Some? {
        ExplainedIsUnsound(rejected.value, topology, pointCount);
        return;
      }
      var offset, face := 0, 0;
      FitsNone(topology);
      NoPoints(topology, pointCount);
      while face < |topology.counts|
        invariant 0 <= face <= |topology.counts| && FacesFit(topology, face) && offset == Offset(topology.counts, face)
        invariant triangulationInitialized && packedCorners == CornersUpTo(topology, face)
        invariant PointsSoundUpTo(topology, pointCount, face)
      {
        var count := topology.counts[face];
        FitsNext(topology, face);
        if count < 3 || offset > |topology.indices| || count > |topology.indices| - offset {
          packedCorners := [];
          rejected := Some(FaceCount(face));
          BadCount(topology, pointCount, face);
          return;
        }
        if face !in holes {
          var points, bad := ReadFace(offset, count);
          if bad.Some? {
            packedCorners := [];
            rejected := Some(PointIndex(face, bad.value));
            BadPoint(topology, pointCount, face, bad.value);
            return;
          }
          var triangles := TriangulateFace(points);
          assert triangles != [];
          PackFace(points, offset, face, triangles);
        }
        PointsNext(topology, pointCount, face);
        offset := offset + count;
        face := face + 1;
      }
      FitsAll(topology, pointCount);
      if offset != |topology.indices| {
        packedCorners := [];
        rejected := Some(TrailingIndices);
        BadEnd(topology, pointCount);
        return;
      }
      AllFansEmitted(topology, |topology.counts|);
    }
  }

  // ------------------------------------------------------------ What the emitted corners are

  /** A corner keeps its face, its place in that face's span, and the point authored there. */
  ghost predicate CornerFaithful(c: Corner, t: Topology, n: nat)
    requires n <= |t.counts|
  {
    && c.face < n && c.face !in t.holes
    && Offset(t.counts, c.face) <= c.authoredCorner < Offset(t.counts, c.face + 1)
    && c.authoredCorner < |t.indices| && t.indices[c.authoredCorner] == c.point
  }

  lemma {:induction false} FaceCornersFaithful(t: Topology, face: nat, k: nat)
    requires face < |t.counts| && FacesFit(t, face + 1) && face !in t.holes && k <= t.counts[face] - 2
    requires Offset(t.counts, face) + k + 2 <= |t.indices| && Offset(t.counts, face) >= 0
    ensures forall c :: c in FaceCorners(t.indices, Offset(t.counts, face), face, t.leftHanded, k) ==>
              CornerFaithful(c, t, face + 1)
  {
    if k > 0 {
      FaceCornersFaithful(t, face, k - 1);
      assert Offset(t.counts, face + 1) == Offset(t.counts, face) + t.counts[face];
    }
  }

  /** Three corners for every triangle, all of them faithful. */
  lemma {:induction false} CornersFaithful(t: Topology, n: nat)
    requires n <= |t.counts| && FacesFit(t, n)
    ensures |CornersUpTo(t, n)| == 3 * TriangleCount(t, n)
    ensures forall c :: c in CornersUpTo(t, n) ==> CornerFaithful(c, t, n)
  {
    hide FaceCorners;
    if n > 0 {
      CornersFaithful(t, n - 1);
      FitsNext(t, n - 1);
      if n - 1 !in t.holes {
        FaceCornersFaithful(t, n - 1, t.counts[n - 1] - 2);
      }
    }
  }

  /** No corner of a face is lost. */
  lemma {:induction false} FaceCornersCover(indices: seq<int>, offset: nat, face: nat, leftHanded: bool, k: nat,
                                            local: nat)
    requires k > 0 && offset + k + 2 <= |indices| && local < k + 2
    ensures CornerAt(indices, offset, face, local) in FaceCorners(indices, offset, face, leftHanded, k)
  {
    var last := TriangleCorners(indices, offset, face, Oriented(Triangle(0, k, k + 1), leftHanded));
    if local == 0 || local >= k {
      assert last[0] == CornerAt(indices, offset, face, 0);
      assert CornerAt(indices, offset, face, k) in {last[1], last[2]};
      assert CornerAt(indices, offset, face, k + 1) in {last[1], last[2]};
    } else {
      FaceCornersCover(indices, offset, face, leftHanded, k - 1, local);
    }
  }

  lemma {:induction false} CornersCover(t: Topology, n: nat, face: nat, local: nat)
    requires n <= |t.counts| && FacesFit(t, n) && face < n && face !in t.holes && local < t.counts[face]
    ensures Offset(t.counts, face) >= 0 && Offset(t.counts, face) + local < |t.indices|
    ensures CornerAt(t.indices, Offset(t.counts, face), face, local) in CornersUpTo(t, n)
  {
    hide FaceCorners, CornersUpTo;
    FitsNext(t, n - 1);
    if face == n - 1 {
      FaceCornersCover(t.indices, Offset(t.counts, face), face, t.leftHanded, t.counts[face] - 2, local);
    } else {
      CornersCover(t, n - 1, face, local);
    }
  }

  // ------------------------------------------------------------ The boundary of the mesh

  /** The weight of all emitted triangles, three corners at a time. */
  ghost function MeshWeight(cs: seq<Corner>, w: (int, int) -> real): real {
    if |cs| < 3 then 0.0
    else
      var a, b, c := cs[|cs| - 3].point, cs[|cs| - 2].point, cs[|cs| - 1].point;
      MeshWeight(cs[..|cs| - 3], w) + (w(a, b) + w(b, c) + w(c, a))
  }

  /** Edge weights of points, as weights of the local corners of a face. */
  ghost function Local(indices: seq<int>, offset: int, w: (int, int) -> real): (int, int) -> real {
    (u, v) => if 0 <= offset + u < |indices| && 0 <= offset + v < |indices|
              then w(indices[offset + u], indices[offset + v]) else 0.0
  }

  /** The boundary weight of all faces that are not holes. */
  ghost function BoundaryWeight(t: Topology, n: nat, w: (int, int) -> real): real
    requires n <= |t.counts| && FacesFit(t, n)
  {
    if n == 0 then 0.0
    else if n - 1 in t.holes then BoundaryWeight(t, n - 1, w)
    else BoundaryWeight(t, n - 1, w) + CycleWeight(t.counts[n - 1], Local(t.indices, Offset(t.counts, n - 1), w))
  }

  lemma {:induction false} MeshWeightAppends(a: seq<Corner>, b: seq<Corner>, w: (int, int) -> real)
    requires |b| % 3 == 0
    ensures MeshWeight(a + b, w) == MeshWeight(a, w) + MeshWeight(b, w)
  {
    if b == [] {
      assert a + b == a;
    } else {
      MeshWeightAppends(a, b[..|b| - 3], w);
      assert (a + b)[..|a + b| - 3] == a + b[..|b| - 3];
    }
  }

  /** A left-handed mesh turns every triangle over. */
  function Turned(x: real, leftHanded: bool): real {
    if leftHanded then -x else x
  }

  lemma FanGrows(n: nat, w: (int, int) -> real)
    requires n >= 3
    ensures FanWeight(Fan(n), w) == FanWeight(Fan(n - 1), w) + TriangleWeight(Triangle(0, n - 2, n - 1), w)
  {
    var ts := Fan(n);
    assert ts[..|ts| - 1] == Fan(n - 1);
  }

  lemma MeshWeightGrows(before: seq<Corner>, x: Corner, y: Corner, z: Corner, w: (int, int) -> real)
    ensures MeshWeight(before + [x, y, z], w) ==
            MeshWeight(before, w) + (w(x.point, y.point) + w(y.point, z.point) + w(z.point, x.point))
  {
    var cs := before + [x, y, z];
    assert cs[..|cs| - 3] == before;
  }

  lemma TurnedTriangle(a: int, b: int, c: int, w: (int, int) -> real)
    requires Antisymmetric(w)
    ensures w(a, c) + w(c, b) + w(b, a) == -(w(a, b) + w(b, c) + w(c, a))
  {
    assert w(a, c) == -w(c, a) && w(c, b) == -w(b, c) && w(b, a) == -w(a, b);
  }

  lemma LocalTriangle(indices: seq<int>, offset: nat, t: Triangle, w: (int, int) -> real)
    requires offset + t.a < |indices| && offset + t.b < |indices| && offset + t.c < |indices|
    ensures TriangleWeight(t, Local(indices, offset, w)) ==
            w(indices[offset + t.a], indices[offset + t.b]) + w(indices[offset + t.b], indices[offset + t.c]) +
            w(indices[offset + t.c], indices[offset + t.a])
  {
  }

  /** One more triangle of a face adds its weight, turned if the mesh is left-handed. */
  lemma FaceCornersGrow(indices: seq<int>, offset: nat, face: nat, leftHanded: bool, k: nat, w: (int, int) -> real)
    requires Antisymmetric(w) && k > 0 && offset + k + 2 <= |indices|
    ensures MeshWeight(FaceCorners(indices, offset, face, leftHanded, k), w) ==
            MeshWeight(FaceCorners(indices, offset, face, leftHanded, k - 1), w) +
            Turned(TriangleWeight(Triangle(0, k, k + 1), Local(indices, offset, w)), leftHanded)
  {
    hide Antisymmetric, TriangleWeight, MeshWeight;
    var before := FaceCorners(indices, offset, face, leftHanded, k - 1);
    var t := Oriented(Triangle(0, k, k + 1), leftHanded);
    MeshWeightGrows(before, CornerAt(indices, offset, face, t.a), CornerAt(indices, offset, face, t.b),
                    CornerAt(indices, offset, face, t.c), w);
    LocalTriangle(indices, offset, Triangle(0, k, k + 1), w);
    TurnedTriangle(indices[offset], indices[offset + k], indices[offset + k + 1], w);
  }

  lemma {:induction false} FaceCornersWeight(indices: seq<int>, offset: nat, face: nat, leftHanded: bool, k: nat,
                                             w: (int, int) -> real)
    requires Antisymmetric(w) && offset + k + 2 <= |indices|
    ensures MeshWeight(FaceCorners(indices, offset, face, leftHanded, k), w) ==
            Turned(FanWeight(Fan(k + 2), Local(indices, offset, w)), leftHanded)
  {
    hide *;
    if k > 0 {
      FaceCornersWeight(indices, offset, face, leftHanded, k - 1, w);
      FanGrows(k + 2, Local(indices, offset, w));
      FaceCornersGrow(indices, offset, face, leftHanded, k, w);
      TurnedSum(FanWeight(Fan(k + 1), Local(indices, offset, w)),
                TriangleWeight(Triangle(0, k, k + 1), Local(indices, offset, w)), leftHanded);
    } else {
      FlatFace(indices, offset, face, leftHanded, w);
    }
  }

  lemma FlatFace(indices: seq<int>, offset: nat, face: nat, leftHanded: bool, w: (int, int) -> real)
    requires offset + 2 <= |indices|
    ensures MeshWeight(FaceCorners(indices, offset, face, leftHanded, 0), w) ==
            Turned(FanWeight(Fan(2), Local(indices, offset, w)), leftHanded)
  {
  }

  lemma TurnedSum(x: real, y: real, leftHanded: bool)
    ensures Turned(x + y, leftHanded) == Turned(x, leftHanded) + Turned(y, leftHanded)
  {
  }

  lemma BoundaryGrows(t: Topology, n: nat, w: (int, int) -> real)
    requires n < |t.counts| && FacesFit(t, n + 1)
    ensures FacesFit(t, n) && t.counts[n] >= 3 && 0 <= Offset(t.counts, n) <= |t.indices| - t.counts[n]
    ensures BoundaryWeight(t, n + 1, w) ==
            BoundaryWeight(t, n, w) +
            if n in t.holes then 0.0 else CycleWeight(t.counts[n], Local(t.indices, Offset(t.counts, n), w))
  {
    hide CycleWeight, Local;
    assert Offset(t.counts, n + 1) == Offset(t.counts, n) + t.counts[n];
  }

  lemma NothingWeighs(t: Topology, w: (int, int) -> real)
    requires FacesFit(t, 0)
    ensures MeshWeight(CornersUpTo(t, 0), w) == BoundaryWeight(t, 0, w) == 0.0
  {
  }

  /** The emitted triangles weigh what the authored faces' boundaries weigh; a left-handed
      mesh is turned over.  With EdgeUse this says that all inner edges cancel, with Shoelace
      that the signed area is that of the authored polygons. */
  lemma {:induction false} TrianglesKeepBoundary(t: Topology, n: nat, w: (int, int) -> real)
    requires n <= |t.counts| && FacesFit(t, n) && Antisymmetric(w)
    ensures MeshWeight(CornersUpTo(t, n), w) == Turned(BoundaryWeight(t, n, w), t.leftHanded)
  {
    hide FaceCorners, Antisymmetric, CycleWeight, Local, FacesFit, CornersUpTo, MeshWeight, BoundaryWeight, Offset;
    if n == 0 {
      NothingWeighs(t, w);
      return;
    }
    var f: nat := n - 1;
    BoundaryGrows(t, f, w);
    FitsNext(t, f);
    TrianglesKeepBoundary(t, f, w);
    if f !in t.holes {
      var offset, k := Offset(t.counts, f), t.counts[f] - 2;
      MeshWeightAppends(CornersUpTo(t, f), FaceCorners(t.indices, offset, f, t.leftHanded, k), w);
      FaceKeepsBoundary(t.indices, offset, f, t.leftHanded, k, w);
    } else {
      assert CornersUpTo(t, n) == CornersUpTo(t, f);
    }
  }

  lemma FaceKeepsBoundary(indices: seq<int>, offset: nat, face: nat, leftHanded: bool, k: nat, w: (int, int) -> real)
    requires Antisymmetric(w) && offset + k + 2 <= |indices|
    ensures MeshWeight(FaceCorners(indices, offset, face, leftHanded, k), w) ==
            Turned(CycleWeight(k + 2, Local(indices, offset, w)), leftHanded)
  {
    hide *;
    FaceCornersWeight(indices, offset, face, leftHanded, k, w);
    LocalAntisymmetric(indices, offset, w);
    FanHasFaceBoundary(k + 2, Local(indices, offset, w));
  }

  lemma LocalAntisymmetric(indices: seq<int>, offset: int, w: (int, int) -> real)
    requires Antisymmetric(w)
    ensures Antisymmetric(Local(indices, offset, w))
  {
    var local := Local(indices, offset, w);
    forall u, v ensures local(u, v) == -local(v, u) {
      if 0 <= offset + u < |indices| && 0 <= offset + v < |indices| {
        var a, b := indices[offset + u], indices[offset + v];
        assert w(a, b) == -w(b, a);
      }
    }
  }

  /** An accepted triangulation uses existing points only, uses every edge as often as the
      authored boundaries do (inner edges cancel), and has their signed area, for any
      coordinates; a left-handed mesh is turned over. */
  lemma TriangulationPreservesPolygons(t: Topology, points: nat, u: int, v: int, xs: int -> real, ys: int -> real)
    requires Sound(t, points)
    ensures FacesFit(t, |t.counts|)
    ensures forall c :: c in CornersUpTo(t, |t.counts|) ==> 0 <= c.point < points
    ensures MeshWeight(CornersUpTo(t, |t.counts|), EdgeUse(u, v)) ==
            Turned(BoundaryWeight(t, |t.counts|, EdgeUse(u, v)), t.leftHanded)
    ensures MeshWeight(CornersUpTo(t, |t.counts|), Shoelace(xs, ys)) ==
            Turned(BoundaryWeight(t, |t.counts|, Shoelace(xs, ys)), t.leftHanded)
  {
    var n := |t.counts|;
    SoundFits(t, points);
    CornersFaithful(t, n);
    forall c | c in CornersUpTo(t, n) ensures 0 <= c.point < points {
      assert CornerFaithful(c, t, n);
      assert PointsSound(t, points, c.face);
    }
    hide Sound, FacesFit, CornersUpTo, MeshWeight, BoundaryWeight, EdgeUse, Shoelace, Antisymmetric;
    WeightsAntisymmetric(u, v, xs, ys);
    TrianglesKeepBoundary(t, n, EdgeUse(u, v));
    TrianglesKeepBoundary(t, n, Shoelace(xs, ys));
  }
}
