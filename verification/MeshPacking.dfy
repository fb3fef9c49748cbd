/**
 Packing a mesh: per-corner normals and tangents are prepared, authored values first, and then
 every corner's attributes are appended to the descriptor's arrays.  The vector arithmetic is a
 parameter.
 */
module MeshPacking {
  import opened Wrappers
  import opened Triangulation
  import opened MeshRanges

  // ------------------------------------------------------------ Reading primvars

  datatype Interpolation = Constant | Uniform | Vertex | Varying | FaceVarying | Instance

  /** `values` is absent when the authored value has a type the reader does not accept. */
  datatype PrimvarInput<T> = PrimvarInput(
    present: bool, interpolation: Interpolation, indices: seq<int>, values: Option<seq<T>>)

  /** The element of the value array that a corner uses. */
  function PrimvarElement<T>(input: PrimvarInput<T>, corner: Corner): (r: Option<nat>)
    requires corner.point >= 0
    ensures r.Some? && input.indices != [] ==> r.value in input.indices
  {
    if input.interpolation.Instance? then None
    else
      var element: nat :=
        match input.interpolation
        case Constant => 0
        case Uniform => corner.face
        case FaceVarying => corner.authoredCorner
        case _ => corner.point;
      if input.indices == [] then Some(element)
      else if element >= |input.indices| || input.indices[element] < 0 then None
      else Some(input.indices[element])
  }

  function Read<T>(input: PrimvarInput<T>, corner: Corner): Option<T>
    requires corner.point >= 0
  {
    var element := PrimvarElement(input, corner);
    if element.None? || input.values.None? || element.value >= |input.values.value| then None
    else Some(input.values.value[element.value])
  }

  /** Place k of the values, or the place of the values that index k names, exists. */
  predicate PlaceExists<T>(input: PrimvarInput<T>, k: int) {
    && input.values.Some?
    && if input.indices == [] then 0 <= k < |input.values.value|
       else 0 <= k < |input.indices| && 0 <= input.indices[k] < |input.values.value|
  }

  /** It holds v. */
  ghost predicate PlaceHolds<T>(input: PrimvarInput<T>, k: int, v: T) {
    && PlaceExists(input, k)
    && v == input.values.value[if input.indices == [] then k else input.indices[k]]
  }

  /** The place a corner takes its value from exists. */
  ghost predicate Reached<T>(input: PrimvarInput<T>, c: Corner) {
    && !input.interpolation.Instance?
    && (input.interpolation.Constant? ==> PlaceExists(input, 0))
    && (input.interpolation.Uniform? ==> PlaceExists(input, c.face))
    && (input.interpolation.Vertex? || input.interpolation.Varying? ==> PlaceExists(input, c.point))
    && (input.interpolation.FaceVarying? ==> PlaceExists(input, c.authoredCorner))
  }

  /** The corner's value: one for all, one for a face, one for a point, or one for an authored corner. */
  ghost predicate Gets<T>(input: PrimvarInput<T>, c: Corner, v: T) {
    && !input.interpolation.Instance?
    && (input.interpolation.Constant? ==> PlaceHolds(input, 0, v))
    && (input.interpolation.Uniform? ==> PlaceHolds(input, c.face, v))
    && (input.interpolation.Vertex? || input.interpolation.Varying? ==> PlaceHolds(input, c.point, v))
    && (input.interpolation.FaceVarying? ==> PlaceHolds(input, c.authoredCorner, v))
  }

  /** The primvar is not authored, or reaches a value for every corner. */
  ghost predicate AllReached<T>(input: PrimvarInput<T>, corners: seq<Corner>) {
    input.present ==> forall i :: 0 <= i < |corners| ==> Reached(input, corners[i])
  }

  /** Reading finds exactly the corner's value. */
  lemma ReadGets<T>(input: PrimvarInput<T>, c: Corner)
    requires c.point >= 0
    ensures Read(input, c).Some? <==> Reached(input, c)
    ensures forall v :: Read(input, c) == Some(v) <==> Gets(input, c, v)
  {
  }

  function Clamp(x: real): real {
    if x < 0.0 then 0.0 else if x > 1.0 then 1.0 else x
  }

  /** White and opaque where nothing is authored; the opacity is clamped. */
  function ColorAt(colors: PrimvarInput<Vec3>, opacities: PrimvarInput<real>, c: Corner): Vec4
    requires c.point >= 0
    requires (colors.present ==> Read(colors, c).Some?) && (opacities.present ==> Read(opacities, c).Some?)
  {
    var rgb := if colors.present then Read(colors, c).value else Vec3(1.0, 1.0, 1.0);
    Vec4(rgb.x, rgb.y, rgb.z, Clamp(if opacities.present then Read(opacities, c).value else 1.0))
  }

  // ------------------------------------------------------------ Preparing normals and tangents

  /** The arithmetic: normalising a vector, the unit normal of a triangle, an authored tangent made
      orthogonal to a normal, and the tangent generated for one corner. */
  datatype Geometry = Geometry(
    unit: Vec3 -> Option<Vec3>,
    flat: (Vec3, Vec3, Vec3) -> Vec3,
    tangent: (Vec4, Vec3) -> Option<Vec4>,
    generated: (seq<Vec3>, seq<Corner>, seq<Vec3>, seq<Vec2>, nat) -> Vec4)

  /** Whole triangles over existing points. */
  ghost predicate Triangles(corners: seq<Corner>, points: nat) {
    |corners| % 3 == 0 && forall c :: c in corners ==> 0 <= c.point < points
  }

  /** The unit normal of the triangle a corner belongs to. */
  function FlatNormal(g: Geometry, points: seq<Vec3>, corners: seq<Corner>, i: nat): Vec3
    requires i < |corners| && |corners| % 3 == 0 && forall c :: c in corners ==> 0 <= c.point < |points|
  {
    var t := i / 3 * 3;
    g.flat(points[corners[t].point], points[corners[t + 1].point], points[corners[t + 2].point])
  }

  /** The authored normal of a corner if it can be normalised, else that of its triangle. */
  function NormalAt(g: Geometry, points: seq<Vec3>, corners: seq<Corner>, authored: PrimvarInput<Vec3>, i: nat): Vec3
    requires i < |corners| && |corners| % 3 == 0 && forall c :: c in corners ==> 0 <= c.point < |points|
    requires authored.present ==> Read(authored, corners[i]).Some?
  {
    if !authored.present then FlatNormal(g, points, corners, i)
    else
      var u := g.unit(Read(authored, corners[i]).value);
      if u.Some? then u.value else FlatNormal(g, points, corners, i)
  }

  /** In the inputs: n is the authored normal of corner i made unit, or the flat normal of the three
      corners of its triangle. */
  ghost predicate NormalGiven(g: Geometry, points: seq<Vec3>, corners: seq<Corner>, authored: PrimvarInput<Vec3>,
                              i: nat, n: Vec3)
    requires i < |corners| && |corners| % 3 == 0 && forall c :: c in corners ==> 0 <= c.point < |points|
  {
    var first := i - i % 3;
    var flat := g.flat(points[corners[first].point], points[corners[first + 1].point],
                       points[corners[first + 2].point]);
    if authored.present
    then exists a {:trigger Gets(authored, corners[i], a)} ::
           Gets(authored, corners[i], a) && n == if g.unit(a).Some? then g.unit(a).value else flat
    else n == flat
  }

  lemma NormalIsGiven(g: Geometry, points: seq<Vec3>, corners: seq<Corner>, authored: PrimvarInput<Vec3>, i: nat)
    requires i < |corners| && |corners| % 3 == 0 && forall c :: c in corners ==> 0 <= c.point < |points|
    requires authored.present ==> Read(authored, corners[i]).Some?
    ensures NormalGiven(g, points, corners, authored, i, NormalAt(g, points, corners, authored, i))
  {
    assert i / 3 * 3 == i - i % 3;
    ReadGets(authored, corners[i]);
    if authored.present {
      assert Gets(authored, corners[i], Read(authored, corners[i]).value);
    }
  }

  const NO_TANGENT := Vec4(0.0, 0.0, 0.0, 0.0)

  /** The authored tangent if it is usable, else the generated one where there are texture coordinates. */
  function TangentAt(g: Geometry, points: seq<Vec3>, corners: seq<Corner>, normals: seq<Vec3>, texcoords: seq<Vec2>,
                     authored: PrimvarInput<Vec4>, i: nat): Vec4
    requires i < |corners| == |normals| && corners[i].point >= 0
    requires authored.present ==> Read(authored, corners[i]).Some?
  {
    var t := if authored.present then g.tangent(Read(authored, corners[i]).value, normals[i]) else None;
    if t.Some? then t.value
    else if texcoords != [] then g.generated(points, corners, normals, texcoords, i)
    else NO_TANGENT
  }

  /** In the inputs: t is the authored tangent of corner i if it suits the normal, else the generated
      one where there are texture coordinates, else zero. */
  ghost predicate TangentGiven(g: Geometry, points: seq<Vec3>, corners: seq<Corner>, normals: seq<Vec3>,
                               texcoords: seq<Vec2>, authored: PrimvarInput<Vec4>, i: nat, t: Vec4)
    requires i < |corners| == |normals|
  {
    var other := if texcoords == [] then Vec4(0.0, 0.0, 0.0, 0.0)
                 else g.generated(points, corners, normals, texcoords, i);
    if authored.present
    then exists a {:trigger Gets(authored, corners[i], a)} ::
           && Gets(authored, corners[i], a)
           && t == if g.tangent(a, normals[i]).Some? then g.tangent(a, normals[i]).value else other
    else t == other
  }

  lemma TangentIsGiven(g: Geometry, points: seq<Vec3>, corners: seq<Corner>, normals: seq<Vec3>,
                       texcoords: seq<Vec2>, authored: PrimvarInput<Vec4>, i: nat)
    requires i < |corners| == |normals| && corners[i].point >= 0
    requires authored.present ==> Read(authored, corners[i]).Some?
    ensures TangentGiven(g, points, corners, normals, texcoords, authored, i,
                         TangentAt(g, points, corners, normals, texcoords, authored, i))
  {
    ReadGets(authored, corners[i]);
    if authored.present {
      assert Gets(authored, corners[i], Read(authored, corners[i]).value);
    }
  }

  method CheckCorners(corners: seq<Corner>, points: nat) returns (ok: bool)
    requires forall c :: c in corners ==> c.point >= 0
    ensures ok <==> Triangles(corners, points)
  {
    if |corners| % 3 != 0 {
      return false;
    }
    var i := 0;
    while i < |corners|
      invariant 0 <= i <= |corners| && forall j :: 0 <= j < i ==> corners[j].point < points
    {
      if corners[i].point >= points {
        assert corners[i] in corners;
        return false;
      }
      i := i + 1;
    }
    ok := true;
  }

  /** One normal for every corner, or none if the corners or the authored normals are malformed. */
  method PrepareCornerNormals(g: Geometry, points: seq<Vec3>, corners: seq<Corner>, authored: PrimvarInput<Vec3>)
    returns (normals: Option<seq<Vec3>>)
    requires forall c :: c in corners ==> c.point >= 0
    ensures normals.Some? <==> Triangles(corners, |points|) && AllReached(authored, corners)
    ensures normals.Some? ==>
              && |normals.value| == |corners|
              && forall i :: 0 <= i < |corners| ==>
                   NormalGiven(g, points, corners, authored, i, normals.value[i])
  {
    hide Read, Reached, Gets, NormalAt, NormalGiven;
    var ok := CheckCorners(corners, |points|);
    if !ok {
      return None;
    }
    var result: seq<Vec3> := [];
    while |result| < |corners|
      invariant |result| <= |corners|
      invariant authored.present ==> forall j :: 0 <= j < |result| ==> Reached(authored, corners[j])
      invariant forall j :: 0 <= j < |result| ==> NormalGiven(g, points, corners, authored, j, result[j])
    {
      var i := |result|;
      ReadGets(authored, corners[i]);
      if authored.present && Read(authored, corners[i]).None? {
        return None;
      }
      NormalIsGiven(g, points, corners, authored, i);
      result := result + [NormalAt(g, points, corners, authored, i)];
    }
    normals := Some(result);
  }

  /** One tangent for every corner, or none if an authored one cannot be read. */
  method PrepareCornerTangents(g: Geometry, points: seq<Vec3>, corners: seq<Corner>, normals: seq<Vec3>,
                               texcoords: seq<Vec2>, authored: PrimvarInput<Vec4>)
    returns (tangents: Option<seq<Vec4>>)
    requires Triangles(corners, |points|) && |normals| == |corners|
    requires texcoords == [] || |texcoords| == |corners|
    ensures tangents.Some? <==> AllReached(authored, corners)
    ensures tangents.Some? ==>
              && |tangents.value| == |corners|
              && forall i :: 0 <= i < |corners| ==>
                   TangentGiven(g, points, corners, normals, texcoords, authored, i, tangents.value[i])
  {
    hide Read, Reached, Gets, TangentAt, TangentGiven;
    var result: seq<Vec4> := [];
    while |result| < |corners|
      invariant |result| <= |corners|
      invariant authored.present ==> forall j :: 0 <= j < |result| ==> Reached(authored, corners[j])
      invariant forall j :: 0 <= j < |result| ==>
                  TangentGiven(g, points, corners, normals, texcoords, authored, j, result[j])
    {
      var i := |result|;
      assert corners[i] in corners;
      ReadGets(authored, corners[i]);
      if authored.present && Read(authored, corners[i]).None? {
        return None;
      }
      TangentIsGiven(g, points, corners, normals, texcoords, authored, i);
      result := result + [TangentAt(g, points, corners, normals, texcoords, authored, i)];
    }
    tangents := Some(result);
  }

  // ------------------------------------------------------------ Packing

  /** The authored primvars of a mesh. */
  datatype MeshInput = MeshInput(
    points: seq<Vec3>, normals: PrimvarInput<Vec3>, tangents: PrimvarInput<Vec4>, texcoords: PrimvarInput<Vec2>,
    colors: PrimvarInput<Vec3>, opacities: PrimvarInput<real>)

  /** When a set of corners can be packed: whole triangles, and every authored primvar readable. */
  ghost predicate Packable(input: MeshInput, corners: seq<Corner>) {
    && corners != [] && Triangles(corners, |input.points|)
    && AllReached(input.normals, corners) && AllReached(input.texcoords, corners)
    && AllReached(input.tangents, corners)
    && AllReached(input.colors, corners) && AllReached(input.opacities, corners)
  }

  /** The colour of a corner: white and opaque where nothing is authored, the opacity no less than
      0 and no more than 1. */
  ghost predicate ColorGiven(input: MeshInput, c: Corner, color: Vec4) {
    && (if input.colors.present then Gets(input.colors, c, Vec3(color.x, color.y, color.z))
        else color.x == color.y == color.z == 1.0)
    && (if input.opacities.present
        then exists o {:trigger Gets(input.opacities, c, o)} ::
               && Gets(input.opacities, c, o)
               && (o < 0.0 ==> color.w == 0.0) && (0.0 <= o <= 1.0 ==> color.w == o) && (o > 1.0 ==> color.w == 1.0)
        else color.w == 1.0)
  }

  lemma ColorIsGiven(input: MeshInput, c: Corner)
    requires c.point >= 0 && (input.colors.present ==> Read(input.colors, c).Some?)
    requires input.opacities.present ==> Read(input.opacities, c).Some?
    ensures ColorGiven(input, c, ColorAt(input.colors, input.opacities, c))
  {
    hide Read, Gets;
    ReadGets(input.colors, c);
    ReadGets(input.opacities, c);
    if input.opacities.present {
      assert Gets(input.opacities, c, Read(input.opacities, c).value);
    }
  }

  /** Prepared attributes; texture coordinates and tangents only where the mesh has them. */
  datatype Attributes = Attributes(normals: seq<Vec3>, texcoords: seq<Vec2>, tangents: Option<seq<Vec4>>)
  {
    predicate For(n: nat) {
      |normals| == n && (texcoords == [] || |texcoords| == n) && (tangents.Some? ==> |tangents.value| == n)
    }
  }

  function Positions(points: seq<Vec3>, corners: seq<Corner>, n: nat): seq<Vec3>
    requires n <= |corners| && forall c :: c in corners ==> 0 <= c.point < |points|
  {
    seq(n, i requires 0 <= i < n => points[corners[i].point])
  }

  predicate ColorsRead(input: MeshInput, corners: seq<Corner>, n: nat)
    requires n <= |corners| && forall c :: c in corners ==> c.point >= 0
  {
    forall i :: 0 <= i < n ==>
      && (input.colors.present ==> Read(input.colors, corners[i]).Some?)
      && (input.opacities.present ==> Read(input.opacities, corners[i]).Some?)
  }

  function Colors(input: MeshInput, corners: seq<Corner>, n: nat): seq<Vec4>
    requires n <= |corners| && (forall c :: c in corners ==> c.point >= 0) && ColorsRead(input, corners, n)
  {
    if !input.colors.present && !input.opacities.present then []
    else seq(n, i requires 0 <= i < n => ColorAt(input.colors, input.opacities, corners[i]))
  }

  function Prefix<T>(s: seq<T>, n: nat): seq<T> {
    if n <= |s| then s[..n] else s
  }

  /** The descriptor of the first n corners. */
  function PackedUpTo(input: MeshInput, corners: seq<Corner>, a: Attributes, n: nat): (d: MeshDescriptor)
    requires n <= |corners| && forall c :: c in corners ==> 0 <= c.point < |input.points|
    requires a.For(|corners|) && ColorsRead(input, corners, n)
  {
    MeshDescriptor(
      Positions(input.points, corners, n), Prefix(a.normals, n), Colors(input, corners, n), Prefix(a.texcoords, n),
      if a.tangents.Some? then Prefix(a.tangents.value, n) else [], seq(n, i => i))
  }

  lemma PackedMore(input: MeshInput, corners: seq<Corner>, a: Attributes, n: nat)
    requires n < |corners| && forall c :: c in corners ==> 0 <= c.point < |input.points|
    requires a.For(|corners|) && ColorsRead(input, corners, n + 1)
    ensures ColorsRead(input, corners, n)
    ensures var d, d' := PackedUpTo(input, corners, a, n), PackedUpTo(input, corners, a, n + 1);
            && d'.positions == d.positions + [input.points[corners[n].point]]
            && d'.normals == d.normals + [a.normals[n]]
            && d'.texcoords == d.texcoords + (if a.texcoords != [] then [a.texcoords[n]] else [])
            && d'.tangents == d.tangents + (if a.tangents.Some? then [a.tangents.value[n]] else [])
            && d'.indices == d.indices + [|d.indices|]
  {
    hide Colors, Read;
  }

  lemma ColorsMore(input: MeshInput, corners: seq<Corner>, n: nat)
    requires n < |corners| && (forall c :: c in corners ==> c.point >= 0) && ColorsRead(input, corners, n + 1)
    ensures ColorsRead(input, corners, n)
    ensures Colors(input, corners, n + 1) ==
            Colors(input, corners, n) +
            if input.colors.present || input.opacities.present
            then [ColorAt(input.colors, input.opacities, corners[n])] else []
  {
    hide Read;
  }

  /** What an accepted mesh holds for every corner. */
  ghost predicate PackedAll(d: MeshDescriptor, g: Geometry, input: MeshInput, corners: seq<Corner>)
    requires Triangles(corners, |input.points|)
  {
    var n := |corners|;
    && |d.positions| == |d.indices| == |d.normals| == n
    && (forall i :: 0 <= i < n ==> d.positions[i] == input.points[corners[i].point])
    && (forall i :: 0 <= i < n ==> d.indices[i] == i)
    && (forall i :: 0 <= i < n ==> NormalGiven(g, input.points, corners, input.normals, i, d.normals[i]))
    && |d.colors| == (if input.colors.present || input.opacities.present then n else 0)
    && (forall i :: 0 <= i < |d.colors| ==> ColorGiven(input, corners[i], d.colors[i]))
    && |d.texcoords| == (if input.texcoords.present then n else 0)
    && (forall i :: 0 <= i < |d.texcoords| ==> Gets(input.texcoords, corners[i], d.texcoords[i]))
    && |d.tangents| == (if input.tangents.present || input.texcoords.present then n else 0)
    && (forall i :: 0 <= i < |d.tangents| ==>
          TangentGiven(g, input.points, corners, d.normals, d.texcoords, input.tangents, i, d.tangents[i]))
  }

  class PackedMesh {
    var descriptor: MeshDescriptor

    constructor ()
      ensures descriptor == EMPTY_MESH
    {
      descriptor := EMPTY_MESH;
    }

    /** Packs all corners, or leaves every array empty. */
    method RebuildPackedMesh(g: Geometry, input: MeshInput, corners: seq<Corner>) returns (accepted: bool)
      requires forall c :: c in corners ==> c.point >= 0
      modifies this
      ensures Packed(descriptor)
      ensures accepted <==> Packable(input, corners)
      ensures accepted ==> PackedAll(descriptor, g, input, corners)
      ensures !accepted ==> descriptor == EMPTY_MESH
    {
      hide Reached, NormalGiven, TangentGiven, ColorGiven, Gets, Triangles, PackedUpTo, PackedAll, ColorsRead;
      descriptor := EMPTY_MESH;
      if corners == [] {
        return false;
      }
      var normals := PrepareCornerNormals(g, input.points, corners, input.normals);
      if normals.None? {
        return false;
      }
      var texcoords := ReadTexcoords(input.texcoords, corners);
      if texcoords.None? {
        return false;
      }
      var tangents: Option<seq<Vec4>> := None;
      if input.tangents.present || texcoords.value != [] {
        tangents := PrepareCornerTangents(g, input.points, corners, normals.value, texcoords.value, input.tangents);
        if tangents.None? {
          return false;
        }
      }
      CornersInRange(corners, |input.points|);
      var a := Attributes(normals.value, texcoords.value, tangents);
      accepted := PackCorners(input, corners, a);
      if accepted {
        AllPacked(g, input, corners, a);
      }
    }

    lemma CornersInRange(corners: seq<Corner>, points: nat)
      requires Triangles(corners, points)
      ensures |corners| % 3 == 0 && forall c :: c in corners ==> 0 <= c.point < points
    {
    }

    /** The texture coordinates of all corners, if they have any; none if one cannot be read. */
    method ReadTexcoords(input: PrimvarInput<Vec2>, corners: seq<Corner>) returns (texcoords: Option<seq<Vec2>>)
      requires forall c :: c in corners ==> c.point >= 0
      ensures texcoords.Some? <==> AllReached(input, corners)
      ensures texcoords.Some? && !input.present ==> texcoords.value == []
      ensures texcoords.Some? && input.present ==>
                && |texcoords.value| == |corners|
                && forall j :: 0 <= j < |corners| ==> Gets(input, corners[j], texcoords.value[j])
    {
      hide Read, Reached, Gets;
      if !input.present {
        return Some([]);
      }
      var result: seq<Vec2> := [];
      while |result| < |corners|
        invariant |result| <= |corners|
        invariant forall j :: 0 <= j < |result| ==> Reached(input, corners[j]) && Gets(input, corners[j], result[j])
      {
        ReadGets(input, corners[|result|]);
        var texcoord := Read(input, corners[|result|]);
        if texcoord.None? {
          return None;
        }
        result := result + [texcoord.value];
      }
      texcoords := Some(result);
    }

    method PackCorners(input: MeshInput, corners: seq<Corner>, a: Attributes) returns (accepted: bool)
      requires forall c :: c in corners ==> 0 <= c.point < |input.points|
      requires a.For(|corners|) && |corners| % 3 == 0 && corners != [] && descriptor == EMPTY_MESH
      modifies this
      ensures accepted <==> AllReached(input.colors, corners) && AllReached(input.opacities, corners)
      ensures accepted ==>
                ColorsRead(input, corners, |corners|) && descriptor == PackedUpTo(input, corners, a, |corners|)
      ensures !accepted ==> descriptor == EMPTY_MESH
    {
      hide Read, PackedUpTo, ColorsRead, AllReached;
      PackedNone(input, corners, a);
      var triangle := 0;
      while triangle < |corners|
        invariant 0 <= triangle <= |corners| && triangle % 3 == 0
        invariant ColorsRead(input, corners, triangle) && descriptor == PackedUpTo(input, corners, a, triangle)
      {
        var local := 0;
        while local < 3
          invariant 0 <= local <= 3 && triangle + 3 <= |corners|
          invariant ColorsRead(input, corners, triangle + local)
          invariant descriptor == PackedUpTo(input, corners, a, triangle + local)
        {
          accepted := PackCorner(input, corners, triangle + local, a);
          if !accepted {
            Unreadable(input, corners, triangle + local);
            descriptor := EMPTY_MESH;
            return false;
          }
          local := local + 1;
        }
        triangle := triangle + 3;
      }
      assert triangle == |corners|;
      AllRead(input, corners);
      return true;
    }

    method PackCorner(input: MeshInput, corners: seq<Corner>, i: nat, a: Attributes) returns (accepted: bool)
      requires i < |corners| && forall c :: c in corners ==> 0 <= c.point < |input.points|
      requires a.For(|corners|) && ColorsRead(input, corners, i) && descriptor == PackedUpTo(input, corners, a, i)
      modifies this
      ensures accepted <==> ColorsRead(input, corners, i + 1)
      ensures accepted ==> descriptor == PackedUpTo(input, corners, a, i + 1)
    {
      hide Read, Clamp, PackedUpTo, Colors;
      var corner := corners[i];
      var d := descriptor;
      d := d.(positions := d.positions + [input.points[corner.point]], normals := d.normals + [a.normals[i]]);
      var color := Vec4(1.0, 1.0, 1.0, 1.0);
      if input.colors.present {
        var rgb := Read(input.colors, corner);
        if rgb.None? {
          return false;
        }
        color := Vec4(rgb.value.x, rgb.value.y, rgb.value.z, color.w);
      }
      if input.opacities.present {
        var opacity := Read(input.opacities, corner);
        if opacity.None? {
          return false;
        }
        color := color.(w := opacity.value);
      }
      color := color.(w := Clamp(color.w));
      PackedMore(input, corners, a, i);
      ColorsMore(input, corners, i);
      ColorsOf(input, corners, a, i);
      ColorsOf(input, corners, a, i + 1);
      if input.colors.present || input.opacities.present {
        d := d.(colors := d.colors + [color]);
      }
      if a.texcoords != [] {
        d := d.(texcoords := d.texcoords + [a.texcoords[i]]);
      }
      if a.tangents.Some? {
        d := d.(tangents := d.tangents + [a.tangents.value[i]]);
      }
      descriptor := d.(indices := d.indices + [|d.indices|]);
      return true;
    }
  }

  /** With prepared attributes, the descriptor of all corners is what was asked for. */
  lemma AllPacked(g: Geometry, input: MeshInput, corners: seq<Corner>, a: Attributes)
    requires Triangles(corners, |input.points|)
    requires a.For(|corners|) && corners != [] && ColorsRead(input, corners, |corners|)
    requires forall i :: 0 <= i < |corners| ==>
               NormalGiven(g, input.points, corners, input.normals, i, a.normals[i])
    requires |a.texcoords| == if input.texcoords.present then |corners| else 0
    requires forall i :: 0 <= i < |a.texcoords| ==> Gets(input.texcoords, corners[i], a.texcoords[i])
    requires a.tangents.Some? <==> input.tangents.present || input.texcoords.present
    requires a.tangents.Some? ==>
               forall i :: 0 <= i < |corners| ==>
                 TangentGiven(g, input.points, corners, a.normals, a.texcoords, input.tangents, i, a.tangents.value[i])
    ensures var d := PackedUpTo(input, corners, a, |corners|); PackedAll(d, g, input, corners) && Packed(d)
  {
    hide Read, NormalGiven, TangentGiven, Gets, ColorGiven, ColorAt;
    var d := PackedUpTo(input, corners, a, |corners|);
    assert d.normals == a.normals && d.texcoords == a.texcoords;
    assert d.tangents == if a.tangents.Some? then a.tangents.value else [];
    forall i | 0 <= i < |d.colors| ensures ColorGiven(input, corners[i], d.colors[i]) {
      ColorIsGiven(input, corners[i]);
    }
  }

  lemma ColorsOf(input: MeshInput, corners: seq<Corner>, a: Attributes, n: nat)
    requires n <= |corners| && forall c :: c in corners ==> 0 <= c.point < |input.points|
    requires a.For(|corners|) && ColorsRead(input, corners, n)
    ensures PackedUpTo(input, corners, a, n).colors == Colors(input, corners, n)
  {
  }

  lemma PackedNone(input: MeshInput, corners: seq<Corner>, a: Attributes)
    requires a.For(|corners|) && forall c :: c in corners ==> 0 <= c.point < |input.points|
    ensures ColorsRead(input, corners, 0) && PackedUpTo(input, corners, a, 0) == EMPTY_MESH
  {
  }

  lemma Unreadable(input: MeshInput, corners: seq<Corner>, i: nat)
    requires i < |corners| && (forall c :: c in corners ==> c.point >= 0) && !ColorsRead(input, corners, i + 1)
    ensures !(AllReached(input.colors, corners) && AllReached(input.opacities, corners))
  {
    hide Read, Reached;
    forall j | 0 <= j < |corners|
      ensures Read(input.colors, corners[j]).Some? <==> Reached(input.colors, corners[j])
      ensures Read(input.opacities, corners[j]).Some? <==> Reached(input.opacities, corners[j])
    {
      ReadGets(input.colors, corners[j]);
      ReadGets(input.opacities, corners[j]);
    }
  }

  lemma AllRead(input: MeshInput, corners: seq<Corner>)
    requires (forall c :: c in corners ==> c.point >= 0) && ColorsRead(input, corners, |corners|)
    ensures AllReached(input.colors, corners) && AllReached(input.opacities, corners)
  {
    hide Read, Reached;
    forall i | 0 <= i < |corners|
      ensures input.colors.present ==> Reached(input.colors, corners[i])
      ensures input.opacities.present ==> Reached(input.opacities, corners[i])
    {
      ReadGets(input.colors, corners[i]);
      ReadGets(input.opacities, corners[i]);
    }
  }
}
