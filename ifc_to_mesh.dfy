/**
 * Turning the faces read from an IFC file into one indexed triangle mesh, and
 * merging such meshes.
 *
 * A face is skipped when its outer boundary has fewer than three points or
 * its normal is (nearly) zero. A triangle or quad without holes is
 * fan-triangulated; any other face goes to an ear-clipping triangulator,
 * and back to the fan on its outer boundary when that gives nothing. The
 * normal of a face and the ear-clipping triangulator are parameters: the
 * triangulator is only assumed to return indices of the vertices it was
 * given.
 */
module IfcToMesh {
  import opened Core
  import opened Triangles

  /** The faces read from a file: an outer boundary and the holes (`IfcFaceData`). */
  datatype FaceData = FaceData(outer: seq<Vec3>, holes: seq<seq<Vec3>>)

  /** `IfcTriMesh`: one normal per position, three indices per triangle. */
  datatype IfcTriMesh = IfcTriMesh(name: string, positions: seq<Vec3>, normals: seq<Vec3>, indices: seq<nat>)

  function EmptyMesh(name: string): IfcTriMesh {
    IfcTriMesh(name, [], [], [])
  }

  /** `IfcTriMesh::triangle_count`. */
  function TriangleCount(m: IfcTriMesh): nat {
    |m.indices| / 3
  }

  /** Every index refers to a position. */
  predicate InRange(m: IfcTriMesh) {
    forall i :: 0 <= i < |m.indices| ==> m.indices[i] < |m.positions|
  }

  // ----- fan_triangulate -----

  /** `fan_triangulate`. */
  method FanTriangulate(vertices: seq<Vec3>) returns (triangles: seq<Triple>)
    ensures triangles == Fan(|vertices|)
  {
    var n := |vertices|;
    if n < 3 {
      return [];
    }
    triangles := [];
    var i := 1;
    while i < n - 1
      invariant 1 <= i <= n - 1
      invariant triangles == Fan(i + 1)
    {
      triangles := triangles + [Triple(0, i, i + 1)];
      i := i + 1;
    }
  }

  // ----- project_to_2d -----

  datatype Axis = X | Y | Z

  /** The axis the projection drops: the one with the largest normal component, ties going to Z, then Y. */
  function DroppedAxis(normal: Vec3): Axis {
    if AbsR(normal.z) >= AbsR(normal.x) && AbsR(normal.z) >= AbsR(normal.y) then Z
    else if AbsR(normal.y) >= AbsR(normal.x) then Y
    else X
  }

  function Component(v: Vec3, a: Axis): real {
    match a
    case X => v.x
    case Y => v.y
    case Z => v.z
  }

  /** No normal component is larger than the dropped one, and the dropped one is larger than any on a preferred axis. */
  lemma DroppedIsLargest(normal: Vec3)
    ensures var d := DroppedAxis(normal);
            forall a: Axis :: AbsR(Component(normal, a)) <= AbsR(Component(normal, d))
    ensures DroppedAxis(normal) != Z ==> AbsR(normal.z) < AbsR(Component(normal, DroppedAxis(normal)))
    ensures DroppedAxis(normal) == X ==> AbsR(normal.y) < AbsR(normal.x)
  {
  }

  /** The two coordinates kept: (y, z), (x, z) or (x, y). */
  function Kept(v: Vec3, dropped: Axis): (real, real) {
    match dropped
    case X => (v.y, v.z)
    case Y => (v.x, v.z)
    case Z => (v.x, v.y)
  }

  /** The projected coordinates, two per vertex. */
  function Projected(vertices: seq<Vec3>, normal: Vec3): (r: seq<real>)
    ensures |r| == 2 * |vertices|
  {
    if vertices == [] then []
    else
      var k := Kept(vertices[|vertices| - 1], DroppedAxis(normal));
      Projected(vertices[..|vertices| - 1], normal) + [k.0, k.1]
  }

  /** Vertex i lands at positions 2i and 2i + 1, without the dropped coordinate. */
  lemma {:induction false} ProjectedAt(vertices: seq<Vec3>, normal: Vec3, i: nat)
    requires i < |vertices|
    ensures var k := Kept(vertices[i], DroppedAxis(normal));
            Projected(vertices, normal)[2 * i] == k.0 && Projected(vertices, normal)[2 * i + 1] == k.1
    decreases |vertices|
  {
    if i < |vertices| - 1 {
      ProjectedAt(vertices[..|vertices| - 1], normal, i);
    }
  }

  /** `project_to_2d`. */
  method ProjectTo2d(vertices: seq<Vec3>, normal: Vec3) returns (coords: seq<real>)
    ensures coords == Projected(vertices, normal)
  {
    coords := [];
    var dropped := DroppedAxis(normal);
    var i := 0;
    while i < |vertices|
      invariant 0 <= i <= |vertices|
      invariant coords == Projected(vertices[..i], normal)
    {
      assert vertices[..i + 1][..i] == vertices[..i];
      var v := vertices[i];
      if dropped == Z {
        coords := coords + [v.x, v.y];
      } else if dropped == Y {
        coords := coords + [v.x, v.z];
      } else {
        coords := coords + [v.y, v.z];
      }
      i := i + 1;
    }
    assert vertices[..|vertices|] == vertices;
  }

  /** The projections checked on the source's own three cases. */
  lemma ProjectionExamples()
    ensures Projected([Vec3(1.0, 2.0, 5.0), Vec3(3.0, 4.0, 5.0)], Vec3(0.0, 0.0, 1.0)) == [1.0, 2.0, 3.0, 4.0]
    ensures Projected([Vec3(1.0, 5.0, 2.0), Vec3(3.0, 5.0, 4.0)], Vec3(0.0, 1.0, 0.0)) == [1.0, 2.0, 3.0, 4.0]
    ensures Projected([Vec3(5.0, 1.0, 2.0), Vec3(5.0, 3.0, 4.0)], Vec3(1.0, 0.0, 0.0)) == [1.0, 2.0, 3.0, 4.0]
  {
    var a := [Vec3(1.0, 2.0, 5.0), Vec3(3.0, 4.0, 5.0)];
    assert a[..1] == [a[0]] && [a[0]][..0] == [];
    var b := [Vec3(1.0, 5.0, 2.0), Vec3(3.0, 5.0, 4.0)];
    assert b[..1] == [b[0]] && [b[0]][..0] == [];
    var c := [Vec3(5.0, 1.0, 2.0), Vec3(5.0, 3.0, 4.0)];
    assert c[..1] == [c[0]] && [c[0]][..0] == [];
  }

  // ----- faces_to_trimesh -----

  /** The outer boundary followed by the holes. */
  function AllVertices(outer: seq<Vec3>, holes: seq<seq<Vec3>>): (r: seq<Vec3>)
    ensures |r| >= |outer|
  {
    if holes == [] then outer else AllVertices(outer, holes[..|holes| - 1]) + holes[|holes| - 1]
  }

  /** Where each hole starts in `AllVertices`. */
  function HoleStarts(outer: seq<Vec3>, holes: seq<seq<Vec3>>): (r: seq<nat>)
    ensures |r| == |holes|
  {
    if holes == [] then []
    else HoleStarts(outer, holes[..|holes| - 1]) + [|AllVertices(outer, holes[..|holes| - 1])|]
  }

  /** The ear-clipping triangulator: flat 2D coordinates and hole starts to indices, or nothing on failure. */
  type Earcut = (seq<real>, seq<nat>) -> Option<seq<nat>>

  /** The triangulator only returns indices of the vertices it was given. */
  ghost predicate EarcutInRange(earcut: Earcut) {
    forall coords, holeStarts :: earcut(coords, holeStarts).Some? ==>
      forall i :: 0 <= i < |earcut(coords, holeStarts).value| ==> earcut(coords, holeStarts).value[i] < |coords| / 2
  }

  /** Normals shorter than this (squared) mark a degenerate face. */
  const Degenerate: real := 0.0000000001

  /** What one face adds: its vertices, its normal, and triangle indices local to those vertices. */
  datatype Part = Part(vertices: seq<Vec3>, normal: Vec3, local: seq<nat>)

  /** What the loop of `faces_to_trimesh` adds for one face, if anything. */
  function FacePart(face: FaceData, normalOf: seq<Vec3> -> Vec3, earcut: Earcut): Option<Part> {
    var outer := face.outer;
    if |outer| < 3 then None
    else
      var normal := normalOf(outer);
      if LengthSquared(normal) < Degenerate then None
      else if face.holes == [] && |outer| <= 4 then Some(Part(outer, normal, Flatten(Fan(|outer|))))
      else
        var all := AllVertices(outer, face.holes);
        match earcut(Projected(all, normal), HoleStarts(outer, face.holes))
        case Some(indices) =>
          if indices != [] then Some(Part(all, normal, indices))
          else Some(Part(outer, normal, Flatten(Fan(|outer|))))
        case None => Some(Part(outer, normal, Flatten(Fan(|outer|))))
  }

  /** The same value n times. */
  function Repeat(v: Vec3, n: nat): (r: seq<Vec3>)
    ensures |r| == n && forall i :: 0 <= i < n ==> r[i] == v
  {
    seq(n, _ => v)
  }

  /** One face appended to the mesh. */
  function AddPart(m: IfcTriMesh, p: Part): IfcTriMesh {
    m.(positions := m.positions + p.vertices,
       normals := m.normals + Repeat(p.normal, |p.vertices|),
       indices := m.indices + Shift(p.local, |m.positions|))
  }

  /** `faces_to_trimesh` over the given faces. */
  function Trimesh(name: string, faces: seq<FaceData>, normalOf: seq<Vec3> -> Vec3, earcut: Earcut): IfcTriMesh {
    if faces == [] then EmptyMesh(name)
    else
      var m := Trimesh(name, faces[..|faces| - 1], normalOf, earcut);
      match FacePart(faces[|faces| - 1], normalOf, earcut)
      case Some(p) => AddPart(m, p)
      case None => m
  }

  /** Appends the vertices of a face, each with the face's normal. */
  method PushVertices(mesh: IfcTriMesh, vertices: seq<Vec3>, normal: Vec3) returns (r: IfcTriMesh)
    ensures r == mesh.(positions := mesh.positions + vertices, normals := mesh.normals + Repeat(normal, |vertices|))
  {
    r := mesh;
    var k := 0;
    while k < |vertices|
      invariant 0 <= k <= |vertices|
      invariant r == mesh.(positions := mesh.positions + vertices[..k], normals := mesh.normals + Repeat(normal, k))
    {
      assert vertices[..k + 1] == vertices[..k] + [vertices[k]];
      assert Repeat(normal, k + 1) == Repeat(normal, k) + [normal];
      r := r.(positions := r.positions + [vertices[k]], normals := r.normals + [normal]);
      k := k + 1;
    }
    assert vertices[..|vertices|] == vertices;
  }

  /** Appends indices moved by the offset. */
  method PushIndices(mesh: IfcTriMesh, local: seq<nat>, offset: nat) returns (r: IfcTriMesh)
    ensures r == mesh.(indices := mesh.indices + Shift(local, offset))
  {
    r := mesh;
    var k := 0;
    while k < |local|
      invariant 0 <= k <= |local|
      invariant r == mesh.(indices := mesh.indices + Shift(local[..k], offset))
    {
      assert Shift(local[..k + 1], offset) == Shift(local[..k], offset) + [local[k] + offset];
      r := r.(indices := r.indices + [local[k] + offset]);
      k := k + 1;
    }
    assert local[..|local|] == local;
  }

  /** Appends the fan's triangles, three indices each, moved by the offset. */
  method PushTriangles(mesh: IfcTriMesh, triangles: seq<Triple>, offset: nat) returns (r: IfcTriMesh)
    ensures r == mesh.(indices := mesh.indices + Shift(Flatten(triangles), offset))
  {
    r := mesh;
    var k := 0;
    while k < |triangles|
      invariant 0 <= k <= |triangles|
      invariant r == mesh.(indices := mesh.indices + Shift(Flatten(triangles[..k]), offset))
    {
      var t := triangles[k];
      assert triangles[..k + 1][..k] == triangles[..k];
      assert Shift(Flatten(triangles[..k + 1]), offset)
          == Shift(Flatten(triangles[..k]), offset) + [t.i0 + offset, t.i1 + offset, t.i2 + offset];
      r := r.(indices := r.indices + [t.i0 + offset, t.i1 + offset, t.i2 + offset]);
      k := k + 1;
    }
    assert triangles[..|triangles|] == triangles;
  }

  /** The outer boundary and the holes in one list, with the index where each hole starts. */
  method GatherVertices(outer: seq<Vec3>, holes: seq<seq<Vec3>>) returns (all: seq<Vec3>, holeStarts: seq<nat>)
    ensures all == AllVertices(outer, holes) && holeStarts == HoleStarts(outer, holes)
  {
    all, holeStarts := outer, [];
    var h := 0;
    while h < |holes|
      invariant 0 <= h <= |holes|
      invariant all == AllVertices(outer, holes[..h]) && holeStarts == HoleStarts(outer, holes[..h])
    {
      assert holes[..h + 1][..h] == holes[..h];
      holeStarts := holeStarts + [|all|];
      all := all + holes[h];
      h := h + 1;
    }
    assert holes[..|holes|] == holes;
  }

  /** The body of the loop of `faces_to_trimesh` for one face. */
  method AppendFace(mesh: IfcTriMesh, vertexOffset: nat, face: FaceData, normalOf: seq<Vec3> -> Vec3, earcut: Earcut)
    returns (r: IfcTriMesh, newOffset: nat)
    requires vertexOffset == |mesh.positions| == |mesh.normals|
    ensures r == match FacePart(face, normalOf, earcut) case Some(p) => AddPart(mesh, p) case None => mesh
    ensures newOffset == |r.positions| == |r.normals|
  {
    r, newOffset := mesh, vertexOffset;
    var outer := face.outer;
    if |outer| < 3 {
      return;
    }
    var normal := normalOf(outer);
    if LengthSquared(normal) < Degenerate {
      return;
    }
    if face.holes == [] && |outer| <= 4 {
      var triangles := FanTriangulate(outer);
      r := PushVertices(r, outer, normal);
      r := PushTriangles(r, triangles, vertexOffset);
      newOffset := vertexOffset + |outer|;
    } else {
      var all, holeStarts := GatherVertices(outer, face.holes);
      var coords := ProjectTo2d(all, normal);
      var triangulated := earcut(coords, holeStarts);
      if triangulated.Some? && triangulated.value != [] {
        r := PushVertices(r, all, normal);
        r := PushIndices(r, triangulated.value, vertexOffset);
        newOffset := vertexOffset + |all|;
      } else {
        r := PushVertices(r, outer, normal);
        var triangles := FanTriangulate(outer);
        r := PushTriangles(r, triangles, vertexOffset);
        newOffset := vertexOffset + |outer|;
      }
    }
  }

  /** The loop of `faces_to_trimesh`: `vertex_offset` is always the number of positions and of normals. */
  method FacesToTrimesh(name: string, faces: seq<FaceData>, normalOf: seq<Vec3> -> Vec3, earcut: Earcut)
    returns (mesh: IfcTriMesh)
    ensures mesh == Trimesh(name, faces, normalOf, earcut)
  {
    mesh := EmptyMesh(name);
    var vertexOffset := 0;
    var f := 0;
    while f < |faces|
      invariant 0 <= f <= |faces|
      invariant mesh == Trimesh(name, faces[..f], normalOf, earcut)
      invariant vertexOffset == |mesh.positions| == |mesh.normals|
    {
      assert faces[..f + 1][..f] == faces[..f];
      mesh, vertexOffset := AppendFace(mesh, vertexOffset, faces[f], normalOf, earcut);
      f := f + 1;
    }
    assert faces[..|faces|] == faces;
  }

  // ----- What the mesh is made of -----

  /** One normal per position. */
  lemma {:induction false} NormalPerPosition(name: string, faces: seq<FaceData>, normalOf: seq<Vec3> -> Vec3, earcut: Earcut)
    ensures |Trimesh(name, faces, normalOf, earcut).normals| == |Trimesh(name, faces, normalOf, earcut).positions|
  {
    if faces != [] {
      NormalPerPosition(name, faces[..|faces| - 1], normalOf, earcut);
    }
  }

  /** What a face adds only refers to its own vertices. */
  lemma PartInRange(face: FaceData, normalOf: seq<Vec3> -> Vec3, earcut: Earcut)
    requires EarcutInRange(earcut) && FacePart(face, normalOf, earcut).Some?
    ensures var p := FacePart(face, normalOf, earcut).value;
            forall i :: 0 <= i < |p.local| ==> p.local[i] < |p.vertices|
  {
    FanBelow(|face.outer|);
  }

  /** Every index of the mesh refers to one of its positions, given a triangulator that keeps to its vertices. */
  lemma {:induction false} TrimeshInRange(name: string, faces: seq<FaceData>, normalOf: seq<Vec3> -> Vec3, earcut: Earcut)
    requires EarcutInRange(earcut)
    ensures InRange(Trimesh(name, faces, normalOf, earcut))
  {
    if faces != [] {
      TrimeshInRange(name, faces[..|faces| - 1], normalOf, earcut);
      var face := faces[|faces| - 1];
      if FacePart(face, normalOf, earcut).Some? {
        PartInRange(face, normalOf, earcut);
      }
    }
  }

  /** A face with fewer than three outer points adds nothing. */
  lemma ShortFaceSkipped(name: string, faces: seq<FaceData>, face: FaceData, normalOf: seq<Vec3> -> Vec3, earcut: Earcut)
    requires |face.outer| < 3
    ensures Trimesh(name, faces + [face], normalOf, earcut) == Trimesh(name, faces, normalOf, earcut)
  {
    assert (faces + [face])[..|faces|] == faces;
  }

  /** A triangle or quad without holes adds its points and the fan over them, moved past the points already there. */
  lemma SmallFaceFanned(name: string, faces: seq<FaceData>, face: FaceData, normalOf: seq<Vec3> -> Vec3, earcut: Earcut)
    requires 3 <= |face.outer| <= 4 && face.holes == [] && LengthSquared(normalOf(face.outer)) >= Degenerate
    ensures var m := Trimesh(name, faces, normalOf, earcut);
            Trimesh(name, faces + [face], normalOf, earcut).positions == m.positions + face.outer &&
            Trimesh(name, faces + [face], normalOf, earcut).indices == m.indices + Shift(Flatten(Fan(|face.outer|)), |m.positions|)
  {
    assert (faces + [face])[..|faces|] == faces;
  }

  /**
   * A triangle without holes adds its three points and the triangle `[k, k + 1, k + 2]`,
   * k being the number of points before it: two triangles give `[0, 1, 2, 3, 4, 5]`.
   */
  lemma TriangleAppended(name: string, faces: seq<FaceData>, t: FaceData, normalOf: seq<Vec3> -> Vec3, earcut: Earcut)
    requires |t.outer| == 3 && t.holes == [] && LengthSquared(normalOf(t.outer)) >= Degenerate
    ensures var m := Trimesh(name, faces, normalOf, earcut);
            var k := |m.positions|;
            Trimesh(name, faces + [t], normalOf, earcut).positions == m.positions + t.outer &&
            Trimesh(name, faces + [t], normalOf, earcut).indices == m.indices + [k, k + 1, k + 2]
  {
    var m := Trimesh(name, faces, normalOf, earcut);
    SmallFaceFanned(name, faces, t, normalOf, earcut);
    assert Fan(3) == [Triple(0, 1, 2)];
    assert Flatten([Triple(0, 1, 2)]) == [0, 1, 2];
    assert Shift([0, 1, 2], |m.positions|) == [|m.positions|, |m.positions| + 1, |m.positions| + 2];
  }

  // ----- merge_trimeshes -----

  /** The meshes appended to an accumulated mesh, each one's indices moved past the positions before it. */
  function MergeInto(name: string, meshes: seq<IfcTriMesh>): IfcTriMesh {
    if meshes == [] then EmptyMesh(name)
    else
      var acc := MergeInto(name, meshes[..|meshes| - 1]);
      var m := meshes[|meshes| - 1];
      acc.(positions := acc.positions + m.positions,
           normals := acc.normals + m.normals,
           indices := acc.indices + Shift(m.indices, |acc.positions|))
  }

  /** `merge_trimeshes`: named `merged` when there is nothing to merge, else after the first mesh. */
  function Merged(meshes: seq<IfcTriMesh>): IfcTriMesh {
    if meshes == [] then EmptyMesh("merged") else MergeInto(meshes[0].name, meshes)
  }

  /** The loop of `merge_trimeshes`. */
  method MergeTrimeshes(meshes: seq<IfcTriMesh>) returns (result: IfcTriMesh)
    ensures result == Merged(meshes)
  {
    if meshes == [] {
      return EmptyMesh("merged");
    }
    result := EmptyMesh(meshes[0].name);
    var vertexOffset := 0;
    var i := 0;
    while i < |meshes|
      invariant 0 <= i <= |meshes|
      invariant result == MergeInto(meshes[0].name, meshes[..i])
      invariant vertexOffset == |result.positions|
    {
      assert meshes[..i + 1][..i] == meshes[..i];
      var mesh := meshes[i];
      result := result.(positions := result.positions + mesh.positions, normals := result.normals + mesh.normals);
      result := PushIndices(result, mesh.indices, vertexOffset);
      vertexOffset := vertexOffset + |mesh.positions|;
      i := i + 1;
    }
    assert meshes[..|meshes|] == meshes;
  }

  /** The positions of all meshes, in order. */
  function AllPositions(meshes: seq<IfcTriMesh>): seq<Vec3> {
    if meshes == [] then [] else AllPositions(meshes[..|meshes| - 1]) + meshes[|meshes| - 1].positions
  }

  /** The number of indices of all meshes. */
  function IndexCount(meshes: seq<IfcTriMesh>): nat {
    if meshes == [] then 0 else IndexCount(meshes[..|meshes| - 1]) + |meshes[|meshes| - 1].indices|
  }

  /** The triangles of all meshes. */
  function TriangleSum(meshes: seq<IfcTriMesh>): nat {
    if meshes == [] then 0 else TriangleSum(meshes[..|meshes| - 1]) + TriangleCount(meshes[|meshes| - 1])
  }

  /** Merging keeps every position, in order, and every index. */
  lemma {:induction false} MergeKeepsAll(name: string, meshes: seq<IfcTriMesh>)
    ensures MergeInto(name, meshes).positions == AllPositions(meshes)
    ensures |MergeInto(name, meshes).indices| == IndexCount(meshes)
    ensures MergeInto(name, meshes).name == name
  {
    if meshes != [] {
      MergeKeepsAll(name, meshes[..|meshes| - 1]);
    }
  }

  /** When every mesh has whole triangles, the triangle counts add up. */
  lemma {:induction false} MergeAddsTriangles(name: string, meshes: seq<IfcTriMesh>)
    requires forall i :: 0 <= i < |meshes| ==> |meshes[i].indices| % 3 == 0
    ensures |MergeInto(name, meshes).indices| == 3 * TriangleSum(meshes)
  {
    if meshes != [] {
      var front := meshes[..|meshes| - 1];
      assert forall i :: 0 <= i < |front| ==> front[i] == meshes[i];
      MergeAddsTriangles(name, front);
    }
  }

  /** Meshes whose indices refer to their own positions merge into one whose indices do too. */
  lemma {:induction false} MergeInRange(name: string, meshes: seq<IfcTriMesh>)
    requires forall i :: 0 <= i < |meshes| ==> InRange(meshes[i])
    ensures InRange(MergeInto(name, meshes))
  {
    if meshes != [] {
      var front := meshes[..|meshes| - 1];
      assert forall i :: 0 <= i < |front| ==> front[i] == meshes[i];
      MergeInRange(name, front);
      assert InRange(meshes[|meshes| - 1]);
    }
  }

  /** Nothing to merge gives an empty mesh named `merged`; otherwise the first mesh's name. */
  lemma MergedName(meshes: seq<IfcTriMesh>)
    ensures meshes == [] ==> Merged(meshes) == IfcTriMesh("merged", [], [], [])
    ensures meshes != [] ==> Merged(meshes).name == meshes[0].name && Merged(meshes).positions == AllPositions(meshes)
  {
    if meshes != [] {
      MergeKeepsAll(meshes[0].name, meshes);
    }
  }

  /** Two meshes of whole triangles: the merged mesh has the triangles and the positions of both. */
  lemma MergeTwo(m1: IfcTriMesh, m2: IfcTriMesh)
    requires |m1.indices| % 3 == 0 && |m2.indices| % 3 == 0
    ensures TriangleCount(Merged([m1, m2])) == TriangleCount(m1) + TriangleCount(m2)
    ensures |Merged([m1, m2]).positions| == |m1.positions| + |m2.positions|
  {
    var ms := [m1, m2];
    assert ms[..1] == [m1] && [m1][..0] == [];
    MergeAddsTriangles(m1.name, ms);
    MergeKeepsAll(m1.name, ms);
    assert TriangleSum([m1]) == TriangleCount(m1) && AllPositions([m1]) == m1.positions by {
      assert [m1][..0] == [];
      assert [] + m1.positions == m1.positions;
    }
  }
}
