/**
 * The render crate's scene: named meshes with a colour each, and instanced
 * groups (one base mesh with a list of placements). Meshes and groups are
 * pushed in order and never removed; the scene answers its triangle count
 * and its bounding box. The binary buffers of the exported files are written
 * in base64, section 4 of RFC 4648.
 */
module RenderScene {
  import opened Core
  import opened Aabb
  import opened TriangleMeshes

  /** A colour as its three `f32` channels, red, green and blue. */
  datatype Rgb = Rgb(r: real, g: real, b: real)

  /** A placement: a 4x4 matrix as 16 numbers in column-major order. */
  type Transform = seq<real>

  datatype SceneMesh = SceneMesh(name: string, mesh: TriangleMesh, color: Rgb)

  datatype InstancedGroup = InstancedGroup(name: string, mesh: TriangleMesh, color: Rgb, transforms: seq<Transform>)

  /** The ten colours `add_mesh_auto_color` hands out in turn. */
  const Palette: seq<Rgb> := [
    Rgb(0.7, 0.8, 0.9), Rgb(0.9, 0.7, 0.7), Rgb(0.7, 0.9, 0.7), Rgb(0.9, 0.9, 0.7), Rgb(0.9, 0.7, 0.9),
    Rgb(0.7, 0.9, 0.9), Rgb(0.8, 0.8, 0.8), Rgb(0.9, 0.8, 0.7), Rgb(0.8, 0.7, 0.9), Rgb(0.7, 0.9, 0.8)]

  /** The colour the mesh pushed as number `n` (from zero) gets from `add_mesh_auto_color`. */
  function AutoColor(n: nat): Rgb {
    Palette[n % |Palette|]
  }

  /** The triangles of the meshes `ms`, complete index triples only. */
  function MeshTriangles(ms: seq<SceneMesh>): nat {
    if ms == [] then 0 else MeshTriangles(ms[..|ms| - 1]) + TriangleCount(ms[|ms| - 1].mesh)
  }

  /** The positions of the meshes `ms`, mesh after mesh. */
  function MeshPoints(ms: seq<SceneMesh>): seq<Vec3> {
    if ms == [] then [] else MeshPoints(ms[..|ms| - 1]) + ms[|ms| - 1].mesh.positions
  }

  /** The positions of the base meshes of the groups `gs`, group after group; placements are not applied. */
  function GroupPoints(gs: seq<InstancedGroup>): seq<Vec3> {
    if gs == [] then [] else GroupPoints(gs[..|gs| - 1]) + gs[|gs| - 1].mesh.positions
  }

  /** The points `bounds` gathers: every regular mesh's positions, then every group's base positions. */
  function AllPoints(ms: seq<SceneMesh>, gs: seq<InstancedGroup>): seq<Vec3> {
    MeshPoints(ms) + GroupPoints(gs)
  }

  class Scene {
    var meshes: seq<SceneMesh>
    var instancedGroups: seq<InstancedGroup>

    /** `Scene::new`: no meshes and no groups. */
    constructor ()
      ensures meshes == [] && instancedGroups == []
      ensures TotalTriangles() == 0
    {
      meshes := [];
      instancedGroups := [];
    }

    /** `total_triangles`: the triangles of the regular meshes; instanced groups do not count. */
    function TotalTriangles(): (r: nat)
      reads this
      ensures 3 * r <= MeshIndices(meshes)
      ensures meshes == [] ==> r == 0
    {
      MeshTrianglesBound(meshes);
      MeshTriangles(meshes)
    }

    /** `add_mesh`: the mesh goes last, with its name and colour; the groups are untouched. */
    method AddMesh(name: string, mesh: TriangleMesh, color: Rgb)
      modifies this
      ensures meshes == old(meshes) + [SceneMesh(name, mesh, color)]
      ensures instancedGroups == old(instancedGroups)
      ensures TotalTriangles() == old(TotalTriangles()) + TriangleCount(mesh)
    {
      meshes := meshes + [SceneMesh(name, mesh, color)];
      assert meshes[..|meshes| - 1] == old(meshes);
    }

    /** `add_mesh_auto_color`: `add_mesh` with the palette colour picked by the number of meshes so far. */
    method AddMeshAutoColor(name: string, mesh: TriangleMesh)
      modifies this
      ensures meshes == old(meshes) + [SceneMesh(name, mesh, AutoColor(|old(meshes)|))]
      ensures instancedGroups == old(instancedGroups)
      ensures TotalTriangles() == old(TotalTriangles()) + TriangleCount(mesh)
    {
      var color := Palette[|meshes| % |Palette|];
      AddMesh(name, mesh, color);
    }

    /** `add_instanced_group`: the group goes last; the regular meshes, and so the triangle total, are untouched. */
    method AddInstancedGroup(name: string, mesh: TriangleMesh, color: Rgb, transforms: seq<Transform>)
      modifies this
      ensures instancedGroups == old(instancedGroups) + [InstancedGroup(name, mesh, color, transforms)]
      ensures meshes == old(meshes)
      ensures TotalTriangles() == old(TotalTriangles())
    {
      instancedGroups := instancedGroups + [InstancedGroup(name, mesh, color, transforms)];
    }

    /**
     * `bounds`: no box when the scene has no points (in particular when it
     * has no meshes and no groups), otherwise the box of every regular
     * mesh's positions and every group's base positions.
     */
    method Bounds() returns (r: Option<Aabb3>)
      ensures r.None? <==> AllPoints(meshes, instancedGroups) == []
      ensures r.Some? ==> r.value == BoxOf(AllPoints(meshes, instancedGroups))
    {
      if |meshes| == 0 && |instancedGroups| == 0 {
        return None;
      }
      var points: seq<Vec3> := [];
      var i := 0;
      while i < |meshes|
        invariant 0 <= i <= |meshes|
        invariant points == MeshPoints(meshes[..i])
      {
        assert meshes[..i + 1][..i] == meshes[..i];
        points := points + meshes[i].mesh.positions;
        i := i + 1;
      }
      assert meshes[..i] == meshes;
      var j := 0;
      while j < |instancedGroups|
        invariant 0 <= j <= |instancedGroups|
        invariant points == MeshPoints(meshes) + GroupPoints(instancedGroups[..j])
      {
        var base := instancedGroups[j].mesh.positions;
        var k := 0;
        while k < |base|
          invariant 0 <= k <= |base|
          invariant points == MeshPoints(meshes) + GroupPoints(instancedGroups[..j]) + base[..k]
        {
          assert base[..k + 1] == base[..k] + [base[k]];
          points := points + [base[k]];
          k := k + 1;
        }
        assert base[..k] == base;
        assert instancedGroups[..j + 1][..j] == instancedGroups[..j];
        j := j + 1;
      }
      assert instancedGroups[..j] == instancedGroups;
      r := FromPoints(points);
    }
  }

  /** The triangle total of two runs of meshes is the sum of their totals. */
  lemma {:induction false} MeshTrianglesConcat(a: seq<SceneMesh>, b: seq<SceneMesh>)
    ensures MeshTriangles(a + b) == MeshTriangles(a) + MeshTriangles(b)
    decreases |b|
  {
    if b == [] {
      assert a + b == a;
    } else {
      assert (a + b)[..|a + b| - 1] == a + b[..|b| - 1];
      MeshTrianglesConcat(a, b[..|b| - 1]);
    }
  }

  /** The triangle total counts each mesh's complete index triples, one mesh at a time. */
  lemma {:induction false} MeshTrianglesBound(ms: seq<SceneMesh>)
    ensures MeshTriangles(ms) * 3 <= MeshIndices(ms)
  {
    if ms != [] {
      MeshTrianglesBound(ms[..|ms| - 1]);
    }
  }

  /** The indices of the meshes `ms`, all together. */
  function MeshIndices(ms: seq<SceneMesh>): nat {
    if ms == [] then 0 else MeshIndices(ms[..|ms| - 1]) + |ms[|ms| - 1].mesh.indices|
  }

  /**
   * The colours `add_mesh_auto_color` hands out repeat every ten meshes and
   * only then: meshes `i` and `j` get the same colour exactly when `i` and
   * `j` leave the same remainder modulo ten.
   */
  lemma AutoColorCycles(i: nat, j: nat)
    ensures AutoColor(i) == AutoColor(j) <==> i % 10 == j % 10
  {
    PaletteDistinct();
  }

  /** The ten palette colours differ from each other. */
  lemma PaletteDistinct()
    ensures |Palette| == 10
    ensures forall a, b :: 0 <= a < b < |Palette| ==> Palette[a] != Palette[b]
  {
  }

  /** The box of a scene contains every position of its regular meshes and of its groups' base meshes. */
  lemma BoundsContain(ms: seq<SceneMesh>, gs: seq<InstancedGroup>)
    requires AllPoints(ms, gs) != []
    ensures forall k, i :: 0 <= k < |ms| && 0 <= i < |ms[k].mesh.positions| ==>
      ContainsPoint(BoxOf(AllPoints(ms, gs)), ms[k].mesh.positions[i])
    ensures forall k, i :: 0 <= k < |gs| && 0 <= i < |gs[k].mesh.positions| ==>
      ContainsPoint(BoxOf(AllPoints(ms, gs)), gs[k].mesh.positions[i])
  {
    var all := AllPoints(ms, gs);
    BoxOfContains(all);
    forall k, i | 0 <= k < |ms| && 0 <= i < |ms[k].mesh.positions|
      ensures ContainsPoint(BoxOf(all), ms[k].mesh.positions[i])
    {
      var at := MeshPointsHold(ms, k, i);
      assert all[at] == ms[k].mesh.positions[i];
    }
    forall k, i | 0 <= k < |gs| && 0 <= i < |gs[k].mesh.positions|
      ensures ContainsPoint(BoxOf(all), gs[k].mesh.positions[i])
    {
      var at := GroupPointsHold(gs, k, i);
      assert all[|MeshPoints(ms)| + at] == gs[k].mesh.positions[i];
    }
  }

  /** Position `i` of mesh `k` stands in the gathered points, at the returned place. */
  lemma {:induction false} MeshPointsHold(ms: seq<SceneMesh>, k: nat, i: nat) returns (at: nat)
    requires k < |ms| && i < |ms[k].mesh.positions|
    ensures at < |MeshPoints(ms)| && MeshPoints(ms)[at] == ms[k].mesh.positions[i]
  {
    var front := ms[..|ms| - 1];
    if k == |ms| - 1 {
      at := |MeshPoints(front)| + i;
    } else {
      at := MeshPointsHold(front, k, i);
    }
  }

  /** Base position `i` of group `k` stands in the gathered points, at the returned place. */
  lemma {:induction false} GroupPointsHold(gs: seq<InstancedGroup>, k: nat, i: nat) returns (at: nat)
    requires k < |gs| && i < |gs[k].mesh.positions|
    ensures at < |GroupPoints(gs)| && GroupPoints(gs)[at] == gs[k].mesh.positions[i]
  {
    var front := gs[..|gs| - 1];
    if k == |gs| - 1 {
      at := |GroupPoints(front)| + i;
    } else {
      at := GroupPointsHold(front, k, i);
    }
  }

  /** The box ignores placements: groups with the same base meshes give the same points, whatever their transforms. */
  lemma {:induction false} BoundsIgnoreTransforms(gs: seq<InstancedGroup>, hs: seq<InstancedGroup>)
    requires |gs| == |hs| && forall k :: 0 <= k < |gs| ==> gs[k].mesh == hs[k].mesh
    ensures GroupPoints(gs) == GroupPoints(hs)
  {
    if gs != [] {
      BoundsIgnoreTransforms(gs[..|gs| - 1], hs[..|hs| - 1]);
    }
  }

  /** A scene with no meshes and no groups has no points, so no box. */
  lemma EmptySceneHasNoPoints()
    ensures AllPoints([], []) == []
  {
  }

  /** The unit right triangle of the tests: three positions in the plane z = 0 and one triangle. */
  const TestTriangle: TriangleMesh := TriangleMesh(
    [Vec3(0.0, 0.0, 0.0), Vec3(1.0, 0.0, 0.0), Vec3(0.0, 1.0, 0.0)],
    [Vec3(0.0, 0.0, 1.0), Vec3(0.0, 0.0, 1.0), Vec3(0.0, 0.0, 1.0)],
    [0, 1, 2], [])

  /** Two test triangles make two triangles in total, and one spans the box from the origin to (1, 1, 0). */
  lemma TestTriangleScene()
    ensures MeshTriangles([SceneMesh("Triangle1", TestTriangle, Rgb(1.0, 0.0, 0.0)),
      SceneMesh("Triangle2", TestTriangle, Rgb(0.0, 1.0, 0.0))]) == 2
    ensures BoxOf(AllPoints([SceneMesh("Triangle", TestTriangle, Rgb(1.0, 0.0, 0.0))], [])) ==
      Aabb3(Vec3(0.0, 0.0, 0.0), Vec3(1.0, 1.0, 0.0))
  {
    var ms := [SceneMesh("Triangle1", TestTriangle, Rgb(1.0, 0.0, 0.0)), SceneMesh("Triangle2", TestTriangle, Rgb(0.0, 1.0, 0.0))];
    assert ms[..1][..0] == [];
    assert MeshTriangles(ms[..1]) == 1;
    var one := [SceneMesh("Triangle", TestTriangle, Rgb(1.0, 0.0, 0.0))];
    assert one[..0] == [];
    assert MeshPoints(one) == [] + TestTriangle.positions;
    assert AllPoints(one, []) == TestTriangle.positions;
    var ps := TestTriangle.positions;
    assert ps[..2][..1] == [ps[0]];
    assert ps[..2] == [ps[0], ps[1]];
  }

  // ----- base64 -----

  /** A byte, `u8`. */
  type Byte = x: nat | x < 256

  /**
   * The base64 alphabet of section 4 of RFC 4648, the string
   * `A..Z a..z 0..9 + /` indexed by sextet value: the character it gives
   * sextet `v`.
   */
  function CharOf(v: nat): (c: char)
    requires v < 64
  {
    if v < 26 then ('A' as int + v) as char
    else if v < 52 then ('a' as int + (v - 26)) as char
    else if v < 62 then ('0' as int + (v - 52)) as char
    else if v == 62 then '+' else '/'
  }

  /** A character of the base64 alphabet; `=` is not one. */
  predicate InAlphabet(c: char) {
    'A' <= c <= 'Z' || 'a' <= c <= 'z' || '0' <= c <= '9' || c == '+' || c == '/'
  }

  /** The sextet an alphabet character stands for: the alphabet has 64 different characters. */
  function SextetOf(c: char): (v: nat)
    requires InAlphabet(c)
    ensures v < 64 && CharOf(v) == c
  {
    if 'A' <= c <= 'Z' then c as int - 'A' as int
    else if 'a' <= c <= 'z' then c as int - 'a' as int + 26
    else if '0' <= c <= '9' then c as int - '0' as int + 52
    else if c == '+' then 62 else 63
  }

  /** The alphabet gives every sextet an alphabet character. */
  lemma CharOfInAlphabet(v: nat)
    requires v < 64
    ensures InAlphabet(CharOf(v))
  {
  }

  /** Each sextet has its own character. */
  lemma CharOfInjective(v: nat, w: nat)
    requires v < 64 && w < 64 && CharOf(v) == CharOf(w)
    ensures v == w
  {
  }

  /*
   * The four sextets of three bytes. On `u8` the shifts and masks of the
   * source are these divisions and remainders: `b >> k` is `b / 2^k`,
   * `b & (2^k - 1)` is `b % 2^k`, and the `<<` never carries past eight bits.
   */

  /** `b1 >> 2`: the top six bits of the first byte. */
  function Sextet1(b1: Byte): (r: nat)
    ensures r < 64
  {
    b1 / 4
  }

  /** `((b1 & 0x03) << 4) | (b2 >> 4)`: the last two bits of the first byte, then the top four of the second. */
  function Sextet2(b1: Byte, b2: Byte): (r: nat)
    ensures r < 64
  {
    (b1 % 4) * 16 + b2 / 16
  }

  /** `((b2 & 0x0F) << 2) | (b3 >> 6)`: the last four bits of the second byte, then the top two of the third. */
  function Sextet3(b2: Byte, b3: Byte): (r: nat)
    ensures r < 64
  {
    (b2 % 16) * 4 + b3 / 64
  }

  /** `b3 & 0x3F`: the last six bits of the third byte. */
  function Sextet4(b3: Byte): (r: nat)
    ensures r < 64
  {
    b3 % 64
  }

  /**
   * The four characters of the bytes `b1`, `b2`, `b3`: the sextets of their
   * 24 bits in turn, except that the third and fourth are `=` when the
   * second or third byte lies past the data (a missing byte reads as zero).
   */
  function Quad(b1: Byte, b2: Byte, b3: Byte, has2: bool, has3: bool): (r: string)
    ensures |r| == 4
  {
    [CharOf(Sextet1(b1)), CharOf(Sextet2(b1, b2)),
     if has2 then CharOf(Sextet3(b2, b3)) else '=',
     if has3 then CharOf(Sextet4(b3)) else '=']
  }

  /** The group of bytes starting at `i`. */
  function Group(data: seq<Byte>, i: nat): (r: string)
    requires i < |data|
    ensures |r| == 4
  {
    Quad(data[i], if i + 1 < |data| then data[i + 1] else 0, if i + 2 < |data| then data[i + 2] else 0,
      i + 1 < |data|, i + 2 < |data|)
  }

  /** The encoding of the bytes from `i` on, group after group. */
  function EncodeFrom(data: seq<Byte>, i: nat): string
    decreases |data| - i
  {
    if i >= |data| then "" else Group(data, i) + EncodeFrom(data, i + 3)
  }

  /** `base64_encode`: three bytes at a time, four characters for each group. */
  method Base64Encode(data: seq<Byte>) returns (result: string)
    ensures result == EncodeFrom(data, 0)
  {
    result := "";
    var i := 0;
    while i < |data|
      invariant result + EncodeFrom(data, i) == EncodeFrom(data, 0)
      decreases |data| - i
    {
      var before := result;
      var b1 := data[i];
      var b2 := if i + 1 < |data| then data[i + 1] else 0;
      var b3 := if i + 2 < |data| then data[i + 2] else 0;
      var c1, c2 := CharOf(Sextet1(b1)), CharOf(Sextet2(b1, b2));
      result := result + [c1];
      result := result + [c2];
      var c3 := if i + 1 < |data| then CharOf(Sextet3(b2, b3)) else '=';
      result := result + [c3];
      var c4 := if i + 2 < |data| then CharOf(Sextet4(b3)) else '=';
      result := result + [c4];
      assert result == before + Group(data, i) by {
        Pushes(before, c1, c2, c3, c4);
        GroupChars(data, i, c1, c2, c3, c4);
      }
      assert result + EncodeFrom(data, i + 3) == EncodeFrom(data, 0) by {
        assert EncodeFrom(data, i) == Group(data, i) + EncodeFrom(data, i + 3);
        AppendAssoc(before, Group(data, i), EncodeFrom(data, i + 3));
      }
      i := i + 3;
    }
  }

  /** Four pushes add the four characters in order. */
  lemma Pushes(s: string, c1: char, c2: char, c3: char, c4: char)
    ensures s + [c1] + [c2] + [c3] + [c4] == s + [c1, c2, c3, c4]
  {
  }

  /** Appending associates. */
  lemma AppendAssoc(a: string, b: string, c: string)
    ensures (a + b) + c == a + (b + c)
  {
  }

  /** The four characters the loop of `base64_encode` pushes for the bytes at `i` are that group. */
  lemma GroupChars(data: seq<Byte>, i: nat, c1: char, c2: char, c3: char, c4: char)
    requires i < |data|
    requires var b2: Byte := if i + 1 < |data| then data[i + 1] else 0;
      var b3: Byte := if i + 2 < |data| then data[i + 2] else 0;
      c1 == CharOf(Sextet1(data[i])) && c2 == CharOf(Sextet2(data[i], b2)) &&
      c3 == (if i + 1 < |data| then CharOf(Sextet3(b2, b3)) else '=') &&
      c4 == (if i + 2 < |data| then CharOf(Sextet4(b3)) else '=')
    ensures Group(data, i) == [c1, c2, c3, c4]
  {
  }

  /** The encoding of `n` bytes has four characters for every started group of three: `4 * ceil(n / 3)`. */
  lemma {:induction false} EncodeLength(data: seq<Byte>, i: nat)
    requires i <= |data|
    ensures |EncodeFrom(data, i)| == 4 * ((|data| - i + 2) / 3)
    decreases |data| - i
  {
    if i < |data| {
      var n := |data| - i;
      assert |EncodeFrom(data, i)| == 4 + |EncodeFrom(data, i + 3)|;
      if i + 3 <= |data| {
        EncodeLength(data, i + 3);
        assert (n + 2) / 3 == (n - 3 + 2) / 3 + 1;
      } else {
        assert EncodeFrom(data, i + 3) == "";
        assert (n + 2) / 3 == 1;
      }
    }
  }

  /** The number of `=` a final group of `n % 3` bytes is padded with: two for one byte, one for two, none for three. */
  function Padding(n: nat): nat {
    (3 - n % 3) % 3
  }

  /**
   * The encoding is alphabet characters followed by the padding: `==` after
   * a final group of one byte, `=` after a final group of two, and nothing
   * after whole groups.
   */
  lemma {:induction false} EncodePadding(data: seq<Byte>, i: nat)
    requires i <= |data|
    ensures var r, pad := EncodeFrom(data, i), Padding(|data| - i);
      pad <= |r| &&
      (forall k :: 0 <= k < |r| - pad ==> InAlphabet(r[k])) &&
      (forall k :: |r| - pad <= k < |r| ==> r[k] == '=')
    decreases |data| - i
  {
    var r := EncodeFrom(data, i);
    if i < |data| {
      var g := Group(data, i);
      assert r == g + EncodeFrom(data, i + 3);
      if i + 3 <= |data| {
        EncodePadding(data, i + 3);
        assert Padding(|data| - i) == Padding(|data| - (i + 3));
        assert forall k :: 0 <= k < 4 ==> InAlphabet(g[k]) by {
          GroupInAlphabet(data, i);
        }
      } else {
        assert r == g;
        GroupInAlphabet(data, i);
      }
    }
  }

  /** A group's characters are alphabet characters except for its padding, which is `=`. */
  lemma GroupInAlphabet(data: seq<Byte>, i: nat)
    requires i < |data|
    ensures InAlphabet(Group(data, i)[0]) && InAlphabet(Group(data, i)[1])
    ensures i + 1 < |data| <==> InAlphabet(Group(data, i)[2])
    ensures i + 2 < |data| <==> InAlphabet(Group(data, i)[3])
    ensures i + 1 >= |data| ==> Group(data, i)[2] == '='
    ensures i + 2 >= |data| ==> Group(data, i)[3] == '='
  {
    var b2: Byte := if i + 1 < |data| then data[i + 1] else 0;
    var b3: Byte := if i + 2 < |data| then data[i + 2] else 0;
    CharOfInAlphabet(Sextet1(data[i]));
    CharOfInAlphabet(Sextet2(data[i], b2));
    CharOfInAlphabet(Sextet3(b2, b3));
    CharOfInAlphabet(Sextet4(b3));
  }

  /** The sextet of a character of a group; padding and stray characters read as zero. */
  function SextetOrZero(c: char): nat {
    if InAlphabet(c) then SextetOf(c) else 0
  }

  /**
   * Decoding of four characters as section 4 of RFC 4648 describes it: the
   * 24 bits of the sextets make three bytes, of which one is kept when the
   * third character is `=`, two when the fourth is, and three otherwise.
   */
  function DecodeQuad(q: string): (r: seq<Byte>)
    requires |q| == 4
  {
    var v0, v1, v2, v3 := SextetOrZero(q[0]), SextetOrZero(q[1]), SextetOrZero(q[2]), SextetOrZero(q[3]);
    var b1: Byte := v0 * 4 + v1 / 16;
    var b2: Byte := (v1 % 16) * 16 + v2 / 4;
    var b3: Byte := (v2 % 4) * 64 + v3;
    if q[2] == '=' then [b1] else if q[3] == '=' then [b1, b2] else [b1, b2, b3]
  }

  /** Decoding of a text of whole groups of four characters. */
  function Decode(s: string): seq<Byte> {
    if |s| < 4 then [] else DecodeQuad(s[..4]) + Decode(s[4..])
  }

  /** A sextet's character reads back as the sextet. */
  lemma SextetRoundTrip(v: nat)
    requires v < 64
    ensures SextetOrZero(CharOf(v)) == v
  {
    CharOfInAlphabet(v);
  }

  /**
   * The four sextets of three bytes carry the bytes bit for bit; when the
   * second or third byte is missing (read as zero), the bits it would fill
   * are zero.
   */
  lemma SextetsCarryBytes(b1: Byte, b2: Byte, b3: Byte)
    ensures Sextet1(b1) * 4 + Sextet2(b1, b2) / 16 == b1
    ensures (Sextet2(b1, b2) % 16) * 16 + Sextet3(b2, b3) / 4 == b2
    ensures (Sextet3(b2, b3) % 4) * 64 + Sextet4(b3) == b3
    ensures Sextet2(b1, 0) % 16 == 0 && Sextet3(b2, 0) % 4 == 0
  {
  }

  /** A group decodes to the bytes it was made of: one, two or three. */
  lemma QuadRoundTrip(b1: Byte, b2: Byte, b3: Byte, has2: bool, has3: bool)
    requires has3 ==> has2
    ensures DecodeQuad(Quad(b1, b2, b3, has2, has3)) == [b1] + (if has2 then [b2] else []) + (if has3 then [b3] else [])
  {
    var q := Quad(b1, b2, b3, has2, has3);
    var s1, s2, s3, s4 := Sextet1(b1), Sextet2(b1, b2), Sextet3(b2, b3), Sextet4(b3);
    SextetRoundTrip(s1);
    SextetRoundTrip(s2);
    SextetRoundTrip(s3);
    SextetRoundTrip(s4);
    SextetsCarryBytes(b1, b2, b3);
    assert SextetOrZero(q[0]) == s1 && SextetOrZero(q[1]) == s2;
    if has2 {
      assert SextetOrZero(q[2]) == s3;
    }
    if has3 {
      assert SextetOrZero(q[3]) == s4;
    }
  }

  /** Decoding undoes `base64_encode`: the encoding of the bytes from `i` on decodes to those bytes. */
  lemma {:induction false} DecodeEncode(data: seq<Byte>, i: nat)
    requires i <= |data|
    ensures Decode(EncodeFrom(data, i)) == data[i..]
    decreases |data| - i
  {
    if i < |data| {
      var g, rest := Group(data, i), EncodeFrom(data, i + 3);
      assert (g + rest)[..4] == g && (g + rest)[4..] == rest;
      var b2: Byte := if i + 1 < |data| then data[i + 1] else 0;
      var b3: Byte := if i + 2 < |data| then data[i + 2] else 0;
      QuadRoundTrip(data[i], b2, b3, i + 1 < |data|, i + 2 < |data|);
      if i + 3 <= |data| {
        DecodeEncode(data, i + 3);
        assert data[i..] == [data[i], data[i + 1], data[i + 2]] + data[i + 3..];
      } else {
        assert rest == "";
        if i + 2 == |data| {
          assert data[i..] == [data[i], data[i + 1]];
        } else {
          assert data[i..] == [data[i]];
        }
      }
    }
  }

  /** "Man" encodes to "TWFu", "Ma" to "TWE=" and "M" to "TQ==". */
  lemma Base64Examples()
    ensures EncodeFrom([0x4D, 0x61, 0x6E], 0) == "TWFu"
    ensures EncodeFrom([0x4D, 0x61], 0) == "TWE="
    ensures EncodeFrom([0x4D], 0) == "TQ=="
  {
    assert EncodeFrom([0x4D, 0x61, 0x6E], 3) == "";
    assert EncodeFrom([0x4D, 0x61], 3) == "";
    assert EncodeFrom([0x4D], 3) == "";
  }
}
