/**
 * The bounding box of a half-edge mesh: the componentwise minimum and maximum
 * of the vertex positions, visiting vertex slots in increasing order, and the
 * origin twice for a mesh without vertices.
 *
 * The source starts its accumulators at positive and negative infinity; here
 * "no vertex seen yet" plays that part, and the first vertex visited sets both.
 */
module HalfEdgeBounding {
  import opened Core
  import opened HalfEdgeMesh

  /** `lo` and `hi` bound every position of `V` componentwise. */
  ghost predicate Encloses(V: Vertices, lo: Vec3, hi: Vec3) {
    forall v :: v in V ==> LessEq3(lo, V[v].position) && LessEq3(V[v].position, hi)
  }

  /** Each component of `lo` and of `hi` is that component of some position in `V`. */
  ghost predicate Attained(V: Vertices, lo: Vec3, hi: Vec3) {
    (exists v :: v in V && V[v].position.x == lo.x) &&
    (exists v :: v in V && V[v].position.y == lo.y) &&
    (exists v :: v in V && V[v].position.z == lo.z) &&
    (exists v :: v in V && V[v].position.x == hi.x) &&
    (exists v :: v in V && V[v].position.y == hi.y) &&
    (exists v :: v in V && V[v].position.z == hi.z)
  }

  /** The vertices of `V` whose handles lie below `k`. */
  ghost function Below(V: Vertices, k: nat): Vertices {
    map v | v in V && v < k :: V[v]
  }

  /** Folding one more vertex into the box of `B` gives the box of `B` with that vertex. */
  lemma Widen(B: Vertices, k: VertexId, x: Vertex, seen: bool, lo: Vec3, hi: Vec3, lo': Vec3, hi': Vec3)
    requires k !in B && (seen <==> B != map[])
    requires seen ==> Encloses(B, lo, hi) && Attained(B, lo, hi)
    requires lo' == (if seen then Min3(lo, x.position) else x.position)
    requires hi' == (if seen then Max3(hi, x.position) else x.position)
    ensures Encloses(B[k := x], lo', hi') && Attained(B[k := x], lo', hi')
  {
    var B' := B[k := x];
    assert B'[k].position == x.position;
    forall v | v in B ensures v in B' && B'[v] == B[v] {
      assert v != k;
    }
  }

  /**
   * `bounding_box`: `(origin, origin)` for a mesh without vertices; otherwise
   * the tightest box around the vertex positions.
   */
  method BoundingBox(m: Mesh) returns (lo: Vec3, hi: Vec3)
    requires SlotsBounded(m.Snapshot())
    ensures m.vertices == map[] ==> lo == Origin && hi == Origin
    ensures m.vertices != map[] ==> Encloses(m.vertices, lo, hi) && Attained(m.vertices, lo, hi)
  {
    if m.vertices == map[] {
      return Origin, Origin;
    }
    var seen := false;
    lo, hi := Origin, Origin;
    var k := 0;
    while k < m.vertexSlots
      invariant k <= m.vertexSlots
      invariant seen <==> Below(m.vertices, k) != map[]
      invariant seen ==> Encloses(Below(m.vertices, k), lo, hi) && Attained(Below(m.vertices, k), lo, hi)
    {
      if k in m.vertices {
        var p := m.vertices[k].position;
        ghost var before, lo0, hi0, seen0 := Below(m.vertices, k), lo, hi, seen;
        if seen {
          lo, hi := Min3(lo, p), Max3(hi, p);
        } else {
          lo, hi := p, p;
        }
        seen := true;
        assert Below(m.vertices, k + 1) == before[k := m.vertices[k]];
        Widen(before, k, m.vertices[k], seen0, lo0, hi0, lo, hi);
      } else {
        assert Below(m.vertices, k + 1) == Below(m.vertices, k);
      }
      k := k + 1;
    }
    assert Below(m.vertices, k) == m.vertices;
  }

  /** The box `BoundingBox` promises is unique: any two enclosing, attained boxes coincide. */
  lemma BoxUnique(V: Vertices, lo: Vec3, hi: Vec3, lo': Vec3, hi': Vec3)
    requires Encloses(V, lo, hi) && Attained(V, lo, hi)
    requires Encloses(V, lo', hi') && Attained(V, lo', hi')
    ensures lo == lo' && hi == hi'
  {
    var a :| a in V && V[a].position.x == lo.x;
    var b :| b in V && V[b].position.x == lo'.x;
    assert LessEq3(lo, V[b].position) && LessEq3(lo', V[a].position);
    var c :| c in V && V[c].position.y == lo.y;
    var d :| d in V && V[d].position.y == lo'.y;
    assert LessEq3(lo, V[d].position) && LessEq3(lo', V[c].position);
    var e :| e in V && V[e].position.z == lo.z;
    var f :| f in V && V[f].position.z == lo'.z;
    assert LessEq3(lo, V[f].position) && LessEq3(lo', V[e].position);
    var a2 :| a2 in V && V[a2].position.x == hi.x;
    var b2 :| b2 in V && V[b2].position.x == hi'.x;
    assert LessEq3(V[b2].position, hi) && LessEq3(V[a2].position, hi');
    var c2 :| c2 in V && V[c2].position.y == hi.y;
    var d2 :| d2 in V && V[d2].position.y == hi'.y;
    assert LessEq3(V[d2].position, hi) && LessEq3(V[c2].position, hi');
    var e2 :| e2 in V && V[e2].position.z == hi.z;
    var f2 :| f2 in V && V[f2].position.z == hi'.z;
    assert LessEq3(V[f2].position, hi) && LessEq3(V[e2].position, hi');
  }

  /** Vertices (1,2,3), (-1,-2,-3) and (5,0,1) are bounded by (-1,-2,-3) and (5,2,3). */
  lemma ThreeVertexBox(lo: Vec3, hi: Vec3)
    requires Encloses(ExampleVertices(), lo, hi) && Attained(ExampleVertices(), lo, hi)
    ensures lo == Vec3(-1.0, -2.0, -3.0) && hi == Vec3(5.0, 2.0, 3.0)
  {
    var V := ExampleVertices();
    var lo', hi' := Vec3(-1.0, -2.0, -3.0), Vec3(5.0, 2.0, 3.0);
    assert V[1].position == lo' && V[0].position.y == hi'.y && V[0].position.z == hi'.z && V[2].position.x == hi'.x;
    assert Attained(V, lo', hi');
    BoxUnique(V, lo, hi, lo', hi');
  }

  function ExampleVertices(): Vertices {
    map[0 := Vertex(Vec3(1.0, 2.0, 3.0), None),
        1 := Vertex(Vec3(-1.0, -2.0, -3.0), None),
        2 := Vertex(Vec3(5.0, 0.0, 1.0), None)]
  }
}
