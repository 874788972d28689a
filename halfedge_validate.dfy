/**
 * `Mesh::validate`: three passes over the tables, each failing with a
 * topology error. The twin pass checks that every twin exists, points back
 * and starts at another vertex; the face pass walks each face's outer loop
 * along `next`, checking face tags and `prev` back-links, and caps the walk
 * at one more step than there are half-edges; the edge pass checks that each
 * edge's two half-edges exist and are each other's twins.
 *
 * Every failure carries the same error kind, so the outcome is `Ok` exactly
 * when all three passes accept, whatever the order of the checks: `Validates`
 * states that condition and `Validate` is proved to decide it. A mesh built by
 * the constructors always validates (`BuiltValidates`).
 */
module HalfEdgeValidate {
  import opened Core
  import opened HalfEdgeMesh

  // ----- What validate accepts -----

  /** Half-edge `h`'s twin, when it names one, exists, names `h` back and starts elsewhere. */
  predicate TwinAccepted(H: HalfEdges, h: HalfEdgeId)
    requires h in H
  {
    H[h].twin.Some? ==>
      H[h].twin.value in H &&
      H[H[h].twin.value].twin == Some(h) &&
      H[H[h].twin.value].origin != H[h].origin
  }

  /**
   * The walk of face `g`'s loop from half-edge `cur`, `count` steps after
   * leaving `start`: `Some(n)` when it gets back to `start` after `n` steps in
   * all, `None` when a half-edge is missing, tagged with another face, has no
   * `next`, is not named as `prev` by its successor, or the walk takes more
   * than `maxIter` steps.
   */
  function Walk(H: HalfEdges, g: FaceId, start: HalfEdgeId, cur: HalfEdgeId, count: nat, maxIter: nat): (r: Option<nat>)
    decreases maxIter - count
    ensures r.Some? ==> count < r.value <= maxIter
  {
    if cur !in H || H[cur].face != Some(g) || H[cur].next.None? then None
    else
      var nx := H[cur].next.value;
      if nx !in H || H[nx].prev != Some(cur) || count + 1 > maxIter then None
      else if nx == start then Some(count + 1)
      else Walk(H, g, start, nx, count + 1, maxIter)
  }

  /** Face `g`'s outer loop exists and its walk closes after at least three steps. */
  predicate FaceAccepted(H: HalfEdges, L: Loops, F: Faces, g: FaceId)
    requires g in F
  {
    F[g].outerLoop in L &&
    var s := L[F[g].outerLoop].halfedge;
    var w := Walk(H, g, s, s, 0, |H| + 1);
    w.Some? && w.value >= 3
  }

  /** Edge `e`'s two half-edges exist and are each other's twins. */
  predicate EdgeAccepted(H: HalfEdges, E: Edges, e: EdgeId)
    requires e in E
  {
    E[e].halfedgeA in H && E[e].halfedgeB in H &&
    H[E[e].halfedgeA].twin == Some(E[e].halfedgeB) &&
    H[E[e].halfedgeB].twin == Some(E[e].halfedgeA)
  }

  predicate TwinsAccepted(H: HalfEdges) {
    forall h :: h in H ==> TwinAccepted(H, h)
  }

  predicate FacesAccepted(H: HalfEdges, L: Loops, F: Faces) {
    forall g :: g in F ==> FaceAccepted(H, L, F, g)
  }

  predicate EdgesAccepted(H: HalfEdges, E: Edges) {
    forall e :: e in E ==> EdgeAccepted(H, E, e)
  }

  /** The tables pass all three checks of `validate`. */
  predicate Validates(t: Tables) {
    TwinsAccepted(t.H) && FacesAccepted(t.H, t.L, t.F) && EdgesAccepted(t.H, t.E)
  }

  // ----- validate, pass by pass -----

  /** The twin pass, visiting half-edge slots in increasing order. */
  method CheckTwins(m: Mesh) returns (ok: bool)
    requires SlotsBounded(m.Snapshot())
    ensures ok <==> TwinsAccepted(m.halfedges)
  {
    var k := 0;
    while k < m.halfedgeSlots
      invariant k <= m.halfedgeSlots
      invariant forall h :: h in m.halfedges && h < k ==> TwinAccepted(m.halfedges, h)
    {
      if k in m.halfedges {
        var he := m.halfedges[k];
        if he.twin.Some? {
          var tw := he.twin.value;
          if tw !in m.halfedges {
            return false;
          }
          if m.halfedges[tw].twin != Some(k) {
            return false;
          }
          if m.halfedges[tw].origin == he.origin {
            return false;
          }
        }
      }
      k := k + 1;
    }
    assert forall h :: h in m.halfedges ==> h < m.halfedgeSlots;
    return true;
  }

  /** The walk of one face's outer loop, counting steps up to `|halfedges| + 1`. */
  method WalkFace(m: Mesh, g: FaceId) returns (ok: bool)
    requires g in m.faces
    ensures ok <==> FaceAccepted(m.halfedges, m.loops, m.faces, g)
  {
    var lid := m.faces[g].outerLoop;
    if lid !in m.loops {
      return false;
    }
    var start := m.loops[lid].halfedge;
    var current := start;
    var count := 0;
    var maxIter := |m.halfedges| + 1;
    while true
      invariant count <= maxIter
      invariant Walk(m.halfedges, g, start, current, count, maxIter) == Walk(m.halfedges, g, start, start, 0, maxIter)
      decreases maxIter - count
    {
      if current !in m.halfedges {
        return false;
      }
      var he := m.halfedges[current];
      if he.face != Some(g) {
        return false;
      }
      if he.next.None? {
        return false;
      }
      var nx := he.next.value;
      if nx !in m.halfedges || m.halfedges[nx].prev != Some(current) {
        return false;
      }
      count := count + 1;
      if count > maxIter {
        return false;
      }
      current := nx;
      if current == start {
        return count >= 3;
      }
    }
  }

  /** The face pass, visiting face slots in increasing order. */
  method CheckFaces(m: Mesh) returns (ok: bool)
    requires SlotsBounded(m.Snapshot())
    ensures ok <==> FacesAccepted(m.halfedges, m.loops, m.faces)
  {
    var k := 0;
    while k < m.faceSlots
      invariant k <= m.faceSlots
      invariant forall g :: g in m.faces && g < k ==> FaceAccepted(m.halfedges, m.loops, m.faces, g)
    {
      if k in m.faces {
        var closed := WalkFace(m, k);
        if !closed {
          return false;
        }
      }
      k := k + 1;
    }
    assert forall g :: g in m.faces ==> g < m.faceSlots;
    return true;
  }

  /** The edge pass, visiting edge slots in increasing order. */
  method CheckEdges(m: Mesh) returns (ok: bool)
    requires SlotsBounded(m.Snapshot())
    ensures ok <==> EdgesAccepted(m.halfedges, m.edges)
  {
    var k := 0;
    while k < m.edgeSlots
      invariant k <= m.edgeSlots
      invariant forall e :: e in m.edges && e < k ==> EdgeAccepted(m.halfedges, m.edges, e)
    {
      if k in m.edges {
        var a := m.edges[k].halfedgeA;
        var b := m.edges[k].halfedgeB;
        if a !in m.halfedges || b !in m.halfedges {
          return false;
        }
        if m.halfedges[a].twin != Some(b) || m.halfedges[b].twin != Some(a) {
          return false;
        }
      }
      k := k + 1;
    }
    assert forall e :: e in m.edges ==> e < m.edgeSlots;
    return true;
  }

  /** `validate`: `Ok` exactly when the tables pass all three checks, otherwise a topology error. */
  method Validate(m: Mesh) returns (r: Result<()>)
    requires SlotsBounded(m.Snapshot())
    ensures r.Ok? <==> Validates(m.Snapshot())
    ensures r.Err? ==> r.error == Topology
  {
    var twins := CheckTwins(m);
    if !twins {
      return Err(Topology);
    }
    var faces := CheckFaces(m);
    if !faces {
      return Err(Topology);
    }
    var edges := CheckEdges(m);
    if !edges {
      return Err(Topology);
    }
    return Ok(());
  }

  // ----- Meshes built by the constructors validate -----

  /** A sequence of distinct handles drawn from `S` is no longer than `S` is large. */
  lemma {:induction false} DistinctFits(S: set<HalfEdgeId>, c: seq<HalfEdgeId>)
    requires Distinct(c) && forall i :: 0 <= i < |c| ==> c[i] in S
    ensures |c| <= |S|
  {
    if |c| > 0 {
      var rest := c[1..];
      forall i | 0 <= i < |rest| ensures rest[i] in S - {c[0]} {
        assert rest[i] == c[i + 1];
      }
      assert Distinct(rest) by {
        forall i, j | 0 <= i < |rest| && 0 <= j < |rest| && i != j ensures rest[i] != rest[j] {
          assert rest[i] == c[i + 1] && rest[j] == c[j + 1];
        }
      }
      DistinctFits(S - {c[0]}, rest);
    }
  }

  /** A ring of distinct half-edges of `H` is no longer than `H`. */
  lemma RingFits(H: HalfEdges, c: seq<HalfEdgeId>)
    requires Distinct(c) && forall i :: 0 <= i < |c| ==> c[i] in H
    ensures |c| <= |H|
  {
    DistinctFits(H.Keys, c);
    assert |H.Keys| == |H|;
  }

  /** Walking a ring from position `i` after `i` steps gets back to its head after `|c|` steps. */
  lemma {:induction false} RingWalks(H: HalfEdges, c: seq<HalfEdgeId>, g: FaceId, l: LoopId, i: nat, maxIter: nat)
    requires IsRing(H, c, g, l) && i < |c| && |c| <= maxIter
    ensures Walk(H, g, c[0], c[i], i, maxIter) == Some(|c|)
    decreases |c| - i
  {
    assert RingLink(H, c, i, g, l);
    var j := Succ(i, |c|);
    assert RingLink(H, c, j, g, l);
    assert Pred(j, |c|) == i;
    if i + 1 < |c| {
      assert c[i + 1] != c[0];
      RingWalks(H, c, g, l, i + 1, maxIter);
    }
  }

  /** Every mesh satisfying the construction invariant passes `validate`. */
  lemma BuiltValidates(t: Tables, C: Cycles)
    requires Valid(t, C)
    ensures Validates(t)
  {
    assert TwinsAccepted(t.H) by {
      forall h | h in t.H ensures TwinAccepted(t.H, h) {
        assert TwinOk(t.V, t.H, t.E, h);
      }
    }
    assert EdgesAccepted(t.H, t.E) by {
      forall e | e in t.E ensures EdgeAccepted(t.H, t.E, e) {
        assert EdgeOk(t.H, t.E, e);
      }
    }
    assert FacesAccepted(t.H, t.L, t.F) by {
      forall g | g in t.F ensures FaceAccepted(t.H, t.L, t.F, g) {
        ClosedFaceAccepted(t.H, t.L, t.F, C, g);
      }
    }
  }

  /** A face whose outer loop is a closed ring passes the face walk. */
  lemma ClosedFaceAccepted(H: HalfEdges, L: Loops, F: Faces, C: Cycles, g: FaceId)
    requires g in F && g in C && FaceClosed(H, L, F, C, g)
    ensures FaceAccepted(H, L, F, g)
  {
    var c := C[g];
    var l := F[g].outerLoop;
    assert |c| <= |H| by {
      forall i | 0 <= i < |c| ensures c[i] in H {
        assert RingLink(H, c, i, g, l);
      }
      RingFits(H, c);
    }
    RingWalks(H, c, g, l, 0, |H| + 1);
  }

  /** Clearing one half-edge's twin in a built mesh makes `validate` fail. */
  lemma ClearedTwinFails(t: Tables, C: Cycles, h: HalfEdgeId)
    requires Valid(t, C) && h in t.H
    ensures !Validates(t.(H := t.H[h := t.H[h].(twin := None)]))
  {
    assert TwinOk(t.V, t.H, t.E, h);
    var tw := t.H[h].twin.value;
    var H' := t.H[h := t.H[h].(twin := None)];
    assert tw != h;
    assert tw in H' && !TwinAccepted(H', tw);
  }
}
