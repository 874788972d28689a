/**
 * The half-edge iterators. Each iterator holds a shared view of the mesh, the
 * half-edge it started from, the half-edge it will look at next and whether it
 * has yielded anything yet; `Next` updates the last two in place.
 *
 * One step of each iterator is a function on a `Cursor` (`FaceNext`,
 * `VertexNext`, `OutgoingNext`), and what the iterator yields in at most
 * `fuel` steps, stopping at the first `None`, is a function too. A malformed
 * `next` chain that never returns to the start makes the source iterators run
 * forever; the fuel bounds how far the model follows it.
 */
module HalfEdgeIter {
  import opened Core
  import opened HalfEdgeMesh

  /** The mutable part of an iterator: the half-edge to look at next and whether one was yielded. */
  datatype Cursor = Cursor(current: Option<HalfEdgeId>, started: bool)

  /** A fresh iterator's cursor at `start`. */
  function Begin(start: HalfEdgeId): Cursor { Cursor(Some(start), false) }

  // ----- FaceHalfEdgeIter -----

  /**
   * One step around a face: yield the current half-edge and move to its
   * `next`; stop when there is no current half-edge, when the walk is back at
   * `start`, or when the current half-edge is missing.
   */
  function FaceNext(H: HalfEdges, start: HalfEdgeId, c: Cursor): (Option<HalfEdgeId>, Cursor) {
    if c.current.None? then (None, c)
    else
      var cur := c.current.value;
      if c.started && cur == start then (None, c)
      else if cur !in H then (None, Cursor(c.current, true))
      else (Some(cur), Cursor(H[cur].next, true))
  }

  /** The half-edges a face iterator yields in at most `fuel` steps. */
  function FaceYield(H: HalfEdges, start: HalfEdgeId, c: Cursor, fuel: nat): seq<HalfEdgeId>
    decreases fuel
  {
    if fuel == 0 then []
    else
      var (r, c') := FaceNext(H, start, c);
      if r.None? then [] else [r.value] + FaceYield(H, start, c', fuel - 1)
  }

  /** `hs` is a chain along `next`: every element exists and each is its predecessor's `next`. */
  ghost predicate NextChain(H: HalfEdges, hs: seq<HalfEdgeId>) {
    (forall k :: 0 <= k < |hs| ==> hs[k] in H) &&
    (forall k :: 0 <= k < |hs| - 1 ==> H[hs[k]].next == Some(hs[k + 1]))
  }

  /**
   * What a face iterator yields is a `next` chain that begins at the cursor's
   * half-edge and, once started, never comes back to `start`.
   */
  lemma {:induction false} FaceYieldChain(H: HalfEdges, start: HalfEdgeId, c: Cursor, fuel: nat)
    ensures var ys := FaceYield(H, start, c, fuel);
      NextChain(H, ys) &&
      (|ys| > 0 ==> c.current == Some(ys[0])) &&
      (forall k :: 0 < k < |ys| ==> ys[k] != start) &&
      (|ys| > 0 && c.started ==> ys[0] != start)
    decreases fuel
  {
    var ys := FaceYield(H, start, c, fuel);
    if fuel > 0 {
      var (r, c') := FaceNext(H, start, c);
      if r.Some? {
        var rest := FaceYield(H, start, c', fuel - 1);
        assert ys == [r.value] + rest;
        FaceYieldChain(H, start, c', fuel - 1);
        assert c'.started;
        forall k | 0 <= k < |ys| - 1 ensures H[ys[k]].next == Some(ys[k + 1]) {
          if k > 0 {
            assert ys[k] == rest[k - 1] && ys[k + 1] == rest[k];
          }
        }
        forall k | 0 < k < |ys| ensures ys[k] != start {
          assert ys[k] == rest[k - 1];
        }
      }
    }
  }

  /**
   * Starting at position `i` of a closed ring (having started when `i > 0`),
   * the face iterator yields the rest of the ring and then stops.
   */
  lemma {:induction false} RingYieldFrom(H: HalfEdges, ring: seq<HalfEdgeId>, f: FaceId, l: LoopId, i: nat, fuel: nat)
    requires IsRing(H, ring, f, l) && i < |ring| && fuel > |ring| - i
    ensures FaceYield(H, ring[0], Cursor(Some(ring[i]), i > 0), fuel) == ring[i..]
    decreases |ring| - i
  {
    assert RingLink(H, ring, i, f, l);
    var c' := Cursor(H[ring[i]].next, true);
    assert FaceNext(H, ring[0], Cursor(Some(ring[i]), i > 0)) == (Some(ring[i]), c');
    if i + 1 < |ring| {
      assert ring[i] != ring[0] || i == 0;
      RingYieldFrom(H, ring, f, l, i + 1, fuel - 1);
      assert ring[i..] == [ring[i]] + ring[i + 1..];
    } else {
      assert c' == Cursor(Some(ring[0]), true);
      assert FaceYield(H, ring[0], c', fuel - 1) == [];
      assert ring[i..] == [ring[i]];
    }
  }

  /** A face iterator started at the head of a closed ring yields exactly the ring. */
  lemma RingYield(H: HalfEdges, ring: seq<HalfEdgeId>, f: FaceId, l: LoopId, fuel: nat)
    requires IsRing(H, ring, f, l) && fuel > |ring|
    ensures FaceYield(H, ring[0], Begin(ring[0]), fuel) == ring
  {
    RingYieldFrom(H, ring, f, l, 0, fuel);
  }

  // ----- FaceVertexIter -----

  /** One step of the vertex iterator: the origin of the half-edge the face iterator yields. */
  function VertexNext(H: HalfEdges, start: HalfEdgeId, c: Cursor): (Option<VertexId>, Cursor) {
    var (r, c') := FaceNext(H, start, c);
    if r.None? then (None, c')
    else if r.value !in H then (None, c')
    else (Some(H[r.value].origin), c')
  }

  /** The vertices a face-vertex iterator yields in at most `fuel` steps. */
  function VertexYield(H: HalfEdges, start: HalfEdgeId, c: Cursor, fuel: nat): seq<VertexId>
    decreases fuel
  {
    if fuel == 0 then []
    else
      var (r, c') := VertexNext(H, start, c);
      if r.None? then [] else [r.value] + VertexYield(H, start, c', fuel - 1)
  }

  /** The origins of the half-edges in `hs`. */
  ghost function Origins(H: HalfEdges, hs: seq<HalfEdgeId>): (r: seq<VertexId>)
    requires forall k :: 0 <= k < |hs| ==> hs[k] in H
    ensures |r| == |hs| && forall k :: 0 <= k < |hs| ==> r[k] == H[hs[k]].origin
  {
    if hs == [] then [] else [H[hs[0]].origin] + Origins(H, hs[1..])
  }

  /** The vertex iterator yields the origins of the face iterator's half-edges, in order and number. */
  lemma {:induction false} VertexYieldOrigins(H: HalfEdges, start: HalfEdgeId, c: Cursor, fuel: nat)
    ensures var hs := FaceYield(H, start, c, fuel);
      (forall k :: 0 <= k < |hs| ==> hs[k] in H) &&
      VertexYield(H, start, c, fuel) == Origins(H, hs)
    decreases fuel
  {
    FaceYieldChain(H, start, c, fuel);
    if fuel > 0 {
      var (r, c') := FaceNext(H, start, c);
      if r.Some? {
        VertexYieldOrigins(H, start, c', fuel - 1);
        var hs := FaceYield(H, start, c, fuel);
        assert hs == [r.value] + FaceYield(H, start, c', fuel - 1);
        assert hs[1..] == FaceYield(H, start, c', fuel - 1);
      }
    }
  }

  // ----- VertexOutgoingIter -----

  /**
   * One step around a vertex: yield the current half-edge and move to its
   * twin's `next`; stop at `start`, at a missing half-edge or twin, or when
   * there is no current half-edge (a boundary leaves `current` empty).
   */
  function OutgoingNext(H: HalfEdges, start: HalfEdgeId, c: Cursor): (Option<HalfEdgeId>, Cursor) {
    if c.current.None? then (None, c)
    else
      var cur := c.current.value;
      if c.started && cur == start then (None, c)
      else if cur !in H || H[cur].twin.None? || H[cur].twin.value !in H then (None, Cursor(c.current, true))
      else (Some(cur), Cursor(H[H[cur].twin.value].next, true))
  }

  /** The half-edges a vertex-outgoing iterator yields in at most `fuel` steps. */
  function OutgoingYield(H: HalfEdges, start: HalfEdgeId, c: Cursor, fuel: nat): seq<HalfEdgeId>
    decreases fuel
  {
    if fuel == 0 then []
    else
      var (r, c') := OutgoingNext(H, start, c);
      if r.None? then [] else [r.value] + OutgoingYield(H, start, c', fuel - 1)
  }

  /** `hs` is a chain along `twin` then `next`, every element having a twin in the table. */
  ghost predicate TwinNextChain(H: HalfEdges, hs: seq<HalfEdgeId>) {
    (forall k :: 0 <= k < |hs| ==> hs[k] in H && H[hs[k]].twin.Some? && H[hs[k]].twin.value in H) &&
    (forall k :: 0 <= k < |hs| - 1 ==> H[H[hs[k]].twin.value].next == Some(hs[k + 1]))
  }

  /**
   * What a vertex-outgoing iterator yields is a `twin`-then-`next` chain from
   * the cursor's half-edge that never comes back to `start` once started; a
   * half-edge without a twin is never yielded.
   */
  lemma {:induction false} OutgoingYieldChain(H: HalfEdges, start: HalfEdgeId, c: Cursor, fuel: nat)
    ensures var ys := OutgoingYield(H, start, c, fuel);
      TwinNextChain(H, ys) &&
      (|ys| > 0 ==> c.current == Some(ys[0])) &&
      (forall k :: 0 < k < |ys| ==> ys[k] != start) &&
      (|ys| > 0 && c.started ==> ys[0] != start)
    decreases fuel
  {
    var ys := OutgoingYield(H, start, c, fuel);
    if fuel > 0 {
      var (r, c') := OutgoingNext(H, start, c);
      if r.Some? {
        var rest := OutgoingYield(H, start, c', fuel - 1);
        assert ys == [r.value] + rest;
        OutgoingYieldChain(H, start, c', fuel - 1);
        forall k | 0 <= k < |ys| - 1 ensures H[H[ys[k]].twin.value].next == Some(ys[k + 1]) {
          if k > 0 {
            assert ys[k] == rest[k - 1] && ys[k + 1] == rest[k];
          }
        }
        forall k | 0 < k < |ys| ensures ys[k] != start {
          assert ys[k] == rest[k - 1];
        }
      }
    }
  }

  // ----- The iterator objects -----

  class FaceHalfEdgeIter {
    const mesh: Mesh
    const start: HalfEdgeId
    var current: Option<HalfEdgeId>
    var started: bool

    ghost function State(): Cursor
      reads this
    {
      Cursor(current, started)
    }

    constructor (mesh: Mesh, start: HalfEdgeId)
      ensures this.mesh == mesh && this.start == start && State() == Begin(start)
    {
      this.mesh := mesh;
      this.start := start;
      current := Some(start);
      started := false;
    }

    /** `next()`: one step of `FaceNext` on the mesh's half-edges. */
    method Next() returns (r: Option<HalfEdgeId>)
      modifies this
      ensures (r, State()) == FaceNext(mesh.halfedges, start, old(State()))
    {
      if current.None? {
        return None;
      }
      var cur := current.value;
      if started && cur == start {
        return None;
      }
      started := true;
      if cur !in mesh.halfedges {
        return None;
      }
      current := mesh.halfedges[cur].next;
      return Some(cur);
    }
  }

  class FaceVertexIter {
    const inner: FaceHalfEdgeIter

    constructor (mesh: Mesh, start: HalfEdgeId)
      ensures fresh(inner) && inner.mesh == mesh && inner.start == start && inner.State() == Begin(start)
    {
      inner := new FaceHalfEdgeIter(mesh, start);
    }

    /** `next()`: the origin of the next half-edge of the inner face iterator. */
    method Next() returns (r: Option<VertexId>)
      modifies inner
      ensures (r, inner.State()) == VertexNext(inner.mesh.halfedges, inner.start, old(inner.State()))
    {
      var h := inner.Next();
      if h.None? {
        return None;
      }
      if h.value !in inner.mesh.halfedges {
        return None;
      }
      return Some(inner.mesh.halfedges[h.value].origin);
    }
  }

  class VertexOutgoingIter {
    const mesh: Mesh
    const start: HalfEdgeId
    var current: Option<HalfEdgeId>
    var started: bool

    ghost function State(): Cursor
      reads this
    {
      Cursor(current, started)
    }

    constructor (mesh: Mesh, start: HalfEdgeId)
      ensures this.mesh == mesh && this.start == start && State() == Begin(start)
    {
      this.mesh := mesh;
      this.start := start;
      current := Some(start);
      started := false;
    }

    /** `next()`: one step of `OutgoingNext` on the mesh's half-edges. */
    method Next() returns (r: Option<HalfEdgeId>)
      modifies this
      ensures (r, State()) == OutgoingNext(mesh.halfedges, start, old(State()))
    {
      if current.None? {
        return None;
      }
      var cur := current.value;
      if started && cur == start {
        return None;
      }
      started := true;
      if cur !in mesh.halfedges {
        return None;
      }
      var tw := mesh.halfedges[cur].twin;
      if tw.None? || tw.value !in mesh.halfedges {
        return None;
      }
      current := mesh.halfedges[tw.value].next;
      return Some(cur);
    }
  }

  /** Drains a face iterator for at most `fuel` steps, as `collect` does on a closing walk. */
  method CollectFace(it: FaceHalfEdgeIter, fuel: nat) returns (hs: seq<HalfEdgeId>)
    modifies it
    ensures hs == FaceYield(it.mesh.halfedges, it.start, old(it.State()), fuel)
  {
    hs := [];
    var n: nat := fuel;
    ghost var c0 := it.State();
    while n > 0
      invariant n <= fuel
      invariant hs + FaceYield(it.mesh.halfedges, it.start, it.State(), n) == FaceYield(it.mesh.halfedges, it.start, c0, fuel)
      decreases n
    {
      ghost var before := it.State();
      var r := it.Next();
      assert FaceYield(it.mesh.halfedges, it.start, before, n) ==
        if r.None? then [] else [r.value] + FaceYield(it.mesh.halfedges, it.start, it.State(), n - 1);
      if r.None? {
        return;
      }
      hs := hs + [r.value];
      n := n - 1;
    }
  }

  /** Drains a face-vertex iterator for at most `fuel` steps. */
  method CollectVertices(it: FaceVertexIter, fuel: nat) returns (vs: seq<VertexId>)
    modifies it.inner
    ensures vs == VertexYield(it.inner.mesh.halfedges, it.inner.start, old(it.inner.State()), fuel)
  {
    vs := [];
    var n: nat := fuel;
    ghost var c0 := it.inner.State();
    while n > 0
      invariant n <= fuel
      invariant vs + VertexYield(it.inner.mesh.halfedges, it.inner.start, it.inner.State(), n) == VertexYield(it.inner.mesh.halfedges, it.inner.start, c0, fuel)
      decreases n
    {
      ghost var before := it.inner.State();
      var r := it.Next();
      assert VertexYield(it.inner.mesh.halfedges, it.inner.start, before, n) ==
        if r.None? then [] else [r.value] + VertexYield(it.inner.mesh.halfedges, it.inner.start, it.inner.State(), n - 1);
      if r.None? {
        return;
      }
      vs := vs + [r.value];
      n := n - 1;
    }
  }

  /** Drains a vertex-outgoing iterator for at most `fuel` steps. */
  method CollectOutgoing(it: VertexOutgoingIter, fuel: nat) returns (hs: seq<HalfEdgeId>)
    modifies it
    ensures hs == OutgoingYield(it.mesh.halfedges, it.start, old(it.State()), fuel)
  {
    hs := [];
    var n: nat := fuel;
    ghost var c0 := it.State();
    while n > 0
      invariant n <= fuel
      invariant hs + OutgoingYield(it.mesh.halfedges, it.start, it.State(), n) == OutgoingYield(it.mesh.halfedges, it.start, c0, fuel)
      decreases n
    {
      ghost var before := it.State();
      var r := it.Next();
      assert OutgoingYield(it.mesh.halfedges, it.start, before, n) ==
        if r.None? then [] else [r.value] + OutgoingYield(it.mesh.halfedges, it.start, it.State(), n - 1);
      if r.None? {
        return;
      }
      hs := hs + [r.value];
      n := n - 1;
    }
  }

  // ----- Iterators of a mesh -----

  /** The half-edge the iterators of face `f` start from: its outer loop's half-edge, if both exist. */
  function FaceStart(L: Loops, F: Faces, f: FaceId): (r: Option<HalfEdgeId>)
    ensures r.Some? <==> f in F && F[f].outerLoop in L
    ensures r.Some? ==> r.value == L[F[f].outerLoop].halfedge
  {
    if f !in F || F[f].outerLoop !in L then None else Some(L[F[f].outerLoop].halfedge)
  }

  /** The half-edge the outgoing iterator of vertex `v` starts from, if `v` exists and has one. */
  function OutgoingStart(V: Vertices, v: VertexId): (r: Option<HalfEdgeId>)
    ensures r.Some? <==> v in V && V[v].halfedge.Some?
    ensures r.Some? ==> Some(r.value) == V[v].halfedge
  {
    if v !in V then None else V[v].halfedge
  }

  /** `face_halfedges`: an iterator from the face's outer-loop half-edge, or `None`. */
  method FaceHalfedges(m: Mesh, f: FaceId) returns (r: Option<FaceHalfEdgeIter>)
    ensures r.None? <==> FaceStart(m.loops, m.faces, f).None?
    ensures r.Some? ==> (fresh(r.value) && r.value.mesh == m &&
      Some(r.value.start) == FaceStart(m.loops, m.faces, f) && r.value.State() == Begin(r.value.start))
  {
    if f !in m.faces || m.faces[f].outerLoop !in m.loops {
      return None;
    }
    var it := new FaceHalfEdgeIter(m, m.loops[m.faces[f].outerLoop].halfedge);
    return Some(it);
  }

  /** `face_vertices`: a vertex iterator from the face's outer-loop half-edge, or `None`. */
  method FaceVertices(m: Mesh, f: FaceId) returns (r: Option<FaceVertexIter>)
    ensures r.None? <==> FaceStart(m.loops, m.faces, f).None?
    ensures r.Some? ==> (fresh(r.value) && fresh(r.value.inner) && r.value.inner.mesh == m &&
      Some(r.value.inner.start) == FaceStart(m.loops, m.faces, f) && r.value.inner.State() == Begin(r.value.inner.start))
  {
    if f !in m.faces || m.faces[f].outerLoop !in m.loops {
      return None;
    }
    var it := new FaceVertexIter(m, m.loops[m.faces[f].outerLoop].halfedge);
    return Some(it);
  }

  /** `vertex_outgoing`: an iterator from the vertex's outgoing half-edge, or `None`. */
  method VertexOutgoing(m: Mesh, v: VertexId) returns (r: Option<VertexOutgoingIter>)
    ensures r.None? <==> OutgoingStart(m.vertices, v).None?
    ensures r.Some? ==> (fresh(r.value) && r.value.mesh == m &&
      Some(r.value.start) == OutgoingStart(m.vertices, v) && r.value.State() == Begin(r.value.start))
  {
    if v !in m.vertices || m.vertices[v].halfedge.None? {
      return None;
    }
    var it := new VertexOutgoingIter(m, m.vertices[v].halfedge.value);
    return Some(it);
  }

  // ----- On a built mesh -----

  /**
   * In a built mesh, the half-edges of every face are its ring, each tagged
   * with the face, and its vertices are their origins, in the same order.
   */
  lemma BuiltFaceWalk(t: Tables, C: Cycles, f: FaceId, fuel: nat)
    requires Valid(t, C) && f in t.F && fuel > |C[f]|
    ensures FaceStart(t.L, t.F, f) == Some(C[f][0])
    ensures FaceYield(t.H, C[f][0], Begin(C[f][0]), fuel) == C[f]
    ensures forall k :: 0 <= k < |C[f]| ==> C[f][k] in t.H && t.H[C[f][k]].face == Some(f)
    ensures VertexYield(t.H, C[f][0], Begin(C[f][0]), fuel) == Origins(t.H, C[f])
  {
    assert FaceClosed(t.H, t.L, t.F, C, f);
    var l := t.F[f].outerLoop;
    RingYield(t.H, C[f], f, l, fuel);
    forall k | 0 <= k < |C[f]| ensures C[f][k] in t.H && t.H[C[f][k]].face == Some(f) {
      assert RingLink(t.H, C[f], k, f, l);
    }
    VertexYieldOrigins(t.H, C[f][0], Begin(C[f][0]), fuel);
  }
}
