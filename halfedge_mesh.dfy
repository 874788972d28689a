/**
 * The half-edge boundary-representation mesh: five arena tables (vertices,
 * half-edges, edges, loops, faces) keyed by slot handles and updated in place
 * by `add_vertex`, `make_edge` and `make_face`.
 *
 * Each `SlotMap` is a `map` from handle to record together with the number
 * of slots it has handed out; nothing is ever removed, so a fresh handle is
 * the next slot and iteration visits handles in increasing order.
 *
 * Every state-changing method of `Mesh` is proved equal to a function on a
 * snapshot of the tables (`Tables`); what `make_edge` and `make_face` promise
 * is proved about those functions.
 */
module HalfEdgeMesh {
  import opened Core

  type VertexId = nat
  type HalfEdgeId = nat
  type EdgeId = nat
  type LoopId = nat
  type FaceId = nat

  datatype Vertex = Vertex(position: Vec3, halfedge: Option<HalfEdgeId>)

  datatype HalfEdge = HalfEdge(
    origin: VertexId,
    twin: Option<HalfEdgeId>,
    next: Option<HalfEdgeId>,
    prev: Option<HalfEdgeId>,
    face: Option<FaceId>,
    edge: Option<EdgeId>,
    loopId: Option<LoopId>)

  datatype Edge = Edge(halfedgeA: HalfEdgeId, halfedgeB: HalfEdgeId)

  datatype Loop = Loop(halfedge: HalfEdgeId, face: Option<FaceId>)

  datatype Face = Face(outerLoop: LoopId, innerLoops: seq<LoopId>, surfaceReversed: bool)

  type Vertices = map<VertexId, Vertex>
  type HalfEdges = map<HalfEdgeId, HalfEdge>
  type Edges = map<EdgeId, Edge>
  type Loops = map<LoopId, Loop>
  type Faces = map<FaceId, Face>
  type Cycles = map<FaceId, seq<HalfEdgeId>>

  /** The five tables and the number of slots each has handed out. */
  datatype Tables = Tables(V: Vertices, H: HalfEdges, E: Edges, L: Loops, F: Faces,
                           vcap: nat, hcap: nat, ecap: nat, lcap: nat, fcap: nat)

  /** Every handle lies below its table's slot count: what a `SlotMap` guarantees by construction. */
  ghost predicate SlotsBounded(t: Tables) {
    (forall v :: v in t.V ==> v < t.vcap) &&
    (forall h :: h in t.H ==> h < t.hcap) &&
    (forall e :: e in t.E ==> e < t.ecap) &&
    (forall l :: l in t.L ==> l < t.lcap) &&
    (forall f :: f in t.F ==> f < t.fcap)
  }

  /** Handles lie below their table's slot count and every twin reference resolves. */
  ghost predicate TablesWF(t: Tables) {
    SlotsBounded(t) &&
    (forall h :: h in t.H && t.H[h].twin.Some? ==> t.H[h].twin.value in t.H)
  }

  predicate Distinct<T(==)>(s: seq<T>) {
    forall i, j :: 0 <= i < |s| && 0 <= j < |s| && i != j ==> s[i] != s[j]
  }

  /** Cyclic successor and predecessor of position `i` among `n`. */
  function Succ(i: nat, n: nat): nat { if i + 1 < n then i + 1 else 0 }
  function Pred(i: nat, n: nat): nat requires n > 0 { if i > 0 then i - 1 else n - 1 }

  lemma SuccPredMod(i: nat, n: nat)
    requires i < n
    ensures (i + 1) % n == Succ(i, n)
    ensures (n + i - 1) % n == Pred(i, n)
  {
    if i + 1 == n {
      assert (i + 1) % n == 0;
    }
    if i == 0 {
      assert (n + i - 1) % n == n - 1;
    } else {
      assert n + i - 1 == n + (i - 1);
      assert (n + i - 1) % n == i - 1;
    }
  }

  // ----- Runs, and the scan of `find_halfedge` -----

  /** `h` runs from `origin` to `target`: its twin exists and starts at `target`. */
  ghost predicate Runs(H: HalfEdges, h: HalfEdgeId, origin: VertexId, target: VertexId) {
    h in H && H[h].origin == origin && H[h].twin.Some? && H[h].twin.value in H
    && H[H[h].twin.value].origin == target
  }

  /** `a`, `b` and `c`, `d` are the same unordered pair. */
  predicate SamePair(a: nat, b: nat, c: nat, d: nat) {
    (a == c && b == d) || (a == d && b == c)
  }

  /** `h` joins `a` and `b`, in either direction. */
  ghost predicate Joins(H: HalfEdges, h: HalfEdgeId, a: VertexId, b: VertexId) {
    h in H && H[h].twin.Some? && H[h].twin.value in H
    && SamePair(H[h].origin, H[H[h].twin.value].origin, a, b)
  }

  /**
   * The first handle in `[k, cap)` that runs from `origin` to `target`:
   * the half-edge `find_halfedge` returns when it scans the table from slot `k`.
   */
  ghost function FirstRunFrom(H: HalfEdges, origin: VertexId, target: VertexId, k: nat, cap: nat): (r: Option<HalfEdgeId>)
    decreases cap - k
    ensures r.Some? ==> k <= r.value < cap && Runs(H, r.value, origin, target)
    ensures r.Some? ==> forall j :: k <= j < r.value ==> !Runs(H, j, origin, target)
    ensures r.None? ==> forall j :: k <= j < cap ==> !Runs(H, j, origin, target)
  {
    if k >= cap then None
    else if Runs(H, k, origin, target) then Some(k)
    else FirstRunFrom(H, origin, target, k + 1, cap)
  }

  ghost function FirstRun(H: HalfEdges, origin: VertexId, target: VertexId, cap: nat): Option<HalfEdgeId> {
    FirstRunFrom(H, origin, target, 0, cap)
  }

  /**
   * Growing the table with handles at or above the old slot count, none of
   * which runs from `origin` to `target`, does not change what the scan finds.
   */
  lemma FirstRunStable(H0: HalfEdges, cap0: nat, H: HalfEdges, cap: nat, origin: VertexId, target: VertexId)
    requires cap0 <= cap
    requires forall k :: k in H0 ==> k < cap0 && k in H && H[k] == H0[k]
    requires forall k :: k in H0 && H0[k].twin.Some? ==> H0[k].twin.value in H0
    requires forall k :: k in H && k !in H0 ==> cap0 <= k
    requires forall k {:trigger Runs(H, k, origin, target)} :: k in H && k !in H0 ==> !Runs(H, k, origin, target)
    ensures FirstRun(H, origin, target, cap) == FirstRun(H0, origin, target, cap0)
  {
    FirstRunStableFrom(H0, cap0, H, cap, origin, target, 0);
  }

  lemma {:induction false} FirstRunStableFrom(H0: HalfEdges, cap0: nat, H: HalfEdges, cap: nat, origin: VertexId, target: VertexId, k: nat)
    requires cap0 <= cap && k <= cap
    requires forall k :: k in H0 ==> k < cap0 && k in H && H[k] == H0[k]
    requires forall k :: k in H0 && H0[k].twin.Some? ==> H0[k].twin.value in H0
    requires forall k :: k in H && k !in H0 ==> cap0 <= k
    requires forall k {:trigger Runs(H, k, origin, target)} :: k in H && k !in H0 ==> !Runs(H, k, origin, target)
    ensures FirstRunFrom(H, origin, target, k, cap) == FirstRunFrom(H0, origin, target, k, cap0)
    decreases cap - k
  {
    if k < cap {
      FirstRunStableFrom(H0, cap0, H, cap, origin, target, k + 1);
      assert Runs(H, k, origin, target) == Runs(H0, k, origin, target);
    }
  }

  // ----- How `make_face` resolves a vertex pair -----

  /** How `make_face` resolves one directed vertex pair against the table. */
  datatype Resolution = Reuse(h: HalfEdgeId) | Conflict | Fresh

  ghost function Resolve(H: HalfEdges, cap: nat, from: VertexId, to: VertexId): Resolution {
    match FirstRun(H, from, to, cap)
    case Some(h) => if H[h].face.Some? then Conflict else Reuse(h)
    case None =>
      match FirstRun(H, to, from, cap)
      case Some(rev) =>
        var t := H[rev].twin.value;
        if H[t].face.Some? then Conflict else Reuse(t)
      case None => Fresh
  }

  /** The resolution of the pair that starts at position `j` of the vertex list. */
  ghost function ResolveAt(H: HalfEdges, cap: nat, vs: seq<VertexId>, j: nat): Resolution
    requires j < |vs|
  {
    Resolve(H, cap, vs[j], vs[Succ(j, |vs|)])
  }

  /** `hs` is what the first `|hs|` pairs of `vs` resolve to: the reused half-edge, or a new one. */
  ghost predicate ResolvedAs(H: HalfEdges, cap: nat, vs: seq<VertexId>, hs: seq<HalfEdgeId>) {
    |hs| <= |vs| &&
    forall j :: 0 <= j < |hs| ==>
      match ResolveAt(H, cap, vs, j)
      case Reuse(h) => hs[j] == h
      case Fresh => hs[j] !in H
      case Conflict => false
  }

  /** Number of the first `k` pairs of `vs` that need a new edge. */
  ghost function FreshCount(H: HalfEdges, cap: nat, vs: seq<VertexId>, k: nat): nat
    requires k <= |vs|
  {
    if k == 0 then 0
    else FreshCount(H, cap, vs, k - 1) + (if ResolveAt(H, cap, vs, k - 1).Fresh? then 1 else 0)
  }

  /** Over distinct vertices (at least three), two different pairs never join the same two vertices. */
  lemma PairsDiffer(vs: seq<VertexId>, j: nat, i: nat)
    requires Distinct(vs) && |vs| >= 3 && j < i < |vs|
    ensures !SamePair(vs[j], vs[Succ(j, |vs|)], vs[i], vs[Succ(i, |vs|)])
  {
  }

  /**
   * `Resolve` does not change when the table grows by handles at or above the
   * old slot count, none of which joins `from` and `to`.
   */
  lemma ResolveStable(H0: HalfEdges, cap0: nat, H: HalfEdges, cap: nat, from: VertexId, to: VertexId)
    requires cap0 <= cap
    requires forall k :: k in H0 ==> k < cap0 && k in H && H[k] == H0[k]
    requires forall k :: k in H0 && H0[k].twin.Some? ==> H0[k].twin.value in H0
    requires forall k :: k in H && k !in H0 ==> cap0 <= k
    requires forall k {:trigger Joins(H, k, from, to)} :: k in H && k !in H0 ==> !Joins(H, k, from, to)
    ensures Resolve(H, cap, from, to) == Resolve(H0, cap0, from, to)
  {
    forall k | k in H && k !in H0 ensures !Runs(H, k, from, to) && !Runs(H, k, to, from) {
      assert !Joins(H, k, from, to);
    }
    FirstRunStable(H0, cap0, H, cap, from, to);
    FirstRunStable(H0, cap0, H, cap, to, from);
  }

  // ----- The construction invariant -----

  /**
   * Half-edge `h` starts at a vertex, has a twin that starts elsewhere and
   * points back, and an edge that lists it.
   */
  ghost predicate TwinOk(V: Vertices, H: HalfEdges, E: Edges, h: HalfEdgeId)
    requires h in H
  {
    H[h].origin in V &&
    H[h].twin.Some? && H[h].twin.value in H &&
    H[H[h].twin.value].twin == Some(h) &&
    H[H[h].twin.value].origin != H[h].origin &&
    H[h].edge.Some? && H[h].edge.value in E &&
    (E[H[h].edge.value].halfedgeA == h || E[H[h].edge.value].halfedgeB == h)
  }

  ghost predicate TwinsPaired(V: Vertices, H: HalfEdges, E: Edges) {
    forall h :: h in H ==> TwinOk(V, H, E, h)
  }

  /** Edge `e`'s two half-edges exist, are each other's twins and point back to `e`. */
  ghost predicate EdgeOk(H: HalfEdges, E: Edges, e: EdgeId)
    requires e in E
  {
    E[e].halfedgeA in H && E[e].halfedgeB in H &&
    H[E[e].halfedgeA].twin == Some(E[e].halfedgeB) &&
    H[E[e].halfedgeB].twin == Some(E[e].halfedgeA) &&
    H[E[e].halfedgeA].edge == Some(e) && H[E[e].halfedgeB].edge == Some(e)
  }

  ghost predicate EdgesPaired(H: HalfEdges, E: Edges) {
    forall e :: e in E ==> EdgeOk(H, E, e)
  }

  /** A vertex's outgoing half-edge, when it has one, starts at that vertex. */
  ghost predicate OutgoingStartsHere(V: Vertices, H: HalfEdges) {
    forall v :: v in V && V[v].halfedge.Some? ==>
      V[v].halfedge.value in H && H[V[v].halfedge.value].origin == v
  }

  /** Position `i` of `c` is linked to its cyclic neighbours and tagged with face `f` and loop `l`. */
  ghost predicate RingLink(H: HalfEdges, c: seq<HalfEdgeId>, i: nat, f: FaceId, l: LoopId)
    requires i < |c|
  {
    c[i] in H &&
    H[c[i]].next == Some(c[Succ(i, |c|)]) &&
    H[c[i]].prev == Some(c[Pred(i, |c|)]) &&
    H[c[i]].face == Some(f) &&
    H[c[i]].loopId == Some(l)
  }

  /** `c` is a closed ring of at least three distinct half-edges of face `f` and loop `l`. */
  ghost predicate IsRing(H: HalfEdges, c: seq<HalfEdgeId>, f: FaceId, l: LoopId) {
    |c| >= 3 && Distinct(c) && forall i :: 0 <= i < |c| ==> RingLink(H, c, i, f, l)
  }

  /** Face `g`'s outer loop exists, belongs to it, and starts at the head of `g`'s ring. */
  ghost predicate FaceClosed(H: HalfEdges, L: Loops, F: Faces, C: Cycles, g: FaceId)
    requires g in F && g in C
  {
    F[g].outerLoop in L && L[F[g].outerLoop].face == Some(g) &&
    |C[g]| > 0 && L[F[g].outerLoop].halfedge == C[g][0] &&
    IsRing(H, C[g], g, F[g].outerLoop)
  }

  ghost predicate FacesClosed(H: HalfEdges, L: Loops, F: Faces, C: Cycles) {
    C.Keys == F.Keys && forall g :: g in F ==> FaceClosed(H, L, F, C, g)
  }

  /** A half-edge with a face lies on that face's ring. */
  ghost predicate FacedOnCycle(H: HalfEdges, C: Cycles) {
    forall h :: h in H && H[h].face.Some? ==> H[h].face.value in C && h in C[H[h].face.value]
  }

  /** What every mesh built by `new`, `add_vertex`, `make_edge` and `make_face` satisfies. */
  ghost predicate BuiltTables(V: Vertices, H: HalfEdges, E: Edges, L: Loops, F: Faces, C: Cycles) {
    TwinsPaired(V, H, E) && EdgesPaired(H, E) && OutgoingStartsHere(V, H) &&
    FacesClosed(H, L, F, C) && FacedOnCycle(H, C)
  }

  /** Well-formed tables satisfying the construction invariant, with `C` the ring of each face. */
  ghost predicate Valid(t: Tables, C: Cycles) {
    TablesWF(t) && BuiltTables(t.V, t.H, t.E, t.L, t.F, C)
  }

  /** Every half-edge of `H0` is still in `H` with the same record. */
  ghost predicate Extends(H0: HalfEdges, H: HalfEdges) {
    forall h :: h in H0 ==> h in H && H[h] == H0[h]
  }

  /** A half-edge that is not yet part of any loop. */
  predicate Unlinked(he: HalfEdge) {
    he.next.None? && he.prev.None? && he.face.None? && he.loopId.None?
  }

  /** The two tables have the same handles, and each half-edge the same origin, twin and edge. */
  ghost predicate SameShape(H0: HalfEdges, H: HalfEdges) {
    H.Keys == H0.Keys &&
    forall h :: h in H ==> H[h].origin == H0[h].origin && H[h].twin == H0[h].twin && H[h].edge == H0[h].edge
  }

  // ----- The constructors as functions on the tables -----

  /** `add_vertex`: the next vertex slot holds the position and no outgoing half-edge. */
  function AddVertexSpec(t: Tables, position: Vec3): Tables {
    Tables(t.V[t.vcap := Vertex(position, None)], t.H, t.E, t.L, t.F, t.vcap + 1, t.hcap, t.ecap, t.lcap, t.fcap)
  }

  /** The table after `make_edge` inserts the twin pair `ha` (from `v1`) and `hb` (from `v2`) of edge `e`. */
  function WithTwinPair(H: HalfEdges, v1: VertexId, v2: VertexId, ha: HalfEdgeId, hb: HalfEdgeId, e: EdgeId): HalfEdges {
    H[ha := HalfEdge(v1, Some(hb), None, None, None, Some(e), None)]
     [hb := HalfEdge(v2, Some(ha), None, None, None, Some(e), None)]
  }

  /** Points `v` at outgoing half-edge `h` unless it already has one. */
  function SetOutgoing(V: Vertices, v: VertexId, h: HalfEdgeId): (r: Vertices)
    requires v in V
    ensures r.Keys == V.Keys
  {
    if V[v].halfedge.None? then V[v := V[v].(halfedge := Some(h))] else V
  }

  /** A successful `make_edge(v1, v2)`: two new half-edges in the next two slots and a new edge. */
  function AddEdge(t: Tables, v1: VertexId, v2: VertexId): Tables
    requires v1 in t.V && v2 in t.V
  {
    var ha, hb, e := t.hcap, t.hcap + 1, t.ecap;
    Tables(SetOutgoing(SetOutgoing(t.V, v1, ha), v2, hb), WithTwinPair(t.H, v1, v2, ha, hb, e),
           t.E[e := Edge(ha, hb)], t.L, t.F, t.vcap, t.hcap + 2, t.ecap + 1, t.lcap, t.fcap)
  }

  /** `make_edge`: an unknown vertex fails with `NotFound` and changes nothing. */
  function MakeEdgeSpec(t: Tables, v1: VertexId, v2: VertexId): (Result<EdgeId>, Tables) {
    if v1 !in t.V || v2 !in t.V then (Err(NotFound), t) else (Ok(t.ecap), AddEdge(t, v1, v2))
  }

  /**
   * One vertex pair of `make_face`'s first phase: the half-edge it resolves to
   * (`None` on a conflict) and the tables afterwards.
   */
  ghost function ResolveStep(t: Tables, from: VertexId, to: VertexId): (Option<HalfEdgeId>, Tables)
    requires from in t.V && to in t.V
  {
    match Resolve(t.H, t.hcap, from, to)
    case Conflict => (None, t)
    case Reuse(h) => (Some(h), t)
    case Fresh => (Some(t.hcap), AddEdge(t, from, to))
  }

  /**
   * `make_face`'s first phase from pair `i` on, with `acc` the half-edges of
   * the earlier pairs: whether it stopped on a conflict, the half-edges
   * collected, and the tables afterwards.
   */
  ghost function CollectFrom(t: Tables, vs: seq<VertexId>, i: nat, acc: seq<HalfEdgeId>): (r: (bool, seq<HalfEdgeId>, Tables))
    requires i <= |vs| && forall j :: 0 <= j < |vs| ==> vs[j] in t.V
    ensures r.2.V.Keys == t.V.Keys && |r.1| <= |acc| + (|vs| - i) && (!r.0 ==> |r.1| == |acc| + (|vs| - i))
    decreases |vs| - i
  {
    if i == |vs| then (false, acc, t)
    else
      var (res, t') := ResolveStep(t, vs[i], vs[Succ(i, |vs|)]);
      if res.None? then (true, acc, t)
      else CollectFrom(t', vs, i + 1, acc + [res.value])
  }

  /**
   * The half-edge table after the linking loop of `make_face` has handled
   * positions `0..k-1` of `fhs`. A handle missing from the table is passed
   * over; the first phase never collects one (`CollectFacts`).
   */
  function Linked(H: HalfEdges, fhs: seq<HalfEdgeId>, f: FaceId, l: LoopId, k: nat): (r: HalfEdges)
    requires k <= |fhs|
    ensures r.Keys == H.Keys
  {
    if k == 0 then H
    else
      var H' := Linked(H, fhs, f, l, k - 1);
      var he := fhs[k - 1];
      if he !in H' then H'
      else H'[he := H'[he].(next := Some(fhs[Succ(k - 1, |fhs|)]), prev := Some(fhs[Pred(k - 1, |fhs|)]),
                            face := Some(f), loopId := Some(l))]
  }

  /**
   * `make_face`: the result, the tables afterwards, and the half-edges the
   * first phase collected.
   */
  ghost function MakeFaceSpec(t: Tables, vs: seq<VertexId>): (Result<FaceId>, Tables, seq<HalfEdgeId>)
    requires TablesWF(t)
  {
    if |vs| < 3 then (Err(Topology), t, [])
    else if exists i :: 0 <= i < |vs| && vs[i] !in t.V then (Err(NotFound), t, [])
    else
      var (conflict, fhs, t1) := CollectFrom(t, vs, 0, []);
      if conflict then (Err(Topology), t1, fhs)
      else (Ok(t1.fcap), FaceAdded(t1, fhs), fhs)
  }

  /**
   * `make_face`'s second phase: a loop starting at the first collected
   * half-edge and a face owning it take the next slots, and the linking loop
   * chains the collected half-edges.
   */
  ghost function FaceAdded(t1: Tables, fhs: seq<HalfEdgeId>): Tables
    requires |fhs| > 0
  {
    var l, f := t1.lcap, t1.fcap;
    Tables(t1.V, Linked(t1.H, fhs, f, l, |fhs|), t1.E, t1.L[l := Loop(fhs[0], Some(f))],
           t1.F[f := Face(l, [], false)], t1.vcap, t1.hcap, t1.ecap, l + 1, f + 1)
  }

  // ----- The mesh -----

  class Mesh {
    var vertices: Vertices
    var halfedges: HalfEdges
    var edges: Edges
    var loops: Loops
    var faces: Faces

    /** Slots handed out so far by each table. */
    var vertexSlots: nat
    var halfedgeSlots: nat
    var edgeSlots: nat
    var loopSlots: nat
    var faceSlots: nat

    /** For each face, the half-edges of its outer loop in `next` order. */
    ghost var cycles: Cycles

    ghost function Snapshot(): Tables
      reads this
    {
      Tables(vertices, halfedges, edges, loops, faces, vertexSlots, halfedgeSlots, edgeSlots, loopSlots, faceSlots)
    }

    ghost predicate WellFormed()
      reads this
    {
      TablesWF(Snapshot())
    }

    ghost predicate Built()
      reads this
    {
      Valid(Snapshot(), cycles)
    }

    constructor ()
      ensures Built()
      ensures Snapshot() == Tables(map[], map[], map[], map[], map[], 0, 0, 0, 0, 0) && cycles == map[]
    {
      vertices, halfedges, edges, loops, faces := map[], map[], map[], map[], map[];
      vertexSlots, halfedgeSlots, edgeSlots, loopSlots, faceSlots := 0, 0, 0, 0, 0;
      cycles := map[];
    }

    method AddVertex(position: Vec3) returns (v: VertexId)
      requires WellFormed()
      modifies this
      ensures v == old(vertexSlots) && Snapshot() == AddVertexSpec(old(Snapshot()), position)
      ensures cycles == old(cycles)
      ensures WellFormed() && (old(Built()) ==> Built())
    {
      v := vertexSlots;
      vertices := vertices[v := Vertex(position, None)];
      vertexSlots := vertexSlots + 1;
      AddVertexKeepsValid(old(Snapshot()), cycles, position);
    }

    /**
     * `make_edge`: an unknown vertex fails with `NotFound` and changes nothing;
     * otherwise two twin half-edges and their edge take the next slots, and
     * each endpoint without an outgoing half-edge gets the one leaving it.
     */
    method MakeEdge(v1: VertexId, v2: VertexId) returns (r: Result<EdgeId>)
      requires WellFormed()
      modifies this
      ensures (r, Snapshot()) == MakeEdgeSpec(old(Snapshot()), v1, v2)
      ensures cycles == old(cycles)
      ensures WellFormed() && (old(Built()) && v1 != v2 ==> Built())
    {
      if v1 !in vertices || v2 !in vertices {
        return Err(NotFound);
      }
      ghost var t0 := Snapshot();
      var ha, hb := InsertTwins(v1, v2);
      var e := InsertEdge(ha, hb);
      SetOutgoingIfNone(v1, ha);
      SetOutgoingIfNone(v2, hb);
      r := Ok(e);
      assert halfedges == WithTwinPair(t0.H, v1, v2, ha, hb, e);
      assert Snapshot() == AddEdge(t0, v1, v2);
      assert WellFormed() by {
        AddEdgeWF(t0, v1, v2);
      }
      if old(Built()) && v1 != v2 {
        AddEdgeBuilt(t0, old(cycles), v1, v2, Snapshot(), cycles);
      }
    }

    /** The two half-edge inserts of `make_edge` and the twin fix-up: each new half-edge is the other's twin. */
    method InsertTwins(v1: VertexId, v2: VertexId) returns (ha: HalfEdgeId, hb: HalfEdgeId)
      modifies this`halfedges, this`halfedgeSlots
      ensures ha == old(halfedgeSlots) && hb == ha + 1 && halfedgeSlots == old(halfedgeSlots) + 2
      ensures halfedges == old(halfedges)[ha := HalfEdge(v1, Some(hb), None, None, None, None, None)]
                                         [hb := HalfEdge(v2, Some(ha), None, None, None, None, None)]
    {
      ha := halfedgeSlots;
      halfedges := halfedges[ha := HalfEdge(v1, None, None, None, None, None, None)];
      hb := halfedgeSlots + 1;
      halfedges := halfedges[hb := HalfEdge(v2, Some(ha), None, None, None, None, None)];
      halfedgeSlots := halfedgeSlots + 2;
      halfedges := halfedges[ha := halfedges[ha].(twin := Some(hb))];
    }

    /** The edge insert of `make_edge`: the edge lists both half-edges, and both point back to it. */
    method InsertEdge(ha: HalfEdgeId, hb: HalfEdgeId) returns (e: EdgeId)
      requires ha in halfedges && hb in halfedges && ha != hb
      modifies this`edges, this`edgeSlots, this`halfedges
      ensures e == old(edgeSlots) && edgeSlots == e + 1 && edges == old(edges)[e := Edge(ha, hb)]
      ensures halfedges == old(halfedges)[ha := old(halfedges)[ha].(edge := Some(e))]
                                         [hb := old(halfedges)[hb].(edge := Some(e))]
    {
      e := edgeSlots;
      edges := edges[e := Edge(ha, hb)];
      edgeSlots := edgeSlots + 1;
      halfedges := halfedges[ha := halfedges[ha].(edge := Some(e))];
      halfedges := halfedges[hb := halfedges[hb].(edge := Some(e))];
    }

    /** Gives `v` the outgoing half-edge `h` when it has none yet. */
    method SetOutgoingIfNone(v: VertexId, h: HalfEdgeId)
      requires v in vertices
      modifies this`vertices
      ensures vertices == SetOutgoing(old(vertices), v, h)
    {
      if vertices[v].halfedge.None? {
        vertices := vertices[v := vertices[v].(halfedge := Some(h))];
      }
    }

    /**
     * `find_halfedge`: scans the half-edge table in slot order for the first
     * half-edge that starts at `origin` and whose twin starts at `target`.
     */
    method FindHalfEdge(origin: VertexId, target: VertexId) returns (r: Option<HalfEdgeId>)
      requires WellFormed()
      ensures r == FirstRun(halfedges, origin, target, halfedgeSlots)
      ensures r.Some? ==> Runs(halfedges, r.value, origin, target)
      ensures r.None? ==> forall h {:trigger Runs(halfedges, h, origin, target)} :: h in halfedges ==> !Runs(halfedges, h, origin, target)
    {
      var k := 0;
      while k < halfedgeSlots
        invariant k <= halfedgeSlots
        invariant FirstRunFrom(halfedges, origin, target, k, halfedgeSlots) == FirstRun(halfedges, origin, target, halfedgeSlots)
      {
        if k in halfedges && halfedges[k].origin == origin {
          match halfedges[k].twin {
            case Some(t) =>
              if halfedges[t].origin == target {
                return Some(k);
              }
            case None =>
          }
        }
        k := k + 1;
      }
      return None;
    }

    /**
     * The body of `make_face`'s first loop for one vertex pair: the faceless
     * half-edge that already runs from `from` to `to`, else the faceless twin
     * of one that runs back, else the first half-edge of a new edge; `None`
     * when the half-edge found already has a face.
     */
    method ResolvePair(from: VertexId, to: VertexId) returns (res: Option<HalfEdgeId>)
      requires WellFormed() && from in vertices && to in vertices
      modifies this
      ensures (res, Snapshot()) == ResolveStep(old(Snapshot()), from, to)
      ensures cycles == old(cycles)
      ensures WellFormed()
    {
      ghost var t0 := Snapshot();
      var existing := FindHalfEdge(from, to);
      if existing.Some? {
        var h := existing.value;
        if halfedges[h].face.Some? {
          return None;
        }
        return Some(h);
      }
      var reverse := FindHalfEdge(to, from);
      if reverse.Some? {
        // find_halfedge only reports half-edges whose twin exists, so the
        // "twin is missing" error of make_face cannot arise here.
        var twin := halfedges[reverse.value].twin.value;
        if halfedges[twin].face.Some? {
          return None;
        }
        return Some(twin);
      }
      var made := MakeEdge(from, to);
      res := Some(edges[made.value].halfedgeA);
    }

    /**
     * The first phase of `make_face`: resolves each directed pair of `vs` in
     * turn, stopping at the first pair whose half-edge already has a face.
     */
    method CollectFaceHalfEdges(vs: seq<VertexId>) returns (conflict: bool, fhs: seq<HalfEdgeId>)
      requires WellFormed()
      requires forall i :: 0 <= i < |vs| ==> vs[i] in vertices
      modifies this
      ensures (conflict, fhs, Snapshot()) == CollectFrom(old(Snapshot()), vs, 0, [])
      ensures cycles == old(cycles)
      ensures WellFormed()
    {
      var n := |vs|;
      ghost var t0 := Snapshot();
      fhs := [];
      var i := 0;
      while i < n
        invariant 0 <= i <= n
        invariant WellFormed() && cycles == old(cycles)
        invariant forall j :: 0 <= j < n ==> vs[j] in vertices
        invariant CollectFrom(Snapshot(), vs, i, fhs) == CollectFrom(t0, vs, 0, [])
      {
        var vFrom := vs[i];
        SuccPredMod(i, n);
        var vTo := vs[(i + 1) % n];
        var res := ResolvePair(vFrom, vTo);
        if res.None? {
          return true, fhs;
        }
        fhs := fhs + [res.value];
        i := i + 1;
      }
      conflict := false;
    }

    /** The linking loop of `make_face`: ties `fhs` into a `next`/`prev` ring of face `f` and loop `l`. */
    method LinkLoop(fhs: seq<HalfEdgeId>, f: FaceId, l: LoopId)
      requires |fhs| > 0 && forall j :: 0 <= j < |fhs| ==> fhs[j] in halfedges
      modifies this`halfedges
      ensures halfedges == Linked(old(halfedges), fhs, f, l, |fhs|)
    {
      var n := |fhs|;
      var i := 0;
      while i < n
        invariant 0 <= i <= n
        invariant halfedges == Linked(old(halfedges), fhs, f, l, i)
      {
        var he := fhs[i];
        SuccPredMod(i, n);
        var nextHe := fhs[(i + 1) % n];
        var prevHe := fhs[(n + i - 1) % n];
        ghost var H := halfedges;
        halfedges := halfedges[he := halfedges[he].(next := Some(nextHe))];
        halfedges := halfedges[he := halfedges[he].(prev := Some(prevHe))];
        halfedges := halfedges[he := halfedges[he].(face := Some(f))];
        halfedges := halfedges[he := halfedges[he].(loopId := Some(l))];
        assert halfedges == H[he := H[he].(next := Some(nextHe), prev := Some(prevHe), face := Some(f), loopId := Some(l))];
        i := i + 1;
      }
    }

    /**
     * The second phase of `make_face`: a loop at the first collected half-edge
     * and a face owning it take the next slots, and the collected half-edges
     * are linked into the face's ring.
     */
    method AddFaceRing(fhs: seq<HalfEdgeId>) returns (f: FaceId)
      requires |fhs| > 0 && forall j :: 0 <= j < |fhs| ==> fhs[j] in halfedges
      modifies this
      ensures f == old(faceSlots) && cycles == old(cycles)[f := fhs]
      ensures Snapshot() == FaceAdded(old(Snapshot()), fhs)
    {
      ghost var t1 := Snapshot();
      var l;
      l, f := InsertLoopFace(fhs[0]);
      cycles := cycles[f := fhs];
      LinkLoop(fhs, f, l);
      FaceAddedFields(t1, fhs);
    }

    /** A loop starting at `h` and a face owning it take the next slots of their tables. */
    method InsertLoopFace(h: HalfEdgeId) returns (l: LoopId, f: FaceId)
      modifies this`loops, this`loopSlots, this`faces, this`faceSlots
      ensures l == old(loopSlots) && f == old(faceSlots)
      ensures loopSlots == l + 1 && faceSlots == f + 1
      ensures loops == old(loops)[l := Loop(h, Some(f))] && faces == old(faces)[f := Face(l, [], false)]
    {
      l := loopSlots;
      loops := loops[l := Loop(h, None)];
      loopSlots := loopSlots + 1;
      f := faceSlots;
      faces := faces[f := Face(l, [], false)];
      faceSlots := faceSlots + 1;
      loops := loops[l := loops[l].(face := Some(f))];
    }

    /**
     * `make_face`: fewer than three vertices or an unknown vertex fail before
     * anything changes; a pair whose half-edge already has a face fails after
     * the edges made for the earlier pairs; otherwise a new face and outer loop
     * own the ring of the collected half-edges.
     */
    method MakeFace(vs: seq<VertexId>) returns (r: Result<FaceId>, ghost hs: seq<HalfEdgeId>)
      requires WellFormed()
      modifies this
      ensures (r, Snapshot(), hs) == MakeFaceSpec(old(Snapshot()), vs)
      ensures cycles == if r.Ok? then old(cycles)[r.value := hs] else old(cycles)
      ensures WellFormed() && (old(Built()) && Distinct(vs) ==> Built())
    {
      ghost var t0 := Snapshot();
      hs := [];
      var n := |vs|;
      if n < 3 {
        return Err(Topology), hs;
      }
      var k := 0;
      while k < n
        invariant 0 <= k <= n
        invariant forall j :: 0 <= j < k ==> vs[j] in vertices
      {
        if vs[k] !in vertices {
          return Err(NotFound), hs;
        }
        k := k + 1;
      }
      var conflict, fhs := CollectFaceHalfEdges(vs);
      ghost var t1 := Snapshot();
      hs := fhs;
      MakeFaceSplits(t0, vs);
      if conflict {
        r := Err(Topology);
        assert (r, Snapshot(), hs) == MakeFaceSpec(t0, vs);
      } else {
        var f := AddFaceRing(fhs);
        r := Ok(f);
        assert (r, Snapshot(), hs) == MakeFaceSpec(t0, vs);
        assert WellFormed() by {
          LinkedFrame(t1.H, fhs, t1.fcap, t1.lcap, |fhs|);
          FaceAddedWF(t1, fhs);
        }
      }
      if old(Built()) && Distinct(vs) {
        MakeFaceBuilt(t0, old(cycles), vs, r, Snapshot(), hs, cycles);
      }
    }

    /** `make_triangle`: `make_face` on three vertices. */
    method MakeTriangle(v1: VertexId, v2: VertexId, v3: VertexId) returns (r: Result<FaceId>, ghost hs: seq<HalfEdgeId>)
      requires WellFormed()
      modifies this
      ensures (r, Snapshot(), hs) == MakeFaceSpec(old(Snapshot()), [v1, v2, v3])
      ensures cycles == if r.Ok? then old(cycles)[r.value := hs] else old(cycles)
      ensures WellFormed() && (old(Built()) && Distinct([v1, v2, v3]) ==> Built())
    {
      r, hs := MakeFace([v1, v2, v3]);
    }

    /** `halfedge_target`: the origin of the half-edge's twin, if both exist. */
    function HalfedgeTarget(h: HalfEdgeId): (r: Option<VertexId>)
      reads this
      ensures r.Some? <==> h in halfedges && halfedges[h].twin.Some? && halfedges[h].twin.value in halfedges
      ensures r.Some? ==> Runs(halfedges, h, halfedges[h].origin, r.value)
    {
      if h !in halfedges then None
      else match halfedges[h].twin
        case None => None
        case Some(t) => if t in halfedges then Some(halfedges[t].origin) else None
    }

    /** `edge_faces`: the faces of the edge's two half-edges, or `(None, None)` for an unknown edge. */
    function EdgeFaces(e: EdgeId): (r: (Option<FaceId>, Option<FaceId>))
      reads this
      ensures e !in edges ==> r == (None, None)
      ensures e in edges && edges[e].halfedgeA in halfedges ==> r.0 == halfedges[edges[e].halfedgeA].face
      ensures e in edges && edges[e].halfedgeB in halfedges ==> r.1 == halfedges[edges[e].halfedgeB].face
      ensures e in edges && edges[e].halfedgeA !in halfedges ==> r.0.None?
      ensures e in edges && edges[e].halfedgeB !in halfedges ==> r.1.None?
    {
      if e !in edges then (None, None)
      else
        var a := edges[e].halfedgeA;
        var b := edges[e].halfedgeB;
        (if a in halfedges then halfedges[a].face else None,
         if b in halfedges then halfedges[b].face else None)
    }
  }

  // ----- add_vertex and make_edge -----

  /** `add_vertex` keeps well-formedness and the construction invariant. */
  lemma AddVertexKeepsValid(t: Tables, C: Cycles, position: Vec3)
    requires TablesWF(t)
    ensures TablesWF(AddVertexSpec(t, position))
    ensures Valid(t, C) ==> Valid(AddVertexSpec(t, position), C)
  {
    var t' := AddVertexSpec(t, position);
    var V' := t.V[t.vcap := Vertex(position, None)];
    assert t'.V == V' && t'.H == t.H && t'.E == t.E && t'.L == t.L && t'.F == t.F;
    assert TablesWF(t') by {
      assert SlotsBounded(t);
    }
    if Valid(t, C) {
      assert TwinsPaired(V', t.H, t.E) by {
        forall h | h in t.H ensures TwinOk(V', t.H, t.E, h) {
          assert TwinOk(t.V, t.H, t.E, h);
        }
      }
      assert OutgoingStartsHere(V', t.H) by {
        assert OutgoingStartsHere(t.V, t.H);
      }
      assert BuiltTables(t'.V, t'.H, t'.E, t'.L, t'.F, C);
    }
  }

  /**
   * `make_edge` adds exactly two half-edges and one edge: the half-edges start
   * at `v1` and `v2`, are each other's twins, point to the new edge and are
   * linked to nothing else; a vertex gets an outgoing half-edge only if it had
   * none; every other record is kept.
   */
  lemma AddEdgeFacts(t: Tables, v1: VertexId, v2: VertexId)
    requires TablesWF(t) && v1 in t.V && v2 in t.V
    ensures var t' := AddEdge(t, v1, v2);
      var ha, hb, e := t.hcap, t.hcap + 1, t.ecap;
      ha !in t.H && hb !in t.H && e !in t.E &&
      |t'.H| == |t.H| + 2 && |t'.E| == |t.E| + 1 && t'.E == t.E[e := Edge(ha, hb)] &&
      t'.H[ha] == HalfEdge(v1, Some(hb), None, None, None, Some(e), None) &&
      t'.H[hb] == HalfEdge(v2, Some(ha), None, None, None, Some(e), None) &&
      Extends(t.H, t'.H) && (forall h :: h in t'.H ==> h in t.H || h == ha || h == hb) &&
      (t.V[v1].halfedge.None? ==> t'.V[v1].halfedge == Some(ha)) &&
      (v1 != v2 && t.V[v2].halfedge.None? ==> t'.V[v2].halfedge == Some(hb)) &&
      forall v :: v in t.V ==>
        v in t'.V && t'.V[v].position == t.V[v].position && (t.V[v].halfedge.Some? ==> t'.V[v] == t.V[v])
  {
    TwinPairGrows(t.H, v1, v2, t.hcap, t.hcap + 1, t.ecap);
  }

  /** A successful `make_edge` adds two half-edges and one edge. */
  lemma AddEdgeCounts(t: Tables, v1: VertexId, v2: VertexId)
    requires TablesWF(t) && v1 in t.V && v2 in t.V
    ensures |AddEdge(t, v1, v2).H| == |t.H| + 2 && |AddEdge(t, v1, v2).E| == |t.E| + 1
  {
    TwinPairGrows(t.H, v1, v2, t.hcap, t.hcap + 1, t.ecap);
    assert t.ecap !in t.E;
  }

  /** The twin pair inserted by `make_edge` adds exactly two half-edges and keeps every other one. */
  lemma TwinPairGrows(H: HalfEdges, v1: VertexId, v2: VertexId, ha: HalfEdgeId, hb: HalfEdgeId, e: EdgeId)
    requires ha !in H && hb !in H && ha != hb
    ensures var H' := WithTwinPair(H, v1, v2, ha, hb, e);
      |H'| == |H| + 2 && Extends(H, H') && (forall h :: h in H' ==> h in H || h == ha || h == hb)
  {
    var H' := WithTwinPair(H, v1, v2, ha, hb, e);
    assert H'.Keys == H.Keys + {ha, hb};
  }

  /** The two half-edges `make_edge` inserts run between `v1` and `v2`, one each way, and are linked to nothing. */
  lemma TwinPairRuns(H: HalfEdges, v1: VertexId, v2: VertexId, ha: HalfEdgeId, hb: HalfEdgeId, e: EdgeId)
    requires ha != hb
    ensures var H' := WithTwinPair(H, v1, v2, ha, hb, e);
      Runs(H', ha, v1, v2) && Runs(H', hb, v2, v1) &&
      Unlinked(H'[ha]) && Unlinked(H'[hb]) && Joins(H', ha, v1, v2) && Joins(H', hb, v1, v2)
  {
  }

  /** `make_edge` keeps handles below the slot counts and twin references resolvable. */
  lemma AddEdgeWF(t: Tables, v1: VertexId, v2: VertexId)
    requires TablesWF(t) && v1 in t.V && v2 in t.V
    ensures TablesWF(AddEdge(t, v1, v2))
  {
    var H' := WithTwinPair(t.H, v1, v2, t.hcap, t.hcap + 1, t.ecap);
    forall h | h in H' && H'[h].twin.Some? ensures H'[h].twin.value in H' {
      if h != t.hcap && h != t.hcap + 1 {
        assert H'[h] == t.H[h];
      }
    }
  }

  /** `make_edge` between two different vertices keeps the construction invariant. */
  lemma AddEdgeKeepsValid(t: Tables, C: Cycles, v1: VertexId, v2: VertexId)
    requires Valid(t, C) && v1 in t.V && v2 in t.V && v1 != v2
    ensures Valid(AddEdge(t, v1, v2), C)
  {
    var ha, hb, e := t.hcap, t.hcap + 1, t.ecap;
    var t' := AddEdge(t, v1, v2);
    var V', H', E' := SetOutgoing(SetOutgoing(t.V, v1, ha), v2, hb), WithTwinPair(t.H, v1, v2, ha, hb, e), t.E[e := Edge(ha, hb)];
    assert t'.V == V' && t'.H == H' && t'.E == E' && t'.L == t.L && t'.F == t.F;
    assert TablesWF(t') by { AddEdgeWF(t, v1, v2); }
    assert TwinsPaired(t'.V, t'.H, t'.E) by { PairKeepsTwins(t.V, t.H, t.E, V', v1, v2, ha, hb, e); }
    assert EdgesPaired(t'.H, t'.E) by { PairKeepsEdges(t.H, t.E, v1, v2, ha, hb, e); }
    assert OutgoingStartsHere(t'.V, t'.H) by { PairKeepsOutgoing(t.V, t.H, v1, v2, ha, hb, e); }
    assert FacesClosed(t'.H, t'.L, t'.F, C) && FacedOnCycle(t'.H, C) by { PairKeepsFaces(t.H, t.L, t.F, C, v1, v2, ha, hb, e); }
  }

  /** The invariant after `make_edge`, for a caller that holds the new tables and cycles as separate values. */
  lemma AddEdgeBuilt(t: Tables, C: Cycles, v1: VertexId, v2: VertexId, t': Tables, C': Cycles)
    requires Valid(t, C) && v1 in t.V && v2 in t.V && v1 != v2
    requires t' == AddEdge(t, v1, v2) && C' == C
    ensures Valid(t', C')
  {
    AddEdgeKeepsValid(t, C, v1, v2);
  }

  lemma PairKeepsFaces(H: HalfEdges, L: Loops, F: Faces, C: Cycles, v1: VertexId, v2: VertexId,
                       ha: HalfEdgeId, hb: HalfEdgeId, e: EdgeId)
    requires FacesClosed(H, L, F, C) && FacedOnCycle(H, C) && ha !in H && hb !in H && ha != hb
    ensures FacesClosed(WithTwinPair(H, v1, v2, ha, hb, e), L, F, C) && FacedOnCycle(WithTwinPair(H, v1, v2, ha, hb, e), C)
  {
    TwinPairGrows(H, v1, v2, ha, hb, e);
    GrowKeepsFaces(H, WithTwinPair(H, v1, v2, ha, hb, e), L, F, C);
  }

  lemma PairKeepsTwins(V: Vertices, H: HalfEdges, E: Edges, V2: Vertices, v1: VertexId, v2: VertexId,
                       ha: HalfEdgeId, hb: HalfEdgeId, e: EdgeId)
    requires TwinsPaired(V, H, E) && v1 in V && v2 in V && v1 != v2
    requires ha !in H && hb !in H && ha != hb && e !in E && V2.Keys == V.Keys
    ensures TwinsPaired(V2, WithTwinPair(H, v1, v2, ha, hb, e), E[e := Edge(ha, hb)])
  {
    var H', E' := WithTwinPair(H, v1, v2, ha, hb, e), E[e := Edge(ha, hb)];
    forall h | h in H' ensures TwinOk(V2, H', E', h) {
      if h != ha && h != hb {
        assert TwinOk(V, H, E, h);
      }
    }
  }

  lemma PairKeepsEdges(H: HalfEdges, E: Edges, v1: VertexId, v2: VertexId, ha: HalfEdgeId, hb: HalfEdgeId, e: EdgeId)
    requires EdgesPaired(H, E) && ha !in H && hb !in H && ha != hb && e !in E
    ensures EdgesPaired(WithTwinPair(H, v1, v2, ha, hb, e), E[e := Edge(ha, hb)])
  {
    var H', E' := WithTwinPair(H, v1, v2, ha, hb, e), E[e := Edge(ha, hb)];
    forall d | d in E' ensures EdgeOk(H', E', d) {
      if d != e {
        assert EdgeOk(H, E, d);
      }
    }
  }

  lemma PairKeepsOutgoing(V: Vertices, H: HalfEdges, v1: VertexId, v2: VertexId, ha: HalfEdgeId, hb: HalfEdgeId, e: EdgeId)
    requires OutgoingStartsHere(V, H) && v1 in V && v2 in V && ha !in H && hb !in H && ha != hb
    ensures OutgoingStartsHere(SetOutgoing(SetOutgoing(V, v1, ha), v2, hb), WithTwinPair(H, v1, v2, ha, hb, e))
  {
  }

  /** A ring survives any change that keeps the records of its half-edges. */
  lemma RingFrame(H0: HalfEdges, H: HalfEdges, c: seq<HalfEdgeId>, f: FaceId, l: LoopId)
    requires IsRing(H0, c, f, l)
    requires forall i :: 0 <= i < |c| ==> c[i] in H0 && c[i] in H && H[c[i]] == H0[c[i]]
    ensures IsRing(H, c, f, l)
  {
    forall i | 0 <= i < |c| ensures RingLink(H, c, i, f, l) {
      assert RingLink(H0, c, i, f, l);
    }
  }

  /** Growing the half-edge table by faceless half-edges keeps every face closed. */
  lemma GrowKeepsFaces(H0: HalfEdges, H: HalfEdges, L: Loops, F: Faces, C: Cycles)
    requires FacesClosed(H0, L, F, C) && FacedOnCycle(H0, C)
    requires Extends(H0, H)
    requires forall h :: h in H && h !in H0 ==> H[h].face.None?
    ensures FacesClosed(H, L, F, C) && FacedOnCycle(H, C)
  {
    forall g | g in F ensures FaceClosed(H, L, F, C, g) {
      assert FaceClosed(H0, L, F, C, g);
      forall i | 0 <= i < |C[g]| ensures C[g][i] in H0 && C[g][i] in H && H[C[g][i]] == H0[C[g][i]] {
        assert RingLink(H0, C[g], i, g, F[g].outerLoop);
      }
      RingFrame(H0, H, C[g], g, F[g].outerLoop);
    }
  }

  // ----- make_face's first phase -----

  /**
   * One pair: the half-edge it resolves to starts at `from` and has no face;
   * old records are kept, and any new half-edge is unlinked, lies at or above
   * the old slot count and joins `from` and `to`.
   */
  lemma ResolveStepFacts(t: Tables, from: VertexId, to: VertexId)
    requires TablesWF(t) && from in t.V && to in t.V
    ensures var (res, t') := ResolveStep(t, from, to);
      TablesWF(t') && t'.V.Keys == t.V.Keys && t'.L == t.L && t'.F == t.F && t'.lcap == t.lcap && t'.fcap == t.fcap &&
      t.hcap <= t'.hcap && Extends(t.H, t'.H) &&
      (forall h :: h in t'.H && h !in t.H ==> t.hcap <= h && Unlinked(t'.H[h])) &&
      (forall h {:trigger Joins(t'.H, h, from, to)} :: h in t'.H && h !in t.H ==> Joins(t'.H, h, from, to)) &&
      (res.Some? ==> res.value in t'.H && t'.H[res.value].origin == from && t'.H[res.value].face.None?) &&
      (res.None? ==> t' == t)
  {
    var r := Resolve(t.H, t.hcap, from, to);
    if r.Fresh? {
      AddEdgeWF(t, from, to);
      TwinPairGrows(t.H, from, to, t.hcap, t.hcap + 1, t.ecap);
      TwinPairRuns(t.H, from, to, t.hcap, t.hcap + 1, t.ecap);
    }
  }

  /** With the invariant and `from != to`, a pair keeps the invariant and resolves to a half-edge that runs from `from` to `to`. */
  lemma ResolveStepKeepsValid(t: Tables, C: Cycles, from: VertexId, to: VertexId)
    requires Valid(t, C) && from in t.V && to in t.V && from != to
    ensures var (res, t') := ResolveStep(t, from, to);
      Valid(t', C) && (res.Some? ==> Runs(t'.H, res.value, from, to))
  {
    match Resolve(t.H, t.hcap, from, to)
    case Fresh =>
      TwinPairRuns(t.H, from, to, t.hcap, t.hcap + 1, t.ecap);
      AddEdgeKeepsValid(t, C, from, to);
    case Reuse(h) =>
      if FirstRun(t.H, from, to, t.hcap).None? {
        var rev := FirstRun(t.H, to, from, t.hcap).value;
        assert TwinOk(t.V, t.H, t.E, rev);
      }
    case Conflict =>
  }

  /** The first phase keeps every old record and only adds unlinked half-edges above the old slot count. */
  lemma {:induction false} CollectGrows(t: Tables, vs: seq<VertexId>, i: nat, acc: seq<HalfEdgeId>)
    requires TablesWF(t) && i <= |vs| && forall j :: 0 <= j < |vs| ==> vs[j] in t.V
    ensures var (_, _, t') := CollectFrom(t, vs, i, acc);
      TablesWF(t') && t'.L == t.L && t'.F == t.F && t'.lcap == t.lcap && t'.fcap == t.fcap &&
      t.hcap <= t'.hcap && Extends(t.H, t'.H) &&
      (forall h :: h in t'.H && h !in t.H ==> t.hcap <= h && Unlinked(t'.H[h]))
    decreases |vs| - i
  {
    if i < |vs| {
      var from, to := vs[i], vs[Succ(i, |vs|)];
      ResolveStepFacts(t, from, to);
      var (res, t1) := ResolveStep(t, from, to);
      if res.Some? {
        var acc1 := acc + [res.value];
        CollectGrows(t1, vs, i + 1, acc1);
        assert CollectFrom(t, vs, i, acc) == CollectFrom(t1, vs, i + 1, acc1);
      } else {
        assert CollectFrom(t, vs, i, acc) == (true, acc, t);
      }
    } else {
      assert CollectFrom(t, vs, i, acc) == (false, acc, t);
    }
  }

  /**
   * The first phase stops short of `|vs|` exactly on a conflict, and the
   * `j`-th collected half-edge starts at `vs[j]` and has no face.
   */
  lemma {:induction false} CollectFacts(t: Tables, vs: seq<VertexId>, i: nat, acc: seq<HalfEdgeId>)
    requires TablesWF(t) && i <= |vs| && |acc| == i && forall j :: 0 <= j < |vs| ==> vs[j] in t.V
    requires forall j :: 0 <= j < i ==> acc[j] in t.H && t.H[acc[j]].origin == vs[j] && t.H[acc[j]].face.None?
    ensures var (conflict, fhs, t') := CollectFrom(t, vs, i, acc);
      i <= |fhs| && (conflict ==> |fhs| < |vs|) && (!conflict ==> |fhs| == |vs|) &&
      forall j :: 0 <= j < |fhs| ==> fhs[j] in t'.H && t'.H[fhs[j]].origin == vs[j] && t'.H[fhs[j]].face.None?
    decreases |vs| - i
  {
    if i < |vs| {
      var from, to := vs[i], vs[Succ(i, |vs|)];
      var (res, t1) := ResolveStep(t, from, to);
      assert TablesWF(t1) && Extends(t.H, t1.H) && (res.None? ==> t1 == t) &&
        (res.Some? ==> res.value in t1.H && t1.H[res.value].origin == from && t1.H[res.value].face.None?) by {
        ResolveStepFacts(t, from, to);
      }
      if res.Some? {
        var acc1 := acc + [res.value];
        CollectFacts(t1, vs, i + 1, acc1);
        assert CollectFrom(t, vs, i, acc) == CollectFrom(t1, vs, i + 1, acc1);
      } else {
        assert CollectFrom(t, vs, i, acc) == (true, acc, t);
      }
    } else {
      assert CollectFrom(t, vs, i, acc) == (false, acc, t);
    }
  }

  /** Over distinct vertices the first phase keeps the construction invariant, and each collected half-edge runs along its pair. */
  lemma {:induction false} CollectKeepsValid(t: Tables, C: Cycles, vs: seq<VertexId>, i: nat, acc: seq<HalfEdgeId>)
    requires Valid(t, C) && Distinct(vs) && |vs| >= 3 && i <= |vs| && |acc| == i
    requires forall j :: 0 <= j < |vs| ==> vs[j] in t.V
    requires forall j :: 0 <= j < i ==> Runs(t.H, acc[j], vs[j], vs[Succ(j, |vs|)])
    ensures var (conflict, fhs, t') := CollectFrom(t, vs, i, acc);
      Valid(t', C) && forall j :: 0 <= j < |fhs| ==> Runs(t'.H, fhs[j], vs[j], vs[Succ(j, |vs|)])
    decreases |vs| - i
  {
    if i < |vs| {
      var from, to := vs[i], vs[Succ(i, |vs|)];
      var (res, t1) := ResolveStep(t, from, to);
      assert Valid(t1, C) && (res.Some? ==> Runs(t1.H, res.value, from, to)) by {
        ResolveStepKeepsValid(t, C, from, to);
      }
      if res.Some? {
        var acc1 := acc + [res.value];
        assert t1.V.Keys == t.V.Keys && Extends(t.H, t1.H) by {
          ResolveStepFacts(t, from, to);
        }
        forall j | 0 <= j <= i ensures Runs(t1.H, acc1[j], vs[j], vs[Succ(j, |vs|)]) {
          if j < i {
            assert Runs(t.H, acc[j], vs[j], vs[Succ(j, |vs|)]);
          }
        }
        CollectKeepsValid(t1, C, vs, i + 1, acc1);
        assert CollectFrom(t, vs, i, acc) == CollectFrom(t1, vs, i + 1, acc1);
      } else {
        assert CollectFrom(t, vs, i, acc) == (true, acc, t1);
      }
    } else {
      assert CollectFrom(t, vs, i, acc) == (false, acc, t);
    }
  }

  /**
   * The table `t` grew from `H0` (with slot count `cap0`) only by half-edges
   * above `cap0`, none of which joins a pair of `vs` from position `i` on.
   */
  ghost predicate GrownFrom(H0: HalfEdges, cap0: nat, t: Tables, vs: seq<VertexId>, i: nat) {
    TablesWF(t) && Distinct(vs) && |vs| >= 3 && i <= |vs| &&
    (forall j :: 0 <= j < |vs| ==> vs[j] in t.V) &&
    cap0 <= t.hcap && (forall k :: k in H0 ==> k < cap0) && Extends(H0, t.H) &&
    (forall k :: k in H0 && H0[k].twin.Some? ==> H0[k].twin.value in H0) &&
    (forall k :: k in t.H && k !in H0 ==> cap0 <= k) &&
    (forall k :: k in t.H && k !in H0 ==>
      forall j {:trigger Joins(t.H, k, vs[j], vs[Succ(j, |vs|)])} :: i <= j < |vs| ==> !Joins(t.H, k, vs[j], vs[Succ(j, |vs|)]))
  }

  /**
   * The first phase has handled pairs `0..i-1` of `vs` against the table `H0`
   * (with slot count `cap0`, edges `E0`) it started from: the table grew as
   * `GrownFrom` says, `acc` is what those pairs resolved to, and each `Fresh`
   * one added an edge and two half-edges.
   */
  ghost predicate ResolvingFrom(H0: HalfEdges, E0: Edges, cap0: nat, t: Tables, vs: seq<VertexId>, i: nat, acc: seq<HalfEdgeId>) {
    GrownFrom(H0, cap0, t, vs, i) &&
    |acc| == i && ResolvedAs(H0, cap0, vs, acc) &&
    |t.E| == |E0| + FreshCount(H0, cap0, vs, i) && |t.H| == |H0| + 2 * FreshCount(H0, cap0, vs, i)
  }

  /** Pair `i` resolves as it would have against `H0`, and the table it leaves has grown the same way. */
  lemma GrowingStep(H0: HalfEdges, cap0: nat, t: Tables, vs: seq<VertexId>, i: nat)
    requires GrownFrom(H0, cap0, t, vs, i) && i < |vs|
    ensures Resolve(t.H, t.hcap, vs[i], vs[Succ(i, |vs|)]) == ResolveAt(H0, cap0, vs, i)
    ensures var (res, t1) := ResolveStep(t, vs[i], vs[Succ(i, |vs|)]);
      res.Some? ==> GrownFrom(H0, cap0, t1, vs, i + 1)
  {
    var from, to := vs[i], vs[Succ(i, |vs|)];
    assert Resolve(t.H, t.hcap, from, to) == ResolveAt(H0, cap0, vs, i) by {
      ResolveStable(H0, cap0, t.H, t.hcap, from, to);
    }
    var (res, t1) := ResolveStep(t, from, to);
    if res.Some? {
      assert TablesWF(t1) && t1.V.Keys == t.V.Keys && t.hcap <= t1.hcap && Extends(t.H, t1.H) &&
        (forall k :: k in t1.H && k !in t.H ==> t.hcap <= k) &&
        (forall k {:trigger Joins(t1.H, k, from, to)} :: k in t1.H && k !in t.H ==> Joins(t1.H, k, from, to)) by {
        ResolveStepFacts(t, from, to);
      }
      forall k | k in t1.H && k !in H0
        ensures forall j {:trigger Joins(t1.H, k, vs[j], vs[Succ(j, |vs|)])} :: i + 1 <= j < |vs| ==> !Joins(t1.H, k, vs[j], vs[Succ(j, |vs|)])
      {
        forall j | i + 1 <= j < |vs| ensures !Joins(t1.H, k, vs[j], vs[Succ(j, |vs|)]) {
          if k in t.H {
            assert Joins(t1.H, k, vs[j], vs[Succ(j, |vs|)]) == Joins(t.H, k, vs[j], vs[Succ(j, |vs|)]);
          } else {
            assert Joins(t1.H, k, from, to);
            PairsDiffer(vs, i, j);
          }
        }
      }
    }
  }

  /** A half-edge that matches what the next pair resolves to extends a resolved prefix. */
  lemma ResolvedAsExtend(H: HalfEdges, cap: nat, vs: seq<VertexId>, hs: seq<HalfEdgeId>, x: HalfEdgeId)
    requires ResolvedAs(H, cap, vs, hs) && |hs| < |vs|
    requires match ResolveAt(H, cap, vs, |hs|)
      case Reuse(h) => x == h
      case Fresh => x !in H
      case Conflict => false
    ensures ResolvedAs(H, cap, vs, hs + [x])
  {
    var hs' := hs + [x];
    forall j | 0 <= j < |hs| ensures hs'[j] == hs[j] {}
  }

  /** One pair of the first phase: a conflict is a `Conflict` pair, and otherwise the next pair is handled the same way. */
  lemma ResolvingStep(H0: HalfEdges, E0: Edges, cap0: nat, t: Tables, vs: seq<VertexId>, i: nat, acc: seq<HalfEdgeId>)
    requires ResolvingFrom(H0, E0, cap0, t, vs, i, acc) && i < |vs|
    ensures var (res, t1) := ResolveStep(t, vs[i], vs[Succ(i, |vs|)]);
      (res.None? ==> ResolveAt(H0, cap0, vs, i).Conflict?) &&
      (res.Some? ==> ResolvingFrom(H0, E0, cap0, t1, vs, i + 1, acc + [res.value]))
  {
    var from, to := vs[i], vs[Succ(i, |vs|)];
    GrowingStep(H0, cap0, t, vs, i);
    var (res, t1) := ResolveStep(t, from, to);
    if res.Some? {
      var acc1 := acc + [res.value];
      assert ResolvedAs(H0, cap0, vs, acc1) by {
        assert match ResolveAt(H0, cap0, vs, i)
          case Reuse(h) => res.value == h
          case Fresh => res.value !in H0
          case Conflict => false;
        ResolvedAsExtend(H0, cap0, vs, acc, res.value);
      }
      assert |t1.E| == |E0| + FreshCount(H0, cap0, vs, i + 1) && |t1.H| == |H0| + 2 * FreshCount(H0, cap0, vs, i + 1) by {
        if ResolveAt(H0, cap0, vs, i).Fresh? {
          AddEdgeCounts(t, from, to);
        }
      }
    }
  }

  /**
   * Over distinct vertices, the first phase resolves every pair against the
   * table as it was before `make_face` began: edges made for earlier pairs
   * never match a later pair. It makes one edge (two half-edges) per `Fresh`
   * pair it reaches, and a conflict is a `Conflict` pair.
   */
  lemma {:induction false} CollectResolves(H0: HalfEdges, E0: Edges, cap0: nat, t: Tables, vs: seq<VertexId>, i: nat, acc: seq<HalfEdgeId>)
    requires ResolvingFrom(H0, E0, cap0, t, vs, i, acc)
    ensures var (conflict, fhs, t') := CollectFrom(t, vs, i, acc);
      ResolvedAs(H0, cap0, vs, fhs) &&
      (conflict ==> |fhs| < |vs| && ResolveAt(H0, cap0, vs, |fhs|).Conflict?) &&
      |t'.E| == |E0| + FreshCount(H0, cap0, vs, |fhs|) &&
      |t'.H| == |H0| + 2 * FreshCount(H0, cap0, vs, |fhs|)
    decreases |vs| - i
  {
    if i < |vs| {
      ResolvingStep(H0, E0, cap0, t, vs, i, acc);
      var (res, t1) := ResolveStep(t, vs[i], vs[Succ(i, |vs|)]);
      if res.Some? {
        CollectResolves(H0, E0, cap0, t1, vs, i + 1, acc + [res.value]);
        assert CollectFrom(t, vs, i, acc) == CollectFrom(t1, vs, i + 1, acc + [res.value]);
      } else {
        assert CollectFrom(t, vs, i, acc) == (true, acc, t);
      }
    } else {
      assert CollectFrom(t, vs, i, acc) == (false, acc, t);
    }
  }

  // ----- make_face's linking loop -----

  /**
   * The linking loop keeps every half-edge's origin, twin and edge, touches
   * only the half-edges of `fhs`, and tags each with face `f` and loop `l`.
   */
  lemma {:induction false} LinkedFrame(H: HalfEdges, fhs: seq<HalfEdgeId>, f: FaceId, l: LoopId, k: nat)
    requires k <= |fhs| && forall j :: 0 <= j < |fhs| ==> fhs[j] in H
    ensures SameShape(H, Linked(H, fhs, f, l, k))
    ensures forall h :: h in H && h !in fhs[..k] ==> Linked(H, fhs, f, l, k)[h] == H[h]
    ensures forall j :: 0 <= j < k ==>
      Linked(H, fhs, f, l, k)[fhs[j]].face == Some(f) && Linked(H, fhs, f, l, k)[fhs[j]].loopId == Some(l)
  {
    if k > 0 {
      LinkedFrame(H, fhs, f, l, k - 1);
      assert fhs[..k] == fhs[..k - 1] + [fhs[k - 1]];
    }
  }

  /** Over distinct half-edges, the linking loop links each handled one to its cyclic neighbours. */
  lemma {:induction false} LinkedLinks(H: HalfEdges, fhs: seq<HalfEdgeId>, f: FaceId, l: LoopId, k: nat)
    requires k <= |fhs| && Distinct(fhs) && forall j :: 0 <= j < |fhs| ==> fhs[j] in H
    ensures forall j :: 0 <= j < k ==> RingLink(Linked(H, fhs, f, l, k), fhs, j, f, l)
  {
    if k > 0 {
      LinkedLinks(H, fhs, f, l, k - 1);
      var H1, H2 := Linked(H, fhs, f, l, k - 1), Linked(H, fhs, f, l, k);
      var he := fhs[k - 1];
      assert H2 == H1[he := H1[he].(next := Some(fhs[Succ(k - 1, |fhs|)]), prev := Some(fhs[Pred(k - 1, |fhs|)]),
                                    face := Some(f), loopId := Some(l))];
      forall j | 0 <= j < k ensures RingLink(H2, fhs, j, f, l) {
        if j < k - 1 {
          assert RingLink(H1, fhs, j, f, l);
        }
      }
    }
  }

  /** Half-edges with pairwise-different origins are pairwise different. */
  lemma OriginsDistinct(H: HalfEdges, vs: seq<VertexId>, hs: seq<HalfEdgeId>)
    requires Distinct(vs) && |hs| == |vs|
    requires forall j :: 0 <= j < |hs| ==> hs[j] in H && H[hs[j]].origin == vs[j]
    ensures Distinct(hs)
  {
  }

  // ----- make_face -----

  /**
   * What `make_face` does, without any assumption on the vertex list: fewer
   * than three vertices fail with `Topology` and an unknown vertex with
   * `NotFound`, both before anything changes; any failure leaves the loops and
   * faces as they were, though edges made for earlier pairs stay.
   */
  lemma MakeFaceOutcome(t: Tables, vs: seq<VertexId>)
    requires TablesWF(t)
    ensures var (r, t', hs) := MakeFaceSpec(t, vs);
      TablesWF(t') && t'.V.Keys == t.V.Keys && t.hcap <= t'.hcap &&
      (|vs| < 3 ==> r == Err(Topology) && t' == t) &&
      (|vs| >= 3 && (exists i :: 0 <= i < |vs| && vs[i] !in t.V) ==> r == Err(NotFound) && t' == t) &&
      (r.Err? ==> t'.L == t.L && t'.F == t.F && Extends(t.H, t'.H))
  {
    if |vs| >= 3 && forall i :: 0 <= i < |vs| ==> vs[i] in t.V {
      var (conflict, fhs, t1) := CollectFrom(t, vs, 0, []);
      assert TablesWF(t1) && t1.L == t.L && t1.F == t.F && t.hcap <= t1.hcap && Extends(t.H, t1.H) by {
        CollectGrows(t, vs, 0, []);
      }
      assert conflict || (|fhs| == |vs| && forall j :: 0 <= j < |fhs| ==> fhs[j] in t1.H) by {
        CollectFacts(t, vs, 0, []);
      }
      MakeFaceSplits(t, vs);
      if conflict {
        assert MakeFaceSpec(t, vs) == (Err(Topology), t1, fhs);
      } else {
        var t' := FaceAdded(t1, fhs);
        assert MakeFaceSpec(t, vs) == (Ok(t1.fcap), t', fhs);
        FaceAddedFields(t1, fhs);
        assert TablesWF(t') by {
          LinkedFrame(t1.H, fhs, t1.fcap, t1.lcap, |fhs|);
          FaceAddedWF(t1, fhs);
        }
      }
    }
  }

  /**
   * A successful `make_face` adds one face and one outer loop starting at the
   * first collected half-edge, and every collected half-edge starts at its
   * vertex and is tagged with the new face and loop.
   */
  lemma MakeFaceAdds(t: Tables, vs: seq<VertexId>)
    requires TablesWF(t)
    ensures var (r, t', hs) := MakeFaceSpec(t, vs);
      r.Ok? ==>
        |hs| == |vs| && r.value == t.fcap && r.value !in t.F &&
        t'.F == t.F[r.value := Face(t.lcap, [], false)] && t.lcap !in t.L &&
        t'.L == t.L[t.lcap := Loop(hs[0], Some(r.value))] &&
        forall j :: 0 <= j < |hs| ==>
          hs[j] in t'.H && t'.H[hs[j]].origin == vs[j] &&
          t'.H[hs[j]].face == Some(r.value) && t'.H[hs[j]].loopId == Some(t.lcap)
  {
    if |vs| >= 3 && forall i :: 0 <= i < |vs| ==> vs[i] in t.V {
      var (conflict, fhs, t1) := CollectFrom(t, vs, 0, []);
      assert TablesWF(t1) && t1.L == t.L && t1.F == t.F && t1.lcap == t.lcap && t1.fcap == t.fcap by {
        CollectGrows(t, vs, 0, []);
      }
      assert (conflict || |fhs| == |vs|) &&
        forall j :: 0 <= j < |fhs| ==> fhs[j] in t1.H && t1.H[fhs[j]].origin == vs[j] by {
        CollectFacts(t, vs, 0, []);
      }
      MakeFaceSplits(t, vs);
      if !conflict {
        var f, l := t1.fcap, t1.lcap;
        var t' := FaceAdded(t1, fhs);
        assert MakeFaceSpec(t, vs) == (Ok(f), t', fhs);
        FaceAddedFields(t1, fhs);
        assert forall j :: 0 <= j < |fhs| ==>
                 t'.H[fhs[j]].origin == vs[j] && t'.H[fhs[j]].face == Some(f) && t'.H[fhs[j]].loopId == Some(l) by {
          LinkedFrame(t1.H, fhs, f, l, |fhs|);
        }
      }
    }
  }

  /** `make_face`, whatever its outcome, leaves every old half-edge it did not collect untouched. */
  lemma MakeFaceKeepsOthers(t: Tables, vs: seq<VertexId>)
    requires TablesWF(t)
    ensures var (r, t', hs) := MakeFaceSpec(t, vs);
      forall h :: h in t.H && h !in hs ==> h in t'.H && t'.H[h] == t.H[h]
  {
    if |vs| >= 3 && forall i :: 0 <= i < |vs| ==> vs[i] in t.V {
      var (conflict, fhs, t1) := CollectFrom(t, vs, 0, []);
      assert Extends(t.H, t1.H) by {
        CollectGrows(t, vs, 0, []);
      }
      MakeFaceSplits(t, vs);
      if conflict {
        assert MakeFaceSpec(t, vs) == (Err(Topology), t1, fhs);
      } else {
        var f, l := t1.fcap, t1.lcap;
        var t' := FaceAdded(t1, fhs);
        assert MakeFaceSpec(t, vs) == (Ok(f), t', fhs);
        FaceAddedFields(t1, fhs);
        assert forall h :: h in t1.H && h !in fhs ==> t'.H[h] == t1.H[h] by {
          LinkedFrame(t1.H, fhs, f, l, |fhs|);
          assert fhs[..|fhs|] == fhs;
        }
      }
    }
  }

  /** The half-edges `make_face` made for new edges, whatever its outcome, are linked to nothing unless collected. */
  lemma MakeFaceNewUnlinked(t: Tables, vs: seq<VertexId>)
    requires TablesWF(t)
    ensures var (r, t', hs) := MakeFaceSpec(t, vs);
      forall h :: h in t'.H && h !in t.H && h !in hs ==> Unlinked(t'.H[h])
  {
    if |vs| >= 3 && forall i :: 0 <= i < |vs| ==> vs[i] in t.V {
      var (conflict, fhs, t1) := CollectFrom(t, vs, 0, []);
      assert forall h :: h in t1.H && h !in t.H ==> Unlinked(t1.H[h]) by {
        CollectGrows(t, vs, 0, []);
      }
      MakeFaceSplits(t, vs);
      if conflict {
        assert MakeFaceSpec(t, vs) == (Err(Topology), t1, fhs);
      } else {
        var f, l := t1.fcap, t1.lcap;
        var t' := FaceAdded(t1, fhs);
        assert MakeFaceSpec(t, vs) == (Ok(f), t', fhs);
        FaceAddedFields(t1, fhs);
        assert forall h :: h in t1.H && h !in fhs ==> t'.H[h] == t1.H[h] by {
          LinkedFrame(t1.H, fhs, f, l, |fhs|);
          assert fhs[..|fhs|] == fhs;
        }
      }
    }
  }

  /**
   * Over distinct, known vertices, `make_face` resolves each pair against the
   * table as it was: it succeeds exactly when no pair is a `Conflict`, fails on
   * the first one otherwise, and makes one edge per `Fresh` pair it reached.
   */
  lemma MakeFaceResolution(t: Tables, vs: seq<VertexId>)
    requires TablesWF(t) && |vs| >= 3 && Distinct(vs) && forall i :: 0 <= i < |vs| ==> vs[i] in t.V
    ensures var (r, t', hs) := MakeFaceSpec(t, vs);
      ResolvedAs(t.H, t.hcap, vs, hs) &&
      (r.Ok? <==> |hs| == |vs|) &&
      (r.Err? ==> r.error == Topology && ResolveAt(t.H, t.hcap, vs, |hs|).Conflict?) &&
      |t'.E| == |t.E| + FreshCount(t.H, t.hcap, vs, |hs|) &&
      |t'.H| == |t.H| + 2 * FreshCount(t.H, t.hcap, vs, |hs|)
  {
    var (conflict, fhs, t1) := CollectFrom(t, vs, 0, []);
    assert ResolvedAs(t.H, t.hcap, vs, fhs) &&
      (conflict ==> |fhs| < |vs| && ResolveAt(t.H, t.hcap, vs, |fhs|).Conflict?) &&
      |t1.E| == |t.E| + FreshCount(t.H, t.hcap, vs, |fhs|) &&
      |t1.H| == |t.H| + 2 * FreshCount(t.H, t.hcap, vs, |fhs|) by {
      assert ResolvingFrom(t.H, t.E, t.hcap, t, vs, 0, []);
      CollectResolves(t.H, t.E, t.hcap, t, vs, 0, []);
    }
    MakeFaceSplits(t, vs);
    if !conflict {
      var t' := FaceAdded(t1, fhs);
      assert t'.H == Linked(t1.H, fhs, t1.fcap, t1.lcap, |fhs|) && t'.E == t1.E;
      assert t'.H.Keys == t1.H.Keys;
    }
  }

  /** Over distinct, known vertices, a successful `make_face` makes the collected half-edges the new face's ring. */
  lemma MakeFaceRing(t: Tables, vs: seq<VertexId>)
    requires TablesWF(t) && |vs| >= 3 && Distinct(vs) && forall i :: 0 <= i < |vs| ==> vs[i] in t.V
    ensures var (r, t', hs) := MakeFaceSpec(t, vs);
      r.Ok? ==> IsRing(t'.H, hs, r.value, t.lcap)
  {
    var (conflict, fhs, t1) := CollectFrom(t, vs, 0, []);
    assert (!conflict ==> |fhs| == |vs|) &&
      forall j :: 0 <= j < |fhs| ==> fhs[j] in t1.H && t1.H[fhs[j]].origin == vs[j] by {
      CollectFacts(t, vs, 0, []);
    }
    MakeFaceSplits(t, vs);
    if !conflict {
      var f, l := t1.fcap, t1.lcap;
      assert l == t.lcap by {
        CollectGrows(t, vs, 0, []);
      }
      var t' := FaceAdded(t1, fhs);
      assert t'.H == Linked(t1.H, fhs, f, l, |fhs|);
      assert IsRing(t'.H, fhs, f, l) by {
        LinkedRing(t1.H, vs, fhs, f, l);
      }
    }
  }

  /** Over distinct vertices, `make_face` keeps the construction invariant, with the new face's ring recorded. */
  lemma MakeFaceKeepsValid(t: Tables, C: Cycles, vs: seq<VertexId>)
    requires Valid(t, C) && Distinct(vs)
    ensures var (r, t', hs) := MakeFaceSpec(t, vs);
      Valid(t', if r.Ok? then C[r.value := hs] else C)
  {
    if |vs| >= 3 && forall i :: 0 <= i < |vs| ==> vs[i] in t.V {
      var (conflict, fhs, t1) := CollectFrom(t, vs, 0, []);
      assert Valid(t1, C) && (conflict || |fhs| == |vs|) &&
        (forall j :: 0 <= j < |fhs| ==> fhs[j] in t1.H && t1.H[fhs[j]].origin == vs[j] && t1.H[fhs[j]].face.None?) by {
        CollectFacts(t, vs, 0, []);
        CollectKeepsValid(t, C, vs, 0, []);
      }
      MakeFaceSplits(t, vs);
      if !conflict {
        FaceAddedKeepsValid(t1, C, vs, fhs);
      }
    }
  }

  /** The invariant after `make_face`, for a caller that holds the outcome as separate values. */
  lemma MakeFaceBuilt(t: Tables, C: Cycles, vs: seq<VertexId>, r: Result<FaceId>, t': Tables, hs: seq<HalfEdgeId>, C': Cycles)
    requires Valid(t, C) && Distinct(vs) && (r, t', hs) == MakeFaceSpec(t, vs)
    requires C' == if r.Ok? then C[r.value := hs] else C
    ensures Valid(t', C')
  {
    MakeFaceKeepsValid(t, C, vs);
  }

  /** `make_face` over known vertices is the first phase, then, without a conflict, the second. */
  lemma MakeFaceSplits(t: Tables, vs: seq<VertexId>)
    requires TablesWF(t) && |vs| >= 3 && forall i :: 0 <= i < |vs| ==> vs[i] in t.V
    ensures var (conflict, fhs, t1) := CollectFrom(t, vs, 0, []);
      (conflict || (|fhs| == |vs| && forall j :: 0 <= j < |fhs| ==> fhs[j] in t1.H)) &&
      MakeFaceSpec(t, vs) ==
        if conflict then (Err(Topology), t1, fhs) else (Ok(t1.fcap), FaceAdded(t1, fhs), fhs)
  {
    CollectFacts(t, vs, 0, []);
  }

  /** The second phase over half-edges with different origins that start the pairs of a cycle keeps the invariant. */
  lemma FaceAddedKeepsValid(t1: Tables, C: Cycles, vs: seq<VertexId>, fhs: seq<HalfEdgeId>)
    requires Valid(t1, C) && Distinct(vs) && |vs| >= 3 && |fhs| == |vs|
    requires forall j :: 0 <= j < |fhs| ==> fhs[j] in t1.H && t1.H[fhs[j]].origin == vs[j] && t1.H[fhs[j]].face.None?
    ensures Valid(FaceAdded(t1, fhs), C[t1.fcap := fhs])
  {
    var f, l := t1.fcap, t1.lcap;
    var H2 := Linked(t1.H, fhs, f, l, |fhs|);
    LinkedRing(t1.H, vs, fhs, f, l);
    var L2, F2 := t1.L[l := Loop(fhs[0], Some(f))], t1.F[f := Face(l, [], false)];
    FaceAddedFields(t1, fhs);
    FaceAddedWF(t1, fhs);
    assert TwinsPaired(t1.V, H2, t1.E) && EdgesPaired(H2, t1.E) && OutgoingStartsHere(t1.V, H2) by {
      ShapeKeepsPairing(t1.V, t1.H, H2, t1.E);
    }
    assert FacesClosed(H2, L2, F2, C[f := fhs]) && FacedOnCycle(H2, C[f := fhs]) by {
      LinkKeepsFaces(t1.H, H2, t1.L, t1.F, C, fhs, f, l);
    }
  }

  /** Linking half-edges with pairwise-different origins makes them a ring and changes no other half-edge. */
  lemma LinkedRing(H: HalfEdges, vs: seq<VertexId>, fhs: seq<HalfEdgeId>, f: FaceId, l: LoopId)
    requires Distinct(vs) && |vs| >= 3 && |fhs| == |vs|
    requires forall j :: 0 <= j < |fhs| ==> fhs[j] in H && H[fhs[j]].origin == vs[j]
    ensures var H2 := Linked(H, fhs, f, l, |fhs|);
      SameShape(H, H2) && IsRing(H2, fhs, f, l) && forall h :: h in H2 && h !in fhs ==> H2[h] == H[h]
  {
    LinkedFrame(H, fhs, f, l, |fhs|);
    assert fhs[..|fhs|] == fhs;
    OriginsDistinct(H, vs, fhs);
    LinkedLinks(H, fhs, f, l, |fhs|);
  }

  lemma FaceAddedFields(t1: Tables, fhs: seq<HalfEdgeId>)
    requires |fhs| > 0 && forall j :: 0 <= j < |fhs| ==> fhs[j] in t1.H
    ensures var t2 := FaceAdded(t1, fhs);
      t2.V == t1.V && t2.H == Linked(t1.H, fhs, t1.fcap, t1.lcap, |fhs|) && t2.E == t1.E &&
      t2.L == t1.L[t1.lcap := Loop(fhs[0], Some(t1.fcap))] && t2.F == t1.F[t1.fcap := Face(t1.lcap, [], false)] &&
      t2.vcap == t1.vcap && t2.hcap == t1.hcap && t2.ecap == t1.ecap && t2.lcap == t1.lcap + 1 && t2.fcap == t1.fcap + 1
  {
  }

  /** The second phase keeps handles below the slot counts and twin references resolvable. */
  lemma FaceAddedWF(t1: Tables, fhs: seq<HalfEdgeId>)
    requires TablesWF(t1) && |fhs| > 0 && forall j :: 0 <= j < |fhs| ==> fhs[j] in t1.H
    requires SameShape(t1.H, Linked(t1.H, fhs, t1.fcap, t1.lcap, |fhs|))
    ensures TablesWF(FaceAdded(t1, fhs))
  {
    FaceAddedFields(t1, fhs);
    var H2 := Linked(t1.H, fhs, t1.fcap, t1.lcap, |fhs|);
    forall h | h in H2 && H2[h].twin.Some? ensures H2[h].twin.value in H2 {
      assert t1.H[h].twin == H2[h].twin;
    }
  }

  /** Relinking half-edges without touching origins, twins or edges keeps the pairing conditions. */
  lemma ShapeKeepsPairing(V: Vertices, H0: HalfEdges, H: HalfEdges, E: Edges)
    requires TwinsPaired(V, H0, E) && EdgesPaired(H0, E) && OutgoingStartsHere(V, H0)
    requires SameShape(H0, H)
    ensures TwinsPaired(V, H, E) && EdgesPaired(H, E) && OutgoingStartsHere(V, H)
  {
    forall h | h in H ensures TwinOk(V, H, E, h) {
      assert TwinOk(V, H0, E, h);
    }
    forall d | d in E ensures EdgeOk(H, E, d) {
      assert EdgeOk(H0, E, d);
    }
  }

  /** Adding the new loop and face and linking its faceless half-edges into a ring keeps every face closed. */
  lemma LinkKeepsFaces(H1: HalfEdges, H2: HalfEdges, L0: Loops, F0: Faces,
                       C0: Cycles, fhs: seq<HalfEdgeId>, f: FaceId, l: LoopId)
    requires FacesClosed(H1, L0, F0, C0) && FacedOnCycle(H1, C0)
    requires forall j :: 0 <= j < |fhs| ==> fhs[j] in H1 && H1[fhs[j]].face.None?
    requires f !in F0 && l !in L0
    requires H2.Keys == H1.Keys
    requires forall h :: h in H2 && h !in fhs ==> H2[h] == H1[h]
    requires IsRing(H2, fhs, f, l)
    ensures FacesClosed(H2, L0[l := Loop(fhs[0], Some(f))], F0[f := Face(l, [], false)], C0[f := fhs])
    ensures FacedOnCycle(H2, C0[f := fhs])
  {
    var L, F, C := L0[l := Loop(fhs[0], Some(f))], F0[f := Face(l, [], false)], C0[f := fhs];
    forall g | g in F ensures FaceClosed(H2, L, F, C, g) {
      if g != f {
        var c := C0[g];
        assert FaceClosed(H1, L0, F0, C0, g);
        forall i | 0 <= i < |c| ensures c[i] in H1 && c[i] in H2 && H2[c[i]] == H1[c[i]] {
          assert RingLink(H1, c, i, g, F0[g].outerLoop);
          assert c[i] !in fhs;
        }
        RingFrame(H1, H2, c, g, F0[g].outerLoop);
      }
    }
    forall j | 0 <= j < |fhs| ensures H2[fhs[j]].face == Some(f) {
      assert RingLink(H2, fhs, j, f, l);
    }
    forall h | h in H2 && H2[h].face.Some? ensures H2[h].face.value in C && h in C[H2[h].face.value] {
      if h !in fhs {
        assert H2[h] == H1[h];
      }
    }
  }
}
