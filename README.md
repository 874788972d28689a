# cst-ifc-rs core, modelled in Dafny

This project models the core of cst-ifc-rs, a Rust CAD kernel that reads IFC
building models written as STEP (ISO 10303-21) text and turns their geometry
into triangle meshes for rendering. The modelled parts are:

- the half-edge boundary representation (`HalfEdgeMesh`): vertices, half-edges, edges, loops and faces in slot tables, with the constructors `add_vertex`, `make_edge`, `make_face` and `make_triangle`. Beside it are its validator (`HalfEdgeValidate`), its face and vertex iterators (`HalfEdgeIter`) and its bounding box (`HalfEdgeBounding`);
- the B-spline knot-span search (`Knot`);
- the STEP lexer and recursive-descent parser (`StepLexer`, `StepParser`), with printers used to state round trips;
- the IFC reader's text helpers (`IfcText`): argument splitting, entity references, real lists and entity lines. Face and colour resolution over the entity table is `IfcFaces`;
- the conversion of IFC faces to indexed triangle meshes (`IfcToMesh`);
- triangle meshes and their normals (`TriangleMeshes`);
- planar and surface tessellation (`FaceTessellator`, `Tessellate`), conversion of a half-edge mesh to triangles (`TopologyToMesh`) and adaptive surface subdivision (`Adaptive`);
- the IFC spatial tree (`IfcSpatial`);
- axis-aligned boxes and tolerances (`Aabb`, `Tolerances`);
- the render scene and its base64 encoder (`RenderScene`).

The model keeps the source's form. Objects whose methods update their fields are classes:
- the half-edge `Mesh`, whose state is maps and slot counters;
- the STEP `Parser`, which holds a token position;
- the adaptive `MeshBuilder`;
- the face iterators;
- the `Scene`.

Each of their methods is proved against a function over the tables or the sequence it changes. Loops in the source are `while` loops with invariants. Pure text and tree code is functions and lemmas.

Reals stand in for `f64`. Numeric text that the source parses into floats is kept as text. Square roots, surface and curve evaluation, and the ear-clipping library are parameters of the operations that use them.

## Model

| member | source | states |
|---|---|---|
| Tolerances.New | crates/cst-core/src/tolerance.rs:14-16 | the tolerance carries exactly the given linear and angular bounds |
| Tolerances.DefaultPrecision | crates/cst-core/src/tolerance.rs:11-23 | the default preset is 1e-7 linear and 1e-10 angular |
| Tolerances.Loose | crates/cst-core/src/tolerance.rs:25-30 | the loose preset is 1e-4 linear and 1e-6 angular |
| Tolerances.Tight | crates/cst-core/src/tolerance.rs:32-37 | the tight preset is 1e-10 linear and 1e-12 angular |
| Tolerances.Default | crates/cst-core/src/tolerance.rs:55-59 | `Default` is the default-precision preset |
| Tolerances.LinearEq | crates/cst-core/src/tolerance.rs:40-42 | two values are equal iff `a` lies in the open interval of half-width `linear` around `b` |
| Tolerances.IsZero | crates/cst-core/src/tolerance.rs:45-47 | a value is zero iff it lies strictly between `-linear` and `linear` |
| Tolerances.AngularEq | crates/cst-core/src/tolerance.rs:50-52 | two angles are equal iff one lies in the open interval of half-width `angular` around the other |
| Tolerances.EqualitiesSymmetric | crates/cst-core/src/tolerance.rs:40-52 | linear and angular equality are symmetric |
| Tolerances.IsZeroIsLinearEq | crates/cst-core/src/tolerance.rs:40-47 | `is_zero(v)` agrees with `linear_eq(v, 0)` |
| Tolerances.NonPositiveRejects | crates/cst-core/src/tolerance.rs:40-47 | a non-positive linear tolerance accepts no equality and no zero |
| Tolerances.WiderAccepts | crates/cst-core/src/tolerance.rs:40-52 | a wider tolerance accepts every pair that a narrower one accepts |
| Tolerances.PresetsOrdered | crates/cst-core/src/tolerance.rs:18-37 | the presets are strictly ordered tight < default < loose in both components |
| Aabb.ContainsPoint | crates/cst-math/src/aabb.rs:37-44 | a point is contained iff it lies between the corners on every axis, faces included; only an ordered box contains anything |
| Aabb.Intersects | crates/cst-math/src/aabb.rs:46-53 | two ordered boxes intersect iff, on every axis, the larger of the two minima lies at or below the smaller of the two maxima |
| Aabb.Merge | crates/cst-math/src/aabb.rs:55-60 | the merged box's minimum lies below both minima and its maximum above both maxima |
| Aabb.Expand | crates/cst-math/src/aabb.rs:62-68 | every face moves outward by the amount: the minimum drops and the maximum rises by it on each axis, so each side length grows by twice the amount |
| Aabb.FromPoints | crates/cst-math/src/aabb.rs:16-27 | the loop gives `None` iff there are no points, and otherwise the box of the points |
| Aabb.BoxOfContains | crates/cst-math/src/aabb.rs:16-27 | the box of the points contains every point |
| Aabb.BoxOfAttained | crates/cst-math/src/aabb.rs:16-27 | each face of the box passes through one of the points |
| Aabb.BoxOfSmallest | crates/cst-math/src/aabb.rs:16-27 | every box containing all the points contains their box: it is the smallest |
| Aabb.BoxOfConcat | crates/cst-math/src/aabb.rs:16-27 | the box of two runs of points is the merge of their boxes |
| Aabb.BoxOfOne | crates/cst-math/src/aabb.rs:16-27 | a single point gives the degenerate box at that point |
| Aabb.IntersectsIffCommonPoint | crates/cst-math/src/aabb.rs:46-53 | two ordered boxes intersect iff some point lies in both |
| Aabb.IntersectsSymmetric | crates/cst-math/src/aabb.rs:46-53 | intersection is symmetric for any boxes |
| Aabb.MergeContains | crates/cst-math/src/aabb.rs:55-60 | the merge contains every point of either box |
| Aabb.ExpandContains | crates/cst-math/src/aabb.rs:62-68 | growing by a non-negative amount keeps every contained point |
| Aabb.FromPointsExample | crates/cst-math/src/aabb.rs:76-82 | the three test points give the box from (-1,-1,0) to (3,5,3) |
| Knot.SpanScan | crates/cst-geometry/src/nurbs/knot.rs:3-13 | the downward scan stops at the last index in range whose knot is at most `t` |
| Knot.SpanUnique | crates/cst-geometry/src/nurbs/knot.rs:3-6 | over non-decreasing knots, a span of `t` inside `[degree, n]` is unique and is the one the linear scan finds |
| Knot.FindSpan | crates/cst-geometry/src/nurbs/knot.rs:13-37 | the result lies in `[degree, n]`; it is `n` at or above `knots[n+1]` and `degree` at or below `knots[degree]`; strictly inside the range it satisfies `knots[r] <= t < knots[r+1]`; over sorted knots it equals the linear-scan span |
| Knot.UniformSpans | crates/cst-geometry/src/nurbs/knot.rs:165-178 | on the clamped degree-2 vector, 0, 0.5, 1, 1.5, 2.5 and 3 fall in spans 2, 2, 3, 3, 4, 4 |
| HalfEdgeMesh.Mesh.constructor | crates/cst-topology/src/halfedge/mesh.rs:18-26 | a new mesh has five empty tables, no slots handed out, and satisfies the construction invariant |
| HalfEdgeMesh.Mesh.AddVertex | crates/cst-topology/src/halfedge/mesh.rs:28-33 | the vertex takes the next slot with the position and no outgoing half-edge; nothing else changes and the invariant is kept |
| HalfEdgeMesh.AddVertexKeepsValid | crates/cst-topology/src/halfedge/mesh.rs:28-33 | adding a vertex keeps the tables well formed and the construction invariant |
| HalfEdgeMesh.Mesh.MakeEdge | crates/cst-topology/src/halfedge/mesh.rs:37-81 | an unknown vertex fails with `NotFound` and changes nothing; otherwise the new state is the one `MakeEdgeSpec` describes, and the invariant is kept for two different vertices |
| HalfEdgeMesh.Mesh.InsertTwins | crates/cst-topology/src/halfedge/mesh.rs:42-62 | the two half-edges take consecutive slots, start at `v1` and `v2` and are each other's twins |
| HalfEdgeMesh.Mesh.InsertEdge | crates/cst-topology/src/halfedge/mesh.rs:64-70 | the edge takes the next slot, lists both half-edges, and both point back to it |
| HalfEdgeMesh.Mesh.SetOutgoingIfNone | crates/cst-topology/src/halfedge/mesh.rs:72-78 | a vertex gets an outgoing half-edge only when it had none |
| HalfEdgeMesh.SetOutgoing | crates/cst-topology/src/halfedge/mesh.rs:72-78 | setting an outgoing half-edge keeps the set of vertices |
| HalfEdgeMesh.AddEdgeFacts | crates/cst-topology/src/halfedge/mesh.rs:37-81 | `make_edge` adds exactly two twin half-edges from `v1` and `v2` and one edge naming them; a vertex's outgoing half-edge is set only if it was unset; every other record is kept |
| HalfEdgeMesh.AddEdgeCounts | crates/cst-topology/src/halfedge/mesh.rs:37-81 | a successful `make_edge` adds two half-edges and one edge |
| HalfEdgeMesh.TwinPairGrows | crates/cst-topology/src/halfedge/mesh.rs:42-62 | the twin pair adds exactly two half-edges and keeps the others |
| HalfEdgeMesh.TwinPairRuns | crates/cst-topology/src/halfedge/mesh.rs:42-62 | the new half-edges run `v1`→`v2` and `v2`→`v1` and are linked to nothing |
| HalfEdgeMesh.AddEdgeWF | crates/cst-topology/src/halfedge/mesh.rs:37-81 | `make_edge` keeps handles below the slot counts and twin references resolvable |
| HalfEdgeMesh.AddEdgeKeepsValid | crates/cst-topology/src/halfedge/mesh.rs:37-81 | `make_edge` between two different vertices keeps the construction invariant |
| HalfEdgeMesh.Mesh.FindHalfEdge | crates/cst-topology/src/halfedge/mesh.rs:182-193 | the scan returns the lowest-slot half-edge from `origin` whose twin starts at `target`, and `None` iff no half-edge runs that way |
| HalfEdgeMesh.FirstRunFrom | crates/cst-topology/src/halfedge/mesh.rs:182-193 | the result runs from origin to target and no earlier slot does; `None` means no slot in range does |
| HalfEdgeMesh.FirstRunStable | crates/cst-topology/src/halfedge/mesh.rs:182-193 | adding half-edges that do not run that way leaves the scan's answer unchanged |
| HalfEdgeMesh.ResolveStable | crates/cst-topology/src/halfedge/mesh.rs:102-145 | adding half-edges that do not join the pair leaves how the pair resolves unchanged |
| HalfEdgeMesh.PairsDiffer | crates/cst-topology/src/halfedge/mesh.rs:102-104 | over distinct vertices, two different cyclic pairs never join the same two vertices |
| HalfEdgeMesh.SuccPredMod | crates/cst-topology/src/halfedge/mesh.rs:162-165 | `(i+1) % n` and `(n+i-1) % n` are the cyclic successor and predecessor |
| HalfEdgeMesh.Mesh.ResolvePair | crates/cst-topology/src/halfedge/mesh.rs:103-143 | one pair of `make_face`: reuse a faceless half-edge running that way, or the faceless twin of one running the other way, fail on a faced one, or make a new edge |
| HalfEdgeMesh.ResolveStepFacts | crates/cst-topology/src/halfedge/mesh.rs:103-143 | the resolved half-edge starts at `from` and has no face; old records are kept and a new half-edge is unlinked and joins the pair; a conflict changes nothing |
| HalfEdgeMesh.ResolveStepKeepsValid | crates/cst-topology/src/halfedge/mesh.rs:103-143 | for `from != to` one pair keeps the invariant and the resolved half-edge runs from `from` to `to` |
| HalfEdgeMesh.Mesh.CollectFaceHalfEdges | crates/cst-topology/src/halfedge/mesh.rs:100-145 | the first loop of `make_face` stops at the first conflict and otherwise collects one half-edge per pair |
| HalfEdgeMesh.CollectFrom | crates/cst-topology/src/halfedge/mesh.rs:100-145 | the first phase keeps the vertices and collects one half-edge per pair unless it stops on a conflict |
| HalfEdgeMesh.CollectGrows | crates/cst-topology/src/halfedge/mesh.rs:100-145 | the first phase keeps every old record and only adds unlinked half-edges above the old slot count |
| HalfEdgeMesh.CollectFacts | crates/cst-topology/src/halfedge/mesh.rs:100-145 | the phase stops short exactly on a conflict, and the `j`-th collected half-edge starts at `vs[j]` with no face |
| HalfEdgeMesh.CollectKeepsValid | crates/cst-topology/src/halfedge/mesh.rs:100-145 | over distinct vertices the phase keeps the invariant and each collected half-edge runs along its pair |
| HalfEdgeMesh.CollectResolves | crates/cst-topology/src/halfedge/mesh.rs:100-145 | over distinct vertices every pair resolves against the table as it was before the call, and one edge is made per fresh pair |
| HalfEdgeMesh.Mesh.LinkLoop | crates/cst-topology/src/halfedge/mesh.rs:161-171 | the linking loop sets `next`, `prev`, face and loop of each collected half-edge |
| HalfEdgeMesh.Linked | crates/cst-topology/src/halfedge/mesh.rs:161-171 | linking keeps the set of half-edges |
| HalfEdgeMesh.LinkedFrame | crates/cst-topology/src/halfedge/mesh.rs:161-171 | linking changes no origin, twin or edge, and no half-edge outside the face |
| HalfEdgeMesh.LinkedLinks | crates/cst-topology/src/halfedge/mesh.rs:161-171 | over distinct half-edges each one is linked to its cyclic neighbours |
| HalfEdgeMesh.OriginsDistinct | crates/cst-topology/src/halfedge/mesh.rs:100-145 | half-edges with pairwise different origins are pairwise different |
| HalfEdgeMesh.Mesh.InsertLoopFace | crates/cst-topology/src/halfedge/mesh.rs:147-159 | the loop and the face take the next slots and point to each other |
| HalfEdgeMesh.Mesh.AddFaceRing | crates/cst-topology/src/halfedge/mesh.rs:147-171 | the second phase of `make_face` adds the loop and face and links the ring, recording it as the face's cycle |
| HalfEdgeMesh.Mesh.MakeFace | crates/cst-topology/src/halfedge/mesh.rs:85-174 | the new state and result are `MakeFaceSpec`'s; the invariant is kept, and over distinct vertices so is the construction invariant |
| HalfEdgeMesh.MakeFaceOutcome | crates/cst-topology/src/halfedge/mesh.rs:85-97 | fewer than three vertices fail with `Topology` and an unknown vertex with `NotFound`, both before any change; any failure keeps loops and faces, though edges made earlier stay |
| HalfEdgeMesh.MakeFaceAdds | crates/cst-topology/src/halfedge/mesh.rs:147-173 | success adds one face and one outer loop starting at the first collected half-edge; every collected half-edge starts at its vertex and is tagged with the face and loop |
| HalfEdgeMesh.MakeFaceKeepsOthers | crates/cst-topology/src/halfedge/mesh.rs:85-174 | whatever the outcome, old half-edges that were not collected are untouched |
| HalfEdgeMesh.MakeFaceNewUnlinked | crates/cst-topology/src/halfedge/mesh.rs:137-142 | half-edges made for new edges but not collected are linked to nothing |
| HalfEdgeMesh.MakeFaceResolution | crates/cst-topology/src/halfedge/mesh.rs:102-145 | over distinct known vertices the call succeeds iff no pair conflicts, fails with `Topology` on the first conflict, and adds one edge and two half-edges per fresh pair reached |
| HalfEdgeMesh.MakeFaceRing | crates/cst-topology/src/halfedge/mesh.rs:161-171 | on success the collected half-edges form a closed `next`/`prev` ring of the new face |
| HalfEdgeMesh.MakeFaceKeepsValid | crates/cst-topology/src/halfedge/mesh.rs:85-174 | over distinct vertices `make_face` keeps the construction invariant with the new ring recorded |
| HalfEdgeMesh.MakeFaceSplits | crates/cst-topology/src/halfedge/mesh.rs:99-173 | `make_face` over known vertices is the first phase and then, without a conflict, the second |
| HalfEdgeMesh.FaceAddedKeepsValid | crates/cst-topology/src/halfedge/mesh.rs:147-171 | the second phase over half-edges starting the pairs of a cycle keeps the invariant |
| HalfEdgeMesh.LinkedRing | crates/cst-topology/src/halfedge/mesh.rs:161-171 | linking half-edges with distinct origins makes them a ring and changes nothing else |
| HalfEdgeMesh.Mesh.MakeTriangle | crates/cst-topology/src/halfedge/mesh.rs:177-179 | `make_triangle` is `make_face` on the three vertices |
| HalfEdgeMesh.Mesh.HalfedgeTarget | crates/cst-topology/src/halfedge/mesh.rs:196-201 | the target exists iff the half-edge and its twin exist, and then the half-edge runs from its origin to it |
| HalfEdgeMesh.Mesh.EdgeFaces | crates/cst-topology/src/halfedge/mesh.rs:204-218 | an unknown edge gives `(None, None)`; otherwise each side is the face of the corresponding half-edge, or `None` if it is missing |
| HalfEdgeValidate.Walk | crates/cst-topology/src/halfedge/validate.rs:41-97 | a walk that closes does so after more steps than already taken and at most `max_iter` |
| HalfEdgeValidate.CheckTwins | crates/cst-topology/src/halfedge/validate.rs:8-33 | the twin pass accepts iff every twin exists, points back and starts at another vertex |
| HalfEdgeValidate.WalkFace | crates/cst-topology/src/halfedge/validate.rs:36-104 | the walk of one face accepts iff its loop exists and the `next` chain returns to the start within `|halfedges|+1` steps, through correctly tagged, back-linked half-edges, after at least three steps |
| HalfEdgeValidate.CheckFaces | crates/cst-topology/src/halfedge/validate.rs:35-105 | the face pass accepts iff every face's walk accepts |
| HalfEdgeValidate.CheckEdges | crates/cst-topology/src/halfedge/validate.rs:107-128 | the edge pass accepts iff every edge's two half-edges exist and are each other's twins |
| HalfEdgeValidate.Validate | crates/cst-topology/src/halfedge/validate.rs:7-131 | `validate` is `Ok` iff all three passes accept, and every failure is a topology error |
| HalfEdgeValidate.DistinctFits | crates/cst-topology/src/halfedge/validate.rs:44 | distinct handles drawn from a set are no more than the set's size |
| HalfEdgeValidate.RingFits | crates/cst-topology/src/halfedge/validate.rs:44 | a ring of distinct half-edges fits in the table, so the walk cap is never reached on it |
| HalfEdgeValidate.RingWalks | crates/cst-topology/src/halfedge/validate.rs:41-97 | walking a closed ring from any position returns to its head after exactly the ring's length |
| HalfEdgeValidate.BuiltValidates | crates/cst-topology/src/halfedge/validate.rs:7-131 | every mesh satisfying the construction invariant passes `validate` |
| HalfEdgeValidate.ClosedFaceAccepted | crates/cst-topology/src/halfedge/validate.rs:36-104 | a face whose outer loop is a closed ring passes the face walk |
| HalfEdgeValidate.ClearedTwinFails | crates/cst-topology/tests/halfedge_tests.rs:155-170 | clearing one half-edge's twin in a built mesh makes `validate` fail |
| HalfEdgeIter.FaceYieldChain | crates/cst-topology/src/halfedge/iter.rs:26-37 | what the face iterator yields is a `next` chain from its cursor that, once started, never returns to the start |
| HalfEdgeIter.RingYieldFrom | crates/cst-topology/src/halfedge/iter.rs:26-37 | from any position of a closed ring the face iterator yields the rest of the ring and stops |
| HalfEdgeIter.RingYield | crates/cst-topology/src/halfedge/iter.rs:12-37 | a face iterator started at the head of a closed ring yields exactly the ring |
| HalfEdgeIter.Origins | crates/cst-topology/src/halfedge/iter.rs:56-60 | the origins list has one entry per half-edge, each that half-edge's origin |
| HalfEdgeIter.VertexYieldOrigins | crates/cst-topology/src/halfedge/iter.rs:45-61 | the vertex iterator yields the origins of the face iterator's half-edges, in order and number |
| HalfEdgeIter.OutgoingYieldChain | crates/cst-topology/src/halfedge/iter.rs:86-106 | the outgoing iterator yields a twin-then-next chain that never returns to the start once started, and never a half-edge without a twin |
| HalfEdgeIter.FaceHalfEdgeIter.constructor | crates/cst-topology/src/halfedge/iter.rs:13-20 | a new face iterator is at its start and has yielded nothing |
| HalfEdgeIter.FaceHalfEdgeIter.Next | crates/cst-topology/src/halfedge/iter.rs:26-37 | one step yields the current half-edge and moves to its `next`, stopping when back at the start or at a missing half-edge |
| HalfEdgeIter.FaceVertexIter.constructor | crates/cst-topology/src/halfedge/iter.rs:46-50 | a new vertex iterator wraps a fresh face iterator at the start |
| HalfEdgeIter.FaceVertexIter.Next | crates/cst-topology/src/halfedge/iter.rs:56-60 | one step yields the origin of the inner iterator's next half-edge |
| HalfEdgeIter.VertexOutgoingIter.constructor | crates/cst-topology/src/halfedge/iter.rs:73-80 | a new outgoing iterator is at its start and has yielded nothing |
| HalfEdgeIter.VertexOutgoingIter.Next | crates/cst-topology/src/halfedge/iter.rs:86-106 | one step yields the current half-edge and moves to its twin's `next`, stopping at the start, a missing twin or a boundary |
| HalfEdgeIter.CollectFace | crates/cst-topology/src/halfedge/iter.rs:23-38 | draining the face iterator gives exactly what the iterator yields |
| HalfEdgeIter.CollectVertices | crates/cst-topology/src/halfedge/iter.rs:53-61 | draining the vertex iterator gives exactly what it yields |
| HalfEdgeIter.CollectOutgoing | crates/cst-topology/src/halfedge/iter.rs:83-107 | draining the outgoing iterator gives exactly what it yields |
| HalfEdgeIter.FaceStart | crates/cst-topology/src/halfedge/iter.rs:113-117 | a face has a start iff it and its outer loop exist, and the start is the loop's half-edge |
| HalfEdgeIter.OutgoingStart | crates/cst-topology/src/halfedge/iter.rs:127-131 | a vertex has a start iff it exists and has an outgoing half-edge, which is the start |
| HalfEdgeIter.FaceHalfedges | crates/cst-topology/src/halfedge/iter.rs:113-117 | `face_halfedges` is `None` iff the face or its loop is missing, and otherwise a new iterator at the loop's half-edge |
| HalfEdgeIter.FaceVertices | crates/cst-topology/src/halfedge/iter.rs:120-124 | `face_vertices` is `None` iff the face or its loop is missing, and otherwise a new vertex iterator there |
| HalfEdgeIter.VertexOutgoing | crates/cst-topology/src/halfedge/iter.rs:127-131 | `vertex_outgoing` is `None` iff the vertex is missing or has no outgoing half-edge |
| HalfEdgeIter.BuiltFaceWalk | crates/cst-topology/tests/halfedge_tests.rs:33-59 | in a built mesh a face's half-edges are its ring, each tagged with the face, and its vertices are their origins in the same order |
| HalfEdgeBounding.Widen | crates/cst-topology/src/halfedge/bounding.rs:11-19 | folding one more vertex into the box keeps it enclosing and attained |
| HalfEdgeBounding.BoundingBox | crates/cst-topology/src/halfedge/bounding.rs:6-22 | a mesh without vertices gives the origin twice; otherwise the box encloses every position and each face passes through one |
| HalfEdgeBounding.BoxUnique | crates/cst-topology/src/halfedge/bounding.rs:6-22 | any two enclosing, attained boxes coincide, so the result is the tightest box |
| HalfEdgeBounding.ThreeVertexBox | crates/cst-topology/tests/halfedge_tests.rs:173-182 | the test's three vertices are bounded by (-1,-2,-3) and (5,2,3) |
| HalfEdgeExamples.MakeFacePaired | crates/cst-topology/src/halfedge/mesh.rs:99-145 | every half-edge a successful `make_face` adds is one of the face's or the twin of one |
| HalfEdgeExamples.MakeFaceRuns | crates/cst-topology/src/halfedge/mesh.rs:102-145 | over distinct vertices each half-edge of a new face runs from its vertex to the next |
| HalfEdgeExamples.MakeFaceKeepsShape | crates/cst-topology/src/halfedge/mesh.rs:161-171 | old half-edges keep origin, twin and edge through `make_face` |
| HalfEdgeExamples.NoJoinFresh | crates/cst-topology/src/halfedge/mesh.rs:137-142 | a pair that no half-edge joins gets a new edge |
| HalfEdgeExamples.FreshFace | crates/cst-topology/tests/halfedge_tests.rs:62-79 | a face over distinct known vertices none of which are joined succeeds with one edge and two half-edges per side, one loop and one face |
| HalfEdgeExamples.VerticesOnlyValid | crates/cst-topology/src/halfedge/mesh.rs:18-33 | tables holding only vertices satisfy the construction invariant |
| HalfEdgeExamples.FreshTriangle | crates/cst-topology/tests/halfedge_tests.rs:18-30 | a triangle on three fresh vertices succeeds with 3 vertices, 3 edges, 6 half-edges, one loop and one face, and the mesh validates |
| HalfEdgeExamples.ReversedPairReused | crates/cst-topology/src/halfedge/mesh.rs:106-117 | after a face `[a,b,c]`, the forward search for the pair `b,a` finds the faceless twin of the face's side from `a` to `b`, and the pair reuses it |
| HalfEdgeExamples.FirstFaceCounts | crates/cst-topology/src/halfedge/mesh.rs:85-174 | a first triangle on a mesh of vertices only succeeds with the next face handle, 3 edges, 6 half-edges and 1 face |
| HalfEdgeExamples.OneReusedCounts | crates/cst-topology/src/halfedge/mesh.rs:102-145 | a triangle reusing one half-edge and making two new edges adds 2 edges, 4 half-edges and 1 face |
| HalfEdgeExamples.ReusedEdgeBetween | crates/cst-topology/src/halfedge/mesh.rs:204-218 | a reused half-edge puts its edge between the old face of its twin and the new face |
| HalfEdgeExamples.TwoFacesShareEdge | crates/cst-topology/tests/halfedge_tests.rs:82-119 | faces `[a,b,c]` then `[b,a,d]` on four vertices give 5 edges, 10 half-edges, 2 faces, an edge between the two faces, and the mesh validates |
| HalfEdgeExamples.AdjacentTriangles | crates/cst-topology/tests/halfedge_tests.rs:82-119 | on a fresh mesh of four vertices, the two test triangles give 5 edges, 10 half-edges, 2 faces, a shared edge reporting both, and the mesh validates |
| StepLexer.ToUpper | crates/cst-ifc/src/step_lexer.rs:219 | upper-casing keeps the length and maps each character by ASCII upper case |
| StepLexer.CommentEnd | crates/cst-ifc/src/step_lexer.rs:59-68 | the comment scan stops at the first star-slash, or one before the end of the input when there is none |
| StepLexer.DotAt | crates/cst-ifc/src/step_lexer.rs:147-149 | the scan stops at the first dot at or after the start, or at the end |
| StepLexer.KeywordEnd | crates/cst-ifc/src/step_lexer.rs:210-218 | the scan covers exactly the run of letters, digits, `_` and `-` |
| StepLexer.StringBody | crates/cst-ifc/src/step_lexer.rs:119-141 | a string body ends just after a closing quote, and a missing closing quote is a parse error |
| StepLexer.NumberEnd | crates/cst-ifc/src/step_lexer.rs:163-194 | a number starting with a digit or sign consumes at least one character |
| StepLexer.FractionPart | crates/cst-ifc/src/step_lexer.rs:174-182 | the fraction part only marks the number real when it consumed a point |
| StepLexer.ExponentPart | crates/cst-ifc/src/step_lexer.rs:184-193 | the exponent part only changes the real flag when it consumed an exponent marker |
| StepLexer.LexStep | crates/cst-ifc/src/step_lexer.rs:51-229 | every turn of the loop that does not fail moves the cursor forward, and every failure is a parse error |
| StepLexer.LexEntityId | crates/cst-ifc/src/step_lexer.rs:101-116 | `#` and digits emit an identifier or fail with a parse error |
| StepLexer.LexString | crates/cst-ifc/src/step_lexer.rs:119-141 | a quoted literal emits a string or fails with a parse error |
| StepLexer.LexDotted | crates/cst-ifc/src/step_lexer.rs:144-160 | a dotted word emits a boolean or an enumeration, or fails with a parse error |
| StepLexer.LexNumber | crates/cst-ifc/src/step_lexer.rs:163-207 | a number emits an integer or real, or fails with a parse error |
| StepLexer.PrependTwice | crates/cst-ifc/src/step_lexer.rs:49-232 | prepending two runs of tokens is prepending their concatenation |
| StepLexer.ScanDigits | crates/cst-ifc/src/step_lexer.rs:104-106 | the digit loop stops where the digit run ends |
| StepLexer.ScanComment | crates/cst-ifc/src/step_lexer.rs:59-68 | the comment loop stops where `CommentEnd` says |
| StepLexer.ScanString | crates/cst-ifc/src/step_lexer.rs:119-141 | the string loop decodes the body, reading `''` as one quote, as `StringBody` says |
| StepLexer.PrefixedTwice | crates/cst-ifc/src/step_lexer.rs:121-139 | putting two texts in front of a decoded body is putting their concatenation |
| StepLexer.ScanDot | crates/cst-ifc/src/step_lexer.rs:147-149 | the dot loop stops at the first dot |
| StepLexer.ScanKeyword | crates/cst-ifc/src/step_lexer.rs:212-218 | the keyword loop stops at the end of the keyword run |
| StepLexer.ScanNumber | crates/cst-ifc/src/step_lexer.rs:163-194 | the number loops find the number's extent and whether it is real |
| StepLexer.LexOne | crates/cst-ifc/src/step_lexer.rs:51-229 | one turn of the loop produces the step `LexStep` describes |
| StepLexer.Tokenize | crates/cst-ifc/src/step_lexer.rs:45-233 | `tokenize` returns the whole token stream or the first lexical error |
| StepLexerPrint.Escape | crates/cst-ifc/src/step_lexer.rs:126-131 | escaping never shortens a string body |
| StepLexerPrint.Lexeme | crates/cst-ifc/src/step_lexer.rs:13-38 | every token has a non-empty lexeme |
| StepLexerPrint.DigitsBefore | crates/cst-ifc/src/step_lexer.rs:104-106 | every character before the end of a digit run is a digit |
| StepLexerPrint.HashDigitsStep | crates/cst-ifc/src/step_lexer.rs:101-116 | `#` and a complete digit run read as the identifier of those digits when it fits in 64 bits |
| StepLexerPrint.EntityIdStep | crates/cst-ifc/src/step_lexer.rs:101-116 | a printed identifier reads back as itself |
| StepLexerPrint.EscapedBody | crates/cst-ifc/src/step_lexer.rs:119-141 | an escaped body followed by a quote decodes to the original text |
| StepLexerPrint.StringStep | crates/cst-ifc/src/step_lexer.rs:119-141 | a quoted, escaped text reads back as that string |
| StepLexerPrint.DottedStep | crates/cst-ifc/src/step_lexer.rs:144-160 | a word between dots reads as `Bool` for T or F and otherwise as an enumeration |
| StepLexerPrint.KeywordStep | crates/cst-ifc/src/step_lexer.rs:210-221 | an upper-case keyword reads back as itself |
| StepLexerPrint.NumberStepAt | crates/cst-ifc/src/step_lexer.rs:195-206 | once its extent is known a number is decided by its text alone |
| StepLexerPrint.NaturalStep | crates/cst-ifc/src/step_lexer.rs:163-207 | the digits of a natural number in range read back as that integer |
| StepLexerPrint.NegativeStep | crates/cst-ifc/src/step_lexer.rs:163-207 | a minus and digits read back as the negative integer |
| StepLexerPrint.PlainRealParses | crates/cst-ifc/src/step_lexer.rs:196-200 | digits, a point and digits parse as a real |
| StepLexerPrint.RealStep | crates/cst-ifc/src/step_lexer.rs:163-207 | a plain real's text reads back as that real |
| StepLexerPrint.DelimiterStep | crates/cst-ifc/src/step_lexer.rs:71-98 | each one-character token reads back as itself |
| StepLexerPrint.LexemeStep | crates/cst-ifc/src/step_lexer.rs:51-229 | any printable token's lexeme followed by a space reads as that token, ending right after it |
| StepLexerPrint.LexFromPrint | crates/cst-ifc/src/step_lexer.rs:45-233 | from any position where printed tokens start, the lexer returns exactly those tokens |
| StepLexerPrint.LexPrint | crates/cst-ifc/src/step_lexer.rs:45-233 | `tokenize` inverts the writer on every sequence of printable tokens |
| StepLexerPrint.ExamplesPrintable | crates/cst-ifc/src/step_lexer.rs:243-335 | the identifiers, numbers, keywords and enumerations of the lexer's tests are printable, so their round trip holds |
| StepLexerPrint.HashWithoutDigits | crates/cst-ifc/src/step_lexer.rs:107-111 | `#` not followed by a digit is a parse error |
| StepLexerPrint.EntityIdTooLarge | crates/cst-ifc/src/step_lexer.rs:112-114 | an identifier beyond 64 bits is a parse error |
| StepLexerPrint.IntegerTooLarge | crates/cst-ifc/src/step_lexer.rs:202-204 | an integer beyond the signed 64-bit range is a parse error |
| StepLexerPrint.UnclosedBody | crates/cst-ifc/src/step_lexer.rs:122-125 | a string body without its closing quote is a parse error |
| StepLexerPrint.UnterminatedString | crates/cst-ifc/src/step_lexer.rs:122-125 | an input ending inside a string literal fails with a parse error |
| StepLexerPrint.UnterminatedEnum | crates/cst-ifc/src/step_lexer.rs:150-152 | an enumeration without its closing dot fails with a parse error |
| StepLexerPrint.UnexpectedCharacter | crates/cst-ifc/src/step_lexer.rs:223-228 | a character that starts no lexeme fails with a parse error |
| StepLexerPrint.BlankLexesEmpty | crates/cst-ifc/src/step_lexer.rs:52-56 | white space alone gives no tokens |
| StepLexerPrint.CommentSkipped | crates/cst-ifc/src/step_lexer.rs:58-68 | a closed comment is skipped as a whole |
| StepLexerPrint.CommentThen | crates/cst-ifc/src/step_lexer.rs:58-68 | lexing resumes just after the comment's closer |
| StepLexerPrint.CommentEndAt | crates/cst-ifc/src/step_lexer.rs:61-63 | the comment scan ends at the first closer |
| StepLexerPrint.UnclosedCommentTail | crates/cst-ifc/src/step_lexer.rs:59-66 | an unclosed comment stops one character before the end, which is then read as a token (`/*ab` gives the keyword `B`) |
| StepParser.ConsTwice | crates/cst-ifc/src/step_parser.rs:265-281 | putting two runs in front of a parse result is putting their concatenation |
| StepParser.AttributeAt | crates/cst-ifc/src/step_parser.rs:284-353 | a successful attribute consumes at least one token, and every failure is a parse error |
| StepParser.ListAt | crates/cst-ifc/src/step_parser.rs:265-281 | a list never moves backwards, and every failure is a parse error |
| StepParser.MoreAt | crates/cst-ifc/src/step_parser.rs:275-278 | the comma loop never moves backwards, and every failure is a parse error |
| StepParser.EntityAt | crates/cst-ifc/src/step_parser.rs:203-262 | a parsed entity spans `#id = NAME (` ... `) ;` with its id and type name read from those tokens; every mismatch is a parse error |
| StepParser.DataAt | crates/cst-ifc/src/step_parser.rs:107-123 | the data loop never moves backwards, and every failure is a parse error |
| StepParser.StringsAt | crates/cst-ifc/src/step_parser.rs:171-200 | string collection never fails and stays within the tokens |
| StepParser.HeaderLoop | crates/cst-ifc/src/step_parser.rs:139-165 | a successful header loop consumes at least its `ENDSEC`, and every failure is a parse error |
| StepParser.HeaderAt | crates/cst-ifc/src/step_parser.rs:133-168 | a header consumes tokens on success, and every failure is a parse error |
| StepParser.FileOf | crates/cst-ifc/src/step_parser.rs:95-130 | every failure of `parse_file` is a parse error |
| StepParser.Parser.constructor | crates/cst-ifc/src/step_parser.rs:59-61 | a new parser holds the tokens at position 0 |
| StepParser.Parser.Peek | crates/cst-ifc/src/step_parser.rs:63-65 | `peek` gives a token iff the cursor is inside the tokens, and then the one under it |
| StepParser.Parser.Advance | crates/cst-ifc/src/step_parser.rs:67-74 | `advance` returns the current token and moves one on, or fails with a parse error at the end without moving |
| StepParser.Parser.ExpectKeyword | crates/cst-ifc/src/step_parser.rs:76-83 | succeeds iff the current token is that keyword, then moves one on; otherwise a parse error |
| StepParser.Parser.ExpectSemicolon | crates/cst-ifc/src/step_parser.rs:85-92 | succeeds iff the current token is `;`, then moves one on; otherwise a parse error |
| StepParser.Parser.ParseAttribute | crates/cst-ifc/src/step_parser.rs:284-353 | the method's result and final position are `AttributeAt`'s |
| StepParser.Parser.ParseAttributeList | crates/cst-ifc/src/step_parser.rs:265-281 | the method's result and final position are `ListAt`'s |
| StepParser.Parser.ParseEntity | crates/cst-ifc/src/step_parser.rs:203-262 | the method's result and final position are `EntityAt`'s |
| StepParser.Parser.CollectHeaderStrings | crates/cst-ifc/src/step_parser.rs:171-200 | the method never fails and returns `StringsAt`'s strings and position |
| StepParser.Parser.ParseHeader | crates/cst-ifc/src/step_parser.rs:133-168 | the method's result and final position are `HeaderAt`'s |
| StepParser.Parser.ParseData | crates/cst-ifc/src/step_parser.rs:104-123 | the data loop's result and final position are `DataAt`'s |
| StepParser.Parser.ParseFile | crates/cst-ifc/src/step_parser.rs:95-130 | `parse_file` returns `FileOf` of the tokens |
| StepParser.ParseStep | crates/cst-ifc/src/step_parser.rs:357-361 | `parse_step` is the lexer's error or the parse of its tokens |
| StepParserFacts.ScalarInjective | crates/cst-ifc/src/step_parser.rs:284-335 | different scalar tokens never give the same attribute |
| StepParserFacts.AttributeShape | crates/cst-ifc/src/step_parser.rs:284-353 | a successful attribute is either its first token's scalar, one token long, or a parenthesised list ending in `)` |
| StepParserFacts.NotAnAttribute | crates/cst-ifc/src/step_parser.rs:349-351 | a keyword or punctuation other than `(` is a parse error |
| StepParserFacts.EmptyListIff | crates/cst-ifc/src/step_parser.rs:268-271 | a list reads as empty iff `)` comes first, and then the `)` is left for the caller |
| StepParserFacts.EmptyParens | crates/cst-ifc/src/step_parser.rs:336-348 | `()` as an attribute is the empty list, two tokens long |
| StepParserFacts.StraySkipped | crates/cst-ifc/src/step_parser.rs:118-121 | stray tokens in the data section are skipped without effect |
| StepParserFacts.DataKeepsOrder | crates/cst-ifc/src/step_parser.rs:107-123 | two consecutive entities are kept in order |
| StepParserFacts.UnknownEntryIgnored | crates/cst-ifc/src/step_parser.rs:146-158 | a header entry with an unknown keyword is read and ignored |
| StepParserFacts.LaterEntryWins | crates/cst-ifc/src/step_parser.rs:154-158 | when a header entry appears twice the later one wins |
| StepParserFacts.RecordOnlyItsField | crates/cst-ifc/src/step_parser.rs:154-158 | recording a header entry changes only its own field |
| StepParserFacts.DescriptionTokens | crates/cst-ifc/src/step_parser.rs:400-405 | the example entry's arguments are eight tokens ending in `;` |
| StepParserFacts.NestedDescription | crates/cst-ifc/src/step_parser.rs:171-200 | the nested `FILE_DESCRIPTION` arguments give both strings in order, up to the closing `)` |
| StepParserFacts.DescriptionHeader | crates/cst-ifc/src/step_parser.rs:400-440 | a header with that entry records both strings as the description |
| StepParserPrint.AttrTokens | crates/cst-ifc/src/step_parser.rs:284-353 | a written attribute is non-empty and never starts with `)` or `,` |
| StepParserPrint.AttrRoundTrip | crates/cst-ifc/src/step_parser.rs:284-353 | a written attribute, nested to any depth, parses back as itself and ends where it was written |
| StepParserPrint.ItemsRoundTrip | crates/cst-ifc/src/step_parser.rs:265-281 | a written attribute list parses back as itself |
| StepParserPrint.TailRoundTrip | crates/cst-ifc/src/step_parser.rs:275-278 | comma-separated items parse back as themselves |
| StepParserPrint.EntityRoundTrip | crates/cst-ifc/src/step_parser.rs:203-262 | a written entity parses back as itself |
| StepParserPrint.DataRoundTrip | crates/cst-ifc/src/step_parser.rs:104-123 | a written data section gives back its entities in order |
| StepParserPrint.StringsRoundTrip | crates/cst-ifc/src/step_parser.rs:171-200 | a written header entry's strings are collected back in order |
| StepParserPrint.EntryStep | crates/cst-ifc/src/step_parser.rs:146-160 | one written header entry records its strings and moves past them |
| StepParserPrint.HeaderRoundTrip | crates/cst-ifc/src/step_parser.rs:133-168 | a written header parses back as itself |
| StepParserPrint.RecordAll | crates/cst-ifc/src/step_parser.rs:154-158 | recording the three known entries rebuilds the header |
| StepParserPrint.FileOfSections | crates/cst-ifc/src/step_parser.rs:95-130 | `parse_file` succeeds when the sections follow one another as written |
| StepParserPrint.FileRoundTrip | crates/cst-ifc/src/step_parser.rs:95-130 | the parser returns exactly the file the writer wrote |
| StepParserPrint.FilePrintable | crates/cst-ifc/src/step_parser.rs:95-130 | every token of a writable file is one the lexer reads back |
| StepParserPrint.StepRoundTrip | crates/cst-ifc/src/step_parser.rs:357-361 | `parse_step` of a writable file's text gives the file back |
| Core.Trim | crates/cst-ifc/src/ifc_reader.rs:445 | trimming never lengthens a string |
| Core.TrimStartLeaves | crates/cst-ifc/src/ifc_reader.rs:445 | `trim_start` leaves a suffix of the text that does not start with white space |
| Core.TrimEndLeaves | crates/cst-ifc/src/ifc_reader.rs:445 | `trim_end` leaves a prefix of the text that does not end with white space |
| Core.TrimIsTrimmed | crates/cst-ifc/src/ifc_reader.rs:445 | `trim` leaves no white space at either end |
| Core.TrimOfTrimmed | crates/cst-ifc/src/ifc_reader.rs:445 | `trim` changes nothing on text without white space at its ends |
| Core.NatToDigitsValue | crates/cst-ifc/src/ifc_reader.rs:450 | the decimal rendering of a number reads back as that number |
| Core.ParseU64 | crates/cst-ifc/src/ifc_reader.rs:450 | an accepted unsigned decimal is below 2^64 |
| Core.ParseU64OfDigits | crates/cst-ifc/src/ifc_reader.rs:450 | the digits of a number below 2^64 parse back as it |
| Core.DigitsEnd | crates/cst-ifc/src/ifc_reader.rs:524 | the digit run ends at the end of the text or at a non-digit |
| Core.ParseI64 | crates/cst-ifc/src/step_lexer.rs:202-204 | an accepted signed decimal lies in the 64-bit signed range |
| Core.ParseI64OfDigits | crates/cst-ifc/src/step_lexer.rs:202-204 | the digits of a number in range, with or without a leading minus, parse back as it |
| IfcText.FirstIndex | crates/cst-ifc/src/ifc_reader.rs:448 | `find` gives the first index holding the character, and `None` iff there is none |
| IfcText.LastIndex | crates/cst-ifc/src/ifc_reader.rs:460 | `rfind` gives the last index holding the character, and `None` iff there is none |
| IfcText.SplitIfcArgs | crates/cst-ifc/src/ifc_reader.rs:474-511 | the character loop computes the split of the fold |
| IfcText.SplitFromConcat | crates/cst-ifc/src/ifc_reader.rs:480-502 | splitting a concatenation continues from the state after the first part |
| IfcText.SplitKeepsRaw | crates/cst-ifc/src/ifc_reader.rs:494-497 | pieces already cut off are never looked at again |
| IfcText.TrimAllConcat | crates/cst-ifc/src/ifc_reader.rs:495 | trimming every piece distributes over concatenation |
| IfcText.WholePiece | crates/cst-ifc/src/ifc_reader.rs:480-502 | without a top-level comma the whole text stays one piece |
| IfcText.NoCommaOneArg | crates/cst-ifc/src/ifc_reader.rs:504-510 | a text without a top-level comma is one trimmed argument, or none when it trims to nothing |
| IfcText.FirstCut | crates/cst-ifc/src/ifc_reader.rs:474-511 | cutting at the first top-level comma gives the trimmed text before it followed by the split of the rest; an empty piece before a comma is kept |
| IfcText.ExtractSingleRef | crates/cst-ifc/src/ifc_reader.rs:515-531 | an extracted reference fits in 64 bits |
| IfcText.ExtractAt | crates/cst-ifc/src/ifc_reader.rs:515-531 | the reference is the digit run right after the first `#`, or none when that run is empty |
| IfcText.ExtractWritten | crates/cst-ifc/src/ifc_reader.rs:515-531 | a reference written after text without `#` is found, whatever follows it |
| IfcText.FirstHashOnly | crates/cst-ifc/src/ifc_reader.rs:522-530 | when no digit follows the first `#`, later references are not looked for |
| IfcText.ExtractNone | crates/cst-ifc/src/ifc_reader.rs:516-519 | `$`, an empty argument and text without `#` have no reference |
| IfcText.ParseEntityRefs | crates/cst-ifc/src/ifc_reader.rs:821-853 | the character loop computes the references of the fold |
| IfcText.RefsFromConcat | crates/cst-ifc/src/ifc_reader.rs:826-843 | scanning a concatenation continues from the state after the first part |
| IfcText.DigitsCollected | crates/cst-ifc/src/ifc_reader.rs:830-832 | digits after an open `#` only extend the current number |
| IfcText.OneRef | crates/cst-ifc/src/ifc_reader.rs:826-843 | `#`, digits and a closing character record the number |
| IfcText.HeadConsumed | crates/cst-ifc/src/ifc_reader.rs:826-843 | a reference is recorded before the rest of the text is read |
| IfcText.ItemsCollected | crates/cst-ifc/src/ifc_reader.rs:826-843 | comma-separated references followed by `)` are all recorded in order |
| IfcText.RefListRoundTrip | crates/cst-ifc/src/ifc_reader.rs:821-853 | reading back a written list of references gives exactly those references, in order |
| IfcText.ParseRealList | crates/cst-ifc/src/ifc_reader.rs:856-905 | the character loop computes the numbers of the fold |
| IfcText.RealsFromConcat | crates/cst-ifc/src/ifc_reader.rs:861-902 | scanning a concatenation continues from the state after the first part |
| IfcText.PlainExtends | crates/cst-ifc/src/ifc_reader.rs:896-900 | text without parentheses or commas only extends the current item |
| IfcText.NumberThenComma | crates/cst-ifc/src/ifc_reader.rs:883-891 | a number and a comma at depth one record the number and start a new item |
| IfcText.NumberThenClose | crates/cst-ifc/src/ifc_reader.rs:869-881 | the last number and `)` record the number and return to depth zero |
| IfcText.NumbersRead | crates/cst-ifc/src/ifc_reader.rs:861-902 | comma-separated numbers and `)` are all recorded in order |
| IfcText.RealListRoundTrip | crates/cst-ifc/src/ifc_reader.rs:856-905 | reading back a written list of numbers gives exactly those numbers, and `()` gives none |
| IfcText.RealListFloats | crates/cst-ifc/src/ifc_reader.rs:876-889 | whatever the text, every number returned is float text: an item that does not parse is dropped |
| IfcText.NestedGroupJoinsItem | crates/cst-ifc/src/ifc_reader.rs:863-872 | a parenthesised group inside the list is not split at its commas |
| IfcText.ParseEntityLineAsWritten | crates/cst-ifc/src/ifc_reader.rs:444-468 | a line without `=` gives `None`; a line whose first character is `=` panics on the id slice; an entity read has an id below 2^64, and its type name and arguments fit in the line beside `#`, `=`, `(` and `)` |
| IfcText.TypeAndArgsAsWritten | crates/cst-ifc/src/ifc_reader.rs:452-461 | an entity read after `=` keeps the id, and its type name and arguments fit in the text beside `(` and `)` |
| IfcText.ParseEntityLine | crates/cst-ifc/src/ifc_reader.rs:444-468 | the same as the function as written, with `None` where that panics |
| IfcText.TypeAndArgs | crates/cst-ifc/src/ifc_reader.rs:452-461 | the same as the text after `=` as written, with `None` where that panics |
| IfcText.CorrectedAgrees | crates/cst-ifc/src/ifc_reader.rs:444-468 | the corrected reading agrees with the function as written wherever that does not panic, and is `None` where it panics |
| IfcText.EntityTexts | crates/cst-ifc/src/ifc_reader.rs:415-437 | every text handed to `parse_entity_line` ends with `;`, and starts with `#` when the accumulated text did; there are never more texts than lines |
| IfcText.CollectEntityTexts | crates/cst-ifc/src/ifc_reader.rs:407-437 | the line loop hands on exactly the texts `EntityTexts` gives, each starting with `#` and ending with `;` |
| IfcText.OneLineHandedOn | crates/cst-ifc/src/ifc_reader.rs:415-429 | a complete one-line entity after lines that do not start with `#` is handed on unchanged and alone |
| IfcText.ContinuationDropped | crates/cst-ifc/src/ifc_reader.rs:415-421 | a continuation line not starting with `#` is skipped, so an entity split over two lines runs into the next entity line |
| IfcText.FindingLineHandedOn | crates/cst-ifc/src/ifc_reader.rs:415-429 | the line `#1=A)(;` alone in a file reaches `parse_entity_line` unchanged |
| IfcText.CloseBeforeOpenPanics | crates/cst-ifc/src/ifc_reader.rs:459-461 | the line `#1=A)(;` passes the reader's line filter, makes the function as written panic, and gives `None` under the corrected reading |
| IfcText.AfterEquals | crates/cst-ifc/src/ifc_reader.rs:453-461 | on a written line the type name and raw arguments are cut back out of the text after `=` |
| IfcText.BeforeEquals | crates/cst-ifc/src/ifc_reader.rs:445-450 | on a written line the id is cut back out of the text before `=` |
| IfcText.ReadPieces | crates/cst-ifc/src/ifc_reader.rs:444-468 | once the delimiters are found, both readings put the entity together from the pieces between them |
| IfcText.EntityLineRoundTrip | crates/cst-ifc/src/ifc_reader.rs:444-468 | reading back a written entity line gives the entity, whatever its raw arguments contain |
| IfcText.WrittenDelimiters | crates/cst-ifc/src/ifc_reader.rs:444-468 | on a written line `=`, the first `(` and the last `)` stand where the writer put them |
| IfcFaces.PointOf | crates/cst-ifc/src/ifc_reader.rs:804-818 | a point is read only from an existing `IFCCARTESIANPOINT`, and its three coordinates are numbers |
| IfcFaces.CartesianPoint | crates/cst-ifc/src/ifc_reader.rs:931-943 | a point entity written with three numbers reads back as exactly those three coordinates |
| IfcFaces.ShortPoint | crates/cst-ifc/src/ifc_reader.rs:811-817 | a missing point, an entity of another type, or fewer than three numbers give no point |
| IfcFaces.LoopPoints | crates/cst-ifc/src/ifc_reader.rs:766-772 | a loop never has more points than references |
| IfcFaces.LoopPointsEmpty | crates/cst-ifc/src/ifc_reader.rs:766-776 | a loop has no points exactly when none of its references is a readable point |
| IfcFaces.LoopPointsAll | crates/cst-ifc/src/ifc_reader.rs:766-772 | when every reference is a point, the loop holds all of them in reference order |
| IfcFaces.Reverse | crates/cst-ifc/src/ifc_reader.rs:783 | reversal keeps the length and puts position i at the mirrored position |
| IfcFaces.ReverseTwice | crates/cst-ifc/src/ifc_reader.rs:783 | reversing twice restores the points |
| IfcFaces.LoopOf | crates/cst-ifc/src/ifc_reader.rs:751-763 | the loop of a bound is found only when both the bound and the loop entity exist |
| IfcFaces.BoundOf | crates/cst-ifc/src/ifc_reader.rs:742-785 | a resolved bound exists, has at least one point, and is outer exactly when its type is `IFCFACEOUTERBOUND` |
| IfcFaces.BoundOrientation | crates/cst-ifc/src/ifc_reader.rs:778-785 | a bound carries its loop's points unchanged, or reversed exactly when its orientation argument is `.F.` |
| IfcFaces.Assign | crates/cst-ifc/src/ifc_reader.rs:787-796 | after any bound is placed the face has an outer boundary |
| IfcFaces.LoopPointsOf | crates/cst-ifc/src/ifc_reader.rs:766-772 | the point-collecting loop yields exactly the readable points of the loop, in order |
| IfcFaces.ReadBound | crates/cst-ifc/src/ifc_reader.rs:742-785 | one pass of the bound loop yields exactly the bound specified by `BoundOf` |
| IfcFaces.ResolveFace | crates/cst-ifc/src/ifc_reader.rs:730-801 | the face loop computes the face of the specification: outer boundary and holes as assigned bound by bound |
| IfcFaces.Somes | crates/cst-ifc/src/ifc_reader.rs:742-746 | keeping only present values never lengthens the list |
| IfcFaces.SomesEmpty | crates/cst-ifc/src/ifc_reader.rs:742-746 | nothing is kept exactly when every value is absent |
| IfcFaces.BoundOpts | crates/cst-ifc/src/ifc_reader.rs:742-776 | there is one outcome per bound reference |
| IfcFaces.ScanIsAssignAll | crates/cst-ifc/src/ifc_reader.rs:742-797 | the face loop only sees the bounds that resolve: skipped references change nothing |
| IfcFaces.BoundsEmpty | crates/cst-ifc/src/ifc_reader.rs:742-776 | no bound is resolved exactly when every reference is skipped |
| IfcFaces.LastOuter | crates/cst-ifc/src/ifc_reader.rs:787-793 | the last explicit outer boundary is the points of some bound marked outer |
| IfcFaces.PointLists | crates/cst-ifc/src/ifc_reader.rs:787-796 | one point list per bound, in bound order |
| IfcFaces.OuterChoice | crates/cst-ifc/src/ifc_reader.rs:787-799 | a face has an outer boundary iff some bound resolved; it is the last bound marked outer, or the first bound when none is marked |
| IfcFaces.NothingLost | crates/cst-ifc/src/ifc_reader.rs:787-796 | every resolved bound ends up, as a multiset, either as the outer boundary or as a hole; demotion loses none |
| IfcFaces.FaceNone | crates/cst-ifc/src/ifc_reader.rs:730-801 | a face is missing exactly when its entity is missing or none of its bound references resolves |
| IfcFaces.FaceOuter | crates/cst-ifc/src/ifc_reader.rs:787-800 | the outer boundary of a resolved face is the last bound marked outer, or else its first resolved bound |
| IfcFaces.FaceKeepsEveryBound | crates/cst-ifc/src/ifc_reader.rs:787-800 | outer boundary and holes together are exactly the resolved bounds, so there is one hole fewer than bounds |
| IfcFaces.MissingEntities | crates/cst-ifc/src/ifc_reader.rs:956-963 | an empty entity table yields neither a point nor a face |
| IfcFaces.FirstSome | crates/cst-ifc/src/ifc_reader.rs:101-106 | the first-match loop yields nothing iff no reference resolves, and otherwise the result of the first one that does |
| IfcFaces.FirstSomeAt | crates/cst-ifc/src/ifc_reader.rs:73-78 | when every earlier reference fails, the loop stops at the first one that resolves |
| IfcFaces.ColourOfArgs | crates/cst-ifc/src/ifc_reader.rs:166-175 | a colour is read only when its red, green and blue arguments are all numbers |
| IfcFaces.ColourRgb | crates/cst-ifc/src/ifc_reader.rs:157-176 | a colour comes only from an existing `IFCCOLOURRGB` whose three channels are numbers |
| IfcFaces.RenderingColour | crates/cst-ifc/src/ifc_reader.rs:136-154 | a rendering colour comes only from an `IFCSURFACESTYLERENDERING`, and is the colour of some colour entity of the file |
| IfcFaces.SurfaceStyleColour | crates/cst-ifc/src/ifc_reader.rs:110-133 | a surface style colour comes only from an `IFCSURFACESTYLE`, and is the colour of some colour entity of the file |
| IfcFaces.AssignmentColour | crates/cst-ifc/src/ifc_reader.rs:85-107 | an assignment colour comes only from an `IFCPRESENTATIONSTYLEASSIGNMENT`, and is the colour of some colour entity of the file |
| IfcFaces.StylingOf | crates/cst-ifc/src/ifc_reader.rs:52-78 | only an `IFCSTYLEDITEM` styles an item, and the colour it gives is one of the file's colour entities |
| IfcFaces.StylingOpts | crates/cst-ifc/src/ifc_reader.rs:52 | there is one outcome per entity visited |
| IfcFaces.ReadStyling | crates/cst-ifc/src/ifc_reader.rs:53-78 | one pass of the colour-map loop yields exactly the styling of the specification |
| IfcFaces.FirstResolved | crates/cst-ifc/src/ifc_reader.rs:73-78 | the loop that breaks at the first colour yields the first reference that resolves |
| IfcFaces.BuildBrepColorMap | crates/cst-ifc/src/ifc_reader.rs:48-82 | the colour map built by the loop equals the specification map for the given visiting order |
| IfcFaces.MapOfKeys | crates/cst-ifc/src/ifc_reader.rs:73-78 | an item is a key of the map exactly when some visited entity styles it |
| IfcFaces.MapOfLastWins | crates/cst-ifc/src/ifc_reader.rs:75 | the last styling of an item overwrites the earlier ones |
| IfcFaces.MapOfGiven | crates/cst-ifc/src/ifc_reader.rs:75 | every entry of the map was inserted by some visited styling |
| IfcFaces.ColourMapKeys | crates/cst-ifc/src/ifc_reader.rs:48-82 | the items in the colour map are exactly those styled by some visited `IFCSTYLEDITEM` |
| IfcFaces.ColourMapLastWins | crates/cst-ifc/src/ifc_reader.rs:48-82 | the colour of an item is the one given by the last entity styling it in visiting order |
| IfcFaces.ColourMapFromFile | crates/cst-ifc/src/ifc_reader.rs:48-82 | every colour in the map is that of some `IFCCOLOURRGB` entity of the file |
| IfcSpatial.NewNode | crates/cst-ifc/src/ifc_spatial.rs:25-33 | a new node is a one-node subtree with the given id, kind and name and no description |
| IfcSpatial.AddChild | crates/cst-ifc/src/ifc_spatial.rs:36-38 | adding a child appends it after the existing children and changes nothing else of the node |
| IfcSpatial.Count | crates/cst-ifc/src/ifc_spatial.rs:66-68 | a subtree counts its root and at least one node per child |
| IfcSpatial.CountAll | crates/cst-ifc/src/ifc_spatial.rs:67 | the children's counts sum to at least the number of children |
| IfcSpatial.FindById | crates/cst-ifc/src/ifc_spatial.rs:41-51 | a node with the id is returned itself; any node returned carries the id and belongs to the subtree |
| IfcSpatial.FindIn | crates/cst-ifc/src/ifc_spatial.rs:45-50 | a node found among the children carries the id and belongs to one of their subtrees |
| IfcSpatial.FirstWithId | crates/cst-ifc/src/ifc_spatial.rs:41-51 | a node found by id is one of the searched nodes and carries that id |
| IfcSpatial.FindByKind | crates/cst-ifc/src/ifc_spatial.rs:54-63 | the collecting loop returns the nodes of the kind in the subtree's depth-first pre-order |
| IfcSpatial.OfKindConcat | crates/cst-ifc/src/ifc_spatial.rs:59-61 | extending the result child by child collects the kind from each subtree in turn |
| IfcSpatial.OfKindSpec | crates/cst-ifc/src/ifc_spatial.rs:54-63 | a node is collected iff it is in the list and has the kind, and no more are collected than there are nodes |
| IfcSpatial.FirstWithIdConcat | crates/cst-ifc/src/ifc_spatial.rs:45-49 | the first hit over two parts is the first hit in the front part, else in the back part |
| IfcSpatial.FirstWithIdSpec | crates/cst-ifc/src/ifc_spatial.rs:41-51 | there is no hit iff no node has the id; a hit is the node at the first position holding the id |
| IfcSpatial.FindByIdFirst | crates/cst-ifc/src/ifc_spatial.rs:41-51 | the depth-first search returns the first node in pre-order that has the id |
| IfcSpatial.FindInFirst | crates/cst-ifc/src/ifc_spatial.rs:45-50 | the search over the children returns the first node with the id in their joint pre-order |
| IfcSpatial.FindByIdSpec | crates/cst-ifc/src/ifc_spatial.rs:41-51 | `find_by_id` finds a node iff some node of the subtree has the id, and then the first such node in pre-order |
| IfcSpatial.PreOrderLength | crates/cst-ifc/src/ifc_spatial.rs:66-68 | `count` is the number of nodes the subtree's pre-order lists |
| IfcSpatial.PreOrderAllLength | crates/cst-ifc/src/ifc_spatial.rs:67 | the children's pre-order lists as many nodes as their counts sum to |
| IfcSpatial.FindByKindSpec | crates/cst-ifc/src/ifc_spatial.rs:54-68 | `find_by_kind` returns exactly the subtree's nodes of that kind, at most `count` of them |
| IfcSpatial.AddChildGrows | crates/cst-ifc/src/ifc_spatial.rs:36-38 | adding a child appends the child's subtree to the pre-order and adds its count |
| IfcSpatial.SampleTreeBuilt | crates/cst-ifc/src/ifc_spatial.rs:79-90 | the sample hierarchy is what `new` and `add_child` build from the five nodes |
| IfcSpatial.SamplePreOrder | crates/cst-ifc/src/ifc_spatial.rs:119-126 | the sample hierarchy is project, site, building, then its two storeys, one site and one building deep |
| IfcSpatial.SampleCount | crates/cst-ifc/src/ifc_spatial.rs:92-96 | the sample hierarchy counts five nodes |
| IfcSpatial.SampleFind | crates/cst-ifc/src/ifc_spatial.rs:98-110 | id 3 finds "Building A" of kind building and id 999 finds nothing |
| IfcSpatial.SampleStoreys | crates/cst-ifc/src/ifc_spatial.rs:112-117 | the sample hierarchy holds two building storeys |
| IfcSpatial.OfKindOfFive | crates/cst-ifc/src/ifc_spatial.rs:54-63 | of five nodes where only the last two have the kind, exactly those two are collected, in order |
| IfcToMesh.FanTriangulate | crates/cst-ifc/src/ifc_to_mesh.rs:188-199 | the loop builds the fan `[0, i, i + 1]` over the polygon's vertices, nothing for fewer than three |
| IfcToMesh.DroppedIsLargest | crates/cst-ifc/src/ifc_to_mesh.rs:149-173 | the dropped axis carries the largest normal component, with ties going to Z, then to Y |
| IfcToMesh.Projected | crates/cst-ifc/src/ifc_to_mesh.rs:148-176 | the projection has two coordinates per vertex |
| IfcToMesh.ProjectedAt | crates/cst-ifc/src/ifc_to_mesh.rs:155-173 | vertex i lands at positions 2i and 2i + 1 with the dropped coordinate left out |
| IfcToMesh.ProjectTo2d | crates/cst-ifc/src/ifc_to_mesh.rs:148-176 | the three loops compute the projection of the specification |
| IfcToMesh.ProjectionExamples | crates/cst-ifc/src/ifc_to_mesh.rs:528-565 | normals along Z, Y and X project onto the XY, XZ and YZ planes as the tests expect |
| IfcToMesh.AllVertices | crates/cst-ifc/src/ifc_to_mesh.rs:87-93 | gathering the holes never drops outer vertices |
| IfcToMesh.HoleStarts | crates/cst-ifc/src/ifc_to_mesh.rs:88-92 | there is one start index per hole |
| IfcToMesh.Repeat | crates/cst-ifc/src/ifc_to_mesh.rs:74 | every vertex of a face gets that face's normal |
| IfcToMesh.PushVertices | crates/cst-ifc/src/ifc_to_mesh.rs:72-75 | the face's vertices are appended to the positions and its normal once per vertex to the normals |
| IfcToMesh.PushIndices | crates/cst-ifc/src/ifc_to_mesh.rs:114-116 | the triangulator's indices are appended moved by the vertex offset |
| IfcToMesh.PushTriangles | crates/cst-ifc/src/ifc_to_mesh.rs:77-81 | the fan's triangles are appended three indices each, moved by the vertex offset |
| IfcToMesh.GatherVertices | crates/cst-ifc/src/ifc_to_mesh.rs:87-93 | the loop lists the outer boundary then each hole, and records where each hole starts |
| IfcToMesh.AppendFace | crates/cst-ifc/src/ifc_to_mesh.rs:52-136 | one face adds exactly its part (fan, ear-clipping or fallback fan) or nothing, and the offset stays the number of positions and normals |
| IfcToMesh.FacesToTrimesh | crates/cst-ifc/src/ifc_to_mesh.rs:47-140 | the face loop computes the mesh of the specification, `vertex_offset` always counting the positions |
| IfcToMesh.NormalPerPosition | crates/cst-ifc/src/ifc_to_mesh.rs:72-75 | the mesh has exactly one normal per position |
| IfcToMesh.PartInRange | crates/cst-ifc/src/ifc_to_mesh.rs:67-135 | the triangles a face adds refer only to the vertices it adds |
| IfcToMesh.TrimeshInRange | crates/cst-ifc/src/ifc_to_mesh.rs:47-140 | every index of the resulting mesh refers to one of its positions |
| IfcToMesh.ShortFaceSkipped | crates/cst-ifc/src/ifc_to_mesh.rs:54-57 | a face with fewer than three outer points leaves the mesh unchanged |
| IfcToMesh.SmallFaceFanned | crates/cst-ifc/src/ifc_to_mesh.rs:67-83 | a triangle or quad without holes adds its points and the fan over them, moved past the points already present |
| IfcToMesh.TriangleAppended | crates/cst-ifc/src/ifc_to_mesh.rs:361-383 | a triangle without holes adds `[k, k + 1, k + 2]` after k points, so two triangles give `[0, 1, 2, 3, 4, 5]` |
| IfcToMesh.MergeTrimeshes | crates/cst-ifc/src/ifc_to_mesh.rs:253-277 | the merge loop computes the merged mesh of the specification |
| IfcToMesh.MergeKeepsAll | crates/cst-ifc/src/ifc_to_mesh.rs:263-274 | merging keeps every position of every mesh in order, and every index |
| IfcToMesh.MergeAddsTriangles | crates/cst-ifc/src/ifc_to_mesh.rs:263-274 | for meshes of whole triangles the merged triangle count is the sum of theirs |
| IfcToMesh.MergeInRange | crates/cst-ifc/src/ifc_to_mesh.rs:268-273 | meshes whose indices refer to their own positions merge into one whose indices still do |
| IfcToMesh.MergedName | crates/cst-ifc/src/ifc_to_mesh.rs:254-259 | nothing to merge gives an empty mesh named `merged`; otherwise the first mesh's name and all positions |
| IfcToMesh.MergeTwo | crates/cst-ifc/tests/test_ifc_to_mesh.rs:77-97 | two meshes of whole triangles merge into one with the sum of their triangles and positions |
| Triangles.FanShape | crates/cst-ifc/src/ifc_to_mesh.rs:188-199 | the fan over n vertices has n - 2 triangles, the i-th being `[0, i + 1, i + 2]`, and none below three vertices |
| Triangles.Flatten | crates/cst-mesh/src/face_tessellator.rs:26-30 | an index buffer holds three indices per triangle |
| Triangles.FlattenBelow | crates/cst-ifc/src/ifc_to_mesh.rs:77-81 | triangles over vertices below n flatten into indices below n |
| Triangles.FanBelow | crates/cst-ifc/src/ifc_to_mesh.rs:188-199 | every index of the fan over n vertices names one of them |
| Triangles.Shift | crates/cst-mesh/src/triangulate.rs:30-31 | each index is moved by the offset, and there are as many as before |
| Triangles.FlattenSnoc | crates/cst-mesh/src/face_tessellator.rs:26-30 | flattening one more triangle appends its three corners |
| Triangles.FlattenAt | crates/cst-mesh/src/face_tessellator.rs:26-30 | triangle k of a flattened list sits at indices 3k, 3k + 1 and 3k + 2 |
| Triangles.FanTriangleAt | crates/cst-mesh/src/face_tessellator.rs:25-30 | the fan's buffer has 3(n - 2) indices and triangle k is `[0, k + 1, k + 2]` |
| Triangles.FlattenConcat | crates/cst-ifc/src/ifc_to_mesh.rs:77-81 | flattening distributes over concatenation |
| TriangleMeshes.InRangeTriangles | crates/cst-mesh/src/triangulate.rs:43-47 | a mesh whose indices all name positions has complete triangles that do too |
| TriangleMeshes.VertexCount | crates/cst-mesh/src/triangulate.rs:14-16 | a mesh with an index that names a position has at least one vertex |
| TriangleMeshes.TriangleCount | crates/cst-mesh/src/triangulate.rs:19-21 | the count is the number of complete index triples: a trailing incomplete triple is dropped |
| TriangleMeshes.Merge | crates/cst-mesh/src/triangulate.rs:25-32 | merging adds the vertex and index counts |
| TriangleMeshes.MergeKeepsBoth | crates/cst-mesh/src/triangulate.rs:25-32 | the first mesh comes first and unchanged, and every index of the other names the same position as before, past the first mesh's positions |
| TriangleMeshes.MergeInRange | crates/cst-mesh/src/triangulate.rs:25-32 | merging meshes whose indices name positions gives a mesh whose indices name positions |
| TriangleMeshes.MergeCounts | crates/cst-mesh/src/triangulate.rs:93-113 | merging adds vertex counts, and triangle counts when the first mesh has whole triangles |
| TriangleMeshes.MergeEmpty | crates/cst-mesh/src/triangulate.rs:25-32 | the default empty mesh is neutral for merging on either side |
| TriangleMeshes.MergeAssociative | crates/cst-mesh/src/triangulate.rs:25-32 | merging is associative: only the order of meshes matters, not the grouping |
| TriangleMeshes.ShiftConcat | crates/cst-mesh/src/triangulate.rs:30-31 | moving indices distributes over concatenation |
| TriangleMeshes.ShiftTwice | crates/cst-mesh/src/triangulate.rs:30-31 | moving by j then by k is moving by j + k |
| TriangleMeshes.MergeTwoTriangles | crates/cst-mesh/src/triangulate.rs:93-113 | two single triangles merge into six vertices, two triangles and indices 0 to 5 |
| TriangleMeshes.AddAt | crates/cst-mesh/src/triangulate.rs:49-51 | adding a normal at one vertex keeps one sum per vertex |
| TriangleMeshes.Sums | crates/cst-mesh/src/triangulate.rs:39-52 | the accumulated sums hold one vector per position |
| TriangleMeshes.Normals | crates/cst-mesh/src/triangulate.rs:38-60 | `compute_normals` assigns one normal per position |
| TriangleMeshes.ComputeNormals | crates/cst-mesh/src/triangulate.rs:38-60 | only the normals change, and they become the normalised sums of the face normals around each position |
| TriangleMeshes.NormalizeAll | crates/cst-mesh/src/triangulate.rs:54-59 | the in-place loop scales each sum to unit length when it is longer than 1e-12 and leaves it otherwise |
| TriangleMeshes.AccumulateTriangle | crates/cst-mesh/src/triangulate.rs:43-52 | one pass adds triangle t's face normal at its three corners, advancing the sums by one triangle |
| TriangleMeshes.UnusedStaysZero | crates/cst-mesh/src/triangulate.rs:39-52 | a vertex no complete triangle uses keeps a zero sum |
| TriangleMeshes.SumsIgnoreRest | crates/cst-mesh/src/triangulate.rs:43 | the sums read only complete triangles: indices past them change nothing |
| TriangleMeshes.NormalsIgnoreIncomplete | crates/cst-mesh/src/triangulate.rs:43 | trailing indices that do not make a whole triangle are ignored, whatever they name |
| TriangleMeshes.SingleTriangleNormals | crates/cst-mesh/src/triangulate.rs:115-124 | every corner of a single triangle gets that triangle's normalised face normal |
| TriangleMeshes.BoundingBox | crates/cst-mesh/src/triangulate.rs:63-65 | the box of the positions, or the origin twice for a mesh without positions |
| FaceTessellator.FanMesh | crates/cst-mesh/src/face_tessellator.rs:21-37 | every index of the fan mesh names one of the polygon's vertices |
| FaceTessellator.TessellatePlanarFace | crates/cst-mesh/src/face_tessellator.rs:15-40 | the index loop builds the fan over the vertices and the normals are then computed, giving the planar face of the specification |
| FaceTessellator.PlanarFaceShape | crates/cst-mesh/src/face_tessellator.rs:15-40 | the planar face keeps the vertices as positions, one normal each, no texture coordinates, and n - 2 triangles, the k-th being `[0, k + 1, k + 2]` |
| FaceTessellator.PlanarFaceExamples | crates/cst-mesh/src/face_tessellator.rs:104-130 | a triangle gives indices `[0, 1, 2]` and a quad `[0, 1, 2, 0, 2, 3]` |
| FaceTessellator.FanExamples | crates/cst-mesh/src/face_tessellator.rs:26-30 | the fans of a triangle and of a quad flatten to `[0, 1, 2]` and `[0, 1, 2, 0, 2, 3]` |
| FaceTessellator.TessellateSurface | crates/cst-mesh/src/face_tessellator.rs:46-96 | the vertex and index loops build the grid mesh of the specification |
| FaceTessellator.NodeRow | crates/cst-mesh/src/face_tessellator.rs:64-72 | one pass of the vertex loop gives the point, normal and texture coordinate of each node of grid row i |
| FaceTessellator.GridIndices | crates/cst-mesh/src/face_tessellator.rs:75-88 | the index loops emit the two triangles of every cell, row after row |
| FaceTessellator.CellRowIndices | crates/cst-mesh/src/face_tessellator.rs:77-87 | one pass of the outer index loop emits the six indices of each cell of row i |
| FaceTessellator.SurfaceIndicesBelow | crates/cst-mesh/src/face_tessellator.rs:75-88 | every grid index names one of the (uDivs + 1)(vDivs + 1) nodes |
| FaceTessellator.SurfaceMeshShape | crates/cst-mesh/src/face_tessellator.rs:42-96 | the grid has (uDivs + 1)(vDivs + 1) positions, as many normals and texture coordinates, 2 uDivs vDivs triangles, and every index in range |
| FaceTessellator.UvsInUnitSquare | crates/cst-mesh/src/face_tessellator.rs:68-71 | with at least one division each way, every texture coordinate lies in the unit square |
| FaceTessellator.FractionInUnit | crates/cst-mesh/src/face_tessellator.rs:69-70 | i / divs lies between 0 and 1 for i at most divs |
| FaceTessellator.SurfaceExample | crates/cst-mesh/src/face_tessellator.rs:145-151 | a 16 by 8 grid has 17 * 9 positions and 256 triangles |
| Tessellate.SubdivideCurve | crates/cst-geometry/src/tessellate.rs:30-58 | the recursion appends exactly the pieces of [t0, t1] of the specification to the points already there |
| Tessellate.CurveToPolyline | crates/cst-geometry/src/tessellate.rs:19-25 | the polyline is the curve's start point followed by the pieces of its whole domain |
| Tessellate.SegmentShape | crates/cst-geometry/src/tessellate.rs:38-57 | the pieces of [t0, t1] end at the curve's point at t1 and number between 1 and 2^(12 - depth) |
| Tessellate.PolylineShape | crates/cst-geometry/src/tessellate.rs:19-58 | the polyline runs from the curve's start to its end with 2 to 1 + 2^12 points, exactly 2 when the domain does not bulge |
| Tessellate.StraightTwoPoints | crates/cst-geometry/src/tessellate.rs:113-121 | a straight line with a non-negative tolerance gives just its two end points |
| Tessellate.LineMidpoint | crates/cst-geometry/src/tessellate.rs:43-50 | on a straight line the point at the middle parameter is the chord midpoint, so the deviation is zero |
| Tessellate.RowPrefix | crates/cst-geometry/src/tessellate.rs:84-87 | the first j samples of row i are the samples (i, 0) to (i, j - 1) |
| Tessellate.Rows | crates/cst-geometry/src/tessellate.rs:81-88 | a grid of `rows` rows `cols` wide has rows * cols samples |
| Tessellate.RowsAt | crates/cst-geometry/src/tessellate.rs:81-88 | sample (i, j) sits at index i * cols + j, the index the triangle loop uses |
| Tessellate.CellRow | crates/cst-geometry/src/tessellate.rs:93-100 | j cells of a row give 2j triangles |
| Tessellate.CellRows | crates/cst-geometry/src/tessellate.rs:91-101 | i cell rows of vDivs cells give 2 i vDivs triangles |
| Tessellate.CellRowBelow | crates/cst-geometry/src/tessellate.rs:94-99 | the cells of row i use only vertices of grid rows i and i + 1 |
| Tessellate.CellRowsBelow | crates/cst-geometry/src/tessellate.rs:91-101 | every corner of the first i cell rows is a vertex of the first i + 1 grid rows |
| Tessellate.SurfaceToTriangles | crates/cst-geometry/src/tessellate.rs:69-104 | the loops return the surface at every grid node, row after row, and the two triangles of each cell |
| Tessellate.SampleGrid | crates/cst-geometry/src/tessellate.rs:81-88 | the vertex loops evaluate the surface at every grid node, row after row |
| Tessellate.SampleRow | crates/cst-geometry/src/tessellate.rs:84-87 | one pass of the inner vertex loop evaluates the surface along grid row i |
| Tessellate.GridCells | crates/cst-geometry/src/tessellate.rs:91-101 | the triangle loops emit the two triangles of every cell, row after row |
| Tessellate.GridShape | crates/cst-geometry/src/tessellate.rs:69-104 | the grid has (uDivs + 1)(vDivs + 1) vertices and 2 uDivs vDivs triangles whose corners are all vertices |
| Tessellate.GridExample | crates/cst-geometry/src/tessellate.rs:147-154 | a 4 by 3 grid has 20 vertices and 24 triangles |
| TopologyToMesh.Positions | crates/cst-mesh/src/topology_to_mesh.rs:22-24 | each vertex of a face walk is replaced by its position, in walk order |
| TopologyToMesh.KeptFacesBelow | crates/cst-mesh/src/topology_to_mesh.rs:16-28 | every face the loop turns into triangles is kept and lies below the slot count |
| TopologyToMesh.TopologyMeshToTriangles | crates/cst-mesh/src/topology_to_mesh.rs:13-35 | the face loop returns the fans of the kept faces, merged in slot order |
| TopologyToMesh.FaceStep | crates/cst-mesh/src/topology_to_mesh.rs:17-31 | one pass merges face f's fan onto the result exactly when f is kept, and leaves the result otherwise |
| TopologyToMesh.FacesMeshSnoc | crates/cst-mesh/src/topology_to_mesh.rs:30-31 | merging one more face's fan onto the result appends it to the merged fans |
| TopologyToMesh.KeptFacesSpec | crates/cst-mesh/src/topology_to_mesh.rs:16-28 | a face is converted iff it exists, lies below the bound and walks at least three vertices; the faces come in increasing slot order |
| TopologyToMesh.KeptFacesMembers | crates/cst-mesh/src/topology_to_mesh.rs:16-28 | the converted faces below n are exactly the kept faces below n |
| TopologyToMesh.KeptFacesIncrease | crates/cst-mesh/src/topology_to_mesh.rs:16 | the converted faces are listed in strictly increasing slot order |
| TopologyToMesh.FacesMeshShape | crates/cst-mesh/src/topology_to_mesh.rs:22-32 | the merged fans hold each face's own positions in turn, with no vertex shared between faces, and two triangles fewer per face than positions |
| TopologyToMesh.MergeFans | crates/cst-mesh/src/topology_to_mesh.rs:31 | merging two fans keeps both position lists, adds the triangle counts and keeps every index in range |
| TopologyToMesh.EmptyTopology | crates/cst-mesh/src/topology_to_mesh.rs:85-91 | a mesh without faces converts to the empty triangle mesh |
| TopologyToMesh.NothingKept | crates/cst-mesh/src/topology_to_mesh.rs:16-28 | without faces nothing is converted |
| TopologyToMesh.MeshTrianglesCounts | crates/cst-mesh/src/topology_to_mesh.rs:13-35 | the result has as many vertices as the kept walks together, two fewer triangles per face, whole triangles and every index in range |
| TopologyToMesh.BuiltFaceLoop | crates/cst-mesh/src/topology_to_mesh.rs:17-24 | in a well-formed mesh the walk of a face is the origins of its ring, at least three, so the face is converted |
| TopologyToMesh.BuiltWalksRing | crates/cst-mesh/src/topology_to_mesh.rs:17-24 | in a well-formed mesh the face walk follows the face's ring |
| TopologyToMesh.WalkIsLoop | crates/cst-mesh/src/topology_to_mesh.rs:17-24 | a walk that follows a ring of three or more half-edges yields the ring's origins and keeps the face |
| TopologyToMesh.RingInTable | crates/cst-mesh/src/topology_to_mesh.rs:17-20 | the ring of a face has between three and as many half-edges as the table holds, so the capped walk covers it |
| TopologyToMesh.BuiltKnownVertices | crates/cst-mesh/src/topology_to_mesh.rs:23 | in a well-formed mesh every vertex a face walk reaches is in the vertex table, so the lookup never panics |
| TopologyToMesh.FaceLoopKnown | crates/cst-mesh/src/topology_to_mesh.rs:23 | each face walk of a well-formed mesh reaches only known vertices |
| TopologyToMesh.BuiltKeepsEveryFace | crates/cst-mesh/src/topology_to_mesh.rs:16-28 | in a well-formed mesh every face is converted |
| TopologyToMesh.UniformFaces | crates/cst-mesh/src/topology_to_mesh.rs:22-24 | faces whose rings all have n half-edges walk n vertices each |
| TopologyToMesh.KeptCount | crates/cst-mesh/src/topology_to_mesh.rs:16-28 | a well-formed mesh converts as many faces as it has |
| TopologyToMesh.KeysFit | crates/cst-mesh/src/topology_to_mesh.rs:16 | a repetition-free list of exactly a set's elements is as long as the set is large |
| TopologyToMesh.BuiltTrianglesCount | crates/cst-mesh/src/topology_to_mesh.rs:42-83 | triangle faces give three vertices and one triangle each: a lone triangle gives 3 and 1, two triangles sharing an edge 6 and 2 |
| TopologyToMesh.BuiltQuadsCount | crates/cst-mesh/src/topology_to_mesh.rs:55-67 | quad faces give four vertices and two triangles each |
| TopologyToMesh.ForFaces | crates/cst-mesh/src/topology_to_mesh.rs:13-35 | faces with rings of n half-edges give n vertices and n - 2 triangles each |
| Adaptive.LeavesSplit | crates/cst-mesh/src/adaptive.rs:53-57 | a patch split below the depth limit is replaced by the leaves of its four quarters, in the order they are visited |
| Adaptive.AtCorners | crates/cst-mesh/src/adaptive.rs:68 | `emit_quad` evaluates at the four corners (u0, v0), (u1, v0), (u1, v1), (u0, v1), in that order |
| Adaptive.AtCornersStep | crates/cst-mesh/src/adaptive.rs:68-75 | the corner loop appends one corner's value per pass |
| Adaptive.MeshBuilder.constructor | crates/cst-mesh/src/adaptive.rs:27-38 | a new builder keeps the surface and tolerance and has collected nothing |
| Adaptive.MeshBuilder.Subdivide | crates/cst-mesh/src/adaptive.rs:40-61 | the recursion appends exactly the emitted leaves of the patch at that depth to the collected mesh |
| Adaptive.MeshBuilder.SubdivideQuarters | crates/cst-mesh/src/adaptive.rs:54-57 | the four recursive calls append the leaves of the four quarters in visiting order |
| Adaptive.MeshBuilder.EmitQuad | crates/cst-mesh/src/adaptive.rs:63-85 | four vertices at the corners, with normals and texture coordinates, and the triangles `[b, b + 1, b + 2]` and `[b, b + 2, b + 3]` are appended |
| Adaptive.MeshBuilder.IntoMesh | crates/cst-mesh/src/adaptive.rs:87-94 | the result is the collected data, unchanged |
| Adaptive.EmitAllConcat | crates/cst-mesh/src/adaptive.rs:40-61 | emitting two runs of patches is emitting the first and then the second |
| Adaptive.StartPatches | crates/cst-mesh/src/adaptive.rs:115-126 | the start grid has 16 patches, patch (a, b) being the a-th quarter of u by the b-th quarter of v, at position 4a + b |
| Adaptive.StartGridLayout | crates/cst-mesh/src/adaptive.rs:117-126 | before start patch (i, j) come 4i + j patches, each in its grid position |
| Adaptive.SameCell | crates/cst-mesh/src/adaptive.rs:117-118 | two grid positions 4a + b with b below 4 coincide only for the same cell |
| Adaptive.RowStep | crates/cst-mesh/src/adaptive.rs:117-118 | an earlier row of the start grid ends before a later one begins |
| Adaptive.LeavesOfSnoc | crates/cst-mesh/src/adaptive.rs:117-126 | the leaves of one more start patch come after those of the earlier ones |
| Adaptive.AdaptiveTessellateSurface | crates/cst-mesh/src/adaptive.rs:109-129 | the grid loops return the mesh of the specification: every start patch's leaves, emitted in order |
| Adaptive.StartMeshEnds | crates/cst-mesh/src/adaptive.rs:113-128 | before the first start patch nothing is collected, and after the last the whole adaptive mesh is |
| Adaptive.StartRowPass | crates/cst-mesh/src/adaptive.rs:118-125 | one pass of the outer loop emits the start patches of row i, each subdivided |
| Adaptive.StartMeshRow | crates/cst-mesh/src/adaptive.rs:117-126 | the mesh before row i + 1 is the mesh after the whole of row i |
| Adaptive.StartPatchStep | crates/cst-mesh/src/adaptive.rs:119-124 | one pass of the inner loop takes the mesh before start patch (i, j) to the mesh after it |
| Adaptive.StartMeshStep | crates/cst-mesh/src/adaptive.rs:119-124 | emitting the leaves of start patch (i, j) after the mesh before it gives the mesh after it |
| Adaptive.StartGridStep | crates/cst-mesh/src/adaptive.rs:118-125 | the start patches before (i, j + 1) are those before (i, j) followed by (i, j) |
| Adaptive.StartPatchPass | crates/cst-mesh/src/adaptive.rs:119-124 | the bounds of start patch (i, j) are computed and it is subdivided from depth 0 |
| Adaptive.EmitAllShape | crates/cst-mesh/src/adaptive.rs:63-85 | emitting keeps the mesh well formed and what it held, adding four vertices and two triangles per patch |
| Adaptive.EmitShape | crates/cst-mesh/src/adaptive.rs:63-85 | emitting one patch keeps the mesh well formed and what it held, adding four vertices and two triangles |
| Adaptive.EmitAllLayout | crates/cst-mesh/src/adaptive.rs:63-85 | from nothing, the k-th emitted patch owns vertices 4k to 4k + 3 at its corners and indices 6k to 6k + 5 |
| Adaptive.LeafKept | crates/cst-mesh/src/adaptive.rs:63-85 | emitting another patch leaves every earlier patch's vertices and triangles where they were |
| Adaptive.LeafEmitted | crates/cst-mesh/src/adaptive.rs:63-85 | the patch emitted after k others sits at vertices 4k to 4k + 3 and indices 6k to 6k + 5 |
| Adaptive.AdaptiveMeshShape | crates/cst-mesh/src/adaptive.rs:109-129 | the adaptive mesh is well formed, with four vertices at the corners and two triangles per leaf patch |
| Adaptive.LeavesCount | crates/cst-mesh/src/adaptive.rs:40-61 | a patch at depth d yields between 1 and 4^(8 - d) leaves |
| Adaptive.StartLeavesCount | crates/cst-mesh/src/adaptive.rs:124 | a start patch yields between 1 and 4^8 leaves |
| Adaptive.LeavesOfCount | crates/cst-mesh/src/adaptive.rs:117-126 | a run of start patches yields between one and 4^8 leaves each |
| Adaptive.TriangleBounds | crates/cst-mesh/src/adaptive.rs:109-129 | the adaptive mesh has between 32 and 32 * 4^8 triangles |
| Adaptive.NoSplitLeaves | crates/cst-mesh/src/adaptive.rs:53-60 | patches none of which splits are their own leaves |
| Adaptive.FlatSurfaceThirtyTwo | crates/cst-mesh/src/adaptive.rs:137-148 | a surface on which no start patch deviates gives the coarse 16 quads, 32 triangles |
| Adaptive.DeviatesMonotone | crates/cst-mesh/src/adaptive.rs:53 | a patch deviating beyond a tolerance deviates beyond any smaller one |
| Adaptive.FinerMoreLeaves | crates/cst-mesh/src/adaptive.rs:40-61 | a split decision that splits wherever another does yields at least as many leaves |
| Adaptive.FinerMoreLeavesOf | crates/cst-mesh/src/adaptive.rs:117-126 | the same holds over a run of start patches |
| Adaptive.TighterToleranceMoreTriangles | crates/cst-mesh/src/adaptive.rs:150-162 | a tighter tolerance never yields fewer triangles |
| Adaptive.LeavesInDomain | crates/cst-mesh/src/adaptive.rs:40-61 | every leaf of a patch inside the domain lies inside the domain |
| Adaptive.GridLinesOrdered | crates/cst-mesh/src/adaptive.rs:119-122 | consecutive start grid lines over an ordered range are ordered and inside it |
| Adaptive.StartPatchesInDomain | crates/cst-mesh/src/adaptive.rs:115-126 | over an ordered domain every start patch lies inside it |
| Adaptive.StartPatchInDomain | crates/cst-mesh/src/adaptive.rs:119-122 | over an ordered domain start patch (a, b) lies inside it |
| Adaptive.LeavesOfInDomain | crates/cst-mesh/src/adaptive.rs:117-126 | the leaves of patches inside the domain lie inside the domain |
| Adaptive.FractionInUnit | crates/cst-mesh/src/adaptive.rs:72-73 | a parameter inside a range of positive width is a fraction between 0 and 1 of the way across |
| Adaptive.AdaptiveUvsInUnitSquare | crates/cst-mesh/src/adaptive.rs:191-208 | over a domain of positive width every texture coordinate lies in the unit square |
| Adaptive.UvOfLeaf | crates/cst-mesh/src/adaptive.rs:68-75 | texture coordinate i is that of corner i mod 4 of emitted patch i div 4 |
| Adaptive.BlockIndex | crates/cst-mesh/src/adaptive.rs:68-75 | entry c of a block of four starting at `start` is entry start + c of the whole |
| Adaptive.LeafInDomain | crates/cst-mesh/src/adaptive.rs:109-129 | over an ordered domain every emitted leaf lies inside it |
| Adaptive.CornerUvInUnit | crates/cst-mesh/src/adaptive.rs:71-74 | each corner of a patch inside a domain of positive width has its texture coordinate in the unit square |
| RenderScene.Scene.constructor | crates/cst-render/src/scene.rs:32-37 | a new scene has no meshes, no groups and no triangles |
| RenderScene.Scene.AddMesh | crates/cst-render/src/scene.rs:40-46 | the mesh goes last with its name and colour, the groups are untouched, and the triangle total grows by the mesh's triangles |
| RenderScene.Scene.AddMeshAutoColor | crates/cst-render/src/scene.rs:49-65 | the mesh goes last with the palette colour chosen by the number of meshes before it modulo ten |
| RenderScene.Scene.AddInstancedGroup | crates/cst-render/src/scene.rs:68-75 | the group goes last; the regular meshes and the triangle total are untouched |
| RenderScene.Scene.TotalTriangles | crates/cst-render/src/scene.rs:96-98 | three times the total never exceeds the number of indices over all meshes, and a scene without meshes has none |
| RenderScene.Scene.Bounds | crates/cst-render/src/scene.rs:78-93 | there is no box iff the scene has no points; otherwise the box of every regular mesh's positions and every group's base positions |
| RenderScene.MeshTrianglesConcat | crates/cst-render/src/scene.rs:96-98 | the triangle total of two runs of meshes is the sum of their totals |
| RenderScene.MeshTrianglesBound | crates/cst-render/src/scene.rs:96-98 | the total counts complete index triples only: three times it never exceeds the number of indices |
| RenderScene.AutoColorCycles | crates/cst-render/src/scene.rs:777-790 | two meshes get the same automatic colour iff their numbers agree modulo ten |
| RenderScene.PaletteDistinct | crates/cst-render/src/scene.rs:50-61 | the palette has ten colours, all different |
| RenderScene.BoundsContain | crates/cst-render/src/scene.rs:78-93 | the scene box contains every position of every regular mesh and of every group's base mesh |
| RenderScene.MeshPointsHold | crates/cst-render/src/scene.rs:84-86 | every position of a regular mesh is among the gathered points |
| RenderScene.GroupPointsHold | crates/cst-render/src/scene.rs:87-91 | every base position of a group is among the gathered points |
| RenderScene.BoundsIgnoreTransforms | crates/cst-render/src/scene.rs:87-91 | group placements do not affect the box: only the base meshes are gathered |
| RenderScene.EmptySceneHasNoPoints | crates/cst-render/src/scene.rs:846-850 | an empty scene has no points, so no box |
| RenderScene.TestTriangleScene | crates/cst-render/src/scene.rs:748-774 | two test triangles total two triangles, and one spans the box from the origin to (1, 1, 0) |
| RenderScene.SextetOf | crates/cst-render/src/scene.rs:689 | each alphabet character stands for exactly one sextet below 64 |
| RenderScene.CharOfInAlphabet | crates/cst-render/src/scene.rs:689 | every sextet has an alphabet character, never `=` |
| RenderScene.CharOfInjective | crates/cst-render/src/scene.rs:689 | the 64 characters of the alphabet are all different |
| RenderScene.Sextet1 | crates/cst-render/src/scene.rs:698 | the first character's value is below 64 |
| RenderScene.Sextet2 | crates/cst-render/src/scene.rs:699 | the second character's value is below 64 |
| RenderScene.Sextet3 | crates/cst-render/src/scene.rs:702 | the third character's value is below 64 |
| RenderScene.Sextet4 | crates/cst-render/src/scene.rs:708 | the fourth character's value is below 64 |
| RenderScene.Quad | crates/cst-render/src/scene.rs:698-711 | each group of up to three bytes becomes four characters |
| RenderScene.Group | crates/cst-render/src/scene.rs:694-711 | the bytes at i, padded with zeros past the end, become four characters |
| RenderScene.Base64Encode | crates/cst-render/src/scene.rs:688-717 | the loop produces the encoding of the specification, group after group |
| RenderScene.Pushes | crates/cst-render/src/scene.rs:698-711 | four pushes append the four characters in order |
| RenderScene.AppendAssoc | crates/cst-render/src/scene.rs:690-716 | appending groups to the result associates |
| RenderScene.GroupChars | crates/cst-render/src/scene.rs:694-711 | the four characters one pass pushes are the group of the bytes at i |
| RenderScene.EncodeLength | crates/cst-render/src/scene.rs:688-717 | n bytes encode to 4 * ceil(n / 3) characters |
| RenderScene.EncodePadding | crates/cst-render/src/scene.rs:701-711 | the encoding ends in two `=` after one leftover byte, one after two, none otherwise, and only there |
| RenderScene.GroupInAlphabet | crates/cst-render/src/scene.rs:698-711 | a group's characters are alphabet characters except its padding, which is `=` exactly past the end of the data |
| RenderScene.SextetRoundTrip | crates/cst-render/src/scene.rs:689 | an alphabet character reads back as its sextet |
| RenderScene.SextetsCarryBytes | crates/cst-render/src/scene.rs:698-708 | the four sextets carry the three bytes' bits without loss, and padding bytes contribute zero bits |
| RenderScene.QuadRoundTrip | crates/cst-render/src/scene.rs:694-711 | a group decodes back to the one, two or three bytes it was made of |
| RenderScene.DecodeEncode | crates/cst-render/src/scene.rs:688-717 | decoding undoes the encoding: the text decodes back to the original bytes |
| RenderScene.Base64Examples | crates/cst-render/src/scene.rs:688-717 | "Man", "Ma" and "M" encode to "TWFu", "TWE=" and "TQ==" |

## Left out

- HalfEdgeMesh.Mesh.AddVertex: requires `WellFormed` (`TablesWF`): every handle lies below its table's slot count and every twin reference resolves. The constructor establishes this and every method keeps it. The source's fields are public, and on a mesh with a dangling twin `find_halfedge` (and so `make_face` and `make_triangle`) panics at crates/cst-topology/src/halfedge/mesh.rs:186; that panic is not modelled.
- HalfEdgeMesh.Mesh.MakeEdge: requires `WellFormed` (`TablesWF`): every handle lies below its table's slot count and every twin reference resolves. The constructor establishes this and every method keeps it. The source's fields are public, and on a mesh with a dangling twin `find_halfedge` (and so `make_face` and `make_triangle`) panics at crates/cst-topology/src/halfedge/mesh.rs:186; that panic is not modelled.
- HalfEdgeMesh.Mesh.FindHalfEdge: requires `WellFormed` (`TablesWF`): every handle lies below its table's slot count and every twin reference resolves. The constructor establishes this and every method keeps it. The source's fields are public, and on a mesh with a dangling twin `find_halfedge` (and so `make_face` and `make_triangle`) panics at crates/cst-topology/src/halfedge/mesh.rs:186; that panic is not modelled.
- HalfEdgeMesh.Mesh.MakeFace: requires `WellFormed` (`TablesWF`): every handle lies below its table's slot count and every twin reference resolves. The constructor establishes this and every method keeps it. The source's fields are public, and on a mesh with a dangling twin `find_halfedge` (and so `make_face` and `make_triangle`) panics at crates/cst-topology/src/halfedge/mesh.rs:186; that panic is not modelled.
- HalfEdgeMesh.Mesh.MakeTriangle: requires `WellFormed` (`TablesWF`): every handle lies below its table's slot count and every twin reference resolves. The constructor establishes this and every method keeps it. The source's fields are public, and on a mesh with a dangling twin `find_halfedge` (and so `make_face` and `make_triangle`) panics at crates/cst-topology/src/halfedge/mesh.rs:186; that panic is not modelled.
- HalfEdgeMesh.Mesh.ResolvePair: the reverse-twin branch of `make_face` (crates/cst-topology/src/halfedge/mesh.rs:118-131) is modelled, but it cannot be reached on a mesh the constructors build. There every half-edge has a twin running back (`TwinsPaired`), so the forward search at mesh.rs:107 already finds the half-edge the reverse branch would take. The "Edge exists but twin is missing" error at mesh.rs:132-136 is unreachable in the source itself, because `find_halfedge` only returns half-edges that have a twin.
- HalfEdgeMesh, TriangleMeshes, IfcToMesh, Adaptive: indices and counts are unbounded naturals. The source's `u32` index arithmetic could wrap on meshes of more than 2^32 vertices, and `base as u32` in `emit_quad` truncates; neither is modelled.
- IfcToMesh.FacesToTrimesh: does not model `u32` wrap-around of the vertex offset.
- IfcToMesh.MergeTrimeshes: does not model `u32` wrap-around of the index offset.
- TriangleMeshes.Merge: does not model `u32` wrap-around of the index offset. The merge returns a new value, while the source's `merge` extends `self` in place.
- Adaptive.MeshBuilder.EmitQuad: does not model the `base as u32` truncation.
- FaceTessellator.TessellatePlanarFace: requires at least three vertices, where the source's `assert!` panics on fewer.
- TriangleMeshes.ComputeNormals: requires every index of a complete triangle to be in range. Out of range, the source panics on the slice index. Indices of a trailing incomplete triple are unconstrained, as in the source.
- TopologyToMesh.TopologyMeshToTriangles: requires every vertex a face walk yields to be in the vertex table. Otherwise the source panics on the lookup. `BuiltKnownVertices` proves this holds for every mesh built by the constructors.
- IfcText.ParseEntityLineAsWritten: slices by character position. The source slices by byte offset, so it also panics when a slice boundary falls inside a multi-byte character.
- TopologyToMesh.FaceLoop: follows at most |H|+1 steps of a face's `next` chain. The source's iterators and the validator's walk have no cap and never end on a chain that does not return to its start.
- HalfEdgeIter.CollectFace: the iterators are driven for a given number of steps (fuel), because an iterator over a malformed mesh can run forever.
- IfcFaces.BuildBrepColorMap: the `HashMap` iteration order over the entity table is the `order` parameter. The source's order is unspecified, and when two stylings name the same item the later one in that order wins.
- FaceTessellator.UvsInUnitSquare: requires at least one division each way. For x / 0 the model's `Quotient` gives 0, where the source's `f64` division gives NaN (or infinity). `GridUv`, `Tessellate.GridParam` and `Adaptive.UvAt` over an empty domain range are modelled with 0 in the same way.
- Adaptive.AdaptiveUvsInUnitSquare: requires uMin < uMax and vMin < vMax. On an empty range the source's uvs are NaN.
- IfcToMesh: `compute_face_normal` (Newell's method, then a square-root normalisation) is the `normalOf` parameter.
- IfcToMesh: the `earcutr` ear-clipping library is the `Earcut` parameter, assumed only to return indices into its input.
- TriangleMeshes, FaceTessellator, TopologyToMesh: vector normalisation needs a square root and is the `unit` parameter.
- Tessellate, FaceTessellator, Adaptive: curve and surface evaluators (lines, circles, ellipses, planes, cylinders, cones, spheres, tori, B-splines and de Boor's algorithm) are function fields of `Curve` and `Surface`. The deviation tests compare exact reals, without the source's `f64` rounding.
- StepLexer, IfcText, IfcFaces: `f64` and `f32` number parsing is abstracted: a real is kept as its text, and `FloatTexts` only checks its shape. Integers are range-checked as in the source, as `u64` or `i64` (`Core.ParseU64`, `Core.ParseI64`).
- Aabb, Tolerances: `f64` rounding and NaN comparisons are not modelled.
- RenderScene: `export_html`, `export_gltf_json`, `export_binary_mesh` and `generate_gltf_binary_buffer` are file output and float formatting. Only `base64_encode` from that code is modelled. Placement transforms are carried as opaque values.
- IfcText: `read_ifc_file` and `parse_ifc_entities` read a file. Of them, only the line loop of `parse_ifc_entities` is modelled (`IfcText.EntityTexts`, `IfcText.CollectEntityTexts`): which texts it hands to `parse_entity_line`. The file's lines are a parameter, and the progress messages are not modelled. Nor is the table of geometry entities built from the parsed lines.
- The placement chain, the operator resolution and `apply_transform_to_faces` in the IFC reader are `f64` matrix algebra and are not part of this model. So are the IFC profile geometry, the camera, render pipeline, transform, plane and ray maths, and the command-line viewer.
- The process-wide id counter in cst-core is an atomic global and is not part of this model.
- IfcSpatial.AddChild: `add_child` changes the node in place; the model returns the extended node as a new value. `find_by_id` and `find_by_kind` return copies rather than references.
- TriangleMeshes, IfcToMesh: `TriangleMesh` and `IfcTriMesh` are values. Their in-place pushes are functions from the old mesh to the new one, so aliasing is not modelled.

## Findings

| source | as written | input that shows it | evidently intended | confidence | as-written member | corrected member |
|---|---|---|---|---|---|---|
| crates/cst-ifc/src/ifc_reader.rs:459-461 | `parse_entity_line` slices the type section between the first `(` and the last `)`. When the last `)` comes before the first `(`, the slice range is reversed and the call panics. | `#1=A)(;` passes the reader's line filter (starts with `#`, ends with `;`) at ifc_reader.rs:414-429 and reaches the call unchanged (IfcText.FindingLineHandedOn) | return `None` for a line without a well-formed argument list | not executed | IfcText.CloseBeforeOpenPanics | IfcText.EntityLineRoundTrip |
