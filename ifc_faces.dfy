/**
 * The geometry and colour lookups of the IFC reader over the table of raw
 * entities read from a file: a cartesian point, the points of a face's
 * bounds with the outer boundary and the holes told apart, and the style
 * chain from a styled item down to its RGB colour.
 *
 * Every lookup follows `#n` references through the table, and every step
 * gives nothing when the entity is missing or has another type. Floats are
 * kept as their text; a text counts as a float when `str::parse` accepts it.
 */
module IfcFaces {
  import opened Core
  import opened IfcText

  /** The entities of a file by id. */
  type Entities = map<nat, RawEntity>

  // ----- parse_point -----

  /** A point, each coordinate kept as the text of its float. */
  datatype Point = Point(x: string, y: string, z: string)

  /** `parse_point`: the first three numbers of an `IFCCARTESIANPOINT`. */
  function PointOf(entities: Entities, id: nat): (r: Option<Point>)
    ensures r.Some? ==> id in entities && entities[id].typeName == "IFCCARTESIANPOINT"
    ensures r.Some? ==> FloatTexts([r.value.x, r.value.y, r.value.z])
  {
    if id !in entities || entities[id].typeName != "IFCCARTESIANPOINT" then None
    else
      var coords := RealList(entities[id].rawArgs);
      if |coords| < 3 then None
      else
        RealListFloats(entities[id].rawArgs);
        Some(Point(coords[0], coords[1], coords[2]))
  }

  /** A point written with three numbers reads back as those numbers. */
  lemma CartesianPoint(entities: Entities, id: nat, x: string, y: string, z: string)
    requires Number(x) && Number(y) && Number(z)
    requires id in entities && entities[id] == RawEntity(id, "IFCCARTESIANPOINT", "(" + Commas([x, y, z]) + ")")
    ensures PointOf(entities, id) == Some(Point(x, y, z))
  {
    assert AllNumbers([z]) by { assert [z][1..] == []; }
    assert AllNumbers([y, z]) by { assert [y, z][1..] == [z]; }
    assert AllNumbers([x, y, z]) by { assert [x, y, z][1..] == [y, z]; }
    RealListRoundTrip([x, y, z]);
  }

  /** A missing point and a point with fewer than three numbers give nothing. */
  lemma ShortPoint(entities: Entities, id: nat)
    requires id !in entities || |RealList(entities[id].rawArgs)| < 3
    ensures PointOf(entities, id) == None
  {
  }

  // ----- resolve_face -----

  /** The points of a loop: every reference that is a point, in order; the others are skipped. */
  function LoopPoints(entities: Entities, refs: seq<nat>): (r: seq<Point>)
    ensures |r| <= |refs|
  {
    if refs == [] then []
    else
      var front := LoopPoints(entities, refs[..|refs| - 1]);
      match PointOf(entities, refs[|refs| - 1])
      case Some(p) => front + [p]
      case None => front
  }

  /** A loop has no points exactly when none of its references is a point. */
  lemma {:induction false} LoopPointsEmpty(entities: Entities, refs: seq<nat>)
    ensures LoopPoints(entities, refs) == [] <==> forall i :: 0 <= i < |refs| ==> PointOf(entities, refs[i]).None?
  {
    if refs != [] {
      var front := refs[..|refs| - 1];
      LoopPointsEmpty(entities, front);
      assert forall i :: 0 <= i < |front| ==> front[i] == refs[i];
    }
  }

  /** When every reference is a point, the loop has all of them, in order. */
  lemma {:induction false} LoopPointsAll(entities: Entities, refs: seq<nat>)
    requires forall i :: 0 <= i < |refs| ==> PointOf(entities, refs[i]).Some?
    ensures |LoopPoints(entities, refs)| == |refs|
    ensures forall i :: 0 <= i < |refs| ==> LoopPoints(entities, refs)[i] == PointOf(entities, refs[i]).value
  {
    if refs != [] {
      var front := refs[..|refs| - 1];
      assert forall i :: 0 <= i < |front| ==> front[i] == refs[i];
      LoopPointsAll(entities, front);
    }
  }

  /** `Vec::reverse`. */
  function Reverse<T>(s: seq<T>): (r: seq<T>)
    ensures |r| == |s|
    ensures forall i :: 0 <= i < |s| ==> r[i] == s[|s| - 1 - i]
  {
    if s == [] then [] else Reverse(s[1..]) + [s[0]]
  }

  /** Reversing twice gives the points back. */
  lemma ReverseTwice<T>(s: seq<T>)
    ensures Reverse(Reverse(s)) == s
  {
  }

  /** A bound of a face: whether it is marked as the outer one, and its points in the order used. */
  datatype Bound = Bound(isOuter: bool, points: seq<Point>)

  /** The orientation argument of a bound is `.F.`: its points run the other way. */
  predicate Flipped(args: seq<string>) {
    |args| >= 2 && Trim(args[1]) == ".F."
  }

  /** The loop a bound refers to by its first argument, when that loop exists. */
  function LoopOf(entities: Entities, id: nat): (r: Option<nat>)
    ensures r.Some? ==> id in entities && r.value in entities
  {
    if id !in entities then None
    else
      var args := SplitArgs(entities[id].rawArgs);
      if args == [] then None
      else
        match ExtractSingleRef(args[0])
        case None => None
        case Some(loopId) => if loopId in entities then Some(loopId) else None
  }

  /**
   * One bound of a face as the loop of `resolve_face` reads it: nothing when
   * the bound or its loop is missing or the loop has no points, otherwise
   * the loop's points, reversed for a `.F.` bound.
   */
  function BoundOf(entities: Entities, id: nat): (r: Option<Bound>)
    ensures r.Some? ==> id in entities && r.value.points != []
    ensures r.Some? ==> (r.value.isOuter <==> entities[id].typeName == "IFCFACEOUTERBOUND")
  {
    match LoopOf(entities, id)
    case None => None
    case Some(loopId) =>
      var points := LoopPoints(entities, EntityRefs(entities[loopId].rawArgs));
      if points == [] then None
      else
        var bound := entities[id];
        var args := SplitArgs(bound.rawArgs);
        Some(Bound(bound.typeName == "IFCFACEOUTERBOUND", if Flipped(args) then Reverse(points) else points))
  }

  /** A bound holds its loop's points: as they are, or read backwards when it is `.F.`. */
  lemma BoundOrientation(entities: Entities, id: nat)
    requires BoundOf(entities, id).Some?
    ensures var loopPoints := LoopPoints(entities, EntityRefs(entities[LoopOf(entities, id).value].rawArgs));
            var points := BoundOf(entities, id).value.points;
            if Flipped(SplitArgs(entities[id].rawArgs)) then Reverse(points) == loopPoints else points == loopPoints
  {
    var loopPoints := LoopPoints(entities, EntityRefs(entities[LoopOf(entities, id).value].rawArgs));
    ReverseTwice(loopPoints);
  }

  /** The outer boundary found so far and the holes. */
  datatype FaceScan = FaceScan(outer: Option<seq<Point>>, holes: seq<seq<Point>>)

  const FaceStart := FaceScan(None, [])

  /**
   * One resolved bound: it becomes the outer boundary when it is marked as
   * outer or when there is none yet, and a previous outer boundary is then
   * demoted to a hole; otherwise it is a hole.
   */
  function Assign(st: FaceScan, b: Bound): (r: FaceScan)
    ensures r.outer.Some?
  {
    if b.isOuter || st.outer.None? then
      FaceScan(Some(b.points), if st.outer.Some? then st.holes + [st.outer.value] else st.holes)
    else
      st.(holes := st.holes + [b.points])
  }

  /** The loop of `resolve_face` after the given bound references. */
  function FaceScanOf(entities: Entities, refs: seq<nat>): FaceScan {
    if refs == [] then FaceStart
    else
      var st := FaceScanOf(entities, refs[..|refs| - 1]);
      match BoundOf(entities, refs[|refs| - 1])
      case Some(b) => Assign(st, b)
      case None => st
  }

  /** A face: its outer boundary and its holes. */
  datatype Face = Face(outer: seq<Point>, holes: seq<seq<Point>>)

  /** The bound references of a face. */
  function FaceRefs(entities: Entities, faceId: nat): seq<nat>
    requires faceId in entities
  {
    EntityRefs(entities[faceId].rawArgs)
  }

  /** `resolve_face`: nothing for a missing face, a face without references, or one with no bound that has points. */
  function FaceOf(entities: Entities, faceId: nat): Option<Face> {
    if faceId !in entities || FaceRefs(entities, faceId) == [] then None
    else
      var st := FaceScanOf(entities, FaceRefs(entities, faceId));
      match st.outer
      case None => None
      case Some(outer) => Some(Face(outer, st.holes))
  }

  /** The points of a loop, read one reference at a time. */
  method LoopPointsOf(entities: Entities, pointRefs: seq<nat>) returns (points: seq<Point>)
    ensures points == LoopPoints(entities, pointRefs)
  {
    points := [];
    var j := 0;
    while j < |pointRefs|
      invariant 0 <= j <= |pointRefs|
      invariant points == LoopPoints(entities, pointRefs[..j])
    {
      assert pointRefs[..j + 1][..j] == pointRefs[..j];
      var point := PointOf(entities, pointRefs[j]);
      if point.Some? {
        points := points + [point.value];
      }
      j := j + 1;
    }
    assert pointRefs[..|pointRefs|] == pointRefs;
  }

  /** The body of the loop of `resolve_face` for one bound reference. */
  method ReadBound(entities: Entities, boundId: nat) returns (b: Option<Bound>)
    ensures b == BoundOf(entities, boundId)
  {
    if boundId !in entities {
      return None;
    }
    var bound := entities[boundId];
    var boundArgs := SplitIfcArgs(bound.rawArgs);
    if boundArgs == [] {
      return None;
    }
    var loopRef := ExtractSingleRef(boundArgs[0]);
    if loopRef.None? || loopRef.value !in entities {
      return None;
    }
    var pointRefs := ParseEntityRefs(entities[loopRef.value].rawArgs);
    var points := LoopPointsOf(entities, pointRefs);
    if points == [] {
      return None;
    }
    if |boundArgs| >= 2 && Trim(boundArgs[1]) == ".F." {
      points := Reverse(points);
    }
    b := Some(Bound(bound.typeName == "IFCFACEOUTERBOUND", points));
  }

  lemma FaceScanStep(entities: Entities, refs: seq<nat>, i: nat, b: Option<Bound>)
    requires i < |refs| && b == BoundOf(entities, refs[i])
    ensures FaceScanOf(entities, refs[..i + 1]) ==
      if b.Some? then Assign(FaceScanOf(entities, refs[..i]), b.value) else FaceScanOf(entities, refs[..i])
  {
    assert refs[..i + 1][..i] == refs[..i];
  }

  /** The loop of `resolve_face` over the bound references. */
  method ResolveFace(entities: Entities, faceId: nat) returns (face: Option<Face>)
    ensures face == FaceOf(entities, faceId)
  {
    if faceId !in entities {
      return None;
    }
    var boundRefs := ParseEntityRefs(entities[faceId].rawArgs);
    if boundRefs == [] {
      return None;
    }
    var outer: Option<seq<Point>> := None;
    var holes: seq<seq<Point>> := [];
    var i := 0;
    while i < |boundRefs|
      invariant 0 <= i <= |boundRefs|
      invariant FaceScan(outer, holes) == FaceScanOf(entities, boundRefs[..i])
    {
      ghost var before := FaceScan(outer, holes);
      var bound := ReadBound(entities, boundRefs[i]);
      FaceScanStep(entities, boundRefs, i, bound);
      if bound.Some? {
        if bound.value.isOuter || outer.None? {
          if outer.Some? {
            holes := holes + [outer.value];
          }
          outer := Some(bound.value.points);
        } else {
          holes := holes + [bound.value.points];
        }
      }
      assert FaceScan(outer, holes) == if bound.Some? then Assign(before, bound.value) else before;
      i := i + 1;
    }
    assert boundRefs[..|boundRefs|] == boundRefs;
    if outer.None? {
      return None;
    }
    face := Some(Face(outer.value, holes));
  }

  // ----- What a face is made of -----

  /** The values that are there, in order. */
  function Somes<T>(xs: seq<Option<T>>): (r: seq<T>)
    ensures |r| <= |xs|
  {
    if xs == [] then []
    else
      var front := Somes(xs[..|xs| - 1]);
      match xs[|xs| - 1]
      case Some(v) => front + [v]
      case None => front
  }

  lemma {:induction false} SomesEmpty<T>(xs: seq<Option<T>>)
    ensures Somes(xs) == [] <==> forall i :: 0 <= i < |xs| ==> xs[i].None?
  {
    if xs != [] {
      var front := xs[..|xs| - 1];
      SomesEmpty(front);
      assert forall i :: 0 <= i < |front| ==> front[i] == xs[i];
    }
  }

  /** What each bound reference gives. */
  function BoundOpts(entities: Entities, refs: seq<nat>): (r: seq<Option<Bound>>)
    ensures |r| == |refs|
  {
    seq(|refs|, i requires 0 <= i < |refs| => BoundOf(entities, refs[i]))
  }

  /** The bounds that resolve, in order. */
  function Bounds(entities: Entities, refs: seq<nat>): seq<Bound> {
    Somes(BoundOpts(entities, refs))
  }

  /** Assigning the resolved bounds one after the other. */
  function AssignAll(bs: seq<Bound>): FaceScan {
    if bs == [] then FaceStart else Assign(AssignAll(bs[..|bs| - 1]), bs[|bs| - 1])
  }

  /** The loop only sees the bounds that resolve. */
  lemma {:induction false} ScanIsAssignAll(entities: Entities, refs: seq<nat>)
    ensures FaceScanOf(entities, refs) == AssignAll(Bounds(entities, refs))
  {
    if refs != [] {
      var front := refs[..|refs| - 1];
      ScanIsAssignAll(entities, front);
      BoundsSnoc(entities, refs);
      match BoundOf(entities, refs[|refs| - 1])
      case None =>
      case Some(b) =>
        var bs := Bounds(entities, front);
        assert (bs + [b])[..|bs + [b]| - 1] == bs;
    }
  }

  /** The bounds of all references: those of all but the last, then the last one's if it resolves. */
  lemma BoundsSnoc(entities: Entities, refs: seq<nat>)
    requires refs != []
    ensures Bounds(entities, refs) ==
      match BoundOf(entities, refs[|refs| - 1])
      case Some(b) => Bounds(entities, refs[..|refs| - 1]) + [b]
      case None => Bounds(entities, refs[..|refs| - 1])
  {
    var opts := BoundOpts(entities, refs);
    assert opts[..|opts| - 1] == BoundOpts(entities, refs[..|refs| - 1]);
  }

  /** No bound resolves exactly when every reference gives nothing. */
  lemma BoundsEmpty(entities: Entities, refs: seq<nat>)
    ensures Bounds(entities, refs) == [] <==> forall i :: 0 <= i < |refs| ==> BoundOf(entities, refs[i]).None?
  {
    var opts := BoundOpts(entities, refs);
    SomesEmpty(opts);
    assert forall i :: 0 <= i < |refs| ==> opts[i] == BoundOf(entities, refs[i]);
  }

  /** The last bound marked as outer, if any. */
  function LastOuter(bs: seq<Bound>): (r: Option<seq<Point>>)
    ensures r.Some? ==> exists i :: 0 <= i < |bs| && bs[i].isOuter && bs[i].points == r.value
  {
    if bs == [] then None
    else if bs[|bs| - 1].isOuter then Some(bs[|bs| - 1].points)
    else
      var front := bs[..|bs| - 1];
      assert forall i :: 0 <= i < |front| ==> front[i] == bs[i];
      LastOuter(front)
  }

  /** The point lists of the bounds. */
  function PointLists(bs: seq<Bound>): (r: seq<seq<Point>>)
    ensures |r| == |bs| && forall i :: 0 <= i < |bs| ==> r[i] == bs[i].points
  {
    seq(|bs|, i requires 0 <= i < |bs| => bs[i].points)
  }

  /** The outer boundary and the holes together. */
  function Placed(st: FaceScan): multiset<seq<Point>> {
    multiset(st.holes) + if st.outer.Some? then multiset{st.outer.value} else multiset{}
  }

  /**
   * The outer boundary is the last bound marked as outer, or the first bound
   * when none is marked; it is there as soon as one bound resolves.
   */
  lemma {:induction false} OuterChoice(bs: seq<Bound>)
    ensures bs == [] <==> AssignAll(bs).outer.None?
    ensures bs != [] ==> AssignAll(bs).outer == Some(if LastOuter(bs).Some? then LastOuter(bs).value else bs[0].points)
  {
    if bs != [] {
      var front := bs[..|bs| - 1];
      OuterChoice(front);
      if front != [] {
        assert front[0] == bs[0];
      }
    }
  }

  /** No bound is lost: every resolved bound ends up as the outer boundary or as a hole. */
  lemma {:induction false} NothingLost(bs: seq<Bound>)
    ensures Placed(AssignAll(bs)) == multiset(PointLists(bs))
  {
    if bs != [] {
      var front := bs[..|bs| - 1];
      NothingLost(front);
      assert PointLists(bs) == PointLists(front) + [bs[|bs| - 1].points];
    }
  }

  /** A face is missing exactly when its entity is missing or none of its bounds has points. */
  lemma FaceNone(entities: Entities, faceId: nat)
    ensures FaceOf(entities, faceId).None? <==>
            faceId !in entities ||
            forall i :: 0 <= i < |FaceRefs(entities, faceId)| ==> BoundOf(entities, FaceRefs(entities, faceId)[i]).None?
  {
    if faceId in entities {
      var refs := FaceRefs(entities, faceId);
      ScanIsAssignAll(entities, refs);
      BoundsEmpty(entities, refs);
      OuterChoice(Bounds(entities, refs));
    }
  }

  /** The outer boundary of a face is the last bound marked as outer, or else its first bound with points. */
  lemma FaceOuter(entities: Entities, faceId: nat)
    requires FaceOf(entities, faceId).Some?
    ensures var bs := Bounds(entities, FaceRefs(entities, faceId));
            bs != [] &&
            FaceOf(entities, faceId).value.outer == if LastOuter(bs).Some? then LastOuter(bs).value else bs[0].points
  {
    var refs := FaceRefs(entities, faceId);
    ScanIsAssignAll(entities, refs);
    OuterChoice(Bounds(entities, refs));
  }

  /** The outer boundary and the holes are exactly the bounds with points: one hole fewer than bounds. */
  lemma FaceKeepsEveryBound(entities: Entities, faceId: nat)
    requires FaceOf(entities, faceId).Some?
    ensures var bs := Bounds(entities, FaceRefs(entities, faceId));
            var face := FaceOf(entities, faceId).value;
            multiset(face.holes) + multiset{face.outer} == multiset(PointLists(bs)) &&
            |face.holes| + 1 == |bs|
  {
    var refs := FaceRefs(entities, faceId);
    var bs := Bounds(entities, refs);
    ScanIsAssignAll(entities, refs);
    NothingLost(bs);
    var face := FaceOf(entities, faceId).value;
    assert |multiset(face.holes) + multiset{face.outer}| == |face.holes| + 1;
    assert |multiset(PointLists(bs))| == |bs|;
  }

  /** Without entities there is neither a point nor a face. */
  lemma MissingEntities()
    ensures PointOf(map[], 999) == None
    ensures FaceOf(map[], 999) == None
  {
  }

  // ----- The style chain -----

  /** An RGB colour, each component kept as the text of its float. */
  datatype Colour = Colour(r: string, g: string, b: string)

  /** The first reference the lookup resolves, and the lookup gives nothing when none does. */
  function FirstSome<T>(xs: seq<nat>, f: nat -> Option<T>): (r: Option<T>)
    ensures r.None? <==> forall i :: 0 <= i < |xs| ==> f(xs[i]).None?
    ensures r.Some? ==> exists i :: 0 <= i < |xs| && f(xs[i]) == r && forall j :: 0 <= j < i ==> f(xs[j]).None?
  {
    if xs == [] then None
    else if f(xs[0]).Some? then f(xs[0])
    else
      var tail := xs[1..];
      assert forall i :: 0 <= i < |tail| ==> tail[i] == xs[i + 1];
      FirstSome(tail, f)
  }

  /** The loop that stops at the first reference that resolves. */
  lemma {:induction false} FirstSomeAt<T>(xs: seq<nat>, f: nat -> Option<T>, k: nat)
    requires k < |xs| && f(xs[k]).Some? && forall j :: 0 <= j < k ==> f(xs[j]).None?
    ensures FirstSome(xs, f) == f(xs[k])
  {
    if k > 0 {
      FirstSomeAt(xs[1..], f, k - 1);
    }
  }

  /** The red, green and blue arguments of an `IFCCOLOURRGB`, when all three are floats. */
  function ColourOfArgs(args: seq<string>): (r: Option<Colour>)
    ensures r.Some? ==> FloatTexts([r.value.r, r.value.g, r.value.b])
  {
    if |args| < 4 then None
    else
      var r, g, b := Trim(args[1]), Trim(args[2]), Trim(args[3]);
      if IsF64Text(r) && IsF64Text(g) && IsF64Text(b) then
        TrimIsTrimmed(args[1]);
        TrimIsTrimmed(args[2]);
        TrimIsTrimmed(args[3]);
        Some(Colour(r, g, b))
      else None
  }

  /** `resolve_colour_rgb`. */
  function ColourRgb(entities: Entities, id: nat): (r: Option<Colour>)
    ensures r.Some? ==> id in entities && entities[id].typeName == "IFCCOLOURRGB"
    ensures r.Some? ==> FloatTexts([r.value.r, r.value.g, r.value.b])
  {
    if id !in entities || entities[id].typeName != "IFCCOLOURRGB" then None
    else ColourOfArgs(SplitArgs(entities[id].rawArgs))
  }

  /** The colour is that of some `IFCCOLOURRGB` entity of the file. */
  ghost predicate FileColour(entities: Entities, c: Colour) {
    exists id :: id in entities && ColourRgb(entities, id) == Some(c)
  }

  /** `resolve_rendering_to_color`: the colour its first argument refers to. */
  function RenderingColour(entities: Entities, id: nat): (r: Option<Colour>)
    ensures r.Some? ==> id in entities && entities[id].typeName == "IFCSURFACESTYLERENDERING"
    ensures r.Some? ==> FileColour(entities, r.value)
  {
    if id !in entities || entities[id].typeName != "IFCSURFACESTYLERENDERING" then None
    else
      var args := SplitArgs(entities[id].rawArgs);
      if args == [] then None
      else
        match ExtractSingleRef(args[0])
        case None => None
        case Some(colourId) => ColourRgb(entities, colourId)
  }

  /** `resolve_surface_style_to_color`: the first of the third argument's references that is a rendering with a colour. */
  function SurfaceStyleColour(entities: Entities, id: nat): (r: Option<Colour>)
    ensures r.Some? ==> id in entities && entities[id].typeName == "IFCSURFACESTYLE"
    ensures r.Some? ==> FileColour(entities, r.value)
  {
    if id !in entities || entities[id].typeName != "IFCSURFACESTYLE" then None
    else
      var args := SplitArgs(entities[id].rawArgs);
      if |args| < 3 then None
      else FirstSome(EntityRefs(args[2]), x => RenderingColour(entities, x))
  }

  /** `resolve_style_assignment_to_color`: the first of the first argument's references that is a surface style with a colour. */
  function AssignmentColour(entities: Entities, id: nat): (r: Option<Colour>)
    ensures r.Some? ==> id in entities && entities[id].typeName == "IFCPRESENTATIONSTYLEASSIGNMENT"
    ensures r.Some? ==> FileColour(entities, r.value)
  {
    if id !in entities || entities[id].typeName != "IFCPRESENTATIONSTYLEASSIGNMENT" then None
    else
      var args := SplitArgs(entities[id].rawArgs);
      if args == [] then None
      else FirstSome(EntityRefs(args[0]), x => SurfaceStyleColour(entities, x))
  }

  /** A styled item and the colour it gives its item. */
  datatype Styling = Styling(item: nat, colour: Colour)

  /**
   * One entity of the colour-map loop: an `IFCSTYLEDITEM` with an item
   * reference gives that item the colour of its first style assignment that
   * has one.
   */
  function StylingOf(entities: Entities, e: RawEntity): (r: Option<Styling>)
    ensures r.Some? ==> e.typeName == "IFCSTYLEDITEM" && FileColour(entities, r.value.colour)
  {
    if e.typeName != "IFCSTYLEDITEM" then None
    else
      var args := SplitArgs(e.rawArgs);
      if |args| < 2 then None
      else
        match ExtractSingleRef(args[0])
        case None => None
        case Some(item) =>
          match FirstSome(EntityRefs(args[1]), x => AssignmentColour(entities, x))
          case None => None
          case Some(c) => Some(Styling(item, c))
  }

  /** The entity with this id styles this item. */
  predicate Styles(entities: Entities, id: nat, item: nat) {
    id in entities && StylingOf(entities, entities[id]).Some? && StylingOf(entities, entities[id]).value.item == item
  }

  /** The colour map built from what each entity gives, in order: a later styling of an item overwrites an earlier one. */
  function MapOf(ss: seq<Option<Styling>>): map<nat, Colour> {
    if ss == [] then map[]
    else
      var front := MapOf(ss[..|ss| - 1]);
      match ss[|ss| - 1]
      case Some(s) => front[s.item := s.colour]
      case None => front
  }

  /** What each entity gives, in the order in which the hash map hands them out. */
  function StylingOpts(entities: Entities, order: seq<nat>): (r: seq<Option<Styling>>)
    requires forall i :: 0 <= i < |order| ==> order[i] in entities
    ensures |r| == |order|
  {
    seq(|order|, i requires 0 <= i < |order| => StylingOf(entities, entities[order[i]]))
  }

  /** The colour map after the entities in the given order. */
  function ColourMap(entities: Entities, order: seq<nat>): map<nat, Colour>
    requires forall i :: 0 <= i < |order| ==> order[i] in entities
  {
    MapOf(StylingOpts(entities, order))
  }

  /** The body of the colour-map loop for one entity, with its inner loop that stops at the first colour. */
  method ReadStyling(entities: Entities, entity: RawEntity) returns (s: Option<Styling>)
    ensures s == StylingOf(entities, entity)
  {
    if entity.typeName != "IFCSTYLEDITEM" {
      return None;
    }
    var args := SplitIfcArgs(entity.rawArgs);
    if |args| < 2 {
      return None;
    }
    var itemRef := ExtractSingleRef(args[0]);
    if itemRef.None? {
      return None;
    }
    var styleRefs := ParseEntityRefs(args[1]);
    var colour := FirstResolved(styleRefs, x => AssignmentColour(entities, x));
    if colour.None? {
      return None;
    }
    return Some(Styling(itemRef.value, colour.value));
  }

  /** A loop over references that stops at the first one the lookup resolves. */
  method FirstResolved<T>(xs: seq<nat>, f: nat -> Option<T>) returns (r: Option<T>)
    ensures r == FirstSome(xs, f)
  {
    var k := 0;
    while k < |xs|
      invariant 0 <= k <= |xs|
      invariant forall j :: 0 <= j < k ==> f(xs[j]).None?
    {
      r := f(xs[k]);
      if r.Some? {
        FirstSomeAt(xs, f, k);
        return;
      }
      k := k + 1;
    }
    return None;
  }

  /** `build_brep_color_map`, over the entities in the given order. */
  method BuildBrepColorMap(entities: Entities, order: seq<nat>) returns (colorMap: map<nat, Colour>)
    requires forall i :: 0 <= i < |order| ==> order[i] in entities
    ensures colorMap == ColourMap(entities, order)
  {
    colorMap := map[];
    var i := 0;
    while i < |order|
      invariant 0 <= i <= |order|
      invariant colorMap == ColourMap(entities, order[..i])
    {
      ColourMapStep(entities, order, i);
      var styling := ReadStyling(entities, entities[order[i]]);
      if styling.Some? {
        colorMap := colorMap[styling.value.item := styling.value.colour];
      }
      i := i + 1;
    }
    assert order[..|order|] == order;
  }

  /** One more entity adds its styling, if it has one, to the map of those before it. */
  lemma ColourMapStep(entities: Entities, order: seq<nat>, i: nat)
    requires forall i :: 0 <= i < |order| ==> order[i] in entities
    requires i < |order|
    ensures var before := ColourMap(entities, order[..i]);
      ColourMap(entities, order[..i + 1]) ==
        match StylingOf(entities, entities[order[i]])
        case Some(s) => before[s.item := s.colour]
        case None => before
  {
    var opts := StylingOpts(entities, order[..i + 1]);
    assert opts[..i] == StylingOpts(entities, order[..i]);
    assert opts[i] == StylingOf(entities, entities[order[i]]);
  }

  /** An item is in the map exactly when some entity styles it. */
  lemma {:induction false} MapOfKeys(ss: seq<Option<Styling>>, item: nat)
    ensures item in MapOf(ss) <==> exists i :: 0 <= i < |ss| && ss[i].Some? && ss[i].value.item == item
  {
    if ss != [] {
      var front := ss[..|ss| - 1];
      assert forall i :: 0 <= i < |front| ==> front[i] == ss[i];
      MapOfKeys(front, item);
    }
  }

  /** An item has the colour of the last entity that styles it. */
  lemma {:induction false} MapOfLastWins(ss: seq<Option<Styling>>, k: nat)
    requires k < |ss| && ss[k].Some?
    requires forall j :: k < j < |ss| ==> ss[j].None? || ss[j].value.item != ss[k].value.item
    ensures ss[k].value.item in MapOf(ss) && MapOf(ss)[ss[k].value.item] == ss[k].value.colour
  {
    if k < |ss| - 1 {
      var front := ss[..|ss| - 1];
      assert forall i :: 0 <= i < |front| ==> front[i] == ss[i];
      MapOfLastWins(front, k);
    }
  }

  /** Every entry of the map was given by some entity. */
  lemma {:induction false} MapOfGiven(ss: seq<Option<Styling>>, item: nat)
    requires item in MapOf(ss)
    ensures exists i :: 0 <= i < |ss| && ss[i] == Some(Styling(item, MapOf(ss)[item]))
  {
    var front := ss[..|ss| - 1];
    assert forall i :: 0 <= i < |front| ==> front[i] == ss[i];
    if ss[|ss| - 1].None? || ss[|ss| - 1].value.item != item {
      MapOfGiven(front, item);
    }
  }

  /** An item has a colour exactly when some styled item among those visited, `order`, styles it. */
  lemma ColourMapKeys(entities: Entities, order: seq<nat>, item: nat)
    requires forall i :: 0 <= i < |order| ==> order[i] in entities
    ensures item in ColourMap(entities, order) <==> exists i :: 0 <= i < |order| && Styles(entities, order[i], item)
  {
    var ss := StylingOpts(entities, order);
    MapOfKeys(ss, item);
    assert forall i :: 0 <= i < |order| ==> (Styles(entities, order[i], item) <==> ss[i].Some? && ss[i].value.item == item);
  }

  /** The colour of an item is the one given by the last entity in the order that styles it. */
  lemma ColourMapLastWins(entities: Entities, order: seq<nat>, k: nat)
    requires forall i :: 0 <= i < |order| ==> order[i] in entities
    requires k < |order| && StylingOf(entities, entities[order[k]]).Some?
    requires forall j :: k < j < |order| ==> !Styles(entities, order[j], StylingOf(entities, entities[order[k]]).value.item)
    ensures var s := StylingOf(entities, entities[order[k]]).value;
            s.item in ColourMap(entities, order) && ColourMap(entities, order)[s.item] == s.colour
  {
    var ss := StylingOpts(entities, order);
    assert forall j :: k < j < |order| ==> ss[j].None? || ss[j].value.item != ss[k].value.item;
    MapOfLastWins(ss, k);
  }

  /** Whatever the order, every colour in the map is the colour of an `IFCCOLOURRGB` of the file. */
  lemma ColourMapFromFile(entities: Entities, order: seq<nat>, item: nat)
    requires forall i :: 0 <= i < |order| ==> order[i] in entities
    requires item in ColourMap(entities, order)
    ensures FileColour(entities, ColourMap(entities, order)[item])
  {
    MapOfGiven(StylingOpts(entities, order), item);
  }
}
