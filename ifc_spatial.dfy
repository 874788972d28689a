/**
 * The IFC spatial hierarchy (project, site, building, storey, space) as a
 * tree of nodes, each owning its children in order. Searches run depth first,
 * a node before its children and the children left to right: pre-order.
 */
module IfcSpatial {
  import opened Core

  datatype SpatialKind = Project | Site | Building | BuildingStorey | Space

  /** A node of the hierarchy; `entityId` is the `u64` id of the IFC entity it stands for. */
  datatype SpatialNode = SpatialNode(
    entityId: nat,
    kind: SpatialKind,
    name: string,
    description: Option<string>,
    children: seq<SpatialNode>)

  /** `SpatialNode::new`: a leaf without a description. */
  function NewNode(entityId: nat, kind: SpatialKind, name: string): (r: SpatialNode)
    ensures PreOrder(r) == [r] && Count(r) == 1
    ensures r.entityId == entityId && r.kind == kind && r.name == name && r.description == None
  {
    SpatialNode(entityId, kind, name, None, [])
  }

  /** `add_child`: the node with `child` pushed after its other children. */
  function AddChild(n: SpatialNode, child: SpatialNode): (r: SpatialNode)
    ensures r.children == n.children + [child]
    ensures r.entityId == n.entityId && r.kind == n.kind && r.name == n.name && r.description == n.description
  {
    n.(children := n.children + [child])
  }

  /** `count`: one for the node plus the counts of its children. */
  function Count(n: SpatialNode): (r: nat)
    ensures r >= 1 + |n.children|
    decreases n, 1
  {
    1 + CountAll(n.children)
  }

  /** The sum of the counts of `cs`. */
  function CountAll(cs: seq<SpatialNode>): (r: nat)
    ensures r >= |cs|
    decreases cs, 0
  {
    if cs == [] then 0 else CountAll(cs[..|cs| - 1]) + Count(cs[|cs| - 1])
  }

  /** Every node of the subtree, the node first, then each child's subtree in turn. */
  function PreOrder(n: SpatialNode): seq<SpatialNode>
    decreases n, 1
  {
    [n] + PreOrderAll(n.children)
  }

  /** The subtrees of `cs` in pre-order, one after the other. */
  function PreOrderAll(cs: seq<SpatialNode>): seq<SpatialNode>
    decreases cs, 0
  {
    if cs == [] then [] else PreOrderAll(cs[..|cs| - 1]) + PreOrder(cs[|cs| - 1])
  }

  /** `find_by_id`: the node itself when it has the id, else the first child subtree holding it. */
  function FindById(n: SpatialNode, id: nat): (r: Option<SpatialNode>)
    ensures n.entityId == id ==> r == Some(n)
    ensures r.Some? ==> r.value.entityId == id && r.value in PreOrder(n)
    decreases n, 1
  {
    if n.entityId == id then Some(n) else FindIn(n.children, id)
  }

  /** The loop over the children in `find_by_id`: the first hit, searching `cs` left to right. */
  function FindIn(cs: seq<SpatialNode>, id: nat): (r: Option<SpatialNode>)
    ensures r.Some? ==> r.value.entityId == id && r.value in PreOrderAll(cs)
    decreases cs, 0
  {
    if cs == [] then None
    else
      match FindIn(cs[..|cs| - 1], id)
      case Some(found) => Some(found)
      case None => FindById(cs[|cs| - 1], id)
  }

  /** The first node of `ns` with the id, if any. */
  function FirstWithId(ns: seq<SpatialNode>, id: nat): (r: Option<SpatialNode>)
    ensures r.Some? ==> r.value in ns && r.value.entityId == id
  {
    if ns == [] then None
    else if ns[0].entityId == id then Some(ns[0])
    else FirstWithId(ns[1..], id)
  }

  /** The nodes of `ns` of the kind, in their order. */
  function OfKind(ns: seq<SpatialNode>, kind: SpatialKind): seq<SpatialNode> {
    if ns == [] then []
    else (if ns[0].kind == kind then [ns[0]] else []) + OfKind(ns[1..], kind)
  }

  /**
   * `find_by_kind`: the node when it has the kind, followed by what each
   * child's search collects, in child order.
   */
  method FindByKind(n: SpatialNode, kind: SpatialKind) returns (result: seq<SpatialNode>)
    ensures result == OfKind(PreOrder(n), kind)
    decreases n
  {
    result := [];
    if n.kind == kind {
      result := [n];
    }
    assert result == OfKind([n], kind);
    var i := 0;
    while i < |n.children|
      invariant 0 <= i <= |n.children|
      invariant result == OfKind([n] + PreOrderAll(n.children[..i]), kind)
    {
      var child := n.children[i];
      var found := FindByKind(child, kind);
      assert n.children[..i + 1][..i] == n.children[..i];
      assert [n] + PreOrderAll(n.children[..i + 1]) == ([n] + PreOrderAll(n.children[..i])) + PreOrder(child);
      OfKindConcat([n] + PreOrderAll(n.children[..i]), PreOrder(child), kind);
      result := result + found;
      i := i + 1;
    }
    assert n.children[..i] == n.children;
  }

  /** Filtering by kind distributes over concatenation. */
  lemma {:induction false} OfKindConcat(a: seq<SpatialNode>, b: seq<SpatialNode>, kind: SpatialKind)
    ensures OfKind(a + b, kind) == OfKind(a, kind) + OfKind(b, kind)
  {
    if a != [] {
      assert (a + b)[1..] == a[1..] + b;
      OfKindConcat(a[1..], b, kind);
    } else {
      assert a + b == b;
    }
  }

  /** The nodes of a kind are exactly the nodes of `ns` that have it, and there are no more of them than nodes. */
  lemma {:induction false} OfKindSpec(ns: seq<SpatialNode>, kind: SpatialKind)
    ensures forall x :: x in OfKind(ns, kind) <==> x in ns && x.kind == kind
    ensures |OfKind(ns, kind)| <= |ns|
  {
    if ns != [] {
      OfKindSpec(ns[1..], kind);
      assert ns == [ns[0]] + ns[1..];
    }
  }

  /** The first hit in a concatenation is the first hit in the front part, else in the back part. */
  lemma {:induction false} FirstWithIdConcat(a: seq<SpatialNode>, b: seq<SpatialNode>, id: nat)
    ensures FirstWithId(a + b, id) == if FirstWithId(a, id).Some? then FirstWithId(a, id) else FirstWithId(b, id)
  {
    if a != [] {
      assert (a + b)[0] == a[0];
      assert (a + b)[1..] == a[1..] + b;
      FirstWithIdConcat(a[1..], b, id);
    } else {
      assert a + b == b;
    }
  }

  /**
   * The first hit is the node at the first position holding the id; there
   * is none exactly when no node of `ns` has the id.
   */
  lemma {:induction false} FirstWithIdSpec(ns: seq<SpatialNode>, id: nat)
    ensures FirstWithId(ns, id).None? <==> forall k :: 0 <= k < |ns| ==> ns[k].entityId != id
    ensures FirstWithId(ns, id).Some? ==>
      exists k :: 0 <= k < |ns| && ns[k] == FirstWithId(ns, id).value && forall j :: 0 <= j < k ==> ns[j].entityId != id
  {
    if ns != [] && ns[0].entityId != id {
      FirstWithIdSpec(ns[1..], id);
      if FirstWithId(ns, id).Some? {
        var k :| 0 <= k < |ns| - 1 && ns[1..][k] == FirstWithId(ns, id).value &&
          forall j :: 0 <= j < k ==> ns[1..][j].entityId != id;
        assert ns[k + 1] == FirstWithId(ns, id).value;
        assert forall j :: 1 <= j < k + 1 ==> ns[j] == ns[1..][j - 1];
      } else {
        forall k | 0 <= k < |ns| ensures ns[k].entityId != id {
          if k > 0 { assert ns[k] == ns[1..][k - 1]; }
        }
      }
    }
  }

  /** `find_by_id` returns the first node in pre-order with the id. */
  lemma {:induction false} FindByIdFirst(n: SpatialNode, id: nat)
    ensures FindById(n, id) == FirstWithId(PreOrder(n), id)
    decreases n, 1
  {
    if n.entityId != id {
      FindInFirst(n.children, id);
      assert PreOrder(n)[1..] == PreOrderAll(n.children);
    }
  }

  /** The search over the children returns the first node with the id in their pre-order. */
  lemma {:induction false} FindInFirst(cs: seq<SpatialNode>, id: nat)
    ensures FindIn(cs, id) == FirstWithId(PreOrderAll(cs), id)
    decreases cs, 0
  {
    if cs != [] {
      var front, last := cs[..|cs| - 1], cs[|cs| - 1];
      FindInFirst(front, id);
      FindByIdFirst(last, id);
      FirstWithIdConcat(PreOrderAll(front), PreOrder(last), id);
    }
  }

  /**
   * `find_by_id` finds a node exactly when some node of the subtree has the
   * id, and what it finds is the first such node in pre-order.
   */
  lemma FindByIdSpec(n: SpatialNode, id: nat)
    ensures FindById(n, id).None? <==> forall k :: 0 <= k < |PreOrder(n)| ==> PreOrder(n)[k].entityId != id
    ensures FindById(n, id).Some? ==>
      exists k :: 0 <= k < |PreOrder(n)| && PreOrder(n)[k] == FindById(n, id).value &&
        FindById(n, id).value.entityId == id && forall j :: 0 <= j < k ==> PreOrder(n)[j].entityId != id
  {
    FindByIdFirst(n, id);
    FirstWithIdSpec(PreOrder(n), id);
  }

  /** The pre-order of a subtree lists `count` nodes. */
  lemma {:induction false} PreOrderLength(n: SpatialNode)
    ensures |PreOrder(n)| == Count(n)
    decreases n, 1
  {
    PreOrderAllLength(n.children);
  }

  /** The pre-order of the children lists as many nodes as their counts add up to. */
  lemma {:induction false} PreOrderAllLength(cs: seq<SpatialNode>)
    ensures |PreOrderAll(cs)| == CountAll(cs)
    decreases cs, 0
  {
    if cs != [] {
      PreOrderAllLength(cs[..|cs| - 1]);
      PreOrderLength(cs[|cs| - 1]);
    }
  }

  /**
   * `find_by_kind` collects exactly the nodes of the subtree that have the
   * kind, in pre-order, and at most `count` of them.
   */
  lemma FindByKindSpec(n: SpatialNode, kind: SpatialKind)
    ensures forall x :: x in OfKind(PreOrder(n), kind) <==> x in PreOrder(n) && x.kind == kind
    ensures |OfKind(PreOrder(n), kind)| <= Count(n)
  {
    OfKindSpec(PreOrder(n), kind);
    PreOrderLength(n);
  }

  /**
   * After `add_child` the node is followed in pre-order by its old
   * descendants and then the child's subtree, and the count grows by the
   * child's count.
   */
  lemma AddChildGrows(n: SpatialNode, child: SpatialNode)
    ensures PreOrder(AddChild(n, child)) == [AddChild(n, child)] + PreOrder(n)[1..] + PreOrder(child)
    ensures Count(AddChild(n, child)) == Count(n) + Count(child)
  {
    var r := AddChild(n, child);
    assert r.children[..|r.children| - 1] == n.children;
  }

  /** The tree the tests build: a project holding a site holding a building with two storeys. */
  function SampleTree(): SpatialNode {
    var storeys := [NewNode(4, BuildingStorey, "Ground Floor"), NewNode(5, BuildingStorey, "First Floor")];
    var building := SpatialNode(3, Building, "Building A", None, storeys);
    var site := SpatialNode(2, Site, "Main Site", None, [building]);
    SpatialNode(1, Project, "My Project", None, [site])
  }

  /** The sample tree is what `add_child` builds from the five new nodes. */
  lemma SampleTreeBuilt()
    ensures SampleTree() == AddChild(NewNode(1, Project, "My Project"), AddChild(NewNode(2, Site, "Main Site"),
      AddChild(AddChild(NewNode(3, Building, "Building A"), NewNode(4, BuildingStorey, "Ground Floor")),
        NewNode(5, BuildingStorey, "First Floor"))))
  {
    var s1, s2 := NewNode(4, BuildingStorey, "Ground Floor"), NewNode(5, BuildingStorey, "First Floor");
    assert [] + [s1] + [s2] == [s1, s2];
    var building := AddChild(AddChild(NewNode(3, Building, "Building A"), s1), s2);
    assert [] + [building] == [building];
    var site := AddChild(NewNode(2, Site, "Main Site"), building);
    assert [] + [site] == [site];
  }

  /** The pre-order of the sample tree: project, site, building, then the two storeys. */
  lemma SamplePreOrder()
    ensures var tree := SampleTree(); var site := tree.children[0]; var building := site.children[0];
      PreOrder(tree) == [tree, site, building, building.children[0], building.children[1]]
  {
    var tree := SampleTree();
    var site := tree.children[0];
    var building := site.children[0];
    var s1, s2 := building.children[0], building.children[1];
    assert PreOrder(s1) == [s1] && PreOrder(s2) == [s2];
    assert building.children[..1] == [s1];
    assert PreOrderAll(building.children) == [s1, s2];
    assert PreOrder(building) == [building, s1, s2];
    assert site.children[..0] == [];
    assert PreOrder(site) == [site, building, s1, s2];
    assert tree.children[..0] == [];
  }

  /** The sample tree has five nodes. */
  lemma SampleCount()
    ensures Count(SampleTree()) == 5
  {
    SamplePreOrder();
    PreOrderLength(SampleTree());
  }

  /** In the sample tree id 3 finds the building and id 999 finds nothing. */
  lemma SampleFind()
    ensures FindById(SampleTree(), 3).Some? && FindById(SampleTree(), 3).value.name == "Building A"
    ensures FindById(SampleTree(), 3).value.kind == Building
    ensures FindById(SampleTree(), 999).None?
  {
    var tree := SampleTree();
    SamplePreOrder();
    var ns := PreOrder(tree);
    FindByIdFirst(tree, 3);
    FindByIdFirst(tree, 999);
    assert FirstWithId(ns, 3) == Some(ns[2]) by {
      assert ns[1..][1..] == ns[2..];
    }
    FirstWithIdSpec(ns, 999);
  }

  /** The sample tree has two storeys. */
  lemma SampleStoreys()
    ensures |OfKind(PreOrder(SampleTree()), BuildingStorey)| == 2
  {
    var tree := SampleTree();
    SamplePreOrder();
    var building := tree.children[0].children[0];
    OfKindOfFive(tree, tree.children[0], building, building.children[0], building.children[1], BuildingStorey);
  }

  /** Of five nodes whose last two alone have the kind, two are collected. */
  lemma OfKindOfFive(a: SpatialNode, b: SpatialNode, c: SpatialNode, d: SpatialNode, e: SpatialNode, kind: SpatialKind)
    requires a.kind != kind && b.kind != kind && c.kind != kind && d.kind == kind && e.kind == kind
    ensures OfKind([a, b, c, d, e], kind) == [d, e]
  {
    assert [e][1..] == [] && OfKind([e], kind) == [e];
    assert [d, e][1..] == [e] && OfKind([d, e], kind) == [d, e];
    assert [c, d, e][1..] == [d, e] && OfKind([c, d, e], kind) == [d, e];
    assert [b, c, d, e][1..] == [c, d, e] && OfKind([b, c, d, e], kind) == [d, e];
    assert [a, b, c, d, e][1..] == [b, c, d, e];
  }
}
