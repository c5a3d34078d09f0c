/** The background flattener: turns the native bookmark forest into the flat
    list of `{id, title, url}` records, depth-first and in pre-order. */
module Flatten {
  import opened Types

  /** The record a node with a url contributes. */
  function ToLeaf(n: Node): Leaf
    requires HasUrl(n)
  {
    Leaf(n.id, n.title, n.url.value)
  }

  /** What one node contributes by itself: its record when its url is truthy. */
  function Own(n: Node): seq<Leaf> {
    if HasUrl(n) then [ToLeaf(n)] else []
  }

  /** Specification of the flattener for one node: its own record, then
      its children flattened. */
  function FlattenNode(n: Node): seq<Leaf>
    decreases n, 1
  {
    Own(n) + match n.children
             case Present(cs) => FlattenForest(cs)
             case Absent => []
  }

  /** Specification of the flattener for a list of siblings, left to right. */
  function FlattenForest(nodes: seq<Node>): seq<Leaf>
    decreases nodes, 0
  {
    if nodes == [] then [] else FlattenNode(nodes[0]) + FlattenForest(nodes[1..])
  }

  /** The node and all its descendants in depth-first pre-order: the
      reference traversal the flattener is measured against. */
  function PreOrderNode(n: Node): seq<Node>
    decreases n, 1
  {
    [n] + match n.children
          case Present(cs) => PreOrder(cs)
          case Absent => []
  }

  function PreOrder(nodes: seq<Node>): seq<Node>
    decreases nodes, 0
  {
    if nodes == [] then [] else PreOrderNode(nodes[0]) + PreOrder(nodes[1..])
  }

  /** The records of a flat list of nodes: one per node with a truthy url,
      in list order. */
  function Leaves(ns: seq<Node>): seq<Leaf> {
    if ns == [] then [] else Own(ns[0]) + Leaves(ns[1..])
  }

  lemma {:induction false} LeavesAppend(a: seq<Node>, b: seq<Node>)
    ensures Leaves(a + b) == Leaves(a) + Leaves(b)
  {
    if a == [] {
      assert a + b == b;
    } else {
      assert (a + b)[1..] == a[1..] + b;
      LeavesAppend(a[1..], b);
    }
  }

  /** Flattening the concatenation of two sibling lists gives the records of
      the earlier siblings before those of the later ones. */
  lemma {:induction false} FlattenAppend(a: seq<Node>, b: seq<Node>)
    ensures FlattenForest(a + b) == FlattenForest(a) + FlattenForest(b)
  {
    if a == [] {
      assert a + b == b;
    } else {
      assert (a + b)[0] == a[0];
      assert (a + b)[1..] == a[1..] + b;
      FlattenAppend(a[1..], b);
    }
  }

  lemma {:induction false} NodeIsPreOrderLeaves(n: Node)
    ensures FlattenNode(n) == Leaves(PreOrderNode(n))
    decreases n, 1
  {
    assert [n][1..] == [];
    match n.children
    case Present(cs) =>
      FlattenIsPreOrderLeaves(cs);
      LeavesAppend([n], PreOrder(cs));
    case Absent =>
  }

  /** The flattener emits exactly the records of the pre-order node list:
      one per node with a truthy url, no folder, nothing twice, in
      depth-first pre-order. */
  lemma {:induction false} FlattenIsPreOrderLeaves(nodes: seq<Node>)
    ensures FlattenForest(nodes) == Leaves(PreOrder(nodes))
    decreases nodes, 0
  {
    if nodes != [] {
      NodeIsPreOrderLeaves(nodes[0]);
      FlattenIsPreOrderLeaves(nodes[1..]);
      LeavesAppend(PreOrderNode(nodes[0]), PreOrder(nodes[1..]));
    }
  }

  lemma {:induction false} LeavesMembership(ns: seq<Node>, l: Leaf)
    ensures l in Leaves(ns) <==> exists n :: n in ns && HasUrl(n) && l == ToLeaf(n)
  {
    if ns != [] {
      LeavesMembership(ns[1..], l);
      assert ns == [ns[0]] + ns[1..];
    }
  }

  /** Each flattened record copies the id, title and url of a node of the
      tree whose url is truthy, and every such node yields a record. */
  lemma FlattenMembership(nodes: seq<Node>, l: Leaf)
    ensures l in FlattenForest(nodes) <==> exists n :: n in PreOrder(nodes) && HasUrl(n) && l == ToLeaf(n)
    ensures l in FlattenForest(nodes) ==> l.url != ""
  {
    FlattenIsPreOrderLeaves(nodes);
    LeavesMembership(PreOrder(nodes), l);
  }

  lemma FlattenPrefixStep(nodes: seq<Node>, i: nat)
    requires i < |nodes|
    ensures FlattenForest(nodes[..i + 1]) == FlattenForest(nodes[..i]) + FlattenNode(nodes[i])
  {
    assert nodes[..i + 1] == nodes[..i] + [nodes[i]];
    assert [nodes[i]][1..] == [];
    FlattenAppend(nodes[..i], [nodes[i]]);
  }

  /** One iteration of the traversal loop: the records pushed for node i
      extend the flattening of the first i siblings to the first i + 1. */
  lemma TraverseStep(nodes: seq<Node>, i: nat, acc: seq<Leaf>, before: seq<Leaf>, own: seq<Leaf>, after: seq<Leaf>)
    requires i < |nodes|
    requires before == acc + FlattenForest(nodes[..i])
    requires own == before + Own(nodes[i])
    requires nodes[i].children.Absent? ==> after == own
    requires nodes[i].children.Present? ==> after == own + FlattenForest(nodes[i].children.nodes)
    ensures after == acc + FlattenForest(nodes[..i + 1])
  {
    FlattenPrefixStep(nodes, i);
  }

  /** The imperative traversal: walks `nodes` left to right, pushing the
      record of every node with a truthy url onto the accumulator and
      recursing into `children` whenever they are present. */
  method Traverse(nodes: seq<Node>, acc: seq<Leaf>) returns (bookmarks: seq<Leaf>)
    ensures bookmarks == acc + FlattenForest(nodes)
    decreases Present(nodes)
  {
    bookmarks := acc;
    var i := 0;
    assert nodes[..0] == [];
    while i < |nodes|
      invariant 0 <= i <= |nodes|
      invariant bookmarks == acc + FlattenForest(nodes[..i])
    {
      var node := nodes[i];
      ghost var before := bookmarks;
      if HasUrl(node) {
        bookmarks := bookmarks + [ToLeaf(node)];
      }
      ghost var own := bookmarks;
      if node.children.Present? {
        assert node in nodes;
        bookmarks := Traverse(node.children.nodes, bookmarks);
      }
      TraverseStep(nodes, i, acc, before, own, bookmarks);
      i := i + 1;
    }
    assert nodes[..i] == nodes;
  }

  /** `flattenBookmarks` of the background script. */
  method FlattenBookmarks(nodes: seq<Node>) returns (bookmarks: seq<Leaf>)
    ensures bookmarks == FlattenForest(nodes)
  {
    bookmarks := Traverse(nodes, []);
  }

  /** The example tree `[a, folder [b, c], d]` flattens to `[a, b, c, d]`. */
  lemma ExampleFlatten()
    ensures
      var a := Node("1", "A", Some("a"), Absent);
      var b := Node("2", "B", Some("b"), Absent);
      var c := Node("3", "C", Some("c"), Absent);
      var d := Node("4", "D", Some("d"), Absent);
      var folder := Node("5", "F", None, Present([b, c]));
      FlattenForest([a, folder, d]) == [ToLeaf(a), ToLeaf(b), ToLeaf(c), ToLeaf(d)]
  {
    var a := Node("1", "A", Some("a"), Absent);
    var b := Node("2", "B", Some("b"), Absent);
    var c := Node("3", "C", Some("c"), Absent);
    var d := Node("4", "D", Some("d"), Absent);
    var folder := Node("5", "F", None, Present([b, c]));
    assert FlattenNode(a) == [ToLeaf(a)];
    assert FlattenNode(b) == [ToLeaf(b)];
    assert FlattenNode(c) == [ToLeaf(c)];
    assert FlattenNode(d) == [ToLeaf(d)];
    assert FlattenForest([c]) == [ToLeaf(c)] by { assert [c][1..] == []; }
    assert FlattenForest([b, c]) == [ToLeaf(b), ToLeaf(c)] by { assert [b, c][1..] == [c]; }
    assert FlattenNode(folder) == [ToLeaf(b), ToLeaf(c)];
    assert FlattenForest([d]) == [ToLeaf(d)] by { assert [d][1..] == []; }
    assert FlattenForest([folder, d]) == [ToLeaf(b), ToLeaf(c), ToLeaf(d)] by { assert [folder, d][1..] == [d]; }
    assert [a, folder, d][1..] == [folder, d];
  }
}
