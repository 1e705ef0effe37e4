/** The DOM nodes built by the HTML parser (`element.py`, `text.py`). Nodes
    live in one arena, a sequence indexed by node identity: `children` lists
    indices, `parent` is an index or -1 for the root (Python's `None`). In
    Python a node is an object compared by identity, which the index
    stands for. */
module Dom {
  import opened Helpers

  datatype NodeKind =
    | TextNode(text: string)
    | ElementNode(tag: string, attributes: map<string, string>)

  /** A `Text` or an `Element`: both carry `children`, `parent`, `style`
      and `is_focused`. */
  datatype Node = Node(kind: NodeKind, children: seq<nat>, parent: int, style: map<string, string>, isFocused: bool)

  /** The children table of the arena, as `Helpers` walks it. */
  function Kids(nodes: seq<Node>): (k: seq<seq<nat>>)
    ensures |k| == |nodes| && forall i :: 0 <= i < |nodes| ==> k[i] == nodes[i].children
  {
    seq(|nodes|, i requires 0 <= i < |nodes| => nodes[i].children)
  }

  /** What every arena of the browser satisfies: node 0 is the root, each
      child comes after its parent, points back to it and has no other
      parent, and text nodes have no children. A node detached by
      `innerHTML_set` keeps its `parent` but is no longer listed as a child. */
  predicate WellFormed(nodes: seq<Node>) {
    && |nodes| > 0
    && IsForest(Kids(nodes))
    && (forall i, k :: 0 <= i < |nodes| && 0 <= k < |nodes[i].children| ==> nodes[nodes[i].children[k]].parent == i)
    && (forall i :: 0 <= i < |nodes| ==> -1 <= nodes[i].parent < i)
    && (forall i :: 0 <= i < |nodes| && nodes[i].kind.TextNode? ==> nodes[i].children == [])
  }

  /** Every parent comes before its child. */
  predicate ParentsBefore(nodes: seq<Node>) {
    forall i :: 0 <= i < |nodes| ==> -1 <= nodes[i].parent < i
  }

  /** Every child comes after its parent and points back to it. */
  predicate LinksBack(nodes: seq<Node>) {
    forall i, k :: 0 <= i < |nodes| && 0 <= k < |nodes[i].children| ==>
      i < nodes[i].children[k] < |nodes| && nodes[nodes[i].children[k]].parent == i
  }

  /** Text nodes have no children. */
  predicate TextLeaves(nodes: seq<Node>) {
    forall i :: 0 <= i < |nodes| && nodes[i].kind.TextNode? ==> nodes[i].children == []
  }

  /** `WellFormed`, one part at a time. */
  lemma WellFormedParts(nodes: seq<Node>)
    requires WellFormed(nodes)
    ensures ParentsBefore(nodes) && LinksBack(nodes) && TextLeaves(nodes)
  {
    forall i, k | 0 <= i < |nodes| && 0 <= k < |nodes[i].children|
      ensures i < nodes[i].children[k] < |nodes|
    {
      assert Kids(nodes)[i][k] == nodes[i].children[k];
    }
  }

  /** ... and back. */
  lemma PartsWellFormed(nodes: seq<Node>)
    requires |nodes| > 0 && ParentsBefore(nodes) && LinksBack(nodes) && TextLeaves(nodes)
    requires forall i, j, a, b ::
         (0 <= i < |nodes| && 0 <= j < |nodes| && 0 <= a < |nodes[i].children| && 0 <= b < |nodes[j].children|
          && nodes[i].children[a] == nodes[j].children[b]) ==> i == j && a == b
    ensures WellFormed(nodes)
  {
    var ks := Kids(nodes);
    assert Ordered(ks);
  }

  /** Two arenas with the same nodes apart from their `style` fields. */
  predicate SameShape(a: seq<Node>, b: seq<Node>) {
    && |a| == |b|
    && forall i :: 0 <= i < |a| ==>
         (a[i].kind == b[i].kind && a[i].children == b[i].children
          && a[i].parent == b[i].parent && a[i].isFocused == b[i].isFocused)
  }

  /** Restyling keeps the tree and therefore its preorder. */
  lemma SameShapeKids(a: seq<Node>, b: seq<Node>)
    requires SameShape(a, b)
    ensures Kids(a) == Kids(b)
    ensures WellFormed(a) ==> WellFormed(b)
  {
    assert forall i :: 0 <= i < |a| ==> Kids(a)[i] == Kids(b)[i];
  }

  /** The node objects of one page. Python code that holds a node and
      assigns to its fields changes them for every holder; the model keeps
      the nodes in one shared object and replaces entries of `nodes`. */
  class Arena {
    var nodes: seq<Node>

    constructor (nodes: seq<Node>)
      ensures this.nodes == nodes
    {
      this.nodes := nodes;
    }
  }
}
