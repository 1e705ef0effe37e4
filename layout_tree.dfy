/** The layout tree shared by `document_layout.py`, `block_layout.py`,
    `line_layout.py`, `text_layout.py` and `input_layout.py`.

    Layout objects point at each other (`parent`, `previous`, `children`)
    and are updated in place, so they live in one arena object: box `j` is
    `boxes[j]`, and links are arena indices, -1 standing for `None`.
    A box is only ever created at the end of the arena, after its parent
    and its previous sibling, and is appended to its parent's children at
    the same moment; `TreeOk` records what that guarantees. */
module LayoutTree {
  import opened Base
  import opened Draw
  import opened Dom
  import Helpers

  const HSTEP: real := 13.0
  const VSTEP: real := 18.0
  const WIDTH: real := 800.0
  const HEIGHT: real := 600.0
  const INPUT_WIDTH_PX: real := 200.0

  /** Which class a layout object is; a `TextLayout` holds its word. */
  datatype BoxKind = DocumentBox | BlockBox | LineBox | TextBox(word: string) | InputBox

  /** The links of a layout object: its node, its parent, its previous
      sibling and its children. */
  datatype Box = Box(kind: BoxKind, node: nat, parent: int, previous: int, children: seq<nat>)

  /** The geometry of a layout object, kept beside its links. `font` is what
      `layout` picks for a text or input box; `cursorX` is a block's
      horizontal cursor. */
  datatype Geo = Geo(x: real, y: real, width: real, height: real, font: Font, cursorX: real)

  /** The font of a box that has not been laid out. */
  const NoFont := Font(0, "", "")

  /** The geometry of a freshly constructed layout object: all zero. */
  const NoGeo := Geo(0.0, 0.0, 0.0, 0.0, NoFont, 0.0)

  /** A freshly constructed layout object: no children. */
  function NewBox(kind: BoxKind, node: nat, parent: int, previous: int): Box {
    Box(kind, node, parent, previous, [])
  }

  /** Which layout objects hold which: the document one block, a block
      blocks or lines, a line words and inputs. */
  predicate ChildKind(parent: BoxKind, child: BoxKind) {
    match parent
    case DocumentBox => child == BlockBox
    case BlockBox => child == BlockBox || child == LineBox
    case LineBox => child.TextBox? || child == InputBox
    case _ => false
  }

  /** What the arena guarantees for box `j`: its node exists, its parent and
      its previous sibling come before it, and its children come after it in
      increasing order, are of a kind it can hold, point back to it, and
      each has the one before it as `previous`. */
  predicate BoxOk(bs: seq<Box>, nodeCount: nat, j: nat)
    requires j < |bs|
  {
    var b := bs[j];
    && b.node < nodeCount && -1 <= b.parent < j && -1 <= b.previous < j
    && (forall k :: 0 <= k < |b.children| ==> j < b.children[k] < |bs|)
    && (forall k1, k2 :: 0 <= k1 < k2 < |b.children| ==> b.children[k1] < b.children[k2])
    && (forall k :: 0 <= k < |b.children| ==> ChildKind(b.kind, bs[b.children[k]].kind))
    && (forall k :: 0 <= k < |b.children| ==> bs[b.children[k]].parent == j)
    && (|b.children| > 0 ==> bs[b.children[0]].previous == -1)
    && (forall k :: 0 < k < |b.children| ==> bs[b.children[k]].previous == b.children[k - 1])
  }

  /** The links of box `j` point backwards (or are -1). */
  predicate Linked(bs: seq<Box>, j: nat) {
    j < |bs| && -1 <= bs[j].previous < j && -1 <= bs[j].parent < j
  }

  predicate TreeOk(bs: seq<Box>, nodeCount: nat) {
    forall j :: 0 <= j < |bs| ==> BoxOk(bs, nodeCount, j)
  }

  /** The children table of the layout tree, as `tree_to_list` and
      `paint_tree` walk it. */
  function BoxKids(bs: seq<Box>): (k: seq<seq<nat>>)
    ensures |k| == |bs| && forall j :: 0 <= j < |bs| ==> k[j] == bs[j].children
  {
    seq(|bs|, j requires 0 <= j < |bs| => bs[j].children)
  }

  /** A well-formed layout tree is a tree `Helpers` can walk. */
  lemma BoxKidsOrdered(bs: seq<Box>, nodeCount: nat)
    requires TreeOk(bs, nodeCount)
    ensures Helpers.Ordered(BoxKids(bs))
  {
    forall i, k | 0 <= i < |bs| && 0 <= k < |bs[i].children|
      ensures i < BoxKids(bs)[i][k] < |bs|
    {
      assert BoxOk(bs, nodeCount, i);
    }
  }

  /** The last child of box `p`, or -1 when it has none. */
  function LastChild(bs: seq<Box>, p: nat): int
    requires p < |bs|
  {
    if bs[p].children == [] then -1 else bs[p].children[|bs[p].children| - 1]
  }

  /** A new box of `kind` for `node` at the end of the arena, appended to the
      children of `p` with `p`'s former last child as its previous sibling:
      how `BlockLayout(...)`, `LineLayout(...)`, `TextLayout(...)` and
      `InputLayout(...)` objects come into the tree. */
  function AddChild(bs: seq<Box>, p: nat, kind: BoxKind, node: nat): (r: seq<Box>)
    requires p < |bs|
    ensures |r| == |bs| + 1 && r[|bs|] == NewBox(kind, node, p, LastChild(bs, p))
    ensures r[p] == bs[p].(children := bs[p].children + [|bs|])
    ensures forall j :: 0 <= j < |bs| && j != p ==> r[j] == bs[j]
  {
    bs[p := bs[p].(children := bs[p].children + [|bs|])] + [NewBox(kind, node, p, LastChild(bs, p))]
  }

  lemma AddChildOk(bs: seq<Box>, nodeCount: nat, p: nat, kind: BoxKind, node: nat)
    requires TreeOk(bs, nodeCount) && p < |bs| && node < nodeCount && ChildKind(bs[p].kind, kind)
    ensures TreeOk(AddChild(bs, p, kind, node), nodeCount)
  {
    var r := AddChild(bs, p, kind, node);
    assert BoxOk(bs, nodeCount, p);
    forall j | 0 <= j < |r| ensures BoxOk(r, nodeCount, j) {
      if j < |bs| {
        AddChildKeepsBox(bs, nodeCount, p, kind, node, j);
      }
    }
  }

  /** The boxes that were there stay consistent when a child is added. */
  lemma AddChildKeepsBox(bs: seq<Box>, nodeCount: nat, p: nat, kind: BoxKind, node: nat, j: nat)
    requires TreeOk(bs, nodeCount) && p < |bs| && j < |bs| && ChildKind(bs[p].kind, kind)
    ensures BoxOk(AddChild(bs, p, kind, node), nodeCount, j)
  {
    AddChildKeepsOrder(bs, nodeCount, p, kind, node, j);
    AddChildKeepsPrevious(bs, nodeCount, p, kind, node, j);
    assert BoxOk(bs, nodeCount, j);
    var r := AddChild(bs, p, kind, node);
    assert r[j].node == bs[j].node && r[j].parent == bs[j].parent && r[j].previous == bs[j].previous;
  }

  lemma AddChildKeepsOrder(bs: seq<Box>, nodeCount: nat, p: nat, kind: BoxKind, node: nat, j: nat)
    requires TreeOk(bs, nodeCount) && p < |bs| && j < |bs| && ChildKind(bs[p].kind, kind)
    ensures var r := AddChild(bs, p, kind, node); var cs := r[j].children;
      && (forall k :: 0 <= k < |cs| ==> j < cs[k] < |r|)
      && (forall k1, k2 :: 0 <= k1 < k2 < |cs| ==> cs[k1] < cs[k2])
      && (forall k :: 0 <= k < |cs| ==> ChildKind(r[j].kind, r[cs[k]].kind))
      && (forall k :: 0 <= k < |cs| ==> r[cs[k]].parent == j)
  {
    var r := AddChild(bs, p, kind, node);
    var n := |bs|;
    assert BoxOk(bs, nodeCount, j);
    var oc := bs[j].children;
    var cs := r[j].children;
    assert cs == if j == p then oc + [n] else oc;
    forall k | 0 <= k < |cs| ensures j < cs[k] < |r| && ChildKind(r[j].kind, r[cs[k]].kind) && r[cs[k]].parent == j {
      if k < |oc| {
        assert cs[k] == oc[k];
      } else {
        assert cs[k] == n;
      }
    }
    forall k1, k2 | 0 <= k1 < k2 < |cs| ensures cs[k1] < cs[k2] {
      assert cs[k1] == oc[k1];
      if k2 < |oc| { assert cs[k2] == oc[k2]; }
    }
  }

  lemma AddChildKeepsPrevious(bs: seq<Box>, nodeCount: nat, p: nat, kind: BoxKind, node: nat, j: nat)
    requires TreeOk(bs, nodeCount) && p < |bs| && j < |bs|
    ensures var r := AddChild(bs, p, kind, node); var cs := r[j].children;
      && (forall k :: 0 <= k < |cs| ==> cs[k] < |r|)
      && (|cs| > 0 ==> r[cs[0]].previous == -1)
      && (forall k :: 0 < k < |cs| ==> r[cs[k]].previous == cs[k - 1])
  {
    var r := AddChild(bs, p, kind, node);
    var n := |bs|;
    assert BoxOk(bs, nodeCount, j);
    var oc := bs[j].children;
    var cs := r[j].children;
    assert cs == if j == p then oc + [n] else oc;
    if |cs| > 0 && |oc| == 0 {
      assert cs[0] == n;
    } else if |cs| > 0 {
      assert cs[0] == oc[0];
    }
    forall k | 0 <= k < |cs| ensures cs[k] < |r| {
      if k < |oc| { assert cs[k] == oc[k]; }
    }
    forall k | 0 < k < |cs| ensures r[cs[k]].previous == cs[k - 1] {
      assert cs[k - 1] == oc[k - 1];
      if k < |oc| {
        assert cs[k] == oc[k];
      } else {
        assert cs[k] == n;
      }
    }
  }

  /** The nodes have been styled: every node carries the inherited
      properties that layout reads with `node.style[...]`. */
  predicate Styled(nodes: seq<Node>) {
    forall i :: 0 <= i < |nodes| ==>
      "font-size" in nodes[i].style && "font-weight" in nodes[i].style
      && "font-style" in nodes[i].style && "color" in nodes[i].style
  }

  /** The font `get_font(size, weight, style)` returns for a style, where
      `size` is `int(float(font_size[:-2]) * 0.75)`. */
  function FontOf(m: FontMetrics, style: map<string, string>, slant: string): Font
    requires "font-size" in style && "font-weight" in style
  {
    Font(m.pointSize(style["font-size"]), style["font-weight"], slant)
  }

  /** `self_rect()` of a block or an input: the box's own rectangle. */
  function SelfRect(g: Geo): (r: Rect)
    ensures r.left == g.x && r.top == g.y && r.right - r.left == g.width && r.bottom - r.top == g.height
  {
    Rect(g.x, g.y, g.x + g.width, g.y + g.height)
  }

  /** Python's `sum` of a list of numbers, added from the left. */
  function Sum(xs: seq<real>): real {
    if xs == [] then 0.0 else Sum(xs[..|xs| - 1]) + xs[|xs| - 1]
  }

  /** `[child.height for child in children]`. */
  function Heights(gs: seq<Geo>, cs: seq<nat>): (r: seq<real>)
    requires forall k :: 0 <= k < |cs| ==> cs[k] < |gs|
    ensures |r| == |cs| && forall k :: 0 <= k < |cs| ==> r[k] == gs[cs[k]].height
  {
    seq(|cs|, k requires 0 <= k < |cs| => gs[cs[k]].height)
  }

  /** `sum(child.height for child in children)`. */
  function SumHeights(gs: seq<Geo>, cs: seq<nat>): real
    requires forall k :: 0 <= k < |cs| ==> cs[k] < |gs|
  {
    Sum(Heights(gs, cs))
  }

  /** The sum over the children is the sum over all but the last, plus
      the last child's height. */
  lemma SumHeightsSnoc(gs: seq<Geo>, cs: seq<nat>)
    requires |cs| > 0 && forall k :: 0 <= k < |cs| ==> cs[k] < |gs|
    ensures SumHeights(gs, cs) == SumHeights(gs, cs[..|cs| - 1]) + gs[cs[|cs| - 1]].height
  {
    assert Heights(gs, cs)[..|cs| - 1] == Heights(gs, cs[..|cs| - 1]);
  }

  /** Children placed one below the other, the first at `top`, fill the
      parent down to `top` plus the sum of their heights. */
  lemma {:induction false} StackedFill(gs: seq<Geo>, cs: seq<nat>, top: real)
    requires |cs| > 0 && forall k :: 0 <= k < |cs| ==> cs[k] < |gs|
    requires gs[cs[0]].y == top
    requires forall k :: 0 < k < |cs| ==> gs[cs[k]].y == gs[cs[k - 1]].y + gs[cs[k - 1]].height
    ensures gs[cs[|cs| - 1]].y + gs[cs[|cs| - 1]].height == top + SumHeights(gs, cs)
  {
    if |cs| > 1 {
      var front := cs[..|cs| - 1];
      assert forall k :: 0 <= k < |front| ==> front[k] == cs[k];
      StackedFill(gs, front, top);
    }
    SumHeightsSnoc(gs, cs);
  }

  /** The layout objects of one page: box `j` has links `boxes[j]` and
      geometry `geo[j]`. */
  class Tree {
    const nodes: seq<Node>
    const m: FontMetrics
    var boxes: seq<Box>
    var geo: seq<Geo>

    ghost predicate Valid()
      reads this
    {
      WellFormed(nodes) && Styled(nodes) && TreeOk(boxes, |nodes|) && |geo| == |boxes|
    }

    /** `DocumentLayout(node)` for the root node: the tree holds the
        document object alone. */
    constructor (nodes: seq<Node>, m: FontMetrics)
      requires WellFormed(nodes) && Styled(nodes)
      ensures Valid()
      ensures this.nodes == nodes && this.m == m && boxes == [NewBox(DocumentBox, 0, -1, -1)] && geo == [NoGeo]
    {
      this.nodes := nodes;
      this.m := m;
      boxes := [NewBox(DocumentBox, 0, -1, -1)];
      geo := [NoGeo];
      new;
      assert BoxOk(boxes, |nodes|, 0);
    }
  }
}
