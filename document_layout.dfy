/** `document_layout.py`: the root of the layout tree, one block for the
    root node, placed inside the page margins. */
module DocumentLayout {
  import opened LayoutTree
  import opened Draw
  import BlockLayout

  /** The width of the page's content: the window less a margin of
      `HSTEP` on each side. */
  const CONTENT_WIDTH: real := WIDTH - 2.0 * HSTEP

  /** `DocumentLayout.layout` on a document object that has no children
      yet: one block for the document's node is made and laid out at the
      top left margin, over the content width, and the document is as
      tall as that block. No box that existed besides the document object
      changes. */
  method Layout(t: Tree)
    requires t.Valid() && |t.boxes| > 0 && t.boxes[0].kind.DocumentBox? && t.boxes[0].children == []
    modifies t
    ensures t.Valid() && |t.boxes| > old(|t.boxes|)
    ensures forall j :: 0 < j < old(|t.boxes|) ==> t.boxes[j] == old(t.boxes[j]) && t.geo[j] == old(t.geo[j])
    ensures var c := old(|t.boxes|);
      && t.boxes[0] == old(t.boxes[0]).(children := [c])
      && t.geo[0] == old(t.geo[0]).(x := HSTEP, y := VSTEP, width := CONTENT_WIDTH, height := t.geo[c].height)
      && t.boxes[c].kind.BlockBox? && t.boxes[c].node == t.boxes[0].node
      && t.boxes[c].parent == 0 && t.boxes[c].previous == -1
      && t.geo[c].x == HSTEP && t.geo[c].y == VSTEP && t.geo[c].width == CONTENT_WIDTH
      && t.boxes[c].node < |t.nodes| && BlockLayout.ChildrenMade(t.nodes, t.boxes, c)
      && t.geo[c].height == SumHeights(t.geo, t.boxes[c].children)
      && forall k :: 0 <= k < |t.boxes[c].children| ==> BlockLayout.Stacked(t.boxes, t.geo, t.boxes[c].children[k])
  {
    var c := |t.boxes|;
    var node := t.boxes[0].node;
    assert BoxOk(t.boxes, |t.nodes|, 0);
    AddChildOk(t.boxes, |t.nodes|, 0, BlockBox, node);
    t.boxes := AddChild(t.boxes, 0, BlockBox, node);
    t.geo := t.geo + [NoGeo];
    t.geo := t.geo[0 := t.geo[0].(width := CONTENT_WIDTH, x := HSTEP, y := VSTEP)];
    BlockLayout.Layout(t, c);
    SetHeight(t, c);
  }

  /** `self.height = child.height`, which leaves the block and its
      children where they are. */
  method SetHeight(t: Tree, c: nat)
    requires t.Valid() && 0 < c < |t.boxes| && t.boxes[c].parent == 0 && t.boxes[c].previous == -1
    modifies t
    ensures t.Valid() && t.boxes == old(t.boxes)
    ensures t.geo == old(t.geo)[0 := old(t.geo[0]).(height := old(t.geo[c].height))]
    ensures BlockLayout.Stacked(old(t.boxes), old(t.geo), c) ==> BlockLayout.Stacked(t.boxes, t.geo, c)
    ensures var cs := t.boxes[c].children;
      && (forall k :: 0 <= k < |cs| ==> cs[k] < |t.geo| && cs[k] != 0)
      && SumHeights(t.geo, cs) == SumHeights(old(t.geo), cs)
      && forall k :: 0 <= k < |cs| && BlockLayout.Stacked(old(t.boxes), old(t.geo), cs[k]) ==>
           BlockLayout.Stacked(t.boxes, t.geo, cs[k])
  {
    assert BoxOk(t.boxes, |t.nodes|, c);
    var cs := t.boxes[c].children;
    t.geo := t.geo[0 := t.geo[0].(height := t.geo[c].height)];
    assert Heights(t.geo, cs) == Heights(old(t.geo), cs);
    forall k | 0 <= k < |cs| && BlockLayout.Stacked(old(t.boxes), old(t.geo), cs[k])
      ensures BlockLayout.Stacked(t.boxes, t.geo, cs[k])
    {
      if k > 0 {
        assert t.boxes[cs[k]].previous == cs[k - 1];
      }
    }
  }

  /** `DocumentLayout.paint`: nothing of its own. */
  function Paint(): (r: seq<Cmd>)
    ensures r == []
  {
    []
  }
}
