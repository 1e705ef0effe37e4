/** `line_layout.py`: one line of words and inputs. */
module LineLayout {
  import opened Draw
  import opened Dom
  import opened LayoutTree
  import TextLayout
  import InputLayout

  /** A box's geometry apart from its vertical position. */
  function NoY(g: Geo): Geo {
    g.(y := 0.0)
  }

  /** The fields a word reads from its previous word and its line. */
  function Anchor(g: Geo): (real, real, Font) {
    (g.x, g.width, g.font)
  }

  /** A child of a line laid out as a word or as an input. */
  predicate LeafPlaced(nodes: seq<Node>, m: FontMetrics, bs: seq<Box>, gs: seq<Geo>, j: nat) {
    TextLayout.TextPlaced(nodes, m, bs, gs, j) || InputLayout.InputPlaced(nodes, m, bs, gs, j)
  }

  /** Being laid out depends on nothing but the box's own geometry (apart
      from its top) and the anchor fields of its previous box and its line. */
  lemma PlacedFrame(nodes: seq<Node>, m: FontMetrics, bs: seq<Box>, a: seq<Geo>, b: seq<Geo>, j: nat)
    requires |a| == |b| == |bs| && j < |a| && NoY(a[j]) == NoY(b[j])
    requires 0 <= bs[j].previous < |a| ==> Anchor(a[bs[j].previous]) == Anchor(b[bs[j].previous])
    requires 0 <= bs[j].parent < |a| ==> Anchor(a[bs[j].parent]) == Anchor(b[bs[j].parent])
    requires LeafPlaced(nodes, m, bs, a, j)
    ensures LeafPlaced(nodes, m, bs, b, j)
  {
    assert a[j].font == NoY(b[j]).font && a[j].width == NoY(b[j]).width;
    assert a[j].x == NoY(b[j]).x && a[j].height == NoY(b[j]).height;
  }

  /** The ascents and the descents of the fonts of boxes `cs`. */
  function Ascents(m: FontMetrics, gs: seq<Geo>, cs: seq<nat>): (r: seq<real>)
    requires forall k :: 0 <= k < |cs| ==> cs[k] < |gs|
    ensures |r| == |cs| && forall k :: 0 <= k < |cs| ==> r[k] == m.ascent(gs[cs[k]].font)
  {
    seq(|cs|, k requires 0 <= k < |cs| => m.ascent(gs[cs[k]].font))
  }

  function Descents(m: FontMetrics, gs: seq<Geo>, cs: seq<nat>): (r: seq<real>)
    requires forall k :: 0 <= k < |cs| ==> cs[k] < |gs|
    ensures |r| == |cs| && forall k :: 0 <= k < |cs| ==> r[k] == m.descent(gs[cs[k]].font)
  {
    seq(|cs|, k requires 0 <= k < |cs| => m.descent(gs[cs[k]].font))
  }

  /** What a child of a line needs in order to be laid out. */
  predicate LeafReady(nodes: seq<Node>, bs: seq<Box>, c: nat) {
    && Linked(bs, c) && (bs[c].kind.TextBox? || bs[c].kind.InputBox?)
    && bs[c].parent >= 0 && bs[c].node < |nodes|
  }

  /** Boxes `cs`, in increasing order, are children of box `l`, chained by
      their `previous` links. */
  predicate Chained(bs: seq<Box>, l: nat, cs: seq<nat>) {
    && (forall k :: 0 <= k < |cs| ==> l < cs[k] < |bs| && bs[cs[k]].parent == l)
    && (forall k1, k2 :: 0 <= k1 < k2 < |cs| ==> cs[k1] < cs[k2])
    && (|cs| > 0 ==> bs[cs[0]].previous == -1)
    && (forall k :: 0 < k < |cs| ==> bs[cs[k]].previous == cs[k - 1])
  }

  /** What `LineLayout.layout` needs of line `l`. */
  predicate LineReady(nodes: seq<Node>, bs: seq<Box>, l: nat) {
    && Styled(nodes) && l < |bs|
    && Chained(bs, l, bs[l].children)
    && forall k :: 0 <= k < |bs[l].children| ==> LeafReady(nodes, bs, bs[l].children[k])
  }

  lemma LineReadyOk(nodes: seq<Node>, bs: seq<Box>, l: nat)
    requires TreeOk(bs, |nodes|) && Styled(nodes) && l < |bs| && bs[l].kind.LineBox?
    ensures LineReady(nodes, bs, l)
  {
    assert BoxOk(bs, |nodes|, l);
    forall k | 0 <= k < |bs[l].children| ensures LeafReady(nodes, bs, bs[l].children[k]) {
      assert BoxOk(bs, |nodes|, bs[l].children[k]);
    }
  }

  /** `word.layout()` for one child of a line. */
  function PlaceLeaf(nodes: seq<Node>, m: FontMetrics, bs: seq<Box>, gs: seq<Geo>, c: nat): (g: Geo)
    requires Styled(nodes) && |gs| == |bs| && LeafReady(nodes, bs, c)
    ensures g.y == gs[c].y
    ensures LeafPlaced(nodes, m, bs, gs[c := g], c)
  {
    if bs[c].kind.TextBox? then TextLayout.Place(nodes, m, bs, gs, c) else InputLayout.Place(nodes, m, bs, gs, c)
  }

  /** The geometry after `for word in cs: word.layout()`. */
  function PlaceAll(nodes: seq<Node>, m: FontMetrics, bs: seq<Box>, gs: seq<Geo>, cs: seq<nat>): (r: seq<Geo>)
    requires Styled(nodes) && |gs| == |bs| && forall k :: 0 <= k < |cs| ==> LeafReady(nodes, bs, cs[k])
    ensures |r| == |gs|
  {
    if cs == [] then gs
    else
      var r := PlaceAll(nodes, m, bs, gs, cs[..|cs| - 1]);
      var c := cs[|cs| - 1];
      assert LeafReady(nodes, bs, c);
      r[c := PlaceLeaf(nodes, m, bs, r, c)]
  }

  /** Laying out the children `cs` of a line changes nothing but them. */
  lemma {:induction false} PlaceAllFrame(nodes: seq<Node>, m: FontMetrics, bs: seq<Box>, gs: seq<Geo>, cs: seq<nat>)
    requires Styled(nodes) && |gs| == |bs| && forall k :: 0 <= k < |cs| ==> LeafReady(nodes, bs, cs[k])
    ensures var r := PlaceAll(nodes, m, bs, gs, cs);
      forall j :: 0 <= j < |gs| && j !in cs ==> r[j] == gs[j]
  {
    if cs != [] {
      var front := cs[..|cs| - 1];
      assert forall k :: 0 <= k < |front| ==> front[k] == cs[k];
      PlaceAllFrame(nodes, m, bs, gs, front);
      assert forall j :: 0 <= j < |gs| && j !in cs ==> j !in front && j != cs[|cs| - 1];
    }
  }

  /** Laying out the children of a line one after the other lays out every
      one of them (a later word does not move an earlier one), and nothing
      else changes. */
  lemma {:induction false} PlaceAllPlaced(nodes: seq<Node>, m: FontMetrics, bs: seq<Box>, gs: seq<Geo>,
                                          l: nat, cs: seq<nat>)
    requires Styled(nodes) && |gs| == |bs| && l < |bs| && Chained(bs, l, cs)
    requires forall k :: 0 <= k < |cs| ==> LeafReady(nodes, bs, cs[k])
    ensures var r := PlaceAll(nodes, m, bs, gs, cs);
      forall k :: 0 <= k < |cs| ==> LeafPlaced(nodes, m, bs, r, cs[k])
  {
    if cs != [] {
      var front := cs[..|cs| - 1];
      assert forall k :: 0 <= k < |front| ==> front[k] == cs[k];
      PlaceAllPlaced(nodes, m, bs, gs, l, front);
      PlaceNextKeepsPlaced(nodes, m, bs, PlaceAll(nodes, m, bs, gs, front), l, cs);
    }
  }

  /** Laying out the next child of a line keeps the children before it
      laid out. */
  lemma PlaceNextKeepsPlaced(nodes: seq<Node>, m: FontMetrics, bs: seq<Box>, r: seq<Geo>, l: nat, cs: seq<nat>)
    requires Styled(nodes) && |r| == |bs| && l < |bs| && Chained(bs, l, cs) && cs != []
    requires LeafReady(nodes, bs, cs[|cs| - 1])
    requires forall k :: 0 <= k < |cs| - 1 ==> LeafPlaced(nodes, m, bs, r, cs[k])
    ensures var c := cs[|cs| - 1]; var r2 := r[c := PlaceLeaf(nodes, m, bs, r, c)];
      forall k :: 0 <= k < |cs| ==> LeafPlaced(nodes, m, bs, r2, cs[k])
  {
    var c := cs[|cs| - 1];
    var r2 := r[c := PlaceLeaf(nodes, m, bs, r, c)];
    forall k | 0 <= k < |cs| - 1 ensures LeafPlaced(nodes, m, bs, r2, cs[k]) {
      assert bs[cs[k]].parent == l && cs[k] < c;
      assert k > 0 ==> bs[cs[k]].previous == cs[k - 1] && cs[k - 1] < c;
      assert k == 0 ==> bs[cs[k]].previous == -1;
      PlacedFrame(nodes, m, bs, r, r2, cs[k]);
    }
  }

  /** The geometry after `for word in cs: word.y = baseline - ascent`: each
      of `cs` hangs from the baseline, and nothing but their tops changes. */
  function SetYs(m: FontMetrics, gs: seq<Geo>, cs: seq<nat>, baseline: real): (r: seq<Geo>)
    ensures |r| == |gs|
    ensures forall j :: 0 <= j < |gs| ==> NoY(r[j]) == NoY(gs[j])
    ensures forall j :: 0 <= j < |gs| && j !in cs ==> r[j] == gs[j]
    ensures forall k :: 0 <= k < |cs| && cs[k] < |gs| ==> r[cs[k]].y == baseline - m.ascent(r[cs[k]].font)
  {
    seq(|gs|, j requires 0 <= j < |gs| => if j in cs then gs[j].(y := baseline - m.ascent(gs[j].font)) else gs[j])
  }

  /** Hanging one more box from the baseline. */
  lemma SetYsStep(m: FontMetrics, gs: seq<Geo>, cs: seq<nat>, c: nat, baseline: real)
    requires c < |gs|
    ensures var r := SetYs(m, gs, cs, baseline);
      SetYs(m, gs, cs + [c], baseline) == r[c := r[c].(y := baseline - m.ascent(r[c].font))]
  {
    var r := SetYs(m, gs, cs, baseline);
    var a := SetYs(m, gs, cs + [c], baseline);
    var b := r[c := r[c].(y := baseline - m.ascent(r[c].font))];
    forall j | 0 <= j < |gs| ensures a[j] == b[j] {
      assert (j in cs + [c]) == (j in cs || j == c);
    }
  }

  /** The first loop of `LineLayout.layout`. */
  method LayoutChildren(t: Tree, l: nat)
    requires t.Valid() && LineReady(t.nodes, t.boxes, l)
    modifies t
    ensures t.Valid() && t.boxes == old(t.boxes)
    ensures t.geo == PlaceAll(t.nodes, t.m, t.boxes, old(t.geo), t.boxes[l].children)
  {
    var cs := t.boxes[l].children;
    var k := 0;
    ghost var done: seq<nat> := [];
    while k < |cs|
      invariant 0 <= k <= |cs| && t.Valid() && t.boxes == old(t.boxes) && done == cs[..k]
      invariant t.geo == PlaceAll(t.nodes, t.m, t.boxes, old(t.geo), done)
    {
      var c := cs[k];
      assert (done + [c])[..k] == done;
      LayoutLeaf(t, c);
      done := done + [c];
      k := k + 1;
    }
    assert done == cs;
  }

  /** `word.layout()` for a text or an input child of a line. */
  method LayoutLeaf(t: Tree, c: nat)
    requires t.Valid() && LeafReady(t.nodes, t.boxes, c)
    modifies t
    ensures t.Valid() && t.boxes == old(t.boxes)
    ensures t.geo == old(t.geo)[c := PlaceLeaf(t.nodes, t.m, t.boxes, old(t.geo), c)]
  {
    if t.boxes[c].kind.TextBox? {
      TextLayout.Layout(t, c);
    } else {
      InputLayout.Layout(t, c);
    }
  }

  /** The second loop of `LineLayout.layout`. */
  method SetBaseline(t: Tree, l: nat, baseline: real)
    requires t.Valid() && LineReady(t.nodes, t.boxes, l)
    modifies t
    ensures t.Valid() && t.boxes == old(t.boxes)
    ensures t.geo == SetYs(t.m, old(t.geo), t.boxes[l].children, baseline)
  {
    var cs := t.boxes[l].children;
    var k := 0;
    while k < |cs|
      invariant 0 <= k <= |cs| && t.Valid() && t.boxes == old(t.boxes)
      invariant t.geo == SetYs(t.m, old(t.geo), cs[..k], baseline)
    {
      var c := cs[k];
      assert cs[..k + 1] == cs[..k] + [c];
      SetYsStep(t.m, old(t.geo), cs[..k], c, baseline);
      t.geo := t.geo[c := t.geo[c].(y := baseline - t.m.ascent(t.geo[c].font))];
      k := k + 1;
    }
    assert cs[..k] == cs;
  }

  /** What `LineLayout.layout` needs of line `l` and its links. */
  predicate LineLinked(nodes: seq<Node>, bs: seq<Box>, gs: seq<Geo>, l: nat) {
    && LineReady(nodes, bs, l) && |gs| == |bs| && Linked(bs, l) && bs[l].parent >= 0
  }

  /** The line's own place: its block's left edge and width, and the
      bottom of the previous line or else the block's top. */
  function LineStart(bs: seq<Box>, gs: seq<Geo>, l: nat): (g: Geo)
    requires Linked(bs, l) && |gs| == |bs| && bs[l].parent >= 0
  {
    var b := bs[l];
    var p := gs[b.parent];
    gs[l].(width := p.width, x := p.x,
           y := if b.previous >= 0 then gs[b.previous].y + gs[b.previous].height else p.y)
  }

  /** The second half of `LineLayout.layout`, once the words of line `l`
      (boxes `cs`) are laid out: with no words the line has no height;
      otherwise the words hang from a baseline 1.25 times their largest
      ascent below `top`, and the line is 1.25 times their largest ascent
      plus their largest descent high. */
  function LineRest(m: FontMetrics, gs: seq<Geo>, l: nat, cs: seq<nat>, top: real): (r: seq<Geo>)
    requires l < |gs| && forall k :: 0 <= k < |cs| ==> l < cs[k] < |gs|
    ensures |r| == |gs|
  {
    if cs == [] then gs[l := gs[l].(height := 0.0)]
    else
      var ascent := Maximum(Ascents(m, gs, cs));
      var g := SetYs(m, gs, cs, top + 1.25 * ascent);
      g[l := g[l].(height := 1.25 * (ascent + Maximum(Descents(m, g, cs))))]
  }

  /** The second half moves the words only vertically, keeps the line's
      place and width, and touches nothing else. */
  lemma RestFrame(m: FontMetrics, gs: seq<Geo>, l: nat, cs: seq<nat>, top: real)
    requires l < |gs| && forall k :: 0 <= k < |cs| ==> l < cs[k] < |gs|
    ensures var r := LineRest(m, gs, l, cs, top);
      && (forall j :: 0 <= j < |gs| && j != l ==> NoY(r[j]) == NoY(gs[j]))
      && (forall j :: 0 <= j < |gs| && j != l && j !in cs ==> r[j] == gs[j])
      && Anchor(r[l]) == Anchor(gs[l]) && r[l].y == gs[l].y
  {
    assert l !in cs;
  }

  /** The heights and tops the second half gives, in terms of its result. */
  lemma RestHeight(m: FontMetrics, gs: seq<Geo>, l: nat, cs: seq<nat>, top: real)
    requires l < |gs| && forall k :: 0 <= k < |cs| ==> l < cs[k] < |gs|
    ensures var r := LineRest(m, gs, l, cs, top);
      && (cs == [] ==> r[l].height == 0.0)
      && (cs != [] ==>
            var ascent := Maximum(Ascents(m, r, cs));
            && (forall k :: 0 <= k < |cs| ==> r[cs[k]].y == top + 1.25 * ascent - m.ascent(r[cs[k]].font))
            && r[l].height == 1.25 * (ascent + Maximum(Descents(m, r, cs))))
  {
    if cs != [] {
      assert l !in cs;
      var ascent := Maximum(Ascents(m, gs, cs));
      var g := SetYs(m, gs, cs, top + 1.25 * ascent);
      var r := LineRest(m, gs, l, cs, top);
      assert r == g[l := g[l].(height := 1.25 * (ascent + Maximum(Descents(m, g, cs))))];
      forall k | 0 <= k < |cs|
        ensures r[cs[k]] == g[cs[k]] && g[cs[k]].font == gs[cs[k]].font
      {
        assert NoY(g[cs[k]]) == NoY(gs[cs[k]]);
      }
      SameFonts(m, gs, g, cs);
      SameFonts(m, g, r, cs);
      assert Maximum(Ascents(m, r, cs)) == ascent;
    }
  }

  /** The geometry after `LineLayout.layout` of line `l`. */
  function LineF(nodes: seq<Node>, m: FontMetrics, bs: seq<Box>, gs: seq<Geo>, l: nat): (r: seq<Geo>)
    requires LineLinked(nodes, bs, gs, l)
    ensures |r| == |gs|
  {
    var g1 := gs[l := LineStart(bs, gs, l)];
    LineRest(m, PlaceAll(nodes, m, bs, g1, bs[l].children), l, bs[l].children, g1[l].y)
  }

  /** Only the line and its children change, and the line takes its place
      beside its block and below the previous line. */
  lemma LineFrame(nodes: seq<Node>, m: FontMetrics, bs: seq<Box>, gs: seq<Geo>, l: nat)
    requires LineLinked(nodes, bs, gs, l)
    ensures var r := LineF(nodes, m, bs, gs, l);
      && (forall j :: 0 <= j < |gs| && j != l && j !in bs[l].children ==> r[j] == gs[j])
      && var b := bs[l]; var p := r[b.parent];
         && r[l].x == p.x && r[l].width == p.width
         && r[l].y == if b.previous >= 0 then r[b.previous].y + r[b.previous].height else p.y
  {
    var cs := bs[l].children;
    var g1 := gs[l := LineStart(bs, gs, l)];
    var g2 := PlaceAll(nodes, m, bs, g1, cs);
    PlaceAllFrame(nodes, m, bs, g1, cs);
    RestFrame(m, g2, l, cs, g1[l].y);
    assert bs[l].parent !in cs && bs[l].parent != l;
    assert bs[l].previous >= 0 ==> bs[l].previous !in cs && bs[l].previous != l;
  }

  /** The second half keeps the words laid out. */
  lemma RestKeepsPlaced(nodes: seq<Node>, m: FontMetrics, bs: seq<Box>, gs: seq<Geo>, l: nat, top: real)
    requires |gs| == |bs| && l < |bs| && Chained(bs, l, bs[l].children)
    requires forall k :: 0 <= k < |bs[l].children| ==> LeafPlaced(nodes, m, bs, gs, bs[l].children[k])
    ensures var cs := bs[l].children; var r := LineRest(m, gs, l, cs, top);
      forall k :: 0 <= k < |cs| ==> LeafPlaced(nodes, m, bs, r, cs[k])
  {
    var cs := bs[l].children;
    var r := LineRest(m, gs, l, cs, top);
    RestFrame(m, gs, l, cs, top);
    forall k | 0 <= k < |cs| ensures LeafPlaced(nodes, m, bs, r, cs[k]) {
      assert bs[cs[k]].parent == l;
      assert k == 0 ==> bs[cs[k]].previous == -1;
      assert k > 0 ==> bs[cs[k]].previous == cs[k - 1] && cs[k - 1] != l;
      PlacedFrame(nodes, m, bs, gs, r, cs[k]);
    }
  }

  /** Every word of the line is laid out. */
  lemma LineWordsPlaced(nodes: seq<Node>, m: FontMetrics, bs: seq<Box>, gs: seq<Geo>, l: nat)
    requires LineLinked(nodes, bs, gs, l)
    ensures var r := LineF(nodes, m, bs, gs, l); var cs := bs[l].children;
      forall k :: 0 <= k < |cs| ==> LeafPlaced(nodes, m, bs, r, cs[k])
  {
    var g1 := gs[l := LineStart(bs, gs, l)];
    PlaceAllPlaced(nodes, m, bs, g1, l, bs[l].children);
    RestKeepsPlaced(nodes, m, bs, PlaceAll(nodes, m, bs, g1, bs[l].children), l, g1[l].y);
  }

  /** Fonts decide the ascents and the descents. */
  lemma SameFonts(m: FontMetrics, a: seq<Geo>, b: seq<Geo>, cs: seq<nat>)
    requires forall k :: 0 <= k < |cs| ==> cs[k] < |a| && cs[k] < |b| && a[cs[k]].font == b[cs[k]].font
    ensures Ascents(m, a, cs) == Ascents(m, b, cs) && Descents(m, a, cs) == Descents(m, b, cs)
  {
  }

  /** A line without words has no height; otherwise its words hang from a
      baseline 1.25 times the largest ascent below the line's top, and the
      line is 1.25 times the largest ascent plus the largest descent high. */
  lemma LineHeight(nodes: seq<Node>, m: FontMetrics, bs: seq<Box>, gs: seq<Geo>, l: nat)
    requires LineLinked(nodes, bs, gs, l)
    ensures var r := LineF(nodes, m, bs, gs, l); var cs := bs[l].children;
      && (cs == [] ==> r[l].height == 0.0)
      && (cs != [] ==>
            var ascent := Maximum(Ascents(m, r, cs));
            && (forall k :: 0 <= k < |cs| ==> r[cs[k]].y == r[l].y + 1.25 * ascent - m.ascent(r[cs[k]].font))
            && r[l].height == 1.25 * (ascent + Maximum(Descents(m, r, cs))))
  {
    var cs := bs[l].children;
    var g1 := gs[l := LineStart(bs, gs, l)];
    var g2 := PlaceAll(nodes, m, bs, g1, cs);
    PlaceAllFrame(nodes, m, bs, g1, cs);
    RestFrame(m, g2, l, cs, g1[l].y);
    RestHeight(m, g2, l, cs, g1[l].y);
  }

  /** The second half of `LineLayout.layout` for a line with words: the
      baseline, the words' tops and the line's height. */
  method HangWords(t: Tree, l: nat, top: real)
    requires t.Valid() && LineReady(t.nodes, t.boxes, l) && t.boxes[l].children != []
    modifies t
    ensures t.Valid() && t.boxes == old(t.boxes)
    ensures t.geo == LineRest(t.m, old(t.geo), l, t.boxes[l].children, top)
  {
    var cs := t.boxes[l].children;
    var ascent := Maximum(Ascents(t.m, t.geo, cs));
    SetBaseline(t, l, top + 1.25 * ascent);
    ghost var g := t.geo;
    var descent := Maximum(Descents(t.m, t.geo, cs));
    SetHeight(t, l, 1.25 * (ascent + descent));
    assert t.geo == g[l := g[l].(height := 1.25 * (ascent + descent))];
  }

  /** `self.height = ...` for line `l`. */
  method SetHeight(t: Tree, l: nat, height: real)
    requires t.Valid() && l < |t.geo|
    modifies t
    ensures t.Valid() && t.boxes == old(t.boxes)
    ensures t.geo == old(t.geo)[l := old(t.geo[l]).(height := height)]
  {
    t.geo := t.geo[l := t.geo[l].(height := height)];
  }

  /** `LineLayout.layout`. */
  method Layout(t: Tree, l: nat)
    requires t.Valid() && Linked(t.boxes, l) && t.boxes[l].kind.LineBox? && t.boxes[l].parent >= 0
    modifies t
    ensures t.Valid() && t.boxes == old(t.boxes) && LineLinked(t.nodes, t.boxes, old(t.geo), l)
    ensures t.geo == LineF(t.nodes, t.m, t.boxes, old(t.geo), l)
  {
    LineReadyOk(t.nodes, t.boxes, l);
    var b := t.boxes[l];
    var p := t.geo[b.parent];
    var y := if b.previous >= 0 then t.geo[b.previous].y + t.geo[b.previous].height else p.y;
    t.geo := t.geo[l := t.geo[l].(width := p.width, x := p.x, y := y)];
    LayoutChildren(t, l);
    if b.children == [] {
      t.geo := t.geo[l := t.geo[l].(height := 0.0)];
      return;
    }
    HangWords(t, l, y);
  }

  /** `LineLayout.paint`: nothing of its own. */
  function Paint(b: Box): (r: seq<Cmd>)
    ensures r == []
  {
    []
  }
}
