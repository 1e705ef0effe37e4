/** `text_layout.py`: a word on a line. */
module TextLayout {
  import opened Base
  import opened Draw
  import opened Dom
  import opened LayoutTree

  /** The font of a word: the node's size and weight, and its font style
      with `normal` spelled `roman`, as tkinter expects. */
  function TextFont(m: FontMetrics, style: map<string, string>): (f: Font)
    requires "font-size" in style && "font-weight" in style && "font-style" in style
    ensures f.weight == style["font-weight"] && f.size == m.pointSize(style["font-size"])
    ensures f.style == if style["font-style"] == "normal" then "roman" else style["font-style"]
  {
    var slant := style["font-style"];
    FontOf(m, style, if slant == "normal" then "roman" else slant)
  }

  /** The left edge of a word or an input: one space (in the previous box's
      font) after the end of the previous box, or its line's left edge for
      the first box of a line. */
  function StartX(m: FontMetrics, bs: seq<Box>, gs: seq<Geo>, j: nat): real
    requires Linked(bs, j) && |gs| == |bs| && bs[j].parent >= 0
  {
    var b := bs[j];
    if b.previous >= 0 then gs[b.previous].x + m.measure(gs[b.previous].font, " ") + gs[b.previous].width
    else gs[b.parent].x
  }

  /** Box `j` is a word laid out by `TextLayout.layout`: it has the word's
      font, is as wide as the measured word and one line high, and starts
      one space after the previous word. */
  predicate TextPlaced(nodes: seq<Node>, m: FontMetrics, bs: seq<Box>, gs: seq<Geo>, j: nat) {
    && Linked(bs, j) && |gs| == |bs| && bs[j].parent >= 0
    && bs[j].kind.TextBox? && bs[j].node < |nodes|
    && var style := nodes[bs[j].node].style;
       && "font-size" in style && "font-weight" in style && "font-style" in style
       && gs[j].font == TextFont(m, style)
       && gs[j].width == m.measure(gs[j].font, bs[j].kind.word)
       && gs[j].height == m.linespace(gs[j].font)
       && gs[j].x == StartX(m, bs, gs, j)
  }

  /** The geometry `TextLayout.layout` gives box `w`; its top and cursor
      are left as they were. */
  function Place(nodes: seq<Node>, m: FontMetrics, bs: seq<Box>, gs: seq<Geo>, w: nat): (g: Geo)
    requires Linked(bs, w) && |gs| == |bs| && bs[w].kind.TextBox? && bs[w].parent >= 0
    requires bs[w].node < |nodes| && Styled(nodes)
    ensures g.y == gs[w].y && g.cursorX == gs[w].cursorX
    ensures TextPlaced(nodes, m, bs, gs[w := g], w)
  {
    var font := TextFont(m, nodes[bs[w].node].style);
    gs[w].(font := font, width := m.measure(font, bs[w].kind.word), x := StartX(m, bs, gs, w),
           height := m.linespace(font))
  }

  /** `TextLayout.layout`: only box `w`'s geometry changes. */
  method Layout(t: Tree, w: nat)
    requires t.Valid() && Linked(t.boxes, w) && t.boxes[w].kind.TextBox? && t.boxes[w].parent >= 0
    requires t.boxes[w].node < |t.nodes|
    modifies t
    ensures t.Valid() && t.boxes == old(t.boxes)
    ensures t.geo == old(t.geo)[w := Place(t.nodes, t.m, t.boxes, old(t.geo), w)]
  {
    var b := t.boxes[w];
    var style := t.nodes[b.node].style;
    var font := TextFont(t.m, style);
    var x := 0.0;
    if b.previous >= 0 {
      var p := t.geo[b.previous];
      x := p.x + t.m.measure(p.font, " ") + p.width;
    } else {
      x := t.geo[b.parent].x;
    }
    t.geo := t.geo[w := t.geo[w].(font := font, width := t.m.measure(font, b.kind.word), x := x,
                                  height := t.m.linespace(font))];
  }

  /** `TextLayout.paint`: one `DrawText` of the word at the box's corner in
      the node's color, in the font chosen by `layout`. */
  function Paint(nodes: seq<Node>, m: FontMetrics, b: Box, g: Geo): (r: seq<Cmd>)
    requires b.kind.TextBox? && b.node < |nodes| && "color" in nodes[b.node].style
    ensures |r| == 1 && r[0].DrawText? && r[0].text == b.kind.word && r[0].font == g.font
    ensures r[0].rect.left == g.x && r[0].rect.top == g.y && r[0].color == nodes[b.node].style["color"]
  {
    [MakeDrawText(m, g.x, g.y, b.kind.word, g.font, nodes[b.node].style["color"])]
  }
}
