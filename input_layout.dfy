/** `input_layout.py`: an `<input>` or `<button>` on a line. */
module InputLayout {
  import opened Base
  import Strings
  import opened Draw
  import opened Dom
  import opened LayoutTree
  import TextLayout

  /** Box `j` is an input laid out by `InputLayout.layout`: the node's font
      (font style as given), `INPUT_WIDTH_PX` wide, one line high, and one
      space after the previous box on the line. */
  predicate InputPlaced(nodes: seq<Node>, m: FontMetrics, bs: seq<Box>, gs: seq<Geo>, j: nat) {
    && Linked(bs, j) && |gs| == |bs| && bs[j].parent >= 0
    && bs[j].kind.InputBox? && bs[j].node < |nodes|
    && var style := nodes[bs[j].node].style;
       && "font-size" in style && "font-weight" in style && "font-style" in style
       && gs[j].font == FontOf(m, style, style["font-style"])
       && gs[j].width == INPUT_WIDTH_PX
       && gs[j].height == m.linespace(gs[j].font)
       && gs[j].x == TextLayout.StartX(m, bs, gs, j)
  }

  /** The geometry `InputLayout.layout` gives box `w`. */
  function Place(nodes: seq<Node>, m: FontMetrics, bs: seq<Box>, gs: seq<Geo>, w: nat): (g: Geo)
    requires Linked(bs, w) && |gs| == |bs| && bs[w].kind.InputBox? && bs[w].parent >= 0
    requires bs[w].node < |nodes| && Styled(nodes)
    ensures g.y == gs[w].y && g.cursorX == gs[w].cursorX
    ensures InputPlaced(nodes, m, bs, gs[w := g], w)
  {
    var style := nodes[bs[w].node].style;
    var font := FontOf(m, style, style["font-style"]);
    gs[w].(font := font, width := INPUT_WIDTH_PX, height := m.linespace(font), x := TextLayout.StartX(m, bs, gs, w))
  }

  /** `InputLayout.layout`: only box `w`'s geometry changes. */
  method Layout(t: Tree, w: nat)
    requires t.Valid() && Linked(t.boxes, w) && t.boxes[w].kind.InputBox? && t.boxes[w].parent >= 0
    requires t.boxes[w].node < |t.nodes|
    modifies t
    ensures t.Valid() && t.boxes == old(t.boxes)
    ensures t.geo == old(t.geo)[w := Place(t.nodes, t.m, t.boxes, old(t.geo), w)]
  {
    var b := t.boxes[w];
    var style := t.nodes[b.node].style;
    var font := FontOf(t.m, style, style["font-style"]);
    var x := 0.0;
    if b.previous >= 0 {
      var p := t.geo[b.previous];
      x := p.x + t.m.measure(p.font, " ") + p.width;
    } else {
      x := t.geo[b.parent].x;
    }
    t.geo := t.geo[w := t.geo[w].(font := font, width := INPUT_WIDTH_PX, height := t.m.linespace(font), x := x)];
  }

  /** `InputLayout.should_paint`: always. */
  predicate ShouldPaint(b: Box)
    ensures ShouldPaint(b)
  {
    true
  }

  /** The text an input shows: an `<input>` its `value` attribute (empty
      when missing), a `<button>` the text of its only child when that is a
      text node, and nothing otherwise. */
  function ShownText(nodes: seq<Node>, n: nat): (s: string)
    requires n < |nodes| && nodes[n].kind.ElementNode?
    requires nodes[n].kind.tag == "input" || nodes[n].kind.tag == "button"
    ensures nodes[n].kind.tag == "input" ==> s == Get(nodes[n].kind.attributes, "value", "")
    ensures (nodes[n].kind.tag == "button" && |nodes[n].children| == 1 && nodes[n].children[0] < |nodes|
             && nodes[nodes[n].children[0]].kind.TextNode?) ==> s == nodes[nodes[n].children[0]].kind.text
    ensures (nodes[n].kind.tag == "button" && !(|nodes[n].children| == 1 && nodes[n].children[0] < |nodes|
             && nodes[nodes[n].children[0]].kind.TextNode?)) ==> s == ""
  {
    var node := nodes[n];
    if node.kind.tag == "input" then Get(node.kind.attributes, "value", "")
    else if |node.children| == 1 && node.children[0] < |nodes| && nodes[node.children[0]].kind.TextNode? then
      nodes[node.children[0]].kind.text
    else ""
  }

  /** `InputLayout.paint`: a rounded background when the background color
      is not transparent (its radius is `toFloat` of the `border-radius`
      without its unit), then the shown text at the box's corner, then a
      cursor line after the text when the node has focus; None where the
      `float(...)` of the radius raises. */
  function Paint(nodes: seq<Node>, m: FontMetrics, toFloat: string -> Option<real>, b: Box, g: Geo): (r: Option<seq<Cmd>>)
    requires b.node < |nodes| && nodes[b.node].kind.ElementNode? && "color" in nodes[b.node].style
    requires nodes[b.node].kind.tag == "input" || nodes[b.node].kind.tag == "button"
    ensures var node := nodes[b.node];
      var bg := Get(node.style, "background-color", "transparent");
      var radius := toFloat(Strings.DropLast(Get(node.style, "border-radius", "0px"), 2));
      r.None? <==> bg != "transparent" && radius.None?
    ensures r.Some? ==>
      var cmds := r.value;
      var node := nodes[b.node];
      var bg := Get(node.style, "background-color", "transparent");
      var start := if bg != "transparent" then 1 else 0;
      && |cmds| == start + 1 + (if node.isFocused then 1 else 0)
      && (bg != "transparent" ==>
            var radius := toFloat(Strings.DropLast(Get(node.style, "border-radius", "0px"), 2));
            cmds[0] == DrawRRect(SelfRect(g), radius.value, bg))
      && cmds[start].DrawText? && cmds[start].text == ShownText(nodes, b.node) && cmds[start].font == g.font
      && cmds[start].rect.left == g.x && cmds[start].rect.top == g.y && cmds[start].color == node.style["color"]
      && (node.isFocused ==>
            var cx := g.x + m.measure(g.font, ShownText(nodes, b.node));
            cmds[start + 1] == MakeDrawLine(cx, g.y, cx, g.y + g.height, "black", 1))
  {
    var node := nodes[b.node];
    var bg := Get(node.style, "background-color", "transparent");
    var radius := toFloat(Strings.DropLast(Get(node.style, "border-radius", "0px"), 2));
    if bg != "transparent" && radius.None? then None
    else
      var back := if bg != "transparent" then [DrawRRect(SelfRect(g), radius.value, bg)] else [];
      var text := ShownText(nodes, b.node);
      var withText := back + [MakeDrawText(m, g.x, g.y, text, g.font, node.style["color"])];
      if node.isFocused then
        var cx := g.x + m.measure(g.font, text);
        Some(withText + [MakeDrawLine(cx, g.y, cx, g.y + g.height, "black", 1)])
      else Some(withText)
  }
}
