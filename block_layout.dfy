/** `block_layout.py`: a block of the page, which either stacks a block per
    child node or breaks its text and inputs into lines. */
module BlockLayout {
  import opened Base
  import Strings
  import opened Draw
  import opened Dom
  import opened Helpers
  import opened LayoutTree
  import LineLayout
  import InputLayout

  /** The tags laid out as blocks of their own. */
  const BLOCK_ELEMENTS: seq<string> := [
    "html", "body", "article", "section", "nav", "aside",
    "h1", "h2", "h3", "h4", "h5", "h6", "hgroup", "header",
    "footer", "address", "p", "hr", "pre", "blockquote",
    "ol", "ul", "menu", "li", "dl", "dt", "dd", "figure",
    "figcaption", "main", "div", "table", "form", "fieldset",
    "legend", "details", "summary"]

  /** The two results of `layout_mode`. */
  datatype Mode = Inline | Block

  /** A child node that is an element with a block-level tag. */
  predicate IsBlockElement(node: Node) {
    node.kind.ElementNode? && node.kind.tag in BLOCK_ELEMENTS
  }

  /** `layout_mode`. */
  function LayoutMode(nodes: seq<Node>, n: nat): Mode
    requires n < |nodes|
  {
    var node := nodes[n];
    if node.kind.TextNode? then Inline
    else if exists k :: 0 <= k < |node.children| && node.children[k] < |nodes| && IsBlockElement(nodes[node.children[k]])
    then Block
    else if node.children != [] || node.kind.tag == "input" then Inline
    else Block
  }

  /** Text is inline; a node with a block-level child is a block; of the
      remaining elements, those with children and inputs are inline and
      the others are blocks. */
  lemma LayoutModeCases(nodes: seq<Node>, n: nat)
    requires n < |nodes|
    ensures nodes[n].kind.TextNode? ==> LayoutMode(nodes, n) == Inline
    ensures forall k :: 0 <= k < |nodes[n].children| && nodes[n].children[k] < |nodes| &&
                        nodes[n].kind.ElementNode? && IsBlockElement(nodes[nodes[n].children[k]])
                        ==> LayoutMode(nodes, n) == Block
    ensures nodes[n].kind.ElementNode? && nodes[n].children == [] ==>
              (LayoutMode(nodes, n) == Inline <==> nodes[n].kind.tag == "input")
    ensures nodes[n].kind.ElementNode? && nodes[n].children != [] &&
            (forall k :: 0 <= k < |nodes[n].children| && nodes[n].children[k] < |nodes| ==>
                           !IsBlockElement(nodes[nodes[n].children[k]]))
            ==> LayoutMode(nodes, n) == Inline
  {
  }

  /** The children of a node come after it in the arena. */
  lemma ChildrenAfter(nodes: seq<Node>, n: nat)
    requires WellFormed(nodes) && n < |nodes|
    ensures forall k :: 0 <= k < |nodes[n].children| ==> n < nodes[n].children[k] < |nodes|
  {
    assert Kids(nodes)[n] == nodes[n].children;
  }

  /** The layout objects and their geometry, as the pure functions below
      thread them through `new_line`, `word`, `input` and `recurse`. */
  datatype St = St(bs: seq<Box>, gs: seq<Geo>)

  /** Box `b` is a block whose children are all lines. */
  predicate Lines(st: St, b: nat) {
    && |st.gs| == |st.bs| && b < |st.bs| && st.bs[b].kind.BlockBox?
    && forall k :: 0 <= k < |st.bs[b].children| ==>
         st.bs[b].children[k] < |st.bs| && st.bs[st.bs[b].children[k]].kind.LineBox?
  }

  /** ... and it has a current line, its last child, to put words on. */
  predicate Building(st: St, b: nat) {
    Lines(st, b) && st.bs[b].children != []
  }

  /** The current line `self.children[-1]`. */
  function CurrentLine(st: St, b: nat): (l: nat)
    requires Building(st, b)
    ensures l < |st.bs| && st.bs[l].kind.LineBox?
  {
    st.bs[b].children[|st.bs[b].children| - 1]
  }

  /** `new_line`: the cursor goes back to 0 and a new line is appended to
      the block, with the former last child (or none) as its previous
      sibling; nothing else changes. */
  function NewLineF(st: St, b: nat): (r: St)
    requires Lines(st, b)
    ensures Building(r, b) && |r.bs| == |st.bs| + 1 && CurrentLine(r, b) == |st.bs|
    ensures r.bs[|st.bs|] == NewBox(LineBox, st.bs[b].node, b, LastChild(st.bs, b))
    ensures r.bs[b] == st.bs[b].(children := st.bs[b].children + [|st.bs|])
    ensures r.gs[b] == st.gs[b].(cursorX := 0.0) && r.gs[|st.bs|] == NoGeo
    ensures forall j :: 0 <= j < |st.bs| && j != b ==> r.bs[j] == st.bs[j] && r.gs[j] == st.gs[j]
  {
    var bs := AddChild(st.bs, b, LineBox, st.bs[b].node);
    var r := St(bs, st.gs[b := st.gs[b].(cursorX := 0.0)] + [NoGeo]);
    assert forall k :: 0 <= k < |bs[b].children| - 1 ==> bs[b].children[k] == st.bs[b].children[k];
    r
  }

  /** The font `word` and `input` measure with: the node's size, weight and
      font style, `normal` left as it is. */
  function NodeFont(nodes: seq<Node>, m: FontMetrics, n: nat): Font
    requires n < |nodes| && Styled(nodes)
  {
    var style := nodes[n].style;
    FontOf(m, style, style["font-style"])
  }

  /** A box for node `n` of `kind` at the end of the current line, where the
      cursor then moves on by `w` and one space. */
  function PutOnLine(nodes: seq<Node>, m: FontMetrics, st: St, b: nat, n: nat, kind: BoxKind, w: real): (r: St)
    requires Building(st, b) && n < |nodes| && Styled(nodes)
    ensures Building(r, b) && |r.bs| == |st.bs| + 1 && CurrentLine(r, b) == CurrentLine(st, b)
    ensures var l := CurrentLine(st, b);
      && r.bs[|st.bs|] == NewBox(kind, n, l, LastChild(st.bs, l))
      && r.bs[l] == st.bs[l].(children := st.bs[l].children + [|st.bs|])
      && r.bs[b] == st.bs[b] && r.gs[|st.bs|] == NoGeo
      && r.gs[b] == st.gs[b].(cursorX := st.gs[b].cursorX + w + m.measure(NodeFont(nodes, m, n), " "))
    ensures forall j :: 0 <= j < |st.bs| && j != b && j != CurrentLine(st, b) ==> r.bs[j] == st.bs[j] && r.gs[j] == st.gs[j]
  {
    var l := CurrentLine(st, b);
    var bs := AddChild(st.bs, l, kind, n);
    var g := st.gs[b];
    var r := St(bs, st.gs[b := g.(cursorX := g.cursorX + w + m.measure(NodeFont(nodes, m, n), " "))] + [NoGeo]);
    assert forall k :: 0 <= k < |r.bs[b].children| ==> r.bs[b].children[k] == st.bs[b].children[k];
    r
  }

  /** `word`: the word's width is measured in the node's font; when the
      cursor plus that width passes the block's width a new line is started
      first; then a text box for the word goes on the current line and the
      cursor moves past the word and a space. */
  function WordF(nodes: seq<Node>, m: FontMetrics, st: St, b: nat, n: nat, word: string): (r: St)
    requires Building(st, b) && n < |nodes| && Styled(nodes)
    ensures Building(r, b)
    ensures var w := m.measure(NodeFont(nodes, m, n), word);
      var breaks := st.gs[b].cursorX + w > st.gs[b].width;
      && |r.bs| == |st.bs| + (if breaks then 2 else 1)
      && CurrentLine(r, b) == (if breaks then |st.bs| else CurrentLine(st, b))
      && r.bs[|r.bs| - 1].kind == TextBox(word) && r.bs[|r.bs| - 1].node == n
      && r.bs[|r.bs| - 1].parent == CurrentLine(r, b)
      && r.gs[b].cursorX == (if breaks then 0.0 else st.gs[b].cursorX) + w + m.measure(NodeFont(nodes, m, n), " ")
  {
    var w := m.measure(NodeFont(nodes, m, n), word);
    var st1 := if st.gs[b].cursorX + w > st.gs[b].width then NewLineF(st, b) else st;
    PutOnLine(nodes, m, st1, b, n, TextBox(word), w)
  }

  /** `input`: like a word `INPUT_WIDTH_PX` wide, with an input box. */
  function InputF(nodes: seq<Node>, m: FontMetrics, st: St, b: nat, n: nat): (r: St)
    requires Building(st, b) && n < |nodes| && Styled(nodes)
    ensures Building(r, b)
    ensures var breaks := st.gs[b].cursorX + INPUT_WIDTH_PX > st.gs[b].width;
      && |r.bs| == |st.bs| + (if breaks then 2 else 1)
      && CurrentLine(r, b) == (if breaks then |st.bs| else CurrentLine(st, b))
      && r.bs[|r.bs| - 1].kind == InputBox && r.bs[|r.bs| - 1].node == n
      && r.bs[|r.bs| - 1].parent == CurrentLine(r, b)
      && r.gs[b].cursorX ==
           (if breaks then 0.0 else st.gs[b].cursorX) + INPUT_WIDTH_PX + m.measure(NodeFont(nodes, m, n), " ")
  {
    var st1 := if st.gs[b].cursorX + INPUT_WIDTH_PX > st.gs[b].width then NewLineF(st, b) else st;
    PutOnLine(nodes, m, st1, b, n, InputBox, INPUT_WIDTH_PX)
  }

  /** `for word in words: self.word(node, word)`. */
  function WordsF(nodes: seq<Node>, m: FontMetrics, st: St, b: nat, n: nat, words: seq<string>): (r: St)
    requires Building(st, b) && n < |nodes| && Styled(nodes)
    ensures Building(r, b)
  {
    if words == [] then st
    else WordF(nodes, m, WordsF(nodes, m, st, b, n, words[..|words| - 1]), b, n, words[|words| - 1])
  }

  /** `recurse(node)`: the words of a text node, a new line for `<br>`, an
      input box for `<input>` and `<button>`, and the children of any other
      element in order. */
  function RecurseF(nodes: seq<Node>, m: FontMetrics, st: St, b: nat, n: nat): (r: St)
    requires WellFormed(nodes) && Styled(nodes) && Building(st, b) && n < |nodes|
    ensures Building(r, b)
    decreases |nodes| - n, 1, 0
  {
    match nodes[n].kind
    case TextNode(text) => WordsF(nodes, m, st, b, n, Strings.SplitWords(text))
    case ElementNode(tag, _) =>
      if tag == "br" then NewLineF(st, b)
      else if tag == "input" || tag == "button" then InputF(nodes, m, st, b, n)
      else
        ChildrenAfter(nodes, n);
        KidsF(nodes, m, st, b, n, nodes[n].children)
  }

  /** `for child in cs: self.recurse(child)`, `cs` children of node `n`. */
  function KidsF(nodes: seq<Node>, m: FontMetrics, st: St, b: nat, n: nat, cs: seq<nat>): (r: St)
    requires WellFormed(nodes) && Styled(nodes) && Building(st, b) && n < |nodes|
    requires forall k :: 0 <= k < |cs| ==> n < cs[k] < |nodes|
    ensures Building(r, b)
    decreases |nodes| - n, 0, |cs|
  {
    if cs == [] then st
    else RecurseF(nodes, m, KidsF(nodes, m, st, b, n, cs[..|cs| - 1]), b, cs[|cs| - 1])
  }

  /** Every line of block `b` is a box created after the first `n0`. */
  predicate Fresh(st: St, b: nat, n0: nat)
    requires b < |st.bs|
  {
    forall k :: 0 <= k < |st.bs[b].children| ==> st.bs[b].children[k] >= n0
  }

  /** `r` comes from `a` by building block `b`'s lines: boxes are only added,
      the first `n0` boxes other than `b` are untouched, `b` keeps its links
      and its geometry apart from the cursor, and its lines are all new. */
  predicate Grows(a: St, r: St, b: nat, n0: nat) {
    && |a.gs| == |a.bs| <= |r.bs| == |r.gs| && b < n0 <= |a.bs|
    && (forall j :: 0 <= j < n0 && j != b ==> r.bs[j] == a.bs[j] && r.gs[j] == a.gs[j])
    && r.bs[b] == a.bs[b].(children := r.bs[b].children)
    && r.gs[b] == a.gs[b].(cursorX := r.gs[b].cursorX)
    && Fresh(r, b, n0)
  }

  lemma GrowsTrans(a: St, s: St, r: St, b: nat, n0: nat)
    requires Grows(a, s, b, n0) && Grows(s, r, b, n0)
    ensures Grows(a, r, b, n0)
  {
  }

  lemma NewLineGrows(st: St, b: nat, n0: nat)
    requires Lines(st, b) && b < n0 <= |st.bs| && Fresh(st, b, n0)
    ensures Grows(st, NewLineF(st, b), b, n0)
  {
    var r := NewLineF(st, b);
    assert forall k :: 0 <= k < |r.bs[b].children| - 1 ==> r.bs[b].children[k] == st.bs[b].children[k];
  }

  lemma PutOnLineGrows(nodes: seq<Node>, m: FontMetrics, st: St, b: nat, n: nat, kind: BoxKind, w: real, n0: nat)
    requires Building(st, b) && n < |nodes| && Styled(nodes) && b < n0 <= |st.bs| && Fresh(st, b, n0)
    ensures Grows(st, PutOnLine(nodes, m, st, b, n, kind, w), b, n0)
  {
    assert CurrentLine(st, b) >= n0;
  }

  lemma WordGrows(nodes: seq<Node>, m: FontMetrics, st: St, b: nat, n: nat, word: string, n0: nat)
    requires Building(st, b) && n < |nodes| && Styled(nodes) && b < n0 <= |st.bs| && Fresh(st, b, n0)
    ensures Grows(st, WordF(nodes, m, st, b, n, word), b, n0)
  {
    var w := m.measure(NodeFont(nodes, m, n), word);
    if st.gs[b].cursorX + w > st.gs[b].width {
      NewLineGrows(st, b, n0);
      PutOnLineGrows(nodes, m, NewLineF(st, b), b, n, TextBox(word), w, n0);
      GrowsTrans(st, NewLineF(st, b), WordF(nodes, m, st, b, n, word), b, n0);
    } else {
      PutOnLineGrows(nodes, m, st, b, n, TextBox(word), w, n0);
    }
  }

  lemma InputGrows(nodes: seq<Node>, m: FontMetrics, st: St, b: nat, n: nat, n0: nat)
    requires Building(st, b) && n < |nodes| && Styled(nodes) && b < n0 <= |st.bs| && Fresh(st, b, n0)
    ensures Grows(st, InputF(nodes, m, st, b, n), b, n0)
  {
    if st.gs[b].cursorX + INPUT_WIDTH_PX > st.gs[b].width {
      NewLineGrows(st, b, n0);
      PutOnLineGrows(nodes, m, NewLineF(st, b), b, n, InputBox, INPUT_WIDTH_PX, n0);
      GrowsTrans(st, NewLineF(st, b), InputF(nodes, m, st, b, n), b, n0);
    } else {
      PutOnLineGrows(nodes, m, st, b, n, InputBox, INPUT_WIDTH_PX, n0);
    }
  }

  lemma {:induction false} WordsGrows(nodes: seq<Node>, m: FontMetrics, st: St, b: nat, n: nat, words: seq<string>, n0: nat)
    requires Building(st, b) && n < |nodes| && Styled(nodes) && b < n0 <= |st.bs| && Fresh(st, b, n0)
    ensures Grows(st, WordsF(nodes, m, st, b, n, words), b, n0)
  {
    if words == [] {
    } else {
      var front := WordsF(nodes, m, st, b, n, words[..|words| - 1]);
      WordsGrows(nodes, m, st, b, n, words[..|words| - 1], n0);
      WordGrows(nodes, m, front, b, n, words[|words| - 1], n0);
      GrowsTrans(st, front, WordsF(nodes, m, st, b, n, words), b, n0);
    }
  }

  /** Laying out the inline content of a node only builds lines: whatever
      `recurse` adds, it adds as new boxes under `b`'s new lines. */
  lemma {:induction false} RecurseGrows(nodes: seq<Node>, m: FontMetrics, st: St, b: nat, n: nat, n0: nat)
    requires WellFormed(nodes) && Styled(nodes) && Building(st, b) && n < |nodes|
    requires b < n0 <= |st.bs| && Fresh(st, b, n0)
    ensures Grows(st, RecurseF(nodes, m, st, b, n), b, n0)
    decreases |nodes| - n, 1, 0
  {
    match nodes[n].kind
    case TextNode(text) => WordsGrows(nodes, m, st, b, n, Strings.SplitWords(text), n0);
    case ElementNode(tag, _) =>
      if tag == "br" {
        NewLineGrows(st, b, n0);
      } else if tag == "input" || tag == "button" {
        InputGrows(nodes, m, st, b, n, n0);
      } else {
        ChildrenAfter(nodes, n);
        KidsGrows(nodes, m, st, b, n, nodes[n].children, n0);
      }
  }

  lemma {:induction false} KidsGrows(nodes: seq<Node>, m: FontMetrics, st: St, b: nat, n: nat, cs: seq<nat>, n0: nat)
    requires WellFormed(nodes) && Styled(nodes) && Building(st, b) && n < |nodes|
    requires forall k :: 0 <= k < |cs| ==> n < cs[k] < |nodes|
    requires b < n0 <= |st.bs| && Fresh(st, b, n0)
    ensures Grows(st, KidsF(nodes, m, st, b, n, cs), b, n0)
    decreases |nodes| - n, 0, |cs|
  {
    if cs == [] {
    } else {
      var front := KidsF(nodes, m, st, b, n, cs[..|cs| - 1]);
      KidsGrows(nodes, m, st, b, n, cs[..|cs| - 1], n0);
      RecurseGrows(nodes, m, front, b, cs[|cs| - 1], n0);
      GrowsTrans(st, front, KidsF(nodes, m, st, b, n, cs), b, n0);
    }
  }

  /** The tree's state as the pure functions see it. */
  function StateOf(t: Tree): St
    reads t
  {
    St(t.boxes, t.geo)
  }

  /** `new_line`. */
  method NewLine(t: Tree, b: nat)
    requires t.Valid() && Lines(StateOf(t), b)
    modifies t
    ensures t.Valid() && StateOf(t) == NewLineF(old(StateOf(t)), b)
  {
    assert BoxOk(t.boxes, |t.nodes|, b);
    AddChildOk(t.boxes, |t.nodes|, b, LineBox, t.boxes[b].node);
    t.geo := t.geo[b := t.geo[b].(cursorX := 0.0)];
    t.boxes := AddChild(t.boxes, b, LineBox, t.boxes[b].node);
    t.geo := t.geo + [NoGeo];
  }

  /** The end of `word` and `input`: the new box on line `l`, and the
      cursor moved by `w` and a space in `font`. */
  method PutOnLineM(t: Tree, b: nat, n: nat, kind: BoxKind, w: real, font: Font)
    requires t.Valid() && Building(StateOf(t), b) && n < |t.nodes| && font == NodeFont(t.nodes, t.m, n)
    requires kind.TextBox? || kind == InputBox
    modifies t
    ensures t.Valid() && StateOf(t) == PutOnLine(t.nodes, t.m, old(StateOf(t)), b, n, kind, w)
  {
    var line := t.boxes[b].children[|t.boxes[b].children| - 1];
    AddChildOk(t.boxes, |t.nodes|, line, kind, n);
    t.boxes := AddChild(t.boxes, line, kind, n);
    t.geo := t.geo + [NoGeo];
    t.geo := t.geo[b := t.geo[b].(cursorX := t.geo[b].cursorX + w + t.m.measure(font, " "))];
  }

  /** `word`. */
  method Word(t: Tree, b: nat, n: nat, word: string)
    requires t.Valid() && Building(StateOf(t), b) && n < |t.nodes|
    modifies t
    ensures t.Valid() && StateOf(t) == WordF(t.nodes, t.m, old(StateOf(t)), b, n, word)
  {
    var style := t.nodes[n].style;
    var font := FontOf(t.m, style, style["font-style"]);
    var w := t.m.measure(font, word);
    if t.geo[b].cursorX + w > t.geo[b].width {
      NewLine(t, b);
    }
    PutOnLineM(t, b, n, TextBox(word), w, font);
  }

  /** `input`. */
  method Input(t: Tree, b: nat, n: nat)
    requires t.Valid() && Building(StateOf(t), b) && n < |t.nodes|
    modifies t
    ensures t.Valid() && StateOf(t) == InputF(t.nodes, t.m, old(StateOf(t)), b, n)
  {
    var w := INPUT_WIDTH_PX;
    if t.geo[b].cursorX + w > t.geo[b].width {
      NewLine(t, b);
    }
    var style := t.nodes[n].style;
    var font := FontOf(t.m, style, style["font-style"]);
    PutOnLineM(t, b, n, InputBox, w, font);
  }

  /** `recurse`. */
  method Recurse(t: Tree, b: nat, n: nat)
    requires t.Valid() && Building(StateOf(t), b) && n < |t.nodes|
    modifies t
    ensures t.Valid() && StateOf(t) == RecurseF(t.nodes, t.m, old(StateOf(t)), b, n)
    decreases |t.nodes| - n, 1
  {
    var node := t.nodes[n];
    if node.kind.TextNode? {
      Words(t, b, n, Strings.SplitWords(node.kind.text));
    } else if node.kind.tag == "br" {
      NewLine(t, b);
    } else if node.kind.tag == "input" || node.kind.tag == "button" {
      Input(t, b, n);
    } else {
      ChildrenAfter(t.nodes, n);
      RecurseChildren(t, b, n);
    }
  }

  /** The text branch of `recurse`: `for word in node.text.split()`. */
  method Words(t: Tree, b: nat, n: nat, words: seq<string>)
    requires t.Valid() && Building(StateOf(t), b) && n < |t.nodes|
    modifies t
    ensures t.Valid() && StateOf(t) == WordsF(t.nodes, t.m, old(StateOf(t)), b, n, words)
  {
    var k := 0;
    while k < |words|
      invariant 0 <= k <= |words| && t.Valid() && Building(StateOf(t), b)
      invariant StateOf(t) == WordsF(t.nodes, t.m, old(StateOf(t)), b, n, words[..k])
    {
      assert words[..k + 1][..k] == words[..k];
      Word(t, b, n, words[k]);
      k := k + 1;
    }
    assert words[..k] == words;
  }

  /** The element branch of `recurse`: `for child in node.children`. */
  method RecurseChildren(t: Tree, b: nat, n: nat)
    requires t.Valid() && Building(StateOf(t), b) && n < |t.nodes|
    requires forall k :: 0 <= k < |t.nodes[n].children| ==> n < t.nodes[n].children[k] < |t.nodes|
    modifies t
    ensures t.Valid() && StateOf(t) == KidsF(t.nodes, t.m, old(StateOf(t)), b, n, t.nodes[n].children)
    decreases |t.nodes| - n, 0
  {
    var cs := t.nodes[n].children;
    var k := 0;
    while k < |cs|
      invariant 0 <= k <= |cs| && t.Valid() && Building(StateOf(t), b)
      invariant StateOf(t) == KidsF(t.nodes, t.m, old(StateOf(t)), b, n, cs[..k])
    {
      assert cs[..k + 1][..k] == cs[..k];
      Recurse(t, b, cs[k]);
      k := k + 1;
    }
    assert cs[..k] == cs;
  }

  /** Box `j` sits where `layout` puts a block or a line: at its parent's
      left edge and as wide as its parent, and just below its previous
      sibling, or at its parent's top when it is the first child. */
  predicate Stacked(bs: seq<Box>, gs: seq<Geo>, j: nat) {
    && Linked(bs, j) && |gs| == |bs| && bs[j].parent >= 0
    && var p := gs[bs[j].parent];
       && gs[j].x == p.x && gs[j].width == p.width
       && gs[j].y == if bs[j].previous >= 0 then gs[bs[j].previous].y + gs[bs[j].previous].height else p.y
  }

  /** `next = BlockLayout(child, self, prev)` and
      `self.children.append(next)`. */
  method AddBlock(t: Tree, b: nat, node: nat)
    requires t.Valid() && b < |t.boxes| && t.boxes[b].kind.BlockBox? && node < |t.nodes|
    modifies t
    ensures t.Valid() && t.boxes == AddChild(old(t.boxes), b, BlockBox, node) && t.geo == old(t.geo) + [NoGeo]
  {
    AddChildOk(t.boxes, |t.nodes|, b, BlockBox, node);
    t.boxes := AddChild(t.boxes, b, BlockBox, node);
    t.geo := t.geo + [NoGeo];
  }

  /** The boxes after `for child in kids: self.children.append(BlockLayout(child, self, prev))`. */
  function BlocksF(bs: seq<Box>, b: nat, kids: seq<nat>): (r: seq<Box>)
    requires b < |bs|
    ensures |r| == |bs| + |kids|
  {
    if kids == [] then bs else AddChild(BlocksF(bs, b, kids[..|kids| - 1]), b, BlockBox, kids[|kids| - 1])
  }

  /** `k` fresh geometries. */
  function NoGeos(k: nat): (r: seq<Geo>)
    ensures |r| == k && forall i :: 0 <= i < k ==> r[i] == NoGeo
  {
    seq(k, i => NoGeo)
  }

  /** Starting from a block without children, `BlocksF` gives it one new
      block per child node, in order, each chained to the one before it,
      and changes no other box. */
  lemma {:induction false} BlocksShape(bs: seq<Box>, b: nat, kids: seq<nat>)
    requires b < |bs| && bs[b].children == []
    ensures BlocksShaped(bs, b, kids, BlocksF(bs, b, kids))
  {
    if kids != [] {
      var front := kids[..|kids| - 1];
      BlocksShape(bs, b, front);
      BlocksStep(bs, b, front, kids[|kids| - 1], BlocksF(bs, b, front));
      assert front + [kids[|kids| - 1]] == kids;
    }
  }

  /** Box `b` of `r` has one new block per entry of `kids`, in order, each
      chained to the one before it, and no other box of `bs` changed. */
  predicate BlocksShaped(bs: seq<Box>, b: nat, kids: seq<nat>, r: seq<Box>) {
    && b < |bs| <= |r| && b < |r|
    && var cs := r[b].children;
    && (forall j :: 0 <= j < |bs| && j != b ==> r[j] == bs[j])
    && r[b] == bs[b].(children := cs)
    && |cs| == |kids|
    && (forall k :: 0 <= k < |cs| ==> cs[k] == |bs| + k)
    && |r| == |bs| + |cs|
    && (forall k :: 0 <= k < |cs| ==> r[cs[k]] == NewBox(BlockBox, kids[k], b, r[cs[k]].previous))
    && (|cs| > 0 ==> r[cs[0]].previous == -1)
    && (forall k :: 0 < k < |cs| ==> r[cs[k]].previous == cs[k - 1])
  }

  /** One more child block keeps the shape. */
  lemma BlocksStep(bs: seq<Box>, b: nat, front: seq<nat>, x: nat, s: seq<Box>)
    requires BlocksShaped(bs, b, front, s) && bs[b].children == []
    ensures BlocksShaped(bs, b, front + [x], AddChild(s, b, BlockBox, x))
  {
    var r := AddChild(s, b, BlockBox, x);
    var kids := front + [x];
    var cs := r[b].children;
    assert cs == s[b].children + [|s|];
    forall k | 0 <= k < |cs| - 1
      ensures cs[k] == s[b].children[k] && r[cs[k]] == s[cs[k]] && kids[k] == front[k]
    {
    }
  }

  /** The block branch of `layout`. */
  method CreateBlocks(t: Tree, b: nat)
    requires t.Valid() && b < |t.boxes| && t.boxes[b].kind.BlockBox? && t.boxes[b].children == []
    requires t.boxes[b].node < |t.nodes|
    modifies t
    ensures t.Valid()
    ensures t.boxes == BlocksF(old(t.boxes), b, t.nodes[old(t.boxes[b].node)].children)
    ensures t.geo == old(t.geo) + NoGeos(|t.nodes[old(t.boxes[b].node)].children|)
  {
    ChildrenAfter(t.nodes, t.boxes[b].node);
    var kids := t.nodes[t.boxes[b].node].children;
    var k := 0;
    while k < |kids|
      invariant 0 <= k <= |kids| && t.Valid() && b < |t.boxes| && t.boxes[b].kind.BlockBox?
      invariant t.boxes == BlocksF(old(t.boxes), b, kids[..k])
      invariant t.geo == old(t.geo) + NoGeos(k)
    {
      assert kids[..k + 1][..k] == kids[..k];
      AddBlock(t, b, kids[k]);
      k := k + 1;
    }
    assert kids[..k] == kids;
  }

  /** What `for child in self.children: child.layout()` needs of block
      `b`'s children: each is a box made after the first `n0`, and is a
      line or a block still without children for a node after `b`'s. */
  predicate KidsReady(bs: seq<Box>, b: nat, n0: nat)
    requires b < |bs|
  {
    forall k :: 0 <= k < |bs[b].children| ==>
      && n0 <= bs[b].children[k] < |bs|
      && (|| bs[bs[b].children[k]].kind.LineBox?
          || (&& bs[bs[b].children[k]].kind.BlockBox? && bs[bs[b].children[k]].children == []
              && bs[bs[b].children[k]].node > bs[b].node))
  }

  /** What the children of block `b` are once `layout` has made them: a
      block per child node in block mode, lines (at least one) in inline
      mode. */
  predicate ChildrenMade(nodes: seq<Node>, bs: seq<Box>, b: nat)
    requires b < |bs| && bs[b].node < |nodes|
  {
    var cs := bs[b].children;
    && (forall k :: 0 <= k < |cs| ==> cs[k] < |bs|)
    && (LayoutMode(nodes, bs[b].node) == Block ==>
          && |cs| == |nodes[bs[b].node].children|
          && forall k :: 0 <= k < |cs| ==> bs[cs[k]].kind.BlockBox? && bs[cs[k]].node == nodes[bs[b].node].children[k])
    && (LayoutMode(nodes, bs[b].node) == Inline ==>
          && cs != []
          && forall k :: 0 <= k < |cs| ==> bs[cs[k]].kind.LineBox?)
  }

  /** The middle of `layout`: the children of block `b`, by mode. */
  method BuildChildren(t: Tree, b: nat)
    requires t.Valid() && b < |t.boxes| && t.boxes[b].kind.BlockBox? && t.boxes[b].children == []
    modifies t
    ensures t.Valid() && |t.boxes| >= old(|t.boxes|) && b < |t.boxes|
    ensures forall j :: 0 <= j < old(|t.boxes|) && j != b ==> t.boxes[j] == old(t.boxes[j]) && t.geo[j] == old(t.geo[j])
    ensures t.boxes[b] == old(t.boxes[b]).(children := t.boxes[b].children)
    ensures t.geo[b] == old(t.geo[b]).(cursorX := t.geo[b].cursorX)
    ensures KidsReady(t.boxes, b, old(|t.boxes|)) && t.boxes[b].node < |t.nodes|
    ensures ChildrenMade(t.nodes, t.boxes, b)
  {
    assert BoxOk(t.boxes, |t.nodes|, b);
    if LayoutMode(t.nodes, t.boxes[b].node) == Block {
      BlockChildren(t, b);
    } else {
      InlineChildren(t, b);
    }
  }

  /** `for child in self.node.children: ... BlockLayout(child, self, prev)`. */
  method BlockChildren(t: Tree, b: nat)
    requires t.Valid() && b < |t.boxes| && t.boxes[b].kind.BlockBox? && t.boxes[b].children == []
    requires t.boxes[b].node < |t.nodes| && LayoutMode(t.nodes, t.boxes[b].node) == Block
    modifies t
    ensures t.Valid() && |t.boxes| >= old(|t.boxes|) && b < |t.boxes|
    ensures forall j :: 0 <= j < old(|t.boxes|) && j != b ==> t.boxes[j] == old(t.boxes[j]) && t.geo[j] == old(t.geo[j])
    ensures t.boxes[b] == old(t.boxes[b]).(children := t.boxes[b].children)
    ensures t.geo[b] == old(t.geo[b]).(cursorX := t.geo[b].cursorX)
    ensures KidsReady(t.boxes, b, old(|t.boxes|)) && t.boxes[b].node < |t.nodes|
    ensures ChildrenMade(t.nodes, t.boxes, b)
  {
    var node := t.boxes[b].node;
    ghost var bs := t.boxes;
    ChildrenAfter(t.nodes, node);
    CreateBlocks(t, b);
    BlocksShape(bs, b, t.nodes[node].children);
  }

  /** `self.new_line()` and `self.recurse(self.node)`. */
  method InlineChildren(t: Tree, b: nat)
    requires t.Valid() && b < |t.boxes| && t.boxes[b].kind.BlockBox? && t.boxes[b].children == []
    requires t.boxes[b].node < |t.nodes| && LayoutMode(t.nodes, t.boxes[b].node) == Inline
    modifies t
    ensures t.Valid() && |t.boxes| >= old(|t.boxes|) && b < |t.boxes|
    ensures forall j :: 0 <= j < old(|t.boxes|) && j != b ==> t.boxes[j] == old(t.boxes[j]) && t.geo[j] == old(t.geo[j])
    ensures t.boxes[b] == old(t.boxes[b]).(children := t.boxes[b].children)
    ensures t.geo[b] == old(t.geo[b]).(cursorX := t.geo[b].cursorX)
    ensures KidsReady(t.boxes, b, old(|t.boxes|)) && t.boxes[b].node < |t.nodes|
    ensures ChildrenMade(t.nodes, t.boxes, b)
  {
    var node := t.boxes[b].node;
    ghost var st := StateOf(t);
    NewLine(t, b);
    ghost var st1 := StateOf(t);
    NewLineGrows(st, b, |st.bs|);
    Recurse(t, b, node);
    RecurseGrows(t.nodes, t.m, st1, b, node, |st.bs|);
    GrowsTrans(st, st1, StateOf(t), b, |st.bs|);
  }

  /** `BlockLayout.layout`. */
  method Layout(t: Tree, b: nat)
    requires t.Valid() && Linked(t.boxes, b) && t.boxes[b].kind.BlockBox? && t.boxes[b].parent >= 0
    requires t.boxes[b].children == []
    modifies t
    decreases |t.nodes| - t.boxes[b].node, 3
    ensures t.Valid() && |t.boxes| >= old(|t.boxes|) && b < |t.boxes|
    ensures forall j :: 0 <= j < old(|t.boxes|) && j != b ==> t.boxes[j] == old(t.boxes[j]) && t.geo[j] == old(t.geo[j])
    ensures t.boxes[b] == old(t.boxes[b]).(children := t.boxes[b].children)
    ensures Stacked(t.boxes, t.geo, b) && t.boxes[b].node < |t.nodes| && ChildrenMade(t.nodes, t.boxes, b)
    ensures var cs := t.boxes[b].children;
      && (forall k :: 0 <= k < |cs| ==> old(|t.boxes|) <= cs[k])
      && t.geo[b].height == SumHeights(t.geo, cs)
      && (forall k :: 0 <= k < |cs| ==> Stacked(t.boxes, t.geo, cs[k]))
  {
    Place(t, b);
    ghost var bs1, gs1 := t.boxes, t.geo;
    Fill(t, b);
    assert Stacked(bs1, gs1, b);
  }

  /** The rest of `layout` once the box is placed: make the children, lay
      them out, and take the sum of their heights as the box's height. */
  method Fill(t: Tree, b: nat)
    requires t.Valid() && b < |t.boxes| && t.boxes[b].kind.BlockBox? && t.boxes[b].children == []
    modifies t
    decreases |t.nodes| - t.boxes[b].node, 2, 1
    ensures t.Valid() && |t.boxes| >= old(|t.boxes|) && b < |t.boxes|
    ensures forall j :: 0 <= j < old(|t.boxes|) && j != b ==> t.boxes[j] == old(t.boxes[j]) && t.geo[j] == old(t.geo[j])
    ensures t.boxes[b] == old(t.boxes[b]).(children := t.boxes[b].children)
    ensures t.geo[b] == old(t.geo[b]).(height := t.geo[b].height, cursorX := t.geo[b].cursorX)
    ensures t.boxes[b].node < |t.nodes| && ChildrenMade(t.nodes, t.boxes, b)
    ensures var cs := t.boxes[b].children;
      && (forall k :: 0 <= k < |cs| ==> old(|t.boxes|) <= cs[k])
      && t.geo[b].height == SumHeights(t.geo, cs)
      && (forall k :: 0 <= k < |cs| ==> Stacked(t.boxes, t.geo, cs[k]))
  {
    ghost var bs1, gs1 := t.boxes, t.geo;
    ghost var bs2, gs2 := MakeKids(t, b);
    ghost var bs3, gs3 := t.boxes, t.geo;
    SetHeight(t, b);
    FillSteps(t.nodes, bs1, gs1, bs2, gs2, bs3, gs3, t.geo, b);
  }

  /** The children of `layout` made and laid out; `bs2` and `gs2` are the
      boxes and the geometry between the two steps. */
  method MakeKids(t: Tree, b: nat) returns (ghost bs2: seq<Box>, ghost gs2: seq<Geo>)
    requires t.Valid() && b < |t.boxes| && t.boxes[b].kind.BlockBox? && t.boxes[b].children == []
    modifies t
    decreases |t.nodes| - t.boxes[b].node, 2, 0
    ensures t.Valid() && b < old(|t.boxes|)
    ensures |bs2| >= old(|t.boxes|) && |gs2| == |bs2|
    ensures forall j :: 0 <= j < old(|t.boxes|) && j != b ==> bs2[j] == old(t.boxes[j]) && gs2[j] == old(t.geo[j])
    ensures bs2[b] == old(t.boxes[b]).(children := bs2[b].children) && gs2[b] == old(t.geo[b]).(cursorX := gs2[b].cursorX)
    ensures KidsReady(bs2, b, old(|t.boxes|)) && bs2[b].node < |t.nodes| && ChildrenMade(t.nodes, bs2, b)
    ensures |t.boxes| >= |bs2|
    ensures forall j :: 0 <= j < old(|t.boxes|) ==> t.boxes[j] == bs2[j] && t.geo[j] == gs2[j]
    ensures var cs := t.boxes[b].children;
      && (forall k :: 0 <= k < |cs| ==> cs[k] < |t.boxes| && t.boxes[cs[k]] == bs2[cs[k]].(children := t.boxes[cs[k]].children))
      && (forall k :: 0 <= k < |cs| ==> Stacked(t.boxes, t.geo, cs[k]))
      && (|cs| > 0 ==> t.boxes[cs[0]].previous == -1)
      && (forall k :: 0 < k < |cs| ==> t.boxes[cs[k]].previous == cs[k - 1])
  {
    var n0 := |t.boxes|;
    BuildChildren(t, b);
    bs2, gs2 := t.boxes, t.geo;
    LayoutKids(t, b, n0);
    assert BoxOk(t.boxes, |t.nodes|, b);
  }

  /** The three steps of `Fill` together give what it promises. */
  lemma FillSteps(nodes: seq<Node>, bs1: seq<Box>, gs1: seq<Geo>, bs2: seq<Box>, gs2: seq<Geo>,
                  bs3: seq<Box>, gs3: seq<Geo>, gs4: seq<Geo>, b: nat)
    requires b < |bs1| && |gs1| == |bs1|
    requires |bs2| >= |bs1| && |gs2| == |bs2|
    requires forall j :: 0 <= j < |bs1| && j != b ==> bs2[j] == bs1[j] && gs2[j] == gs1[j]
    requires bs2[b] == bs1[b].(children := bs2[b].children) && gs2[b] == gs1[b].(cursorX := gs2[b].cursorX)
    requires KidsReady(bs2, b, |bs1|) && bs2[b].node < |nodes| && ChildrenMade(nodes, bs2, b)
    requires |bs3| >= |bs2| && |gs3| == |bs3|
    requires forall j :: 0 <= j < |bs1| ==> bs3[j] == bs2[j] && gs3[j] == gs2[j]
    requires var cs := bs3[b].children;
      && (forall k :: 0 <= k < |cs| ==> cs[k] < |bs3| && bs3[cs[k]] == bs2[cs[k]].(children := bs3[cs[k]].children))
      && (forall k :: 0 <= k < |cs| ==> Stacked(bs3, gs3, cs[k]))
      && (|cs| > 0 ==> bs3[cs[0]].previous == -1)
      && (forall k :: 0 < k < |cs| ==> bs3[cs[k]].previous == cs[k - 1])
    requires |gs4| == |gs3| && gs4 == gs3[b := gs3[b].(height := gs4[b].height)]
    requires gs4[b].height == SumHeights(gs4, bs3[b].children)
    requires forall j :: 0 <= j < |bs3| && Stacked(bs3, gs3, j) && bs3[j].previous != b ==> Stacked(bs3, gs4, j)
    ensures |bs3| >= |bs1| && |gs4| == |bs3|
    ensures forall j :: 0 <= j < |bs1| && j != b ==> bs3[j] == bs1[j] && gs4[j] == gs1[j]
    ensures bs3[b] == bs1[b].(children := bs3[b].children)
    ensures gs4[b] == gs1[b].(height := gs4[b].height, cursorX := gs4[b].cursorX)
    ensures bs3[b].node < |nodes| && ChildrenMade(nodes, bs3, b)
    ensures var cs := bs3[b].children;
      && (forall k :: 0 <= k < |cs| ==> |bs1| <= cs[k])
      && gs4[b].height == SumHeights(gs4, cs)
      && (forall k :: 0 <= k < |cs| ==> Stacked(bs3, gs4, cs[k]))
  {
    var cs := bs3[b].children;
    assert cs == bs2[b].children;
    forall k | 0 <= k < |cs| ensures Stacked(bs3, gs4, cs[k]) {
      if k > 0 {
        assert |bs1| <= cs[k - 1];
      }
    }
  }

  /** The start of `layout`: `x` and `width` from the parent, `y` below
      the previous sibling or at the parent's top. */
  method Place(t: Tree, b: nat)
    requires t.Valid() && Linked(t.boxes, b) && t.boxes[b].parent >= 0
    modifies t
    ensures t.Valid() && t.boxes == old(t.boxes)
    ensures t.geo == old(t.geo)[b := t.geo[b]] && t.geo[b].height == old(t.geo[b].height)
    ensures Stacked(t.boxes, t.geo, b)
  {
    var bx := t.boxes[b];
    var p := t.geo[bx.parent];
    var y := if bx.previous >= 0 then t.geo[bx.previous].y + t.geo[bx.previous].height else p.y;
    t.geo := t.geo[b := t.geo[b].(x := p.x, width := p.width, y := y)];
  }

  /** `self.height = sum([child.height for child in self.children])`:
      only `b`'s height changes, and every box that was stacked and does
      not follow `b` stays stacked. */
  method SetHeight(t: Tree, b: nat)
    requires t.Valid() && b < |t.boxes|
    requires forall k :: 0 <= k < |t.boxes[b].children| ==> b < t.boxes[b].children[k] < |t.boxes|
    modifies t
    ensures t.Valid() && t.boxes == old(t.boxes)
    ensures t.geo == old(t.geo)[b := old(t.geo[b]).(height := t.geo[b].height)]
    ensures t.geo[b].height == SumHeights(t.geo, t.boxes[b].children)
    ensures forall j :: 0 <= j < |t.boxes| && old(Stacked(t.boxes, t.geo, j)) && t.boxes[j].previous != b ==>
              Stacked(t.boxes, t.geo, j)
  {
    var cs := t.boxes[b].children;
    var h := SumHeights(t.geo, cs);
    t.geo := t.geo[b := t.geo[b].(height := h)];
    assert Heights(t.geo, cs) == Heights(old(t.geo), cs);
  }

  /** `cs` are the children of block `b` in `bs0`, as `TreeOk` has them:
      made after the first `n0` boxes, in increasing order, each with
      parent `b`. */
  predicate KidsOf(bs0: seq<Box>, b: nat, cs: seq<nat>, n0: nat) {
    && b < n0 <= |bs0| && cs == bs0[b].children
    && (forall i :: 0 <= i < |cs| ==> n0 <= cs[i] < |bs0| && bs0[cs[i]].parent == b)
    && (forall i1, i2 :: 0 <= i1 < i2 < |cs| ==> cs[i1] < cs[i2])
    && (|cs| > 0 ==> bs0[cs[0]].previous == -1)
    && (forall i :: 0 < i < |cs| ==> bs0[cs[i]].previous == cs[i - 1])
  }

  /** Where the loop over the children `cs` of `b` stands after `k`
      children: the first `n0` boxes are as they were, the children keep
      their links, the ones not reached yet are untouched, and the ones
      laid out are stacked. */
  predicate KidsInv(bs0: seq<Box>, gs0: seq<Geo>, bs: seq<Box>, gs: seq<Geo>, b: nat, cs: seq<nat>,
                    k: nat, n0: nat)
    requires KidsOf(bs0, b, cs, n0) && |gs0| == |bs0|
  {
    && k <= |cs| && |bs| >= |bs0| && |gs| == |bs|
    && (forall j :: 0 <= j < n0 ==> bs[j] == bs0[j] && gs[j] == gs0[j])
    && (forall i :: 0 <= i < |cs| ==> bs[cs[i]] == bs0[cs[i]].(children := bs[cs[i]].children))
    && (forall i :: k <= i < |cs| ==> bs[cs[i]] == bs0[cs[i]])
    && (forall i :: 0 <= i < k ==> Stacked(bs, gs, cs[i]))
  }

  /** Laying out child `cs[k]` (which changes only itself and its own
      children, all made after it) moves the loop one child on. */
  lemma KidsStep(bs0: seq<Box>, gs0: seq<Geo>, bs: seq<Box>, gs: seq<Geo>, bs': seq<Box>, gs': seq<Geo>,
                 b: nat, cs: seq<nat>, k: nat, n0: nat)
    requires KidsOf(bs0, b, cs, n0) && |gs0| == |bs0|
    requires KidsInv(bs0, gs0, bs, gs, b, cs, k, n0) && k < |cs|
    requires |bs'| >= |bs| && |gs'| == |bs'|
    requires forall q :: 0 <= q < |bs[cs[k]].children| ==> cs[k] < bs[cs[k]].children[q] < |bs| && bs[bs[cs[k]].children[q]].parent == cs[k]
    requires forall j :: 0 <= j < |bs| && j != cs[k] && j !in bs[cs[k]].children ==> bs'[j] == bs[j] && gs'[j] == gs[j]
    requires bs'[cs[k]] == bs[cs[k]].(children := bs'[cs[k]].children)
    requires Stacked(bs', gs', cs[k])
    ensures KidsInv(bs0, gs0, bs', gs', b, cs, k + 1, n0)
  {
    var c := cs[k];
    var ch := bs[c].children;
    forall i | 0 <= i < |cs| && i != k ensures cs[i] != c && cs[i] !in ch {
      assert bs[cs[i]].parent == b;
    }
    forall j | 0 <= j < n0 ensures j != c && j !in ch {
    }
  }

  /** `for child in self.children: child.layout()`: every child is laid
      out in place below the one before it; nothing among the first `n0`
      boxes changes. */
  method LayoutKids(t: Tree, b: nat, n0: nat)
    requires t.Valid() && b < n0 <= |t.boxes| && KidsReady(t.boxes, b, n0)
    modifies t
    decreases |t.nodes| - t.boxes[b].node, 1
    ensures t.Valid() && |t.boxes| >= old(|t.boxes|)
    ensures forall j :: 0 <= j < n0 ==> t.boxes[j] == old(t.boxes[j]) && t.geo[j] == old(t.geo[j])
    ensures var cs := t.boxes[b].children;
      && (forall k :: 0 <= k < |cs| ==> cs[k] < |t.boxes| && t.boxes[cs[k]] == old(t.boxes[cs[k]]).(children := t.boxes[cs[k]].children))
      && (forall k :: 0 <= k < |cs| ==> Stacked(t.boxes, t.geo, cs[k]))
  {
    var cs := t.boxes[b].children;
    ghost var bs0 := t.boxes;
    ghost var gs0 := t.geo;
    assert BoxOk(t.boxes, |t.nodes|, b);
    assert KidsOf(bs0, b, cs, n0);
    var k := 0;
    while k < |cs|
      invariant t.Valid() && KidsInv(bs0, gs0, t.boxes, t.geo, b, cs, k, n0)
    {
      var c := cs[k];
      ghost var bs := t.boxes;
      ghost var gs := t.geo;
      assert bs[c] == bs0[c] && bs[b] == bs0[b];
      assert BoxOk(t.boxes, |t.nodes|, c);
      LayoutChild(t, b, c);
      KidsStep(bs0, gs0, bs, gs, t.boxes, t.geo, b, cs, k, n0);
      k := k + 1;
    }
  }

  /** `child.layout()` for a child `c` of block `b`: a block lays itself
      out, a line its words; nothing else that existed changes. */
  method LayoutChild(t: Tree, b: nat, c: nat)
    requires t.Valid() && b < c < |t.boxes| && t.boxes[c].parent == b && b < |t.boxes|
    requires || t.boxes[c].kind.LineBox?
             || (t.boxes[c].kind.BlockBox? && t.boxes[c].children == [] && t.boxes[c].node > t.boxes[b].node)
    modifies t
    decreases |t.nodes| - t.boxes[b].node, 0
    ensures t.Valid() && |t.boxes| >= old(|t.boxes|)
    ensures forall j :: 0 <= j < old(|t.boxes|) && j != c && j !in old(t.boxes[c].children) ==>
              t.boxes[j] == old(t.boxes[j]) && t.geo[j] == old(t.geo[j])
    ensures forall k :: 0 <= k < |old(t.boxes[c].children)| ==> c < old(t.boxes[c].children)[k]
    ensures t.boxes[c] == old(t.boxes[c]).(children := t.boxes[c].children)
    ensures Stacked(t.boxes, t.geo, c)
  {
    assert BoxOk(t.boxes, |t.nodes|, c);
    if t.boxes[c].kind.BlockBox? {
      Layout(t, c);
    } else {
      ghost var gs := t.geo;
      LineLayout.Layout(t, c);
      LineLayout.LineFrame(t.nodes, t.m, t.boxes, gs, c);
    }
  }

  /** The children of a laid out block fill it: the first starts at the
      block's top, each of the others below the one before, all at the
      block's left edge and as wide, and the last ends at the block's
      bottom edge. */
  lemma BlockFilled(bs: seq<Box>, gs: seq<Geo>, b: nat)
    requires b < |bs| == |gs| && bs[b].children != []
    requires var cs := bs[b].children;
      && (forall k :: 0 <= k < |cs| ==> cs[k] < |bs| && bs[cs[k]].parent == b && Stacked(bs, gs, cs[k]))
      && bs[cs[0]].previous == -1
      && (forall k :: 0 < k < |cs| ==> bs[cs[k]].previous == cs[k - 1])
      && gs[b].height == SumHeights(gs, cs)
    ensures var cs := bs[b].children;
      && gs[cs[0]].y == gs[b].y
      && (forall k :: 0 <= k < |cs| ==> gs[cs[k]].x == gs[b].x && gs[cs[k]].width == gs[b].width)
      && gs[cs[|cs| - 1]].y + gs[cs[|cs| - 1]].height == gs[b].y + gs[b].height
  {
    var cs := bs[b].children;
    StackedFill(gs, cs, gs[b].y);
  }

  /** `BlockLayout.paint`: a rounded rectangle over the whole box in the
      background color, with the `border-radius` (without its unit, read by
      `toFloat`) as radius, unless the background is transparent; None where
      that `float(...)` raises. */
  function Paint(nodes: seq<Node>, toFloat: string -> Option<real>, b: Box, g: Geo): (r: Option<seq<Cmd>>)
    requires b.node < |nodes|
    ensures var style := nodes[b.node].style;
      var bg := Get(style, "background-color", "transparent");
      var radius := toFloat(Strings.DropLast(Get(style, "border-radius", "0px"), 2));
      && (bg == "transparent" ==> r == Some([]))
      && (bg != "transparent" ==> (r.None? <==> radius.None?))
      && (bg != "transparent" && radius.Some? ==> r == Some([DrawRRect(SelfRect(g), radius.value, bg)]))
  {
    var style := nodes[b.node].style;
    var bg := Get(style, "background-color", "transparent");
    if bg != "transparent" then
      match toFloat(Strings.DropLast(Get(style, "border-radius", "0px"), 2))
      case None => None
      case Some(radius) => Some([DrawRRect(SelfRect(g), radius, bg)])
    else Some([])
  }

  /** `BlockLayout.should_paint`: text, and every element except inputs
      and buttons, which paint themselves through `InputLayout`. */
  predicate ShouldPaint(nodes: seq<Node>, b: Box)
    requires b.node < |nodes|
  {
    nodes[b.node].kind.TextNode? || (nodes[b.node].kind.tag != "input" && nodes[b.node].kind.tag != "button")
  }

  /** An `<input>` or `<button>` is painted once: by its `InputLayout`,
      never by a `BlockLayout` over the same node; every other element and
      all text is painted by its block. */
  lemma PaintedOnce(nodes: seq<Node>, b: Box)
    requires b.node < |nodes|
    ensures var k := nodes[b.node].kind;
      (k.ElementNode? && (k.tag == "input" || k.tag == "button")) <==> !ShouldPaint(nodes, b)
    ensures InputLayout.ShouldPaint(b)
  {
  }
}
