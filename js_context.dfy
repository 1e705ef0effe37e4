/** `js_context.py`: the bridge between scripts and the tab's DOM. Scripts
    never see DOM nodes, only integer handles: `node_to_handle` and
    `handle_to_node` translate between the two, handing out 0, 1, 2, ...
    in the order nodes are first seen. The DOM functions scripts may call
    (`querySelectorAll`, `getAttribute`, `innerHTML_set`) and
    `dispatch_event` work through that table. The JavaScript interpreter
    itself is not part of this model: what a script returns is a
    parameter. */
module JsContext {
  import opened Base
  import opened Dom
  import opened Helpers
  import opened Selectors
  import CssParser
  import Tab

  /** Why a DOM call from a script raised. */
  datatype JsError =
    | BadSelector                 // `CSSParser(selector_text).selector()` raised
    | NoPage                      // the tab has no `nodes` yet
    | UnknownHandle(handle: int)  // `handle_to_node[handle]` raised `KeyError`
    | NoRender                    // `Tab` has no `render` method

  // ---- the handle table ----

  /** The two dictionaries, node (arena index) to handle and back. */
  datatype Table = Table(nodeToHandle: map<nat, nat>, handleToNode: map<nat, nat>)

  /** The dictionaries are inverse to each other, and the handles in use
      are exactly `0 .. len(node_to_handle) - 1`. */
  predicate TableOk(t: Table) {
    && (forall n :: n in t.nodeToHandle ==>
          t.nodeToHandle[n] < |t.nodeToHandle| && t.nodeToHandle[n] in t.handleToNode
          && t.handleToNode[t.nodeToHandle[n]] == n)
    && (forall h :: h in t.handleToNode ==> t.handleToNode[h] in t.nodeToHandle && t.nodeToHandle[t.handleToNode[h]] == h)
    && (forall h: nat :: h < |t.nodeToHandle| ==> h in t.handleToNode)
  }

  /** Every entry of `t` is still in `u`, unchanged. */
  predicate Extends(t: Table, u: Table) {
    && (forall n :: n in t.nodeToHandle ==> n in u.nodeToHandle && u.nodeToHandle[n] == t.nodeToHandle[n])
    && (forall h :: h in t.handleToNode ==> h in u.handleToNode && u.handleToNode[h] == t.handleToNode[h])
  }

  lemma ExtendsTrans(a: Table, b: Table, c: Table)
    requires Extends(a, b) && Extends(b, c)
    ensures Extends(a, c)
  {
  }

  /** `get_handle(elt)`: the table afterwards and the handle of `elt`. */
  function WithHandle(t: Table, elt: nat): (r: (Table, nat))
  {
    if elt in t.nodeToHandle then (t, t.nodeToHandle[elt])
    else
      var h := |t.nodeToHandle|;
      (Table(t.nodeToHandle[elt := h], t.handleToNode[h := elt]), h)
  }

  /** `get_handle` keeps the table a bijection onto `0 .. n - 1` and keeps
      every entry; the handle names `elt` both ways; a node seen before
      keeps its handle, and a new node gets the number of nodes handled
      before it. */
  lemma WithHandleOk(t: Table, elt: nat)
    requires TableOk(t)
    ensures var (u, h) := WithHandle(t, elt);
      && TableOk(u) && Extends(t, u)
      && elt in u.nodeToHandle && u.nodeToHandle[elt] == h
      && h in u.handleToNode && u.handleToNode[h] == elt
      && (elt in t.nodeToHandle ==> u == t && h == t.nodeToHandle[elt])
      && (elt !in t.nodeToHandle ==> h == |t.nodeToHandle| && |u.nodeToHandle| == h + 1)
  {
    if elt !in t.nodeToHandle {
      NewHandleOk(t, elt);
    }
  }

  /** A node without a handle gets the next number, and the table stays a
      bijection onto the numbers in use. */
  lemma NewHandleOk(t: Table, elt: nat)
    requires TableOk(t) && elt !in t.nodeToHandle
    ensures var h := |t.nodeToHandle|;
      var u := Table(t.nodeToHandle[elt := h], t.handleToNode[h := elt]);
      TableOk(u) && Extends(t, u) && |u.nodeToHandle| == h + 1
  {
    var h := |t.nodeToHandle|;
    var u := Table(t.nodeToHandle[elt := h], t.handleToNode[h := elt]);
    HandlesBelow(t);
    assert |u.nodeToHandle| == h + 1;
    forall n | n in u.nodeToHandle
      ensures u.nodeToHandle[n] < |u.nodeToHandle| && u.nodeToHandle[n] in u.handleToNode
        && u.handleToNode[u.nodeToHandle[n]] == n
    {
      if n != elt {
        assert u.nodeToHandle[n] == t.nodeToHandle[n] < h;
      }
    }
    forall g | g in u.handleToNode
      ensures u.handleToNode[g] in u.nodeToHandle && u.nodeToHandle[u.handleToNode[g]] == g
    {
      if g != h {
        assert g < h && u.handleToNode[g] == t.handleToNode[g] != elt;
      }
    }
    forall g: nat | g < h + 1
      ensures g in u.handleToNode
    {
      if g < h {
        assert g in t.handleToNode;
      }
    }
    assert Extends(t, u);
  }

  /** Every handle in use is below the number of nodes handled. */
  lemma HandlesBelow(t: Table)
    requires TableOk(t)
    ensures forall g :: g in t.handleToNode ==> g < |t.nodeToHandle|
  {
    forall g | g in t.handleToNode
      ensures g < |t.nodeToHandle|
    {
      var n := t.handleToNode[g];
      assert n in t.nodeToHandle && t.nodeToHandle[n] == g;
    }
  }

  /** Asking twice for the handle of the same node gives the same answer
      and changes nothing the second time. */
  lemma WithHandleIdempotent(t: Table, elt: nat)
    requires TableOk(t)
    ensures WithHandle(WithHandle(t, elt).0, elt) == WithHandle(t, elt)
  {
    WithHandleOk(t, elt);
  }

  /** Two different nodes never share a handle. */
  lemma HandlesDistinct(t: Table, a: nat, b: nat)
    requires TableOk(t) && a != b
    ensures var (u, ha) := WithHandle(t, a); WithHandle(u, b).1 != ha
  {
    WithHandleOk(t, a);
    var (u, ha) := WithHandle(t, a);
    WithHandleOk(u, b);
  }

  /** `[self.get_handle(node) for node in elts]`: the handles, in order. */
  function WithHandles(t: Table, elts: seq<nat>): (r: (Table, seq<nat>))
    ensures |r.1| == |elts|
  {
    if elts == [] then (t, [])
    else
      var front := WithHandles(t, elts[..|elts| - 1]);
      var last := WithHandle(front.0, elts[|elts| - 1]);
      (last.0, front.1 + [last.1])
  }

  /** The table stays a bijection that keeps every earlier entry. */
  lemma {:induction false} WithHandlesTable(t: Table, elts: seq<nat>)
    requires TableOk(t)
    ensures TableOk(WithHandles(t, elts).0) && Extends(t, WithHandles(t, elts).0)
  {
    if elts != [] {
      var front := elts[..|elts| - 1];
      WithHandlesTable(t, front);
      var v := WithHandles(t, front).0;
      WithHandleOk(v, elts[|elts| - 1]);
      ExtendsTrans(t, v, WithHandles(t, elts).0);
    }
  }

  /** `hs[k]` names `elts[k]` in `u`, for every `k`. */
  predicate Names(u: Table, hs: seq<nat>, elts: seq<nat>)
    requires |hs| == |elts|
  {
    forall k :: 0 <= k < |elts| ==> hs[k] in u.handleToNode && u.handleToNode[hs[k]] == elts[k]
  }

  /** The handles returned name the nodes asked for, one by one. */
  lemma {:induction false} WithHandlesOk(t: Table, elts: seq<nat>)
    requires TableOk(t)
    ensures TableOk(WithHandles(t, elts).0) && Extends(t, WithHandles(t, elts).0)
    ensures Names(WithHandles(t, elts).0, WithHandles(t, elts).1, elts)
  {
    WithHandlesTable(t, elts);
    if elts != [] {
      var front := elts[..|elts| - 1];
      WithHandlesOk(t, front);
      NamesSnoc(WithHandles(t, front).0, WithHandles(t, front).1, front, elts[|elts| - 1]);
      assert front + [elts[|elts| - 1]] == elts;
    }
  }

  /** One more `get_handle` keeps the earlier handles naming their nodes
      and names the new one. */
  lemma NamesSnoc(v: Table, fs: seq<nat>, front: seq<nat>, last: nat)
    requires TableOk(v) && |fs| == |front| && Names(v, fs, front)
    ensures Names(WithHandle(v, last).0, fs + [WithHandle(v, last).1], front + [last])
  {
    WithHandleOk(v, last);
  }

  /** `node_to_handle.get(elt, -1)`, the handle `dispatch_event` passes to
      the script. */
  function EventHandle(t: Table, elt: nat): (h: int)
    ensures h == -1 <==> elt !in t.nodeToHandle
    ensures TableOk(t) && h != -1 ==> h >= 0 && h in t.handleToNode && t.handleToNode[h] == elt
  {
    if elt in t.nodeToHandle then t.nodeToHandle[elt] else -1
  }

  // ---- querySelectorAll ----

  /** A selector only ever matches elements. */
  lemma {:induction false} MatchesElement(sel: Selector, nodes: seq<Node>, i: nat)
    requires i < |nodes| && Matches(sel, nodes, i)
    ensures nodes[i].kind.ElementNode?
    decreases sel
  {
    match sel
    case TagSelector(t) =>
    case DescendantSelector(a, d) => MatchesElement(d, nodes, i);
  }

  /** The nodes among `order` the selector matches, in that order. */
  function Matching(sel: Selector, nodes: seq<Node>, order: seq<nat>): (r: seq<nat>)
    requires forall k :: 0 <= k < |order| ==> order[k] < |nodes|
    ensures |r| <= |order|
    ensures forall k :: 0 <= k < |r| ==> r[k] < |nodes| && Matches(sel, nodes, r[k]) && r[k] in order
    ensures forall k :: 0 <= k < |order| && Matches(sel, nodes, order[k]) ==> order[k] in r
  {
    if order == [] then []
    else
      var front := Matching(sel, nodes, order[..|order| - 1]);
      assert forall k :: 0 <= k < |order| - 1 ==> order[k] == order[..|order| - 1][k];
      var j := order[|order| - 1];
      if Matches(sel, nodes, j) then front + [j] else front
  }

  /** The handles name nodes of the arena `nodes`, all of them elements. */
  predicate HandlesElements(t: Table, nodes: seq<Node>) {
    forall h :: h in t.handleToNode ==> t.handleToNode[h] < |nodes| && nodes[t.handleToNode[h]].kind.ElementNode?
  }

  /** Handing out handles for matched nodes keeps every handle on an
      element of the page. */
  lemma MatchedHandlesElements(t: Table, sel: Selector, nodes: seq<Node>, order: seq<nat>)
    requires TableOk(t) && HandlesElements(t, nodes)
    requires forall k :: 0 <= k < |order| ==> order[k] < |nodes|
    ensures HandlesElements(WithHandles(t, Matching(sel, nodes, order)).0, nodes)
  {
    var ms := Matching(sel, nodes, order);
    forall k | 0 <= k < |ms| ensures nodes[ms[k]].kind.ElementNode? {
      MatchesElement(sel, nodes, ms[k]);
    }
    HandlesOfElements(t, nodes, ms);
  }

  lemma {:induction false} HandlesOfElements(t: Table, nodes: seq<Node>, elts: seq<nat>)
    requires TableOk(t) && HandlesElements(t, nodes)
    requires forall k :: 0 <= k < |elts| ==> elts[k] < |nodes| && nodes[elts[k]].kind.ElementNode?
    ensures HandlesElements(WithHandles(t, elts).0, nodes)
  {
    if elts != [] {
      var front := elts[..|elts| - 1];
      HandlesOfElements(t, nodes, front);
      WithHandlesOk(t, front);
    }
  }

  // ---- innerHTML_set ----

  /** What the HTML parser makes of `<html><body>` + s + `</body></html>`
      inside the `body` element, in an arena of its own: `roots` are the
      body's children, which have no parent yet. */
  datatype Fragment = Fragment(nodes: seq<Node>, roots: seq<nat>)

  /** The fragment is a forest like a page, and its roots are parentless
      nodes of it, none listed twice. */
  predicate FragmentOk(f: Fragment) {
    && ParentsBefore(f.nodes) && LinksBack(f.nodes) && TextLeaves(f.nodes) && IsForest(Kids(f.nodes))
    && RootsOk(f)
  }

  predicate RootsOk(f: Fragment) {
    && (forall k :: 0 <= k < |f.roots| ==> f.roots[k] < |f.nodes| && f.nodes[f.roots[k]].parent == -1)
    && Distinct(f.roots)
  }

  /** Indices moved up by `off`. */
  function Offset(cs: seq<nat>, off: nat): (r: seq<nat>)
    ensures |r| == |cs| && forall k :: 0 <= k < |cs| ==> r[k] == cs[k] + off
  {
    seq(|cs|, k requires 0 <= k < |cs| => cs[k] + off)
  }

  /** A fragment node once the fragment sits at `off` in the page's arena. */
  function Shift(n: Node, off: nat): Node {
    n.(children := Offset(n.children, off), parent := if n.parent < 0 then n.parent else n.parent + off)
  }

  function ShiftAll(f: Fragment, off: nat): (r: seq<Node>)
    ensures |r| == |f.nodes| && forall j :: 0 <= j < |f.nodes| ==> r[j] == Shift(f.nodes[j], off)
  {
    seq(|f.nodes|, j requires 0 <= j < |f.nodes| => Shift(f.nodes[j], off))
  }

  /** The nodes `cs` with their parent set to `p`. */
  function SetParents(a: seq<Node>, cs: seq<nat>, p: int): (r: seq<Node>)
    ensures |r| == |a|
    ensures forall i :: 0 <= i < |a| ==> r[i] == if i in cs then a[i].(parent := p) else a[i]
  {
    seq(|a|, i requires 0 <= i < |a| => if i in cs then a[i].(parent := p) else a[i])
  }

  /** Setting one more parent. */
  lemma SetParentsSnoc(a: seq<Node>, cs: seq<nat>, c: nat, p: int, before: seq<Node>)
    requires c < |a| && before == SetParents(a, cs, p)
    ensures SetParents(a, cs + [c], p) == before[c := before[c].(parent := p)]
  {
    var l := SetParents(a, cs + [c], p);
    var r := before[c := before[c].(parent := p)];
    forall i | 0 <= i < |a| ensures l[i] == r[i] {
      assert i in cs + [c] <==> i in cs || i == c;
    }
  }

  /** The fragment appended to the page, and the element `elt` given the
      fragment's roots as its children. */
  function Placed(nodes: seq<Node>, elt: nat, f: Fragment): (r: seq<Node>)
    requires elt < |nodes|
    ensures |r| == |nodes| + |f.nodes|
  {
    var a := nodes + ShiftAll(f, |nodes|);
    a[elt := a[elt].(children := Offset(f.roots, |nodes|))]
  }

  /** `innerHTML_set(handle, s)` on the arena: the fragment joins the page
      under `elt`, replacing `elt`'s children, and each new child's parent
      is `elt`. */
  function Splice(nodes: seq<Node>, elt: nat, f: Fragment): (r: seq<Node>)
    requires elt < |nodes| && forall k :: 0 <= k < |f.roots| ==> f.roots[k] < |f.nodes|
    ensures |r| == |nodes| + |f.nodes|
  {
    SetParents(Placed(nodes, elt, f), Offset(f.roots, |nodes|), elt)
  }

  /** Node `i` of the spliced page: `elt` has the new children, the old
      nodes are as they were, each fragment node is moved up by the old
      size of the arena, and a root of the fragment has `elt` as its
      parent. */
  function SpliceNode(nodes: seq<Node>, elt: nat, f: Fragment, i: nat): Node
    requires elt < |nodes| && i < |nodes| + |f.nodes|
  {
    var off := |nodes|;
    if i == elt then nodes[elt].(children := Offset(f.roots, off))
    else if i < off then nodes[i]
    else if i - off in f.roots then Shift(f.nodes[i - off], off).(parent := elt)
    else Shift(f.nodes[i - off], off)
  }

  /** `s` is the spliced page, node by node. */
  predicate IsSplice(s: seq<Node>, nodes: seq<Node>, elt: nat, f: Fragment)
    requires elt < |nodes|
  {
    |s| == |nodes| + |f.nodes| && forall i :: 0 <= i < |s| ==> s[i] == SpliceNode(nodes, elt, f, i)
  }

  lemma SpliceAt(nodes: seq<Node>, elt: nat, f: Fragment, i: nat)
    requires elt < |nodes| && RootsOk(f) && i < |nodes| + |f.nodes|
    ensures Splice(nodes, elt, f)[i] == SpliceNode(nodes, elt, f, i)
  {
    var off := |nodes|;
    var cs := Offset(f.roots, off);
    if off <= i {
      assert i in cs <==> i - off in f.roots by {
        if i in cs {
          var k :| 0 <= k < |cs| && cs[k] == i;
          assert f.roots[k] == i - off;
        }
        if i - off in f.roots {
          var k :| 0 <= k < |f.roots| && f.roots[k] == i - off;
          assert cs[k] == i;
        }
      }
    } else {
      assert i !in cs;
    }
  }

  lemma SpliceIsSplice(nodes: seq<Node>, elt: nat, f: Fragment)
    requires elt < |nodes| && RootsOk(f)
    ensures IsSplice(Splice(nodes, elt, f), nodes, elt, f)
  {
    forall i | 0 <= i < |nodes| + |f.nodes| ensures Splice(nodes, elt, f)[i] == SpliceNode(nodes, elt, f, i) {
      SpliceAt(nodes, elt, f, i);
    }
  }

  /** Splicing a fragment under an element of a well-formed page leaves a
      well-formed page: the old children of the element are detached (they
      keep their `parent` but nobody lists them), and no node gets two
      parents. */
  lemma SpliceWellFormed(nodes: seq<Node>, elt: nat, f: Fragment)
    requires WellFormed(nodes) && elt < |nodes| && nodes[elt].kind.ElementNode? && FragmentOk(f)
    ensures WellFormed(Splice(nodes, elt, f))
  {
    WellFormedParts(nodes);
    var s := Splice(nodes, elt, f);
    SpliceIsSplice(nodes, elt, f);
    SpliceParts(s, nodes, elt, f);
    forall i, j, a, b |
      0 <= i < |s| && 0 <= j < |s| && 0 <= a < |s[i].children| && 0 <= b < |s[j].children|
      && s[i].children[a] == s[j].children[b]
      ensures i == j && a == b
    {
      assert s[s[i].children[a]].parent == i;
      SpliceKidsDistinct(s, nodes, elt, f, i, a, b);
    }
    PartsWellFormed(s);
  }

  /** The spliced page has parents before children, children that point
      back to their parent, and text nodes without children. */
  lemma SpliceParts(s: seq<Node>, nodes: seq<Node>, elt: nat, f: Fragment)
    requires ParentsBefore(nodes) && LinksBack(nodes) && TextLeaves(nodes)
    requires elt < |nodes| && nodes[elt].kind.ElementNode?
    requires ParentsBefore(f.nodes) && LinksBack(f.nodes) && TextLeaves(f.nodes) && RootsOk(f)
    requires IsSplice(s, nodes, elt, f)
    ensures ParentsBefore(s) && LinksBack(s) && TextLeaves(s)
  {
    SpliceNodesOk(s, nodes, elt, f);
    forall i | 0 <= i < |s| ensures -1 <= s[i].parent < i {
      assert SpliceNodeOk(s, i);
    }
    forall i, k | 0 <= i < |s| && 0 <= k < |s[i].children|
      ensures i < s[i].children[k] < |s| && s[s[i].children[k]].parent == i
    {
      assert SpliceNodeOk(s, i);
    }
    forall i | 0 <= i < |s| && s[i].kind.TextNode? ensures s[i].children == [] {
      assert SpliceNodeOk(s, i);
    }
  }

  lemma SpliceNodesOk(s: seq<Node>, nodes: seq<Node>, elt: nat, f: Fragment)
    requires ParentsBefore(nodes) && LinksBack(nodes) && TextLeaves(nodes)
    requires elt < |nodes| && nodes[elt].kind.ElementNode?
    requires ParentsBefore(f.nodes) && LinksBack(f.nodes) && TextLeaves(f.nodes) && RootsOk(f)
    requires IsSplice(s, nodes, elt, f)
    ensures forall i :: 0 <= i < |s| ==> SpliceNodeOk(s, i)
  {
    forall i | 0 <= i < |s| ensures SpliceNodeOk(s, i) {
      if i == elt {
        SpliceEltOk(s, nodes, elt, f);
      } else if i < |nodes| {
        SpliceOldOk(s, nodes, elt, f, i);
      } else {
        SpliceNewOk(s, nodes, elt, f, i);
      }
    }
  }

  /** What `WellFormed` asks of one node of `s`, besides that its children
      have no other parent. */
  predicate SpliceNodeOk(s: seq<Node>, i: nat)
    requires i < |s|
  {
    && -1 <= s[i].parent < i
    && (s[i].kind.TextNode? ==> s[i].children == [])
    && forall k :: 0 <= k < |s[i].children| ==> i < s[i].children[k] < |s| && s[s[i].children[k]].parent == i
  }

  lemma SpliceEltOk(s: seq<Node>, nodes: seq<Node>, elt: nat, f: Fragment)
    requires ParentsBefore(nodes) && elt < |nodes| && nodes[elt].kind.ElementNode? && RootsOk(f)
    requires IsSplice(s, nodes, elt, f)
    ensures SpliceNodeOk(s, elt)
  {
    var off := |nodes|;
    assert s[elt].children == Offset(f.roots, off);
    forall k | 0 <= k < |f.roots| ensures s[f.roots[k] + off].parent == elt {
      assert s[f.roots[k] + off] == SpliceNode(nodes, elt, f, f.roots[k] + off);
    }
  }

  lemma SpliceOldOk(s: seq<Node>, nodes: seq<Node>, elt: nat, f: Fragment, i: nat)
    requires ParentsBefore(nodes) && LinksBack(nodes) && TextLeaves(nodes) && elt < |nodes|
    requires RootsOk(f) && IsSplice(s, nodes, elt, f)
    requires i < |nodes| && i != elt
    ensures SpliceNodeOk(s, i)
  {
    assert s[i] == nodes[i];
    forall k | 0 <= k < |s[i].children| ensures s[s[i].children[k]].parent == i {
      var c := nodes[i].children[k];
      assert s[c] == SpliceNode(nodes, elt, f, c);
    }
  }

  lemma SpliceNewOk(s: seq<Node>, nodes: seq<Node>, elt: nat, f: Fragment, i: nat)
    requires elt < |nodes|
    requires ParentsBefore(f.nodes) && LinksBack(f.nodes) && TextLeaves(f.nodes) && RootsOk(f)
    requires IsSplice(s, nodes, elt, f)
    requires |nodes| <= i < |s|
    ensures SpliceNodeOk(s, i)
  {
    var off := |nodes|;
    var j := i - off;
    assert s[i] == SpliceNode(nodes, elt, f, i);
    forall k | 0 <= k < |s[i].children| ensures i < s[i].children[k] < |s| && s[s[i].children[k]].parent == i {
      var c := f.nodes[j].children[k];
      assert c !in f.roots;
      assert s[c + off] == SpliceNode(nodes, elt, f, c + off);
    }
  }

  /** No node of the spliced page lists a child twice. */
  lemma SpliceKidsDistinct(s: seq<Node>, nodes: seq<Node>, elt: nat, f: Fragment, i: nat, a: nat, b: nat)
    requires IsForest(Kids(nodes)) && elt < |nodes|
    requires IsForest(Kids(f.nodes)) && RootsOk(f) && IsSplice(s, nodes, elt, f)
    requires i < |s| && a < |s[i].children| && b < |s[i].children| && s[i].children[a] == s[i].children[b]
    ensures a == b
  {
    var off := |nodes|;
    assert s[i] == SpliceNode(nodes, elt, f, i);
    if i == elt {
      assert f.roots[a] == f.roots[b];
    } else if i < off {
      var kn := Kids(nodes);
      assert kn[i][a] == kn[i][b];
    } else {
      var kf := Kids(f.nodes);
      assert kf[i - off][a] == kf[i - off][b];
    }
  }

  /** Splicing keeps every handle on an element: old nodes keep their
      kind. */
  lemma SpliceKeepsElements(t: Table, nodes: seq<Node>, elt: nat, f: Fragment)
    requires HandlesElements(t, nodes) && elt < |nodes| && FragmentOk(f)
    ensures HandlesElements(t, Splice(nodes, elt, f))
  {
    forall h | h in t.handleToNode ensures Splice(nodes, elt, f)[t.handleToNode[h]].kind == nodes[t.handleToNode[h]].kind {
      SpliceAt(nodes, elt, f, t.handleToNode[h]);
    }
  }

  class JsContext {
    const tab: Tab.Tab
    var nodeToHandle: map<nat, nat>
    var handleToNode: map<nat, nat>

    ghost predicate Valid()
      reads this
    {
      TableOk(Table(nodeToHandle, handleToNode))
    }

    /** The handles name elements of the page the tab holds now. */
    ghost predicate Current()
      reads this, tab
    {
      tab.nodes.Some? && HandlesElements(Table(nodeToHandle, handleToNode), tab.nodes.value)
    }

    /** `JSContext(tab)`: an empty table. */
    constructor (tab: Tab.Tab)
      ensures Valid() && this.tab == tab && nodeToHandle == map[] && handleToNode == map[]
    {
      this.tab := tab;
      nodeToHandle := map[];
      handleToNode := map[];
    }

    /** `get_handle(elt)`. */
    method GetHandle(elt: nat) returns (h: nat)
      requires Valid()
      modifies this
      ensures Valid()
      ensures (Table(nodeToHandle, handleToNode), h) == WithHandle(old(Table(nodeToHandle, handleToNode)), elt)
    {
      WithHandleOk(Table(nodeToHandle, handleToNode), elt);
      if elt !in nodeToHandle {
        h := |nodeToHandle|;
        nodeToHandle := nodeToHandle[elt := h];
        handleToNode := handleToNode[h := elt];
      } else {
        h := nodeToHandle[elt];
      }
    }

    /** `querySelectorAll(selector_text)`: the handles of the nodes of the
        tab's page that the selector matches, in document order. */
    method QuerySelectorAll(selectorText: string) returns (r: Result<seq<nat>, JsError>)
      requires Valid() && (tab.nodes.Some? ==> WellFormed(tab.nodes.value))
      modifies this
      ensures Valid()
      ensures var sel := CssParser.SelectorF(selectorText, 0).value;
        && (sel.None? ==> r == Err(BadSelector) && unchanged(this))
        && (sel.Some? && tab.nodes.None? ==> r == Err(NoPage) && unchanged(this))
        && (sel.Some? && tab.nodes.Some? ==>
              var nodes := tab.nodes.value;
              var q := WithHandles(old(Table(nodeToHandle, handleToNode)),
                                             Matching(sel.value, nodes, Preorder(Kids(nodes), 0)));
              && r == Ok(q.1) && Table(nodeToHandle, handleToNode) == q.0
              && (old(HandlesElements(Table(nodeToHandle, handleToNode), nodes)) ==> Current()))
    {
      var sel := ParseSelector(selectorText);
      if sel.None? {
        return Err(BadSelector);
      }
      if tab.nodes.None? {
        return Err(NoPage);
      }
      var nodes := tab.nodes.value;
      var matches := MatchAll(sel.value, nodes);
      if HandlesElements(Table(nodeToHandle, handleToNode), nodes) {
        MatchedHandlesElements(Table(nodeToHandle, handleToNode), sel.value, nodes, Preorder(Kids(nodes), 0));
      }
      var hs := GetHandles(matches);
      r := Ok(hs);
    }

    /** `[self.get_handle(node) for node in elts]`. */
    method GetHandles(elts: seq<nat>) returns (hs: seq<nat>)
      requires Valid()
      modifies this
      ensures Valid()
      ensures (Table(nodeToHandle, handleToNode), hs) == WithHandles(old(Table(nodeToHandle, handleToNode)), elts)
    {
      ghost var t0 := Table(nodeToHandle, handleToNode);
      hs := [];
      var k := 0;
      while k < |elts|
        invariant 0 <= k <= |elts| && Valid()
        invariant (Table(nodeToHandle, handleToNode), hs) == WithHandles(t0, elts[..k])
      {
        assert elts[..k + 1][..k] == elts[..k];
        var h := GetHandle(elts[k]);
        hs := hs + [h];
        k := k + 1;
      }
      assert elts[..k] == elts;
    }

    /** `CSSParser(selector_text).selector()`. */
    static method ParseSelector(text: string) returns (sel: Option<Selector>)
      ensures sel == CssParser.SelectorF(text, 0).value
    {
      var parser := new CssParser.Parser(text);
      sel := parser.Selector();
    }

    /** `tree_to_list(self.tab.nodes, [])` filtered by the selector. */
    static method MatchAll(sel: Selector, nodes: seq<Node>) returns (matches: seq<nat>)
      requires WellFormed(nodes)
      ensures matches == Matching(sel, nodes, Preorder(Kids(nodes), 0))
    {
      assert Ordered(Kids(nodes));
      var order := TreeToList(Kids(nodes), 0, []);
      assert order == Preorder(Kids(nodes), 0);
      matches := Matching(sel, nodes, order);
    }

    /** `getAttribute(handle, attr)`: the attribute's value, or `""` when
        the element has no such attribute or it is empty. */
    function GetAttribute(handle: int, attr: string): (r: Result<string, JsError>)
      requires Current()
      reads this, tab
      ensures r.Err? <==> handle < 0 || handle !in handleToNode
      ensures r.Err? ==> r == Err(UnknownHandle(handle))
      ensures r.Ok? ==>
        var attrs := tab.nodes.value[handleToNode[handle]].kind.attributes;
        && (r.value == "" <==> attr !in attrs || attrs[attr] == "")
        && (r.value != "" ==> r.value == attrs[attr])
    {
      if handle < 0 || handle !in handleToNode then Err(UnknownHandle(handle))
      else
        var elt := tab.nodes.value[handleToNode[handle]];
        var value := Lookup(elt.kind.attributes, attr);
        if value.Some? && value.value != "" then Ok(value.value) else Ok("")
    }

    /** `dispatch_event(type, elt)`: the script runs with the element's
        handle, -1 for an element scripts have never seen, and the result
        tells the browser whether to skip the default action, the negation
        of what the script returned. */
    method DispatchEvent(eventType: string, elt: nat, run: (string, int) -> bool) returns (preventDefault: bool)
      ensures preventDefault == !run(eventType, EventHandle(Table(nodeToHandle, handleToNode), elt))
    {
      var handle := if elt in nodeToHandle then nodeToHandle[elt] else -1;
      var doDefault := run(eventType, handle);
      preventDefault := !doDefault;
    }

    /** `innerHTML_set(handle, s)`, with `f` what the HTML parser makes of
        `s`: the element's children become the fragment's roots, each of
        which gets the element as its parent; the `render` call that
        follows raises, since `Tab` has no such method. */
    method InnerHtmlSet(handle: int, f: Fragment) returns (raised: JsError)
      requires Valid() && tab.Valid() && Current() && FragmentOk(f)
      modifies tab
      ensures handle < 0 || handle !in handleToNode ==> raised == UnknownHandle(handle) && unchanged(tab)
      ensures handle >= 0 && handle in handleToNode ==>
        && raised == NoRender
        && tab.nodes == Some(Splice(old(tab.nodes.value), handleToNode[handle], f))
        && tab.url == old(tab.url) && tab.history == old(tab.history)
        && tab.scroll == old(tab.scroll) && tab.document == old(tab.document)
        && tab.Valid() && Current()
    {
      if handle < 0 || handle !in handleToNode {
        return UnknownHandle(handle);
      }
      var nodes := SpliceHandled(Table(nodeToHandle, handleToNode), tab.nodes.value, handleToNode[handle], f);
      tab.nodes := Some(nodes);
      raised := NoRender;
    }

    /** The splice into a well-formed tree whose elements the table `t`
        knows: the result is well formed and `t` still names elements. */
    static method SpliceHandled(t: Table, nodes0: seq<Node>, elt: nat, f: Fragment) returns (nodes: seq<Node>)
      requires WellFormed(nodes0) && HandlesElements(t, nodes0) && elt < |nodes0| && nodes0[elt].kind.ElementNode?
      requires FragmentOk(f)
      ensures nodes == Splice(nodes0, elt, f) && WellFormed(nodes) && HandlesElements(t, nodes)
    {
      nodes := SpliceInto(nodes0, elt, f);
      SpliceWellFormed(nodes0, elt, f);
      SpliceKeepsElements(t, nodes0, elt, f);
    }

    /** The splice step by step: the fragment appended, the element's
        children replaced, then each new child's parent set to it. */
    static method SpliceInto(nodes0: seq<Node>, elt: nat, f: Fragment) returns (nodes: seq<Node>)
      requires elt < |nodes0| && RootsOk(f)
      ensures nodes == Splice(nodes0, elt, f)
    {
      var off := |nodes0|;
      nodes := nodes0 + ShiftAll(f, off);
      var kids := Offset(f.roots, off);
      nodes := nodes[elt := nodes[elt].(children := kids)];
      assert nodes == Placed(nodes0, elt, f);
      nodes := SetParentsOf(nodes, kids, elt);
    }

    /** `for child in children: child.parent = elt`. */
    static method SetParentsOf(placed: seq<Node>, kids: seq<nat>, elt: int) returns (nodes: seq<Node>)
      requires forall k :: 0 <= k < |kids| ==> kids[k] < |placed|
      ensures nodes == SetParents(placed, kids, elt)
    {
      nodes := placed;
      var k := 0;
      ghost var done: seq<nat> := [];
      while k < |kids|
        invariant 0 <= k <= |kids| && |done| == k && forall j :: 0 <= j < k ==> done[j] == kids[j]
        invariant nodes == SetParents(placed, done, elt)
      {
        SetParentsSnoc(placed, done, kids[k], elt, nodes);
        nodes := nodes[kids[k] := nodes[kids[k]].(parent := elt)];
        done := done + [kids[k]];
        k := k + 1;
      }
      assert done == kids;
    }
  }
}
