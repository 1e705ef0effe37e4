/** CSS selectors (`tag_selector.py`, and the descendant selector it is
    combined with). */
module Selectors {
  import opened Dom

  datatype Selector =
    | TagSelector(tag: string)
    | DescendantSelector(ancestor: Selector, descendant: Selector)

  /** `priority`: 1 for a tag selector; a descendant selector counts both of
      its parts. */
  function Priority(sel: Selector): (p: nat)
    ensures sel.TagSelector? ==> p == 1
    ensures sel.DescendantSelector? ==> p == Priority(sel.ancestor) + Priority(sel.descendant) && p >= 2
  {
    match sel
    case TagSelector(_) => 1
    case DescendantSelector(a, d) => Priority(a) + Priority(d)
  }

  /** `TagSelector.matches(node)`: an Element whose tag is the selector's. */
  predicate TagMatches(tag: string, node: Node) {
    node.kind.ElementNode? && node.kind.tag == tag
  }

  /** A Text node never matches a tag selector. */
  lemma TextNeverMatches(tag: string, node: Node)
    requires node.kind.TextNode?
    ensures !TagMatches(tag, node)
  {
  }

  /** An Element matches exactly when its tag is the selector's tag. */
  lemma ElementMatchesIffTag(tag: string, node: Node)
    requires node.kind.ElementNode?
    ensures TagMatches(tag, node) <==> node.kind.tag == tag
  {
  }

  /** Matching looks at the tag alone: attributes, parent, children, style
      and focus make no difference. */
  lemma MatchDependsOnlyOnTag(tag: string, a: Node, b: Node)
    requires a.kind.ElementNode? == b.kind.ElementNode?
    requires a.kind.ElementNode? ==> a.kind.tag == b.kind.tag
    ensures TagMatches(tag, a) == TagMatches(tag, b)
  {
  }

  /** `selector.matches(node)` for the node at index `i` of the arena. A
      descendant selector needs its descendant part to match the node and
      its ancestor part to match some proper ancestor. */
  predicate Matches(sel: Selector, nodes: seq<Node>, i: nat)
    requires i < |nodes|
    decreases sel, i
  {
    match sel
    case TagSelector(t) => TagMatches(t, nodes[i])
    case DescendantSelector(a, d) =>
      Matches(d, nodes, i) && (nodes[i].parent < i && AncestorMatches(a, nodes, nodes[i].parent))
  }

  /** Some node on the parent chain starting at `p` matches `sel`. */
  predicate AncestorMatches(sel: Selector, nodes: seq<Node>, p: int)
    decreases sel, p + 1
  {
    if p < 0 || p >= |nodes| then false
    else Matches(sel, nodes, p) || (nodes[p].parent < p && AncestorMatches(sel, nodes, nodes[p].parent))
  }

  /** A tag selector matches a node of the arena exactly when the node is an
      Element with that tag. */
  lemma TagSelectorMatches(tag: string, nodes: seq<Node>, i: nat)
    requires i < |nodes|
    ensures Matches(TagSelector(tag), nodes, i) <==> nodes[i].kind.ElementNode? && nodes[i].kind.tag == tag
  {
  }

  /** Selectors look only at node kinds and parents, so restyling an arena
      does not change what they match. */
  lemma {:induction false} MatchesIgnoresStyle(sel: Selector, a: seq<Node>, b: seq<Node>, i: nat)
    requires SameShape(a, b) && i < |a|
    ensures Matches(sel, a, i) == Matches(sel, b, i)
    decreases sel, i
  {
    match sel
    case TagSelector(_) =>
    case DescendantSelector(anc, d) =>
      MatchesIgnoresStyle(d, a, b, i);
      if a[i].parent < i {
        AncestorIgnoresStyle(anc, a, b, a[i].parent);
      }
  }

  lemma {:induction false} AncestorIgnoresStyle(sel: Selector, a: seq<Node>, b: seq<Node>, p: int)
    requires SameShape(a, b)
    ensures AncestorMatches(sel, a, p) == AncestorMatches(sel, b, p)
    decreases sel, p + 1
  {
    if 0 <= p < |a| {
      MatchesIgnoresStyle(sel, a, b, p);
      if a[p].parent < p {
        AncestorIgnoresStyle(sel, a, b, a[p].parent);
      }
    }
  }
}
