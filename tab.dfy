/** `tab.py`: one browser tab. A tab remembers the page it shows (`url`),
    the pages it has shown (`history`), how far it is scrolled (`scroll`),
    the parsed DOM (`nodes`) and the laid-out page (`document` with its
    `display_list`). Its methods update these fields in place, so the tab
    is a class.

    A Python attribute that has not been assigned yet is `None` here:
    `scroll` and `nodes` exist only once `load` has run, `document` and
    `display_list` only once `load` has got past styling. Reading a missing
    attribute raises `AttributeError`, which the methods report as an
    error and after which nothing has changed. */
module Tab {
  import opened Base
  import opened Draw
  import opened Dom
  import opened Helpers
  import opened LayoutTree
  import Client

  /** How far one press of an arrow key scrolls. */
  const SCROLL_STEP: real := 50.0

  /** The laid-out page: the DOM it was laid out from, the layout tree's
      boxes and their geometry (box 0 is the `DocumentLayout`), and the
      display list painted from it. */
  datatype Page = Page(nodes: seq<Node>, boxes: seq<Box>, geo: seq<Geo>, displayList: seq<Cmd>)

  predicate PageOk(p: Page) {
    && WellFormed(p.nodes)
    && |p.boxes| > 0 && TreeOk(p.boxes, |p.nodes|) && |p.geo| == |p.boxes|
    && Ordered(BoxKids(p.boxes))
  }

  /** `document.height`. */
  function Height(p: Page): real
    requires |p.geo| > 0
  {
    p.geo[0].height
  }

  /** Why a tab operation stopped with an exception. */
  datatype TabError =
    | NoDocument                       // `AttributeError`: no `document` / `display_list` yet
    | NotLoaded                        // `AttributeError`: no `scroll` yet
    | BadLink(error: Client.UrlError)  // `resolve` raised while building a link's URL
    | StyleArity                       // `TypeError`: `style` is given two of its three arguments

  // ---- scrolling ----

  /** `max_y` of `scrolldown`: how far the page can be scrolled so that its
      bottom margin is still in the tab, and never below 0. */
  function MaxY(height: real, tabHeight: real): (r: real)
    ensures r >= 0.0 && r >= height + 2.0 * VSTEP - tabHeight
    ensures r == 0.0 || r == height + 2.0 * VSTEP - tabHeight
  {
    Max(height + 2.0 * VSTEP - tabHeight, 0.0)
  }

  /** The new `scroll` after `scrolldown`: one step further, but never past
      `maxY`. */
  function ScrolledDown(scroll: real, maxY: real): (r: real)
    requires maxY >= 0.0
    ensures r <= maxY
    ensures r == maxY || r == scroll + SCROLL_STEP
    ensures 0.0 <= scroll ==> 0.0 <= r
    ensures scroll <= maxY ==> scroll <= r <= scroll + SCROLL_STEP
  {
    Min(scroll + SCROLL_STEP, maxY)
  }

  /** The new `scroll` after `scrollup`: one step back, but never above the
      top of the page. */
  function ScrolledUp(scroll: real): (r: real)
    ensures r >= 0.0
    ensures r == 0.0 || r == scroll - SCROLL_STEP
    ensures 0.0 <= scroll ==> scroll - SCROLL_STEP <= r <= scroll
  {
    Max(scroll - SCROLL_STEP, 0.0)
  }

  /** A scroll position that starts in `[0, maxY]` stays there, one step
      at a time in either direction. */
  lemma ScrollStaysInRange(scroll: real, maxY: real)
    requires 0.0 <= scroll <= maxY
    ensures 0.0 <= ScrolledDown(scroll, maxY) <= maxY && 0.0 <= ScrolledUp(scroll) <= maxY
    ensures ScrolledDown(scroll, maxY) - scroll <= SCROLL_STEP && scroll - ScrolledUp(scroll) <= SCROLL_STEP
  {
  }

  /** `n` presses of the down key in a row. */
  function ScrollDownTimes(scroll: real, maxY: real, n: nat): real
    requires maxY >= 0.0
  {
    if n == 0 then scroll else ScrolledDown(ScrollDownTimes(scroll, maxY, n - 1), maxY)
  }

  /** `n` presses of the up key in a row. */
  function ScrollUpTimes(scroll: real, n: nat): real {
    if n == 0 then scroll else ScrolledUp(ScrollUpTimes(scroll, n - 1))
  }

  /** From a position in range, `n` steps down reach `n` steps further or
      the bottom, whichever comes first, and `n` steps up reach `n` steps
      back or the top. */
  lemma {:induction false} ScrollTimes(scroll: real, maxY: real, n: nat)
    requires 0.0 <= scroll <= maxY
    ensures ScrollDownTimes(scroll, maxY, n) == Min(scroll + (n as real) * SCROLL_STEP, maxY)
    ensures ScrollUpTimes(scroll, n) == Max(scroll - (n as real) * SCROLL_STEP, 0.0)
  {
    if n > 0 {
      ScrollTimes(scroll, maxY, n - 1);
    }
  }

  // ---- load ----

  /** A `<link rel="stylesheet" href=...>` element. */
  predicate IsStylesheetLink(n: Node) {
    && n.kind.ElementNode? && n.kind.tag == "link"
    && Lookup(n.kind.attributes, "rel") == Some("stylesheet")
    && "href" in n.kind.attributes
  }

  /** The `href` of every stylesheet link among the nodes `order`, in that
      order. */
  function StylesheetLinks(nodes: seq<Node>, order: seq<nat>): (links: seq<string>)
    requires forall k :: 0 <= k < |order| ==> order[k] < |nodes|
    ensures |links| <= |order|
    ensures links == [] <==> forall k :: 0 <= k < |order| ==> !IsStylesheetLink(nodes[order[k]])
  {
    if order == [] then []
    else
      var front := StylesheetLinks(nodes, order[..|order| - 1]);
      var n := nodes[order[|order| - 1]];
      if IsStylesheetLink(n) then front + [n.kind.attributes["href"]] else front
  }

  /** The error of the first link that does not resolve against `base`,
      or `None` when all of them resolve. */
  function FirstBadLink(base: Client.Url, links: seq<string>): (r: Option<Client.UrlError>)
    requires Client.ValidUrl(base)
    ensures r.None? <==> forall k :: 0 <= k < |links| ==> Client.Resolved(base, links[k]).Ok?
    ensures r.Some? ==> exists k :: 0 <= k < |links| && Client.Resolved(base, links[k]) == Err(r.value)
  {
    if links == [] then None
    else match Client.Resolved(base, links[0])
      case Err(e) => Some(e)
      case Ok(_) =>
        var rest := FirstBadLink(base, links[1..]);
        assert forall k :: 1 <= k < |links| ==> links[k] == links[1..][k - 1];
        rest
  }

  /** Checking the links from `k` on is checking link `k`, then the rest. */
  lemma FirstBadLinkStep(base: Client.Url, links: seq<string>, k: nat)
    requires Client.ValidUrl(base) && k < |links|
    ensures Client.Resolved(base, links[k]).Err? ==>
      FirstBadLink(base, links[k..]) == Some(Client.Resolved(base, links[k]).error)
    ensures Client.Resolved(base, links[k]).Ok? ==>
      FirstBadLink(base, links[k..]) == FirstBadLink(base, links[k + 1..])
  {
    assert links[k..][0] == links[k];
    assert links[k..][1..] == links[k + 1..];
  }

  /** How `load(url)` of the page whose parsed DOM is `parsed` ends: with
      the exception of the first stylesheet link that does not resolve,
      otherwise with the `TypeError` of the two-argument `style` call. */
  function LoadError(u: Client.Url, parsed: seq<Node>): TabError
    requires Client.ValidUrl(u) && WellFormed(parsed)
  {
    match FirstBadLink(u, StylesheetLinks(parsed, Preorder(Kids(parsed), 0)))
    case Some(e) => BadLink(e)
    case None => StyleArity
  }

  /** The part of `load` after the state updates: the URL of each
      stylesheet link is resolved, in document order (fetching and parsing
      the sheets cannot raise), and then `style` is called with too few
      arguments. */
  method LinksThenStyle(u: Client.Url, parsed: seq<Node>) returns (e: TabError)
    requires Client.ValidUrl(u) && WellFormed(parsed)
    ensures e == LoadError(u, parsed)
  {
    assert Ordered(Kids(parsed));
    var order := TreeToList(Kids(parsed), 0, []);
    assert order == Preorder(Kids(parsed), 0);
    var bad := ResolveAll(u, StylesheetLinks(parsed, order));
    e := if bad.Some? then BadLink(bad.value) else StyleArity;
  }

  /** `for link in links: style_url = self.url.resolve(link)`, up to the
      first link that raises. */
  method ResolveAll(u: Client.Url, links: seq<string>) returns (bad: Option<Client.UrlError>)
    requires Client.ValidUrl(u)
    ensures bad == FirstBadLink(u, links)
  {
    var k := 0;
    while k < |links|
      invariant 0 <= k <= |links|
      invariant FirstBadLink(u, links) == FirstBadLink(u, links[k..])
    {
      var r := Client.Resolve(u, links[k]);
      FirstBadLinkStep(u, links, k);
      if r.Err? {
        return Some(r.error);
      }
      k := k + 1;
    }
    return None;
  }

  // ---- click ----

  /** The closed box test of `click`: all four edges belong to the
      object. */
  predicate ClosedContains(g: Geo, x: real, y: real) {
    g.x <= x <= g.x + g.width && g.y <= y <= g.y + g.height
  }

  /** The objects among `order` whose box contains the point, in that
      order. */
  function Hits(geo: seq<Geo>, order: seq<nat>, x: real, y: real): (r: seq<nat>)
    requires forall k :: 0 <= k < |order| ==> order[k] < |geo|
    ensures |r| <= |order|
    ensures forall k :: 0 <= k < |r| ==> r[k] < |geo| && ClosedContains(geo[r[k]], x, y)
    ensures r == [] <==> forall k :: 0 <= k < |order| ==> !ClosedContains(geo[order[k]], x, y)
  {
    if order == [] then []
    else
      var front := Hits(geo, order[..|order| - 1], x, y);
      var j := order[|order| - 1];
      if ClosedContains(geo[j], x, y) then front + [j] else front
  }

  /** The last hit is the object latest in `order` whose box contains the
      point: no object after it does. */
  lemma {:induction false} LastHit(geo: seq<Geo>, order: seq<nat>, x: real, y: real)
    requires forall k :: 0 <= k < |order| ==> order[k] < |geo|
    requires Hits(geo, order, x, y) != []
    ensures var hits := Hits(geo, order, x, y);
      exists i :: 0 <= i < |order| && order[i] == hits[|hits| - 1]
        && forall k :: i < k < |order| ==> !ClosedContains(geo[order[k]], x, y)
  {
    var hits := Hits(geo, order, x, y);
    var n := |order| - 1;
    if ClosedContains(geo[order[n]], x, y) {
      assert order[n] == hits[|hits| - 1];
    } else {
      var front := order[..n];
      assert hits == Hits(geo, front, x, y);
      LastHit(geo, front, x, y);
      var i :| 0 <= i < |front| && front[i] == hits[|hits| - 1]
        && forall k :: i < k < |front| ==> !ClosedContains(geo[front[k]], x, y);
      assert order[i] == hits[|hits| - 1];
    }
  }

  /** An `<a>` element with an `href`. */
  predicate IsAnchor(n: Node) {
    n.kind.ElementNode? && n.kind.tag == "a" && "href" in n.kind.attributes
  }

  /** The node `n` followed by its ancestors up to the root. */
  function AncestorsOrSelf(nodes: seq<Node>, n: int): (path: seq<nat>)
    requires ParentsBefore(nodes) && -1 <= n < |nodes|
    ensures forall k :: 0 <= k < |path| ==> path[k] < |nodes|
    ensures n >= 0 ==> |path| > 0 && path[0] == n
    ensures forall k :: 0 < k < |path| ==> path[k] == nodes[path[k - 1]].parent
    decreases n + 1
  {
    if n < 0 then [] else [n] + AncestorsOrSelf(nodes, nodes[n].parent)
  }

  /** The node from `n` upwards that `click`'s walk up the parent chain
      stops at: the nearest `<a href>`. */
  function NearestAnchor(nodes: seq<Node>, n: int): (r: Option<nat>)
    requires ParentsBefore(nodes) && -1 <= n < |nodes|
    ensures r.Some? ==> r.value <= n && IsAnchor(nodes[r.value])
    decreases n + 1
  {
    if n < 0 then None
    else if IsAnchor(nodes[n]) then Some(n)
    else NearestAnchor(nodes, nodes[n].parent)
  }

  /** No node of `path` is an anchor. */
  predicate NoAnchorOn(nodes: seq<Node>, path: seq<nat>)
    requires forall k :: 0 <= k < |path| ==> path[k] < |nodes|
  {
    forall k :: 0 <= k < |path| ==> !IsAnchor(nodes[path[k]])
  }

  /** There is no nearest anchor exactly when no node on the way from `n`
      to the root is an anchor. */
  lemma {:induction false} NoNearestAnchor(nodes: seq<Node>, n: int)
    requires ParentsBefore(nodes) && -1 <= n < |nodes|
    ensures NearestAnchor(nodes, n).None? <==> NoAnchorOn(nodes, AncestorsOrSelf(nodes, n))
    decreases n + 1
  {
    var path := AncestorsOrSelf(nodes, n);
    if n >= 0 {
      if IsAnchor(nodes[n]) {
        assert IsAnchor(nodes[path[0]]);
      } else {
        var p := nodes[n].parent;
        NoNearestAnchor(nodes, p);
        var rest := AncestorsOrSelf(nodes, p);
        assert path == [n] + rest;
        assert NoAnchorOn(nodes, rest) ==> NoAnchorOn(nodes, path) by {
          assert forall k :: 0 < k < |path| ==> path[k] == rest[k - 1];
        }
        assert NoAnchorOn(nodes, path) ==> NoAnchorOn(nodes, rest) by {
          assert forall k :: 0 <= k < |rest| ==> rest[k] == path[k + 1];
        }
      }
    }
  }

  /** The nearest anchor is the first anchor on the way from `n` to the
      root. */
  lemma {:induction false} NearestAnchorIsFirst(nodes: seq<Node>, n: int)
    requires ParentsBefore(nodes) && -1 <= n < |nodes|
    requires NearestAnchor(nodes, n).Some?
    ensures exists i :: (0 <= i < |AncestorsOrSelf(nodes, n)|
                         && AncestorsOrSelf(nodes, n)[i] == NearestAnchor(nodes, n).value
                         && NoAnchorOn(nodes, AncestorsOrSelf(nodes, n)[..i]))
    decreases n + 1
  {
    var path := AncestorsOrSelf(nodes, n);
    if IsAnchor(nodes[n]) {
      assert path[0] == n && path[..0] == [];
    } else {
      var p := nodes[n].parent;
      NearestAnchorIsFirst(nodes, p);
      var rest := AncestorsOrSelf(nodes, p);
      assert path == [n] + rest;
      var i :| 0 <= i < |rest| && rest[i] == NearestAnchor(nodes, p).value && NoAnchorOn(nodes, rest[..i]);
      NoAnchorCons(nodes, n, rest, i);
      assert path[i + 1] == rest[i];
    }
  }

  /** A node that is not an anchor, put in front of a path without anchors,
      gives a path without anchors. */
  lemma NoAnchorCons(nodes: seq<Node>, n: nat, rest: seq<nat>, i: nat)
    requires n < |nodes| && !IsAnchor(nodes[n]) && i <= |rest|
    requires forall k :: 0 <= k < |rest| ==> rest[k] < |nodes|
    requires NoAnchorOn(nodes, rest[..i])
    ensures NoAnchorOn(nodes, ([n] + rest)[..i + 1])
  {
    var before := ([n] + rest)[..i + 1];
    forall k | 0 <= k < |before|
      ensures !IsAnchor(nodes[before[k]])
    {
      if k > 0 {
        assert before[k] == rest[..i][k - 1];
      }
    }
  }

  /** The anchor a click at page position `(x, y)` follows: the nearest
      `<a href>` from the node of the last object, in preorder, whose box
      contains the point; `None` when no object is hit or no anchor is
      found. */
  function ClickTarget(p: Page, x: real, y: real): (r: Option<nat>)
    requires PageOk(p)
    ensures r.Some? ==> r.value < |p.nodes| && IsAnchor(p.nodes[r.value])
  {
    var objs := Hits(p.geo, Preorder(BoxKids(p.boxes), 0), x, y);
    if objs == [] then None
    else
      assert BoxOk(p.boxes, |p.nodes|, objs[|objs| - 1]);
      NearestAnchor(p.nodes, p.boxes[objs[|objs| - 1]].node)
  }

  /** The hit test and the walk up the parent chain of `click`, for the
      page position `(x, y)`. */
  method HitTest(p: Page, x: real, y: real) returns (target: Option<nat>)
    requires PageOk(p)
    ensures target == ClickTarget(p, x, y)
  {
    var order := TreeToList(BoxKids(p.boxes), 0, []);
    assert order == Preorder(BoxKids(p.boxes), 0);
    var objs := Hits(p.geo, order, x, y);
    if objs == [] {
      return None;
    }
    assert BoxOk(p.boxes, |p.nodes|, objs[|objs| - 1]);
    target := WalkUp(p.nodes, p.boxes[objs[|objs| - 1]].node);
  }

  /** `click`'s walk up the parent chain from node `elt`: text nodes and
      elements other than `<a href>` pass the walk on to their parent. */
  method WalkUp(nodes: seq<Node>, elt0: int) returns (target: Option<nat>)
    requires ParentsBefore(nodes) && -1 <= elt0 < |nodes|
    ensures target == NearestAnchor(nodes, elt0)
  {
    var elt := elt0;
    target := None;
    while elt >= 0 && target.None?
      invariant -1 <= elt < |nodes|
      invariant target.None? ==> NearestAnchor(nodes, elt) == NearestAnchor(nodes, elt0)
      invariant target.Some? ==> target == NearestAnchor(nodes, elt0)
      decreases elt + 1, if target.None? then 1 else 0
    {
      var node := nodes[elt];
      if node.kind.TextNode? {
        elt := node.parent;
      } else if node.kind.tag == "a" && "href" in node.kind.attributes {
        target := Some(elt);
      } else {
        elt := node.parent;
      }
    }
  }

  // ---- draw ----

  /** `draw` skips a command lying wholly below the visible part of the
      page or wholly above it. */
  predicate Culled(c: Cmd, scroll: real, tabHeight: real) {
    c.rect.top > scroll + tabHeight || c.rect.bottom < scroll
  }

  /** The commands `draw` executes, in display-list order. */
  function Visible(cs: seq<Cmd>, scroll: real, tabHeight: real): (r: seq<Cmd>)
    ensures |r| <= |cs|
    ensures forall k :: 0 <= k < |r| ==> r[k] in cs && !Culled(r[k], scroll, tabHeight)
    ensures forall k :: 0 <= k < |cs| && !Culled(cs[k], scroll, tabHeight) ==> cs[k] in r
  {
    if cs == [] then []
    else
      var front := Visible(cs[..|cs| - 1], scroll, tabHeight);
      assert forall k :: 0 <= k < |cs| - 1 ==> cs[k] == cs[..|cs| - 1][k];
      var c := cs[|cs| - 1];
      if Culled(c, scroll, tabHeight) then front else front + [c]
  }

  /** Drawing a list in two parts draws the two parts in order. */
  lemma {:induction false} VisibleAppend(a: seq<Cmd>, b: seq<Cmd>, scroll: real, tabHeight: real)
    ensures Visible(a + b, scroll, tabHeight) == Visible(a, scroll, tabHeight) + Visible(b, scroll, tabHeight)
    decreases |b|
  {
    if b == [] {
      assert a + b == a;
    } else {
      var b0 := b[..|b| - 1];
      assert (a + b)[..|a + b| - 1] == a + b0;
      VisibleAppend(a, b0, scroll, tabHeight);
    }
  }

  class Tab {
    const tabHeight: real
    var url: Option<Client.Url>
    var history: seq<Client.Url>
    var scroll: Option<real>
    var nodes: Option<seq<Node>>
    var document: Option<Page>

    /** What every tab satisfies between operations: the URLs it holds are
        well formed, the pages are trees, `scroll` and `url` are set
        together, a page is only shown once the tab has loaded, and the
        scroll position lies between the top of the page and `max_y`. */
    ghost predicate Valid()
      reads this
    {
      && (url.Some? ==> Client.ValidUrl(url.value))
      && (forall k :: 0 <= k < |history| ==> Client.ValidUrl(history[k]))
      && (nodes.Some? ==> WellFormed(nodes.value))
      && (document.Some? ==> PageOk(document.value) && scroll.Some?)
      && scroll.Some? == url.Some?
      && (scroll.Some? ==> 0.0 <= scroll.value)
      && (scroll.Some? && document.Some? ==> scroll.value <= MaxY(Height(document.value), tabHeight))
    }

    /** `Tab(tab_height)`: no page and an empty history. */
    constructor (tabHeight: real)
      ensures Valid()
      ensures this.tabHeight == tabHeight && url == None && history == []
      ensures scroll == None && nodes == None && document == None
    {
      this.tabHeight := tabHeight;
      url := None;
      history := [];
      scroll := None;
      nodes := None;
      document := None;
    }

    /** `scrolldown`: one step down, but no further than `max_y`. */
    method ScrollDown() returns (raised: Option<TabError>)
      requires Valid()
      modifies this
      ensures Valid()
      ensures old(document).None? ==> raised == Some(NoDocument) && unchanged(this)
      ensures old(document).Some? ==>
        && raised == None
        && scroll == Some(ScrolledDown(old(scroll).value, MaxY(Height(old(document).value), tabHeight)))
        && url == old(url) && history == old(history) && nodes == old(nodes) && document == old(document)
    {
      if document.None? {
        return Some(NoDocument);
      }
      var maxY := MaxY(Height(document.value), tabHeight);
      scroll := Some(ScrolledDown(scroll.value, maxY));
      return None;
    }

    /** `scrollup`: one step up, but not above the top of the page. */
    method ScrollUp() returns (raised: Option<TabError>)
      requires Valid()
      modifies this
      ensures Valid()
      ensures old(scroll).None? ==> raised == Some(NotLoaded) && unchanged(this)
      ensures old(scroll).Some? ==>
        && raised == None && scroll == Some(ScrolledUp(old(scroll).value))
        && url == old(url) && history == old(history) && nodes == old(nodes) && document == old(document)
    {
      if scroll.None? {
        return Some(NotLoaded);
      }
      scroll := Some(ScrolledUp(scroll.value));
      return None;
    }

    /** `load(url)` of a page whose body the HTML parser turned into
        `parsed`: the tab scrolls to the top, shows `url` and records it in
        its history, and keeps the parsed DOM. Each stylesheet link is then
        resolved against `url`, and the `style` call that follows raises,
        so the page shown before (if any) stays in `document`. */
    method Load(u: Client.Url, parsed: seq<Node>) returns (raised: Option<TabError>)
      requires Valid() && Client.ValidUrl(u) && WellFormed(parsed)
      modifies this
      ensures Valid()
      ensures scroll == Some(0.0) && url == Some(u) && history == old(history) + [u]
      ensures nodes == Some(parsed) && document == old(document)
      ensures raised == Some(LoadError(u, parsed))
    {
      scroll := Some(0.0);
      url := Some(u);
      history := history + [u];
      nodes := Some(parsed);
      var e := LinksThenStyle(u, parsed);
      raised := Some(e);
    }

    /** `go_back`: with at least two pages in the history, drop the current
        one and load the one before it, which `load` records again; with
        fewer, do nothing. */
    method GoBack(parsed: seq<Node>) returns (raised: Option<TabError>)
      requires Valid() && WellFormed(parsed)
      modifies this
      ensures Valid()
      ensures |old(history)| <= 1 ==> raised == None && unchanged(this)
      ensures |old(history)| > 1 ==>
        var back := old(history)[|old(history)| - 2];
        && history == old(history)[..|old(history)| - 1] && url == Some(back)
        && scroll == Some(0.0) && nodes == Some(parsed) && document == old(document)
        && raised == Some(LoadError(back, parsed))
    {
      if |history| > 1 {
        ghost var h0 := history;
        history := history[..|history| - 1];
        var back := history[|history| - 1];
        history := history[..|history| - 1];
        assert history + [back] == h0[..|h0| - 1];
        assert Client.ValidUrl(back) && forall k :: 0 <= k < |history| ==> history[k] == h0[k];
        raised := Load(back, parsed);
      } else {
        raised := None;
      }
    }

    /** `click(x, y)` at a point of the tab: the point is moved to page
        coordinates by `scroll`, and the nearest `<a href>` above the last
        object hit is followed; `parsed` is the page its URL leads to. */
    method Click(x: real, y0: real, parsed: seq<Node>) returns (raised: Option<TabError>)
      requires Valid() && WellFormed(parsed)
      modifies this
      ensures Valid()
      ensures old(scroll).None? ==> raised == Some(NotLoaded) && unchanged(this)
      ensures old(scroll).Some? && old(document).None? ==> raised == Some(NoDocument) && unchanged(this)
      ensures old(scroll).Some? && old(document).Some? ==>
        var page := old(document).value;
        var target := ClickTarget(page, x, y0 + old(scroll).value);
        && (target.None? ==> raised == None && unchanged(this))
        && (target.Some? ==>
              target.value < |page.nodes| && IsAnchor(page.nodes[target.value]) &&
              match Client.Resolved(old(url).value, page.nodes[target.value].kind.attributes["href"])
              case Err(e) => raised == Some(BadLink(e)) && unchanged(this)
              case Ok(u) =>
                && scroll == Some(0.0) && url == Some(u) && history == old(history) + [u]
                && nodes == Some(parsed) && document == old(document)
                && raised == Some(LoadError(u, parsed)))
    {
      if scroll.None? {
        return Some(NotLoaded);
      }
      var y := y0 + scroll.value;
      if document.None? {
        return Some(NoDocument);
      }
      var page := document.value;
      var target := HitTest(page, x, y);
      if target.None? {
        return None;
      }
      var r := Client.Resolve(url.value, page.nodes[target.value].kind.attributes["href"]);
      if r.Err? {
        return Some(BadLink(r.error));
      }
      raised := Load(r.value, parsed);
    }

    /** `draw(canvas, offset)`: the commands of the display list that are
        not wholly outside the visible part of the page, in order, each to
        be executed shifted up by `scroll - offset`. */
    method Draw(offset: real) returns (raised: Option<TabError>, drawn: seq<Cmd>, shift: real)
      requires Valid()
      ensures document.None? ==> raised == Some(NoDocument) && drawn == []
      ensures document.Some? ==>
        && raised == None && scroll.Some?
        && drawn == Visible(document.value.displayList, scroll.value, tabHeight)
        && shift == scroll.value - offset
    {
      drawn, shift := [], 0.0;
      if document.None? {
        return Some(NoDocument), drawn, shift;
      }
      var cmds := document.value.displayList;
      shift := scroll.value - offset;
      var k := 0;
      while k < |cmds|
        invariant 0 <= k <= |cmds|
        invariant drawn == Visible(cmds[..k], scroll.value, tabHeight)
      {
        var cmd := cmds[k];
        assert cmds[..k + 1][..k] == cmds[..k];
        if !(cmd.rect.top > scroll.value + tabHeight) && !(cmd.rect.bottom < scroll.value) {
          drawn := drawn + [cmd];
        }
        k := k + 1;
      }
      assert cmds[..k] == cmds;
      raised := None;
    }
  }
}
