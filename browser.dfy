/** `browser.py`: the browser window's chrome (tab bar, back button and
    address bar) and the `Browser` object that routes input events to the
    chrome or to the active tab. Drawing to SDL and skia surfaces is not
    modelled; what is kept is which component handles an event, the state
    it changes and the exceptions the code raises on the way. */
module Browser {
  import opened Base
  import opened Draw
  import opened Dom
  import LayoutTree
  import Strings
  import Client
  import Tab

  /** `self.padding` of the chrome. */
  const PADDING: real := 5.0

  /** The two values that ever occupy a `focus` attribute besides `None`. */
  const ADDRESS_BAR: string := "Address Bar"
  const CONTENT: string := "content"

  /** The page a new tab opens. */
  const HOME: string := "https://browser.engineering/"
  const HOME_URL: Client.Url := Client.Url("https", "browser.engineering", 443, "/")

  /** `get_font(20, "normal", "roman")`; the font cache hands back the
      font for that key. */
  const CHROME_FONT: Font := Font(20, "normal", "roman")

  /** What an event handler can raise before it finishes. */
  datatype BrowserError =
    | NoActiveTab                 // `AttributeError`: `active_tab` is still `None`
    | TabFailed(tabError: Tab.TabError)
    | BadUrl(urlError: Client.UrlError)  // `URL(self.address_bar)` raised
    | NoTabKeypress               // `AttributeError`: `Tab` has no `keypress`
    | NoTabRaster                 // `AttributeError`: `Tab` has no `raster`
    | ExecuteArity                // `TypeError`: a `draw.py` command's `execute` takes two arguments

  /** The URL a new tab opens, as `URL(...)` parses it. */
  lemma HomeParses()
    ensures Client.Parse(HOME) == Ok(HOME_URL)
  {
    HomeSpelled();
    Client.ParseDefaultPort("https", "browser.engineering", "/");
  }

  lemma HomeSpelled()
    ensures HOME == "https" + "://" + "browser.engineering" + "/"
    ensures '/' !in "browser.engineering" && ':' !in "browser.engineering"
  {
  }

  /** What loading the home page raises. */
  function HomeLoadError(parsed: seq<Node>): (e: Tab.TabError)
    requires WellFormed(parsed)
    ensures Client.ValidUrl(HOME_URL) && e == Tab.LoadError(HOME_URL, parsed)
  {
    HomeParses();
    Tab.LoadError(HOME_URL, parsed)
  }

  /** `backspace`: `s[:-1]`, which leaves the empty string empty. */
  function DropLastChar(s: string): (r: string)
    ensures |s| > 0 ==> r + [s[|s| - 1]] == s
    ensures s == [] ==> r == []
  {
    if s == [] then s else s[..|s| - 1]
  }

  /** Typing a character and deleting it again gives back the bar's text. */
  lemma DeleteUndoesKeypress(s: string, c: char)
    ensures DropLastChar(s + [c]) == s
  {
    assert (s + [c])[..|s|] == s;
  }

  /** `0x20 <= ord(char) < 0x7f`: printable ASCII, space to tilde. */
  predicate Printable(c: char) {
    0x20 <= c as int < 0x7f
  }

  class Chrome {
    const m: FontMetrics
    const font: Font
    const fontHeight: real
    const tabbarTop: real
    const tabbarBottom: real
    const newtabRect: Rect
    const urlbarTop: real
    const urlbarBottom: real
    const backRect: Rect
    const addressRect: Rect
    const bottom: real
    var focus: Option<string>
    var addressBar: string

    /** The chrome's focus is either nothing or the address bar. */
    ghost predicate Valid()
      reads this
    {
      focus == None || focus == Some(ADDRESS_BAR)
    }

    /** `Chrome(browser)` with the font metrics `m`: the tab bar on top,
        one line plus padding high; below it the URL bar, of the same
        height, holding the back button and the address bar. The address
        rectangle's left edge is computed from the back button's TOP edge
        plus the padding, as written. */
    constructor (m: FontMetrics)
      ensures Valid() && focus == None && addressBar == ""
      ensures this.m == m && font == CHROME_FONT && fontHeight == m.linespace(CHROME_FONT)
      ensures tabbarTop == 0.0 && tabbarBottom == fontHeight + 2.0 * PADDING
      ensures newtabRect == Rect(PADDING, PADDING, PADDING + m.measure(font, "+") + 2.0 * PADDING, PADDING + fontHeight)
      ensures urlbarTop == tabbarBottom && urlbarBottom == urlbarTop + fontHeight + 2.0 * PADDING
      ensures backRect == Rect(PADDING, urlbarTop + PADDING, PADDING + m.measure(font, "<") + 2.0 * PADDING, urlbarBottom - PADDING)
      ensures addressRect == Rect(backRect.top + PADDING, urlbarTop + PADDING, LayoutTree.WIDTH - PADDING, urlbarBottom - PADDING)
      ensures bottom == urlbarBottom
    {
      this.m := m;
      font := CHROME_FONT;
      var h := m.linespace(CHROME_FONT);
      fontHeight := h;
      tabbarTop := 0.0;
      tabbarBottom := h + 2.0 * PADDING;
      var plusWidth := m.measure(CHROME_FONT, "+") + 2.0 * PADDING;
      newtabRect := Rect(PADDING, PADDING, PADDING + plusWidth, PADDING + h);
      urlbarTop := h + 2.0 * PADDING;
      urlbarBottom := h + 2.0 * PADDING + h + 2.0 * PADDING;
      var backWidth := m.measure(CHROME_FONT, "<") + 2.0 * PADDING;
      var backTop := h + 2.0 * PADDING + PADDING;
      backRect := Rect(PADDING, backTop, PADDING + backWidth, h + 2.0 * PADDING + h + 2.0 * PADDING - PADDING);
      addressRect := Rect(backTop + PADDING, h + 2.0 * PADDING + PADDING, LayoutTree.WIDTH - PADDING,
                          h + 2.0 * PADDING + h + 2.0 * PADDING - PADDING);
      bottom := h + 2.0 * PADDING + h + 2.0 * PADDING;
      focus := None;
      addressBar := "";
    }

    /** Where the first tab starts: just right of the new-tab button. */
    function TabStart(): real {
      newtabRect.right + PADDING
    }

    /** The width of every tab: the text "Tab X" plus padding. */
    function TabWidth(): real {
      m.measure(font, "Tab X") + 2.0 * PADDING
    }

    /** `tab_rect(i)`. */
    function TabRect(i: nat): (r: Rect)
      ensures r.top == tabbarTop && r.bottom == tabbarBottom
    {
      Rect(TabStart() + TabWidth() * (i as real), tabbarTop, TabStart() + TabWidth() * ((i + 1) as real), tabbarBottom)
    }

    /** The tabs tile the tab bar: each one ends where the next begins, the
        first starts after the new-tab button, and all are equally wide. */
    lemma TabsTile(i: nat)
      ensures TabRect(i).right == TabRect(i + 1).left
      ensures TabRect(0).left == newtabRect.right + PADDING
      ensures TabRect(i).right - TabRect(i).left == TabWidth()
    {
      assert TabWidth() * ((i + 1) as real) == TabWidth() * (i as real) + TabWidth();
    }

    /** A point inside one tab is inside no tab further right. */
    lemma TabRectsDisjoint(i: nat, j: nat, x: real, y: real)
      requires i < j && ContainsPoint(TabRect(i), x, y)
      ensures !ContainsPoint(TabRect(j), x, y)
    {
      var w := TabWidth();
      assert w * ((i + 1) as real) == w * (i as real) + w;
      assert w > 0.0;
      var d := (j - i - 1) as real;
      assert w * (j as real) == w * ((i + 1) as real) + w * d;
      assert w * d >= 0.0;
      assert x < TabRect(j).left;
    }

    /** The first of the tabs `0 .. n - 1` whose rectangle holds the point. */
    function FirstTabHit(n: nat, x: real, y: real): (r: Option<nat>)
      ensures r.Some? ==> r.value < n && ContainsPoint(TabRect(r.value), x, y)
      ensures r.Some? ==> forall j :: 0 <= j < r.value ==> !ContainsPoint(TabRect(j), x, y)
      ensures r.None? <==> forall j :: 0 <= j < n ==> !ContainsPoint(TabRect(j), x, y)
    {
      if n == 0 then None
      else
        var r := FirstTabHit(n - 1, x, y);
        if r.Some? then r
        else if ContainsPoint(TabRect(n - 1), x, y) then Some(n - 1)
        else None
    }

    /** The tab found is the only one under the point. */
    lemma OnlyTabHit(n: nat, x: real, y: real)
      requires FirstTabHit(n, x, y).Some?
      ensures forall j :: 0 <= j < n && j != FirstTabHit(n, x, y).value ==> !ContainsPoint(TabRect(j), x, y)
    {
      var i := FirstTabHit(n, x, y).value;
      forall j | i < j < n ensures !ContainsPoint(TabRect(j), x, y) {
        TabRectsDisjoint(i, j, x, y);
      }
    }

    /** The loop of `click` over `enumerate(self.browser.tabs)`, stopping at
        the first tab whose rectangle holds the point. */
    method TabAt(n: nat, x: real, y: real) returns (hit: Option<nat>)
      ensures hit == FirstTabHit(n, x, y)
    {
      var i := 0;
      while i < n && !ContainsPoint(TabRect(i), x, y)
        invariant 0 <= i <= n && FirstTabHit(i, x, y).None?
      {
        i := i + 1;
      }
      if i < n {
        hit := Some(i);
      } else {
        hit := None;
      }
    }

    /** `blur`. */
    method Blur()
      modifies this
      ensures Valid() && focus == None && addressBar == old(addressBar)
    {
      focus := None;
    }

    /** `keypress(char)`: with the address bar focused the character is
        appended to it and the event is handled; otherwise nothing changes. */
    method Keypress(c: char) returns (handled: bool)
      requires Valid()
      modifies this
      ensures Valid() && focus == old(focus)
      ensures handled <==> old(focus) == Some(ADDRESS_BAR)
      ensures handled ==> addressBar == old(addressBar) + [c]
      ensures !handled ==> addressBar == old(addressBar)
    {
      if focus == Some(ADDRESS_BAR) {
        addressBar := addressBar + [c];
        return true;
      }
      return false;
    }

    /** `delete`: with the address bar focused its last character goes;
        otherwise nothing changes. */
    method Delete()
      requires Valid()
      modifies this
      ensures Valid() && focus == old(focus)
      ensures old(focus) == Some(ADDRESS_BAR) ==> addressBar == DropLastChar(old(addressBar))
      ensures old(focus) != Some(ADDRESS_BAR) ==> addressBar == old(addressBar)
    {
      if focus == Some(ADDRESS_BAR) {
        addressBar := DropLastChar(addressBar);
      }
    }

    /** `enter` with `parsed` the page the typed URL leads to. Unfocused,
        it does nothing. Focused, `active_tab.load` is looked up first, then
        `URL(self.address_bar)` is built, and the load raises on every
        page, so the lines clearing both focuses are never reached. */
    method Enter(b: Browser, parsed: seq<Node>) returns (raised: Option<BrowserError>)
      requires Valid() && b.Valid() && b.chrome == this && WellFormed(parsed)
      modifies b.tabs
      ensures b.Valid() && unchanged(this) && unchanged(b)
      ensures old(focus) != Some(ADDRESS_BAR) ==> raised == None && forall k :: 0 <= k < |b.tabs| ==> unchanged(b.tabs[k])
      ensures old(focus) == Some(ADDRESS_BAR) && b.activeTab.None? ==> raised == Some(NoActiveTab)
      ensures old(focus) == Some(ADDRESS_BAR) && b.activeTab.Some? ==>
        var t := b.activeTab.value;
        match Client.Parse(addressBar)
        case Err(e) => raised == Some(BadUrl(e)) && unchanged(t)
        case Ok(u) =>
          && raised == Some(TabFailed(Tab.LoadError(u, parsed)))
          && t.scroll == Some(0.0) && t.url == Some(u) && t.history == old(t.history) + [u]
          && t.nodes == Some(parsed) && t.document == old(t.document)
      ensures forall k :: 0 <= k < |b.tabs| && (b.activeTab.None? || b.tabs[k] != b.activeTab.value) ==> unchanged(b.tabs[k])
    {
      if focus != Some(ADDRESS_BAR) {
        return None;
      }
      if b.activeTab.None? {
        return Some(NoActiveTab);
      }
      raised := Browser.EnterTab(b.activeTab.value, addressBar, parsed);
    }

    /** `click(x, y)` on the chrome, with `parsed` the page any load fetches.
        Focus is cleared first. The new-tab button opens a tab on the home
        page; the back button sends the active tab back; the address bar
        takes focus with its text cleared; anywhere else the first tab under
        the point becomes active. Every branch but the address bar's
        raises. */
    method Click(x: real, y: real, b: Browser, parsed: seq<Node>) returns (raised: Option<BrowserError>)
      requires Valid() && b.Valid() && b.chrome == this && WellFormed(parsed)
      modifies this, b, b.tabs
      ensures Valid() && b.Valid() && b.tabs == old(b.tabs) && b.focus == old(b.focus)
      ensures ContainsPoint(newtabRect, x, y) ==>
        && focus == None && addressBar == old(addressBar) && b.activeTab == old(b.activeTab)
        && raised == Some(TabFailed(HomeLoadError(parsed)))
      ensures !ContainsPoint(newtabRect, x, y) && ContainsPoint(backRect, x, y) ==>
        && focus == None && addressBar == old(addressBar) && b.activeTab == old(b.activeTab)
        && (b.activeTab.None? ==> raised == Some(NoActiveTab))
        && (b.activeTab.Some? ==>
              var h := old(b.activeTab.value.history);
              raised == Some(if |h| <= 1 then ExecuteArity else TabFailed(Tab.LoadError(h[|h| - 2], parsed))))
      ensures !ContainsPoint(newtabRect, x, y) && !ContainsPoint(backRect, x, y) && ContainsPoint(addressRect, x, y) ==>
        && focus == Some(ADDRESS_BAR) && addressBar == "" && raised == None && unchanged(b)
      ensures raised.None? <==>
        !ContainsPoint(newtabRect, x, y) && !ContainsPoint(backRect, x, y) && ContainsPoint(addressRect, x, y)
      ensures !ContainsPoint(newtabRect, x, y) && !ContainsPoint(backRect, x, y) && !ContainsPoint(addressRect, x, y) ==>
        var hit := FirstTabHit(|b.tabs|, x, y);
        && focus == None && addressBar == old(addressBar)
        && b.activeTab == (if hit.Some? then Some(b.tabs[hit.value]) else old(b.activeTab))
        && raised == Some(b.RasterTabFailure())
      ensures forall k :: 0 <= k < |b.tabs| && (old(b.activeTab).None? || b.tabs[k] != old(b.activeTab).value) ==>
        unchanged(b.tabs[k])
    {
      focus := None;
      if ContainsPoint(newtabRect, x, y) {
        var e := b.NewHomeTab(parsed);
        raised := Some(e);
      } else if ContainsPoint(backRect, x, y) {
        raised := GoBack(b, parsed);
      } else if ContainsPoint(addressRect, x, y) {
        focus := Some(ADDRESS_BAR);
        addressBar := "";
        raised := None;
      } else {
        raised := SelectTab(b, x, y);
      }
    }

    /** The back button: the active tab goes back; when it could, the load
        raises, and otherwise the repaint of the chrome does. */
    method GoBack(b: Browser, parsed: seq<Node>) returns (raised: Option<BrowserError>)
      requires b.Valid() && WellFormed(parsed)
      modifies b.tabs
      ensures b.Valid() && unchanged(b)
      ensures b.activeTab.None? ==> raised == Some(NoActiveTab)
      ensures b.activeTab.Some? ==>
        var t := b.activeTab.value;
        && (|old(t.history)| <= 1 ==> raised == Some(b.RasterChromeFailure()) && unchanged(t))
        && (|old(t.history)| > 1 ==>
              var back := old(t.history)[|old(t.history)| - 2];
              && t.history == old(t.history)[..|old(t.history)| - 1] && t.url == Some(back)
              && t.scroll == Some(0.0) && t.nodes == Some(parsed) && t.document == old(t.document)
              && raised == Some(TabFailed(Tab.LoadError(back, parsed))))
      ensures raised.Some?
      ensures forall k :: 0 <= k < |b.tabs| && (b.activeTab.None? || b.tabs[k] != b.activeTab.value) ==> unchanged(b.tabs[k])
    {
      if b.activeTab.None? {
        return Some(NoActiveTab);
      }
      raised := Browser.BackTab(b.activeTab.value, parsed);
      if raised.None? {
        raised := Some(b.RasterChromeFailure());
      }
    }

    /** A click on the tab bar: the first tab under the point becomes
        active, and repainting it raises. */
    method SelectTab(b: Browser, x: real, y: real) returns (raised: Option<BrowserError>)
      requires b.Valid()
      modifies b
      ensures b.Valid() && b.tabs == old(b.tabs) && b.focus == old(b.focus)
      ensures var hit := FirstTabHit(|b.tabs|, x, y);
        b.activeTab == (if hit.Some? then Some(b.tabs[hit.value]) else old(b.activeTab))
      ensures raised == Some(b.RasterTabFailure())
    {
      var hit := TabAt(|b.tabs|, x, y);
      if hit.Some? {
        b.activeTab := Some(b.tabs[hit.value]);
      }
      raised := Some(b.RasterTabFailure());
    }
  }

  class Browser {
    const chrome: Chrome
    var tabs: seq<Tab.Tab>
    var activeTab: Option<Tab.Tab>
    var focus: Option<string>

    /** The chrome's focus is in range, every tab is consistent, and the
        active tab is one of the tabs. */
    ghost predicate Valid()
      reads this, chrome, tabs
    {
      && chrome.Valid()
      && (forall k :: 0 <= k < |tabs| ==> tabs[k].Valid())
      && (activeTab.Some? ==> activeTab.value in tabs)
    }

    /** `Browser()` with the font metrics `m`: no tab yet, nothing focused. */
    constructor (m: FontMetrics)
      ensures Valid() && fresh(chrome) && chrome.focus == None && chrome.addressBar == ""
      ensures chrome.m == m && tabs == [] && activeTab == None && focus == None
    {
      chrome := new Chrome(m);
      tabs := [];
      activeTab := None;
      focus := None;
    }

    /** What `raster_chrome` raises, which it always does. `Chrome.paint`
        reads the active tab's URL unless the address bar has focus, and
        there may be no active tab; otherwise it returns its commands, and
        the first of them is a `draw.py` `DrawLine`, whose `execute` wants
        a scroll offset and a canvas but is given the canvas alone. */
    function RasterChromeFailure(): (r: BrowserError)
      reads this, chrome
      ensures r == NoActiveTab <==> chrome.focus != Some(ADDRESS_BAR) && activeTab.None?
      ensures r != NoActiveTab ==> r == ExecuteArity
    {
      if chrome.focus != Some(ADDRESS_BAR) && activeTab.None? then NoActiveTab else ExecuteArity
    }

    /** What `raster_tab` raises, which it always does: there is no active
        tab, or it has no `document`, or else `Tab` has no `raster`. */
    function RasterTabFailure(): (r: BrowserError)
      reads this, if activeTab.Some? then {activeTab.value} else {}
      ensures r == NoActiveTab <==> activeTab.None?
      ensures r == TabFailed(Tab.NoDocument) <==> activeTab.Some? && activeTab.value.document.None?
      ensures r == NoTabRaster <==> activeTab.Some? && activeTab.value.document.Some?
    {
      if activeTab.None? then NoActiveTab
      else if activeTab.value.document.None? then TabFailed(Tab.NoDocument)
      else NoTabRaster
    }

    /** `new_tab(url)` with `parsed` the page at `url`: a tab as tall as the
        window below the chrome is made and loads the page, and the load
        raises, so the tab is neither added nor made active. */
    method NewTab(u: Client.Url, parsed: seq<Node>) returns (raised: BrowserError)
      requires Client.ValidUrl(u) && WellFormed(parsed)
      ensures raised == TabFailed(Tab.LoadError(u, parsed))
    {
      var t := new Tab.Tab(LayoutTree.HEIGHT - chrome.bottom);
      var e := t.Load(u, parsed);
      raised := TabFailed(e.value);
    }

    /** `new_tab(URL("https://browser.engineering/"))`. */
    method NewHomeTab(parsed: seq<Node>) returns (raised: BrowserError)
      requires WellFormed(parsed)
      ensures raised == TabFailed(HomeLoadError(parsed))
    {
      HomeParses();
      raised := NewTab(HOME_URL, parsed);
    }

    /** The last two steps of `new_tab`, reached once a load returns: the
        tab is appended and becomes the active tab. */
    method AddTab(t: Tab.Tab)
      requires Valid() && t.Valid()
      modifies this
      ensures Valid() && tabs == old(tabs) + [t] && activeTab == Some(t) && focus == old(focus)
    {
      tabs := tabs + [t];
      activeTab := Some(t);
    }

    /** `handle_key(char)`: characters outside printable ASCII are ignored;
        with the chrome focused the key goes to the address bar, and the
        repaint of the chrome raises; with the content focused the tab is
        asked to handle it, which it cannot. */
    method HandleKey(c: char) returns (raised: Option<BrowserError>)
      requires Valid()
      modifies chrome
      ensures Valid()
      ensures !Printable(c) ==> raised == None && unchanged(chrome)
      ensures Printable(c) && old(chrome.focus).Some? ==>
        && chrome.focus == old(chrome.focus) && chrome.addressBar == old(chrome.addressBar) + [c]
        && raised == Some(ExecuteArity)
      ensures Printable(c) && old(chrome.focus).None? ==>
        && unchanged(chrome)
        && raised == (if focus != Some(CONTENT) then None else if activeTab.None? then Some(NoActiveTab) else Some(NoTabKeypress))
    {
      if !Printable(c) {
        return None;
      }
      if chrome.focus.Some? {
        var _ := chrome.Keypress(c);
        raised := Some(RasterChromeFailure());
      } else if focus == Some(CONTENT) {
        raised := if activeTab.None? then Some(NoActiveTab) else Some(NoTabKeypress);
      } else {
        raised := None;
      }
    }

    /** `handle_enter`: passed to the chrome when it has focus; `enter`
        then always raises, so the repaints after it are not reached. */
    method HandleEnter(parsed: seq<Node>) returns (raised: Option<BrowserError>)
      requires Valid() && WellFormed(parsed)
      modifies tabs
      ensures Valid() && unchanged(this) && unchanged(chrome)
      ensures chrome.focus.None? ==> raised == None && forall k :: 0 <= k < |tabs| ==> unchanged(tabs[k])
      ensures chrome.focus.Some? ==> raised.Some?
    {
      if chrome.focus.Some? {
        raised := chrome.Enter(this, parsed);
      } else {
        raised := None;
      }
    }

    /** `handle_delete`. */
    method HandleDelete()
      requires Valid()
      modifies chrome
      ensures Valid() && chrome.focus == old(chrome.focus)
      ensures old(chrome.focus) == Some(ADDRESS_BAR) ==> chrome.addressBar == DropLastChar(old(chrome.addressBar))
      ensures old(chrome.focus) != Some(ADDRESS_BAR) ==> chrome.addressBar == old(chrome.addressBar)
    {
      chrome.Delete();
    }

    /** `handle_down`: the active tab scrolls down. */
    method HandleDown() returns (raised: Option<BrowserError>)
      requires Valid()
      modifies tabs
      ensures Valid() && unchanged(this)
      ensures activeTab.None? ==> raised == Some(NoActiveTab)
      ensures activeTab.Some? ==>
        var t := activeTab.value;
        && (old(t.document).None? ==> raised == Some(TabFailed(Tab.NoDocument)) && unchanged(t))
        && (old(t.document).Some? ==>
              && raised == None
              && t.scroll == Some(Tab.ScrolledDown(old(t.scroll).value, Tab.MaxY(Tab.Height(old(t.document).value), t.tabHeight))))
      ensures forall k :: 0 <= k < |tabs| && (activeTab.None? || tabs[k] != activeTab.value) ==> unchanged(tabs[k])
    {
      if activeTab.None? {
        return Some(NoActiveTab);
      }
      var e := activeTab.value.ScrollDown();
      raised := if e.Some? then Some(TabFailed(e.value)) else None;
    }

    /** `handle_up`: the active tab scrolls up. */
    method HandleUp() returns (raised: Option<BrowserError>)
      requires Valid()
      modifies tabs
      ensures Valid() && unchanged(this)
      ensures activeTab.None? ==> raised == Some(NoActiveTab)
      ensures activeTab.Some? ==>
        var t := activeTab.value;
        && (old(t.scroll).None? ==> raised == Some(TabFailed(Tab.NotLoaded)) && unchanged(t))
        && (old(t.scroll).Some? ==> raised == None && t.scroll == Some(Tab.ScrolledUp(old(t.scroll).value)))
      ensures forall k :: 0 <= k < |tabs| && (activeTab.None? || tabs[k] != activeTab.value) ==> unchanged(tabs[k])
    {
      if activeTab.None? {
        return Some(NoActiveTab);
      }
      var e := activeTab.value.ScrollUp();
      raised := if e.Some? then Some(TabFailed(e.value)) else None;
    }

    /** `handle_click` at window coordinates, with `parsed` the page any
        load fetches. Above `chrome.bottom` the click clears the browser's
        focus and goes to the chrome, whose address bar is then repainted;
        below it, it goes to the content area. */
    method HandleClick(x: real, y: real, parsed: seq<Node>) returns (raised: Option<BrowserError>)
      requires Valid() && WellFormed(parsed)
      modifies this, chrome, tabs
      ensures Valid() && tabs == old(tabs)
      ensures y < chrome.bottom ==> focus == None && raised.Some?
      ensures (y < chrome.bottom && ContainsPoint(chrome.addressRect, x, y) && !ContainsPoint(chrome.newtabRect, x, y)
               && !ContainsPoint(chrome.backRect, x, y)) ==>
        && raised == Some(ExecuteArity)
        && chrome.focus == Some(ADDRESS_BAR) && chrome.addressBar == "" && activeTab == old(activeTab)
      ensures y >= chrome.bottom ==>
        && focus == old(focus) && activeTab == old(activeTab) && chrome.addressBar == old(chrome.addressBar)
        && (activeTab.None? ==> raised == Some(NoActiveTab))
    {
      if y < chrome.bottom {
        focus := None;
        raised := chrome.Click(x, y, this, parsed);
        if raised.None? {
          raised := Some(RasterChromeFailure());
        }
      } else {
        raised := ClickContent(x, y, parsed);
      }
    }

    /** The content branch of `handle_click`: the browser's focus is kept.
        A focused content area blurs the chrome and repaints it, which
        raises; otherwise the click goes to the active tab. */
    method ClickContent(x: real, y: real, parsed: seq<Node>) returns (raised: Option<BrowserError>)
      requires Valid() && WellFormed(parsed)
      modifies chrome, tabs
      ensures Valid() && chrome.addressBar == old(chrome.addressBar)
      ensures focus == Some(CONTENT) ==>
        && chrome.focus == None && raised == Some(if activeTab.None? then NoActiveTab else ExecuteArity)
        && forall k :: 0 <= k < |tabs| ==> unchanged(tabs[k])
      ensures focus != Some(CONTENT) ==> chrome.focus == old(chrome.focus)
      ensures activeTab.None? ==> raised == Some(NoActiveTab)
      ensures forall k :: 0 <= k < |tabs| && (activeTab.None? || tabs[k] != activeTab.value) ==> unchanged(tabs[k])
    {
      if focus == Some(CONTENT) {
        chrome.Blur();
        return Some(RasterChromeFailure());
      }
      raised := ClickTab(x, y, parsed);
    }

    /** The click passed on to the active tab with `y` made relative to the
        top of the tab. The address bar is repainted only when the tab's URL
        changed, which only a load does, and a load raises first; what is
        left is the tab's repaint, which raises too. */
    method ClickTab(x: real, y: real, parsed: seq<Node>) returns (raised: Option<BrowserError>)
      requires Valid() && WellFormed(parsed)
      modifies tabs
      ensures Valid()
      ensures activeTab.None? ==> raised == Some(NoActiveTab)
      ensures activeTab.Some? ==>
        var t := activeTab.value;
        && (old(t.scroll).None? ==> raised == Some(TabFailed(Tab.NotLoaded)) && unchanged(t))
        && (old(t.scroll).Some? && old(t.document).None? ==> raised == Some(TabFailed(Tab.NoDocument)) && unchanged(t))
        && (old(t.scroll).Some? && old(t.document).Some? ==>
              var target := Tab.ClickTarget(old(t.document).value, x, y - chrome.bottom + old(t.scroll).value);
              && (target.None? ==> raised == Some(NoTabRaster) && unchanged(t))
              && (target.Some? ==> raised.Some? && raised.value.TabFailed?))
      ensures forall k :: 0 <= k < |tabs| && (activeTab.None? || tabs[k] != activeTab.value) ==> unchanged(tabs[k])
    {
      if activeTab.None? {
        return Some(NoActiveTab);
      }
      var t := activeTab.value;
      raised := TabClick(t, x, y - chrome.bottom, parsed);
      if raised.None? {
        raised := Some(RasterTabFailure());
      }
    }

    /** `active_tab.load(URL(text))` with what it raises lifted to a
        browser error: a malformed address raises before the tab changes. */
    static method EnterTab(t: Tab.Tab, text: string, parsed: seq<Node>) returns (raised: Option<BrowserError>)
      requires t.Valid() && WellFormed(parsed)
      modifies t
      ensures t.Valid()
      ensures match Client.Parse(text)
        case Err(e) => raised == Some(BadUrl(e)) && unchanged(t)
        case Ok(u) =>
          && raised == Some(TabFailed(Tab.LoadError(u, parsed)))
          && t.scroll == Some(0.0) && t.url == Some(u) && t.history == old(t.history) + [u]
          && t.nodes == Some(parsed) && t.document == old(t.document)
    {
      var r := Client.Parse(text);
      if r.Err? {
        return Some(BadUrl(r.error));
      }
      var e := t.Load(r.value, parsed);
      raised := Some(TabFailed(e.value));
    }

    /** `active_tab.go_back()` with what it raises lifted to a browser
        error; `None` when the history is too short and nothing changed. */
    static method BackTab(t: Tab.Tab, parsed: seq<Node>) returns (raised: Option<BrowserError>)
      requires t.Valid() && WellFormed(parsed)
      modifies t
      ensures t.Valid()
      ensures |old(t.history)| <= 1 ==> raised == None && unchanged(t)
      ensures |old(t.history)| > 1 ==>
        var back := old(t.history)[|old(t.history)| - 2];
        && t.history == old(t.history)[..|old(t.history)| - 1] && t.url == Some(back)
        && t.scroll == Some(0.0) && t.nodes == Some(parsed) && t.document == old(t.document)
        && raised == Some(TabFailed(Tab.LoadError(back, parsed)))
    {
      var e := t.GoBack(parsed);
      if e.Some? {
        raised := Some(TabFailed(e.value));
      } else {
        raised := None;
      }
    }

    /** `tab.click(x, y)` with what it raises lifted to a browser error;
        `None` when the click found no link and changed nothing. */
    static method TabClick(t: Tab.Tab, x: real, y: real, parsed: seq<Node>) returns (raised: Option<BrowserError>)
      requires t.Valid() && WellFormed(parsed)
      modifies t
      ensures t.Valid()
      ensures old(t.scroll).None? ==> raised == Some(TabFailed(Tab.NotLoaded)) && unchanged(t)
      ensures old(t.scroll).Some? && old(t.document).None? ==> raised == Some(TabFailed(Tab.NoDocument)) && unchanged(t)
      ensures old(t.scroll).Some? && old(t.document).Some? ==>
        var target := Tab.ClickTarget(old(t.document).value, x, y + old(t.scroll).value);
        && (target.None? ==> raised == None && unchanged(t))
        && (target.Some? ==> raised.Some? && raised.value.TabFailed?)
    {
      var e := t.Click(x, y, parsed);
      if e.Some? {
        raised := Some(TabFailed(e.value));
      } else {
        raised := None;
      }
    }
  }
}
