# A verified model of a small browser engine

This project models the core of a small web browser written in Python: URL
parsing and resolution, a CSS parser and cascade, the layout tree (blocks,
lines, words and inputs), the paint tree and its visual effects, tab
scrolling, history and hit-testing, the browser chrome (tab strip and address
bar), and the handle table that a page's JavaScript uses to name DOM nodes.
Each Python module has a Dafny module of the same purpose, and every
operation carries a contract, checked by Dafny, about what it computes.

## Design

- **One module per source file.** `client.dfy` is `client.py`,
  `css_parser.dfy` and `css_style.dfy` are the parser and the cascade of
  `css_parser.py`, and so on. `base.dfy` and `strings.dfy` hold
  dictionary lookups and the Python string operations the code relies on
  (`split`, `strip`, `casefold`, `find`, `int`, `str`). `dom.dfy` holds the
  `Element`/`Text` records, and `tag_selector.dfy` the selectors.
- **The DOM is an arena.** The nodes of a page are a `seq<Node>`, and a node
  is named by its index. Parents come before their children, children point
  back to their parent, and text nodes are leaves (`Dom.WellFormed`).
  Python compares nodes by identity, and the index plays that part.
- **The layout tree is an arena too.** Class `LayoutTree.Tree` holds
  `boxes` (kind, node, `parent`, `previous`, `children`) and a parallel
  `geo` (`x`, `y`, `width`, `height`, `cursor_x`, `font`). The layout
  methods of `block_layout.dfy`, `line_layout.dfy`, `text_layout.dfy`,
  `input_layout.dfy` and `document_layout.dfy` update that object in place,
  as the Python methods update their objects' fields. Each method is proved
  against a pure function of the old state.
- **Fonts are uninterpreted.** `Draw.FontMetrics` is a record of functions:
  the width of a string, ascent, descent, linespace, and the point size that
  `int(float(px[:-2]) * 0.75)` gives. Every layout property holds for any
  metrics.
- **The outside world comes in as parameters.** Examples are the page that
  a URL leads to (`parsed`, already parsed into nodes), Python's `float` on
  style strings (`toFloat`, `Numerics`), and the JavaScript interpreter
  (`run`).
- **Exceptions are values.** Every place the Python raises is a case of a
  `Result`, an `Option` or an error datatype (`UrlError`, `StyleError`,
  `TabError`, `JsError`, `BrowserError`), so the error paths are modelled
  and stated like the others.
- **Classes where the source mutates.** These are `CssParser.Parser` (the
  cursor `i`), `Tab.Tab`, `Browser.Chrome`, `Browser.Browser`,
  `JsContext.JsContext`, `Helpers.FontCache`, `Compositing.CompositedLayer`,
  `Compositing.NumericAnimation` and `TokenLayout.Layout`. Pure code
  (`map_translation`, `parse_blend_mode`, `contains_point`, `tab_rect`,
  `layout_mode`) is functions over datatypes.

### Where the code and its description differ

Where the code can run, the model follows it as written. Where it names
something that does not exist, the model gives the name the meaning stated
here:

- **`URL` is not defined.** `tab.py:2` and `browser.py:9` import `URL` from
  `client`, but `client.py:5` defines only `Client`. The model reads every
  `URL(...)` as `Client(...)`, that is `Client.Parse`.
- **`linespace` and `parse_color` are not in `helpers.py`.** `browser.py:7`
  and `input_layout.py:3` import `linespace`, and `compositing.py:2` imports
  `parse_color`. `linespace(font)` is `FontMetrics.linespace`. `parse_color`
  is used only while drawing, which is left out.
- **`DrawRRect` is not in `draw.py`.** `blend.py:2`, `block_layout.py:3` and
  `input_layout.py:1` import it, but `draw.py` defines no such class. The
  model adds `Cmd.DrawRRect(rect, radius, color)`, a command whose rectangle
  is `rect`.
- **Two font interfaces.** `get_font` returns a tkinter `Font`
  (`helpers.py:27-36`), which has `measure` and `metrics`. Yet `browser.py`,
  `block_layout.py:104` and `:115` and `input_layout.py:40` and `:91` call
  skia's `measureText` on it. `FontMetrics.measure` stands for both.
- **`raster_chrome` always raises.** `Chrome.paint` reads the active tab's URL
  (`browser.py:398`) unless the address bar has focus, and there may be no
  active tab. Otherwise its first command is a `DrawLine`, whose `execute`
  takes a scroll offset and a canvas (`draw.py:106`), but `browser.py:196`
  passes the canvas alone. `Browser.Browser.RasterChromeFailure` says which
  of the two errors comes, and typing into the address bar, clicking it and
  a short back history all end in that error.

- **`Tab.load` always raises.** `tab.py:130` calls `style(nodes, rules)`,
  but `style` takes three parameters (`css_parser.py:206`). So `load`
  raises a `TypeError` once it has updated `scroll`, `url`, `history` and
  `nodes`. As a consequence:
  - `new_tab` never appends its tab;
  - `Chrome.enter` never clears the two focuses;
  - following a link ends in that error.
- **`raster_tab` always raises.** `Tab` has no `raster` method, or no
  `document` yet, or there is no active tab. Every path that repaints the
  tab therefore ends in an error, and `Browser.Browser.RasterTabFailure`
  says which one.
- **`innerHTML_set` raises after the splice.** It calls `self.tab.render()`,
  which `Tab` does not define. The splice itself is modelled and proved.
- **The address rectangle's left edge** is computed from the back button's
  *top* edge plus the padding (`browser.py:316`). It is kept as written.
- **The focus of the content area is never set** to `"content"`
  (`browser.py:100-101` only tests it). The click route keeps whatever the
  browser's focus already was.
- **Opacity transitions raise.** `css_parser.py:253` calls
  `tab.set_needs_render()`, which nothing defines, before the animation is
  made. The model raises `OpacityTransition` there. The node keeps the new
  style written so far (`CssStyle.NewStyleTransition`).
- **`DescendantSelector`** is not part of the sources. It is given its usual
  meaning: the descendant part matches the node and the ancestor part
  matches some proper ancestor, with the sum of the two priorities.

## Model

| member | source | states |
|---|---|---|
| Base.Get | src/blend.py:59-60 | `dict.get(key, default)`: the stored value for a present key, the default for a missing one |
| Base.Lookup | src/js_context.py:81-82 | `dict.get(key)`: `Some` exactly when the key is present, holding its value |
| Strings.FoldChar | src/css_parser.py:80 | `casefold` on one character leaves no upper-case ASCII letter and changes nothing else (ASCII only, see Left out) |
| Strings.CaseFold | src/css_parser.py:132 | folds each character in place with `FoldChar`, so the length is kept (ASCII only, see Left out) |
| Strings.Split1 | src/client.py:8 | `s.split(sep, 1)` unpacked into two names fails exactly when `sep` does not occur; otherwise the two sides glue back to `s` around the first occurrence |
| Strings.Split1Concat | src/client.py:14 | splitting at the first occurrence gives back the two sides |
| Strings.IndexFrom | src/client.py:11 | the first occurrence at or after a position, with no earlier one; `None` when there is none |
| Strings.LastIndexOf | src/client.py:90 | the position of the last occurrence of a character, with none after it |
| Strings.IndexOfAfter | src/client.py:8 | a separator whose first character is absent from the prefix is first found right after the prefix |
| Strings.StripLeft | src/css_parser.py:80 | `lstrip` returns a suffix that starts with a non-space character |
| Strings.StripLeftDropsSpace | src/css_parser.py:80 | `lstrip` removes only whitespace |
| Strings.StripRight | src/css_parser.py:80 | `rstrip` returns a prefix that ends with a non-space character |
| Strings.Strip | src/css_parser.py:80 | `strip` returns no more than its argument, with no whitespace at either end |
| Strings.StripKeeps | src/css_parser.py:80 | every character `strip` keeps comes from its argument |
| Strings.SplitWords | src/block_layout.py:52 | `str.split()` yields non-empty runs of non-whitespace |
| Strings.WordPrefix | src/block_layout.py:52 | the longest prefix without whitespace, ending at whitespace or the end |
| Strings.SplitOn | src/css_parser.py:197 | `str.split(c)` yields at least one piece and none contains the separator |
| Strings.SplitOnJoins | src/css_parser.py:197 | joining the pieces of `split(c)` with `c` gives the string back |
| Strings.NatToString | src/client.py:102-103 | `str(n)` is a non-empty string of digits |
| Strings.IntToString | src/client.py:102-103 | `str(n)` is the digits of `n`, after a minus sign when `n` is negative, with no whitespace at either end |
| Strings.ParseInt | src/client.py:26 | `int(s)` succeeds exactly when `s`, stripped of whitespace, is an optional `+` or `-` followed by digits with single underscores between them; a `-` gives a value of at most 0, otherwise the value is at least 0 |
| Strings.ReadInt | src/client.py:26 | the same grammar and signs, on text without surrounding whitespace |
| Strings.Ungrouped | src/client.py:26 | dropping the underscores of digit groups leaves only digits, and changes nothing in a run of digits |
| Strings.DigitGroupsChars | src/client.py:26 | digit groups hold only digits and underscores |
| Strings.ParseIntIgnoresSpace | src/client.py:26 | whitespace around the number does not change what `int` reads |
| Strings.ParseIntSigns | src/client.py:26 | a `-` before the digits negates their value and a `+` keeps it |
| Strings.ParseIntUnderscore | src/client.py:26 | `int("8_0") == 80` |
| Strings.ParseIntBadUnderscores | src/client.py:26 | `int("8__0")` and `int("80_")` raise |
| Strings.ParseIntToString | src/client.py:26 | `int(str(n)) == n` for every integer `n` |
| Strings.DigitsOfNat | src/client.py:102-103 | the digits `str(n)` writes have the value `n` |
| Strings.DropLast | src/block_layout.py:217 | `s[:-n]` is the prefix of `s` that is `n` characters shorter, or empty when `s` is shorter than `n` |
| Client.Parse | src/client.py:7-26 | a URL without `://` is rejected; a parsed URL has scheme http or https and a path that starts with a slash |
| Client.ParseAfterScheme | src/client.py:11-15 | for a supported scheme, whatever is parsed after `://` is a valid URL |
| Client.HostAndPort | src/client.py:17-26 | the port step yields only valid URLs; what it reads is stated by `HostAndPortReadsInt` |
| Client.ParseSplitsScheme | src/client.py:8-9 | `scheme://rest` with a supported scheme is parsed from the part after `://` |
| Client.ParseRejectsOtherSchemes | src/client.py:9 | any scheme other than http and https is rejected |
| Client.ParseAfterSchemeSplitsHost | src/client.py:11-15 | the host runs to the first slash and the path is the rest, slash included |
| Client.HostAndPortReadsInt | src/client.py:24-26 | the text after the first colon is read as `int` reads it: a number becomes the port and is cut off the host, and any other text raises `BadPort` |
| Client.ParsePortText | src/client.py:7-26 | `scheme://host:text/path` parses to that host and path with the port `int(text)`, or to `BadPort(text)` where `int` raises |
| Client.IntToStringChars | src/client.py:102-103 | `str(port)` holds no slash and no colon |
| Client.ParseExplicitPort | src/client.py:7-26 | `scheme://host:port/path`, with the port written by `str`, parses to exactly that host, port and path, for every integer port |
| Client.ParseDefaultPort | src/client.py:17-21 | without a port, http gets 80 and https 443 |
| Client.ParseHostOnly | src/client.py:11-12 | a URL naming only a host gets the path `/` |
| Client.HostPortHasNoSlash | src/client.py:14 | `host:text` has no slash when neither the host nor the text has one |
| Client.UpDir | src/client.py:93-94 | climbing a directory yields a prefix of it |
| Client.DirOf | src/client.py:90 | the directory of a path is a prefix of the path |
| Client.JoinRelative | src/client.py:89-96 | a path-relative reference joined to a rooted directory starts with a slash |
| Client.Resolved | src/client.py:81-103 | every URL `resolve` produces is valid |
| Client.Resolve | src/client.py:81-103 | equals `Resolved`; an absolute URL is parsed afresh, a `//` reference takes the current scheme, a root-relative one keeps scheme, host and port, and a path-relative one is joined to the current directory first |
| Client.ClientFor | src/client.py:98-103 | a `//` reference takes the current scheme; any other path keeps scheme, host and port |
| Client.JoinPath | src/client.py:89-96 | the `../` loop computes `JoinRelative` |
| Client.Split1Last | src/client.py:93-94 | `dir.rsplit("/", 1)[0]` equals `UpDir` when `dir` has a slash |
| Client.SchemeRelativeKeepsScheme | src/client.py:98-99 | a scheme-relative reference keeps the page's scheme, and at worst fails on a bad port |
| Client.SlashesZero | src/client.py:93 | a path has no slashes exactly when `/` does not occur in it |
| Client.SlashesOfLastPrefix | src/client.py:94 | cutting at the last slash removes exactly one slash |
| Client.UpDirRemovesOneSegment | src/client.py:91-94 | each `../` removes one directory, and at the root it changes nothing |
| Client.JoinRelativeClimbs | src/client.py:91-96 | `n` leading `../` climb `n` directories but never past the root |
| Draw.ContainsPoint | src/draw.py:42-48 | a rectangle that contains a point has positive width and height |
| Draw.MakeXYWH | src/compositing.py:316-317 | `MakeXYWH` has the given width and height |
| Draw.Join | src/compositing.py:18-19 | skia's `join`: an empty argument changes nothing, an empty receiver takes the argument, otherwise the result covers both |
| Draw.JoinIsLeast | src/compositing.py:18-19 | whatever covers both rectangles covers their join |
| Draw.JoinRectsCovers | src/compositing.py:14-19 | the joined rectangle covers the first one and every non-empty child rectangle; with only empty children it is the first one |
| Draw.JoinRectsIsLeast | src/compositing.py:14-19 | the joined rectangle is the smallest that covers them all |
| Draw.RectsOf | src/blend.py:14-15 | the rectangles of a command list, one per command in order |
| Draw.MaximumIsMax | src/line_layout.py:41 | `max` bounds every element and is one of them |
| Draw.MakeDrawText | src/draw.py:5-14 | the text box starts at the given corner, is as wide as the measured text and one line high, and `bottom` is its bottom edge |
| Draw.MakeDrawLine | src/draw.py:98-103 | the line keeps its two end points as the rectangle's corners |
| Helpers.Preorder | src/helpers.py:49-58 | the list `tree_to_list` builds starts with the root and holds only nodes of its subtree |
| Helpers.Forest | src/helpers.py:55-56 | the children's subtrees hold only nodes below the parent |
| Helpers.ForestSnoc | src/helpers.py:55-56 | one more child appends exactly that child's subtree |
| Helpers.ForestMembers | src/helpers.py:55-56 | a node is in the children's subtrees exactly when it is in one child's subtree |
| Helpers.PreorderHasParents | src/helpers.py:49-58 | every listed node other than the root is a child of a listed node |
| Helpers.SubtreeOfChild | src/helpers.py:55-56 | every child of the root is listed |
| Helpers.SubtreeTransitive | src/helpers.py:49-58 | a subtree contains the subtree of each of its nodes |
| Helpers.SiblingsDisjoint | src/helpers.py:55-56 | in a tree, the subtrees of two different children share no node |
| Helpers.PreorderDistinct | src/helpers.py:49-58 | in a tree, `tree_to_list` lists every node once |
| Helpers.ForestDistinct | src/helpers.py:55-56 | the subtrees of the first `n` children list no node twice |
| Helpers.DistinctConcat | src/helpers.py:55-56 | two disjoint lists without repetitions concatenate to one without repetitions |
| Helpers.TreeToList | src/helpers.py:49-58 | appends the nodes of the tree to the list in preorder, root first |
| Helpers.PaintAll | src/helpers.py:16-24 | nothing to paint yields nothing; one node yields its own paint output; the first node's output comes first |
| Helpers.PaintAllAppend | src/helpers.py:16-24 | painting two node lists one after the other concatenates their output |
| Helpers.PaintTree | src/helpers.py:16-24 | extends the display list with each layout object's `paint()` output, in preorder |
| Helpers.FontCache.constructor | src/helpers.py:4 | the cache starts empty |
| Helpers.FontCache.GetFont | src/helpers.py:27-46 | returns the cached font for the key; a missing key is filled with the font for that key and no entry is evicted or replaced |
| Dom.Kids | src/element.py:1-8 | the children table lists each node's `children` |
| Dom.WellFormedParts | src/element.py:2-5 | a well-formed arena has parents before children, children that point back, and text leaves |
| Dom.PartsWellFormed | src/element.py:2-5 | those parts plus one parent per child make a well-formed arena |
| Dom.SameShapeKids | src/element.py:7 | restyling keeps the children table and well-formedness |
| Dom.Arena.constructor | src/element.py:1-8 | an arena holds exactly the given nodes |
| Selectors.Priority | src/tag_selector.py:5-7 | a tag selector has priority 1; a descendant selector counts both parts and so has at least 2 |
| Selectors.TextNeverMatches | src/tag_selector.py:10-15 | a Text node never matches a tag selector |
| Selectors.ElementMatchesIffTag | src/tag_selector.py:10-15 | an Element matches exactly when its tag equals the selector's tag |
| Selectors.MatchDependsOnlyOnTag | src/tag_selector.py:10-15 | two nodes with the same kind and tag match alike |
| Selectors.TagSelectorMatches | src/tag_selector.py:10-15 | in the arena, a tag selector matches exactly the Elements with that tag |
| Selectors.MatchesIgnoresStyle | src/tag_selector.py:10-15 | restyling an arena changes nothing that any selector matches |
| Selectors.AncestorIgnoresStyle | src/tag_selector.py:10-15 | restyling changes no ancestor match either |
| Blending.ParseBlendMode | src/blend.py:36-55 | `multiply`, `difference`, `destination-in` and `source-over` give their own modes; every other value, and no value, gives source-over |
| Blending.ParseModeName | src/blend.py:42-52 | each mode is recognised by its own CSS name |
| Blending.NewBlend | src/blend.py:6-15 | keeps opacity, blend mode and children; `should_save` holds exactly when a blend mode is given or the opacity is below 1; the rectangle is the empty rectangle joined with every child's |
| Blending.BlendRectIsUnion | src/blend.py:12-15 | the blend's rectangle covers every non-empty child, is covered by whatever covers them all, and is empty without non-empty children |
| Blending.PaintVisualEffects | src/blend.py:58-77 | one blend over the commands with the parsed opacity; with `overflow: clip` a destination-in blend of one white rounded rectangle is appended and the blend mode defaults to source-over; a bad opacity or border radius raises before anything is appended |
| Compositing.AnyNeedsCompositing | src/compositing.py:26-28 | true exactly when some `Transform` child needs compositing |
| Compositing.NewTransform | src/compositing.py:13-28 | keeps translation, own rectangle, node and children; the rectangle is the given one joined with each child's; `needs_compositing` is the `any` over the children |
| Compositing.Clone | src/compositing.py:213-219 | the same translation, rectangle and node over the one child, with the rectangle joined again |
| Compositing.NeverNeedsCompositing | src/compositing.py:26-28 | in a tree built by these constructors no `Transform` needs compositing |
| Compositing.Sort | src/compositing.py:308 | skia's `sort` puts the edges in order and leaves ordered rectangles alone |
| Compositing.MapTranslation | src/compositing.py:290-308 | no translation returns the rectangle itself; otherwise every edge moves by `(x, y)`, or by `(-x, -y)` when reversed |
| Compositing.UnmapAfterMap | src/compositing.py:290-308 | the reversed translation undoes the translation |
| Compositing.TransformRoundTrip | src/compositing.py:222-235 | `unmap(map(r)) == r` |
| Compositing.ParseTransform | src/compositing.py:279-280 | no translation exactly when the value lacks `translate(` |
| Compositing.Chain | src/compositing.py:352-354 | every parent on the chain comes earlier and is a `Transform` |
| Compositing.ToAbsoluteAlongChain | src/compositing.py:334-340 | walking up the parents maps the rectangle by each parent, nearest first |
| Compositing.UnmapFromMapAlong | src/compositing.py:356-357 | unmapping in reverse order undoes the mapping |
| Compositing.LocalAbsoluteRoundTrip | src/compositing.py:328-359 | `absolute_to_local(item, local_to_absolute(item, r)) == r` |
| Compositing.LocalToAbsolute | src/compositing.py:328-342 | the loop maps by each parent up the chain |
| Compositing.AbsoluteToLocal | src/compositing.py:345-359 | collects the parent chain, then unmaps from the farthest parent down |
| Compositing.CompositedLayer.constructor | src/compositing.py:37-41 | the new layer holds exactly the given item, and its parent is that item's parent |
| Compositing.CompositedLayer.CanMerge | src/compositing.py:109-117 | an item can merge exactly when it has the layer's parent |
| Compositing.CompositedLayer.Add | src/compositing.py:99-106 | appends a mergeable item and keeps every item's parent equal to the layer's |
| Compositing.CompositedLayer.RoundTrips | src/compositing.py:51-53 | one rectangle per item |
| Compositing.CompositedLayer.ItemRects | src/compositing.py:51-53 | each item's own rectangle |
| Compositing.CompositedLayer.AbsoluteRects | src/compositing.py:126-127 | one page rectangle per item |
| Compositing.CompositedLayer.RoundTripsAreItemRects | src/compositing.py:51-53 | the round trip to the page and back gives each item's own rectangle |
| Compositing.CompositedLayer.CompositedBounds | src/compositing.py:44-57 | the join of the round-tripped item rectangles, grown by one on every side |
| Compositing.CompositedLayer.AbsoluteBounds | src/compositing.py:120-128 | the join of the items' page rectangles |
| Compositing.InterpolateEnds | src/compositing.py:168-180 | the animation starts at the old value, reaches the new value at the last frame, and moves by the same step each frame |
| Compositing.NumericAnimation.Create | src/compositing.py:159-169 | `float` of the old value and then of the new one raises on text it cannot read; then zero frames raise on the division; otherwise a fresh animation keeps both values and the frame count, and its counter starts at 1 |
| Compositing.NumericAnimation.Animate | src/compositing.py:172-182 | counts one more frame; from the last frame on there is no value, before it the interpolated one |
| CssParser.SkipSpace | src/css_parser.py:27-28 | `whitespace` never moves the cursor backwards or past the end |
| CssParser.SkipSpaceSkips | src/css_parser.py:27-28 | `whitespace` skips exactly the run of whitespace ahead of the cursor |
| CssParser.WordEnd | src/css_parser.py:39-50 | the loop of `word` never moves backwards or past the end |
| CssParser.WordEndStops | src/css_parser.py:39-50 | a word holds only letters, digits, `,/#-.%()"'` and quoted colons, and stops at a character that no quoting state accepts |
| CssParser.WordF | src/css_parser.py:31-55 | `word` fails without moving exactly when the first character cannot start a word; otherwise it returns the non-empty slice it read |
| CssParser.UntilEnd | src/css_parser.py:117-124 | the scan stops at a character in the stop set, or at the end, never before the cursor |
| CssParser.UntilEndFirst | src/css_parser.py:180-181 | no stop character comes before the place the scan reaches |
| CssParser.PairF | src/css_parser.py:69-80 | a successful `pair` consumes input and stops at a stop character or the end |
| CssParser.PairValue | src/css_parser.py:76-80 | after the name, a successful `pair` stops at a stop character and keeps the name |
| CssParser.PairSteps | src/css_parser.py:75-80 | a word, `:` and the rest up to a stop character give the folded name and the stripped value |
| CssParser.PairNameStep | src/css_parser.py:75-76 | `pair` continues after the word and the whitespace with the folded name |
| CssParser.PairValueStep | src/css_parser.py:77-80 | after `:` and whitespace, the value is the stripped text up to a stop character |
| CssParser.StripKeepsOut | src/css_parser.py:80 | a stripped value holds no stop character that the raw value lacked |
| CssParser.BodyF | src/css_parser.py:83-108 | `body` stops at `}` or at the end of the text |
| CssParser.Store | src/css_parser.py:93 | `pairs[prop] = value` for a pair that was read; nothing otherwise |
| CssParser.BodyStep | src/css_parser.py:89-106 | one turn of `body` stores its pair, then goes on or stops |
| CssParser.BodyTurn | src/css_parser.py:91-106 | a turn that goes on consumes input; one that stops is at `}` or the end |
| CssParser.AfterPair | src/css_parser.py:93-106 | after `pair`, the turn keeps the pair and either moves on past a `;` or stops at `}` or the end |
| CssParser.Recover | src/css_parser.py:98-106 | a malformed pair is skipped to the next `;`, and after `}` or the end the loop stops |
| CssParser.BodyAccumulates | src/css_parser.py:88-108 | pairs collected before are only overridden by the pairs read later |
| CssParser.TurnAccumulates | src/css_parser.py:89-106 | the same after a single turn |
| CssParser.BodyAccumulatesOn | src/css_parser.py:93 | the same after one stored pair |
| CssParser.UpdateThenUnion | src/css_parser.py:93 | storing a pair and then the rest equals storing the pair into the rest |
| CssParser.SelectorRest | src/css_parser.py:134-138 | the loop of `selector` stops at `{` or the end |
| CssParser.FoldedWord | src/css_parser.py:132 | a folded non-empty word holds no upper-case letter |
| CssParser.SelectorF | src/css_parser.py:127-140 | a selector consumes input and stops at `{` or the end |
| CssParser.RuleF | src/css_parser.py:153-159 | the `try` block of `parse` that reads a rule consumes input |
| CssParser.RuleHead | src/css_parser.py:153-156 | reading up to `{` is successful only if it consumed input |
| CssParser.RuleHeadSteps | src/css_parser.py:153-156 | the head of a rule is whitespace, a selector, `{` and whitespace |
| CssParser.RuleBody | src/css_parser.py:157-159 | after `{`, the rule has the selector read and consumes its `}` |
| CssParser.Keep | src/css_parser.py:159 | `rules.append(rule)` for a rule that was read |
| CssParser.ParseTurn | src/css_parser.py:150-168 | every turn of `parse` that goes on moves forward, so `parse` terminates |
| CssParser.AfterRule | src/css_parser.py:161-168 | a failed rule is skipped past the next `}`; parsing ends only when there is none |
| CssParser.PairClean | src/css_parser.py:75-80 | `pair` returns a folded name and a stripped value that holds no stop character |
| CssParser.PairValueClean | src/css_parser.py:78-80 | the value part holds no stop character |
| CssParser.BodyClean | src/css_parser.py:83-108 | every property of a body has a folded name and a clean value |
| CssParser.LaterPairOverrides | src/css_parser.py:92-93 | a later pair for the same property overrides an earlier one |
| CssParser.SelectorRestChain | src/css_parser.py:134-138 | each further word makes the selector read so far the ancestor of a new folded tag selector |
| CssParser.RuleWellFormed | src/css_parser.py:153-159 | a rule that parses has a chain of folded tag selectors and a clean body |
| CssParser.ParseWellFormed | src/css_parser.py:143-170 | `parse` returns well-formed rules only |
| CssParser.ParseOrder | src/css_parser.py:150-159 | the first rule read comes first, before the rules read after it |
| CssParser.ParseStep | src/css_parser.py:150-168 | one turn of `parse` keeps its rule, then goes on or stops |
| CssParser.ParseAccumulates | src/css_parser.py:148-170 | rules collected earlier stay in front, in order |
| CssParser.ParseKeepsFront | src/css_parser.py:159 | the same with any front part |
| CssParser.MalformedRuleSkipped | src/css_parser.py:161-168 | a rule that does not parse is skipped up to and including the next `}` and the whitespace after it; without such a brace parsing ends |
| CssParser.Parser.constructor | src/css_parser.py:17-19 | the cursor starts at 0 on the given text |
| CssParser.Parser.Whitespace | src/css_parser.py:22-28 | the cursor moves to `SkipSpace` |
| CssParser.Parser.Word | src/css_parser.py:31-55 | the result and the new cursor are `WordF` |
| CssParser.Parser.Literal | src/css_parser.py:58-66 | advances exactly one place when the next character is the literal; otherwise fails and leaves the cursor alone |
| CssParser.Parser.Pair | src/css_parser.py:69-80 | the result and the new cursor are `PairF` |
| CssParser.Parser.Body | src/css_parser.py:83-108 | the pairs and the new cursor are `BodyF` from an empty dict |
| CssParser.Parser.BodyTurnStep | src/css_parser.py:91-106 | one loop turn of `body` is `BodyTurn` |
| CssParser.Parser.AfterPairStep | src/css_parser.py:93-96 | the rest of a turn of `body` after `pair` is `AfterPair` |
| CssParser.Parser.RecoverStep | src/css_parser.py:98-106 | the `except` branch of `body` is `Recover` |
| CssParser.Parser.IgnoreUntil | src/css_parser.py:111-124 | the cursor stops at the first stop character or the end, and that character is returned, or `None` at the end |
| CssParser.Parser.Selector | src/css_parser.py:127-140 | the selector and the new cursor are `SelectorF` |
| CssParser.Parser.Rule | src/css_parser.py:153-159 | the `try` block of `parse` is `RuleF` |
| CssParser.Parser.RuleHeadStep | src/css_parser.py:153-156 | the head of the `try` block is `RuleHead` |
| CssParser.Parser.RuleTail | src/css_parser.py:157-159 | the tail of the `try` block is `RuleBody` |
| CssParser.Parser.Parse | src/css_parser.py:143-170 | the rules returned are `ParseF` from an empty list |
| CssParser.Parser.ParseTurnStep | src/css_parser.py:150-168 | one loop turn of `parse` is `ParseTurn` |
| CssParser.Parser.UntilChars | src/css_parser.py:173-183 | the cursor stops at the first stop character or the end, and the slice read is returned |
| CssStyle.WellFormedParents | src/element.py:5 | in a well-formed arena every parent index names a node or is -1 |
| CssStyle.SameShapeParents | src/css_parser.py:212 | restyling keeps the parent indices in range |
| CssStyle.SameShapeTransitive | src/css_parser.py:259-260 | restyling twice is restyling |
| CssStyle.InheritFrom | src/css_parser.py:215-219 | the copy raises only for a name missing from the source |
| CssStyle.InheritFromCopies | src/css_parser.py:215-219 | the copy succeeds exactly when every name is present; it then takes each named value from the source and keeps the rest |
| CssStyle.FirstMissing | src/css_parser.py:215-219 | the position of the first name missing from the source: every name before it is present |
| CssStyle.InheritWrittenPrefix | src/css_parser.py:211-219 | the copy stops at the first missing name and raises for it; by then it has written exactly the names before it, each with the source's value |
| CssStyle.InheritedFromParent | src/css_parser.py:215-219 | each inherited property is the parent's value, or the default at the root; the loop raises exactly for a parent that lacks one of them, and writes nothing else |
| CssStyle.LastMatchingRuleWins | src/css_parser.py:222-225 | a property is set by the last matching rule that names it, and keeps its earlier value when no matching rule names it |
| CssStyle.ResolveFontSize | src/css_parser.py:236-245 | only the font size may change, and a font size without `%` is kept |
| CssStyle.TransitionItemsNames | src/css_parser.py:197-201 | the loop of `parse_transition` succeeds exactly when every item reads, and then names exactly the properties of its items |
| CssStyle.NamedCons | src/css_parser.py:199-201 | a first item reading as `prop` adds exactly `prop` to what the rest names |
| CssStyle.NamedTail | src/css_parser.py:199-201 | a property other than the first item's is named exactly when the rest names it |
| CssStyle.NoTransitionValue | src/css_parser.py:195 | a missing or empty `transition` value gives no transitions |
| CssStyle.DiffF | src/css_parser.py:279-291 | the diff holds exactly the properties named in the transitions, present in both styles and with different values, each with old value, new value and frame count |
| CssStyle.CheckTransitions | src/css_parser.py:248-256 | the check leaves the style as computed or raises, and a node without an old style passes |
| CssStyle.StyleHasInherited | src/css_parser.py:215-219 | a computed style holds the four inherited properties |
| CssStyle.InlineStyleWins | src/css_parser.py:229-233 | a property of the `style` attribute other than the font size keeps the attribute's value |
| CssStyle.RulesDecide | src/css_parser.py:222-225 | without an inline value, the last matching rule naming the property wins |
| CssStyle.NewStyleComputed | src/css_parser.py:211-256 | when `style` returns, the node holds the computed style |
| CssStyle.MissingOnlyFromInherited | src/css_parser.py:215-219 | only the loop over the inherited properties raises `MissingInherited` |
| CssStyle.NewStyleMissingInherited | src/css_parser.py:211-219 | when the parent lacks an inherited property, the node holds the parent's values of the properties before it, and nothing else |
| CssStyle.NewStyleBadFontSize | src/css_parser.py:221-244 | when the percent conversion raises, the node's font size is still a percentage and its inline properties are written |
| CssStyle.NewStyleTransition | src/css_parser.py:247-253 | when the transition check raises, it raises on the complete new style, which the node holds |
| CssStyle.StyleOne | src/css_parser.py:211-256 | styling one node raises exactly when its computed style does, gives the node the new style or what was written of it before the raise, and changes nothing else |
| CssStyle.StyleFold | src/css_parser.py:259-260 | styling several nodes keeps the tree's shape, whether it raises or not |
| CssStyle.StyleFoldKeeps | src/css_parser.py:259-260 | styling a list of nodes leaves every other node as it was |
| CssStyle.StyleFoldStyles | src/css_parser.py:215-219 | when styling a list of nodes raises nothing, each of them holds the four inherited properties |
| CssStyle.StyleFoldAppend | src/css_parser.py:259-260 | styling `a` and then `b` is styling `a + b`; a raise in `a` stops it with the nodes as they are then |
| CssStyle.CascadePriority | src/css_parser.py:263-268 | the priority of the rule's selector: 1 for a tag selector, the sum of both parts for a descendant selector |
| CssStyle.Update | src/css_parser.py:224-225 | writing each pair of a body over a style gives the style overridden by the body |
| CssStyle.ParseTransition | src/css_parser.py:186-203 | the loop computes `TransitionsF` |
| CssStyle.DiffStyles | src/css_parser.py:271-291 | raises where `parse_transition` raises; otherwise the diff of the two styles over the transitions read |
| CssStyle.DiffLoop | src/css_parser.py:279-289 | the loop computes `DiffF` |
| CssStyle.InheritedStep | src/css_parser.py:215-219 | the loop computes `InheritedF`, and returns what it has written when it stops |
| CssStyle.RulesStep | src/css_parser.py:222-225 | the loop computes `ApplyRules` |
| CssStyle.InlineStep | src/css_parser.py:229-233 | the style is overridden by the pairs of the `style` attribute |
| CssStyle.FontSizeStep | src/css_parser.py:236-245 | the conversion computes `ResolveFontSize` |
| CssStyle.TransitionStep | src/css_parser.py:248-256 | the loop computes `CheckTransitions` |
| CssStyle.StyleNode | src/css_parser.py:211-256 | the arena becomes `StyleOne`'s result on every path: node `i` holds the new style, or what was written of it before the raise |
| CssStyle.Style | src/css_parser.py:206-260 | styles the whole subtree in preorder, stopping at the first exception with the nodes as they are at that point, and keeps the tree's shape |
| CssStyle.StyleChildren | src/css_parser.py:259-260 | styles the children's subtrees in order |
| CssStyle.StyleChild | src/css_parser.py:260 | styles one child's subtree and leaves the rest to the following children |
| Tab.MaxY | src/tab.py:36 | `max_y` is at least 0 and at least `height + 2*VSTEP - tab_height`, and equal to one of them |
| Tab.ScrolledDown | src/tab.py:37 | `scrolldown` never goes past `max_y`; from a position in range it moves down by at most `SCROLL_STEP` |
| Tab.ScrolledUp | src/tab.py:45 | `scrollup` never makes `scroll` negative and moves up by at most `SCROLL_STEP` |
| Tab.ScrollStaysInRange | src/tab.py:31-45 | a position in `[0, max_y]` stays there after one step either way, and moves by at most `SCROLL_STEP` |
| Tab.ScrollTimes | src/tab.py:31-45 | `n` steps down reach `min(scroll + n*SCROLL_STEP, max_y)`, and `n` steps up reach `max(scroll - n*SCROLL_STEP, 0)` |
| Tab.StylesheetLinks | src/tab.py:109-114 | no more links than nodes, and none exactly when no node is a stylesheet link |
| Tab.FirstBadLink | src/tab.py:118-119 | `None` exactly when every link resolves; otherwise the error of a link that does not |
| Tab.FirstBadLinkStep | src/tab.py:118-119 | checking links from `k` on is checking link `k`, then the rest |
| Tab.LinksThenStyle | src/tab.py:109-130 | after the state updates, `load` raises the first link error, or the `TypeError` of the `style` call |
| Tab.ResolveAll | src/tab.py:118-125 | the loop resolves the links in order, up to the first that raises |
| Tab.Hits | src/tab.py:56-58 | the objects whose closed box contains the point, in preorder: each one hit, and none exactly when no box contains the point |
| Tab.LastHit | src/tab.py:56-61 | the last hit is the latest object in preorder whose box contains the point |
| Tab.AncestorsOrSelf | src/tab.py:63-71 | the node followed by its parents up to the root |
| Tab.NearestAnchor | src/tab.py:63-71 | the walk up stops at an `<a href>` at or above the node |
| Tab.NoNearestAnchor | src/tab.py:63-71 | the walk finds nothing exactly when no node on the way to the root is an `<a href>` |
| Tab.NearestAnchorIsFirst | src/tab.py:63-71 | the walk stops at the first `<a href>` on the way to the root |
| Tab.NoAnchorCons | src/tab.py:64-71 | a node that is not an anchor, followed by a path without anchors, makes a path without anchors |
| Tab.ClickTarget | src/tab.py:54-67 | the target of a click is an `<a href>` element of the page |
| Tab.HitTest | src/tab.py:56-71 | the hit test and the walk up compute `ClickTarget` |
| Tab.WalkUp | src/tab.py:63-71 | the loop up the parent chain computes `NearestAnchor` |
| Tab.Visible | src/tab.py:80-88 | `draw` runs exactly the commands not lying wholly below or above the visible part, in display-list order |
| Tab.VisibleAppend | src/tab.py:80-88 | drawing a list in two parts draws the parts in order |
| Tab.Tab.constructor | src/tab.py:21-28 | a new tab has no URL, no page and an empty history |
| Tab.Tab.ScrollDown | src/tab.py:31-37 | without a page, raises and changes nothing; otherwise `scroll` moves one step down, never past `max_y`, and nothing else changes |
| Tab.Tab.ScrollUp | src/tab.py:40-45 | before any load, raises and changes nothing; otherwise `scroll` moves one step up, never below 0, and nothing else changes |
| Tab.Tab.Load | src/tab.py:91-130 | `scroll` becomes 0, `url` the URL and the URL is appended to `history`; the page's DOM is kept and the call raises at the `style` call, leaving the shown page as it was |
| Tab.Tab.GoBack | src/tab.py:141-149 | with at most one entry nothing changes; otherwise the history loses exactly its last entry, ends with the previous URL, and that URL is loaded |
| Tab.Tab.Click | src/tab.py:48-71 | `y` is shifted by `scroll`; the nearest `<a href>` above the last object hit is resolved and loaded; a miss changes nothing, and an unresolvable link raises before any change |
| Tab.Tab.Draw | src/tab.py:74-88 | without a page it raises; otherwise the visible commands in order, shifted by `scroll - offset` |
| JsContext.ExtendsTrans | src/js_context.py:97-100 | handing out handles in turn keeps every earlier entry |
| JsContext.WithHandleOk | src/js_context.py:91-105 | `get_handle` keeps the two dictionaries mutual inverses over `0 .. n-1` and keeps every entry; the handle names the node both ways; a node seen before keeps its handle, and a new node gets the number of nodes handled before it |
| JsContext.NewHandleOk | src/js_context.py:97-100 | a new node gets handle `len(node_to_handle)` and the table stays a bijection onto the handles in use |
| JsContext.HandlesBelow | src/js_context.py:98 | every handle in use is below the number of handled nodes |
| JsContext.WithHandleIdempotent | src/js_context.py:97-105 | asking twice for the same node's handle gives the same answer and changes nothing the second time |
| JsContext.HandlesDistinct | src/js_context.py:97-105 | two different nodes never share a handle |
| JsContext.WithHandles | src/js_context.py:67 | one handle per node asked for |
| JsContext.WithHandlesTable | src/js_context.py:67 | the table stays a bijection that keeps every earlier entry |
| JsContext.WithHandlesOk | src/js_context.py:67 | each handle returned names the node asked for at its place |
| JsContext.NamesSnoc | src/js_context.py:67 | one more `get_handle` keeps the earlier handles naming their nodes and names the new one |
| JsContext.EventHandle | src/js_context.py:111 | -1 exactly for an element without a handle; otherwise the handle that names the element |
| JsContext.MatchesElement | src/js_context.py:64-65 | a selector matches only elements |
| JsContext.Matching | src/js_context.py:64-65 | exactly the nodes of the list the selector matches, in list order |
| JsContext.MatchedHandlesElements | src/js_context.py:64-67 | handing out handles for matched nodes keeps every handle on an element of the page |
| JsContext.HandlesOfElements | src/js_context.py:67 | handles given to elements name elements |
| JsContext.Offset | src/js_context.py:128-129 | each index moves up by the offset |
| JsContext.ShiftAll | src/js_context.py:128-129 | each fragment node is moved to its place in the page's arena |
| JsContext.SetParents | src/js_context.py:137-138 | exactly the listed nodes get the new parent; the others are unchanged |
| JsContext.SetParentsSnoc | src/js_context.py:137-138 | setting one more parent updates exactly that node |
| JsContext.Placed | src/js_context.py:128-135 | the page grows by the fragment's nodes |
| JsContext.Splice | src/js_context.py:128-138 | the page grows by the fragment's nodes |
| JsContext.SpliceAt | src/js_context.py:135-138 | node by node: the element has the new children, old nodes are unchanged, fragment nodes are moved up, and fragment roots have the element as parent |
| JsContext.SpliceIsSplice | src/js_context.py:135-138 | the splice is that, at every node |
| JsContext.SpliceWellFormed | src/js_context.py:119-138 | splicing under an element of a well-formed page leaves a well-formed page, with the old children detached |
| JsContext.SpliceParts | src/js_context.py:135-138 | the spliced page has parents before children, children pointing back, and text leaves |
| JsContext.SpliceNodesOk | src/js_context.py:135-138 | every node of the spliced page is consistent with its parent and children |
| JsContext.SpliceEltOk | src/js_context.py:135 | the element is consistent with its new children |
| JsContext.SpliceOldOk | src/js_context.py:135-138 | an old node other than the element stays consistent |
| JsContext.SpliceNewOk | src/js_context.py:137-138 | a fragment node is consistent in its new place |
| JsContext.SpliceKidsDistinct | src/js_context.py:135-138 | no node of the spliced page lists a child twice |
| JsContext.SpliceKeepsElements | src/js_context.py:119-138 | splicing keeps every handle on an element |
| JsContext.JsContext.constructor | src/js_context.py:13-39 | the context starts with two empty dictionaries for its tab |
| JsContext.JsContext.GetHandle | src/js_context.py:91-105 | the dictionaries and the handle are `WithHandle` of the old ones |
| JsContext.JsContext.QuerySelectorAll | src/js_context.py:54-71 | a bad selector raises and without a page it raises; otherwise the handles of exactly the matching nodes, in preorder, with the table extended for them |
| JsContext.JsContext.GetHandles | src/js_context.py:67 | the loop computes `WithHandles` |
| JsContext.JsContext.ParseSelector | src/js_context.py:61 | `CSSParser(selector_text).selector()` is `SelectorF` |
| JsContext.JsContext.MatchAll | src/js_context.py:64-65 | the preorder nodes of the page that match, in order |
| JsContext.JsContext.GetAttribute | src/js_context.py:74-88 | an unknown handle raises; otherwise `""` exactly when the attribute is missing or empty, and its value otherwise |
| JsContext.JsContext.DispatchEvent | src/js_context.py:108-116 | the script runs with the element's handle, or -1, and the result is the negation of what it returns |
| JsContext.JsContext.InnerHtmlSet | src/js_context.py:119-145 | an unknown handle raises and changes nothing; otherwise the element's children become the fragment's roots, each with the element as parent, nothing else of the tab changes, and the `render` call raises |
| JsContext.JsContext.SpliceHandled | src/js_context.py:132-138 | the splice of a well-formed page is well formed and keeps the handles on elements |
| JsContext.JsContext.SpliceInto | src/js_context.py:135-138 | computes `Splice` step by step |
| JsContext.JsContext.SetParentsOf | src/js_context.py:137-138 | the loop computes `SetParents` |
| Browser.HomeParses | src/browser.py:416 | the home URL parses, and to the URL it spells |
| Browser.HomeSpelled | src/browser.py:416 | the home URL is scheme, `://`, host and path `/`, and the host holds no `/` or `:` |
| Browser.HomeLoadError | src/browser.py:416 | the home URL is valid and what loading it raises is what any load of it raises |
| Browser.DropLastChar | src/browser.py:467-468 | `s[:-1]` gives back all but the last character, and the empty string stays empty |
| Browser.DeleteUndoesKeypress | src/browser.py:439-469 | typing a character and deleting it gives back the bar's text |
| Browser.Chrome.constructor | src/browser.py:285-321 | the geometry of the tab bar and URL bar: new-tab button, back button and address bar, the address bar's left edge taken from the back button's top |
| Browser.Chrome.TabRect | src/browser.py:324-334 | every tab spans the tab bar from top to bottom |
| Browser.Chrome.TabsTile | src/browser.py:324-334 | tabs are equally wide, the first starts after the new-tab button, and each ends where the next begins |
| Browser.Chrome.TabRectsDisjoint | src/browser.py:324-334 | a point inside a tab is inside no tab further right |
| Browser.Chrome.FirstTabHit | src/browser.py:431-434 | the first tab holding the point, and `None` exactly when no tab holds it |
| Browser.Chrome.OnlyTabHit | src/browser.py:431-434 | the tab found is the only one under the point |
| Browser.Chrome.TabAt | src/browser.py:431-434 | the loop finds `FirstTabHit` |
| Browser.Chrome.Blur | src/browser.py:337-342 | no focus afterwards; the bar's text is kept |
| Browser.Chrome.Keypress | src/browser.py:439-449 | handled exactly when the address bar has focus, and then the character is appended; otherwise nothing changes |
| Browser.Chrome.Delete | src/browser.py:462-468 | with the address bar focused its last character goes; otherwise nothing changes |
| Browser.Chrome.Enter | src/browser.py:451-460 | unfocused it does nothing; without a tab it raises; a malformed address raises and leaves the tab alone; otherwise the tab records the URL in its history, scrolls to the top, takes the page, and raises; no other tab changes |
| Browser.Chrome.Click | src/browser.py:407-437 | focus is cleared first; the new-tab button raises the home page's load error; the back button raises what going back raises; the address bar takes focus with an empty text and is the only branch that does not raise; elsewhere the first tab under the point becomes active and repainting raises; only the active tab can change |
| Browser.Chrome.GoBack | src/browser.py:419-422 | with a history of one page nothing changes and the repaint of the chrome raises; otherwise the last page is dropped, the one before is loaded and the load raises |
| Browser.Chrome.SelectTab | src/browser.py:430-436 | the first tab under the point becomes active, or the active tab is kept, and repainting raises |
| Browser.Browser.constructor | src/browser.py:20-48 | no tabs, no active tab, nothing focused, an empty address bar |
| Browser.Browser.RasterChromeFailure | src/browser.py:185-196 | `raster_chrome` always raises: `NoActiveTab` exactly when there is no active tab and the address bar is not focused, and otherwise the arity error of the first command's `execute` |
| Browser.Browser.RasterTabFailure | src/browser.py:168-182 | always raises: no active tab, no document, or no `raster` on the tab, each exactly in its case |
| Browser.Browser.NewTab | src/browser.py:262-273 | the new tab's load raises what loading that URL raises |
| Browser.Browser.NewHomeTab | src/browser.py:416 | opening the home page raises what loading it raises |
| Browser.Browser.AddTab | src/browser.py:269-270 | the tab is appended and becomes active |
| Browser.Browser.HandleKey | src/browser.py:123-143 | a non-printable key is ignored; with the chrome focused the key is appended to the address bar and the repaint raises; otherwise it raises exactly when the content is focused |
| Browser.Browser.HandleEnter | src/browser.py:146-156 | unfocused chrome: nothing happens; focused: the enter raises |
| Browser.Browser.HandleDelete | src/browser.py:159-165 | with the address bar focused its last character goes; otherwise nothing changes |
| Browser.Browser.HandleDown | src/browser.py:64-70 | without a document it raises; otherwise the active tab scrolls down, clamped to the page's end, and no other tab changes |
| Browser.Browser.HandleUp | src/browser.py:73-79 | without a loaded page it raises; otherwise the active tab scrolls up, not above the top, and no other tab changes |
| Browser.Browser.HandleClick | src/browser.py:82-120 | above the chrome's bottom the browser loses focus and the click raises; a click on the address bar focuses it with empty text and then raises at the repaint; below it the browser's focus, active tab and address bar are kept |
| Browser.Browser.ClickContent | src/browser.py:98-118 | a focused content area blurs the chrome and the repaint raises, with no tab changed; otherwise the click goes to the active tab; no other tab changes |
| Browser.Browser.ClickTab | src/browser.py:108-118 | the click is passed on with `y` relative to the tab; it raises without a page or document; no hit raises the tab's repaint; a hit on a link raises from the load |
| Browser.Browser.EnterTab | src/browser.py:457 | a malformed address raises and changes nothing; a valid one is recorded in the history and the load raises |
| Browser.Browser.BackTab | src/browser.py:421 | a short history changes nothing; otherwise the last page is dropped and the previous one is loaded, which raises |
| Browser.Browser.TabClick | src/browser.py:111 | without a page or document it raises and changes nothing; no link hit changes nothing; a link hit raises |
| TokenLayout.Ascents | src/layout.py:39-40 | one ascent per word of the line, that of its font |
| TokenLayout.Descents | src/layout.py:39-50 | one descent per word of the line, that of its font |
| TokenLayout.PlaceLine | src/layout.py:45-47 | each word keeps its x and hangs from the baseline by its own font's ascent |
| TokenLayout.FlushPlacesLine | src/layout.py:30-55 | flushing keeps what was displayed, appends the line's words in order with their x and a common baseline 1.25 times the largest ascent below the cursor, empties the line, returns to the left margin, keeps the style, and never moves the cursor up for fonts with non-negative metrics |
| TokenLayout.FlushEmptyIsNoOp | src/layout.py:36 | flushing an empty line changes nothing |
| TokenLayout.WordBreaks | src/layout.py:97-106 | a word that reaches `WIDTH - HSTEP` flushes a non-empty line and starts the new one at the left margin; otherwise it is appended at the cursor; either way the cursor moves past the word and one space |
| TokenLayout.TagsKeepLayout | src/layout.py:58-95 | a tag other than `br` and `/p` leaves the display list, the line and the cursor alone; `i`, `/i`, `b` and `/b` set only the slant or the weight, and an unknown tag changes nothing |
| TokenLayout.SizeTagsBalance | src/layout.py:77-87 | `small` lowers the size by 2 and `big` raises it by 4, and each closing tag undoes its opening tag exactly |
| TokenLayout.ParagraphEndAddsSpace | src/layout.py:92-94 | `/p` flushes and then moves down by `VSTEP` |
| TokenLayout.TokensKeepDisplayed | src/layout.py:23-24 | the display list only grows: a placed word is never taken back |
| TokenLayout.TokenKeepsDisplayed | src/layout.py:58-94 | one token never takes back a placed word |
| TokenLayout.WordsKeepDisplayed | src/layout.py:62-63 | the words of a text token never take back a placed word |
| TokenLayout.Layout.constructor | src/layout.py:13-27 | the fields are those of the start state after every token and a final flush |
| TokenLayout.Layout.Flush | src/layout.py:30-55 | the fields become `FlushF` of the old ones |
| TokenLayout.Layout.PlaceWords | src/layout.py:45-47 | the loop places the line as `PlaceLine` does |
| TokenLayout.Layout.Token | src/layout.py:58-94 | the fields become `TokenF` of the old ones |
| TokenLayout.Layout.Words | src/layout.py:62-63 | the loop computes `WordsF` |
| TokenLayout.Layout.Tag | src/layout.py:65-94 | the tag branches compute `TokenF` for a tag |
| TokenLayout.Layout.Word | src/layout.py:97-106 | the fields become `WordF` of the old ones |
| LayoutTree.BoxKids | src/helpers.py:49-58 | the children table of the layout tree has one entry per box, its children |
| LayoutTree.BoxKidsOrdered | src/helpers.py:49-58 | a well-formed layout tree is a tree the walks of `Helpers` accept |
| LayoutTree.AddChild | src/block_layout.py:126-127 | the new object is appended to the arena with the parent's last child as `previous`, the parent gains it as last child, and no other object changes |
| LayoutTree.AddChildOk | src/block_layout.py:186-189 | adding a child under a box that can hold it keeps the tree well formed |
| LayoutTree.AddChildKeepsBox | src/block_layout.py:186-189 | every object that was there stays consistent |
| LayoutTree.AddChildKeepsOrder | src/block_layout.py:186-189 | children stay after their parent, in increasing order, of a kind it holds, and point back to it |
| LayoutTree.AddChildKeepsPrevious | src/block_layout.py:186-189 | the first child has no `previous` and every other child has the one before it |
| LayoutTree.SelfRect | src/block_layout.py:203-204 | the rectangle starts at the box's position and is as wide and as tall as the box |
| LayoutTree.Heights | src/block_layout.py:200 | one height per child, that child's |
| LayoutTree.SumHeightsSnoc | src/block_layout.py:200 | the sum over the children is the sum over all but the last plus the last one's height |
| LayoutTree.StackedFill | src/block_layout.py:174-179 | children stacked from `top` end at `top` plus the sum of their heights |
| LayoutTree.Tree.constructor | src/document_layout.py:10-13 | the tree holds the document object alone, with no children and no parent |
| BlockLayout.LayoutModeCases | src/block_layout.py:145-161 | text is inline; a node with a block-level child element is a block; an element without children is inline exactly when it is an `input`; an element with children, none of them block-level, is inline |
| BlockLayout.ChildrenAfter | src/block_layout.py:186 | the children of a node come after it, so the walk over them ends |
| BlockLayout.CurrentLine | src/block_layout.py:111 | `self.children[-1]` is a line |
| BlockLayout.NewLineF | src/block_layout.py:118-127 | the cursor returns to 0 and a new line becomes the block's last child, with the former last child as `previous`; nothing else changes |
| BlockLayout.PutOnLine | src/block_layout.py:111-115 | a new box at the end of the current line, with the line's former last child as `previous`; the cursor moves by the width and one space; nothing else changes |
| BlockLayout.WordF | src/block_layout.py:93-115 | a word goes on a new line exactly when the cursor plus its width passes the block's width; a text box for it ends the current line and the cursor moves past it and a space |
| BlockLayout.InputF | src/block_layout.py:68-90 | an input goes on a new line exactly when the cursor plus `INPUT_WIDTH_PX` passes the block's width; an input box ends the current line and the cursor moves past it and a space |
| BlockLayout.WordsF | src/block_layout.py:52-53 | the block keeps a current line to write on |
| BlockLayout.RecurseF | src/block_layout.py:45-65 | the block keeps a current line to write on |
| BlockLayout.KidsF | src/block_layout.py:64-65 | the block keeps a current line to write on |
| BlockLayout.GrowsTrans | src/block_layout.py:45-65 | building lines in two steps builds lines |
| BlockLayout.NewLineGrows | src/block_layout.py:118-127 | `new_line` only adds a box under the block |
| BlockLayout.PutOnLineGrows | src/block_layout.py:111-115 | putting a box on a line only adds a box under a new line |
| BlockLayout.WordGrows | src/block_layout.py:93-115 | `word` only adds boxes under the block's new lines |
| BlockLayout.InputGrows | src/block_layout.py:68-90 | `input` only adds boxes under the block's new lines |
| BlockLayout.WordsGrows | src/block_layout.py:52-53 | the words of a text node only add boxes under new lines |
| BlockLayout.RecurseGrows | src/block_layout.py:45-65 | `recurse` touches no box made before it other than the block's cursor and children, and every line it adds is new |
| BlockLayout.KidsGrows | src/block_layout.py:64-65 | recursing into the children in order only adds boxes under new lines |
| BlockLayout.NewLine | src/block_layout.py:118-127 | the tree becomes `NewLineF` of the old one and stays well formed |
| BlockLayout.PutOnLineM | src/block_layout.py:111-115 | the tree becomes `PutOnLine` of the old one and stays well formed |
| BlockLayout.Word | src/block_layout.py:93-115 | the tree becomes `WordF` of the old one and stays well formed |
| BlockLayout.Input | src/block_layout.py:68-90 | the tree becomes `InputF` of the old one and stays well formed |
| BlockLayout.Recurse | src/block_layout.py:45-65 | the tree becomes `RecurseF` of the old one and stays well formed |
| BlockLayout.Words | src/block_layout.py:52-53 | the loop computes `WordsF` |
| BlockLayout.RecurseChildren | src/block_layout.py:64-65 | the loop computes `KidsF` |
| BlockLayout.AddBlock | src/block_layout.py:187-188 | a new block is added as the last child and the tree stays well formed |
| BlockLayout.BlocksF | src/block_layout.py:184-189 | one new box per child node |
| BlockLayout.NoGeos | src/block_layout.py:38-42 | `k` boxes at the origin with no size |
| BlockLayout.BlocksShape | src/block_layout.py:184-189 | the block gets one new block per child node, in order, each with the one before it as `previous`, and no other box changes |
| BlockLayout.BlocksStep | src/block_layout.py:187-189 | one more child block keeps that shape |
| BlockLayout.CreateBlocks | src/block_layout.py:183-189 | the boxes become `BlocksF` of the old ones, each new one unplaced |
| BlockLayout.BuildChildren | src/block_layout.py:181-193 | the block's children are those of its mode: a block per child node, or at least one line; nothing made before changes |
| BlockLayout.BlockChildren | src/block_layout.py:183-189 | in block mode the block's children are one block per child node |
| BlockLayout.InlineChildren | src/block_layout.py:191-193 | in inline mode the block's children are lines, at least one |
| BlockLayout.Layout | src/block_layout.py:164-200 | the block sits at its parent's left edge, as wide, below its previous sibling or at its parent's top; its children are those of its mode, each laid out below the one before; its height is the sum of theirs; no box made before it other than itself changes |
| BlockLayout.Fill | src/block_layout.py:181-200 | the children are made and laid out, and the block's height is the sum of theirs |
| BlockLayout.MakeKids | src/block_layout.py:181-197 | the children are made and then each is laid out below the one before |
| BlockLayout.FillSteps | src/block_layout.py:181-200 | the three steps of `layout` after placing the box give its promise |
| BlockLayout.Place | src/block_layout.py:170-179 | `x` and `width` come from the parent, `y` from the previous sibling's bottom or the parent's top |
| BlockLayout.SetHeight | src/block_layout.py:200 | only the block's height changes, to the sum of its children's, and boxes stacked before stay stacked |
| BlockLayout.KidsStep | src/block_layout.py:196-197 | laying out one child moves the loop on by one |
| BlockLayout.LayoutKids | src/block_layout.py:196-197 | every child is laid out in place below the one before it; nothing made before changes |
| BlockLayout.LayoutChild | src/block_layout.py:197 | a block child lays itself out and a line child its words; it ends stacked under its previous sibling, and no other box changes |
| BlockLayout.BlockFilled | src/block_layout.py:170-200 | the children of a laid out block fill it: the first at its top, all at its left edge and as wide, and the last ending at its bottom |
| BlockLayout.Paint | src/block_layout.py:207-220 | no command when the background is transparent; otherwise a rounded rectangle over the box in the background color, whose radius is `float` of the `border-radius` without its unit, or a `ValueError` where that does not read |
| BlockLayout.PaintedOnce | src/block_layout.py:230-236 | a block does not paint exactly when its node is an `input` or `button`, which its input box paints |
| LineLayout.PlacedFrame | src/line_layout.py:31-32 | whether a word is laid out depends only on its own size and on its previous word and line, not on its top |
| LineLayout.Ascents | src/line_layout.py:41 | one ascent per word, that of its font |
| LineLayout.Descents | src/line_layout.py:47 | one descent per word, that of its font |
| LineLayout.LineReadyOk | src/line_layout.py:31-32 | every line of a well-formed tree over styled nodes can lay out its words |
| LineLayout.PlaceLeaf | src/line_layout.py:31-32 | one child laid out as a word or an input, its top left alone |
| LineLayout.PlaceAll | src/line_layout.py:31-32 | the loop changes no box count |
| LineLayout.PlaceAllFrame | src/line_layout.py:31-32 | laying out the words changes nothing but them |
| LineLayout.PlaceAllPlaced | src/line_layout.py:31-32 | after the loop every word of the line is laid out: a later word does not move an earlier one |
| LineLayout.PlaceNextKeepsPlaced | src/line_layout.py:31-32 | laying out the next word keeps the earlier ones laid out |
| LineLayout.SetYs | src/line_layout.py:44-45 | each word hangs from the baseline by its font's ascent, and nothing but those tops changes |
| LineLayout.SetYsStep | src/line_layout.py:44-45 | hanging one more word changes only its top |
| LineLayout.LayoutChildren | src/line_layout.py:31-32 | the loop computes `PlaceAll` |
| LineLayout.LayoutLeaf | src/line_layout.py:32 | only that child's geometry changes, to `PlaceLeaf` |
| LineLayout.SetBaseline | src/line_layout.py:44-45 | the loop computes `SetYs` |
| LineLayout.LineRest | src/line_layout.py:36-49 | the geometry table keeps its size |
| LineLayout.RestFrame | src/line_layout.py:36-49 | the words move only vertically, the line keeps its place, and nothing else changes |
| LineLayout.RestHeight | src/line_layout.py:36-49 | without words the height is 0; otherwise every word's top is its baseline minus its ascent, with the baseline 1.25 times the largest ascent below the top, and the height is 1.25 times the largest ascent plus the largest descent |
| LineLayout.LineF | src/line_layout.py:14-49 | the geometry table keeps its size |
| LineLayout.LineFrame | src/line_layout.py:14-49 | only the line and its words change; the line sits at its block's left edge, as wide, at the bottom of the previous line or the block's top |
| LineLayout.RestKeepsPlaced | src/line_layout.py:44-49 | moving the words to the baseline keeps them laid out |
| LineLayout.LineWordsPlaced | src/line_layout.py:14-49 | after `layout` every word of the line is laid out |
| LineLayout.SameFonts | src/line_layout.py:41-47 | the ascents and descents depend on the fonts alone |
| LineLayout.LineHeight | src/line_layout.py:36-49 | a line without words has height 0; otherwise its words hang from a baseline 1.25 times the largest ascent below the line's top, and the line is 1.25 times the largest ascent plus the largest descent high |
| LineLayout.HangWords | src/line_layout.py:41-49 | the geometry becomes `LineRest` of the old one |
| LineLayout.SetHeight | src/line_layout.py:49 | only the line's height changes |
| LineLayout.Layout | src/line_layout.py:14-49 | the geometry becomes `LineF` of the old one, boxes unchanged |
| LineLayout.Paint | src/line_layout.py:52-54 | a line draws nothing of its own |
| TextLayout.TextFont | src/text_layout.py:25-32 | the node's weight and size, and its font style with `normal` spelled `roman` |
| TextLayout.Place | src/text_layout.py:20-43 | the word gets its font, is as wide as the measured word and one line high, and starts one space (in the previous word's font) after the previous word, or at the line's left edge; its top is left alone |
| TextLayout.Layout | src/text_layout.py:20-43 | only the word's geometry changes, to `Place` |
| TextLayout.Paint | src/text_layout.py:46-52 | one `DrawText` of the word at the box's corner, in its font, in the node's color |
| InputLayout.Place | src/input_layout.py:26-44 | the input gets the node's font, is `INPUT_WIDTH_PX` wide and one line high, and starts one space after the previous box, or at the line's left edge; its top is left alone |
| InputLayout.Layout | src/input_layout.py:26-44 | only the input's geometry changes, to `Place` |
| InputLayout.ShouldPaint | src/input_layout.py:53-54 | an input box always paints |
| InputLayout.ShownText | src/input_layout.py:76-85 | an `<input>` shows its `value` (empty when missing); a `<button>` the text of its only child when that is text, and nothing otherwise |
| InputLayout.Paint | src/input_layout.py:62-94 | raises exactly when the background is not transparent and its radius does not read; otherwise a rounded background with that radius unless transparent, then the shown text at the box's corner in the node's color, then a black cursor line of width 1 after the text, as tall as the box, exactly when the node has focus |
| DocumentLayout.Layout | src/document_layout.py:16-28 | one block for the document's node becomes its only child, placed at `(HSTEP, VSTEP)` and `WIDTH - 2*HSTEP` wide, laid out with its children stacked; the document is as tall as the block, and no other box changes |
| DocumentLayout.SetHeight | src/document_layout.py:28 | only the document's height changes, to the block's, and the block's children stay stacked |
| DocumentLayout.Paint | src/document_layout.py:31-32 | the document draws nothing of its own |

## Left out

- `Client.request` (`client.py:29-78`) is left out because it opens sockets, speaks TLS and reads HTTP. A page arrives instead as the parameter `parsed`, already turned into DOM nodes.
- The HTML parser and the file read of the default style sheet in `Tab.load` are not part of this model. The load raises before their results are used.
- Drawing to SDL, skia or tkinter is left out: `Browser.draw`, `mainloop`, every `execute`, `CompositedLayer.raster`, `DrawCompositedLayer`, `Chrome.paint` and `print_tree`. `raster_tab` and `raster_chrome` always raise, and are modelled by what they raise, in `RasterTabFailure` and `RasterChromeFailure`.
- `absolute_bounds_for_obj` (`compositing.py:311-325`) is left out because it turns a layout object into a rectangle through skia. `Draw.MakeXYWH` models its rectangle constructor.
- `JSContext.__init__`'s interpreter set-up and `JSContext.run` are left out because they call the dukpy JavaScript engine. `DispatchEvent` takes the script's result as the function `run`.
- `task.py` and `profiler.py` are left out because they are threads, locks and file writes outside the core.
- Floating point is modelled by `real`, with no rounding. The conversions the code makes with `float(...)` are parameters of the model: `Numerics` (percent font sizes and transition frame counts), `toFloat` (opacity and `border-radius`) and `FontMetrics.pointSize` (the `0.75` factor and `int` truncation).
- Compositing.ParseTransform: only the branch without `translate(` is stated exactly. When there is a translation the numbers come from the parameter `numbers`, because the source's slicing (`compositing.py:287`) keeps the unit instead of the number.
- CssStyle.ParseTransition: the frame count of each transition comes from `Numerics.frames`, which is not interpreted.
- `BlockLayout.layout_intermediate` (`block_layout.py:130-142`) is never called and is not modelled.
- Helpers.FontCache.GetFont: the cached font is the key `(size, weight, style)` itself, with no tkinter object behind it. The model states that one key always gives the same font and that entries are never evicted.
- JsContext.JsContext.InnerHtmlSet: the element's new children are spliced into a new arena that replaces `tab.nodes`. Python's in-place update of objects that the old node list shares is not modelled.
- Browser.Browser.HandleClick: below the chrome, the contract states the routing, the kept focus and the error without an active tab. What the tab does is in `Browser.Browser.ClickContent` and `Browser.Browser.ClickTab`.
- Browser.Browser.HandleEnter: the contract with a focused chrome only says that it raises. The full outcome is in `Browser.Chrome.Enter`.
- Browser.Browser.ClickTab: when a link is hit, the contract says only that the tab's own error is raised. What that error is appears in `Tab.Tab.Click`.
- BlockLayout.WordsF: its own contract states only the shape of its result; what it computes is stated one word at a time by `BlockLayout.WordF`, and `BlockLayout.WordsGrows` states what the whole run leaves untouched.
- BlockLayout.RecurseF: its own contract states only the shape of its result; what it computes is stated by its branches (`BlockLayout.WordF`, `BlockLayout.InputF`, `BlockLayout.NewLineF`), and `BlockLayout.RecurseGrows` states what the whole walk leaves untouched.
- BlockLayout.KidsF: its own contract states only the shape of its result; what it computes is stated child by child by `BlockLayout.RecurseF`, and `BlockLayout.KidsGrows` states what the whole loop leaves untouched.
- LineLayout.PlaceAll: its own contract states only the shape of its result; what it computes is stated by `LineLayout.PlaceAllFrame` and `LineLayout.PlaceAllPlaced`.
- LineLayout.LineRest: its own contract states only the shape of its result; what it computes is stated by `LineLayout.RestFrame` and `LineLayout.RestHeight`.
- LineLayout.LineF: its own contract states only the shape of its result; what it computes is stated by `LineLayout.LineFrame`, `LineLayout.LineWordsPlaced` and `LineLayout.LineHeight`.
- Strings.IsAlnum: only ASCII letters and digits count. Python's `str.isalnum` accepts every Unicode letter and digit, so on a word with an accented letter (U+00E9, `e` with an acute accent) the CSS word loop (`css_parser.py:46`) goes on where the model's stops.
- Strings.FoldChar: only the ASCII capitals are folded. Python's `casefold` folds every cased character, U+00C9 to U+00E9 for example.
- Strings.CaseFold: because it folds ASCII only, it keeps the length. Python's `casefold` can lengthen text: U+00DF (sharp s) becomes `"ss"`.
- Strings.ParseInt: only ASCII digits are read. `int` also accepts the decimal digits of other scripts, such as the Arabic-Indic digits U+0660 to U+0669.
- LayoutTree.FontOf: the `ValueError` of `float(font_size[:-2])` is not modelled. `FontMetrics.pointSize` is a total function, so a font size without a number in it gives some point size instead of an exception.
- Integer widths play no part: the indices, counts and handles of the source are Python integers, which do not wrap.
