/** `compositing.py`: visual effects and their rectangles, composited
    layers, numeric animations and the translation of rectangles between
    an item's own coordinates and the page's.

    Display items that take part in compositing live in an arena
    `seq<Entry>`: entry `j` is a display command together with the index
    of its parent effect, or -1 when it has none. A parent always comes
    before its children, which is what makes the walks up the parent
    chain end. */
module Compositing {
  import opened Base
  import Strings
  import opened Draw

  // ---- visual effects ----

  /** `any(child.needs_compositing for the VisualEffect children)`. Of the
      commands, only a `Transform` is a `VisualEffect`. */
  function AnyNeedsCompositing(cs: seq<Cmd>): (b: bool)
    ensures b <==> exists k :: 0 <= k < |cs| && cs[k].Transform? && cs[k].needsCompositing
  {
    if cs == [] then false
    else
      var last := cs[|cs| - 1];
      assert forall k :: 0 <= k < |cs| - 1 ==> cs[..|cs| - 1][k] == cs[k];
      (last.Transform? && last.needsCompositing) || AnyNeedsCompositing(cs[..|cs| - 1])
  }

  /** `Transform(translation, rect, node, children)`, which runs
      `VisualEffect.__init__`: the effect's rectangle is a copy of the given
      one joined with the rectangle of every child in turn. */
  method NewTransform(translation: Option<(real, real)>, rect: Rect, node: int, children: seq<Cmd>)
    returns (c: Cmd)
    ensures c.Transform? && c.translation == translation && c.selfRect == rect
    ensures c.node == node && c.children == children
    ensures c.rect == JoinRects(rect, RectsOf(children))
    ensures c.needsCompositing == AnyNeedsCompositing(children)
  {
    var joined := rect;
    var k := 0;
    while k < |children|
      invariant 0 <= k <= |children|
      invariant joined == JoinRects(rect, RectsOf(children)[..k])
    {
      assert RectsOf(children)[..k + 1][..k] == RectsOf(children)[..k];
      joined := Join(joined, children[k].rect);
      k := k + 1;
    }
    assert RectsOf(children)[..k] == RectsOf(children);
    c := Transform(translation, rect, node, children, joined, AnyNeedsCompositing(children));
  }

  /** `Transform.clone(child)`: the same translation, own rectangle and
      node over the single child, with the rectangle joined anew. */
  method Clone(t: Cmd, child: Cmd) returns (c: Cmd)
    requires t.Transform?
    ensures c.Transform? && c.translation == t.translation && c.selfRect == t.selfRect
    ensures c.node == t.node && c.children == [child]
    ensures c.rect == Join(t.selfRect, child.rect)
    ensures c.needsCompositing == (child.Transform? && child.needsCompositing)
  {
    c := NewTransform(t.translation, t.selfRect, t.node, [child]);
    assert RectsOf([child])[..0] == [];
  }

  /** A command tree every `Transform` of which was made by
      `VisualEffect.__init__`. */
  predicate Built(c: Cmd)
    decreases c
  {
    match c
    case Transform(_, _, _, children, _, needs) =>
      needs == AnyNeedsCompositing(children) && forall k :: 0 <= k < |children| ==> Built(children[k])
    case Blend(_, _, children, _, _) => forall k :: 0 <= k < |children| ==> Built(children[k])
    case _ => true
  }

  /** Nothing ever needs compositing: at the leaves the `any` is over an
      empty list, and `False` is all that goes up the tree. */
  lemma {:induction false} NeverNeedsCompositing(c: Cmd)
    requires Built(c)
    ensures c.Transform? ==> !c.needsCompositing
    decreases c
  {
    if c.Transform? {
      forall k | 0 <= k < |c.children| ensures !(c.children[k].Transform? && c.children[k].needsCompositing) {
        NeverNeedsCompositing(c.children[k]);
      }
    }
  }

  // ---- translations ----

  /** `r` has its edges in order. */
  predicate Sorted(r: Rect) { r.left <= r.right && r.top <= r.bottom }

  /** skia's `Rect.sort()`: swaps edges that are out of order. */
  function Sort(r: Rect): (s: Rect)
    ensures Sorted(s)
    ensures Sorted(r) ==> s == r
  {
    Rect(Min(r.left, r.right), Min(r.top, r.bottom), Max(r.left, r.right), Max(r.top, r.bottom))
  }

  /** A translation matrix's `mapRect`: every edge moves by the offset and
      the result is sorted. */
  function Translate(r: Rect, dx: real, dy: real): Rect {
    Sort(Rect(r.left + dx, r.top + dy, r.right + dx, r.bottom + dy))
  }

  /** `map_translation(rect, translation, reversed)`. */
  function MapTranslation(r: Rect, translation: Option<(real, real)>, reversed: bool): (m: Rect)
    ensures translation.None? ==> m == r
    ensures translation.Some? ==> Sorted(m)
    ensures translation.Some? && Sorted(r) && !reversed ==>
      m == Rect(r.left + translation.value.0, r.top + translation.value.1,
                r.right + translation.value.0, r.bottom + translation.value.1)
    ensures translation.Some? && Sorted(r) && reversed ==>
      m == Rect(r.left - translation.value.0, r.top - translation.value.1,
                r.right - translation.value.0, r.bottom - translation.value.1)
  {
    match translation
    case None => r
    case Some((x, y)) => if reversed then Translate(r, -x, -y) else Translate(r, x, y)
  }

  /** Undoing a translation gives back the rectangle, provided its edges
      were in order (translating sorts them). */
  lemma UnmapAfterMap(r: Rect, translation: Option<(real, real)>)
    requires Sorted(r) || translation.None?
    ensures MapTranslation(MapTranslation(r, translation, false), translation, true) == r
    ensures Sorted(r) ==> Sorted(MapTranslation(r, translation, false))
  {
  }

  /** `Transform.map(rect)`. */
  function Map(t: Cmd, r: Rect): Rect
    requires t.Transform?
  {
    MapTranslation(r, t.translation, false)
  }

  /** `Transform.unmap(rect)`. */
  function Unmap(t: Cmd, r: Rect): Rect
    requires t.Transform?
  {
    MapTranslation(r, t.translation, true)
  }

  /** `Transform.unmap` undoes `Transform.map`. */
  lemma TransformRoundTrip(t: Cmd, r: Rect)
    requires t.Transform? && Sorted(r)
    ensures Unmap(t, Map(t, r)) == r
    ensures Sorted(Map(t, r))
  {
    UnmapAfterMap(r, t.translation);
  }

  /** `parse_transform`: a value without `translate(` gives no translation.
      The conversion of the numbers when there is one is the parameter
      `numbers`. */
  function ParseTransform(value: string, numbers: string -> (real, real)): (r: Option<(real, real)>)
    ensures r.None? <==> !Strings.Contains(value, "translate(")
  {
    if Strings.IndexOf(value, "translate(").None? then None else Some(numbers(value))
  }

  // ---- walking up the parent chain ----

  /** A display item with the arena index of its parent effect. */
  datatype Entry = Entry(cmd: Cmd, parent: int)

  /** Every parent comes earlier in the arena and is a `Transform`. */
  predicate ChainOk(items: seq<Entry>) {
    forall j :: 0 <= j < |items| ==>
      items[j].parent < j && (items[j].parent >= 0 ==> items[items[j].parent].cmd.Transform?)
  }

  /** The parents of item `j`, nearest first. */
  function Chain(items: seq<Entry>, j: nat): (cs: seq<nat>)
    requires ChainOk(items) && j < |items|
    ensures forall k :: 0 <= k < |cs| ==> cs[k] < j && items[cs[k]].cmd.Transform?
    decreases j
  {
    var p := items[j].parent;
    if p < 0 then [] else [p as nat] + Chain(items, p as nat)
  }

  /** Where `rect`, given in the coordinates of item `j`, lies on the page:
      each parent maps it in turn, nearest first. */
  function ToAbsolute(items: seq<Entry>, j: nat, rect: Rect): Rect
    requires ChainOk(items) && j < |items|
    decreases j
  {
    var p := items[j].parent;
    if p < 0 then rect else ToAbsolute(items, p as nat, Map(items[p].cmd, rect))
  }

  /** Mapping by each of `cs`, first to last. */
  function MapAlong(items: seq<Entry>, cs: seq<nat>, rect: Rect): Rect
    requires forall k :: 0 <= k < |cs| ==> cs[k] < |items| && items[cs[k]].cmd.Transform?
  {
    if cs == [] then rect else MapAlong(items, cs[1..], Map(items[cs[0]].cmd, rect))
  }

  /** Unmapping by each of `cs`, last to first. */
  function UnmapFrom(items: seq<Entry>, cs: seq<nat>, rect: Rect): Rect
    requires forall k :: 0 <= k < |cs| ==> cs[k] < |items| && items[cs[k]].cmd.Transform?
  {
    if cs == [] then rect else Unmap(items[cs[0]].cmd, UnmapFrom(items, cs[1..], rect))
  }

  /** Walking up from item `j` maps by the parents of its chain. */
  lemma {:induction false} ToAbsoluteAlongChain(items: seq<Entry>, j: nat, rect: Rect)
    requires ChainOk(items) && j < |items|
    ensures ToAbsolute(items, j, rect) == MapAlong(items, Chain(items, j), rect)
    decreases j
  {
    var p := items[j].parent;
    if p >= 0 {
      ToAbsoluteAlongChain(items, p as nat, Map(items[p].cmd, rect));
    }
  }

  /** Unmapping in the reverse order undoes mapping along the chain. */
  lemma {:induction false} UnmapFromMapAlong(items: seq<Entry>, cs: seq<nat>, rect: Rect)
    requires forall k :: 0 <= k < |cs| ==> cs[k] < |items| && items[cs[k]].cmd.Transform?
    requires Sorted(rect)
    ensures UnmapFrom(items, cs, MapAlong(items, cs, rect)) == rect
  {
    if cs != [] {
      var t := items[cs[0]].cmd;
      TransformRoundTrip(t, rect);
      UnmapFromMapAlong(items, cs[1..], Map(t, rect));
    }
  }

  /** `absolute_to_local(item, local_to_absolute(item, rect)) == rect` for a
      rectangle with its edges in order. */
  lemma LocalAbsoluteRoundTrip(items: seq<Entry>, j: nat, rect: Rect)
    requires ChainOk(items) && j < |items| && Sorted(rect)
    ensures UnmapFrom(items, Chain(items, j), ToAbsolute(items, j, rect)) == rect
  {
    ToAbsoluteAlongChain(items, j, rect);
    UnmapFromMapAlong(items, Chain(items, j), rect);
  }

  /** `local_to_absolute(display_item, rect)`. */
  method LocalToAbsolute(items: seq<Entry>, j: nat, rect: Rect) returns (r: Rect)
    requires ChainOk(items) && j < |items|
    ensures r == ToAbsolute(items, j, rect)
  {
    var cur: nat := j;
    r := rect;
    while items[cur].parent >= 0
      invariant cur < |items|
      invariant ToAbsolute(items, cur, r) == ToAbsolute(items, j, rect)
      decreases cur
    {
      var p := items[cur].parent as nat;
      r := Map(items[p].cmd, r);
      cur := p;
    }
  }

  /** `absolute_to_local(display_item, rect)`: collects the parent chain,
      then unmaps by the farthest parent first. */
  method AbsoluteToLocal(items: seq<Entry>, j: nat, rect: Rect) returns (r: Rect)
    requires ChainOk(items) && j < |items|
    ensures r == UnmapFrom(items, Chain(items, j), rect)
  {
    var chain: seq<nat> := [];
    var cur: nat := j;
    while items[cur].parent >= 0
      invariant cur < |items|
      invariant chain + Chain(items, cur) == Chain(items, j)
      decreases cur
    {
      var p := items[cur].parent as nat;
      chain := chain + [p];
      cur := p;
    }
    assert chain == Chain(items, j);
    r := rect;
    var k := 0;
    while k < |chain|
      invariant 0 <= k <= |chain|
      invariant r == UnmapFrom(items, chain[|chain| - k..], rect)
    {
      var n := |chain| - k - 1;
      assert chain[n..][1..] == chain[n + 1..];
      r := Unmap(items[chain[n]].cmd, r);
      k := k + 1;
    }
  }

  // ---- composited layers ----

  /** `CompositedLayer`: display items (arena indices) drawn to one
      surface, all with the same parent effect. */
  class CompositedLayer {
    const items: seq<Entry>
    var displayItems: seq<nat>
    const parent: int

    ghost predicate Valid()
      reads this
    {
      && ChainOk(items)
      && |displayItems| >= 1
      && (forall k :: 0 <= k < |displayItems| ==> displayItems[k] < |items|)
      && (forall k :: 0 <= k < |displayItems| ==> items[displayItems[k]].parent == parent)
    }

    /** `CompositedLayer(skia_context, display_item)`: holds exactly the
        item, and its parent is the item's parent. */
    constructor (items: seq<Entry>, item: nat)
      requires ChainOk(items) && item < |items|
      ensures Valid()
      ensures this.items == items && displayItems == [item] && parent == items[item].parent
    {
      this.items := items;
      displayItems := [item];
      parent := items[item].parent;
    }

    /** `can_merge`: the item has the parent of the first item, which is
        the layer's parent. */
    predicate CanMerge(item: nat)
      requires Valid() && item < |items|
      reads this
      ensures CanMerge(item) <==> items[item].parent == parent
    {
      items[item].parent == items[displayItems[0]].parent
    }

    /** `add`: the source asserts `can_merge`, and appends. */
    method Add(item: nat)
      requires Valid() && item < |items| && CanMerge(item)
      modifies this
      ensures Valid()
      ensures displayItems == old(displayItems) + [item]
    {
      displayItems := displayItems + [item];
    }

    /** The rectangle of each item, taken to the page and back. */
    function RoundTrips(): (rs: seq<Rect>)
      requires Valid()
      reads this
      ensures |rs| == |displayItems|
    {
      var ds := displayItems;
      seq(|ds|, k requires 0 <= k < |ds| =>
        var j := ds[k];
        UnmapFrom(items, Chain(items, j), ToAbsolute(items, j, items[j].cmd.rect)))
    }

    /** The rectangle of each item. */
    function ItemRects(): (rs: seq<Rect>)
      requires Valid()
      reads this
      ensures |rs| == |displayItems|
      ensures forall k :: 0 <= k < |rs| ==> rs[k] == items[displayItems[k]].cmd.rect
    {
      var ds := displayItems;
      seq(|ds|, k requires 0 <= k < |ds| => items[ds[k]].cmd.rect)
    }

    /** The rectangle of each item on the page. */
    function AbsoluteRects(): (rs: seq<Rect>)
      requires Valid()
      reads this
      ensures |rs| == |displayItems|
    {
      var ds := displayItems;
      seq(|ds|, k requires 0 <= k < |ds| =>
        var j := ds[k];
        ToAbsolute(items, j, items[j].cmd.rect))
    }

    /** Taking an item's rectangle to the page and back changes nothing, so
        the bounds of a layer are the join of its items' own rectangles. */
    lemma RoundTripsAreItemRects()
      requires Valid()
      requires forall k :: 0 <= k < |displayItems| ==> Sorted(items[displayItems[k]].cmd.rect)
      ensures RoundTrips() == ItemRects()
    {
      forall k | 0 <= k < |displayItems| ensures RoundTrips()[k] == ItemRects()[k] {
        var j := displayItems[k];
        LocalAbsoluteRoundTrip(items, j, items[j].cmd.rect);
      }
    }

    /** `composited_bounds`: every item's rectangle taken to the page and
        back, joined starting from the empty rectangle, then grown by one
        on every side. */
    method CompositedBounds() returns (r: Rect)
      requires Valid()
      ensures r == Outset(JoinRects(Empty, RoundTrips()), 1.0, 1.0)
    {
      var rect := Empty;
      var k := 0;
      while k < |displayItems|
        invariant 0 <= k <= |displayItems|
        invariant rect == JoinRects(Empty, RoundTrips()[..k])
      {
        var j := displayItems[k];
        var abs := LocalToAbsolute(items, j, items[j].cmd.rect);
        var local := AbsoluteToLocal(items, j, abs);
        assert RoundTrips()[..k + 1][..k] == RoundTrips()[..k];
        rect := Join(rect, local);
        k := k + 1;
      }
      assert RoundTrips()[..k] == RoundTrips();
      r := Outset(rect, 1.0, 1.0);
    }

    /** `absolute_bounds`: the join of the items' rectangles on the page. */
    method AbsoluteBounds() returns (r: Rect)
      requires Valid()
      ensures r == JoinRects(Empty, AbsoluteRects())
    {
      r := Empty;
      var k := 0;
      while k < |displayItems|
        invariant 0 <= k <= |displayItems|
        invariant r == JoinRects(Empty, AbsoluteRects()[..k])
      {
        var j := displayItems[k];
        var abs := LocalToAbsolute(items, j, items[j].cmd.rect);
        assert AbsoluteRects()[..k + 1][..k] == AbsoluteRects()[..k];
        r := Join(r, abs);
        k := k + 1;
      }
      assert AbsoluteRects()[..k] == AbsoluteRects();
    }
  }

  // ---- animations ----

  /** The value `k` frames into an animation from `a` to `b` over `n`
      frames: `a + (b - a) / n * k`. */
  function Interpolate(a: real, b: real, n: int, k: int): real
    requires n != 0
  {
    a + (b - a) / (n as real) * (k as real)
  }

  /** The interpolation starts at the old value and reaches the new one at
      the last frame, and moves by the same step every frame. */
  lemma InterpolateEnds(a: real, b: real, n: int, k: int)
    requires n != 0
    ensures Interpolate(a, b, n, 0) == a
    ensures Interpolate(a, b, n, n) == b
    ensures Interpolate(a, b, n, k + 1) - Interpolate(a, b, n, k) == (b - a) / (n as real)
  {
  }

  /** Why `NumericAnimation(old_value, new_value, num_frames)` raises. */
  datatype AnimationError =
    | BadNumber(text: string)  // `float(...)` of a value raises ValueError
    | ZeroFrames               // `total_change / num_frames` raises ZeroDivisionError

  /** `NumericAnimation`: the old and new values are the floats the
      constructor reads from its string arguments. */
  class NumericAnimation {
    const oldValue: real
    const newValue: real
    const numFrames: int
    const changePerFrame: real
    var frameCount: int

    ghost predicate Valid()
      reads this
    {
      numFrames != 0 && changePerFrame == (newValue - oldValue) / (numFrames as real) && frameCount >= 1
    }

    /** `NumericAnimation(old_value, new_value, num_frames)`: both values are
        read with `toFloat`, the old one first, and the first that does not
        read raises; then zero frames raise on the division; otherwise the
        animation keeps both values and the frame count, and its counter
        starts at 1. */
    static method Create(oldText: string, newText: string, numFrames: int, toFloat: string -> Option<real>)
      returns (r: Result<NumericAnimation, AnimationError>)
      ensures toFloat(oldText).None? ==> r == Err(BadNumber(oldText))
      ensures toFloat(oldText).Some? && toFloat(newText).None? ==> r == Err(BadNumber(newText))
      ensures toFloat(oldText).Some? && toFloat(newText).Some? && numFrames == 0 ==> r == Err(ZeroFrames)
      ensures r.Ok? <==> toFloat(oldText).Some? && toFloat(newText).Some? && numFrames != 0
      ensures r.Ok? ==>
        && fresh(r.value) && r.value.Valid()
        && r.value.oldValue == toFloat(oldText).value && r.value.newValue == toFloat(newText).value
        && r.value.numFrames == numFrames && r.value.frameCount == 1
    {
      var oldValue := toFloat(oldText);
      if oldValue.None? {
        return Err(BadNumber(oldText));
      }
      var newValue := toFloat(newText);
      if newValue.None? {
        return Err(BadNumber(newText));
      }
      if numFrames == 0 {
        return Err(ZeroFrames);
      }
      var a := new NumericAnimation(oldValue.value, newValue.value, numFrames);
      return Ok(a);
    }

    /** The fields once both values are read and the frame count is known
        not to be zero. */
    constructor (oldValue: real, newValue: real, numFrames: int)
      requires numFrames != 0
      ensures Valid()
      ensures this.oldValue == oldValue && this.newValue == newValue && this.numFrames == numFrames
      ensures frameCount == 1
    {
      this.oldValue := oldValue;
      this.newValue := newValue;
      this.numFrames := numFrames;
      changePerFrame := (newValue - oldValue) / (numFrames as real);
      frameCount := 1;
    }

    /** `animate`: counts one more frame; from the last frame on there is
        no value, before it the interpolated one. */
    method Animate() returns (r: Option<real>)
      requires Valid()
      modifies this
      ensures Valid()
      ensures frameCount == old(frameCount) + 1
      ensures r.None? <==> frameCount >= numFrames
      ensures r.Some? ==> r.value == Interpolate(oldValue, newValue, numFrames, frameCount)
    {
      frameCount := frameCount + 1;
      if frameCount >= numFrames {
        return None;
      }
      r := Some(oldValue + changePerFrame * (frameCount as real));
    }
  }
}
