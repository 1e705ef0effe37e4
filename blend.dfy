/** `blend.py`: the `Blend` command, the choice of skia blend mode and the
    wrapping of a layout object's commands in opacity, blending and
    clipping. */
module Blending {
  import opened Base
  import Strings
  import opened Draw

  /** The skia blend modes the browser uses. */
  datatype BlendMode = Multiply | Difference | DstIn | SrcOver

  /** The CSS name of each mode. */
  function ModeName(m: BlendMode): string {
    match m
    case Multiply => "multiply"
    case Difference => "difference"
    case DstIn => "destination-in"
    case SrcOver => "source-over"
  }

  /** `parse_blend_mode`: the four names give their modes; any other value,
      and no value at all, gives source-over. */
  function ParseBlendMode(s: Option<string>): (m: BlendMode)
    ensures (s.Some? && s.value == ModeName(m)) || m == SrcOver
    ensures m == SrcOver <==> s.None? || s.value !in {"multiply", "difference", "destination-in"}
  {
    if s == Some("multiply") then Multiply
    else if s == Some("difference") then Difference
    else if s == Some("destination-in") then DstIn
    else if s == Some("source-over") then SrcOver
    else SrcOver
  }

  /** Every mode is recognised by its own name. */
  lemma ParseModeName(m: BlendMode)
    ensures ParseBlendMode(Some(ModeName(m))) == m
  {
  }

  /** Python's truth value of an optional string: present and not empty. */
  predicate Truthy(s: Option<string>) { s.Some? && s.value != "" }

  /** `Blend(opacity, blend_mode, children)`: a layer is saved when there is
      a blend mode or the opacity is below one; the rectangle is the empty
      rectangle joined with every child's. */
  method NewBlend(opacity: real, blendMode: Option<string>, children: seq<Cmd>) returns (c: Cmd)
    ensures c.Blend? && c.opacity == opacity && c.blendMode == blendMode && c.children == children
    ensures c.shouldSave <==> Truthy(blendMode) || opacity < 1.0
    ensures c.rect == JoinRects(Empty, RectsOf(children))
  {
    var rect := Empty;
    var k := 0;
    while k < |children|
      invariant 0 <= k <= |children|
      invariant rect == JoinRects(Empty, RectsOf(children)[..k])
    {
      assert RectsOf(children)[..k + 1][..k] == RectsOf(children)[..k];
      rect := Join(rect, children[k].rect);
      k := k + 1;
    }
    assert RectsOf(children)[..k] == RectsOf(children);
    c := Blend(opacity, blendMode, children, Truthy(blendMode) || opacity < 1.0, rect);
  }

  /** A blend's rectangle is the union of its children's: it covers every
      child that is not empty, anything that covers them all covers it
      (unless it is empty), and without non-empty children it is empty. */
  lemma BlendRectIsUnion(children: seq<Cmd>, c: Rect)
    ensures forall k :: 0 <= k < |children| && !IsEmpty(children[k].rect) ==>
      Covers(JoinRects(Empty, RectsOf(children)), children[k].rect)
    ensures (forall k :: 0 <= k < |children| && !IsEmpty(children[k].rect) ==> Covers(c, children[k].rect)) ==>
      IsEmpty(JoinRects(Empty, RectsOf(children))) || Covers(c, JoinRects(Empty, RectsOf(children)))
    ensures (forall k :: 0 <= k < |children| ==> IsEmpty(children[k].rect)) ==>
      JoinRects(Empty, RectsOf(children)) == Empty
  {
    var rs := RectsOf(children);
    JoinRectsCovers(Empty, rs);
    if forall k :: 0 <= k < |children| && !IsEmpty(children[k].rect) ==> Covers(c, children[k].rect) {
      JoinRectsIsLeast(Empty, rs, c);
    }
  }

  /** Why `paint_visual_effects` raises: a `float(...)` of a style value. */
  datatype EffectError = BadOpacity | BadBorderRadius

  /** `paint_visual_effects(node, cmds, rect)`, with `toFloat` standing for
      Python's `float` on strings (None where it raises). With
      `overflow: clip` a destination-in blend of one white rounded rectangle
      is appended to `cmds` (the caller's list grows; `grown` is that list
      afterwards) and the blend mode defaults to source-over; the result is
      one blend over the commands. */
  method PaintVisualEffects(style: map<string, string>, cmds: seq<Cmd>, rect: Rect,
                            toFloat: string -> Option<real>)
    returns (r: Result<seq<Cmd>, EffectError>, grown: seq<Cmd>)
    ensures toFloat(Get(style, "opacity", "1.0")).None? ==> r == Err(BadOpacity) && grown == cmds
    ensures r.Ok? ==> |r.value| == 1 && r.value[0].Blend? && r.value[0].children == grown
    ensures r.Ok? ==> r.value[0].opacity == toFloat(Get(style, "opacity", "1.0")).value
    ensures r.Ok? ==> r.value[0].rect == JoinRects(Empty, RectsOf(grown))
    ensures r.Ok? && Get(style, "overflow", "visible") != "clip" ==>
      grown == cmds && r.value[0].blendMode == Lookup(style, "mix-blend-mode")
    ensures toFloat(Get(style, "opacity", "1.0")).Some? && Get(style, "overflow", "visible") == "clip" ==>
      var radius := toFloat(Strings.DropLast(Get(style, "border-radius", "0px"), 2));
      (radius.None? ==> r == Err(BadBorderRadius) && grown == cmds)
      && (radius.Some? ==>
            r.Ok? && |grown| == |cmds| + 1 && grown[..|cmds|] == cmds
            && grown[|cmds|].Blend? && grown[|cmds|].opacity == 1.0
            && grown[|cmds|].blendMode == Some("destination-in")
            && grown[|cmds|].children == [DrawRRect(rect, radius.value, "white")]
            && r.value[0].blendMode ==
                 (if Truthy(Lookup(style, "mix-blend-mode")) then Lookup(style, "mix-blend-mode") else Some("source-over")))
  {
    grown := cmds;
    var opacity := toFloat(Get(style, "opacity", "1.0"));
    if opacity.None? {
      return Err(BadOpacity), grown;
    }
    var blendMode := Lookup(style, "mix-blend-mode");
    if Get(style, "overflow", "visible") == "clip" {
      var radius := toFloat(Strings.DropLast(Get(style, "border-radius", "0px"), 2));
      if radius.None? {
        return Err(BadBorderRadius), grown;
      }
      if !Truthy(blendMode) {
        blendMode := Some("source-over");
      }
      var clip := NewBlend(1.0, Some("destination-in"), [DrawRRect(rect, radius.value, "white")]);
      grown := grown + [clip];
    }
    var outer := NewBlend(opacity.value, blendMode, grown);
    r := Ok([outer]);
  }
}
