/** Rectangles, fonts and the display-list commands (`draw.py`, and the
    skia rectangle operations the rest of the browser relies on). Commands
    are immutable once built, so they are values. */
module Draw {
  import opened Base

  /** A rectangle by its four edges; used both for the tkinter `Rect` of
      `draw.py` and for skia's `Rect`. */
  datatype Rect = Rect(left: real, top: real, right: real, bottom: real)

  /** `Rect.contains_point`; skia's `Rect.contains(x, y)` tests the same
      half-open box. */
  predicate ContainsPoint(r: Rect, x: real, y: real)
    ensures ContainsPoint(r, x, y) ==> r.left < r.right && r.top < r.bottom
  {
    x >= r.left && x < r.right && y >= r.top && y < r.bottom
  }

  /** skia's `Rect.isEmpty`. */
  predicate IsEmpty(r: Rect) { !(r.left < r.right && r.top < r.bottom) }

  /** skia's `Rect.MakeEmpty()`. */
  const Empty := Rect(0.0, 0.0, 0.0, 0.0)

  /** skia's `Rect.MakeXYWH`. */
  function MakeXYWH(x: real, y: real, w: real, h: real): (r: Rect)
    ensures r.right - r.left == w && r.bottom - r.top == h
  {
    Rect(x, y, x + w, y + h)
  }

  /** `b` lies inside `a`. */
  predicate Covers(a: Rect, b: Rect) {
    a.left <= b.left && a.top <= b.top && b.right <= a.right && b.bottom <= a.bottom
  }

  /** skia's `Rect.join`: an empty argument changes nothing, an empty
      receiver takes the argument, otherwise the smallest rectangle that
      covers both. */
  function Join(a: Rect, b: Rect): (r: Rect)
    ensures IsEmpty(b) ==> r == a
    ensures !IsEmpty(b) && IsEmpty(a) ==> r == b
    ensures !IsEmpty(b) ==> Covers(r, b) && !IsEmpty(r)
    ensures !IsEmpty(a) ==> Covers(r, a)
  {
    if IsEmpty(b) then a
    else if IsEmpty(a) then b
    else Rect(Min(a.left, b.left), Min(a.top, b.top), Max(a.right, b.right), Max(a.bottom, b.bottom))
  }

  /** No rectangle smaller than the join covers both rectangles. */
  lemma JoinIsLeast(a: Rect, b: Rect, c: Rect)
    requires !IsEmpty(a) && Covers(c, a) && Covers(c, b)
    ensures Covers(c, Join(a, b))
  {
  }

  /** A rectangle joined with each of `rs` in turn, as the loops of
      `VisualEffect.__init__`, `Blend.__init__` and `composited_bounds` do. */
  function JoinRects(r: Rect, rs: seq<Rect>): Rect {
    if rs == [] then r else Join(JoinRects(r, rs[..|rs| - 1]), rs[|rs| - 1])
  }

  /** The joined rectangle covers the first rectangle and every non-empty
      one of `rs`; when all of `rs` are empty it is the first rectangle. */
  lemma {:induction false} JoinRectsCovers(r: Rect, rs: seq<Rect>)
    ensures !IsEmpty(r) ==> Covers(JoinRects(r, rs), r)
    ensures forall k :: 0 <= k < |rs| && !IsEmpty(rs[k]) ==> Covers(JoinRects(r, rs), rs[k])
    ensures (forall k :: 0 <= k < |rs| ==> IsEmpty(rs[k])) ==> JoinRects(r, rs) == r
  {
    if rs != [] {
      var front := rs[..|rs| - 1];
      JoinRectsCovers(r, front);
      var j := JoinRects(r, front);
      assert JoinRects(r, rs) == Join(j, rs[|rs| - 1]);
      forall k | 0 <= k < |rs| - 1 && !IsEmpty(rs[k])
        ensures Covers(JoinRects(r, rs), rs[k])
      {
        assert front[k] == rs[k];
      }
    }
  }

  /** ... and it is the smallest such rectangle: whatever covers the first
      rectangle (when that is not empty) and every non-empty one of `rs`
      covers the join, unless the join is empty. */
  lemma {:induction false} JoinRectsIsLeast(r: Rect, rs: seq<Rect>, c: Rect)
    requires !IsEmpty(r) ==> Covers(c, r)
    requires forall k :: 0 <= k < |rs| && !IsEmpty(rs[k]) ==> Covers(c, rs[k])
    ensures !IsEmpty(JoinRects(r, rs)) ==> Covers(c, JoinRects(r, rs))
  {
    if rs != [] {
      var front := rs[..|rs| - 1];
      forall k | 0 <= k < |front| && !IsEmpty(front[k]) ensures Covers(c, front[k]) {
        assert front[k] == rs[k];
      }
      JoinRectsIsLeast(r, front, c);
    }
  }

  /** The rectangles of a list of commands. */
  function RectsOf(cs: seq<Cmd>): (rs: seq<Rect>)
    ensures |rs| == |cs| && forall k :: 0 <= k < |cs| ==> rs[k] == cs[k].rect
  {
    seq(|cs|, k requires 0 <= k < |cs| => cs[k].rect)
  }

  /** skia's `Rect.outset(dx, dy)`. */
  function Outset(r: Rect, dx: real, dy: real): Rect {
    Rect(r.left - dx, r.top - dy, r.right + dx, r.bottom + dy)
  }

  /** Python's `max` of a non-empty list of numbers. */
  function Maximum(xs: seq<real>): real
    requires |xs| > 0
  {
    if |xs| == 1 then xs[0]
    else
      var rest := Maximum(xs[1..]);
      if xs[0] >= rest then xs[0] else rest
  }

  /** `max` is an upper bound of the numbers and is one of them. */
  lemma {:induction false} MaximumIsMax(xs: seq<real>)
    requires |xs| > 0
    ensures forall k :: 0 <= k < |xs| ==> xs[k] <= Maximum(xs)
    ensures exists k :: 0 <= k < |xs| && xs[k] == Maximum(xs)
  {
    if |xs| > 1 {
      var rest := Maximum(xs[1..]);
      MaximumIsMax(xs[1..]);
      assert Maximum(xs) == if xs[0] >= rest then xs[0] else rest;
      forall k | 0 <= k < |xs| ensures xs[k] <= Maximum(xs) {
        if k > 0 {
          assert xs[k] == xs[1..][k - 1];
        }
      }
      var j :| 0 <= j < |xs[1..]| && xs[1..][j] == rest;
      if xs[0] < rest {
        assert xs[j + 1] == Maximum(xs);
      } else {
        assert xs[0] == Maximum(xs);
      }
    }
  }

  function Min(x: real, y: real): real { if x <= y then x else y }
  function Max(x: real, y: real): real { if x >= y then x else y }

  /** A font by the key `get_font` caches it under: size, weight and slant. */
  datatype Font = Font(size: int, weight: string, style: string)

  /** What the browser asks of tkinter or skia about fonts: the width of a
      string (`measure` / `measureText`), `ascent`, `descent`, `linespace`,
      and the integer point size that `int(float(px[:-2]) * 0.75)` derives
      from a `font-size` value. */
  datatype FontMetrics = FontMetrics(
    measure: (Font, string) -> real,
    ascent: Font -> real,
    descent: Font -> real,
    linespace: Font -> real,
    pointSize: string -> int)

  /** One display-list command. `Blend` is `blend.py`'s class and
      `Transform` the visual effect of `compositing.py`; both hold their
      children. */
  datatype Cmd =
    | DrawText(rect: Rect, text: string, font: Font, color: string, bottom: real)
    | DrawRect(rect: Rect, color: string)
    | DrawOutline(rect: Rect, color: string, thickness: int)
    | DrawLine(rect: Rect, color: string, thickness: int)
    | DrawRRect(rect: Rect, radius: real, color: string)
    | Blend(opacity: real, blendMode: Option<string>, children: seq<Cmd>, shouldSave: bool, rect: Rect)
    | Transform(translation: Option<(real, real)>, selfRect: Rect, node: int, children: seq<Cmd>,
                rect: Rect, needsCompositing: bool)

  /** `DrawText(x1, y1, text, font, color)`: the box starts at the given
      corner, is as wide as the measured text and one line high, and
      `bottom` is the box's bottom edge. */
  function MakeDrawText(m: FontMetrics, x1: real, y1: real, text: string, font: Font, color: string): (c: Cmd)
    ensures c.DrawText? && c.text == text && c.font == font && c.color == color
    ensures c.rect.left == x1 && c.rect.top == y1
    ensures c.rect.right - c.rect.left == m.measure(font, text)
    ensures c.rect.bottom - c.rect.top == m.linespace(font)
    ensures c.bottom == c.rect.bottom
  {
    var h := m.linespace(font);
    DrawText(Rect(x1, y1, x1 + m.measure(font, text), y1 + h), text, font, color, y1 + h)
  }

  /** `DrawLine(x1, y1, x2, y2, color, thickness)` keeps the two end points
      as the rectangle's corners, exactly as given. */
  function MakeDrawLine(x1: real, y1: real, x2: real, y2: real, color: string, thickness: int): (c: Cmd)
    ensures c.DrawLine? && c.color == color && c.thickness == thickness
    ensures c.rect.left == x1 && c.rect.top == y1 && c.rect.right == x2 && c.rect.bottom == y2
  {
    DrawLine(Rect(x1, y1, x2, y2), color, thickness)
  }
}
