/** `layout.py`: the earlier, token-driven layout. Tokens are read one by
    one; tags switch the font style, weight and size, words are placed on
    the current line, and a full line is flushed into the display list with
    all words sharing one baseline.

    The pure functions below give the meaning of each step; the class
    `Layout` holds the same state in fields and its methods are proved to
    follow the functions. */
module TokenLayout {
  import opened Base
  import opened Strings
  import Draw

  const HSTEP: real := 13.0
  const VSTEP: real := 18.0
  const WIDTH: real := 800.0

  /** A lexer token: a run of text or a tag (`tok.tag`). */
  datatype Token = TextToken(text: string) | TagToken(tag: string)

  /** An entry of the current line: `(x, word, font)`. */
  datatype LineItem = LineItem(x: real, word: string, font: Draw.Font)

  /** An entry of the display list: `(x, y, word, font)`. */
  datatype Placed = Placed(x: real, y: real, word: string, font: Draw.Font)

  /** The fields of a `Layout` object other than `tokens`. */
  datatype State = State(displayList: seq<Placed>, cursorX: real, cursorY: real,
                         weight: string, style: string, size: int, line: seq<LineItem>)

  /** The state the constructor starts from. */
  const Start := State([], HSTEP, VSTEP, "normal", "roman", 12, [])

  // ---- the meaning of each step ----

  function Ascents(m: Draw.FontMetrics, line: seq<LineItem>): (r: seq<real>)
    ensures |r| == |line| && forall k :: 0 <= k < |line| ==> r[k] == m.ascent(line[k].font)
  {
    seq(|line|, k requires 0 <= k < |line| => m.ascent(line[k].font))
  }

  function Descents(m: Draw.FontMetrics, line: seq<LineItem>): (r: seq<real>)
    ensures |r| == |line| && forall k :: 0 <= k < |line| ==> r[k] == m.descent(line[k].font)
  {
    seq(|line|, k requires 0 <= k < |line| => m.descent(line[k].font))
  }

  /** The baseline of a line flushed at height `y`: 1.25 times the largest
      ascent below it. */
  function Baseline(m: Draw.FontMetrics, line: seq<LineItem>, y: real): real
    requires line != []
  {
    y + 1.25 * Draw.Maximum(Ascents(m, line))
  }

  /** The line's words placed so that their tops hang from the baseline by
      their own ascent. */
  function PlaceLine(m: Draw.FontMetrics, line: seq<LineItem>, baseline: real): (r: seq<Placed>)
    ensures |r| == |line|
    ensures forall k :: 0 <= k < |line| ==>
      r[k] == Placed(line[k].x, baseline - m.ascent(line[k].font), line[k].word, line[k].font)
  {
    seq(|line|, k requires 0 <= k < |line| =>
      Placed(line[k].x, baseline - m.ascent(line[k].font), line[k].word, line[k].font))
  }

  /** `flush`: nothing happens to an empty line; otherwise its words go to
      the display list, the cursor moves below the line and back to the left
      margin, and the line is emptied. */
  function FlushF(m: Draw.FontMetrics, st: State): State {
    if st.line == [] then st
    else
      var baseline := Baseline(m, st.line, st.cursorY);
      st.(displayList := st.displayList + PlaceLine(m, st.line, baseline),
          cursorY := baseline + 1.25 * Draw.Maximum(Descents(m, st.line)),
          cursorX := HSTEP,
          line := [])
  }

  /** The font of the current style. */
  function CurrentFont(st: State): Draw.Font {
    Draw.Font(st.size, st.weight, st.style)
  }

  /** `word`: a word that would reach the right margin flushes the line
      first; then it is put at the cursor, which moves past it and a space. */
  function WordF(m: Draw.FontMetrics, st: State, word: string): State {
    var font := CurrentFont(st);
    var w := m.measure(font, word);
    var st1 := if st.cursorX + w >= WIDTH - HSTEP then FlushF(m, st) else st;
    st1.(line := st1.line + [LineItem(st1.cursorX, word, font)],
         cursorX := st1.cursorX + w + m.measure(font, " "))
  }

  /** The words one after the other. */
  function WordsF(m: Draw.FontMetrics, st: State, words: seq<string>): State {
    if words == [] then st else WordF(m, WordsF(m, st, words[..|words| - 1]), words[|words| - 1])
  }

  /** `token`: words of a text token, or the effect of a tag. */
  function TokenF(m: Draw.FontMetrics, st: State, tok: Token): State {
    match tok
    case TextToken(text) => WordsF(m, st, SplitWords(text))
    case TagToken(tag) =>
      if tag == "i" then st.(style := "italic")
      else if tag == "/i" then st.(style := "roman")
      else if tag == "b" then st.(weight := "bold")
      else if tag == "/b" then st.(weight := "normal")
      else if tag == "small" then st.(size := st.size - 2)
      else if tag == "/small" then st.(size := st.size + 2)
      else if tag == "big" then st.(size := st.size + 4)
      else if tag == "/big" then st.(size := st.size - 4)
      else if tag == "br" then FlushF(m, st)
      else if tag == "/p" then
        var st1 := FlushF(m, st);
        st1.(cursorY := st1.cursorY + VSTEP)
      else st
  }

  /** The tokens one after the other. */
  function TokensF(m: Draw.FontMetrics, st: State, tokens: seq<Token>): State {
    if tokens == [] then st else TokenF(m, TokensF(m, st, tokens[..|tokens| - 1]), tokens[|tokens| - 1])
  }

  // ---- what the steps promise ----

  /** Flushing keeps what was displayed, adds the line's words in order on
      one common baseline, and moves the cursor down when the fonts have
      non-negative metrics. */
  lemma FlushPlacesLine(m: Draw.FontMetrics, st: State)
    requires st.line != []
    ensures var r := FlushF(m, st); var b := Baseline(m, st.line, st.cursorY);
      && r.displayList[..|st.displayList|] == st.displayList
      && |r.displayList| == |st.displayList| + |st.line|
      && (forall k :: 0 <= k < |st.line| ==>
            var p := r.displayList[|st.displayList| + k];
            p.x == st.line[k].x && p.word == st.line[k].word && p.y + m.ascent(p.font) == b)
      && r.line == [] && r.cursorX == HSTEP
      && r.style == st.style && r.weight == st.weight && r.size == st.size
    ensures (forall k :: 0 <= k < |st.line| ==> m.ascent(st.line[k].font) >= 0.0 && m.descent(st.line[k].font) >= 0.0) ==>
      FlushF(m, st).cursorY >= st.cursorY
  {
    var r := FlushF(m, st);
    var b := Baseline(m, st.line, st.cursorY);
    assert r.displayList == st.displayList + PlaceLine(m, st.line, b);
    if forall k :: 0 <= k < |st.line| ==> m.ascent(st.line[k].font) >= 0.0 && m.descent(st.line[k].font) >= 0.0 {
      assert Ascents(m, st.line)[0] >= 0.0;
      assert Descents(m, st.line)[0] >= 0.0;
    }
  }

  /** Flushing an empty line changes nothing. */
  lemma FlushEmptyIsNoOp(m: Draw.FontMetrics, st: State)
    requires st.line == []
    ensures FlushF(m, st) == st
  {
  }

  /** A word flushes the line exactly when it would reach the right margin,
      and then starts at the left margin; the cursor moves past it and one
      space. */
  lemma WordBreaks(m: Draw.FontMetrics, st: State, word: string)
    ensures var font := CurrentFont(st); var w := m.measure(font, word); var r := WordF(m, st, word);
      && (st.cursorX + w >= WIDTH - HSTEP && st.line != [] ==>
            r.line == [LineItem(HSTEP, word, font)] && r.cursorX == HSTEP + w + m.measure(font, " "))
      && (st.cursorX + w < WIDTH - HSTEP ==>
            r.line == st.line + [LineItem(st.cursorX, word, font)] && r.displayList == st.displayList
            && r.cursorX == st.cursorX + w + m.measure(font, " ") && r.cursorY == st.cursorY)
  {
  }

  /** A tag other than `br` and `/p` changes only the font: the display
      list, the line and the cursor stay; `i` and `/i` set the slant, `b`
      and `/b` the weight, and a tag the method does not know changes
      nothing. */
  lemma TagsKeepLayout(m: Draw.FontMetrics, st: State, tag: string)
    requires tag != "br" && tag != "/p"
    ensures var r := TokenF(m, st, TagToken(tag));
      && r.displayList == st.displayList && r.line == st.line
      && r.cursorX == st.cursorX && r.cursorY == st.cursorY
    ensures tag == "i" ==> TokenF(m, st, TagToken(tag)) == st.(style := "italic")
    ensures tag == "/i" ==> TokenF(m, st, TagToken(tag)) == st.(style := "roman")
    ensures tag == "b" ==> TokenF(m, st, TagToken(tag)) == st.(weight := "bold")
    ensures tag == "/b" ==> TokenF(m, st, TagToken(tag)) == st.(weight := "normal")
    ensures tag !in ["i", "/i", "b", "/b", "small", "/small", "big", "/big"] ==> TokenF(m, st, TagToken(tag)) == st
  {
  }

  /** `small`/`/small` change the size by -2/+2 and `big`/`/big` by +4/-4,
      so that a balanced pair gives back the size it started from. */
  lemma SizeTagsBalance(m: Draw.FontMetrics, st: State)
    ensures TokenF(m, st, TagToken("small")).size == st.size - 2
    ensures TokenF(m, st, TagToken("big")).size == st.size + 4
    ensures TokenF(m, TokenF(m, st, TagToken("small")), TagToken("/small")) == st
    ensures TokenF(m, TokenF(m, st, TagToken("big")), TagToken("/big")) == st
  {
  }

  /** `/p` flushes and then moves down by `VSTEP` more. */
  lemma ParagraphEndAddsSpace(m: Draw.FontMetrics, st: State)
    ensures TokenF(m, st, TagToken("/p")).cursorY == FlushF(m, st).cursorY + VSTEP
    ensures TokenF(m, st, TagToken("/p")).line == []
  {
  }

  /** The display list only grows: tokens never take back a placed word. */
  lemma {:induction false} TokensKeepDisplayed(m: Draw.FontMetrics, st: State, tokens: seq<Token>)
    ensures var r := TokensF(m, st, tokens);
      |st.displayList| <= |r.displayList| && r.displayList[..|st.displayList|] == st.displayList
    decreases |tokens|, 1
  {
    if tokens != [] {
      var front := TokensF(m, st, tokens[..|tokens| - 1]);
      TokensKeepDisplayed(m, st, tokens[..|tokens| - 1]);
      TokenKeepsDisplayed(m, front, tokens[|tokens| - 1]);
    }
  }

  lemma TokenKeepsDisplayed(m: Draw.FontMetrics, st: State, tok: Token)
    ensures var r := TokenF(m, st, tok);
      |st.displayList| <= |r.displayList| && r.displayList[..|st.displayList|] == st.displayList
  {
    if tok.TextToken? {
      WordsKeepDisplayed(m, st, SplitWords(tok.text));
    }
  }

  lemma {:induction false} WordsKeepDisplayed(m: Draw.FontMetrics, st: State, words: seq<string>)
    ensures var r := WordsF(m, st, words);
      |st.displayList| <= |r.displayList| && r.displayList[..|st.displayList|] == st.displayList
  {
    if words != [] {
      var front := WordsF(m, st, words[..|words| - 1]);
      WordsKeepDisplayed(m, st, words[..|words| - 1]);
      assert WordsF(m, st, words) == WordF(m, front, words[|words| - 1]);
    }
  }

  // ---- the layout object ----

  /** `Layout(tokens)`: the constructor runs `token` on every token and
      flushes at the end. */
  class Layout {
    const m: Draw.FontMetrics
    var displayList: seq<Placed>
    var cursorX: real
    var cursorY: real
    var weight: string
    var style: string
    var size: int
    var line: seq<LineItem>

    function Fields(): State
      reads this
    {
      State(displayList, cursorX, cursorY, weight, style, size, line)
    }

    constructor (tokens: seq<Token>, m: Draw.FontMetrics)
      ensures this.m == m
      ensures Fields() == FlushF(m, TokensF(m, Start, tokens))
    {
      this.m := m;
      displayList := [];
      cursorX := HSTEP;
      cursorY := VSTEP;
      weight := "normal";
      style := "roman";
      size := 12;
      line := [];
      new;
      var k := 0;
      while k < |tokens|
        invariant 0 <= k <= |tokens|
        invariant this.m == m
        invariant Fields() == TokensF(m, Start, tokens[..k])
      {
        assert tokens[..k + 1][..k] == tokens[..k];
        Token(tokens[k]);
        k := k + 1;
      }
      assert tokens[..k] == tokens;
      Flush();
    }

    /** `flush`. */
    method Flush()
      modifies this
      ensures Fields() == FlushF(m, old(Fields()))
    {
      if line == [] {
        return;
      }
      var baseline := Baseline(m, line, cursorY);
      var placed := PlaceWords(line, baseline);
      displayList := displayList + placed;
      cursorY := baseline + 1.25 * Draw.Maximum(Descents(m, line));
      cursorX := HSTEP;
      line := [];
    }

    /** The loop of `flush` that puts each word of the line on the
        baseline. */
    method PlaceWords(items: seq<LineItem>, baseline: real) returns (placed: seq<Placed>)
      ensures placed == PlaceLine(m, items, baseline)
    {
      placed := [];
      var k := 0;
      while k < |items|
        invariant 0 <= k <= |items|
        invariant placed == PlaceLine(m, items, baseline)[..k]
      {
        var item := items[k];
        placed := placed + [Placed(item.x, baseline - m.ascent(item.font), item.word, item.font)];
        k := k + 1;
      }
    }

    /** `token(tok)`. */
    method Token(tok: Token)
      modifies this
      ensures Fields() == TokenF(m, old(Fields()), tok)
    {
      match tok
      case TextToken(text) => Words(SplitWords(text));
      case TagToken(tag) => Tag(tag);
    }

    /** The `for word in tok.text.split()` loop of `token`. */
    method Words(words: seq<string>)
      modifies this
      ensures Fields() == WordsF(m, old(Fields()), words)
    {
      var k := 0;
      while k < |words|
        invariant 0 <= k <= |words|
        invariant Fields() == WordsF(m, old(Fields()), words[..k])
      {
        assert words[..k + 1][..k] == words[..k];
        Word(words[k]);
        k := k + 1;
      }
      assert words[..k] == words;
    }

    /** The tag branches of `token`. */
    method Tag(tag: string)
      modifies this
      ensures Fields() == TokenF(m, old(Fields()), TagToken(tag))
    {
      if tag == "i" {
        style := "italic";
      } else if tag == "/i" {
        style := "roman";
      } else if tag == "b" {
        weight := "bold";
      } else if tag == "/b" {
        weight := "normal";
      } else if tag == "small" {
        size := size - 2;
      } else if tag == "/small" {
        size := size + 2;
      } else if tag == "big" {
        size := size + 4;
      } else if tag == "/big" {
        size := size - 4;
      } else if tag == "br" {
        Flush();
      } else if tag == "/p" {
        Flush();
        cursorY := cursorY + VSTEP;
      }
    }

    /** `word(word)`. */
    method Word(word: string)
      modifies this
      ensures Fields() == WordF(m, old(Fields()), word)
    {
      var font := Draw.Font(size, weight, style);
      var w := m.measure(font, word);
      if cursorX + w >= WIDTH - HSTEP {
        Flush();
      }
      line := line + [LineItem(cursorX, word, font)];
      cursorX := cursorX + w + m.measure(font, " ");
    }
  }
}
