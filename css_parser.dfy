/** The CSS parser and the style cascade (`css_parser.py`). The parser is an
    object holding the text and a position; every method moves the position
    forward. Each method is proved to agree with a function of the text and
    the starting position, and the properties of parsing are proved about
    those functions. A method that raises in Python returns a failure here
    and leaves the position where Python leaves it. */
module CssParser {
  import opened Base
  import opened Strings
  import opened Helpers
  import opened Dom
  import opened Selectors

  /** The outcome of one parsing step: a value, or None where Python raises,
      and the position reached. */
  datatype Parsed<T> = Parsed(value: Option<T>, next: nat)

  /** Property name to value, as `body` returns it. */
  type Body = map<string, string>

  /** A selector and its body, as `parse` returns it. */
  type Rule = (Selector, Body)

  // ---- what parsed text looks like ----

  /** Characters `word` accepts: letters and digits, `,/#-.%()"'`, and `:`
      between single quotes. */
  predicate WordChar(c: char, inQuote: bool) {
    IsAlnum(c) || c in ",/#-.%()\"'" || (inQuote && c == ':')
  }

  /** A non-empty name with no upper-case letter: what `casefold` leaves of
      a word. */
  predicate Folded(name: string) {
    name != [] && forall k :: 0 <= k < |name| ==> !('A' <= name[k] <= 'Z')
  }

  /** A value as `pair` returns it: none of the stop characters inside and no
      whitespace at either end. */
  predicate CleanValue(v: string, stops: string) {
    && (forall k :: 0 <= k < |v| ==> v[k] !in stops)
    && (v != [] ==> !IsSpace(v[0]) && !IsSpace(v[|v| - 1]))
  }

  /** A selector as `selector` builds it: a tag selector, or a descendant
      selector whose descendant part is the last tag read. All tags are
      folded. */
  predicate SelectorChain(sel: Selector) {
    match sel
    case TagSelector(t) => Folded(t)
    case DescendantSelector(a, d) => d.TagSelector? && Folded(d.tag) && SelectorChain(a)
  }

  /** A rule as `parse` returns it. */
  predicate WellFormedRule(rule: Rule) {
    && SelectorChain(rule.0)
    && forall p :: p in rule.1 ==> Folded(p) && CleanValue(rule.1[p], ";}")
  }

  // ---- the parser as functions of the text and the position ----

  /** Where `whitespace` stops. */
  function SkipSpace(s: string, i: nat): (j: nat)
    requires i <= |s|
    ensures i <= j <= |s|
    decreases |s| - i
  {
    if i < |s| && IsSpace(s[i]) then SkipSpace(s, i + 1) else i
  }

  /** `whitespace` skips exactly the run of whitespace in front of it. */
  lemma {:induction false} SkipSpaceSkips(s: string, i: nat)
    requires i <= |s|
    ensures forall k :: i <= k < SkipSpace(s, i) ==> IsSpace(s[k])
    ensures SkipSpace(s, i) == |s| || !IsSpace(s[SkipSpace(s, i)])
    decreases |s| - i
  {
    if i < |s| && IsSpace(s[i]) {
      SkipSpaceSkips(s, i + 1);
    }
  }

  /** Where the loop of `word` stops, given whether it is inside quotes. */
  function WordEnd(s: string, i: nat, inQuote: bool): (j: nat)
    requires i <= |s|
    ensures i <= j <= |s|
    decreases |s| - i
  {
    if i == |s| then i
    else
      var q := if s[i] == '\'' then !inQuote else inQuote;
      if WordChar(s[i], q) then WordEnd(s, i + 1, q) else i
  }

  /** A word holds only word characters (a `:` only inside quotes), and it
      ends at a character that no quoting state admits. */
  lemma {:induction false} WordEndStops(s: string, i: nat, inQuote: bool)
    requires i <= |s|
    ensures forall k :: i <= k < WordEnd(s, i, inQuote) ==> WordChar(s[k], true)
    ensures WordEnd(s, i, inQuote) < |s| ==>
              !IsAlnum(s[WordEnd(s, i, inQuote)]) && s[WordEnd(s, i, inQuote)] !in ",/#-.%()\"'"
    decreases |s| - i
  {
    if i < |s| {
      var q := if s[i] == '\'' then !inQuote else inQuote;
      if WordChar(s[i], q) {
        WordEndStops(s, i + 1, q);
      }
    }
  }

  /** `word`: fails, without moving, exactly when the first character cannot
      start a word; otherwise the characters read. */
  function WordF(s: string, i: nat): (r: Parsed<string>)
    requires i <= |s|
    ensures r.value.None? <==> i == |s| || !WordChar(s[i], false)
    ensures r.value.None? ==> r.next == i
    ensures r.value.Some? ==> i < r.next <= |s| && r.value.value == s[i..r.next]
  {
    var j := WordEnd(s, i, false);
    if j > i then Parsed(Some(s[i..j]), j) else Parsed(None, i)
  }

  /** Where `until_chars(stops)` and `ignore_until(stops)` stop: at the first
      stop character, or at the end. */
  function UntilEnd(s: string, i: nat, stops: string): (j: nat)
    requires i <= |s|
    ensures i <= j <= |s|
    ensures j < |s| ==> s[j] in stops
    decreases |s| - i
  {
    if i < |s| && s[i] !in stops then UntilEnd(s, i + 1, stops) else i
  }

  /** No stop character comes before the place `UntilEnd` reaches. */
  lemma {:induction false} UntilEndFirst(s: string, i: nat, stops: string)
    requires i <= |s|
    ensures forall k :: i <= k < UntilEnd(s, i, stops) ==> s[k] !in stops
    decreases |s| - i
  {
    if i < |s| && s[i] !in stops {
      UntilEndFirst(s, i + 1, stops);
    }
  }

  /** `pair(until)`: a word, `:`, and the text up to a stop character; the
      name is folded and the value stripped. */
  function PairF(s: string, i: nat, until: string): (r: Parsed<(string, string)>)
    requires i <= |s|
    ensures i <= r.next <= |s|
    ensures r.value.Some? ==> i < r.next && (r.next == |s| || s[r.next] in until)
  {
    var w := WordF(s, i);
    if w.value.None? then Parsed(None, w.next)
    else PairValue(s, CaseFold(w.value.value), SkipSpace(s, w.next), until)
  }

  /** The part of `pair` after the name: `:`, whitespace and the value. */
  function PairValue(s: string, name: string, j: nat, until: string): (r: Parsed<(string, string)>)
    requires j <= |s|
    ensures j <= r.next <= |s|
    ensures r.value.Some? ==> j < r.next && (r.next == |s| || s[r.next] in until) && r.value.value.0 == name
  {
    if !(j < |s| && s[j] == ':') then Parsed(None, j)
    else
      var k := SkipSpace(s, j + 1);
      var e := UntilEnd(s, k, until);
      Parsed(Some((name, Strip(s[k..e]))), e)
  }

  lemma PairSteps(s: string, i: nat, until: string, w: string, wordEnd: nat, colon: nat, k: nat, e: nat)
    requires i <= |s|
    requires WordF(s, i) == Parsed(Some(w), wordEnd)
    requires colon == SkipSpace(s, wordEnd) && colon < |s| && s[colon] == ':'
    requires k == SkipSpace(s, colon + 1) && e == UntilEnd(s, k, until)
    ensures PairF(s, i, until) == Parsed(Some((CaseFold(w), Strip(s[k..e]))), e)
  {
    PairNameStep(s, i, until, w, wordEnd);
    PairValueStep(s, CaseFold(w), colon, until, k, e);
  }

  lemma PairNameStep(s: string, i: nat, until: string, w: string, wordEnd: nat)
    requires i <= |s|
    requires WordF(s, i) == Parsed(Some(w), wordEnd)
    ensures PairF(s, i, until) == PairValue(s, CaseFold(w), SkipSpace(s, wordEnd), until)
  {
  }

  lemma PairValueStep(s: string, name: string, colon: nat, until: string, k: nat, e: nat)
    requires colon < |s| && s[colon] == ':'
    requires k == SkipSpace(s, colon + 1) && e == UntilEnd(s, k, until)
    ensures PairValue(s, name, colon, until) == Parsed(Some((name, Strip(s[k..e]))), e)
  {
  }

  /** Stripping keeps only characters of the original. */
  lemma StripKeepsOut(x: string, stops: string)
    requires forall k :: 0 <= k < |x| ==> x[k] !in stops
    ensures CleanValue(Strip(x), stops)
  {
    StripKeeps(x);
  }

  /** `body()` started with `acc` already collected: the pairs up to the
      closing brace or the end of the text, skipping a malformed pair up to
      the next `;` or `}`. A later pair for the same property overrides an
      earlier one. */
  function BodyF(s: string, i: nat, acc: Body): (r: (Body, nat))
    requires i <= |s|
    ensures i <= r.1 <= |s|
    ensures r.1 == |s| || s[r.1] == '}'
    decreases |s| - i
  {
    if i == |s| || s[i] == '}' then (acc, i)
    else
      var t := BodyTurn(s, i);
      if t.goOn then BodyF(s, t.next, Store(acc, t.item)) else (Store(acc, t.item), t.next)
  }

  /** `pairs[prop] = value` for the pair read, if any. */
  function Store(acc: Body, pair: Option<(string, string)>): (r: Body)
    ensures pair.None? ==> r == acc
    ensures pair.Some? ==> r == acc[pair.value.0 := pair.value.1]
  {
    if pair.Some? then acc[pair.value.0 := pair.value.1] else acc
  }

  /** One turn of `body()`. */
  lemma BodyStep(s: string, i: nat, acc: Body, t: Turn<(string, string)>)
    requires i < |s| && s[i] != '}' && t == BodyTurn(s, i)
    ensures t.goOn ==> BodyF(s, i, acc) == BodyF(s, t.next, Store(acc, t.item))
    ensures !t.goOn ==> BodyF(s, i, acc) == (Store(acc, t.item), t.next)
  {
  }

  /** One turn of the loop of `body()` or `parse()`: the pair or rule kept,
      if any, where the position is afterwards, and whether the loop goes
      on. */
  datatype Turn<T> = Turn(item: Option<T>, next: nat, goOn: bool)

  function BodyTurn(s: string, i: nat): (t: Turn<(string, string)>)
    requires i < |s|
    ensures i <= t.next <= |s|
    ensures t.goOn ==> i < t.next
    ensures !t.goOn ==> t.next == |s| || s[t.next] == '}'
  {
    AfterPair(s, PairF(s, i, ";}"))
  }

  /** The part of a turn of `body()` after `pair`: `;` and whitespace, or the
      recovery. */
  function AfterPair(s: string, p: Parsed<(string, string)>): (t: Turn<(string, string)>)
    requires p.next <= |s|
    ensures t.item == p.value && p.next <= t.next <= |s|
    ensures t.goOn ==> p.next < t.next
    ensures !t.goOn ==> t.next == |s| || s[t.next] == '}'
  {
    if p.value.Some? then
      var j := SkipSpace(s, p.next);
      if j < |s| && s[j] == ';' then Turn(p.value, SkipSpace(s, j + 1), true)
      else Recover(s, p.value, j)
    else Recover(s, None, p.next)
  }

  /** The `except` branch of `body()`: skip to `;` or `}`, and go on after a
      `;`. */
  function Recover(s: string, pair: Option<(string, string)>, j: nat): (t: Turn<(string, string)>)
    requires j <= |s|
    ensures t.item == pair && j <= t.next <= |s|
    ensures t.goOn ==> j < t.next
    ensures !t.goOn ==> t.next == |s| || s[t.next] == '}'
  {
    var why := UntilEnd(s, j, ";}");
    if why < |s| && s[why] == ';' then Turn(pair, SkipSpace(s, why + 1), true)
    else Turn(pair, why, false)
  }

  /** The pairs collected before do not influence the rest of the body:
      they are merely overridden by the pairs read. */
  lemma {:induction false} BodyAccumulates(s: string, i: nat, acc: Body)
    requires i <= |s|
    ensures BodyF(s, i, acc).0 == acc + BodyF(s, i, map[]).0
    ensures BodyF(s, i, acc).1 == BodyF(s, i, map[]).1
    decreases |s| - i, 1
  {
    if i < |s| && s[i] != '}' {
      var t := BodyTurn(s, i);
      BodyStep(s, i, acc, t);
      BodyStep(s, i, map[], t);
      TurnAccumulates(s, i, acc, t);
    }
  }

  /** `BodyAccumulates` after one turn that started at `i`. */
  lemma {:induction false} TurnAccumulates(s: string, i: nat, acc: Body, t: Turn<(string, string)>)
    requires i <= t.next <= |s| && (t.goOn ==> i < t.next)
    ensures t.goOn ==> BodyF(s, t.next, Store(acc, t.item)).0 == acc + BodyF(s, t.next, Store(map[], t.item)).0
    ensures t.goOn ==> BodyF(s, t.next, Store(acc, t.item)).1 == BodyF(s, t.next, Store(map[], t.item)).1
    ensures !t.goOn ==> Store(acc, t.item) == acc + Store(map[], t.item)
    decreases |s| - i, 0
  {
    if t.item.Some? {
      var (k, v) := t.item.value;
      assert Store(map[], t.item) == map[k := v];
      if t.goOn {
        BodyAccumulatesOn(s, t.next, acc, k, v);
      } else {
        UpdateThenUnion(acc, k, v, map[]);
        assert map[k := v] + map[] == map[k := v];
      }
    } else if t.goOn {
      BodyAccumulates(s, t.next, acc);
    } else {
      assert acc + map[] == acc;
    }
  }

  lemma {:induction false} BodyAccumulatesOn(s: string, j: nat, acc: Body, k: string, v: string)
    requires j <= |s|
    ensures BodyF(s, j, acc[k := v]).0 == acc + BodyF(s, j, map[k := v]).0
    ensures BodyF(s, j, acc[k := v]).1 == BodyF(s, j, map[k := v]).1
    decreases |s| - j, 2
  {
    BodyAccumulates(s, j, acc[k := v]);
    BodyAccumulates(s, j, map[k := v]);
    UpdateThenUnion(acc, k, v, BodyF(s, j, map[]).0);
  }

  lemma UpdateThenUnion<K, V>(acc: map<K, V>, k: K, v: V, rest: map<K, V>)
    ensures acc[k := v] + rest == acc + (map[k := v] + rest)
  {
  }

  /** The rest of `selector()` once `out` is built: each further word makes
      the selector so far the ancestor of a new tag selector. */
  function SelectorRest(s: string, i: nat, out: Selector): (r: Parsed<Selector>)
    requires i <= |s|
    ensures i <= r.next <= |s|
    ensures r.value.Some? ==> r.next == |s| || s[r.next] == '{'
    decreases |s| - i
  {
    if i == |s| || s[i] == '{' then Parsed(Some(out), i)
    else
      var w := WordF(s, i);
      if w.value.None? then Parsed(None, i)
      else SelectorRest(s, SkipSpace(s, w.next), DescendantSelector(out, TagSelector(CaseFold(w.value.value))))
  }

  lemma FoldedWord(w: string)
    requires w != []
    ensures Folded(CaseFold(w))
  {
  }

  /** `selector()`: one or more words up to `{`. */
  function SelectorF(s: string, i: nat): (r: Parsed<Selector>)
    requires i <= |s|
    ensures i <= r.next <= |s|
    ensures r.value.Some? ==> i < r.next && (r.next == |s| || s[r.next] == '{')
  {
    var w := WordF(s, i);
    if w.value.None? then Parsed(None, i)
    else SelectorRest(s, SkipSpace(s, w.next), TagSelector(CaseFold(w.value.value)))
  }

  /** The `try` block of `parse()`: whitespace, a selector, `{`, a body and
      `}`. */
  function RuleF(s: string, i: nat): (r: Parsed<Rule>)
    requires i <= |s|
    ensures i <= r.next <= |s|
    ensures r.value.Some? ==> i < r.next
  {
    var h := RuleHead(s, i);
    if h.value.None? then Parsed(None, h.next) else RuleBody(s, h.value.value, h.next)
  }

  /** The part of the `try` block of `parse()` up to `{` and the whitespace
      after it. */
  function RuleHead(s: string, i: nat): (r: Parsed<Selector>)
    requires i <= |s|
    ensures i <= r.next <= |s|
    ensures r.value.Some? ==> i < r.next
  {
    var sel := SelectorF(s, SkipSpace(s, i));
    if sel.value.None? then Parsed(None, sel.next)
    else if !(sel.next < |s| && s[sel.next] == '{') then Parsed(None, sel.next)
    else Parsed(sel.value, SkipSpace(s, sel.next + 1))
  }

  /** `RuleHead` in terms of the selector read after the whitespace. */
  lemma RuleHeadSteps(s: string, i: nat, j: nat)
    requires i <= |s| && j == SkipSpace(s, i)
    ensures var r := SelectorF(s, j);
      RuleHead(s, i) == if r.value.None? || !(r.next < |s| && s[r.next] == '{') then Parsed(None, r.next)
        else Parsed(r.value, SkipSpace(s, r.next + 1))
  {
  }

  /** The part of the `try` block of `parse()` after `{`. */
  function RuleBody(s: string, sel: Selector, k: nat): (r: Parsed<Rule>)
    requires k <= |s|
    ensures k <= r.next <= |s|
    ensures r.value.Some? ==> k < r.next && r.value.value.0 == sel
  {
    var b := BodyF(s, k, map[]);
    if !(b.1 < |s| && s[b.1] == '}') then Parsed(None, b.1)
    else Parsed(Some((sel, b.0)), b.1 + 1)
  }

  /** `parse()` started with `acc` already collected: the rules in the order
      they appear, skipping a malformed rule up to the next `}`. */
  function ParseF(s: string, i: nat, acc: seq<Rule>): seq<Rule>
    requires i <= |s|
    decreases |s| - i
  {
    if i == |s| then acc
    else
      var t := ParseTurn(s, i);
      if t.goOn then ParseF(s, t.next, Keep(acc, t.item)) else Keep(acc, t.item)
  }

  /** `rules.append(rule)` for the rule read, if any. */
  function Keep(acc: seq<Rule>, rule: Option<Rule>): (r: seq<Rule>)
    ensures rule.None? ==> r == acc
    ensures rule.Some? ==> r == acc + [rule.value]
  {
    if rule.Some? then acc + [rule.value] else acc
  }

  /** One turn of the loop of `parse()`. */
  function ParseTurn(s: string, i: nat): (t: Turn<Rule>)
    requires i < |s|
    ensures i < t.next <= |s| || (!t.goOn && i <= t.next <= |s|)
  {
    AfterRule(s, RuleF(s, i))
  }

  /** The part of a turn of `parse()` after the `try` block: on failure,
      skip past the next `}`. */
  function AfterRule(s: string, r: Parsed<Rule>): (t: Turn<Rule>)
    requires r.next <= |s|
    ensures t.item == r.value && r.next <= t.next <= |s|
    ensures t.goOn && r.value.None? ==> r.next < t.next
    ensures !t.goOn ==> r.value.None? && t.next == |s|
  {
    if r.value.Some? then Turn(r.value, r.next, true)
    else
      var why := UntilEnd(s, r.next, "}");
      if why < |s| then Turn(None, SkipSpace(s, why + 1), true) else Turn(None, why, false)
  }

  /** `CSSParser(s).parse()`. */
  function ParseSheet(s: string): seq<Rule>
  {
    ParseF(s, 0, [])
  }

  /** `CSSParser(s).body()`, as used for a `style` attribute. */
  function ParseBody(s: string): Body
  {
    BodyF(s, 0, map[]).0
  }

  // ---- what parsing promises ----

  /** `pair` returns a folded name and a stripped value holding none of the
      stop characters. */
  lemma PairClean(s: string, i: nat, until: string)
    requires i <= |s| && PairF(s, i, until).value.Some?
    ensures Folded(PairF(s, i, until).value.value.0) && CleanValue(PairF(s, i, until).value.value.1, until)
  {
    var w := WordF(s, i);
    FoldedWord(w.value.value);
    PairNameStep(s, i, until, w.value.value, w.next);
    PairValueClean(s, CaseFold(w.value.value), SkipSpace(s, w.next), until);
  }

  lemma PairValueClean(s: string, name: string, j: nat, until: string)
    requires j <= |s| && PairValue(s, name, j, until).value.Some?
    ensures CleanValue(PairValue(s, name, j, until).value.value.1, until)
  {
    var k := SkipSpace(s, j + 1);
    var e := UntilEnd(s, k, until);
    UntilEndFirst(s, k, until);
    SliceAvoids(s, k, e, until);
    StripKeepsOut(s[k..e], until);
    assert PairValue(s, name, j, until).value.value.1 == Strip(s[k..e]);
  }

  /** A slice of `s` holds what `s` holds over that range. */
  lemma SliceAvoids(s: string, k: nat, e: nat, stops: string)
    requires k <= e <= |s| && forall i :: k <= i < e ==> s[i] !in stops
    ensures forall m :: 0 <= m < |s[k..e]| ==> s[k..e][m] !in stops
  {
    forall m | 0 <= m < |s[k..e]|
      ensures s[k..e][m] !in stops
    {
      assert s[k..e][m] == s[k + m];
    }
  }

  /** Every property of a body has a folded name and a clean value. */
  predicate CleanBody(b: Body) {
    forall p :: p in b ==> Folded(p) && CleanValue(b[p], ";}")
  }

  lemma {:induction false} BodyClean(s: string, i: nat, acc: Body)
    requires i <= |s| && CleanBody(acc)
    ensures CleanBody(BodyF(s, i, acc).0)
    decreases |s| - i
  {
    if i < |s| && s[i] != '}' {
      var t := BodyTurn(s, i);
      BodyStep(s, i, acc, t);
      if t.item.Some? {
        PairClean(s, i, ";}");
      }
      if t.goOn {
        BodyClean(s, t.next, Store(acc, t.item));
      }
    }
  }

  /** Within a body, a later declaration of a property overrides an earlier
      one: after a pair `prop: value`, the property ends with the value of
      the last later pair that names it, or with `value`. */
  lemma LaterPairOverrides(s: string, i: nat, acc: Body)
    requires i < |s| && s[i] != '}'
    requires BodyTurn(s, i).goOn && BodyTurn(s, i).item.Some?
    ensures var t := BodyTurn(s, i);
      var (prop, value) := t.item.value;
      var rest := BodyF(s, t.next, map[]).0;
      prop in BodyF(s, i, acc).0 && BodyF(s, i, acc).0[prop] == if prop in rest then rest[prop] else value
  {
    var t := BodyTurn(s, i);
    var (prop, value) := t.item.value;
    BodyStep(s, i, acc, t);
    BodyAccumulates(s, t.next, acc[prop := value]);
  }

  /** A selector read by `selector()` is a chain of folded tag selectors. */
  lemma {:induction false} SelectorRestChain(s: string, i: nat, out: Selector)
    requires i <= |s| && SelectorChain(out)
    ensures SelectorRest(s, i, out).value.Some? ==> SelectorChain(SelectorRest(s, i, out).value.value)
    decreases |s| - i
  {
    if i < |s| && s[i] != '{' {
      var w := WordF(s, i);
      if w.value.Some? {
        FoldedWord(w.value.value);
        SelectorRestChain(s, SkipSpace(s, w.next), DescendantSelector(out, TagSelector(CaseFold(w.value.value))));
      }
    }
  }

  /** A rule read by the `try` block of `parse()` is well formed. */
  lemma RuleWellFormed(s: string, i: nat)
    requires i <= |s| && RuleF(s, i).value.Some?
    ensures WellFormedRule(RuleF(s, i).value.value)
  {
    var j := SkipSpace(s, i);
    var w := WordF(s, j);
    FoldedWord(w.value.value);
    SelectorRestChain(s, SkipSpace(s, w.next), TagSelector(CaseFold(w.value.value)));
    var h := RuleHead(s, i);
    BodyClean(s, h.next, map[]);
  }

  /** `parse()` returns well-formed rules only. */
  lemma {:induction false} ParseWellFormed(s: string, i: nat, acc: seq<Rule>)
    requires i <= |s| && forall k :: 0 <= k < |acc| ==> WellFormedRule(acc[k])
    ensures forall k :: 0 <= k < |ParseF(s, i, acc)| ==> WellFormedRule(ParseF(s, i, acc)[k])
    decreases |s| - i
  {
    if i < |s| {
      var t := ParseTurn(s, i);
      if t.item.Some? {
        RuleWellFormed(s, i);
      }
      var acc' := Keep(acc, t.item);
      assert forall k :: 0 <= k < |acc'| ==> WellFormedRule(acc'[k]);
      if t.goOn {
        ParseWellFormed(s, t.next, acc');
      }
    }
  }

  /** The rules of a style sheet appear in the order of the text: the
      first rule read comes first, before everything read after it. */
  lemma ParseOrder(s: string, i: nat)
    requires i < |s| && RuleF(s, i).value.Some?
    ensures ParseF(s, i, []) == [RuleF(s, i).value.value] + ParseF(s, RuleF(s, i).next, [])
  {
    var t := ParseTurn(s, i);
    ParseStep(s, i, [], t);
    assert Keep([], t.item) == [t.item.value];
    ParseAccumulates(s, t.next, [t.item.value]);
  }

  /** One turn of `parse()`. */
  lemma ParseStep(s: string, i: nat, acc: seq<Rule>, t: Turn<Rule>)
    requires i < |s| && t == ParseTurn(s, i)
    ensures t.goOn ==> ParseF(s, i, acc) == ParseF(s, t.next, Keep(acc, t.item))
    ensures !t.goOn ==> ParseF(s, i, acc) == Keep(acc, t.item)
  {
  }

  /** The rules collected before are kept in front of the rules read. */
  lemma ParseAccumulates(s: string, i: nat, acc: seq<Rule>)
    requires i <= |s|
    ensures ParseF(s, i, acc) == acc + ParseF(s, i, [])
  {
    assert acc + [] == acc;
    ParseKeepsFront(s, i, acc, []);
  }

  lemma {:induction false} ParseKeepsFront(s: string, i: nat, front: seq<Rule>, acc: seq<Rule>)
    requires i <= |s|
    ensures ParseF(s, i, front + acc) == front + ParseF(s, i, acc)
    decreases |s| - i
  {
    if i < |s| {
      var t := ParseTurn(s, i);
      ParseStep(s, i, front + acc, t);
      ParseStep(s, i, acc, t);
      if t.item.Some? {
        assert front + acc + [t.item.value] == front + (acc + [t.item.value]);
      }
      if t.goOn {
        ParseKeepsFront(s, t.next, front, Keep(acc, t.item));
      }
    }
  }

  /** A rule that does not parse is skipped up to and including the next
      `}` and the whitespace after it; without such a brace parsing ends. */
  lemma MalformedRuleSkipped(s: string, i: nat, acc: seq<Rule>)
    requires i < |s| && RuleF(s, i).value.None?
    ensures var why := UntilEnd(s, RuleF(s, i).next, "}");
      ParseF(s, i, acc) == if why < |s| then ParseF(s, SkipSpace(s, why + 1), acc) else acc
  {
    var t := ParseTurn(s, i);
    assert t == AfterRule(s, RuleF(s, i));
    ParseStep(s, i, acc, t);
  }

  // ---- the parser object ----

  class Parser {
    const s: string
    var i: nat

    constructor (s: string)
      ensures this.s == s && i == 0
    {
      this.s := s;
      i := 0;
    }

    predicate Valid()
      reads this
    {
      i <= |s|
    }

    method Whitespace()
      requires Valid()
      modifies this
      ensures Valid() && i == SkipSpace(s, old(i))
    {
      while i < |s| && IsSpace(s[i])
        invariant old(i) <= i <= |s|
        invariant SkipSpace(s, i) == SkipSpace(s, old(i))
        decreases |s| - i
      {
        i := i + 1;
      }
    }

    method Word() returns (w: Option<string>)
      requires Valid()
      modifies this
      ensures Valid() && Parsed(w, i) == WordF(s, old(i))
    {
      var start := i;
      var inQuote := false;
      while i < |s|
        invariant start <= i <= |s|
        invariant WordEnd(s, i, inQuote) == WordEnd(s, start, false)
        decreases |s| - i
      {
        var cur := s[i];
        if cur == '\'' {
          inQuote := !inQuote;
        }
        if WordChar(cur, inQuote) {
          i := i + 1;
        } else {
          break;
        }
      }
      if !(i > start) {
        return None;
      }
      w := Some(s[start..i]);
    }

    method Literal(c: char) returns (ok: bool)
      requires Valid()
      modifies this
      ensures Valid()
      ensures ok == (old(i) < |s| && s[old(i)] == c)
      ensures i == if ok then old(i) + 1 else old(i)
    {
      if !(i < |s| && s[i] == c) {
        return false;
      }
      i := i + 1;
      ok := true;
    }

    method Pair(until: string) returns (r: Option<(string, string)>)
      requires Valid()
      modifies this
      ensures Valid() && Parsed(r, i) == PairF(s, old(i), until)
    {
      ghost var start := i;
      var prop := Word();
      if prop.None? {
        return None;
      }
      ghost var wordEnd := i;
      Whitespace();
      ghost var colon := i;
      assert colon == SkipSpace(s, wordEnd);
      var ok := Literal(':');
      if !ok {
        assert PairF(s, start, until) == Parsed(None, colon);
        return None;
      }
      Whitespace();
      ghost var k := i;
      assert k == SkipSpace(s, colon + 1);
      var value := UntilChars(until);
      assert i == UntilEnd(s, k, until) && value == s[k..i];
      r := Some((CaseFold(prop.value), Strip(value)));
      PairSteps(s, start, until, prop.value, wordEnd, colon, k, i);
    }

    method Body() returns (pairs: Body)
      requires Valid()
      modifies this
      ensures Valid() && (pairs, i) == BodyF(s, old(i), map[])
    {
      pairs := map[];
      while i < |s| && s[i] != '}'
        invariant i <= |s|
        invariant BodyF(s, i, pairs) == BodyF(s, old(i), map[])
        decreases |s| - i
      {
        var p, goOn := BodyTurnStep();
        if p.Some? {
          pairs := pairs[p.value.0 := p.value.1];
        }
        if !goOn {
          break;
        }
      }
    }

    /** One turn of the loop of `body`: the `try` block, storing the pair
        before `literal(";")`, and on failure the recovery up to `;` or
        `}`. */
    method BodyTurnStep() returns (pair: Option<(string, string)>, goOn: bool)
      requires Valid() && i < |s|
      modifies this
      ensures Valid() && Turn(pair, i, goOn) == BodyTurn(s, old(i))
    {
      pair := Pair(";}");
      goOn := AfterPairStep(pair);
    }

    /** The rest of a turn of `body` once `pair` has been tried. */
    method AfterPairStep(pair: Option<(string, string)>) returns (goOn: bool)
      requires Valid()
      modifies this
      ensures Valid() && Turn(pair, i, goOn) == AfterPair(s, Parsed(pair, old(i)))
    {
      if pair.Some? {
        Whitespace();
        var ok := Literal(';');
        if ok {
          Whitespace();
          return true;
        }
      }
      goOn := RecoverStep(pair);
    }

    /** The `except` branch of the loop of `body`. */
    method RecoverStep(ghost pair: Option<(string, string)>) returns (goOn: bool)
      requires Valid()
      modifies this
      ensures Valid() && Turn(pair, i, goOn) == Recover(s, pair, old(i))
    {
      var why := IgnoreUntil(";}");
      if why == Some(';') {
        var semicolon := Literal(';');
        Whitespace();
        goOn := true;
      } else {
        goOn := false;
      }
    }

    method IgnoreUntil(stops: string) returns (why: Option<char>)
      requires Valid()
      modifies this
      ensures Valid() && i == UntilEnd(s, old(i), stops)
      ensures why == if i < |s| then Some(s[i]) else None
    {
      while i < |s|
        invariant old(i) <= i <= |s|
        invariant UntilEnd(s, i, stops) == UntilEnd(s, old(i), stops)
        decreases |s| - i
      {
        if s[i] in stops {
          return Some(s[i]);
        } else {
          i := i + 1;
        }
      }
      return None;
    }

    method Selector() returns (sel: Option<Selector>)
      requires Valid()
      modifies this
      ensures Valid() && Parsed(sel, i) == SelectorF(s, old(i))
    {
      var first := Word();
      if first.None? {
        return None;
      }
      var out := TagSelector(CaseFold(first.value));
      Whitespace();
      while i < |s| && s[i] != '{'
        invariant i <= |s|
        invariant SelectorRest(s, i, out) == SelectorF(s, old(i))
        decreases |s| - i
      {
        var tag := Word();
        if tag.None? {
          return None;
        }
        out := DescendantSelector(out, TagSelector(CaseFold(tag.value)));
        Whitespace();
      }
      sel := Some(out);
    }

    /** The `try` block of `parse`. */
    method Rule() returns (rule: Option<Rule>)
      requires Valid()
      modifies this
      ensures Valid() && Parsed(rule, i) == RuleF(s, old(i))
    {
      var sel := RuleHeadStep();
      if sel.None? {
        return None;
      }
      rule := RuleTail(sel.value);
    }

    /** The `try` block of `parse` up to `{` and the whitespace after it. */
    method RuleHeadStep() returns (sel: Option<Selector>)
      requires Valid()
      modifies this
      ensures Valid() && Parsed(sel, i) == RuleHead(s, old(i))
    {
      Whitespace();
      RuleHeadSteps(s, old(i), i);
      sel := Selector();
      if sel.None? {
        return None;
      }
      var ok := Literal('{');
      if !ok {
        return None;
      }
      Whitespace();
    }

    /** The part of the `try` block of `parse` after `{`. */
    method RuleTail(sel: Selector) returns (rule: Option<Rule>)
      requires Valid()
      modifies this
      ensures Valid() && Parsed(rule, i) == RuleBody(s, sel, old(i))
    {
      var body := Body();
      var ok := Literal('}');
      if !ok {
        return None;
      }
      rule := Some((sel, body));
    }

    method Parse() returns (rules: seq<Rule>)
      requires Valid()
      modifies this
      ensures Valid() && rules == ParseF(s, old(i), [])
    {
      rules := [];
      while i < |s|
        invariant i <= |s|
        invariant ParseF(s, i, rules) == ParseF(s, old(i), [])
        decreases |s| - i
      {
        var rule, goOn := ParseTurnStep();
        if rule.Some? {
          rules := rules + [rule.value];
        }
        if !goOn {
          break;
        }
      }
    }

    /** One turn of the loop of `parse`: the `try` block, and on failure the
        recovery past the next `}`. */
    method ParseTurnStep() returns (rule: Option<Rule>, goOn: bool)
      requires Valid() && i < |s|
      modifies this
      ensures Valid() && Turn(rule, i, goOn) == ParseTurn(s, old(i))
    {
      rule := Rule();
      if rule.Some? {
        return rule, true;
      }
      var why := IgnoreUntil("}");
      if why == Some('}') {
        var brace := Literal('}');
        Whitespace();
        goOn := true;
      } else {
        goOn := false;
      }
    }

    method UntilChars(stops: string) returns (piece: string)
      requires Valid()
      modifies this
      ensures Valid() && i == UntilEnd(s, old(i), stops) && piece == s[old(i)..i]
    {
      var start := i;
      while i < |s| && s[i] !in stops
        invariant start <= i <= |s|
        invariant UntilEnd(s, i, stops) == UntilEnd(s, start, stops)
        decreases |s| - i
      {
        i := i + 1;
      }
      piece := s[start..i];
    }
  }
}
