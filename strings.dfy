/** The handful of Python string operations the browser relies on: character
    classes, `in`, `startswith`, `split(sep, 1)`, `rsplit(sep, 1)`, `strip`,
    `split()`, `casefold` and the decimal conversions of `int` and `str`.
    Whitespace is Python's; letters, digits and case folding are ASCII's
    (see README). */
module Strings {
  import opened Base

  /** Python's `str.isspace` (the full set of whitespace code points). */
  predicate IsSpace(c: char) {
    c == ' ' || ('\t' <= c <= '\r') || ('\U{1c}' <= c <= '\U{1f}') || c == '\U{85}' || c == '\U{a0}'
    || c == '\U{1680}' || ('\U{2000}' <= c <= '\U{200a}') || c == '\U{2028}' || c == '\U{2029}'
    || c == '\U{202f}' || c == '\U{205f}' || c == '\U{3000}'
  }

  predicate IsDigit(c: char) { '0' <= c <= '9' }

  /** `str.isalnum` restricted to ASCII letters and digits. */
  predicate IsAlnum(c: char) { IsDigit(c) || ('a' <= c <= 'z') || ('A' <= c <= 'Z') }

  /** `casefold` on one character: ASCII upper case becomes lower case. */
  function FoldChar(c: char): (d: char)
    ensures !('A' <= d <= 'Z')
    ensures !('A' <= c <= 'Z') ==> d == c
  {
    if 'A' <= c <= 'Z' then (c as int - 'A' as int + 'a' as int) as char else c
  }

  function CaseFold(s: string): (r: string)
    ensures |r| == |s|
    ensures forall k :: 0 <= k < |s| ==> r[k] == FoldChar(s[k])
  {
    if s == [] then [] else [FoldChar(s[0])] + CaseFold(s[1..])
  }

  predicate StartsWith(s: string, p: string) { |p| <= |s| && s[..|p|] == p }

  predicate EndsWith(s: string, p: string) { |p| <= |s| && s[|s| - |p|..] == p }

  /** `s[:-n]`: all but the last `n` characters, empty when `s` is shorter. */
  function DropLast(s: string, n: nat): (r: string)
    ensures |r| == if |s| >= n then |s| - n else 0
    ensures r == s[..|r|]
  {
    if |s| >= n then s[..|s| - n] else []
  }

  predicate OccursAt(s: string, p: string, k: nat) { k + |p| <= |s| && s[k..k + |p|] == p }

  /** Position of the first occurrence of `p` in `s` at or after `from`. */
  function IndexFrom(s: string, p: string, from: nat): (r: Option<nat>)
    requires from <= |s|
    ensures r.Some? ==> from <= r.value && OccursAt(s, p, r.value)
    ensures r.Some? ==> forall k :: from <= k < r.value ==> !OccursAt(s, p, k)
    ensures r.None? ==> forall k :: from <= k <= |s| ==> !OccursAt(s, p, k)
    decreases |s| - from
  {
    if OccursAt(s, p, from) then Some(from)
    else if from == |s| then None
    else IndexFrom(s, p, from + 1)
  }

  /** Python's `str.find`, as an Option. */
  function IndexOf(s: string, p: string): Option<nat> { IndexFrom(s, p, 0) }

  /** Python's `p in s`. */
  predicate Contains(s: string, p: string) { IndexOf(s, p).Some? }

  /** `s.split(sep, 1)` unpacked into two names: fails (ValueError) when `sep`
      does not occur; otherwise splits at its first occurrence. */
  function Split1(s: string, sep: string): (r: Option<(string, string)>)
    requires |sep| > 0
    ensures r.None? <==> !Contains(s, sep)
    ensures r.Some? ==> s == r.value.0 + sep + r.value.1 && !Contains(r.value.0, sep)
  {
    match IndexOf(s, sep)
    case None => None
    case Some(k) =>
      var before := s[..k];
      assert s == before + sep + s[k + |sep|..];
      assert !Contains(before, sep) by {
        forall j | 0 <= j <= |before| ensures !OccursAt(before, sep, j) {
          if OccursAt(before, sep, j) {
            assert s[j..j + |sep|] == before[j..j + |sep|];
            assert OccursAt(s, sep, j);
          }
        }
      }
      Some((before, s[k + |sep|..]))
  }

  /** Splitting where the first occurrence was found gives back the two
      sides. */
  lemma {:induction false} Split1Concat(a: string, sep: string, b: string)
    requires |sep| > 0 && IndexOf(a + sep + b, sep) == Some(|a|)
    ensures Split1(a + sep + b, sep) == Some((a, b))
  {
    var s := a + sep + b;
    assert s[..|a|] == a && s[|a| + |sep|..] == b;
  }

  /** Position of the last occurrence of character `c`, if any. */
  function LastIndexOf(s: string, c: char): (r: Option<nat>)
    ensures r.Some? ==> r.value < |s| && s[r.value] == c
    ensures r.Some? ==> forall k :: r.value < k < |s| ==> s[k] != c
    ensures r.None? ==> c !in s
  {
    if s == [] then None
    else if s[|s| - 1] == c then Some(|s| - 1)
    else LastIndexOf(s[..|s| - 1], c)
  }

  lemma {:induction false} OccursSingle(s: string, c: char, k: nat)
    ensures OccursAt(s, [c], k) <==> k < |s| && s[k] == c
  {
    if k < |s| { assert s[k..k + 1] == [s[k]]; }
  }

  lemma {:induction false} ContainsChar(s: string, c: char)
    ensures Contains(s, [c]) <==> c in s
  {
    if c in s {
      var k :| 0 <= k < |s| && s[k] == c;
      OccursSingle(s, c, k);
    }
    if Contains(s, [c]) {
      OccursSingle(s, c, IndexOf(s, [c]).value);
    }
  }

  /** The first occurrence of a one-character separator is found at the end of
      a prefix that does not contain it. */
  lemma {:induction false} IndexOfCharAfter(a: string, c: char, b: string)
    requires c !in a
    ensures IndexOf(a + [c] + b, [c]) == Some(|a|)
  {
    var s := a + [c] + b;
    OccursSingle(s, c, |a|);
    forall k | 0 <= k < |a| ensures !OccursAt(s, [c], k) { OccursSingle(s, c, k); }
  }

  /** Same, for a separator whose first character does not occur in the
      prefix. */
  lemma {:induction false} IndexOfAfter(a: string, p: string, b: string)
    requires |p| > 0 && p[0] !in a
    ensures IndexOf(a + p + b, p) == Some(|a|)
  {
    var s := a + p + b;
    assert s[|a|..|a| + |p|] == p;
    assert OccursAt(s, p, |a|);
    forall k | 0 <= k < |a| ensures !OccursAt(s, p, k) {
      assert s[k] == a[k];
      assert k + |p| <= |s| ==> s[k..k + |p|][0] == s[k];
    }
  }

  /** `s.strip()`: drop whitespace at both ends. */
  function StripLeft(s: string): (r: string)
    ensures |r| <= |s| && r == s[|s| - |r|..]
    ensures r != [] ==> !IsSpace(r[0])
  {
    if s != [] && IsSpace(s[0]) then StripLeft(s[1..]) else s
  }

  /** `lstrip` removes whitespace only. */
  lemma {:induction false} StripLeftDropsSpace(s: string)
    ensures forall k :: 0 <= k < |s| - |StripLeft(s)| ==> IsSpace(s[k])
  {
    if s != [] && IsSpace(s[0]) {
      StripLeftDropsSpace(s[1..]);
      forall k | 1 <= k < |s| - |StripLeft(s)| ensures IsSpace(s[k]) {
        assert s[k] == s[1..][k - 1];
      }
    }
  }

  function StripRight(s: string): (r: string)
    ensures |r| <= |s| && r == s[..|r|]
    ensures r != [] ==> !IsSpace(r[|r| - 1])
  {
    if s != [] && IsSpace(s[|s| - 1]) then StripRight(s[..|s| - 1]) else s
  }

  /** What `strip` returns is a contiguous part of its argument, starting
      where `StripLeft` starts, with no whitespace at either end. */
  function Strip(s: string): (r: string)
    ensures |r| <= |s|
    ensures r != [] ==> !IsSpace(r[0]) && !IsSpace(r[|r| - 1])
  {
    var l := StripLeft(s);
    var r := StripRight(l);
    assert r != [] ==> r[0] == l[0];
    r
  }

  /** Each character `strip` keeps is a character of its argument. */
  lemma StripKeeps(s: string)
    ensures forall k :: 0 <= k < |Strip(s)| ==> Strip(s)[k] in s
  {
    var l := StripLeft(s);
    var r := StripRight(l);
    assert Strip(s) == r;
    forall k | 0 <= k < |r| ensures r[k] in s {
      assert r[k] == l[k] == s[|s| - |l| + k];
    }
  }

  /** A non-empty run of non-whitespace characters. */
  predicate IsWord(w: string) {
    w != [] && forall j :: 0 <= j < |w| ==> !IsSpace(w[j])
  }

  /** `s.split()`: the maximal runs of non-whitespace characters, in order. */
  function SplitWords(s: string): (ws: seq<string>)
    ensures forall k :: 0 <= k < |ws| ==> IsWord(ws[k])
    decreases |s|
  {
    var t := StripLeft(s);
    if t == [] then []
    else
      var w := WordPrefix(t);
      assert IsWord(w);
      [w] + SplitWords(t[|w|..])
  }

  /** The longest prefix without whitespace. */
  function WordPrefix(s: string): (w: string)
    ensures |w| <= |s| && w == s[..|w|]
    ensures forall j :: 0 <= j < |w| ==> !IsSpace(w[j])
    ensures |w| < |s| ==> IsSpace(s[|w|])
    ensures s != [] && !IsSpace(s[0]) ==> w != []
  {
    if s == [] || IsSpace(s[0]) then [] else [s[0]] + WordPrefix(s[1..])
  }

  /** `s.split(c)` with a one-character separator: the pieces between
      separators, empty ones included. */
  function SplitOn(s: string, c: char): (parts: seq<string>)
    ensures |parts| >= 1
    ensures forall k :: 0 <= k < |parts| ==> c !in parts[k]
  {
    match LastIndexOf(s, c)
    case None => [s]
    case Some(k) => SplitOn(s[..k], c) + [s[k + 1..]]
  }

  lemma {:induction false} SplitOnJoins(s: string, c: char)
    ensures Join(SplitOn(s, c), c) == s
    decreases |s|
  {
    match LastIndexOf(s, c)
    case None =>
    case Some(k) =>
      SplitOnJoins(s[..k], c);
      JoinSnoc(SplitOn(s[..k], c), s[k + 1..], c);
      assert s == s[..k] + [c] + s[k + 1..];
  }

  /** Inverse of `SplitOn`: glue the parts back with the separator. */
  function Join(parts: seq<string>, c: char): string
    requires |parts| >= 1
  {
    if |parts| == 1 then parts[0] else Join(parts[..|parts| - 1], c) + [c] + parts[|parts| - 1]
  }

  lemma JoinSnoc(parts: seq<string>, last: string, c: char)
    requires |parts| >= 1
    ensures Join(parts + [last], c) == Join(parts, c) + [c] + last
  {
    assert (parts + [last])[..|parts|] == parts;
  }

  // ---- decimal integers: `str(n)` and `int(s)` ----

  function DigitChar(d: nat): char
    requires d < 10
  {
    ('0' as int + d) as char
  }

  /** `str(n)` for a natural number. */
  function NatToString(n: nat): (s: string)
    ensures |s| > 0 && forall k :: 0 <= k < |s| ==> IsDigit(s[k])
    decreases n
  {
    if n < 10 then [DigitChar(n)] else NatToString(n / 10) + [DigitChar(n % 10)]
  }

  function DigitsValue(s: string): nat
    requires forall k :: 0 <= k < |s| ==> IsDigit(s[k])
  {
    if s == [] then 0
    else
      assert IsDigit(s[|s| - 1]);
      10 * DigitsValue(s[..|s| - 1]) + (s[|s| - 1] as int - '0' as int)
  }

  /** `str(n)` for any integer: a negative number is its magnitude's
      digits after a minus sign. */
  function IntToString(n: int): (s: string)
    ensures |s| > 0 && !IsSpace(s[0]) && !IsSpace(s[|s| - 1])
    ensures n >= 0 ==> s == NatToString(n)
    ensures n < 0 ==> s == "-" + NatToString(-n)
  {
    if n >= 0 then NatToString(n) else "-" + NatToString(-n)
  }

  /** The digits `int` reads in base 10: ASCII digits, where an underscore
      may stand between two of them. */
  predicate DigitGroups(t: string) {
    t != [] && IsDigit(t[0]) && forall k :: 0 <= k < |t| ==> GroupChar(t, k)
  }

  /** Character `k` is a digit, or an underscore followed by one. */
  predicate GroupChar(t: string, k: nat)
    requires k < |t|
  {
    IsDigit(t[k]) || (t[k] == '_' && k + 1 < |t| && IsDigit(t[k + 1]))
  }

  /** Digit groups hold digits and underscores only. */
  lemma DigitGroupsChars(t: string)
    requires DigitGroups(t)
    ensures forall k :: 0 <= k < |t| ==> IsDigit(t[k]) || t[k] == '_'
  {
    forall k | 0 <= k < |t| ensures IsDigit(t[k]) || t[k] == '_' {
      assert GroupChar(t, k);
    }
  }

  /** The text without its underscores. */
  function Ungrouped(t: string): (d: string)
    ensures |d| <= |t|
    ensures (forall k :: 0 <= k < |t| ==> IsDigit(t[k]) || t[k] == '_') ==> forall k :: 0 <= k < |d| ==> IsDigit(d[k])
    ensures (forall k :: 0 <= k < |t| ==> IsDigit(t[k])) ==> d == t
  {
    if t == [] then []
    else
      var rest := Ungrouped(t[1..]);
      assert forall k :: 0 <= k < |t[1..]| ==> t[1..][k] == t[k + 1];
      if t[0] == '_' then rest else [t[0]] + rest
  }

  /** The text `int` accepts once the whitespace around it is gone: an
      optional `+` or `-`, then digit groups. */
  predicate IntText(t: string) {
    if t != [] && (t[0] == '+' || t[0] == '-') then DigitGroups(t[1..]) else DigitGroups(t)
  }

  /** `int(s)` on a string: whitespace around the number is ignored, a sign
      may come first, and underscores may separate digits; on any other
      text `int` raises ValueError, which is None here. Digits other than
      ASCII ones are not read (see README). */
  function ParseInt(s: string): (r: Option<int>)
    ensures r.Some? <==> IntText(Strip(s))
    ensures r.Some? && Strip(s)[0] == '-' ==> r.value <= 0
    ensures r.Some? && Strip(s)[0] != '-' ==> r.value >= 0
  {
    ReadInt(Strip(s))
  }

  /** The number in a text without surrounding whitespace. */
  function ReadInt(t: string): (r: Option<int>)
    ensures r.Some? <==> IntText(t)
    ensures r.Some? && t[0] == '-' ==> r.value <= 0
    ensures r.Some? && t[0] != '-' ==> r.value >= 0
  {
    if t != [] && (t[0] == '+' || t[0] == '-') then
      if DigitGroups(t[1..]) then
        DigitGroupsChars(t[1..]);
        var v: int := DigitsValue(Ungrouped(t[1..]));
        Some(if t[0] == '-' then -v else v)
      else None
    else if DigitGroups(t) then
      DigitGroupsChars(t);
      Some(DigitsValue(Ungrouped(t)))
    else None
  }

  /** `strip` leaves a string alone that starts and ends with something
      other than whitespace. */
  lemma StripUnspaced(s: string)
    requires s != [] && !IsSpace(s[0]) && !IsSpace(s[|s| - 1])
    ensures Strip(s) == s
  {
  }

  /** `int(str(n)) == n`, for every integer. */
  lemma ParseIntToString(n: int)
    ensures ParseInt(IntToString(n)) == Some(n)
  {
    var s := IntToString(n);
    ParseUnspaced(s);
    if n >= 0 {
      ReadNatToString(n);
    } else {
      ReadNatToString(-n);
      ReadIntSigns(NatToString(-n), s, "+" + NatToString(-n));
    }
  }

  /** The digits of `str(n)` read back as `n`. */
  lemma ReadNatToString(n: nat)
    ensures ReadInt(NatToString(n)) == Some(n)
  {
    var digits := NatToString(n);
    assert DigitGroups(digits) by {
      forall k | 0 <= k < |digits| ensures GroupChar(digits, k) {
      }
    }
    assert digits[0] != '+' && digits[0] != '-';
    DigitsOfNat(n);
  }

  /** Whitespace around the number does not matter to `int`. */
  lemma ParseIntIgnoresSpace(pre: string, t: string, post: string)
    requires forall k :: 0 <= k < |pre| ==> IsSpace(pre[k])
    requires forall k :: 0 <= k < |post| ==> IsSpace(post[k])
    requires t != [] && !IsSpace(t[0]) && !IsSpace(t[|t| - 1])
    ensures ParseInt(pre + t + post) == ParseInt(t)
  {
    assert pre + t + post == pre + (t + post);
    StripLeftSpaces(pre, t + post);
    StripRightSpaces(t, post);
    StripUnspaced(t);
    assert Strip(pre + t + post) == Strip(t);
  }

  lemma {:induction false} StripLeftSpaces(pre: string, s: string)
    requires forall k :: 0 <= k < |pre| ==> IsSpace(pre[k])
    requires s != [] && !IsSpace(s[0])
    ensures StripLeft(pre + s) == s
    decreases |pre|
  {
    if pre != [] {
      var t := pre + s;
      assert t[0] == pre[0] && IsSpace(t[0]);
      assert t[1..] == pre[1..] + s;
      assert StripLeft(t) == StripLeft(t[1..]);
      StripLeftSpaces(pre[1..], s);
    } else {
      assert pre + s == s;
    }
  }

  lemma {:induction false} StripRightSpaces(s: string, post: string)
    requires forall k :: 0 <= k < |post| ==> IsSpace(post[k])
    requires s != [] && !IsSpace(s[|s| - 1])
    ensures StripRight(s + post) == s
    decreases |post|
  {
    if post != [] {
      assert (s + post)[..|s + post| - 1] == s + post[..|post| - 1];
      StripRightSpaces(s, post[..|post| - 1]);
    } else {
      assert s + post == s;
    }
  }

  /** A `-` negates what the digits read, a `+` changes nothing. */
  lemma ParseIntSigns(d: string)
    requires DigitGroups(d) && !IsSpace(d[|d| - 1])
    ensures ParseInt(d).Some?
    ensures ParseInt("-" + d).Some? && ParseInt("-" + d).value == -ParseInt(d).value
    ensures ParseInt("+" + d) == ParseInt(d)
  {
    var neg, pos := "-" + d, "+" + d;
    ReadIntSigns(d, neg, pos);
    ParseUnspaced(d);
    ParseUnspaced(neg);
    ParseUnspaced(pos);
  }

  lemma ParseUnspaced(t: string)
    requires t != [] && !IsSpace(t[0]) && !IsSpace(t[|t| - 1])
    ensures ParseInt(t) == ReadInt(t)
  {
    StripUnspaced(t);
  }

  lemma ReadIntSigns(d: string, neg: string, pos: string)
    requires DigitGroups(d) && neg == "-" + d && pos == "+" + d
    ensures ReadInt(d).Some?
    ensures ReadInt(neg) == Some(-ReadInt(d).value)
    ensures ReadInt(pos) == ReadInt(d)
  {
    assert neg[0] == '-' && neg[1..] == d && pos[0] == '+' && pos[1..] == d;
  }

  /** An underscore between digits is skipped: `int("8_0") == 80`. */
  lemma ParseIntUnderscore()
    ensures ParseInt("8_0") == Some(80)
  {
    var t := "8_0";
    assert Strip(t) == t by { StripUnspaced(t); }
    assert DigitGroups(t) by { assert GroupChar(t, 0) && GroupChar(t, 1) && GroupChar(t, 2); }
    assert Ungrouped(t) == "80" by { assert t[1..] == "_0" && t[1..][1..] == "0"; }
    assert DigitsValue("80") == 80 by { assert "80"[..1] == "8"; }
    assert t[0] != '+' && t[0] != '-';
    DigitGroupsChars(t);
    assert ReadInt(t) == Some(80);
  }

  /** An underscore that does not stand between two digits makes `int`
      raise. */
  lemma ParseIntBadUnderscores()
    ensures ParseInt("8__0") == None && ParseInt("80_") == None
  {
    var t, u := "8__0", "80_";
    ParseUnspaced(t);
    assert !DigitGroups(t) by { assert !GroupChar(t, 1); }
    assert t[0] != '+' && t[0] != '-';
    ParseUnspaced(u);
    assert !DigitGroups(u) by { assert !GroupChar(u, 2); }
    assert u[0] != '+' && u[0] != '-';
  }

  lemma {:induction false} DigitsOfNat(n: nat)
    ensures DigitsValue(NatToString(n)) == n
    decreases n
  {
    var s := NatToString(n);
    if n >= 10 {
      DigitsOfNat(n / 10);
      assert s[..|s| - 1] == NatToString(n / 10);
    }
  }
}
