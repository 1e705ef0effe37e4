/** The style cascade of `css_parser.py`: `style`, `parse_transition`,
    `diff_styles` and `cascade_priority`. `style` overwrites the `style`
    field of every node of a subtree, in preorder, so it is a method on the
    node arena; each of its steps is proved against a function of the
    arena before the step, and the cascade's promises are lemmas about
    those functions. */
module CssStyle {
  import opened Base
  import opened Strings
  import opened Helpers
  import opened Dom
  import opened Selectors
  import opened CssParser

  /** The keys of `INHERITED_PROPERTIES`, in the order the dictionary lists
      them. */
  const InheritedNames: seq<string> := ["font-size", "font-style", "font-weight", "color"]

  /** `INHERITED_PROPERTIES`: what a node without a parent starts from. */
  const InheritedDefaults: map<string, string> :=
    map["font-size" := "16px", "font-style" := "normal", "font-weight" := "normal", "color" := "black"]

  /** The floating-point conversions of the cascade, which the model does
      not interpret; each yields None where a `float(...)` raises.
      `percentFontSize(size, parentSize)` is
      `str(float(size[:-1]) / 100 * float(parentSize[:-2])) + "px"`, and
      `frames(duration)` is `int(float(duration[:-1]) / REFRESH_RATE_SEC)`. */
  datatype Numerics = Numerics(
    percentFontSize: (string, string) -> Option<string>,
    frames: string -> Option<int>)

  /** Why `style` raises. */
  datatype StyleError =
    | MissingInherited(prop: string)  // `node.parent.style[prop]` is a KeyError
    | BadFontSize                     // a `float(...)` of the percent conversion fails
    | BadTransition                   // `parse_transition` raises
    | OpacityTransition               // `tab.set_needs_render()` is defined nowhere

  /** Every parent index names a node, or is -1 for no parent. */
  predicate ParentsInRange(nodes: seq<Node>) {
    forall j :: 0 <= j < |nodes| ==> -1 <= nodes[j].parent < |nodes|
  }

  lemma WellFormedParents(nodes: seq<Node>)
    requires WellFormed(nodes)
    ensures ParentsInRange(nodes)
  {
  }

  lemma SameShapeParents(a: seq<Node>, b: seq<Node>)
    requires SameShape(a, b) && ParentsInRange(a)
    ensures ParentsInRange(b)
  {
    assert forall j :: 0 <= j < |b| ==> b[j].parent == a[j].parent;
  }

  lemma SameShapeTransitive(a: seq<Node>, b: seq<Node>, c: seq<Node>)
    ensures SameShape(a, b) && SameShape(b, c) ==> SameShape(a, c)
  {
  }

  // ---- inherited properties ----

  /** The loop over `INHERITED_PROPERTIES` from the property `names[0]` on,
      with `acc` written so far: each property is copied from `source`,
      and the first one missing there raises. */
  function InheritFrom(names: seq<string>, source: map<string, string>, acc: Body): (r: Result<Body, StyleError>)
    ensures r.Err? ==> exists k :: 0 <= k < |names| && names[k] !in source && r.error == MissingInherited(names[k])
    decreases |names|
  {
    if names == [] then Ok(acc)
    else if names[0] !in source then Err(MissingInherited(names[0]))
    else InheritFrom(names[1..], source, acc[names[0] := source[names[0]]])
  }

  /** The copy succeeds exactly when every name is in `source`; it then takes
      each named value from `source` and keeps the rest of `acc`. */
  lemma {:induction false} InheritFromCopies(names: seq<string>, source: map<string, string>, acc: Body)
    ensures InheritFrom(names, source, acc).Ok? <==> forall k :: 0 <= k < |names| ==> names[k] in source
    ensures InheritFrom(names, source, acc).Ok? ==>
      var m := InheritFrom(names, source, acc).value;
      && (forall p :: p in m <==> p in acc || p in names)
      && (forall k :: 0 <= k < |names| ==> m[names[k]] == source[names[k]])
      && (forall p :: p in acc && p !in names ==> m[p] == acc[p])
    decreases |names|
  {
    if names != [] && names[0] in source {
      var acc' := acc[names[0] := source[names[0]]];
      InheritFromCopies(names[1..], source, acc');
      if InheritFrom(names, source, acc).Ok? {
        var m := InheritFrom(names, source, acc).value;
        forall k | 0 <= k < |names| ensures m[names[k]] == source[names[k]] {
          if k > 0 {
            assert names[k] == names[1..][k - 1];
          } else if names[0] !in names[1..] {
            assert m[names[0]] == acc'[names[0]];
          } else {
            var j :| 0 <= j < |names[1..]| && names[1..][j] == names[0];
          }
        }
        forall p | p in m ensures p in acc || p in names {
          if p !in acc' { assert p in names[1..]; }
        }
      }
      forall k | 1 <= k < |names| ensures names[k] == names[1..][k - 1] {
      }
    }
  }

  /** The position of the first name missing from `source`, or `|names|`
      when there is none. */
  function FirstMissing(names: seq<string>, source: map<string, string>): (k: nat)
    ensures k <= |names|
    ensures forall j :: 0 <= j < k ==> names[j] in source
    ensures k < |names| ==> names[k] !in source
    decreases |names|
  {
    if names == [] || names[0] !in source then 0 else 1 + FirstMissing(names[1..], source)
  }

  /** What the copy has written when it stops, by returning or by raising. */
  function InheritWritten(names: seq<string>, source: map<string, string>, acc: Body): Body
    decreases |names|
  {
    if names == [] || names[0] !in source then acc
    else InheritWritten(names[1..], source, acc[names[0] := source[names[0]]])
  }

  /** The copy stops at the first missing name, and raises for it if there
      is one; by then it has written the names before it, each with its
      value in `source`, over `acc`. */
  lemma {:induction false} InheritWrittenPrefix(names: seq<string>, source: map<string, string>, acc: Body)
    ensures var k := FirstMissing(names, source);
      var r := InheritFrom(names, source, acc);
      var w := InheritWritten(names, source, acc);
      && (r.Ok? <==> k == |names|)
      && (r.Ok? ==> r.value == w)
      && (r.Err? ==> r.error == MissingInherited(names[k]))
      && (forall p :: p in w <==> p in acc || p in names[..k])
      && (forall j :: 0 <= j < k ==> w[names[j]] == source[names[j]])
      && (forall p :: p in acc && p !in names[..k] ==> w[p] == acc[p])
    decreases |names|
  {
    var k := FirstMissing(names, source);
    if names != [] && names[0] in source {
      var acc' := acc[names[0] := source[names[0]]];
      InheritWrittenPrefix(names[1..], source, acc');
      var w := InheritWritten(names, source, acc);
      assert k == 1 + FirstMissing(names[1..], source);
      assert names[..k] == [names[0]] + names[1..][..k - 1];
      forall j | 0 <= j < k ensures w[names[j]] == source[names[j]] {
        if j > 0 {
          assert names[j] == names[1..][j - 1];
        } else if names[0] !in names[1..][..k - 1] {
          assert w[names[0]] == acc'[names[0]];
        } else {
          var l :| 0 <= l < k - 1 && names[1..][..k - 1][l] == names[0];
          assert names[1..][l] == names[0];
        }
      }
    } else {
      assert names[..k] == [];
    }
  }

  /** The source of the inherited properties: the parent's style, or the
      defaults at a root. */
  function InheritSource(nodes: seq<Node>, i: nat): map<string, string>
    requires ParentsInRange(nodes) && i < |nodes|
  {
    if nodes[i].parent == -1 then InheritedDefaults else nodes[nodes[i].parent].style
  }

  /** The first loop of `style`. */
  function InheritedF(nodes: seq<Node>, i: nat): Result<Body, StyleError>
    requires ParentsInRange(nodes) && i < |nodes|
  {
    InheritFrom(InheritedNames, InheritSource(nodes, i), map[])
  }

  /** Each inherited property is the parent's value, or the default at a
      root; the loop raises only for a parent lacking one of them, and
      writes nothing else. */
  lemma InheritedFromParent(nodes: seq<Node>, i: nat)
    requires ParentsInRange(nodes) && i < |nodes|
    ensures nodes[i].parent == -1 ==> InheritedF(nodes, i).Ok?
    ensures InheritedF(nodes, i).Err? <==>
      nodes[i].parent != -1 && exists k :: 0 <= k < |InheritedNames| && InheritedNames[k] !in nodes[nodes[i].parent].style
    ensures InheritedF(nodes, i).Ok? ==>
      var m := InheritedF(nodes, i).value;
      && (forall p :: p in m <==> p in InheritedNames)
      && (forall k :: 0 <= k < |InheritedNames| ==>
            m[InheritedNames[k]] == if nodes[i].parent == -1 then InheritedDefaults[InheritedNames[k]]
                                   else nodes[nodes[i].parent].style[InheritedNames[k]])
  {
    InheritFromCopies(InheritedNames, InheritSource(nodes, i), map[]);
  }

  // ---- rules and the inline style ----

  /** The loop over the rules of `style` from `rules[0]` on: the body of
      each matching rule is written over the style so far. */
  function ApplyRules(nodes: seq<Node>, i: nat, rules: seq<Rule>, st: Body): Body
    requires i < |nodes|
    decreases |rules|
  {
    if rules == [] then st
    else ApplyRules(nodes, i, rules[1..], if Matches(rules[0].0, nodes, i) then st + rules[0].1 else st)
  }

  /** The last writer wins: a property is set by the last matching rule
      that names it, and keeps its earlier value when no matching rule
      names it. */
  lemma {:induction false} LastMatchingRuleWins(nodes: seq<Node>, i: nat, rules: seq<Rule>, st: Body, p: string)
    requires i < |nodes|
    ensures p in ApplyRules(nodes, i, rules, st) <==>
      p in st || exists k :: 0 <= k < |rules| && Matches(rules[k].0, nodes, i) && p in rules[k].1
    ensures forall k :: (0 <= k < |rules| && Matches(rules[k].0, nodes, i) && p in rules[k].1 &&
                         forall l :: k < l < |rules| && Matches(rules[l].0, nodes, i) ==> p !in rules[l].1)
                        ==> ApplyRules(nodes, i, rules, st)[p] == rules[k].1[p]
    ensures p in st && (forall k :: 0 <= k < |rules| && Matches(rules[k].0, nodes, i) ==> p !in rules[k].1)
      ==> ApplyRules(nodes, i, rules, st)[p] == st[p]
    decreases |rules|
  {
    if rules != [] {
      var st' := if Matches(rules[0].0, nodes, i) then st + rules[0].1 else st;
      LastMatchingRuleWins(nodes, i, rules[1..], st', p);
      forall k | 1 <= k < |rules| ensures rules[k] == rules[1..][k - 1] {
      }
      if p in st' && p !in st {
        assert Matches(rules[0].0, nodes, i) && p in rules[0].1;
      }
    }
  }

  /** The pairs of the `style` attribute of an element; other nodes add
      nothing. */
  function InlineStyle(node: Node): Body {
    if node.kind.ElementNode? && "style" in node.kind.attributes then ParseBody(node.kind.attributes["style"])
    else map[]
  }

  // ---- the percent font size and the transitions ----

  /** A percent font size becomes pixels relative to `parentSize`; any
      other font size is kept. */
  function ResolveFontSize(num: Numerics, st: Body, parentSize: string): (r: Result<Body, StyleError>)
    requires "font-size" in st
    ensures r.Ok? ==> r.value.Keys == st.Keys && forall p :: p in st && p != "font-size" ==> r.value[p] == st[p]
    ensures !EndsWith(st["font-size"], "%") ==> r == Ok(st)
  {
    if EndsWith(st["font-size"], "%") then
      match num.percentFontSize(st["font-size"], parentSize)
      case None => Err(BadFontSize)
      case Some(v) => Ok(st["font-size" := v])
    else Ok(st)
  }

  /** One item of a `transition` value: the property before the first
      space and the frame count of the rest; None where Python raises. */
  function TransitionItem(num: Numerics, item: string): Option<(string, int)> {
    match Split1(item, " ")
    case None => None
    case Some((prop, duration)) =>
      match num.frames(duration)
      case None => None
      case Some(f) => Some((prop, f))
  }

  /** The loop of `parse_transition` from `items[0]` on, with `acc`
      collected so far. */
  function TransitionItems(num: Numerics, items: seq<string>, acc: map<string, int>): Option<map<string, int>>
    decreases |items|
  {
    if items == [] then Some(acc)
    else
      match TransitionItem(num, items[0])
      case None => None
      case Some((prop, f)) => TransitionItems(num, items[1..], acc[prop := f])
  }

  /** `parse_transition(value)`, with `value` the result of
      `new_style.get("transition")`. */
  function TransitionsF(num: Numerics, value: Option<string>): Option<map<string, int>> {
    if value.None? || value.value == "" then Some(map[])
    else TransitionItems(num, SplitOn(value.value, ','), map[])
  }

  /** Some item of `items` reads as a transition of property `p`. */
  predicate Named(num: Numerics, items: seq<string>, p: string) {
    exists k :: 0 <= k < |items| && TransitionItem(num, items[k]).Some? && TransitionItem(num, items[k]).value.0 == p
  }

  /** The transition loop succeeds exactly when every item has a space and a
      readable duration, and then names exactly the properties of the items
      (and those collected before). */
  lemma {:induction false} TransitionItemsNames(num: Numerics, items: seq<string>, acc: map<string, int>)
    ensures TransitionItems(num, items, acc).Some? <==>
      forall k :: 0 <= k < |items| ==> TransitionItem(num, items[k]).Some?
    ensures TransitionItems(num, items, acc).Some? ==> forall p ::
      p in TransitionItems(num, items, acc).value <==> p in acc || Named(num, items, p)
    decreases |items|
  {
    if items != [] {
      forall k | 1 <= k < |items| ensures items[k] == items[1..][k - 1] {
      }
      match TransitionItem(num, items[0])
      case None =>
      case Some((prop, f)) =>
        TransitionItemsNames(num, items[1..], acc[prop := f]);
        if TransitionItems(num, items, acc).Some? {
          var rest := TransitionItems(num, items[1..], acc[prop := f]).value;
          assert TransitionItems(num, items, acc).value == rest;
          forall p
            ensures Named(num, items, p) <==> p == prop || Named(num, items[1..], p)
          {
            NamedCons(num, items, prop, f, p);
          }
        }
    }
  }

  /** The items after a first one that reads as `prop` name what the whole
      list names, less `prop`. */
  lemma NamedCons(num: Numerics, items: seq<string>, prop: string, f: int, p: string)
    requires items != [] && TransitionItem(num, items[0]) == Some((prop, f))
    ensures Named(num, items, p) <==> p == prop || Named(num, items[1..], p)
  {
    if p == prop {
      assert TransitionItem(num, items[0]).value.0 == p;
    } else {
      NamedTail(num, items, p);
    }
  }

  /** A property other than the first item's is named by the list exactly
      when it is named by the rest. */
  lemma NamedTail(num: Numerics, items: seq<string>, p: string)
    requires items != [] && (TransitionItem(num, items[0]).None? || TransitionItem(num, items[0]).value.0 != p)
    ensures Named(num, items, p) <==> Named(num, items[1..], p)
  {
    if Named(num, items, p) {
      var k :| 0 <= k < |items| && TransitionItem(num, items[k]).Some? && TransitionItem(num, items[k]).value.0 == p;
      assert k > 0 && items[1..][k - 1] == items[k];
    }
    if Named(num, items[1..], p) {
      var k :| 0 <= k < |items[1..]| && TransitionItem(num, items[1..][k]).Some? && TransitionItem(num, items[1..][k]).value.0 == p;
      assert items[k + 1] == items[1..][k];
    }
  }

  /** Without a `transition` value, or with an empty one, there are no
      transitions. */
  lemma NoTransitionValue(num: Numerics, st: Body)
    requires "transition" !in st || st["transition"] == ""
    ensures TransitionsF(num, Lookup(st, "transition")) == Some(map[])
  {
  }

  /** `diff_styles(old_style, new_style)` once the transitions `t` are
      read: the properties named in `t`, present in both styles, whose
      values differ, with the old value, the new value and the frame
      count. */
  function DiffF(oldStyle: Body, newStyle: Body, t: map<string, int>): (d: map<string, (string, string, int)>)
    ensures forall p :: p in d <==> p in t && p in oldStyle && p in newStyle && oldStyle[p] != newStyle[p]
    ensures forall p :: p in d ==> d[p] == (oldStyle[p], newStyle[p], t[p])
  {
    map p | p in t && p in oldStyle && p in newStyle && oldStyle[p] != newStyle[p] :: (oldStyle[p], newStyle[p], t[p])
  }

  /** The end of `style`: when there is an old style, the transitions are
      diffed, and an opacity transition raises at `tab.set_needs_render()`,
      which is defined nowhere. */
  function CheckTransitions(num: Numerics, oldStyle: Body, st: Body): (r: Result<Body, StyleError>)
    ensures r.Ok? ==> r.value == st
    ensures oldStyle == map[] ==> r == Ok(st)
  {
    if oldStyle == map[] then Ok(st)
    else
      match TransitionsF(num, Lookup(st, "transition"))
      case None => Err(BadTransition)
      case Some(t) => if "opacity" in DiffF(oldStyle, st, t) then Err(OpacityTransition) else Ok(st)
  }

  // ---- one node and the tree ----

  /** The new style of node `i`: inherited properties, then the matching
      rules in order, then the inline style, then the percent font size,
      then the transition check against the node's old style. */
  function ComputeStyle(nodes: seq<Node>, i: nat, rules: seq<Rule>, num: Numerics): Result<Body, StyleError>
    requires ParentsInRange(nodes) && i < |nodes|
  {
    match InheritedF(nodes, i)
    case Err(e) => Err(e)
    case Ok(inherited) =>
      InheritedFromParent(nodes, i);
      assert "font-size" == InheritedNames[0];
      AfterInherited(nodes, i, rules, num, inherited)
  }

  /** The part of `style` for one node after the inherited properties. */
  function AfterInherited(nodes: seq<Node>, i: nat, rules: seq<Rule>, num: Numerics, inherited: Body): Result<Body, StyleError>
    requires i < |nodes| && "font-size" in inherited
  {
    var st := ApplyRules(nodes, i, rules, inherited) + InlineStyle(nodes[i]);
    LastMatchingRuleWins(nodes, i, rules, inherited, "font-size");
    match ResolveFontSize(num, st, inherited["font-size"])
    case Err(e) => Err(e)
    case Ok(st') => CheckTransitions(num, nodes[i].style, st')
  }

  /** A style always holds the four inherited properties. */
  lemma StyleHasInherited(nodes: seq<Node>, i: nat, rules: seq<Rule>, num: Numerics)
    requires ParentsInRange(nodes) && i < |nodes|
    requires ComputeStyle(nodes, i, rules, num).Ok?
    ensures forall k :: 0 <= k < |InheritedNames| ==> InheritedNames[k] in ComputeStyle(nodes, i, rules, num).value
  {
    InheritedFromParent(nodes, i);
    var inherited := InheritedF(nodes, i).value;
    forall k | 0 <= k < |InheritedNames|
      ensures InheritedNames[k] in ComputeStyle(nodes, i, rules, num).value
    {
      LastMatchingRuleWins(nodes, i, rules, inherited, InheritedNames[k]);
    }
  }

  /** The inline style overrides every rule: a property of the `style`
      attribute other than the font size keeps the attribute's value. */
  lemma InlineStyleWins(nodes: seq<Node>, i: nat, rules: seq<Rule>, num: Numerics, p: string)
    requires ParentsInRange(nodes) && i < |nodes|
    requires ComputeStyle(nodes, i, rules, num).Ok?
    requires p in InlineStyle(nodes[i]) && p != "font-size"
    ensures ComputeStyle(nodes, i, rules, num).value[p] == InlineStyle(nodes[i])[p]
  {
    InheritedFromParent(nodes, i);
  }

  /** Without inline style for `p`, the rules decide: the last matching rule
      naming `p` wins, and without one an inherited value stays. */
  lemma RulesDecide(nodes: seq<Node>, i: nat, rules: seq<Rule>, num: Numerics, p: string, k: nat)
    requires ParentsInRange(nodes) && i < |nodes|
    requires ComputeStyle(nodes, i, rules, num).Ok?
    requires p !in InlineStyle(nodes[i]) && p != "font-size"
    requires k < |rules| && Matches(rules[k].0, nodes, i) && p in rules[k].1
    requires forall l :: k < l < |rules| && Matches(rules[l].0, nodes, i) ==> p !in rules[l].1
    ensures p in ComputeStyle(nodes, i, rules, num).value && ComputeStyle(nodes, i, rules, num).value[p] == rules[k].1[p]
  {
    InheritedFromParent(nodes, i);
    LastMatchingRuleWins(nodes, i, rules, InheritedF(nodes, i).value, p);
  }

  /** The style node `i` holds once `style` is done with it, whether it
      returns or raises: `node.style` is emptied first and then written
      step by step, so a raise leaves what was written before it. */
  function NewStyle(nodes: seq<Node>, i: nat, rules: seq<Rule>, num: Numerics): Body
    requires ParentsInRange(nodes) && i < |nodes|
  {
    match InheritedF(nodes, i)
    case Err(_) => InheritWritten(InheritedNames, InheritSource(nodes, i), map[])
    case Ok(inherited) =>
      InheritedFromParent(nodes, i);
      assert "font-size" == InheritedNames[0];
      var st := ApplyRules(nodes, i, rules, inherited) + InlineStyle(nodes[i]);
      LastMatchingRuleWins(nodes, i, rules, inherited, "font-size");
      match ResolveFontSize(num, st, inherited["font-size"])
      case Err(_) => st
      case Ok(st') => st'
  }

  /** When `style` returns, node `i` holds the computed style. */
  lemma NewStyleComputed(nodes: seq<Node>, i: nat, rules: seq<Rule>, num: Numerics)
    requires ParentsInRange(nodes) && i < |nodes|
    requires ComputeStyle(nodes, i, rules, num).Ok?
    ensures NewStyle(nodes, i, rules, num) == ComputeStyle(nodes, i, rules, num).value
  {
    InheritedFromParent(nodes, i);
  }

  /** When the loop over the inherited properties raises, the node has a
      parent lacking the first missing property, and holds the parent's
      values of the properties before that one and nothing else. */
  lemma NewStyleMissingInherited(nodes: seq<Node>, i: nat, rules: seq<Rule>, num: Numerics)
    requires ParentsInRange(nodes) && i < |nodes|
    requires ComputeStyle(nodes, i, rules, num).Err? && ComputeStyle(nodes, i, rules, num).error.MissingInherited?
    ensures nodes[i].parent != -1
    ensures var parent := nodes[nodes[i].parent].style;
      var k := FirstMissing(InheritedNames, parent);
      var w := NewStyle(nodes, i, rules, num);
      && k < |InheritedNames|
      && ComputeStyle(nodes, i, rules, num).error.prop == InheritedNames[k]
      && InheritedNames[k] !in parent
      && (forall p :: p in w <==> p in InheritedNames[..k])
      && (forall p :: p in w ==> p in parent && w[p] == parent[p])
  {
    var source := InheritSource(nodes, i);
    InheritWrittenPrefix(InheritedNames, source, map[]);
    InheritedFromParent(nodes, i);
    assert InheritedF(nodes, i).Err? by {
      if InheritedF(nodes, i).Ok? {
        MissingOnlyFromInherited(nodes, i, rules, num);
      }
    }
    var w := InheritWritten(InheritedNames, source, map[]);
    var k := FirstMissing(InheritedNames, source);
    forall p | p in w ensures p in source && w[p] == source[p] {
      var j :| 0 <= j < k && InheritedNames[..k][j] == p;
      assert InheritedNames[j] == p;
    }
  }

  /** Only the inherited loop raises `MissingInherited`. */
  lemma MissingOnlyFromInherited(nodes: seq<Node>, i: nat, rules: seq<Rule>, num: Numerics)
    requires ParentsInRange(nodes) && i < |nodes| && InheritedF(nodes, i).Ok?
    ensures ComputeStyle(nodes, i, rules, num).Err? ==> !ComputeStyle(nodes, i, rules, num).error.MissingInherited?
  {
    InheritedFromParent(nodes, i);
  }

  /** When the percent conversion raises, the node holds a style whose font
      size is still a percentage and which has the inline style in it. */
  lemma NewStyleBadFontSize(nodes: seq<Node>, i: nat, rules: seq<Rule>, num: Numerics)
    requires ParentsInRange(nodes) && i < |nodes|
    requires ComputeStyle(nodes, i, rules, num) == Err(BadFontSize)
    ensures var w := NewStyle(nodes, i, rules, num);
      && "font-size" in w && EndsWith(w["font-size"], "%")
      && (forall p :: p in InlineStyle(nodes[i]) ==> p in w && w[p] == InlineStyle(nodes[i])[p])
  {
    InheritedFromParent(nodes, i);
    var inherited := InheritedF(nodes, i).value;
    assert "font-size" == InheritedNames[0];
    LastMatchingRuleWins(nodes, i, rules, inherited, "font-size");
  }

  /** When the transition check raises, the node holds the complete new
      style, and it is on that style that the check raises. */
  lemma NewStyleTransition(nodes: seq<Node>, i: nat, rules: seq<Rule>, num: Numerics)
    requires ParentsInRange(nodes) && i < |nodes|
    requires ComputeStyle(nodes, i, rules, num) in {Err(BadTransition), Err(OpacityTransition)}
    ensures CheckTransitions(num, nodes[i].style, NewStyle(nodes, i, rules, num)) == ComputeStyle(nodes, i, rules, num)
  {
    InheritedFromParent(nodes, i);
  }

  /** What styling leaves: the exception it raised, if any, and the nodes
      as they are at that point. */
  datatype Styled = Styled(raised: Option<StyleError>, nodes: seq<Node>)

  /** Styling node `i`: its style is replaced by the new one, or by what was
      written of it before the raise; nothing else changes. */
  function StyleOne(nodes: seq<Node>, i: nat, rules: seq<Rule>, num: Numerics): (r: Styled)
    requires ParentsInRange(nodes) && i < |nodes|
    ensures r.raised.None? <==> ComputeStyle(nodes, i, rules, num).Ok?
    ensures r.raised.Some? ==> r.raised.value == ComputeStyle(nodes, i, rules, num).error
    ensures SameShape(nodes, r.nodes) && ParentsInRange(r.nodes)
    ensures r.nodes[i].style == NewStyle(nodes, i, rules, num)
    ensures r.raised.None? ==> r.nodes[i].style == ComputeStyle(nodes, i, rules, num).value
    ensures forall j :: 0 <= j < |nodes| && j != i ==> r.nodes[j] == nodes[j]
  {
    var n := nodes[i := nodes[i].(style := NewStyle(nodes, i, rules, num))];
    SameShapeParents(nodes, n);
    match ComputeStyle(nodes, i, rules, num)
    case Err(e) => Styled(Some(e), n)
    case Ok(_) =>
      NewStyleComputed(nodes, i, rules, num);
      Styled(None, n)
  }

  /** Styling the nodes `order` one after the other, stopping at the first
      that raises. */
  function StyleFold(nodes: seq<Node>, order: seq<nat>, rules: seq<Rule>, num: Numerics): (r: Styled)
    requires ParentsInRange(nodes) && forall k :: 0 <= k < |order| ==> order[k] < |nodes|
    ensures SameShape(nodes, r.nodes) && ParentsInRange(r.nodes)
    decreases |order|
  {
    if order == [] then Styled(None, nodes)
    else
      var s := StyleOne(nodes, order[0], rules, num);
      if s.raised.Some? then s
      else
        var r := StyleFold(s.nodes, order[1..], rules, num);
        SameShapeTransitive(nodes, s.nodes, r.nodes);
        r
  }

  /** Styling `a` and then `b` is styling `a + b`. */
  lemma {:induction false} StyleFoldAppend(nodes: seq<Node>, a: seq<nat>, b: seq<nat>, rules: seq<Rule>, num: Numerics)
    requires ParentsInRange(nodes)
    requires forall k :: 0 <= k < |a| ==> a[k] < |nodes|
    requires forall k :: 0 <= k < |b| ==> b[k] < |nodes|
    ensures StyleFold(nodes, a + b, rules, num) ==
      var r := StyleFold(nodes, a, rules, num);
      if r.raised.Some? then r else StyleFold(r.nodes, b, rules, num)
    decreases |a|
  {
    if a == [] {
      assert a + b == b;
    } else {
      assert (a + b)[0] == a[0] && (a + b)[1..] == a[1..] + b;
      var s := StyleOne(nodes, a[0], rules, num);
      if s.raised.None? {
        StyleFoldAppend(s.nodes, a[1..], b, rules, num);
      }
    }
  }

  /** A style holding the four inherited properties, as layout needs. */
  predicate HasInherited(st: Body) {
    forall k :: 0 <= k < |InheritedNames| ==> InheritedNames[k] in st
  }

  /** Styling the nodes `order` leaves every other node as it was. */
  lemma {:induction false} StyleFoldKeeps(nodes: seq<Node>, order: seq<nat>, rules: seq<Rule>, num: Numerics, j: nat)
    requires ParentsInRange(nodes) && forall k :: 0 <= k < |order| ==> order[k] < |nodes|
    requires j < |nodes| && j !in order
    ensures StyleFold(nodes, order, rules, num).nodes[j] == nodes[j]
    decreases |order|
  {
    if order != [] {
      var s := StyleOne(nodes, order[0], rules, num);
      if s.raised.None? {
        assert j !in order[1..];
        StyleFoldKeeps(s.nodes, order[1..], rules, num, j);
      }
    }
  }

  /** When styling the nodes `order` raises nothing, each of them ends up
      with the inherited properties. */
  lemma {:induction false} StyleFoldStyles(nodes: seq<Node>, order: seq<nat>, rules: seq<Rule>, num: Numerics)
    requires ParentsInRange(nodes) && forall k :: 0 <= k < |order| ==> order[k] < |nodes|
    requires StyleFold(nodes, order, rules, num).raised.None?
    ensures forall k :: 0 <= k < |order| ==> HasInherited(StyleFold(nodes, order, rules, num).nodes[order[k]].style)
    decreases |order|
  {
    if order != [] {
      var s := StyleOne(nodes, order[0], rules, num);
      assert HasInherited(s.nodes[order[0]].style) by {
        StyleHasInherited(nodes, order[0], rules, num);
      }
      StyleFoldStyles(s.nodes, order[1..], rules, num);
      var r := StyleFold(s.nodes, order[1..], rules, num);
      forall k | 0 <= k < |order| ensures HasInherited(r.nodes[order[k]].style) {
        if k > 0 {
          assert order[k] == order[1..][k - 1];
        } else if order[0] !in order[1..] {
          StyleFoldKeeps(s.nodes, order[1..], rules, num, order[0]);
        } else {
          var l :| 0 <= l < |order[1..]| && order[1..][l] == order[0];
        }
      }
    }
  }

  /** What a call of `style` reports: the exception the fold raises, if any,
      and the arena it leaves. */
  predicate Outcome(err: Option<StyleError>, nodes: seq<Node>, r: Styled) {
    err == r.raised && nodes == r.nodes
  }

  /** `cascade_priority(rule)`: the priority of the rule's selector. */
  function CascadePriority(rule: Rule): (p: nat)
    ensures rule.0.TagSelector? ==> p == 1
    ensures rule.0.DescendantSelector? ==> p == Priority(rule.0.ancestor) + Priority(rule.0.descendant)
    ensures p >= 1
  {
    Priority(rule.0)
  }

  // ---- the methods ----

  /** `for prop, value in body.items(): node.style[prop] = value`. */
  method Update(st: Body, body: Body) returns (r: Body)
    ensures r == st + body
  {
    r := st;
    var todo := body.Keys;
    while todo != {}
      invariant todo <= body.Keys
      invariant r.Keys == st.Keys + (body.Keys - todo)
      invariant forall p :: p in r ==> r[p] == if p in body && p !in todo then body[p] else st[p]
      decreases |todo|
    {
      var p :| p in todo;
      r := r[p := body[p]];
      todo := todo - {p};
    }
    assert r == st + body;
  }

  /** `parse_transition(value)`. */
  method ParseTransition(value: Option<string>, num: Numerics) returns (r: Option<map<string, int>>)
    ensures r == TransitionsF(num, value)
  {
    if value.None? || value.value == "" {
      return Some(map[]);
    }
    var items := SplitOn(value.value, ',');
    var properties: map<string, int> := map[];
    var k := 0;
    while k < |items|
      invariant 0 <= k <= |items|
      invariant TransitionItems(num, items[k..], properties) == TransitionItems(num, items, map[])
    {
      assert items[k..][1..] == items[k + 1..];
      var parts := Split1(items[k], " ");
      if parts.None? {
        return None;
      }
      var (prop, duration) := parts.value;
      var frames := num.frames(duration);
      if frames.None? {
        return None;
      }
      properties := properties[prop := frames.value];
      k := k + 1;
    }
    assert items[k..] == [];
    r := Some(properties);
  }

  /** `diff_styles(old_style, new_style)`; None where `parse_transition`
      raises. */
  method DiffStyles(oldStyle: Body, newStyle: Body, num: Numerics) returns (r: Option<map<string, (string, string, int)>>)
    ensures TransitionsF(num, Lookup(newStyle, "transition")).None? ==> r.None?
    ensures TransitionsF(num, Lookup(newStyle, "transition")).Some? ==>
      r == Some(DiffF(oldStyle, newStyle, TransitionsF(num, Lookup(newStyle, "transition")).value))
  {
    var t := ParseTransition(Lookup(newStyle, "transition"), num);
    if t.None? {
      return None;
    }
    var d := DiffLoop(oldStyle, newStyle, t.value);
    r := Some(d);
  }

  /** The loop of `diff_styles` over the transitions read. */
  method DiffLoop(oldStyle: Body, newStyle: Body, transitions: map<string, int>) returns (transition: map<string, (string, string, int)>)
    ensures transition == DiffF(oldStyle, newStyle, transitions)
  {
    transition := map[];
    var todo := transitions.Keys;
    while todo != {}
      invariant todo <= transitions.Keys
      invariant transition == DiffF(oldStyle, newStyle, map p | p in transitions && p !in todo :: transitions[p])
      decreases |todo|
    {
      var p :| p in todo;
      todo := todo - {p};
      if p in oldStyle && p in newStyle && oldStyle[p] != newStyle[p] {
        transition := transition[p := (oldStyle[p], newStyle[p], transitions[p])];
      }
    }
    assert (map p | p in transitions && p !in todo :: transitions[p]) == transitions;
  }

  /** The loop of `style` over `INHERITED_PROPERTIES`, with what it has
      written when it stops. */
  method InheritedStep(nodes: seq<Node>, i: nat) returns (r: Result<Body, StyleError>, st: Body)
    requires ParentsInRange(nodes) && i < |nodes|
    ensures r == InheritedF(nodes, i)
    ensures st == InheritWritten(InheritedNames, InheritSource(nodes, i), map[])
  {
    var node := nodes[i];
    ghost var source := InheritSource(nodes, i);
    st := map[];
    var k := 0;
    while k < |InheritedNames|
      invariant 0 <= k <= |InheritedNames|
      invariant InheritFrom(InheritedNames[k..], source, st) == InheritedF(nodes, i)
      invariant InheritWritten(InheritedNames[k..], source, st) == InheritWritten(InheritedNames, source, map[])
    {
      assert InheritedNames[k..][1..] == InheritedNames[k + 1..];
      var prop := InheritedNames[k];
      if node.parent != -1 {
        var parentStyle := nodes[node.parent].style;
        if prop !in parentStyle {
          return Err(MissingInherited(prop)), st;
        }
        st := st[prop := parentStyle[prop]];
      } else {
        st := st[prop := InheritedDefaults[prop]];
      }
      k := k + 1;
    }
    assert InheritedNames[k..] == [];
    r := Ok(st);
  }

  /** The loop of `style` over the rules. */
  method RulesStep(nodes: seq<Node>, i: nat, rules: seq<Rule>, st0: Body) returns (st: Body)
    requires i < |nodes|
    ensures st == ApplyRules(nodes, i, rules, st0)
  {
    st := st0;
    var k := 0;
    while k < |rules|
      invariant 0 <= k <= |rules|
      invariant ApplyRules(nodes, i, rules[k..], st) == ApplyRules(nodes, i, rules, st0)
    {
      assert rules[k..][1..] == rules[k + 1..];
      var (selector, body) := rules[k];
      if Matches(selector, nodes, i) {
        st := Update(st, body);
      }
      k := k + 1;
    }
    assert rules[k..] == [];
  }

  /** The `style` attribute of an element, parsed with `CSSParser.body`. */
  method InlineStep(node: Node, st0: Body) returns (st: Body)
    ensures st == st0 + InlineStyle(node)
  {
    st := st0;
    if node.kind.ElementNode? && "style" in node.kind.attributes {
      var parser := new Parser(node.kind.attributes["style"]);
      var pairs := parser.Body();
      st := Update(st, pairs);
    }
  }

  /** The conversion of a percent font size. */
  method FontSizeStep(num: Numerics, st: Body, parentFontSize: string) returns (r: Result<Body, StyleError>)
    requires "font-size" in st
    ensures r == ResolveFontSize(num, st, parentFontSize)
  {
    if EndsWith(st["font-size"], "%") {
      var size := num.percentFontSize(st["font-size"], parentFontSize);
      if size.None? {
        return Err(BadFontSize);
      }
      return Ok(st["font-size" := size.value]);
    }
    return Ok(st);
  }

  /** `if old_style:` and the loop over the transitions. */
  method TransitionStep(num: Numerics, oldStyle: Body, st: Body) returns (r: Result<Body, StyleError>)
    ensures r == CheckTransitions(num, oldStyle, st)
  {
    if oldStyle != map[] {
      var transitions := DiffStyles(oldStyle, st, num);
      if transitions.None? {
        return Err(BadTransition);
      }
      if "opacity" in transitions.value {
        return Err(OpacityTransition);
      }
    }
    return Ok(st);
  }

  /** `style(node, rules, tab)` for node `i` alone: everything but the
      recursion into the children. */
  method StyleNode(arena: Arena, i: nat, rules: seq<Rule>, num: Numerics) returns (err: Option<StyleError>)
    requires ParentsInRange(arena.nodes) && i < |arena.nodes|
    modifies arena
    ensures Outcome(err, arena.nodes, StyleOne(old(arena.nodes), i, rules, num))
  {
    var node := arena.nodes[i];
    var inherited, written := InheritedStep(arena.nodes, i);
    if inherited.Err? {
      arena.nodes := arena.nodes[i := node.(style := written)];
      return Some(inherited.error);
    }
    InheritedFromParent(arena.nodes, i);
    assert "font-size" == InheritedNames[0];
    var st := RulesStep(arena.nodes, i, rules, inherited.value);
    st := InlineStep(node, st);
    LastMatchingRuleWins(arena.nodes, i, rules, inherited.value, "font-size");
    var parentFontSize := if node.parent != -1 then arena.nodes[node.parent].style["font-size"]
                          else InheritedDefaults["font-size"];
    var sized := FontSizeStep(num, st, parentFontSize);
    if sized.Err? {
      arena.nodes := arena.nodes[i := node.(style := st)];
      return Some(sized.error);
    }
    var checked := TransitionStep(num, node.style, sized.value);
    arena.nodes := arena.nodes[i := node.(style := sized.value)];
    if checked.Err? {
      return Some(checked.error);
    }
    err := None;
  }

  /** `style(node, rules, tab)`: style node `i`, then each child's subtree
      in order; the whole subtree in preorder, stopping at the first
      exception. */
  method Style(arena: Arena, i: nat, rules: seq<Rule>, num: Numerics) returns (err: Option<StyleError>)
    requires WellFormed(arena.nodes) && i < |arena.nodes|
    modifies arena
    ensures SameShape(old(arena.nodes), arena.nodes)
    ensures Outcome(err, arena.nodes, StyleFold(old(arena.nodes), Preorder(Kids(old(arena.nodes)), i), rules, num))
    decreases |arena.nodes| - i, 2
  {
    ghost var start := arena.nodes;
    ghost var kids := Kids(start);
    StyleFoldAppend(start, [i], Forest(kids, kids[i], i), rules, num);
    err := StyleNode(arena, i, rules, num);
    if err.Some? {
      return;
    }
    SameShapeKids(start, arena.nodes);
    err := StyleChildren(arena, i, rules, num);
    SameShapeTransitive(start, old(arena.nodes), arena.nodes);
  }

  /** The loop of `style` over the children of node `i`. */
  method StyleChildren(arena: Arena, i: nat, rules: seq<Rule>, num: Numerics) returns (err: Option<StyleError>)
    requires WellFormed(arena.nodes) && i < |arena.nodes|
    modifies arena
    ensures SameShape(old(arena.nodes), arena.nodes)
    ensures Outcome(err, arena.nodes, StyleFold(old(arena.nodes), Forest(Kids(old(arena.nodes)), Kids(old(arena.nodes))[i], i), rules, num))
    decreases |arena.nodes| - i, 1
  {
    ghost var start := arena.nodes;
    ghost var kids := Kids(start);
    var children := arena.nodes[i].children;
    assert children == kids[i] && children[0..] == children;
    var k := 0;
    while k < |children|
      invariant 0 <= k <= |children|
      invariant SameShape(start, arena.nodes) && WellFormed(arena.nodes) && Kids(arena.nodes) == kids
      invariant StyleFold(start, Forest(kids, children, i), rules, num) ==
                StyleFold(arena.nodes, Forest(kids, children[k..], i), rules, num)
    {
      ghost var before := arena.nodes;
      err := StyleChild(arena, i, k, rules, num);
      SameShapeTransitive(start, before, arena.nodes);
      SameShapeKids(start, arena.nodes);
      if err.Some? {
        return;
      }
      k := k + 1;
    }
    err := None;
  }

  /** One turn of the loop of `style` over the children: the subtree of
      child `k` of node `i`. */
  method StyleChild(arena: Arena, i: nat, k: nat, rules: seq<Rule>, num: Numerics) returns (err: Option<StyleError>)
    requires WellFormed(arena.nodes) && i < |arena.nodes| && k < |arena.nodes[i].children|
    modifies arena
    ensures SameShape(old(arena.nodes), arena.nodes)
    ensures var kids := Kids(old(arena.nodes));
      && (err.None? ==> StyleFold(old(arena.nodes), Forest(kids, kids[i][k..], i), rules, num) ==
                        StyleFold(arena.nodes, Forest(kids, kids[i][k + 1..], i), rules, num))
      && (err.Some? ==> StyleFold(old(arena.nodes), Forest(kids, kids[i][k..], i), rules, num) == Styled(err, arena.nodes))
    decreases |arena.nodes| - i, 0
  {
    ghost var kids := Kids(arena.nodes);
    var c := arena.nodes[i].children[k];
    assert kids[i][k..][1..] == kids[i][k + 1..];
    StyleFoldAppend(arena.nodes, Preorder(kids, c), Forest(kids, kids[i][k + 1..], i), rules, num);
    err := Style(arena, c, rules, num);
    SameShapeKids(old(arena.nodes), arena.nodes);
  }
}
