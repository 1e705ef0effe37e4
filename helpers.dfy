/** `helpers.py`: preorder flattening of a tree (`tree_to_list`), painting a
    layout tree into a display list (`paint_tree`) and the font cache
    (`get_font`). Trees are arenas: node `i` has the children `kids[i]`, and
    every child index is larger than its parent's, which is what the
    recursion of `tree_to_list` needs to stop. */
module Helpers {
  import opened Draw

  /** Every child of node `i` is a node after `i`. */
  predicate Ordered(kids: seq<seq<nat>>) {
    forall i, k :: 0 <= i < |kids| && 0 <= k < |kids[i]| ==> i < kids[i][k] < |kids|
  }

  /** In addition, no node is listed as a child twice: every node has at
      most one parent, as in a DOM tree or a layout tree. */
  predicate IsForest(kids: seq<seq<nat>>) {
    && Ordered(kids)
    && forall i, j, a, b ::
         (0 <= i < |kids| && 0 <= j < |kids| && 0 <= a < |kids[i]| && 0 <= b < |kids[j]| && kids[i][a] == kids[j][b])
         ==> i == j && a == b
  }

  /** No entry occurs twice. */
  predicate Distinct(s: seq<nat>) {
    forall a, b :: 0 <= a < b < |s| ==> s[a] != s[b]
  }

  /** The nodes of the tree rooted at `i`, root first, then the subtree of
      each child in order. */
  function Preorder(kids: seq<seq<nat>>, i: nat): (s: seq<nat>)
    requires Ordered(kids) && i < |kids|
    ensures |s| >= 1 && s[0] == i
    ensures forall k :: 0 <= k < |s| ==> i <= s[k] < |kids|
    decreases |kids| - i, |kids[i]| + 1
  {
    [i] + Forest(kids, kids[i], i)
  }

  /** The subtrees of the nodes `cs`, one after the other. */
  function Forest(kids: seq<seq<nat>>, cs: seq<nat>, bound: nat): (s: seq<nat>)
    requires Ordered(kids) && bound < |kids|
    requires forall k :: 0 <= k < |cs| ==> bound < cs[k] < |kids|
    ensures forall k :: 0 <= k < |s| ==> bound < s[k] < |kids|
    decreases |kids| - bound, |cs|
  {
    if cs == [] then [] else Preorder(kids, cs[0]) + Forest(kids, cs[1..], bound)
  }

  lemma {:induction false} ForestSnoc(kids: seq<seq<nat>>, cs: seq<nat>, c: nat, bound: nat)
    requires Ordered(kids) && bound < |kids| && bound < c < |kids|
    requires forall k :: 0 <= k < |cs| ==> bound < cs[k] < |kids|
    ensures Forest(kids, cs + [c], bound) == Forest(kids, cs, bound) + Preorder(kids, c)
    decreases |cs|
  {
    if cs != [] {
      assert (cs + [c])[1..] == cs[1..] + [c];
      ForestSnoc(kids, cs[1..], c, bound);
    }
  }

  /** A node is in the subtrees of `cs` exactly when it is in the subtree of
      one of them. */
  lemma {:induction false} ForestMembers(kids: seq<seq<nat>>, cs: seq<nat>, bound: nat, x: nat)
    requires Ordered(kids) && bound < |kids|
    requires forall k :: 0 <= k < |cs| ==> bound < cs[k] < |kids|
    ensures x in Forest(kids, cs, bound) <==> exists k :: 0 <= k < |cs| && x in Preorder(kids, cs[k])
    decreases |cs|
  {
    if cs != [] {
      ForestMembers(kids, cs[1..], bound, x);
      if x in Forest(kids, cs, bound) && x !in Preorder(kids, cs[0]) {
        var k :| 0 <= k < |cs[1..]| && x in Preorder(kids, cs[1..][k]);
        assert x in Preorder(kids, cs[k + 1]);
      }
      if exists k :: 0 <= k < |cs| && x in Preorder(kids, cs[k]) {
        var k :| 0 <= k < |cs| && x in Preorder(kids, cs[k]);
        if k > 0 { assert x in Preorder(kids, cs[1..][k - 1]); }
      }
    }
  }

  /** Every node of a subtree other than its root is the child of another
      node of the same subtree. */
  lemma {:induction false} PreorderHasParents(kids: seq<seq<nat>>, i: nat, x: nat)
    requires Ordered(kids) && i < |kids| && x in Preorder(kids, i) && x != i
    ensures exists p, a :: 0 <= p < |kids| && p in Preorder(kids, i)
              && 0 <= a < |kids[p]| && kids[p][a] == x
    decreases |kids| - i
  {
    assert x in Forest(kids, kids[i], i);
    ForestMembers(kids, kids[i], i, x);
    var k :| 0 <= k < |kids[i]| && x in Preorder(kids, kids[i][k]);
    var c := kids[i][k];
    SubtreeOfChild(kids, i, k);
    if x == c {
      assert i in Preorder(kids, i);
    } else {
      PreorderHasParents(kids, c, x);
      var p, a :| 0 <= p < |kids| && p in Preorder(kids, c)
                  && 0 <= a < |kids[p]| && kids[p][a] == x;
      SubtreeTransitive(kids, i, c, p);
    }
  }

  lemma SubtreeOfChild(kids: seq<seq<nat>>, i: nat, k: nat)
    requires Ordered(kids) && i < |kids| && k < |kids[i]|
    ensures kids[i][k] in Preorder(kids, i)
  {
    ForestMembers(kids, kids[i], i, kids[i][k]);
  }

  /** A subtree contains the whole subtree of each of its nodes. */
  lemma {:induction false} SubtreeTransitive(kids: seq<seq<nat>>, i: nat, c: nat, x: nat)
    requires Ordered(kids) && i < |kids| && c in Preorder(kids, i) && x in Preorder(kids, c)
    ensures x in Preorder(kids, i)
    decreases |kids| - i
  {
    if c != i {
      assert c in Forest(kids, kids[i], i);
      ForestMembers(kids, kids[i], i, c);
      var k :| 0 <= k < |kids[i]| && c in Preorder(kids, kids[i][k]);
      SubtreeTransitive(kids, kids[i][k], c, x);
      ForestMembers(kids, kids[i], i, x);
    }
  }

  /** In a forest, the subtrees of two different children of one node have
      no node in common. */
  lemma {:induction false} SiblingsDisjoint(kids: seq<seq<nat>>, i: nat, a: nat, b: nat, x: nat)
    requires IsForest(kids) && i < |kids| && a < |kids[i]| && b < |kids[i]| && a != b
    ensures !(x in Preorder(kids, kids[i][a]) && x in Preorder(kids, kids[i][b]))
    decreases x
  {
    var ca, cb := kids[i][a], kids[i][b];
    if x in Preorder(kids, ca) && x in Preorder(kids, cb) {
      if x == ca || x == cb {
        // the other subtree would have to hold `i`, which comes before both
        PreorderHasParents(kids, if x == ca then cb else ca, x);
        assert false;
      } else {
        PreorderHasParents(kids, ca, x);
        var p, e :| p in Preorder(kids, ca) && 0 <= p < |kids| && 0 <= e < |kids[p]| && kids[p][e] == x;
        PreorderHasParents(kids, cb, x);
        var q, f :| q in Preorder(kids, cb) && 0 <= q < |kids| && 0 <= f < |kids[q]| && kids[q][f] == x;
        assert p == q;
        SiblingsDisjoint(kids, i, a, b, p);
        assert false;
      }
    }
  }

  /** In a forest, `tree_to_list` lists every node of the subtree once. */
  lemma {:induction false} PreorderDistinct(kids: seq<seq<nat>>, i: nat)
    requires IsForest(kids) && i < |kids|
    ensures Distinct(Preorder(kids, i))
    decreases |kids| - i, 1
  {
    assert kids[i][..|kids[i]|] == kids[i];
    ForestDistinct(kids, i, |kids[i]|);
    var f := Forest(kids, kids[i], i);
    assert Distinct(f);
    var s := [i] + f;
    assert Preorder(kids, i) == s;
    forall a, b | 0 <= a < b < |s| ensures s[a] != s[b] {
      assert s[b] == f[b - 1] && f[b - 1] > i;
      if a > 0 { assert s[a] == f[a - 1] && f[a - 1] != f[b - 1]; }
    }
  }

  /** The subtrees of the first `n` children of `i`, one after the other,
      list no node twice. */
  lemma {:induction false} ForestDistinct(kids: seq<seq<nat>>, i: nat, n: nat)
    requires IsForest(kids) && i < |kids| && n <= |kids[i]|
    ensures Distinct(Forest(kids, kids[i][..n], i))
    decreases |kids| - i, 0, n
  {
    if n > 0 {
      var c := kids[i][n - 1];
      ForestDistinct(kids, i, n - 1);
      PreorderDistinct(kids, c);
      assert kids[i][..n] == kids[i][..n - 1] + [c];
      ForestSnoc(kids, kids[i][..n - 1], c, i);
      var front, back := Forest(kids, kids[i][..n - 1], i), Preorder(kids, c);
      forall a, b | 0 <= a < |front| && 0 <= b < |back| ensures front[a] != back[b] {
        if front[a] == back[b] {
          var x := front[a];
          assert x in front;
          ForestMembers(kids, kids[i][..n - 1], i, x);
          var k :| 0 <= k < n - 1 && x in Preorder(kids, kids[i][..n - 1][k]);
          assert x in Preorder(kids, kids[i][n - 1]);
          SiblingsDisjoint(kids, i, k, n - 1, x);
        }
      }
      DistinctConcat(front, back);
    }
  }

  /** Two lists without repetitions and without a common element make a
      list without repetitions. */
  lemma DistinctConcat(front: seq<nat>, back: seq<nat>)
    requires Distinct(front) && Distinct(back)
    requires forall a, b :: 0 <= a < |front| && 0 <= b < |back| ==> front[a] != back[b]
    ensures Distinct(front + back)
  {
    var s := front + back;
    forall a, b | 0 <= a < b < |s| ensures s[a] != s[b] {
      if b < |front| {
      } else if a >= |front| {
        assert s[a] == back[a - |front|] && s[b] == back[b - |front|];
      } else {
        assert s[a] == front[a] && s[b] == back[b - |front|];
      }
    }
  }

  /** `tree_to_list(tree, list)`: appends the nodes of the tree to `list` in
      preorder, root first. */
  method TreeToList(kids: seq<seq<nat>>, root: nat, list: seq<nat>) returns (out: seq<nat>)
    requires Ordered(kids) && root < |kids|
    ensures out == list + Preorder(kids, root)
    decreases |kids| - root
  {
    out := list + [root];
    var k := 0;
    ghost var done: seq<nat> := [];
    while k < |kids[root]|
      invariant 0 <= k <= |kids[root]| && done == kids[root][..k]
      invariant out == list + [root] + Forest(kids, done, root)
    {
      var c := kids[root][k];
      ForestSnoc(kids, done, c, root);
      out := TreeToList(kids, c, out);
      done := done + [c];
      k := k + 1;
    }
    assert done == kids[root];
  }

  /** The paint output of the nodes `order`, concatenated in that order. */
  function PaintAll<T>(paint: nat -> seq<T>, order: seq<nat>): (r: seq<T>)
    ensures order == [] ==> r == []
    ensures |order| == 1 ==> r == paint(order[0])
    ensures order != [] ==> paint(order[0]) <= r
  {
    if order == [] then [] else paint(order[0]) + PaintAll(paint, order[1..])
  }

  lemma {:induction false} PaintAllAppend<T>(paint: nat -> seq<T>, a: seq<nat>, b: seq<nat>)
    ensures PaintAll(paint, a + b) == PaintAll(paint, a) + PaintAll(paint, b)
    decreases |a|
  {
    if a == [] {
      assert a + b == b;
    } else {
      assert (a + b)[0] == a[0];
      assert (a + b)[1..] == a[1..] + b;
      PaintAllAppend(paint, a[1..], b);
      assert PaintAll(paint, a + b) == paint(a[0]) + PaintAll(paint, a[1..] + b);
    }
  }

  /** `paint_tree(layout_object, display_list)`: extends the display list
      with each object's `paint()` output, in preorder. */
  method PaintTree<T>(kids: seq<seq<nat>>, root: nat, paint: nat -> seq<T>, displayList: seq<T>)
    returns (out: seq<T>)
    requires Ordered(kids) && root < |kids|
    ensures out == displayList + PaintAll(paint, Preorder(kids, root))
    decreases |kids| - root
  {
    out := displayList + paint(root);
    assert kids[root][..0] == [];
    assert [root] + Forest(kids, kids[root][..0], root) == [root];
    assert PaintAll(paint, [root][1..]) == [];
    assert PaintAll(paint, [root]) == paint(root) + [];
    assert paint(root) + [] == paint(root);
    var k := 0;
    while k < |kids[root]|
      invariant 0 <= k <= |kids[root]|
      invariant out == displayList + PaintAll(paint, [root] + Forest(kids, kids[root][..k], root))
    {
      var c := kids[root][k];
      var done := [root] + Forest(kids, kids[root][..k], root);
      assert kids[root][..k + 1] == kids[root][..k] + [c];
      ForestSnoc(kids, kids[root][..k], c, root);
      assert [root] + Forest(kids, kids[root][..k + 1], root) == done + Preorder(kids, c);
      PaintAllAppend(paint, done, Preorder(kids, c));
      out := PaintTree(kids, c, paint, out);
      assert out == displayList + (PaintAll(paint, done) + PaintAll(paint, Preorder(kids, c)));
      k := k + 1;
    }
    assert kids[root][..k] == kids[root];
  }

  /** The global `FONTS` dictionary of `get_font`. */
  class FontCache {
    var fonts: map<(int, string, string), Font>

    constructor ()
      ensures fonts == map[]
    {
      fonts := map[];
    }

    /** `get_font(size, weight, style)`: the cached font for the key, made
        on first use; entries are never evicted or replaced. */
    method GetFont(size: int, weight: string, style: string) returns (f: Font)
      modifies this
      ensures (size, weight, style) in fonts && f == fonts[(size, weight, style)]
      ensures (size, weight, style) in old(fonts) ==> fonts == old(fonts) && f == old(fonts)[(size, weight, style)]
      ensures (size, weight, style) !in old(fonts) ==>
        fonts == old(fonts)[(size, weight, style) := Font(size, weight, style)]
    {
      var key := (size, weight, style);
      if key !in fonts {
        fonts := fonts[key := Font(size, weight, style)];
      }
      f := fonts[key];
    }
  }
}
