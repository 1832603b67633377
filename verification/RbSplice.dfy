/** Taking a node out of a shape: where it has a missing child the other child moves up;
    otherwise its in-order successor takes its place. */
module RbSplice {
  import opened RbShape
  import opened RbFits
  import opened RbBalance

  lemma Removed(t0: Tree, t1: Tree, p: seq<Node>, n: Node, q: seq<Node>)
    requires Distinct(t0) && Inorder(t0) == p + [n] + q && Inorder(t1) == p + q
    ensures Distinct(t1) && Elems(t1) == Elems(t0) - {n} && n in Elems(t0)
  {
    DistinctInorder(t0);
    DistinctInorder(t1);
    NoDuplicatesSplit(p, n, q);
    var w := p + q;
    forall i, j | 0 <= i < j < |w| ensures w[i] != w[j] {
      if i < |p| { assert w[i] in SetOf(p); }
      if j >= |p| { assert w[j] == q[j - |p|] && w[j] in SetOf(q); }
    }
    assert SetOf(w) == SetOf(p) + SetOf(q);
  }

  lemma Regroup3<A>(p: seq<A>, a: seq<A>, b: seq<A>, d: seq<A>, q: seq<A>)
    ensures p + (a + b + d) + q == (p + a) + b + (d + q)
  {
  }

  lemma Regroup2<A>(p: seq<A>, a: seq<A>, d: seq<A>, q: seq<A>)
    ensures p + (a + d) + q == (p + a) + (d + q)
  {
  }

  /** Where a node sits. */
  lemma {:induction false} Locate(t: Tree, n: Node) returns (c: Context, x: Tree)
    requires n in Elems(t)
    ensures t == Plug(c, x) && x.Fork? && x.node == n
  {
    c, x := LocateBelow(Top, t, n);
  }

  lemma {:induction false} LocateBelow(c0: Context, t: Tree, n: Node) returns (c: Context, x: Tree)
    requires n in Elems(t)
    ensures Plug(c0, t) == Plug(c, x) && x.Fork? && x.node == n
    decreases t
  {
    if t.node == n {
      c, x := c0, t;
    } else if n in Elems(t.left) {
      c, x := LocateBelow(OnLeft(c0, t.node, t.red, t.right), t.left, n);
    } else {
      c, x := LocateBelow(OnRight(c0, t.left, t.node, t.red), t.right, n);
    }
  }

  // ----- at most one child

  ghost function OnlyChild(t: Tree): Tree
    requires t.Fork?
  {
    if t.left.Leaf? then t.right else t.left
  }

  lemma OnlyChildInorder(c: Context, t: Tree)
    requires t.Fork? && (t.left.Leaf? || t.right.Leaf?)
    ensures var p, q := Before(c) + Inorder(t.left), Inorder(t.right) + After(c);
      Inorder(Plug(c, t)) == p + [t.node] + q && Inorder(Plug(c, OnlyChild(t))) == p + q
  {
    InorderPlug(c, t);
    InorderPlug(c, OnlyChild(t));
    assert Inorder(OnlyChild(t)) == Inorder(t.left) + Inorder(t.right);
    Regroup3(Before(c), Inorder(t.left), [t.node], Inorder(t.right), After(c));
    Regroup2(Before(c), Inorder(t.left), Inorder(t.right), After(c));
  }

  /** The fields `f` of `u` after `n`, child of `p`, has been replaced by `x`. */
  ghost function Bypassed(p: Node?, n: Node, x: Node, u: Node, f: Links): Links {
    if u == p then if f.left == n then f.(left := x) else f.(right := x)
    else if u == x then f.(parent := p)
    else f
  }

  lemma BypassImage(c: Context, t: Tree, s: Node, root: Node, m: map<Node, Links>, u: Node)
    requires t.Fork? && (t.left.Leaf? || t.right.Leaf?) && !c.Top?
    requires Fits(Plug(c, t), s, root, m) && u in m && u != t.node
    ensures Distinct(Plug(c, OnlyChild(t))) && Elems(Plug(c, OnlyChild(t))) == m.Keys - {t.node}
    ensures Image(Plug(c, OnlyChild(t)), s, Above(root, m), u)
         == Bypassed(c.node, t.node, Ptr(OnlyChild(t), s), u, m[u])
  {
    var x, top := OnlyChild(t), Above(root, m);
    OnlyChildInorder(c, t);
    Removed(Plug(c, t), Plug(c, x), Before(c) + Inorder(t.left), t.node, Inorder(t.right) + After(c));
    FitsAt(c, t, s, root, m);
    ElemsPlug(c, t);
    ImagePlug(c, t, s, top, u);
    ImagePlug(c, x, s, top, u);
    if u in CElems(c) {
      CImageHole(c, t.node, Ptr(x, s), s, top, u);
    }
  }

  lemma BypassAt(c: Context, t: Tree, s: Node, root: Node, m: map<Node, Links>)
    requires t.Fork? && (t.left.Leaf? || t.right.Leaf?) && !c.Top?
    requires Fits(Plug(c, t), s, root, m)
    ensures var x := Ptr(OnlyChild(t), s);
      Bypassable(m, t.node, x) && m[t.node].parent == c.node && (x == s || x in m)
  {
    FitsAt(c, t, s, root, m);
    var d := if t.left.Leaf? then OnRight(c, t.left, t.node, t.red) else OnLeft(c, t.node, t.red, t.right);
    FitsAt(d, OnlyChild(t), s, root, m);
  }

  ghost predicate Bypassable(m: map<Node, Links>, n: Node, x: Node) {
    n in m && m[n].parent in m && m[n].parent != n && m[n].parent != x && x != n
  }

  lemma BypassFits(c: Context, t: Tree, s: Node, root: Node, m: map<Node, Links>, m': map<Node, Links>)
    requires t.Fork? && (t.left.Leaf? || t.right.Leaf?) && !c.Top?
    requires Fits(Plug(c, t), s, root, m) && m'.Keys == m.Keys - {t.node}
    requires forall u :: u in m' ==> m'[u] == Bypassed(c.node, t.node, Ptr(OnlyChild(t), s), u, m[u])
    ensures Fits(Plug(c, OnlyChild(t)), s, root, m')
  {
    var r := Plug(c, OnlyChild(t));
    FitsAt(c, t, s, root, m);
    RootOfPlug(c, t);
    RootOfPlug(c, OnlyChild(t));
    BypassImage(c, t, s, root, m, root);
    forall u | u in m' ensures m'[u] == Image(r, s, Above(root, m'), u) {
      BypassImage(c, t, s, root, m, u);
    }
  }

  /** The root with at most one child: the child becomes the root and keeps its stale parent. */
  lemma BypassRootFits(t: Tree, s: Node, root: Node, m: map<Node, Links>)
    requires t.Fork? && (t.left.Leaf? || t.right.Leaf?)
    requires Fits(t, s, root, m)
    ensures Fits(OnlyChild(t), s, Ptr(OnlyChild(t), s), m - {t.node})
  {
    var x, m' := OnlyChild(t), m - {t.node};
    assert Elems(t) == Elems(x) + {t.node};
    if x.Fork? {
      assert m[x.node] == Image(t, s, Above(root, m), x.node);
      assert t.node !in Elems(x) && x.node in Elems(x);
      assert Image(t, s, Above(root, m), x.node) == Image(x, s, t.node, x.node);
      assert Above(Ptr(x, s), m') == t.node;
    }
    forall u | u in m' ensures m'[u] == Image(x, s, Above(Ptr(x, s), m'), u) {
      assert m[u] == Image(t, s, Above(root, m), u);
    }
  }

  // ----- two children

  /** The context of a leftmost node. */
  ghost predicate LeftSpine(d: Context) {
    d.Top? || (d.OnLeft? && LeftSpine(d.up))
  }

  lemma {:induction false} LeftSpineBefore(d: Context)
    requires LeftSpine(d)
    ensures Before(d) == []
  {
    if !d.Top? { LeftSpineBefore(d.up); }
  }

  /** `d` hanging in the hole of `k`. */
  ghost function Under(d: Context, k: Context): Context {
    match d
    case Top => k
    case OnLeft(up, n, red, r) => OnLeft(Under(up, k), n, red, r)
    case OnRight(up, l, n, red) => OnRight(Under(up, k), l, n, red)
  }

  lemma {:induction false} PlugUnder(d: Context, k: Context, t: Tree)
    ensures Plug(Under(d, k), t) == Plug(k, Plug(d, t))
    decreases d
  {
    match d
    case Top =>
    case OnLeft(up, n, red, r) => PlugUnder(up, k, Fork(t, n, red, r));
    case OnRight(up, l, n, red) => PlugUnder(up, k, Fork(l, n, red, t));
  }

  /** Neither colours nor heights notice which node carries them. */
  lemma {:induction false} SameColours(d: Context, c: Context, l: Tree, n: Node, n': Node, red: bool,
                                       holeRed: bool, h: int)
    ensures CNoRedRed(Under(d, OnRight(c, l, n, red)), holeRed) == CNoRedRed(Under(d, OnRight(c, l, n', red)), holeRed)
    ensures CBalanced(Under(d, OnRight(c, l, n, red)), h) == CBalanced(Under(d, OnRight(c, l, n', red)), h)
  {
    match d
    case Top =>
    case OnLeft(up, _, r, _) => SameColours(up, c, l, n, n', red, r, if r then h else h + 1);
    case OnRight(up, _, _, r) => SameColours(up, c, l, n, n', red, r, if r then h else h + 1);
  }

  /** The tree around `t`, whose right subtree has its leftmost node at `d`, before and
      after that node takes the place of the root of `t`. */
  ghost predicate Successor(t: Tree, d: Context, y: Tree) {
    t.Fork? && t.left.Fork? && LeftSpine(d) && y.Fork? && y.left.Leaf? && t.right == Plug(d, y)
  }

  ghost function Promoted(t: Tree, d: Context, y: Tree): Tree
    requires Successor(t, d, y)
  {
    Fork(t.left, y.node, t.red, Plug(d, y.right))
  }

  lemma MinFirst(d: Context, y: Tree)
    requires LeftSpine(d) && y.Fork? && y.left.Leaf?
    ensures Inorder(Plug(d, y)) == [y.node] + Inorder(Plug(d, y.right))
  {
    InorderPlug(d, y);
    InorderPlug(d, y.right);
    LeftSpineBefore(d);
    FirstOfThree(Before(d), [y.node], Inorder(y.right), After(d));
  }

  lemma FirstOfThree(e: seq<Node>, a: seq<Node>, b: seq<Node>, c: seq<Node>)
    requires e == []
    ensures e + (e + a + b) + c == a + (e + b + c)
  {
  }

  lemma PromotedSubtree(t: Tree, d: Context, y: Tree)
    requires Successor(t, d, y)
    ensures Inorder(Promoted(t, d, y)) == Inorder(t.left) + Inorder(t.right)
  {
    MinFirst(d, y);
  }

  lemma PromotedInorder(c: Context, t: Tree, d: Context, y: Tree)
    requires Successor(t, d, y)
    ensures var p, q := Before(c) + Inorder(t.left), Inorder(t.right) + After(c);
      Inorder(Plug(c, t)) == p + [t.node] + q && Inorder(Plug(c, Promoted(t, d, y))) == p + q
  {
    var r := Promoted(t, d, y);
    var a, b := Inorder(t.left), Inorder(t.right);
    InorderPlug(c, t);
    Regroup3(Before(c), a, [t.node], b, After(c));
    InorderPlug(c, r);
    Regroup2(Before(c), a, b, After(c));
    PromotedSubtree(t, d, y);
  }

  lemma {:induction false} CImageMoved(d: Context, h: Node, h': Node, s: Node, p: Node?, p': Node?, u: Node)
    requires LeftSpine(d) && u in CElems(d) && CDistinct(d)
    ensures var f := CImage(d, h, s, p, u);
      var g := if u == d.node then f.(left := h') else f;
      CImage(d, h', s, p', u) == if u == TopNode(d) then g.(parent := p') else g
  {
    if !d.up.Top? && u in CElems(d.up) {
      CImageMoved(d.up, d.node, d.node, s, p, p', u);
    }
  }

  /** The fields `f` of `u` once `y`, child of `yp`, has left its place to its right child `x`;
      `n` is the node that `y` is about to replace. */
  ghost function Unhooked(n: Node, y: Node, x: Node, yp: Node?, u: Node, f: Links): Links {
    var g := if u == yp then if f.left == y then f.(left := x) else f.(right := x) else f;
    if u == x then g.(parent := if yp == n then y else yp) else g
  }

  /** The fields `f` of `u` once `y` has taken over the fields `nf` of `n`. */
  ghost function Seated(n: Node, y: Node, nf: Links, top: bool, u: Node, f: Links): Links {
    if u == y then nf
    else
      var g := if !top && u == nf.parent then if f.left == n then f.(left := y) else f.(right := y) else f;
      if u == nf.left || u == nf.right then g.(parent := y) else g
  }

  ghost function Replaced(n: Node, y: Node, x: Node, nf: Links, yp: Node?, top: bool, u: Node, f: Links): Links {
    Seated(n, y, Unhooked(n, y, x, yp, n, nf), top, u, Unhooked(n, y, x, yp, u, f))
  }

  lemma PromotedElems(c: Context, t: Tree, d: Context, y: Tree)
    requires Successor(t, d, y) && Distinct(Plug(c, t))
    ensures Distinct(Plug(c, Promoted(t, d, y)))
    ensures Elems(Plug(c, Promoted(t, d, y))) == Elems(Plug(c, t)) - {t.node}
    ensures t.node in Elems(Plug(c, t))
  {
    PromotedInorder(c, t, d, y);
    Removed(Plug(c, t), Plug(c, Promoted(t, d, y)), Before(c) + Inorder(t.left), t.node, Inorder(t.right) + After(c));
  }

  /** What the surgery relies on: how the links it follows lie. */
  lemma PromoteAt(c: Context, t: Tree, d: Context, y: Tree, s: Node, root: Node, m: map<Node, Links>)
    requires Successor(t, d, y) && Fits(Plug(c, t), s, root, m)
    ensures Promotable(m, s, root, t.node, y.node, Ptr(y.right, s))
    ensures c.Top? <==> root == t.node
    ensures !c.Top? ==> m[t.node].parent == c.node
    ensures m[y.node].parent == HoleParent(d, t.node) && m[y.node].red == y.red && m[y.node].left == s
    ensures d.Top? <==> m[y.node].parent == t.node
    ensures y.node in Elems(t.right) && (m[y.node].parent == t.node || m[y.node].parent in Elems(t.right))
    ensures m[t.node].left == t.left.node && m[t.node].right in Elems(t.right)
    ensures y.right.Fork? ==> y.right.node in Elems(t.right)
  {
    var k := OnRight(c, t.left, t.node, t.red);
    FitsAt(c, t, s, root, m);
    FitsAt(OnLeft(c, t.node, t.red, t.right), t.left, s, root, m);
    FitsAt(k, t.right, s, root, m);
    PlugUnder(d, k, y);
    FitsAt(Under(d, k), y, s, root, m);
    FitsAt(OnRight(Under(d, k), Leaf, y.node, y.red), y.right, s, root, m);
    RootOfPlug(d, y);
    ElemsPlug(d, y);
    ElemsPlug(k, t.right);
  }

  ghost predicate Promotable(m: map<Node, Links>, s: Node, root: Node, n: Node, y: Node, x: Node) {
    && n in m && y in m && n != y && s !in m && (x == s || x in m) && x != n && x != y
    && var nf, yp := m[n], m[y].parent;
       && m[y].right == x && m[y].left == s
       && nf.left in m && nf.left != n && nf.left != y && nf.left != x
       && nf.right in m && nf.right != n && nf.right != nf.left && (nf.right == y <==> yp == n)
       && nf.right != x
       && yp in m && yp != y && yp != x && yp != nf.left
       && (yp != n ==> m[yp].left == y)
       && (n != root ==> nf.parent in m)
       && (n != root ==> nf.parent != n && nf.parent != y && nf.parent != x && nf.parent != yp)
       && (n != root ==> nf.parent != nf.left && nf.parent != nf.right)
  }

  /** Outside the subtree only the parent of the replaced node changes. */
  lemma PromoteImageAround(c: Context, t: Tree, d: Context, y: Tree, s: Node, root: Node, m: map<Node, Links>, u: Node)
    requires Successor(t, d, y) && Fits(Plug(c, t), s, root, m) && u in m && u != t.node
    requires u in CElems(c)
    ensures y.node in m && t.node in m && u in Elems(Plug(c, Promoted(t, d, y)))
    ensures Image(Plug(c, Promoted(t, d, y)), s, Above(root, m), u)
         == Replaced(t.node, y.node, Ptr(y.right, s), m[t.node], m[y.node].parent, t.node == root, u, m[u])
  {
    var r, top := Promoted(t, d, y), Above(root, m);
    PromotedElems(c, t, d, y);
    PromoteAt(c, t, d, y, s, root, m);
    FitsAt(c, t, s, root, m);
    ElemsPlug(c, t);
    assert u !in Elems(t);
    ImagePlug(c, t, s, top, u);
    ImagePlug(c, r, s, top, u);
    CImageHole(c, t.node, y.node, s, top, u);
  }

  lemma PromoteImageLeft(c: Context, t: Tree, d: Context, y: Tree, s: Node, root: Node, m: map<Node, Links>, u: Node)
    requires Successor(t, d, y) && Fits(Plug(c, t), s, root, m) && u in m && u != t.node
    requires u in Elems(t.left)
    ensures y.node in m && t.node in m && u in Elems(Plug(c, Promoted(t, d, y)))
    ensures Image(Plug(c, Promoted(t, d, y)), s, Above(root, m), u)
         == Replaced(t.node, y.node, Ptr(y.right, s), m[t.node], m[y.node].parent, t.node == root, u, m[u])
  {
    var r, top := Promoted(t, d, y), Above(root, m);
    PromotedElems(c, t, d, y);
    PromoteAt(c, t, d, y, s, root, m);
    FitsAt(c, t, s, root, m);
    ElemsPlug(c, t);
    ImagePlug(c, t, s, top, u);
    ImagePlug(c, r, s, top, u);
    assert m[u] == Image(t.left, s, t.node, u);
    assert Image(Plug(c, r), s, top, u) == Image(t.left, s, y.node, u);
  }

  lemma PromoteImageSuccessor(c: Context, t: Tree, d: Context, y: Tree, s: Node, root: Node,
                              m: map<Node, Links>, u: Node)
    requires Successor(t, d, y) && Fits(Plug(c, t), s, root, m) && u in m && u != t.node
    requires u == y.node
    ensures y.node in m && t.node in m && u in Elems(Plug(c, Promoted(t, d, y)))
    ensures Image(Plug(c, Promoted(t, d, y)), s, Above(root, m), u)
         == Replaced(t.node, y.node, Ptr(y.right, s), m[t.node], m[y.node].parent, t.node == root, u, m[u])
  {
    var r, top := Promoted(t, d, y), Above(root, m);
    PromotedElems(c, t, d, y);
    PromoteAt(c, t, d, y, s, root, m);
    FitsAt(c, t, s, root, m);
    ElemsPlug(c, r);
    ElemsPlug(d, y);
    RootOfPlug(d, y);
    RootOfPlug(d, y.right);
    ImagePlug(c, r, s, top, u);
  }

  lemma PromoteImageBelow(c: Context, t: Tree, d: Context, y: Tree, s: Node, root: Node, m: map<Node, Links>, u: Node)
    requires Successor(t, d, y) && Fits(Plug(c, t), s, root, m) && u in m && u != t.node
    requires u in Elems(t.right) && u != y.node
    ensures y.node in m && t.node in m && u in Elems(Plug(c, Promoted(t, d, y)))
    ensures Image(Plug(c, Promoted(t, d, y)), s, Above(root, m), u)
         == Replaced(t.node, y.node, Ptr(y.right, s), m[t.node], m[y.node].parent, t.node == root, u, m[u])
  {
    var r, top := Promoted(t, d, y), Above(root, m);
    PromotedElems(c, t, d, y);
    PromoteAt(c, t, d, y, s, root, m);
    FitsAt(c, t, s, root, m);
    ElemsPlug(c, t);
    ElemsPlug(c, r);
    ElemsPlug(d, y);
    ElemsPlug(d, y.right);
    RootOfPlug(d, y);
    ImagePlug(c, t, s, top, u);
    ImagePlug(c, r, s, top, u);
    assert Image(t, s, HoleParent(c, top), u) == Image(t.right, s, t.node, u);
    ImagePlug(d, y, s, t.node, u);
    ImagePlug(d, y.right, s, y.node, u);
    if u in CElems(d) {
      CImageMoved(d, y.node, Ptr(y.right, s), s, t.node, y.node, u);
    }
  }

  lemma PromoteImage(c: Context, t: Tree, d: Context, y: Tree, s: Node, root: Node, m: map<Node, Links>, u: Node)
    requires Successor(t, d, y) && Fits(Plug(c, t), s, root, m) && u in m && u != t.node
    ensures y.node in m && t.node in m && u in Elems(Plug(c, Promoted(t, d, y)))
    ensures Image(Plug(c, Promoted(t, d, y)), s, Above(root, m), u)
         == Replaced(t.node, y.node, Ptr(y.right, s), m[t.node], m[y.node].parent, t.node == root, u, m[u])
  {
    ElemsPlug(c, t);
    if u in CElems(c) {
      PromoteImageAround(c, t, d, y, s, root, m, u);
    } else if u in Elems(t.left) {
      PromoteImageLeft(c, t, d, y, s, root, m, u);
    } else if u == y.node {
      PromoteImageSuccessor(c, t, d, y, s, root, m, u);
    } else {
      PromoteImageBelow(c, t, d, y, s, root, m, u);
    }
  }

  lemma PromoteFits(c: Context, t: Tree, d: Context, y: Tree, s: Node, root: Node, m: map<Node, Links>,
                    root': Node, m': map<Node, Links>)
    requires Successor(t, d, y) && Fits(Plug(c, t), s, root, m)
    requires y.node in m && t.node in m && m'.Keys == m.Keys - {t.node}
    requires root' == if t.node == root then y.node else root
    requires forall u :: u in m' ==>
               m'[u] == Replaced(t.node, y.node, Ptr(y.right, s), m[t.node], m[y.node].parent, t.node == root, u, m[u])
    ensures Fits(Plug(c, Promoted(t, d, y)), s, root', m')
  {
    var r := Plug(c, Promoted(t, d, y));
    PromotedElems(c, t, d, y);
    PromoteAt(c, t, d, y, s, root, m);
    FitsAt(c, t, s, root, m);
    RootOfPlug(c, t);
    RootOfPlug(c, Promoted(t, d, y));
    PromoteImage(c, t, d, y, s, root, m, root');
    assert Above(root', m') == Above(root, m);
    forall u | u in m' ensures m'[u] == Image(r, s, Above(root', m'), u) {
      PromoteImage(c, t, d, y, s, root, m, u);
    }
  }

  // ----- colours after the splice

  ghost predicate Sufficient(c: Context, x: Tree) {
    NoRedRed(x) && CNoRedRed(c, Red(x)) && Balanced(x, BlackHeight(x)) && CBalanced(c, BlackHeight(x))
  }

  /** Losing a red node costs nothing; losing a black one leaves its place one black node short. */
  lemma BypassColours(c: Context, t: Tree)
    requires t.Fork? && (t.left.Leaf? || t.right.Leaf?) && RedBlack(Plug(c, t))
    ensures if t.red then Sufficient(c, OnlyChild(t)) else Deficient(c, OnlyChild(t))
  {
    var x := OnlyChild(t);
    PlugRedBlack(c, t, 0);
    BlackHeights(t, BlackHeight(t));
    if t.red {
      assert !Red(x);
    } else if Red(x) {
      assert NoRedRed(Painted(x, false));
    } else {
      assert Painted(x, false) == x;
    }
  }

  lemma PromoteColours(c: Context, t: Tree, d: Context, y: Tree)
    requires Successor(t, d, y) && RedBlack(Plug(c, t))
    ensures var k := Under(d, OnRight(c, t.left, y.node, t.red));
      && Plug(k, y.right) == Plug(c, Promoted(t, d, y))
      && if y.red then Sufficient(k, y.right) else Deficient(k, y.right)
  {
    var x := y.right;
    var k0, k := Under(d, OnRight(c, t.left, t.node, t.red)), Under(d, OnRight(c, t.left, y.node, t.red));
    PlugUnder(d, OnRight(c, t.left, t.node, t.red), y);
    PlugUnder(d, OnRight(c, t.left, y.node, t.red), x);
    BypassColours(k0, y);
    SameColours(d, c, t.left, t.node, y.node, t.red, Red(x), BlackHeight(x));
    SameColours(d, c, t.left, t.node, y.node, t.red, false, BlackHeight(x) + 1);
  }

  /** `q` without the node `n`. */
  ghost function Without(q: seq<Node>, n: Node): seq<Node> {
    if q == [] then [] else if q[0] == n then q[1..] else [q[0]] + Without(q[1..], n)
  }

  lemma {:induction false} WithoutSplit(p: seq<Node>, n: Node, q: seq<Node>)
    requires n !in p
    ensures Without(p + [n] + q, n) == p + q
  {
    var w := p + [n] + q;
    if p == [] {
      assert w[1..] == q && p + q == q;
    } else {
      assert w[1..] == p[1..] + [n] + q;
      assert p + q == [p[0]] + (p[1..] + q);
      WithoutSplit(p[1..], n, q);
    }
  }

  lemma BypassWithout(c: Context, t: Tree)
    requires t.Fork? && (t.left.Leaf? || t.right.Leaf?) && Distinct(Plug(c, t))
    ensures Inorder(Plug(c, OnlyChild(t))) == Without(Inorder(Plug(c, t)), t.node)
  {
    var p, q := Before(c) + Inorder(t.left), Inorder(t.right) + After(c);
    OnlyChildInorder(c, t);
    DistinctInorder(Plug(c, t));
    NoDuplicatesSplit(p, t.node, q);
    assert (t.node in p) == (t.node in SetOf(p));
    WithoutSplit(p, t.node, q);
  }

  lemma PromoteWithout(c: Context, t: Tree, d: Context, y: Tree)
    requires Successor(t, d, y) && Distinct(Plug(c, t))
    ensures Inorder(Plug(c, Promoted(t, d, y))) == Without(Inorder(Plug(c, t)), t.node)
  {
    var p, q := Before(c) + Inorder(t.left), Inorder(t.right) + After(c);
    PromotedInorder(c, t, d, y);
    DistinctInorder(Plug(c, t));
    NoDuplicatesSplit(p, t.node, q);
    assert (t.node in p) == (t.node in SetOf(p));
    WithoutSplit(p, t.node, q);
  }
}
