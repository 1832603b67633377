/** Comparing the fields of a set of nodes with a shape, and the effect of each pointer
    operation on both sides of that comparison. */
module RbFits {
  import opened RbShape

  ghost function LeftRotated(t: Tree): (r: Tree)
    requires t.Fork? && t.right.Fork?
  {
    var y := t.right;
    Fork(Fork(t.left, t.node, t.red, y.left), y.node, y.red, y.right)
  }

  lemma LeftRotatedInorder(t: Tree)
    requires t.Fork? && t.right.Fork?
    ensures Inorder(LeftRotated(t)) == Inorder(t)
  {
    var a, b, d, x, y := t.left, t.right.left, t.right.right, t.node, t.right.node;
    assert Inorder(t.right) == Inorder(b) + [y] + Inorder(d);
    assert Inorder(LeftRotated(t).left) == Inorder(a) + [x] + Inorder(b);
    Regroup([], Inorder(a), [x], Inorder(b), [y] + Inorder(d));
    assert Inorder(a) + [x] + (Inorder(b) + [y] + Inorder(d)) == (Inorder(a) + [x] + Inorder(b)) + [y] + Inorder(d);
  }

  /** `m` holds, for every node of a tree of shape `t` reached through `root`, exactly the
      fields its place demands.  Only the parent field of the root is left open. */
  ghost predicate Fits(t: Tree, s: Node, root: Node, m: map<Node, Links>) {
    && root == Ptr(t, s)
    && Distinct(t)
    && s !in m
    && m.Keys == Elems(t)
    && forall u {:trigger Image(t, s, Above(root, m), u)} :: u in m ==> m[u] == Image(t, s, Above(root, m), u)
  }

  ghost function Above(root: Node, m: map<Node, Links>): Node? {
    if root in m then m[root].parent else null
  }

  lemma FitsAt(c: Context, t: Tree, s: Node, root: Node, m: map<Node, Links>)
    requires Fits(Plug(c, t), s, root, m)
    ensures CElems(c) !! Elems(t) && m.Keys == CElems(c) + Elems(t)
    ensures t.Fork? ==> m[t.node] == Links(Ptr(t.left, s), Ptr(t.right, s), HoleParent(c, Above(root, m)), t.red)
    ensures c.OnLeft? ==> m[c.node] == Links(Ptr(t, s), Ptr(c.right, s), HoleParent(c.up, Above(root, m)), c.red)
    ensures c.OnRight? ==> m[c.node] == Links(Ptr(c.left, s), Ptr(t, s), HoleParent(c.up, Above(root, m)), c.red)
    ensures c.Top? <==> root == Ptr(t, s)
  {
    var top := Above(root, m);
    ElemsPlug(c, t);
    if t.Fork? { ImagePlug(c, t, s, top, t.node); }
    if !c.Top? { ImagePlug(c, t, s, top, c.node); }
    RootOfPlug(c, t);
  }

  /** The links a left rotation at `x` follows stay within the tree and do not alias. */
  ghost predicate LeftRotatable(m: map<Node, Links>, s: Node, root: Node, x: Node) {
    && s !in m && x in m && m[x].right in m && m[x].right != x
    && var y := m[x].right;
       && m[y].left != null && m[y].left != x && m[y].left != y
       && (m[y].left == s || m[y].left in m)
       && (x != root ==> m[x].parent in m && m[x].parent != x && m[x].parent != y && m[x].parent != m[y].left)
  }

  lemma CanRotateLeft(c: Context, t: Tree, s: Node, root: Node, m: map<Node, Links>)
    requires t.Fork? && t.right.Fork?
    requires Fits(Plug(c, t), s, root, m)
    ensures LeftRotatable(m, s, root, t.node)
  {
    var c1 := OnRight(c, t.left, t.node, t.red);
    FitsAt(c, t, s, root, m);
    FitsAt(c1, t.right, s, root, m);
    FitsAt(OnLeft(c1, t.right.node, t.right.red, t.right.right), t.right.left, s, root, m);
  }

  /** What a left rotation at `x` does to the fields `f` of `u`: `y` is the right child of `x`,
      `b` the left child of `y` and `p` the parent of `x`, unless `x` is on top. */
  ghost function LeftTurned(x: Node, y: Node?, b: Node?, p: Node?, top: bool, u: Node, f: Links): Links {
    if u == x then f.(right := b, parent := y)
    else if u == y then f.(left := x, parent := p)
    else if u == b then f.(parent := x)
    else if !top && u == p then if f.left == x then f.(left := y) else f.(right := y)
    else f
  }

  ghost function LeftRotatedFields(m: map<Node, Links>, root: Node, x: Node, u: Node): Links
    requires u in m && x in m && m[x].right in m
  {
    LeftTurned(x, m[x].right, m[m[x].right].left, m[x].parent, x == root, u, m[u])
  }

  lemma LeftRotateImage(c: Context, t: Tree, s: Node, root: Node, m: map<Node, Links>, u: Node)
    requires t.Fork? && t.right.Fork?
    requires Fits(Plug(c, t), s, root, m) && u in m
    ensures Distinct(Plug(c, LeftRotated(t))) && u in Elems(Plug(c, LeftRotated(t)))
    ensures t.node in m && m[t.node].right in m
    ensures Image(Plug(c, LeftRotated(t)), s, Above(root, m), u) == LeftRotatedFields(m, root, t.node, u)
  {
    var top := Above(root, m);
    var p, y, x := HoleParent(c, top), t.right, t.node;
    var l := Fork(t.left, x, t.red, y.left);
    LeftRotatedInorder(t);
    SameInorder(c, t, LeftRotated(t));
    SameInorder(Top, t, LeftRotated(t));
    ElemsPlug(c, LeftRotated(t));
    FitsAt(c, t, s, root, m);
    FitsAt(OnRight(c, t.left, x, t.red), y, s, root, m);
    ImagePlug(c, t, s, top, u);
    ImagePlug(c, LeftRotated(t), s, top, u);
    if u in Elems(t) {
      assert Elems(y) == Elems(y.left) + {y.node} + Elems(y.right);
      assert Image(t, s, p, u) == if u == x then Links(Ptr(t.left, s), y.node, p, t.red)
        else if u in Elems(t.left) then Image(t.left, s, x, u) else Image(y, s, x, u);
      assert Image(LeftRotated(t), s, p, u) == if u == y.node then Links(x, Ptr(y.right, s), p, y.red)
        else if u in Elems(l) then Image(l, s, y.node, u) else Image(y.right, s, y.node, u);
      if u in Elems(y.left) {
        assert Image(y, s, x, u) == Image(y.left, s, y.node, u);
        assert Image(l, s, y.node, u) == Image(y.left, s, x, u);
      }
    }
  }

  lemma LeftRotateFits(c: Context, t: Tree, s: Node, root: Node, m: map<Node, Links>, root': Node, m': map<Node, Links>)
    requires t.Fork? && t.right.Fork?
    requires Fits(Plug(c, t), s, root, m)
    requires m'.Keys == m.Keys && t.node in m && m[t.node].right in m
    requires root' == if t.node == root then m[t.node].right else root
    requires forall u :: u in m ==> m'[u] == LeftRotatedFields(m, root, t.node, u)
    ensures Fits(Plug(c, LeftRotated(t)), s, root', m')
  {
    LeftRotatedInorder(t);
    SameInorder(c, t, LeftRotated(t));
    RootOfPlug(c, t);
    RootOfPlug(c, LeftRotated(t));
    FitsAt(c, t, s, root, m);
    FitsAt(OnRight(c, t.left, t.node, t.red), t.right, s, root, m);
    LeftRotateImage(c, t, s, root, m, root');
    forall u | u in m'
      ensures m'[u] == Image(Plug(c, LeftRotated(t)), s, Above(root', m'), u)
    {
      LeftRotateImage(c, t, s, root, m, u);
    }
  }

  // ----- left and right are interchangeable

  ghost function Mirror(t: Tree): Tree {
    match t
    case Leaf => Leaf
    case Fork(l, n, red, r) => Fork(Mirror(r), n, red, Mirror(l))
  }

  ghost function CMirror(c: Context): Context {
    match c
    case Top => Top
    case OnLeft(up, n, red, r) => OnRight(CMirror(up), Mirror(r), n, red)
    case OnRight(up, l, n, red) => OnLeft(CMirror(up), n, red, Mirror(l))
  }

  ghost function Swap(f: Links): Links {
    Links(f.right, f.left, f.parent, f.red)
  }

  ghost function Flip(m: map<Node, Links>): (f: map<Node, Links>)
    ensures f.Keys == m.Keys
  {
    map u | u in m :: Swap(m[u])
  }

  lemma {:induction false} MirrorTree(t: Tree)
    ensures Mirror(Mirror(t)) == t
    ensures Elems(Mirror(t)) == Elems(t) && Distinct(Mirror(t)) == Distinct(t)
  {
    if t.Fork? { MirrorTree(t.left); MirrorTree(t.right); }
  }

  lemma {:induction false} MirrorContext(c: Context, t: Tree)
    ensures CMirror(CMirror(c)) == c
    ensures Plug(CMirror(c), Mirror(t)) == Mirror(Plug(c, t))
    decreases c
  {
    match c
    case Top =>
    case OnLeft(up, n, red, r) => MirrorContext(up, Fork(t, n, red, r)); MirrorTree(r);
    case OnRight(up, l, n, red) => MirrorContext(up, Fork(l, n, red, t)); MirrorTree(l);
  }

  lemma {:induction false} MirrorImage(t: Tree, s: Node, p: Node?, u: Node)
    requires u in Elems(t) && Distinct(t)
    ensures u in Elems(Mirror(t))
    ensures Image(Mirror(t), s, p, u) == Swap(Image(t, s, p, u))
  {
    MirrorTree(t);
    MirrorTree(t.left);
    MirrorTree(t.right);
    if u != t.node {
      if u in Elems(t.left) { MirrorImage(t.left, s, t.node, u); } else { MirrorImage(t.right, s, t.node, u); }
    }
  }

  lemma MirrorFits(t: Tree, s: Node, root: Node, m: map<Node, Links>)
    requires Fits(t, s, root, m)
    ensures Fits(Mirror(t), s, root, Flip(m))
  {
    MirrorTree(t);
    var f := Flip(m);
    assert Above(root, f) == Above(root, m);
    forall u | u in f ensures f[u] == Image(Mirror(t), s, Above(root, f), u) {
      MirrorImage(t, s, Above(root, m), u);
    }
  }

  ghost function RightRotated(t: Tree): Tree
    requires t.Fork? && t.left.Fork?
  {
    var y := t.left;
    Fork(y.left, y.node, y.red, Fork(y.right, t.node, t.red, t.right))
  }

  ghost predicate RightRotatable(m: map<Node, Links>, s: Node, root: Node, x: Node) {
    && s !in m && x in m && m[x].left in m && m[x].left != x
    && var y := m[x].left;
       && m[y].right != null && m[y].right != x && m[y].right != y
       && (m[y].right == s || m[y].right in m)
       && (x != root ==> m[x].parent in m && m[x].parent != x && m[x].parent != y && m[x].parent != m[y].right)
  }

  ghost function RightTurned(x: Node, y: Node?, b: Node?, p: Node?, top: bool, u: Node, f: Links): Links {
    if u == x then f.(left := b, parent := y)
    else if u == y then f.(right := x, parent := p)
    else if u == b then f.(parent := x)
    else if !top && u == p then if f.right == x then f.(right := y) else f.(left := y)
    else f
  }

  ghost function RightRotatedFields(m: map<Node, Links>, root: Node, x: Node, u: Node): Links
    requires u in m && x in m && m[x].left in m
  {
    RightTurned(x, m[x].left, m[m[x].left].right, m[x].parent, x == root, u, m[u])
  }

  lemma CanRotateRight(c: Context, t: Tree, s: Node, root: Node, m: map<Node, Links>)
    requires t.Fork? && t.left.Fork?
    requires Fits(Plug(c, t), s, root, m)
    ensures RightRotatable(m, s, root, t.node)
  {
    MirrorFits(Plug(c, t), s, root, m);
    MirrorContext(c, t);
    CanRotateLeft(CMirror(c), Mirror(t), s, root, Flip(m));
  }

  lemma FlipRotated(m: map<Node, Links>, root: Node, x: Node, m': map<Node, Links>)
    requires m'.Keys == m.Keys && x in m && m[x].left in m
    requires forall u :: u in m ==> m'[u] == RightRotatedFields(m, root, x, u)
    ensures forall u :: u in m ==> Flip(m')[u] == LeftRotatedFields(Flip(m), root, x, u)
  {
  }

  /** A right rotation is a left rotation in the mirror. */
  lemma MirrorRotated(c: Context, t: Tree)
    requires t.Fork? && t.left.Fork?
    ensures Mirror(Plug(c, t)) == Plug(CMirror(c), Mirror(t)) && Mirror(t).Fork? && Mirror(t).right.Fork?
    ensures Mirror(Plug(c, RightRotated(t))) == Plug(CMirror(c), LeftRotated(Mirror(t)))
    ensures Mirror(Mirror(Plug(c, RightRotated(t)))) == Plug(c, RightRotated(t))
  {
    var r := RightRotated(t);
    MirrorContext(c, t);
    MirrorContext(c, r);
    MirrorTree(Plug(c, r));
    assert LeftRotated(Mirror(t)) == Mirror(r);
  }

  lemma RightRotateFits(c: Context, t: Tree, s: Node, root: Node, m: map<Node, Links>, root': Node,
                        m': map<Node, Links>)
    requires t.Fork? && t.left.Fork?
    requires Fits(Plug(c, t), s, root, m)
    requires m'.Keys == m.Keys && t.node in m && m[t.node].left in m
    requires root' == if t.node == root then m[t.node].left else root
    requires forall u :: u in m ==> m'[u] == RightRotatedFields(m, root, t.node, u)
    ensures Fits(Plug(c, RightRotated(t)), s, root', m')
  {
    MirrorRotated(c, t);
    var f: map<Node, Links>, f' := Flip(m), Flip(m');
    MirrorFits(Plug(c, t), s, root, m);
    FlipRotated(m, root, t.node, m');
    LeftRotateFits(CMirror(c), Mirror(t), s, root, f, root', f');
    MirrorFits(Mirror(Plug(c, RightRotated(t))), s, root', f');
    assert Flip(f') == m';
  }

  lemma RightRotatedInorder(t: Tree)
    requires t.Fork? && t.left.Fork?
    ensures Inorder(RightRotated(t)) == Inorder(t)
  {
    assert LeftRotated(RightRotated(t)) == t;
    LeftRotatedInorder(RightRotated(t));
  }

  // ----- colours

  ghost function Painted(t: Tree, red: bool): Tree {
    if t.Fork? then t.(red := red) else t
  }

  lemma PaintFits(c: Context, t: Tree, s: Node, root: Node, m: map<Node, Links>, red: bool)
    requires t.Fork?
    requires Fits(Plug(c, t), s, root, m)
    ensures t.node in m && Fits(Plug(c, Painted(t, red)), s, root, m[t.node := m[t.node].(red := red)])
    ensures Inorder(Plug(c, Painted(t, red))) == Inorder(Plug(c, t))
  {
    FitsAt(c, t, s, root, m);
    var r, top := Painted(t, red), Above(root, m);
    var m' := m[t.node := m[t.node].(red := red)];
    SameInorder(c, t, r);
    RootOfPlug(c, t);
    RootOfPlug(c, r);
    forall u | u in m'
      ensures m'[u] == Image(Plug(c, r), s, Above(root, m'), u)
    {
      ImagePlug(c, t, s, top, u);
      ImagePlug(c, r, s, top, u);
    }
  }

  // ----- hanging a node below an empty place

  lemma {:induction false} CImageHole(c: Context, h: Node, h': Node, s: Node, top: Node?, u: Node)
    requires u in CElems(c) && CDistinct(c)
    ensures u != c.node ==> CImage(c, h', s, top, u) == CImage(c, h, s, top, u)
    ensures u == c.node && c.OnLeft? ==> CImage(c, h', s, top, u) == CImage(c, h, s, top, u).(left := h')
    ensures u == c.node && c.OnRight? ==> CImage(c, h', s, top, u) == CImage(c, h, s, top, u).(right := h')
  {
  }

  /** The fields `f` of `u` once the empty place `c` below node `p` holds `h` instead. */
  ghost function Hung(onLeft: bool, p: Node?, h: Node, u: Node, f: Links): Links {
    if u != p then f else if onLeft then f.(left := h) else f.(right := h)
  }

  lemma AttachImage(c: Context, n: Node, s: Node, root: Node, m: map<Node, Links>, u: Node)
    requires !c.Top? && Fits(Plug(c, Leaf), s, root, m) && n !in m && n != s && u in m
    ensures var t := Plug(c, Fork(Leaf, n, true, Leaf));
      && Distinct(t) && Elems(t) == m.Keys + {n}
      && Image(t, s, Above(root, m), n) == Links(s, s, c.node, true)
      && Image(t, s, Above(root, m), u) == Hung(c.OnLeft?, c.node, n, u, m[u])
  {
    var f, top := Fork(Leaf, n, true, Leaf), Above(root, m);
    ElemsPlug(c, Leaf);
    ElemsPlug(c, f);
    ImagePlug(c, f, s, top, u);
    ImagePlug(c, f, s, top, n);
    ImagePlug(c, Leaf, s, top, u);
    CImageHole(c, s, n, s, top, u);
  }

  lemma AttachFits(c: Context, n: Node, s: Node, root: Node, m: map<Node, Links>, m': map<Node, Links>)
    requires !c.Top? && Fits(Plug(c, Leaf), s, root, m) && n !in m && n != s
    requires m'.Keys == m.Keys + {n} && m'[n] == Links(s, s, c.node, true)
    requires forall u :: u in m ==> m'[u] == Hung(c.OnLeft?, c.node, n, u, m[u])
    ensures Fits(Plug(c, Fork(Leaf, n, true, Leaf)), s, root, m')
  {
    FitsAt(c, Leaf, s, root, m);
    AttachImage(c, n, s, root, m, c.node);
    RootOfPlug(c, Leaf);
    RootOfPlug(c, Fork(Leaf, n, true, Leaf));
    assert Above(root, m') == Above(root, m);
    forall u | u in m ensures m'[u] == Image(Plug(c, Fork(Leaf, n, true, Leaf)), s, Above(root, m), u) {
      AttachImage(c, n, s, root, m, u);
    }
  }

  lemma AttachedInorder(c: Context, n: Node)
    ensures var q, k := Inorder(Plug(c, Leaf)), |Before(c)|;
      k <= |q| && Inorder(Plug(c, Fork(Leaf, n, true, Leaf))) == q[..k] + [n] + q[k..]
  {
    InorderPlug(c, Leaf);
    InorderPlug(c, Fork(Leaf, n, true, Leaf));
  }
}
