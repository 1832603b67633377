/** The shape of an intrusive red-black tree, as a value.

    A `Tree` lists which node sits where and with which colour.  `Image` says which
    `left`, `right`, `parent` and `color` fields a tree of that shape must have, so that the
    heap of the pointer program can be compared with a shape field by field.
    A `Context` is a tree with one subtree missing: the position of a node on the way
    from the root. */
module RbShape {

  const KEY_RANGE := 0x1_0000_0000_0000_0000

  /** `ngx_rbtree_key_t`, an unsigned 64-bit word. */
  type Key = k: nat | k < KEY_RANGE

  /** `ngx_rbtree_node_t`; `red` is the field `color`, 1 for red and 0 for black. */
  class Node {
    var key: Key
    var left: Node?
    var right: Node?
    var parent: Node?
    var red: bool

    constructor ()
    {
      key, left, right, parent, red := 0, null, null, null, false;
    }
  }

  datatype Tree = Leaf | Fork(left: Tree, node: Node, red: bool, right: Tree)

  datatype Context =
    | Top
    | OnLeft(up: Context, node: Node, red: bool, right: Tree)
    | OnRight(up: Context, left: Tree, node: Node, red: bool)

  /** The four fields of a node that the tree code writes. */
  datatype Links = Links(left: Node?, right: Node?, parent: Node?, red: bool)

  // ----- trees and contexts as sequences and sets of nodes

  ghost function Inorder(t: Tree): seq<Node> {
    match t
    case Leaf => []
    case Fork(l, n, _, r) => Inorder(l) + [n] + Inorder(r)
  }

  ghost function Elems(t: Tree): set<Node> {
    match t
    case Leaf => {}
    case Fork(l, n, _, r) => Elems(l) + {n} + Elems(r)
  }

  ghost predicate Distinct(t: Tree) {
    match t
    case Leaf => true
    case Fork(l, n, _, r) =>
      && Distinct(l) && Distinct(r)
      && n !in Elems(l) && n !in Elems(r)
      && Elems(l) !! Elems(r)
  }

  ghost function Plug(c: Context, t: Tree): Tree
    decreases c
  {
    match c
    case Top => t
    case OnLeft(up, n, red, r) => Plug(up, Fork(t, n, red, r))
    case OnRight(up, l, n, red) => Plug(up, Fork(l, n, red, t))
  }

  ghost function Before(c: Context): seq<Node> {
    match c
    case Top => []
    case OnLeft(up, _, _, _) => Before(up)
    case OnRight(up, l, n, _) => Before(up) + Inorder(l) + [n]
  }

  ghost function After(c: Context): seq<Node> {
    match c
    case Top => []
    case OnLeft(up, n, _, r) => [n] + Inorder(r) + After(up)
    case OnRight(up, _, _, _) => After(up)
  }

  ghost function CElems(c: Context): set<Node> {
    match c
    case Top => {}
    case OnLeft(up, n, _, r) => CElems(up) + {n} + Elems(r)
    case OnRight(up, l, n, _) => CElems(up) + {n} + Elems(l)
  }

  ghost predicate CDistinct(c: Context) {
    match c
    case Top => true
    case OnLeft(up, n, _, r) =>
      && CDistinct(up) && Distinct(r)
      && n !in CElems(up) && n !in Elems(r) && CElems(up) !! Elems(r)
    case OnRight(up, l, n, _) =>
      && CDistinct(up) && Distinct(l)
      && n !in CElems(up) && n !in Elems(l) && CElems(up) !! Elems(l)
  }

  ghost function Depth(c: Context): nat {
    match c
    case Top => 0
    case OnLeft(up, _, _, _) => 1 + Depth(up)
    case OnRight(up, _, _, _) => 1 + Depth(up)
  }

  lemma Regroup<A>(p: seq<A>, a: seq<A>, b: seq<A>, d: seq<A>, q: seq<A>)
    ensures p + (a + b + d) + q == p + a + (b + d + q)
    ensures p + (a + b + d) + q == (p + a + b) + d + q
  {
  }

  lemma {:induction false} InorderPlug(c: Context, t: Tree)
    ensures Inorder(Plug(c, t)) == Before(c) + Inorder(t) + After(c)
    decreases c
  {
    match c
    case Top =>
    case OnLeft(up, n, red, r) =>
      InorderPlug(up, Fork(t, n, red, r));
      Regroup(Before(up), Inorder(t), [n], Inorder(r), After(up));
    case OnRight(up, l, n, red) =>
      InorderPlug(up, Fork(l, n, red, t));
      Regroup(Before(up), Inorder(l), [n], Inorder(t), After(up));
  }

  lemma {:induction false} ElemsPlug(c: Context, t: Tree)
    ensures Elems(Plug(c, t)) == CElems(c) + Elems(t)
    ensures Distinct(Plug(c, t)) <==> CDistinct(c) && Distinct(t) && CElems(c) !! Elems(t)
    decreases c
  {
    match c
    case Top =>
    case OnLeft(up, n, red, r) => ElemsPlug(up, Fork(t, n, red, r));
    case OnRight(up, l, n, red) => ElemsPlug(up, Fork(l, n, red, t));
  }

  ghost predicate NoDuplicates(q: seq<Node>) {
    forall i, j :: 0 <= i < j < |q| ==> q[i] != q[j]
  }

  ghost function SetOf(q: seq<Node>): set<Node> {
    set u | u in q
  }

  lemma NoDuplicatesSplit(p: seq<Node>, n: Node, q: seq<Node>)
    ensures SetOf(p + [n] + q) == SetOf(p) + {n} + SetOf(q)
    ensures NoDuplicates(p + [n] + q) <==>
      && NoDuplicates(p) && NoDuplicates(q) && n !in SetOf(p) && n !in SetOf(q)
      && SetOf(p) !! SetOf(q)
  {
    var w := p + [n] + q;
    if NoDuplicates(w) {
      forall i, j | 0 <= i < j < |p| ensures p[i] != p[j] { assert w[i] != w[j]; }
      forall i, j | 0 <= i < j < |q| ensures q[i] != q[j] { assert w[|p| + 1 + i] != w[|p| + 1 + j]; }
      forall i, j | 0 <= i < |p| && 0 <= j < |q| ensures p[i] != q[j] { assert w[i] != w[|p| + 1 + j]; }
      forall j | 0 <= j < |q| ensures n != q[j] { assert w[|p|] != w[|p| + 1 + j]; }
      forall i | 0 <= i < |p| ensures n != p[i] { assert w[i] != w[|p|]; }
    }
    if NoDuplicates(p) && NoDuplicates(q) && n !in SetOf(p) && n !in SetOf(q) && SetOf(p) !! SetOf(q) {
      forall i, j | 0 <= i < j < |w| ensures w[i] != w[j] {
        if i < |p| {
          assert w[i] == p[i] && p[i] in SetOf(p);
        }
        if j > |p| {
          assert w[j] == q[j - |p| - 1] && q[j - |p| - 1] in SetOf(q);
        }
      }
    }
  }

  lemma {:induction false} DistinctInorder(t: Tree)
    ensures Elems(t) == SetOf(Inorder(t))
    ensures Distinct(t) <==> NoDuplicates(Inorder(t))
  {
    match t
    case Leaf =>
    case Fork(l, n, red, r) =>
      DistinctInorder(l);
      DistinctInorder(r);
      NoDuplicatesSplit(Inorder(l), n, Inorder(r));
  }

  /** Rearranging a subtree without touching its in-order sequence disturbs nothing else. */
  lemma SameInorder(c: Context, t: Tree, r: Tree)
    requires Inorder(t) == Inorder(r)
    ensures Inorder(Plug(c, t)) == Inorder(Plug(c, r))
    ensures Elems(t) == Elems(r) && Elems(Plug(c, t)) == Elems(Plug(c, r))
    ensures Distinct(Plug(c, t)) == Distinct(Plug(c, r))
  {
    InorderPlug(c, t);
    InorderPlug(c, r);
    DistinctInorder(t);
    DistinctInorder(r);
    DistinctInorder(Plug(c, t));
    DistinctInorder(Plug(c, r));
  }

  // ----- the fields a shape demands

  /** The pointer that stands for a subtree: its node, or the sentinel when it is empty. */
  ghost function Ptr(t: Tree, s: Node): Node {
    if t.Leaf? then s else t.node
  }

  /** What the parent field of the root of the missing subtree holds. */
  ghost function HoleParent(c: Context, top: Node?): Node? {
    if c.Top? then top else c.node
  }

  /** The fields of node `u` in a tree of shape `t` hanging below `parent`. */
  ghost function Image(t: Tree, s: Node, parent: Node?, u: Node): Links
    requires u in Elems(t)
  {
    if u == t.node then Links(Ptr(t.left, s), Ptr(t.right, s), parent, t.red)
    else if u in Elems(t.left) then Image(t.left, s, t.node, u)
    else Image(t.right, s, t.node, u)
  }

  /** The fields of node `u` of a context whose missing subtree is reached through `hole`. */
  ghost function CImage(c: Context, hole: Node, s: Node, top: Node?, u: Node): Links
    requires u in CElems(c)
  {
    match c
    case OnLeft(up, n, red, r) =>
      if u == n then Links(hole, Ptr(r, s), HoleParent(up, top), red)
      else if u in CElems(up) then CImage(up, n, s, top, u)
      else Image(r, s, n, u)
    case OnRight(up, l, n, red) =>
      if u == n then Links(Ptr(l, s), hole, HoleParent(up, top), red)
      else if u in CElems(up) then CImage(up, n, s, top, u)
      else Image(l, s, n, u)
  }

  lemma {:induction false} ImagePlug(c: Context, t: Tree, s: Node, top: Node?, u: Node)
    requires Distinct(Plug(c, t)) && u in Elems(Plug(c, t))
    ensures u in CElems(c) <==> u !in Elems(t)
    ensures Image(Plug(c, t), s, top, u)
         == if u in Elems(t) then Image(t, s, HoleParent(c, top), u) else CImage(c, Ptr(t, s), s, top, u)
    decreases c
  {
    ElemsPlug(c, t);
    match c
    case Top =>
    case OnLeft(up, n, red, r) =>
      ImagePlug(up, Fork(t, n, red, r), s, top, u);
    case OnRight(up, l, n, red) =>
      ImagePlug(up, Fork(l, n, red, t), s, top, u);
  }

  ghost function TopNode(c: Context): Node
    requires !c.Top?
    ensures TopNode(c) in CElems(c)
  {
    if c.up.Top? then c.node else TopNode(c.up)
  }

  lemma {:induction false} RootOfPlug(c: Context, t: Tree)
    ensures !c.Top? ==> Plug(c, t).Fork? && Plug(c, t).node == TopNode(c)
    decreases c
  {
    match c
    case Top =>
    case OnLeft(up, n, red, r) => RootOfPlug(up, Fork(t, n, red, r));
    case OnRight(up, l, n, red) => RootOfPlug(up, Fork(l, n, red, t));
  }
}
