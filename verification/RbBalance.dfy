/** The red-black conditions on shapes, and what one step of either fix-up loop does to them. */
module RbBalance {
  import Bits
  import opened RbShape
  import opened RbFits

  ghost predicate Red(t: Tree) {
    t.Fork? && t.red
  }

  /** No red node has a red child. */
  ghost predicate NoRedRed(t: Tree) {
    match t
    case Leaf => true
    case Fork(l, _, red, r) => NoRedRed(l) && NoRedRed(r) && (red ==> !Red(l) && !Red(r))
  }

  ghost function BlackHeight(t: Tree): nat {
    match t
    case Leaf => 0
    case Fork(l, _, red, _) => BlackHeight(l) + if red then 0 else 1
  }

  /** Every path from the root of `t` to a leaf crosses `h` black nodes. */
  ghost predicate Balanced(t: Tree, h: int) {
    match t
    case Leaf => h == 0
    case Fork(l, _, red, r) =>
      var below := if red then h else h - 1;
      Balanced(l, below) && Balanced(r, below)
  }

  ghost predicate RedBlack(t: Tree) {
    !Red(t) && NoRedRed(t) && Balanced(t, BlackHeight(t))
  }

  /** The same conditions on a tree with a subtree missing: `h` is the black height and
      `holeRed` the root colour of the subtree that would complete it. */
  ghost predicate CNoRedRed(c: Context, holeRed: bool) {
    match c
    case Top => !holeRed
    case OnLeft(up, _, red, r) => NoRedRed(r) && (red ==> !holeRed && !Red(r)) && CNoRedRed(up, red)
    case OnRight(up, l, _, red) => NoRedRed(l) && (red ==> !holeRed && !Red(l)) && CNoRedRed(up, red)
  }

  ghost predicate CBalanced(c: Context, h: int) {
    match c
    case Top => true
    case OnLeft(up, _, red, r) => Balanced(r, h) && CBalanced(up, if red then h else h + 1)
    case OnRight(up, l, _, red) => Balanced(l, h) && CBalanced(up, if red then h else h + 1)
  }

  lemma {:induction false} BalancedHeight(t: Tree, h: int)
    requires Balanced(t, h)
    ensures h == BlackHeight(t)
  {
    if t.Fork? { BalancedHeight(t.left, if t.red then h else h - 1); }
  }

  lemma {:induction false} BalancedPlug(c: Context, t: Tree, h: int)
    requires Balanced(t, h) && CBalanced(c, h)
    ensures Balanced(Plug(c, t), BlackHeight(Plug(c, t)))
    decreases c
  {
    match c
    case Top => BalancedHeight(t, h);
    case OnLeft(up, n, red, r) => BalancedPlug(up, Fork(t, n, red, r), if red then h else h + 1);
    case OnRight(up, l, n, red) => BalancedPlug(up, Fork(l, n, red, t), if red then h else h + 1);
  }

  lemma {:induction false} BalancedUnplug(c: Context, t: Tree)
    requires Balanced(Plug(c, t), BlackHeight(Plug(c, t)))
    ensures Balanced(t, BlackHeight(t)) && CBalanced(c, BlackHeight(t))
    decreases c
  {
    match c
    case Top =>
    case OnLeft(up, n, red, r) =>
      BalancedUnplug(up, Fork(t, n, red, r));
    case OnRight(up, l, n, red) =>
      BalancedUnplug(up, Fork(l, n, red, t));
      BalancedHeight(t, BlackHeight(l));
  }

  lemma {:induction false} NoRedRedPlug(c: Context, t: Tree)
    ensures NoRedRed(Plug(c, t)) && !Red(Plug(c, t)) <==> NoRedRed(t) && CNoRedRed(c, Red(t))
    decreases c
  {
    match c
    case Top =>
    case OnLeft(up, n, red, r) => NoRedRedPlug(up, Fork(t, n, red, r));
    case OnRight(up, l, n, red) => NoRedRedPlug(up, Fork(l, n, red, t));
  }

  /** A tree is red-black iff the subtree at any position and the rest of the tree agree
      on colour and black height. */
  lemma PlugRedBlack(c: Context, t: Tree, h: int)
    ensures NoRedRed(t) && CNoRedRed(c, Red(t)) && Balanced(t, h) && CBalanced(c, h) ==> RedBlack(Plug(c, t))
    ensures RedBlack(Plug(c, t)) ==>
      && NoRedRed(t) && CNoRedRed(c, Red(t))
      && Balanced(t, BlackHeight(t)) && CBalanced(c, BlackHeight(t))
  {
    NoRedRedPlug(c, t);
    if Balanced(t, h) && CBalanced(c, h) { BalancedPlug(c, t, h); }
    if RedBlack(Plug(c, t)) { BalancedUnplug(c, t); }
  }

  ghost function Height(t: Tree): nat {
    match t
    case Leaf => 0
    case Fork(l, _, _, r) => 1 + if Height(l) < Height(r) then Height(r) else Height(l)
  }

  /** Why the colours are kept: a tree of n nodes is never higher than twice the
      logarithm of n + 1. */
  lemma {:induction false} HeightBound(t: Tree)
    requires NoRedRed(t) && Balanced(t, BlackHeight(t))
    ensures Bits.Pow2(BlackHeight(t)) <= |Inorder(t)| + 1
    ensures Height(t) <= 2 * BlackHeight(t) + if Red(t) then 1 else 0
  {
    if t.Fork? {
      BalancedHeight(t.left, BlackHeight(t.left));
      BalancedHeight(t.right, BlackHeight(t.left));
      HeightBound(t.left);
      HeightBound(t.right);
    }
  }

  // ----- insertion

  /** The subtree one level above the hole of `c`, once `t` fills it. */
  ghost function Wrap(c: Context, t: Tree): Tree
    requires !c.Top?
    ensures Plug(c, t) == Plug(c.up, Wrap(c, t)) && Wrap(c, t).Fork?
  {
    if c.OnLeft? then Fork(t, c.node, c.red, c.right) else Fork(c.left, c.node, c.red, t)
  }

  /** The head of the insert loop: all is well but for the colour of the node `t` starts
      with, which is red and may hang under a red parent. */
  ghost predicate Repairing(c: Context, t: Tree) {
    var colours := Red(t) && NoRedRed(t) && CNoRedRed(c, false);
    var heights := Balanced(t, BlackHeight(t)) && CBalanced(c, BlackHeight(t));
    colours && heights
  }

  lemma Unfold(c: Context, t: Tree)
    requires Repairing(c, t) && !c.Top? && c.red
    ensures !c.up.Top? && !c.up.red
    ensures CNoRedRed(c.up, true) && CBalanced(c.up, BlackHeight(t))
    ensures CNoRedRed(c.up.up, false) && CBalanced(c.up.up, BlackHeight(t) + 1)
    ensures var sibling := if c.OnLeft? then c.right else c.left;
      NoRedRed(sibling) && !Red(sibling) && Balanced(sibling, BlackHeight(t)) && BlackHeight(sibling) == BlackHeight(t)
    ensures var uncle := if c.up.OnLeft? then c.up.right else c.up.left;
      NoRedRed(uncle) && Balanced(uncle, BlackHeight(t)) && BlackHeight(uncle) == BlackHeight(t)
  {
    assert CNoRedRed(c.up, true) && CBalanced(c.up, BlackHeight(t));
    BalancedHeight(if c.OnLeft? then c.right else c.left, BlackHeight(t));
    BalancedHeight(if c.up.OnLeft? then c.up.right else c.up.left, BlackHeight(t));
  }

  /** Red uncle: both red nodes of the upper level turn black and their parent red. */
  ghost function Recoloured(c: Context, t: Tree): Tree
    requires !c.Top? && !c.up.Top?
  {
    var f := Painted(Wrap(c, t), false);
    if c.up.OnLeft? then Fork(f, c.up.node, true, Painted(c.up.right, false))
    else Fork(Painted(c.up.left, false), c.up.node, true, f)
  }

  lemma RepairRecoloured(c: Context, t: Tree)
    requires Repairing(c, t) && !c.Top? && c.red && !c.up.Top?
    requires Red(if c.up.OnLeft? then c.up.right else c.up.left)
    ensures Repairing(c.up.up, Recoloured(c, t))
  {
    Unfold(c, t);
    var r := Recoloured(c, t);
    assert NoRedRed(r.left) && Balanced(r.left, BlackHeight(t) + 1);
    assert NoRedRed(r.right) && Balanced(r.right, BlackHeight(t) + 1);
    BalancedHeight(r.left, BlackHeight(t) + 1);
  }

  /** Black uncle, node on the outer side: one rotation ends the repair. */
  lemma RepairRotated(c: Context, t: Tree)
    requires Repairing(c, t) && !c.Top? && c.red && !c.up.Top?
    requires c.OnLeft? && c.up.OnLeft? && !Red(c.up.right)
    ensures Repairing(OnLeft(c.up.up, c.node, false, Fork(c.right, c.up.node, true, c.up.right)), t)
  {
    Unfold(c, t);
  }

  lemma RepairRotatedMirror(c: Context, t: Tree)
    requires Repairing(c, t) && !c.Top? && c.red && !c.up.Top?
    requires c.OnRight? && c.up.OnRight? && !Red(c.up.left)
    ensures Repairing(OnRight(c.up.up, Fork(c.up.left, c.up.node, true, c.left), c.node, false), t)
  {
    Unfold(c, t);
  }

  /** Node on the inner side: rotating it with its parent brings the parent to the outer side. */
  lemma RepairInner(c: Context, t: Tree)
    requires Repairing(c, t) && !c.Top? && c.red
    ensures c.OnRight? ==> Repairing(OnLeft(c.up, t.node, true, t.right), Fork(c.left, c.node, true, t.left))
    ensures c.OnLeft? ==> Repairing(OnRight(c.up, t.left, t.node, true), Fork(t.right, c.node, true, c.right))
  {
    if c.OnRight? {
      BalancedHeight(c.left, BlackHeight(t));
    } else {
      BalancedHeight(t.right, BlackHeight(t));
    }
  }

  /** The loop ends on top, or below a black parent; blackening the root then completes the tree. */
  lemma RepairDone(c: Context, t: Tree)
    requires Repairing(c, t) && (c.Top? || !c.red)
    ensures Plug(c, t).Fork? && RedBlack(Painted(Plug(c, t), false))
  {
    RootOfPlug(c, t);
    if c.Top? {
      BalancedHeight(t.left, BlackHeight(t));
      BalancedHeight(t.right, BlackHeight(t));
    } else {
      PlugRedBlack(c, t, BlackHeight(t));
    }
  }

  // ----- deletion

  /** The head of the delete loop: the subtree `x` at `c` is one black node short of what
      the rest of the tree needs, and `x` itself will do once its root is black. */
  ghost predicate Deficient(c: Context, x: Tree) {
    var colours := NoRedRed(Painted(x, false)) && CNoRedRed(c, false);
    var heights := Balanced(x, BlackHeight(x)) && CBalanced(c, BlackHeight(x) + 1);
    colours && heights
  }

  /** The sibling of a deficient black subtree is a real node. */
  lemma SiblingOf(c: Context, x: Tree)
    requires Deficient(c, x) && !Red(x) && !c.Top?
    ensures NoRedRed(x) && CNoRedRed(c.up, c.red) && CNoRedRed(c.up, false)
    ensures CBalanced(c.up, BlackHeight(x) + if c.red then 1 else 2)
    ensures var w := if c.OnLeft? then c.right else c.left;
      && w.Fork? && NoRedRed(w) && Balanced(w, BlackHeight(x) + 1) && (c.red ==> !w.red)
      && BlackHeight(w) == BlackHeight(x) + 1
  {
    assert Painted(x, false) == x;
    var w := if c.OnLeft? then c.right else c.left;
    assert Balanced(w, BlackHeight(x) + 1);
    BalancedHeight(w, BlackHeight(x) + 1);
    BlackMayStandForRed(c.up, c.red);
  }

  lemma BlackMayStandForRed(c: Context, red: bool)
    requires CNoRedRed(c, red)
    ensures CNoRedRed(c, false)
  {
  }

  lemma BlackHeights(w: Tree, h: int)
    requires w.Fork? && Balanced(w, h)
    ensures var below := if w.red then h else h - 1;
      BlackHeight(w.left) == below && BlackHeight(w.right) == below && BlackHeight(w) == h
  {
    BalancedHeight(w, h);
    BalancedHeight(w.left, if w.red then h else h - 1);
    BalancedHeight(w.right, if w.red then h else h - 1);
  }

  /** Nothing is missing any more once the loop stops and blackens the node it stopped at. */
  lemma DeficientDone(c: Context, x: Tree)
    requires Deficient(c, x) && (c.Top? || Red(x))
    ensures RedBlack(Plug(c, Painted(x, false)))
  {
    var r := Painted(x, false);
    if x.Fork? {
      BlackHeights(x, BlackHeight(x));
      BalancedHeight(r.left, BlackHeight(x.left));
    }
    if c.Top? {
    } else {
      PlugRedBlack(c, r, BlackHeight(x) + 1);
    }
  }

  lemma FullTreeDeficient(t: Tree)
    requires RedBlack(t)
    ensures Deficient(Top, t)
  {
    assert Painted(t, false) == t;
  }

  lemma DeficientRedSibling(up: Context, x: Tree, p: Node, w: Tree)
    requires Deficient(OnLeft(up, p, false, w), x) && !Red(x) && Red(w)
    ensures Deficient(OnLeft(OnLeft(up, w.node, false, w.right), p, true, w.left), x) && !Red(w.left)
  {
    SiblingOf(OnLeft(up, p, false, w), x);
    BlackHeights(w, BlackHeight(x) + 1);
    assert CNoRedRed(OnLeft(up, w.node, false, w.right), true);
  }

  lemma DeficientBlackNephews(up: Context, x: Tree, p: Node, red: bool, w: Tree)
    requires Deficient(OnLeft(up, p, red, w), x) && !Red(x)
    requires w.Fork? && !Red(w) && !Red(w.left) && !Red(w.right)
    ensures Deficient(up, Fork(x, p, red, Painted(w, true)))
  {
    SiblingOf(OnLeft(up, p, red, w), x);
    BlackHeights(w, BlackHeight(x) + 1);
    var v := Painted(w, true);
    assert NoRedRed(v) && Balanced(v, BlackHeight(x)) && BlackHeight(v) == BlackHeight(x);
    assert Balanced(Fork(x, p, red, v), BlackHeight(x) + if red then 0 else 1);
  }

  lemma DeficientRedInnerNephew(up: Context, x: Tree, p: Node, red: bool, w: Tree)
    requires Deficient(OnLeft(up, p, red, w), x) && !Red(x)
    requires w.Fork? && !Red(w) && Red(w.left) && !Red(w.right)
    ensures var v := w.left;
      Deficient(OnLeft(up, p, red, Fork(v.left, v.node, false, Fork(v.right, w.node, true, w.right))), x)
  {
    SiblingOf(OnLeft(up, p, red, w), x);
    BlackHeights(w, BlackHeight(x) + 1);
    BlackHeights(w.left, BlackHeight(x));
    var inner := Fork(w.left.right, w.node, true, w.right);
    assert NoRedRed(inner) && Balanced(inner, BlackHeight(x));
  }

  lemma DeficientRedOuterNephew(up: Context, x: Tree, p: Node, red: bool, w: Tree)
    requires Deficient(OnLeft(up, p, red, w), x) && !Red(x)
    requires w.Fork? && !Red(w) && Red(w.right)
    ensures RedBlack(Plug(up, Fork(Fork(x, p, false, w.left), w.node, red, Painted(w.right, false))))
  {
    SiblingOf(OnLeft(up, p, red, w), x);
    BlackHeights(w, BlackHeight(x) + 1);
    BlackHeights(w.right, BlackHeight(x));
    var a, b := Fork(x, p, false, w.left), Painted(w.right, false);
    assert NoRedRed(a) && Balanced(a, BlackHeight(x) + 1);
    assert NoRedRed(b) && Balanced(b, BlackHeight(x) + 1);
    PlugRedBlack(up, Fork(a, w.node, red, b), BlackHeight(x) + if red then 1 else 2);
  }

  // ----- the same conditions seen in a mirror

  lemma {:induction false} MirrorColours(t: Tree, h: int)
    ensures Red(Mirror(t)) == Red(t) && NoRedRed(Mirror(t)) == NoRedRed(t)
    ensures Balanced(Mirror(t), h) == Balanced(t, h)
  {
    if t.Fork? {
      MirrorColours(t.left, if t.red then h else h - 1);
      MirrorColours(t.right, if t.red then h else h - 1);
    }
  }

  lemma {:induction false} MirrorContextColours(c: Context, red: bool, h: int)
    ensures CNoRedRed(CMirror(c), red) == CNoRedRed(c, red)
    ensures CBalanced(CMirror(c), h) == CBalanced(c, h)
  {
    match c
    case Top =>
    case OnLeft(up, _, r, t) =>
      MirrorColours(t, h);
      MirrorContextColours(up, r, if r then h else h + 1);
    case OnRight(up, t, _, r) =>
      MirrorColours(t, h);
      MirrorContextColours(up, r, if r then h else h + 1);
  }

  lemma MirrorDeficient(c: Context, x: Tree)
    requires Deficient(c, x)
    ensures Deficient(CMirror(c), Mirror(x))
  {
    var h := BlackHeight(x);
    MirrorColours(x, h);
    MirrorColours(Painted(x, false), h);
    assert Mirror(Painted(x, false)) == Painted(Mirror(x), false);
    BalancedHeight(Mirror(x), h);
    MirrorContextColours(c, false, h + 1);
  }

  lemma MirrorRedBlack(t: Tree)
    requires RedBlack(t)
    ensures RedBlack(Mirror(t))
  {
    MirrorColours(t, BlackHeight(t));
    BalancedHeight(Mirror(t), BlackHeight(t));
  }

  // ----- deletion on the other side

  lemma MirrorBack(c: Context, x: Tree)
    requires Deficient(CMirror(c), Mirror(x))
    ensures Deficient(c, x)
  {
    MirrorDeficient(CMirror(c), Mirror(x));
    MirrorContext(c, x);
    MirrorTree(x);
  }

  lemma DeficientRedSiblingRight(up: Context, x: Tree, p: Node, w: Tree)
    requires Deficient(OnRight(up, w, p, false), x) && !Red(x) && Red(w)
    ensures Deficient(OnRight(OnRight(up, w.left, w.node, false), w.right, p, true), x) && !Red(w.right)
  {
    MirrorDeficient(OnRight(up, w, p, false), x);
    MirrorColours(x, 0);
    MirrorColours(w, 0);
    DeficientRedSibling(CMirror(up), Mirror(x), p, Mirror(w));
    MirrorColours(w.right, 0);
    MirrorBack(OnRight(OnRight(up, w.left, w.node, false), w.right, p, true), x);
  }

  lemma DeficientBlackNephewsRight(up: Context, x: Tree, p: Node, red: bool, w: Tree)
    requires Deficient(OnRight(up, w, p, red), x) && !Red(x)
    requires w.Fork? && !Red(w) && !Red(w.left) && !Red(w.right)
    ensures Deficient(up, Fork(Painted(w, true), p, red, x))
  {
    MirrorDeficient(OnRight(up, w, p, red), x);
    MirrorColours(x, 0);
    MirrorColours(w, 0);
    MirrorColours(w.left, 0);
    MirrorColours(w.right, 0);
    assert Mirror(Painted(w, true)) == Painted(Mirror(w), true);
    DeficientBlackNephews(CMirror(up), Mirror(x), p, red, Mirror(w));
    MirrorBack(up, Fork(Painted(w, true), p, red, x));
  }

  lemma DeficientRedInnerNephewRight(up: Context, x: Tree, p: Node, red: bool, w: Tree)
    requires Deficient(OnRight(up, w, p, red), x) && !Red(x)
    requires w.Fork? && !Red(w) && Red(w.right) && !Red(w.left)
    ensures var v := w.right;
      Deficient(OnRight(up, Fork(Fork(w.left, w.node, true, v.left), v.node, false, v.right), p, red), x)
  {
    MirrorDeficient(OnRight(up, w, p, red), x);
    MirrorColours(x, 0);
    MirrorColours(w, 0);
    MirrorColours(w.left, 0);
    MirrorColours(w.right, 0);
    DeficientRedInnerNephew(CMirror(up), Mirror(x), p, red, Mirror(w));
    var v := w.right;
    var inner := Fork(w.left, w.node, true, v.left);
    assert Mirror(inner) == Fork(Mirror(v.left), w.node, true, Mirror(w.left));
    MirrorBack(OnRight(up, Fork(inner, v.node, false, v.right), p, red), x);
  }

  lemma DeficientRedOuterNephewRight(up: Context, x: Tree, p: Node, red: bool, w: Tree)
    requires Deficient(OnRight(up, w, p, red), x) && !Red(x)
    requires w.Fork? && !Red(w) && Red(w.left)
    ensures RedBlack(Plug(up, Fork(Painted(w.left, false), w.node, red, Fork(w.right, p, false, x))))
  {
    MirrorDeficient(OnRight(up, w, p, red), x);
    MirrorColours(x, 0);
    MirrorColours(w, 0);
    MirrorColours(w.left, 0);
    DeficientRedOuterNephew(CMirror(up), Mirror(x), p, red, Mirror(w));
    var r := Fork(Painted(w.left, false), w.node, red, Fork(w.right, p, false, x));
    MirrorContext(up, r);
    MirrorRedBlack(Mirror(Plug(up, r)));
    MirrorTree(Plug(up, r));
  }
}
