/** The red-black tree of `ngx_rbtree.c`: nodes with parent links and one shared sentinel, changed
    in place.  `shape` is the tree that the nodes form and `links` what their fields hold; the
    invariant says that the fields are the image of the shape and that its colours balance it. */
module RbTree {
  import opened RbShape
  import opened RbFits
  import opened RbBalance
  import opened RbOrder
  import opened RbSplice

  class RbTree {
    var root: Node
    const sentinel: Node
    const order: Order
    ghost var shape: Tree
    ghost var links: map<Node, Links>

    static ghost function FieldsOf(u: Node): Links
      reads u
    {
      Links(u.left, u.right, u.parent, u.red)
    }

    /** `links` is what the heap holds. */
    ghost predicate Mapped()
      reads this, sentinel, links.Keys
    {
      && sentinel !in links && !sentinel.red
      && forall u :: u in links ==> FieldsOf(u) == links[u]
    }

    ghost predicate Linked()
      reads this, sentinel, links.Keys
    {
      var fits := Fits(shape, sentinel, root, links);
      Mapped() && fits
    }

    ghost predicate Valid()
      reads this, sentinel, links.Keys
    {
      var linked, coloured := Linked(), RedBlack(shape);
      linked && coloured
    }

    /** `ngx_rbtree_init`: an empty tree with a black sentinel. */
    constructor (s: Node, i: Order)
      modifies s`red
      ensures Valid() && shape == Leaf && sentinel == s && order == i
    {
      root := s;
      sentinel := s;
      order := i;
      shape := Leaf;
      links := map[];
      new;
      s.red := false;
    }

    method LeftRotate(node: Node, ghost S: set<Node>)
      requires node in S && node.right != null && node.right in S && node.right != node
      requires node.right.left != null && node.right.left != node && node.right.left != node.right
      requires node.right.left == sentinel || node.right.left in S
      requires node != root ==> node.parent != null && node.parent in S
      requires node != root ==> node.parent != node && node.parent != node.right && node.parent != node.right.left
      requires sentinel !in S
      modifies this`root, S`left, S`right, S`parent
      ensures root == if node == old(root) then old(node.right) else old(root)
      ensures forall u :: u in S ==>
        FieldsOf(u) == old(LeftTurned(node, node.right, node.right.left, node.parent, node == root, u, FieldsOf(u)))
    {
      var temp := node.right;
      node.right := temp.left;

      if temp.left != sentinel {
        temp.left.parent := node;
      }

      temp.parent := node.parent;

      if node == root {
        root := temp;
      } else if node == node.parent.left {
        node.parent.left := temp;
      } else {
        node.parent.right := temp;
      }

      temp.left := node;
      node.parent := temp;
    }

    method LeftRotateMapped(node: Node)
      requires Mapped() && LeftRotatable(links, sentinel, root, node)
      modifies this`root, this`links, links.Keys`left, links.Keys`right, links.Keys`parent
      ensures Mapped() && links.Keys == old(links.Keys)
      ensures root == old(if node == root then links[node].right else root)
      ensures forall u :: u in links ==> links[u] == old(LeftRotatedFields(links, root, node, u))
    {
      assert FieldsOf(node) == links[node] && FieldsOf(node.right) == links[node.right];
      LeftRotate(node, links.Keys);
      links := map u | u in links :: FieldsOf(u);
    }

    method LeftRotateAt(node: Node, ghost c: Context, ghost t: Tree)
      requires Linked() && shape == Plug(c, t)
      requires t.Fork? && t.node == node && t.right.Fork?
      modifies this`root, this`shape, this`links, links.Keys`left, links.Keys`right, links.Keys`parent
      ensures Linked() && shape == Plug(c, LeftRotated(t))
      ensures links.Keys == old(links.Keys) && Inorder(shape) == old(Inorder(shape))
    {
      ghost var m, r := links, root;
      LeftRotatedInorder(t);
      SameInorder(c, t, LeftRotated(t));
      CanRotateLeft(c, t, sentinel, root, m);
      LeftRotateMapped(node);
      LeftRotateFits(c, t, sentinel, r, m, root, links);
      shape := Plug(c, LeftRotated(t));
    }

    method RightRotate(node: Node, ghost S: set<Node>)
      requires node in S && node.left != null && node.left in S && node.left != node
      requires node.left.right != null && node.left.right != node && node.left.right != node.left
      requires node.left.right == sentinel || node.left.right in S
      requires node != root ==> node.parent != null && node.parent in S
      requires node != root ==> node.parent != node && node.parent != node.left && node.parent != node.left.right
      requires sentinel !in S
      modifies this`root, S`left, S`right, S`parent
      ensures root == if node == old(root) then old(node.left) else old(root)
      ensures forall u :: u in S ==>
        FieldsOf(u) == old(RightTurned(node, node.left, node.left.right, node.parent, node == root, u, FieldsOf(u)))
    {
      var temp := node.left;
      node.left := temp.right;

      if temp.right != sentinel {
        temp.right.parent := node;
      }

      temp.parent := node.parent;

      if node == root {
        root := temp;
      } else if node == node.parent.right {
        node.parent.right := temp;
      } else {
        node.parent.left := temp;
      }

      temp.right := node;
      node.parent := temp;
    }

    method RightRotateMapped(node: Node)
      requires Mapped() && RightRotatable(links, sentinel, root, node)
      modifies this`root, this`links, links.Keys`left, links.Keys`right, links.Keys`parent
      ensures Mapped() && links.Keys == old(links.Keys)
      ensures root == old(if node == root then links[node].left else root)
      ensures forall u :: u in links ==> links[u] == old(RightRotatedFields(links, root, node, u))
    {
      assert FieldsOf(node) == links[node] && FieldsOf(node.left) == links[node.left];
      RightRotate(node, links.Keys);
      links := map u | u in links :: FieldsOf(u);
    }

    method RightRotateAt(node: Node, ghost c: Context, ghost t: Tree)
      requires Linked() && shape == Plug(c, t)
      requires t.Fork? && t.node == node && t.left.Fork?
      modifies this`root, this`shape, this`links, links.Keys`left, links.Keys`right, links.Keys`parent
      ensures Linked() && shape == Plug(c, RightRotated(t))
      ensures links.Keys == old(links.Keys) && Inorder(shape) == old(Inorder(shape))
    {
      ghost var m, r := links, root;
      RightRotatedInorder(t);
      SameInorder(c, t, RightRotated(t));
      CanRotateRight(c, t, sentinel, root, m);
      RightRotateMapped(node);
      RightRotateFits(c, t, sentinel, r, m, root, links);
      shape := Plug(c, RightRotated(t));
    }

    method Paint(node: Node, red: bool, ghost c: Context, ghost t: Tree)
      requires Linked() && shape == Plug(c, t) && t.Fork? && t.node == node
      modifies this`shape, this`links, links.Keys`red
      ensures Linked() && shape == Plug(c, Painted(t, red))
      ensures links.Keys == old(links.Keys) && Inorder(shape) == old(Inorder(shape))
    {
      PaintFits(c, t, sentinel, root, links, red);
      node.red := red;
      links := links[node := links[node].(red := red)];
      shape := Plug(c, Painted(t, red));
    }

    /** The pointer fields around a position of the tree. */
    lemma At(c: Context, t: Tree)
      requires Linked() && shape == Plug(c, t)
      ensures t.Fork? ==>
                t.node in links && FieldsOf(t.node) ==
                Links(Ptr(t.left, sentinel), Ptr(t.right, sentinel), HoleParent(c, root.parent), t.red)
      ensures c.OnLeft? ==>
                c.node in links && FieldsOf(c.node) ==
                Links(Ptr(t, sentinel), Ptr(c.right, sentinel), HoleParent(c.up, root.parent), c.red)
      ensures c.OnRight? ==>
                c.node in links && FieldsOf(c.node) ==
                Links(Ptr(c.left, sentinel), Ptr(t, sentinel), HoleParent(c.up, root.parent), c.red)
      ensures c.Top? <==> root == Ptr(t, sentinel)
      ensures Ptr(t, sentinel).red == Red(t)
      ensures t.Fork? && c.OnLeft? ==> Ptr(c.right, sentinel) != t.node
      ensures t.Fork? && c.OnRight? ==> Ptr(c.left, sentinel) != t.node
    {
      FitsAt(c, t, sentinel, root, links);
      RootOfPlug(c, t);
      assert root in links ==> FieldsOf(root) == links[root];
    }

    /** The uncle is red: the parent and the uncle turn black, the grandparent red. */
    method RecolourLeft(node: Node, temp: Node, ghost c: Context, ghost t: Tree)
      requires Linked() && shape == Plug(c, t) && Repairing(c, t) && node == t.node
      requires !c.Top? && c.red && c.up.OnLeft? && Red(c.up.right) && temp == c.up.right.node
      modifies this`shape, this`links, links.Keys`red
      ensures Linked() && shape == Plug(c.up.up, Recoloured(c, t)) && Repairing(c.up.up, Recoloured(c, t))
      ensures links.Keys == old(links.Keys) && Inorder(shape) == old(Inorder(shape))
      ensures node.parent == old(node.parent) && node.parent != null && node.parent.parent == c.up.node
    {
      Unfold(c, t);
      RepairRecoloured(c, t);
      At(c, t);
      At(c.up, Wrap(c, t));
      ghost var f := Painted(Wrap(c, t), false);
      Paint(node.parent, false, c.up, Wrap(c, t));
      Paint(temp, false, OnRight(c.up.up, f, c.up.node, false), c.up.right);
      At(OnLeft(c.up.up, c.up.node, false, Painted(c.up.right, false)), f);
      Paint(node.parent.parent, true, c.up.up, Fork(f, c.up.node, false, Painted(c.up.right, false)));
      At(OnLeft(c.up.up, c.up.node, true, Painted(c.up.right, false)), f);
    }

    /** The uncle is black and the node hangs on the inner side of its parent. */
    method TurnOutwardLeft(node: Node, ghost c: Context, ghost t: Tree)
      requires Linked() && shape == Plug(c, t) && Repairing(c, t)
      requires c.OnRight? && c.red && node == c.node
      modifies this`root, this`shape, this`links
      modifies links.Keys`left, links.Keys`right, links.Keys`parent, links.Keys`red
      ensures Linked() && shape == Plug(OnLeft(c.up, t.node, true, t.right), Fork(c.left, c.node, true, t.left))
      ensures Repairing(OnLeft(c.up, t.node, true, t.right), Fork(c.left, c.node, true, t.left))
      ensures links.Keys == old(links.Keys) && Inorder(shape) == old(Inorder(shape))
    {
      RepairInner(c, t);
      LeftRotateAt(node, c.up, Wrap(c, t));
    }

    /** The uncle is black and the node hangs on the outer side: the last rotation. */
    method FinishLeft(node: Node, ghost c: Context, ghost t: Tree)
      requires Linked() && shape == Plug(c, t) && Repairing(c, t) && node == t.node
      requires c.OnLeft? && c.red && c.up.OnLeft? && !Red(c.up.right)
      modifies this`root, this`shape, this`links
      modifies links.Keys`left, links.Keys`right, links.Keys`parent, links.Keys`red
      ensures Linked() && shape == Plug(OnLeft(c.up.up, c.node, false, Fork(c.right, c.up.node, true, c.up.right)), t)
      ensures Repairing(OnLeft(c.up.up, c.node, false, Fork(c.right, c.up.node, true, c.up.right)), t)
      ensures links.Keys == old(links.Keys) && Inorder(shape) == old(Inorder(shape))
    {
      Unfold(c, t);
      RepairRotated(c, t);
      At(c, t);
      At(c.up, Wrap(c, t));
      ghost var f := Painted(Wrap(c, t), false);
      ghost var g := Fork(f, c.up.node, true, c.up.right);
      Paint(node.parent, false, c.up, Wrap(c, t));
      At(OnLeft(c.up, c.node, false, c.right), t);
      At(c.up, f);
      Paint(node.parent.parent, true, c.up.up, g.(red := false));
      At(OnLeft(OnLeft(c.up.up, g.node, true, g.right), c.node, false, c.right), t);
      At(OnLeft(c.up.up, g.node, true, g.right), f);
      RightRotateAt(node.parent.parent, c.up.up, g);
    }

    /** One turn of the insert loop when the parent of `n` is a left child. */
    method RebalanceLeft(n: Node, ghost c: Context, ghost t: Tree)
      returns (node: Node, ghost c': Context, ghost t': Tree)
      requires Linked() && shape == Plug(c, t) && Repairing(c, t) && n == t.node
      requires !c.Top? && c.red && c.up.OnLeft?
      modifies this`root, this`shape, this`links
      modifies links.Keys`left, links.Keys`right, links.Keys`parent, links.Keys`red
      ensures Linked() && shape == Plug(c', t') && Repairing(c', t') && node == t'.node
      ensures Depth(c') < Depth(c)
      ensures links.Keys == old(links.Keys) && Inorder(shape) == old(Inorder(shape))
    {
      node := n;
      Unfold(c, t);
      At(c, t);
      At(c.up, Wrap(c, t));
      At(OnRight(c.up.up, Wrap(c, t), c.up.node, c.up.red), c.up.right);
      var temp := node.parent.parent.right;

      if temp.red {
        RecolourLeft(node, temp, c, t);
        node := node.parent.parent;
        c', t' := c.up.up, Recoloured(c, t);
      } else {
        ghost var c1, t1 := c, t;
        if node == node.parent.right {
          node := node.parent;
          TurnOutwardLeft(node, c, t);
          c1, t1 := OnLeft(c.up, t.node, true, t.right), Fork(c.left, c.node, true, t.left);
        }
        FinishLeft(node, c1, t1);
        c', t' := OnLeft(c1.up.up, c1.node, false, Fork(c1.right, c1.up.node, true, c1.up.right)), t1;
      }
    }

    /** The uncle is red: the parent and the uncle turn black, the grandparent red. */
    method RecolourRight(node: Node, temp: Node, ghost c: Context, ghost t: Tree)
      requires Linked() && shape == Plug(c, t) && Repairing(c, t) && node == t.node
      requires !c.Top? && c.red && c.up.OnRight? && Red(c.up.left) && temp == c.up.left.node
      modifies this`shape, this`links, links.Keys`red
      ensures Linked() && shape == Plug(c.up.up, Recoloured(c, t)) && Repairing(c.up.up, Recoloured(c, t))
      ensures links.Keys == old(links.Keys) && Inorder(shape) == old(Inorder(shape))
      ensures node.parent == old(node.parent) && node.parent != null && node.parent.parent == c.up.node
    {
      Unfold(c, t);
      RepairRecoloured(c, t);
      At(c, t);
      At(c.up, Wrap(c, t));
      ghost var f := Painted(Wrap(c, t), false);
      Paint(node.parent, false, c.up, Wrap(c, t));
      Paint(temp, false, OnLeft(c.up.up, c.up.node, false, f), c.up.left);
      At(OnRight(c.up.up, Painted(c.up.left, false), c.up.node, false), f);
      Paint(node.parent.parent, true, c.up.up, Fork(Painted(c.up.left, false), c.up.node, false, f));
      At(OnRight(c.up.up, Painted(c.up.left, false), c.up.node, true), f);
    }

    /** The uncle is black and the node hangs on the inner side of its parent. */
    method TurnOutwardRight(node: Node, ghost c: Context, ghost t: Tree)
      requires Linked() && shape == Plug(c, t) && Repairing(c, t)
      requires c.OnLeft? && c.red && node == c.node
      modifies this`root, this`shape, this`links
      modifies links.Keys`left, links.Keys`right, links.Keys`parent, links.Keys`red
      ensures Linked() && shape == Plug(OnRight(c.up, t.left, t.node, true), Fork(t.right, c.node, true, c.right))
      ensures Repairing(OnRight(c.up, t.left, t.node, true), Fork(t.right, c.node, true, c.right))
      ensures links.Keys == old(links.Keys) && Inorder(shape) == old(Inorder(shape))
    {
      RepairInner(c, t);
      RightRotateAt(node, c.up, Wrap(c, t));
    }

    /** The uncle is black and the node hangs on the outer side: the last rotation. */
    method FinishRight(node: Node, ghost c: Context, ghost t: Tree)
      requires Linked() && shape == Plug(c, t) && Repairing(c, t) && node == t.node
      requires c.OnRight? && c.red && c.up.OnRight? && !Red(c.up.left)
      modifies this`root, this`shape, this`links
      modifies links.Keys`left, links.Keys`right, links.Keys`parent, links.Keys`red
      ensures Linked() && shape == Plug(OnRight(c.up.up, Fork(c.up.left, c.up.node, true, c.left), c.node, false), t)
      ensures Repairing(OnRight(c.up.up, Fork(c.up.left, c.up.node, true, c.left), c.node, false), t)
      ensures links.Keys == old(links.Keys) && Inorder(shape) == old(Inorder(shape))
    {
      Unfold(c, t);
      RepairRotatedMirror(c, t);
      At(c, t);
      At(c.up, Wrap(c, t));
      ghost var f := Painted(Wrap(c, t), false);
      ghost var g := Fork(c.up.left, c.up.node, true, f);
      Paint(node.parent, false, c.up, Wrap(c, t));
      At(OnRight(c.up, c.left, c.node, false), t);
      At(c.up, f);
      Paint(node.parent.parent, true, c.up.up, g.(red := false));
      At(OnRight(OnRight(c.up.up, g.left, g.node, true), c.left, c.node, false), t);
      At(OnRight(c.up.up, g.left, g.node, true), f);
      LeftRotateAt(node.parent.parent, c.up.up, g);
    }

    /** One turn of the insert loop when the parent of `n` is a right child. */
    method RebalanceRight(n: Node, ghost c: Context, ghost t: Tree)
      returns (node: Node, ghost c': Context, ghost t': Tree)
      requires Linked() && shape == Plug(c, t) && Repairing(c, t) && n == t.node
      requires !c.Top? && c.red && c.up.OnRight?
      modifies this`root, this`shape, this`links
      modifies links.Keys`left, links.Keys`right, links.Keys`parent, links.Keys`red
      ensures Linked() && shape == Plug(c', t') && Repairing(c', t') && node == t'.node
      ensures Depth(c') < Depth(c)
      ensures links.Keys == old(links.Keys) && Inorder(shape) == old(Inorder(shape))
    {
      node := n;
      Unfold(c, t);
      At(c, t);
      At(c.up, Wrap(c, t));
      At(OnLeft(c.up.up, c.up.node, c.up.red, Wrap(c, t)), c.up.left);
      var temp := node.parent.parent.left;

      if temp.red {
        RecolourRight(node, temp, c, t);
        node := node.parent.parent;
        c', t' := c.up.up, Recoloured(c, t);
      } else {
        ghost var c1, t1 := c, t;
        if node == node.parent.left {
          node := node.parent;
          TurnOutwardRight(node, c, t);
          c1, t1 := OnRight(c.up, t.left, t.node, true), Fork(t.right, c.node, true, c.right);
        }
        FinishRight(node, c1, t1);
        c', t' := OnRight(c1.up.up, Fork(c1.up.left, c1.up.node, true, c1.left), c1.node, false), t1;
      }
    }

    /** The descent of `ngx_rbtree_insert_value` and `ngx_rbtree_insert_timer_value`, which
        differ in the comparison only. */
    method FindPlace(from: Node, node: Node, ghost smaller: set<Node>)
      returns (temp: Node, goLeft: bool, ghost c: Context)
      requires Linked() && shape.Fork? && from == root
      requires forall u :: u in links ==> (u in smaller <==> Less(order, node.key, u.key))
      ensures shape == Plug(c, Leaf) && !c.Top? && temp == c.node && goLeft == c.OnLeft?
      ensures temp in links && Guided(c, smaller)
    {
      temp := from;
      c := Top;
      ghost var t := shape;

      while true
        invariant shape == Plug(c, t) && t.Fork? && temp == t.node
        invariant Guided(c, smaller)
        decreases t
      {
        At(c, t);
        goLeft := Less(order, node.key, temp.key);
        var child := if goLeft then temp.left else temp.right;
        c := if goLeft then OnLeft(c, t.node, t.red, t.right) else OnRight(c, t.left, t.node, t.red);
        t := if goLeft then t.left else t.right;
        FitsAt(c, t, sentinel, root, links);
        if child == sentinel {
          break;
        }
        temp := child;
      }
    }

    /** The tail of both insert functions: `node` becomes a red leaf below `temp`. */
    method Hang(temp: Node, goLeft: bool, node: Node, ghost S: set<Node>)
      requires temp in S && node !in S
      modifies node`left, node`right, node`parent, node`red, temp`left, temp`right
      ensures FieldsOf(node) == Links(sentinel, sentinel, temp, true)
      ensures forall u :: u in S ==> FieldsOf(u) == Hung(goLeft, temp, node, u, old(FieldsOf(u)))
    {
      if goLeft {
        temp.left := node;
      } else {
        temp.right := node;
      }
      node.parent := temp;
      node.left := sentinel;
      node.right := sentinel;
      node.red := true;
    }

    method HangMapped(temp: Node, goLeft: bool, node: Node)
      requires Mapped() && temp in links && node !in links && node != sentinel
      modifies this`links, node`left, node`right, node`parent, node`red, temp`left, temp`right
      ensures Mapped() && links.Keys == old(links.Keys) + {node}
      ensures links[node] == Links(sentinel, sentinel, temp, true)
      ensures forall u :: u in old(links) ==> links[u] == Hung(goLeft, temp, node, u, old(links[u]))
    {
      ghost var m := links;
      Hang(temp, goLeft, node, m.Keys);
      links := (map u | u in m :: FieldsOf(u))[node := FieldsOf(node)];
    }

    method AttachAt(temp: Node, goLeft: bool, node: Node, ghost c: Context)
      requires Linked() && shape == Plug(c, Leaf) && !c.Top? && temp == c.node && goLeft == c.OnLeft?
      requires node !in links && node != sentinel && temp in links
      modifies this`shape, this`links, node`left, node`right, node`parent, node`red, temp`left, temp`right
      ensures Linked() && shape == Plug(c, Fork(Leaf, node, true, Leaf))
      ensures links.Keys == old(links.Keys) + {node}
    {
      ghost var m := links;
      HangMapped(temp, goLeft, node);
      AttachFits(c, node, sentinel, root, m, links);
      shape := Plug(c, Fork(Leaf, node, true, Leaf));
    }

    /** `ngx_rbtree_insert`.  If the tree was in order and its keys, the new one included, lie in
        one half range, it stays in order. */
    method Insert(node: Node) returns (ghost k: nat)
      requires Valid() && node !in links && node != sentinel
      modifies this`root, this`shape, this`links, node`left, node`right, node`parent, node`red
      modifies links.Keys`left, links.Keys`right, links.Keys`parent, links.Keys`red
      ensures Valid() && links.Keys == old(links.Keys) + {node}
      ensures k <= |old(Inorder(shape))|
      ensures Inorder(shape) == old(Inorder(shape))[..k] + [node] + old(Inorder(shape))[k..]
      ensures old(Ordered(order, Inorder(shape), Keys())) && Close(order, Inorder(shape), Keys()) ==>
                Ordered(order, Inorder(shape), Keys())
    {
      ghost var q := Inorder(shape);
      ghost var keys: map<Node, Key> := Keys();
      NotListed(node);
      k := PlaceKeyed(node, q, keys);
      if Ordered(order, q, keys) && Close(order, Inorder(shape), Keys()) {
        StillOrdered(order, q, keys, node, node.key, k);
      }
    }

    method PlaceKeyed(node: Node, ghost q: seq<Node>, ghost keys: map<Node, Key>) returns (ghost k: nat)
      requires q == Inorder(shape) && keys == Keys()
      requires Valid() && node !in links && node != sentinel
      modifies this`root, this`shape, this`links, node`left, node`right, node`parent, node`red
      modifies links.Keys`left, links.Keys`right, links.Keys`parent, links.Keys`red
      ensures Valid() && links.Keys == old(links.Keys) + {node}
      ensures k <= |q|
      ensures Inorder(shape) == q[..k] + [node] + q[k..]
      ensures OnlyBoundary(order, node.key, q, keys, k)
      ensures Keys() == keys[node := node.key]
    {
      ghost var key := node.key;
      k := Place(node, q, keys);
      assert node.key == key;
    }

    lemma NotListed(node: Node)
      requires Linked() && node !in links
      ensures node !in Inorder(shape)
    {
      DistinctInorder(shape);
      assert (node in Inorder(shape)) == (node in SetOf(Inorder(shape)));
    }

    ghost function Keys(): (m: map<Node, Key>)
      reads this, links.Keys
      ensures m.Keys == links.Keys
    {
      map u | u in links :: u.key
    }

    /** The insert function proper.  The new node lands at index `k` of the in-order sequence. */
    method Place(node: Node, ghost q: seq<Node>, ghost keys: map<Node, Key>) returns (ghost k: nat)
      requires q == Inorder(shape) && keys == Keys()
      requires Valid() && node !in links && node != sentinel
      modifies this`root, this`shape, this`links, node`left, node`right, node`parent, node`red
      modifies links.Keys`left, links.Keys`right, links.Keys`parent, links.Keys`red
      ensures Valid() && links.Keys == old(links.Keys) + {node}
      ensures k <= |q|
      ensures Inorder(shape) == q[..k] + [node] + q[k..]
      ensures OnlyBoundary(order, node.key, q, keys, k)
    {
      if root == sentinel {
        assert shape.Leaf? && q == [];
        InsertFirst(node);
        k := 0;
      } else {
        k := PlaceBelow(node, q, keys);
      }
    }

    method PlaceBelow(node: Node, ghost q: seq<Node>, ghost keys: map<Node, Key>) returns (ghost k: nat)
      requires q == Inorder(shape) && keys == Keys()
      requires shape.Fork?
      requires Valid() && node !in links && node != sentinel
      modifies this`root, this`shape, this`links, node`left, node`right, node`parent, node`red
      modifies links.Keys`left, links.Keys`right, links.Keys`parent, links.Keys`red
      ensures Valid() && links.Keys == old(links.Keys) + {node}
      ensures k <= |q|
      ensures Inorder(shape) == q[..k] + [node] + q[k..]
      ensures OnlyBoundary(order, node.key, q, keys, k)
    {
      ghost var smaller := set u | u in keys && Less(order, node.key, keys[u]);
      var temp, goLeft, c := FindPlace(root, node, smaller);
      k := |Before(c)|;
      AttachedInorder(c, node);
      GuidedPlace(order, node.key, c, smaller, q, keys);
      PlugRedBlack(c, Leaf, 0);
      AttachAt(temp, goLeft, node, c);
      assert node.key == old(node.key);
      ghost var t := Fork(Leaf, node, true, Leaf);
      Rebalance(node, c, t);
      assert node.key == old(node.key);
      assert OnlyBoundary(order, old(node.key), q, keys, k);
    }

    /** The first branch of `ngx_rbtree_insert`. */
    method InsertFirst(node: Node)
      requires Valid() && root == sentinel && node != sentinel
      modifies this`root, this`shape, this`links, node`left, node`right, node`parent, node`red
      ensures Valid() && links.Keys == old(links.Keys) + {node}
      ensures old(Inorder(shape)) == [] && Inorder(shape) == [node]
    {
      node.parent := null;
      node.left := sentinel;
      node.right := sentinel;
      node.red := false;
      root := node;
      shape := Fork(Leaf, node, false, Leaf);
      links := map[node := FieldsOf(node)];
      assert Image(shape, sentinel, null, node) == FieldsOf(node);
    }

    /** The insert loop. */
    method Rebalance(n: Node, ghost c0: Context, ghost t0: Tree)
      requires Linked() && shape == Plug(c0, t0) && Repairing(c0, t0) && n == t0.node
      modifies this`root, this`shape, this`links
      modifies links.Keys`left, links.Keys`right, links.Keys`parent, links.Keys`red
      ensures Valid() && links.Keys == old(links.Keys) && Inorder(shape) == old(Inorder(shape))
    {
      var node := n;
      ghost var c, t := c0, t0;
      At(c, t);

      while node != root && node.parent.red
        invariant Linked() && shape == Plug(c, t) && Repairing(c, t) && node == t.node
        invariant node != root ==> node.parent != null
        invariant links.Keys == old(links.Keys) && Inorder(shape) == old(Inorder(shape))
        decreases Depth(c)
      {
        At(c, t);
        Unfold(c, t);
        At(c.up, Wrap(c, t));
        if node.parent == node.parent.parent.left {
          node, c, t := RebalanceLeft(node, c, t);
        } else {
          node, c, t := RebalanceRight(node, c, t);
        }
        At(c, t);
      }

      At(c, t);
      RepairDone(c, t);
      Paint(root, false, Top, shape);
    }

    // ----- the delete loop

    /** Red sibling: one rotation makes it the grandparent, and a black node the new sibling. */
    method LowerRedRightSibling(temp: Node, w: Node, ghost c: Context, ghost x: Tree)
      requires Linked() && shape == Plug(c, x) && Deficient(c, x) && !Red(x)
      requires c.OnLeft? && temp == Ptr(x, sentinel) && temp.parent == c.node
      requires Red(c.right) && w == c.right.node
      modifies this`root, this`shape, this`links
      modifies links.Keys`left, links.Keys`right, links.Keys`parent, links.Keys`red
      ensures var c' := OnLeft(OnLeft(c.up, c.right.node, false, c.right.right), c.node, true, c.right.left);
        Linked() && shape == Plug(c', x) && Deficient(c', x) && !Red(c.right.left)
      ensures temp.parent == c.node
      ensures links.Keys == old(links.Keys) && Inorder(shape) == old(Inorder(shape))
    {
      SiblingOf(c, x);
      DeficientRedSibling(c.up, x, c.node, c.right);
      ghost var v := Painted(c.right, false);
      At(c, x);
      Paint(w, false, OnRight(c.up, x, c.node, c.red), c.right);
      Paint(temp.parent, true, c.up, Fork(x, c.node, false, v));
      LeftRotateAt(temp.parent, c.up, Fork(x, c.node, true, v));
      At(OnLeft(OnLeft(c.up, c.right.node, false, c.right.right), c.node, true, c.right.left), x);
    }

    /** Black sibling with a red child on the inner side only: that child takes its place. */
    method RaiseInnerRightNephew(w: Node, ghost c: Context, ghost x: Tree)
      requires Linked() && shape == Plug(c, x) && Deficient(c, x) && !Red(x)
      requires c.OnLeft? && c.right.Fork? && w == c.right.node
      requires !Red(c.right) && Red(c.right.left) && !Red(c.right.right)
      modifies this`root, this`shape, this`links
      modifies links.Keys`left, links.Keys`right, links.Keys`parent, links.Keys`red
      ensures var v, u := c.right.left, c.right;
        var c' := OnLeft(c.up, c.node, c.red, Fork(v.left, v.node, false, Fork(v.right, u.node, true, u.right)));
        Linked() && shape == Plug(c', x) && Deficient(c', x)
      ensures links.Keys == old(links.Keys) && Inorder(shape) == old(Inorder(shape))
    {
      DeficientRedInnerNephew(c.up, x, c.node, c.red, c.right);
      ghost var d := OnRight(c.up, x, c.node, c.red);
      ghost var v := Painted(c.right.left, false);
      At(d, c.right);
      Paint(w.left, false, OnLeft(d, c.right.node, false, c.right.right), c.right.left);
      Paint(w, true, d, Fork(v, c.right.node, false, c.right.right));
      RightRotateAt(w, d, Fork(v, c.right.node, true, c.right.right));
    }

    /** Black sibling with a red child on the outer side: the last rotation. */
    method RaiseOuterRightNephew(temp: Node, w: Node, ghost c: Context, ghost x: Tree)
      requires Linked() && shape == Plug(c, x) && Deficient(c, x) && !Red(x)
      requires c.OnLeft? && temp == Ptr(x, sentinel) && temp.parent == c.node
      requires c.right.Fork? && w == c.right.node && !Red(c.right) && Red(c.right.right)
      modifies this`root, this`shape, this`links
      modifies links.Keys`left, links.Keys`right, links.Keys`parent, links.Keys`red
      ensures var u := c.right;
        Linked() && shape == Plug(c.up, Fork(Fork(x, c.node, false, u.left), u.node, c.red, Painted(u.right, false)))
      ensures RedBlack(shape)
      ensures links.Keys == old(links.Keys) && Inorder(shape) == old(Inorder(shape))
    {
      DeficientRedOuterNephew(c.up, x, c.node, c.red, c.right);
      ghost var v := Painted(c.right, c.red);
      At(c, x);
      Paint(w, temp.parent.red, OnRight(c.up, x, c.node, c.red), c.right);
      Paint(temp.parent, false, c.up, Fork(x, c.node, c.red, v));
      At(OnRight(c.up, x, c.node, false), v);
      Paint(w.right, false, OnRight(OnRight(c.up, x, c.node, false), v.left, v.node, c.red), v.right);
      LeftRotateAt(temp.parent, c.up, Fork(x, c.node, false, Fork(v.left, v.node, c.red, Painted(v.right, false))));
    }

    /** Black right sibling with a red child: at most two rotations end the loop. */
    method RefillFromRight(temp0: Node, w0: Node, ghost c: Context, ghost x: Tree) returns (temp: Node)
      requires Linked() && shape == Plug(c, x) && Deficient(c, x) && !Red(x)
      requires c.OnLeft? && temp0 == Ptr(x, sentinel) && temp0.parent == c.node
      requires c.right.Fork? && w0 == c.right.node && !Red(c.right) && (Red(c.right.left) || Red(c.right.right))
      requires w0.right != null && w0.right.red == Red(c.right.right)
      modifies this`root, this`shape, this`links
      modifies links.Keys`left, links.Keys`right, links.Keys`parent, links.Keys`red
      ensures Linked() && Deficient(Top, shape) && temp == Ptr(shape, sentinel)
      ensures links.Keys == old(links.Keys) && Inorder(shape) == old(Inorder(shape))
    {
      var w := w0;
      ghost var c1 := c;
      if !w.right.red {
        RaiseInnerRightNephew(w, c, x);
        ghost var v, u := c.right.left, c.right;
        c1 := OnLeft(c.up, c.node, c.red, Fork(v.left, v.node, false, Fork(v.right, u.node, true, u.right)));
        At(c1, x);
        w := temp0.parent.right;
      }
      RaiseOuterRightNephew(temp0, w, c1, x);
      temp := root;
      FullTreeDeficient(shape);
      At(Top, shape);
    }

    /** One turn of the delete loop once the right sibling is black. */
    method RefillLeft(temp0: Node, w0: Node, ghost c: Context, ghost x: Tree)
      returns (temp: Node, ghost c': Context, ghost x': Tree)
      requires Linked() && shape == Plug(c, x) && Deficient(c, x) && !Red(x)
      requires c.OnLeft? && temp0 == Ptr(x, sentinel) && temp0.parent == c.node
      requires c.right.Fork? && w0 == c.right.node && !Red(c.right)
      modifies this`root, this`shape, this`links
      modifies links.Keys`left, links.Keys`right, links.Keys`parent, links.Keys`red
      ensures Linked() && shape == Plug(c', x') && Deficient(c', x')
      ensures temp == Ptr(x', sentinel) && (!c'.Top? ==> temp.parent == c'.node)
      ensures c'.Top? || (c' == c.up && (c.red ==> Red(x')))
      ensures links.Keys == old(links.Keys) && Inorder(shape) == old(Inorder(shape))
    {
      var w := w0;
      ghost var d := OnRight(c.up, x, c.node, c.red);
      At(d, c.right);
      At(OnLeft(d, c.right.node, false, c.right.right), c.right.left);
      At(OnRight(d, c.right.left, c.right.node, false), c.right.right);

      if !w.left.red && !w.right.red {
        DeficientBlackNephews(c.up, x, c.node, c.red, c.right);
        Paint(w, true, d, c.right);
        c', x' := c.up, Fork(x, c.node, c.red, Painted(c.right, true));
        temp := temp0.parent;
        At(c', x');
      } else {
        temp := RefillFromRight(temp0, w, c, x);
        c', x' := Top, shape;
      }
    }

    /** One turn of the delete loop when the deficient subtree is a left child. */
    method RefillLeftTurn(temp0: Node, ghost c: Context, ghost x: Tree)
      returns (temp: Node, ghost c': Context, ghost x': Tree)
      requires Linked() && shape == Plug(c, x) && Deficient(c, x) && !Red(x)
      requires c.OnLeft? && temp0 == Ptr(x, sentinel) && temp0.parent == c.node
      modifies this`root, this`shape, this`links
      modifies links.Keys`left, links.Keys`right, links.Keys`parent, links.Keys`red
      ensures Linked() && shape == Plug(c', x') && Deficient(c', x')
      ensures temp == Ptr(x', sentinel) && (!c'.Top? ==> temp.parent == c'.node)
      ensures (if Red(x') then 0 else 1 + Depth(c')) < 1 + Depth(c)
      ensures links.Keys == old(links.Keys) && Inorder(shape) == old(Inorder(shape))
    {
      SiblingOf(c, x);
      At(c, x);
      At(OnRight(c.up, x, c.node, c.red), c.right);
      var w := temp0.parent.right;
      ghost var c1 := c;

      if w.red {
        LowerRedRightSibling(temp0, w, c, x);
        c1 := OnLeft(OnLeft(c.up, c.right.node, false, c.right.right), c.node, true, c.right.left);
        SiblingOf(c1, x);
        At(c1, x);
        w := temp0.parent.right;
      }

      temp, c', x' := RefillLeft(temp0, w, c1, x);
    }

    /** Red sibling: one rotation makes it the grandparent, and a black node the new sibling. */
    method LowerRedLeftSibling(temp: Node, w: Node, ghost c: Context, ghost x: Tree)
      requires Linked() && shape == Plug(c, x) && Deficient(c, x) && !Red(x)
      requires c.OnRight? && temp == Ptr(x, sentinel) && temp.parent == c.node
      requires Red(c.left) && w == c.left.node
      modifies this`root, this`shape, this`links
      modifies links.Keys`left, links.Keys`right, links.Keys`parent, links.Keys`red
      ensures var c' := OnRight(OnRight(c.up, c.left.left, c.left.node, false), c.left.right, c.node, true);
        Linked() && shape == Plug(c', x) && Deficient(c', x) && !Red(c.left.right)
      ensures temp.parent == c.node
      ensures links.Keys == old(links.Keys) && Inorder(shape) == old(Inorder(shape))
    {
      SiblingOf(c, x);
      DeficientRedSiblingRight(c.up, x, c.node, c.left);
      ghost var v := Painted(c.left, false);
      At(c, x);
      Paint(w, false, OnLeft(c.up, c.node, c.red, x), c.left);
      Paint(temp.parent, true, c.up, Fork(v, c.node, false, x));
      RightRotateAt(temp.parent, c.up, Fork(v, c.node, true, x));
      At(OnRight(OnRight(c.up, c.left.left, c.left.node, false), c.left.right, c.node, true), x);
    }

    /** Black sibling with a red child on the inner side only: that child takes its place. */
    method RaiseInnerLeftNephew(w: Node, ghost c: Context, ghost x: Tree)
      requires Linked() && shape == Plug(c, x) && Deficient(c, x) && !Red(x)
      requires c.OnRight? && c.left.Fork? && w == c.left.node
      requires !Red(c.left) && Red(c.left.right) && !Red(c.left.left)
      modifies this`root, this`shape, this`links
      modifies links.Keys`left, links.Keys`right, links.Keys`parent, links.Keys`red
      ensures var v, u := c.left.right, c.left;
        var c' := OnRight(c.up, Fork(Fork(u.left, u.node, true, v.left), v.node, false, v.right), c.node, c.red);
        Linked() && shape == Plug(c', x) && Deficient(c', x)
      ensures links.Keys == old(links.Keys) && Inorder(shape) == old(Inorder(shape))
    {
      DeficientRedInnerNephewRight(c.up, x, c.node, c.red, c.left);
      ghost var d := OnLeft(c.up, c.node, c.red, x);
      ghost var v := Painted(c.left.right, false);
      At(d, c.left);
      Paint(w.right, false, OnRight(d, c.left.left, c.left.node, false), c.left.right);
      Paint(w, true, d, Fork(c.left.left, c.left.node, false, v));
      LeftRotateAt(w, d, Fork(c.left.left, c.left.node, true, v));
    }

    /** Black sibling with a red child on the outer side: the last rotation. */
    method RaiseOuterLeftNephew(temp: Node, w: Node, ghost c: Context, ghost x: Tree)
      requires Linked() && shape == Plug(c, x) && Deficient(c, x) && !Red(x)
      requires c.OnRight? && temp == Ptr(x, sentinel) && temp.parent == c.node
      requires c.left.Fork? && w == c.left.node && !Red(c.left) && Red(c.left.left)
      modifies this`root, this`shape, this`links
      modifies links.Keys`left, links.Keys`right, links.Keys`parent, links.Keys`red
      ensures var u := c.left;
        Linked() && shape == Plug(c.up, Fork(Painted(u.left, false), u.node, c.red, Fork(u.right, c.node, false, x)))
      ensures RedBlack(shape)
      ensures links.Keys == old(links.Keys) && Inorder(shape) == old(Inorder(shape))
    {
      DeficientRedOuterNephewRight(c.up, x, c.node, c.red, c.left);
      ghost var v := Painted(c.left, c.red);
      At(c, x);
      Paint(w, temp.parent.red, OnLeft(c.up, c.node, c.red, x), c.left);
      Paint(temp.parent, false, c.up, Fork(v, c.node, c.red, x));
      At(OnLeft(c.up, c.node, false, x), v);
      Paint(w.left, false, OnLeft(OnLeft(c.up, c.node, false, x), v.node, c.red, v.right), v.left);
      RightRotateAt(temp.parent, c.up, Fork(Fork(Painted(v.left, false), v.node, c.red, v.right), c.node, false, x));
    }

    /** Black left sibling with a red child: at most two rotations end the loop. */
    method RefillFromLeft(temp0: Node, w0: Node, ghost c: Context, ghost x: Tree) returns (temp: Node)
      requires Linked() && shape == Plug(c, x) && Deficient(c, x) && !Red(x)
      requires c.OnRight? && temp0 == Ptr(x, sentinel) && temp0.parent == c.node
      requires c.left.Fork? && w0 == c.left.node && !Red(c.left) && (Red(c.left.left) || Red(c.left.right))
      requires w0.left != null && w0.left.red == Red(c.left.left)
      modifies this`root, this`shape, this`links
      modifies links.Keys`left, links.Keys`right, links.Keys`parent, links.Keys`red
      ensures Linked() && Deficient(Top, shape) && temp == Ptr(shape, sentinel)
      ensures links.Keys == old(links.Keys) && Inorder(shape) == old(Inorder(shape))
    {
      var w := w0;
      ghost var c1 := c;
      if !w.left.red {
        RaiseInnerLeftNephew(w, c, x);
        ghost var v, u := c.left.right, c.left;
        c1 := OnRight(c.up, Fork(Fork(u.left, u.node, true, v.left), v.node, false, v.right), c.node, c.red);
        At(c1, x);
        w := temp0.parent.left;
      }
      RaiseOuterLeftNephew(temp0, w, c1, x);
      temp := root;
      FullTreeDeficient(shape);
      At(Top, shape);
    }

    /** One turn of the delete loop once the left sibling is black. */
    method RefillRight(temp0: Node, w0: Node, ghost c: Context, ghost x: Tree)
      returns (temp: Node, ghost c': Context, ghost x': Tree)
      requires Linked() && shape == Plug(c, x) && Deficient(c, x) && !Red(x)
      requires c.OnRight? && temp0 == Ptr(x, sentinel) && temp0.parent == c.node
      requires c.left.Fork? && w0 == c.left.node && !Red(c.left)
      modifies this`root, this`shape, this`links
      modifies links.Keys`left, links.Keys`right, links.Keys`parent, links.Keys`red
      ensures Linked() && shape == Plug(c', x') && Deficient(c', x')
      ensures temp == Ptr(x', sentinel) && (!c'.Top? ==> temp.parent == c'.node)
      ensures c'.Top? || (c' == c.up && (c.red ==> Red(x')))
      ensures links.Keys == old(links.Keys) && Inorder(shape) == old(Inorder(shape))
    {
      var w := w0;
      ghost var d := OnLeft(c.up, c.node, c.red, x);
      At(d, c.left);
      At(OnRight(d, c.left.left, c.left.node, false), c.left.right);
      At(OnLeft(d, c.left.node, false, c.left.right), c.left.left);

      if !w.left.red && !w.right.red {
        DeficientBlackNephewsRight(c.up, x, c.node, c.red, c.left);
        Paint(w, true, d, c.left);
        c', x' := c.up, Fork(Painted(c.left, true), c.node, c.red, x);
        temp := temp0.parent;
        At(c', x');
      } else {
        temp := RefillFromLeft(temp0, w, c, x);
        c', x' := Top, shape;
      }
    }

    /** One turn of the delete loop when the deficient subtree is a right child. */
    method RefillRightTurn(temp0: Node, ghost c: Context, ghost x: Tree)
      returns (temp: Node, ghost c': Context, ghost x': Tree)
      requires Linked() && shape == Plug(c, x) && Deficient(c, x) && !Red(x)
      requires c.OnRight? && temp0 == Ptr(x, sentinel) && temp0.parent == c.node
      modifies this`root, this`shape, this`links
      modifies links.Keys`left, links.Keys`right, links.Keys`parent, links.Keys`red
      ensures Linked() && shape == Plug(c', x') && Deficient(c', x')
      ensures temp == Ptr(x', sentinel) && (!c'.Top? ==> temp.parent == c'.node)
      ensures (if Red(x') then 0 else 1 + Depth(c')) < 1 + Depth(c)
      ensures links.Keys == old(links.Keys) && Inorder(shape) == old(Inorder(shape))
    {
      SiblingOf(c, x);
      At(c, x);
      At(OnLeft(c.up, c.node, c.red, x), c.left);
      var w := temp0.parent.left;
      ghost var c1 := c;

      if w.red {
        LowerRedLeftSibling(temp0, w, c, x);
        c1 := OnRight(OnRight(c.up, c.left.left, c.left.node, false), c.left.right, c.node, true);
        SiblingOf(c1, x);
        At(c1, x);
        w := temp0.parent.left;
      }

      temp, c', x' := RefillRight(temp0, w, c1, x);
    }

    /** The delete loop; `temp` may be the sentinel, whose parent field then leads back. */
    method RestoreBalance(t0: Node, ghost c0: Context, ghost x0: Tree)
      requires Linked() && shape == Plug(c0, x0) && Deficient(c0, x0)
      requires t0 == Ptr(x0, sentinel) && (!c0.Top? ==> t0.parent == c0.node)
      modifies this`root, this`shape, this`links, sentinel`red
      modifies links.Keys`left, links.Keys`right, links.Keys`parent, links.Keys`red
      ensures Valid() && links.Keys == old(links.Keys) && Inorder(shape) == old(Inorder(shape))
    {
      var temp := t0;
      ghost var c, x := c0, x0;
      At(c, x);

      while temp != root && !temp.red
        invariant Linked() && shape == Plug(c, x) && Deficient(c, x)
        invariant temp == Ptr(x, sentinel) && (!c.Top? ==> temp.parent == c.node)
        invariant links.Keys == old(links.Keys) && Inorder(shape) == old(Inorder(shape))
        decreases if Red(x) then 0 else 1 + Depth(c)
      {
        At(c, x);
        SiblingOf(c, x);
        if c.OnRight? { At(OnLeft(c.up, c.node, c.red, x), c.left); }
        if temp == temp.parent.left {
          temp, c, x := RefillLeftTurn(temp, c, x);
        } else {
          temp, c, x := RefillRightTurn(temp, c, x);
        }
      }

      At(c, x);
      DeficientDone(c, x);
      Blacken(temp, c, x);
    }

    /** `ngx_rbt_black(temp)`, where `temp` may be the sentinel. */
    method Blacken(temp: Node, ghost c: Context, ghost x: Tree)
      requires Linked() && shape == Plug(c, x) && temp == Ptr(x, sentinel)
      modifies this`shape, this`links, temp`red
      ensures Linked() && shape == Plug(c, Painted(x, false))
      ensures links.Keys == old(links.Keys) && Inorder(shape) == old(Inorder(shape))
    {
      if x.Fork? {
        PaintFits(c, x, sentinel, root, links, false);
        links := links[temp := links[temp].(red := false)];
      }
      temp.red := false;
      shape := Plug(c, Painted(x, false));
    }

    // ----- delete

    /** `ngx_rbtree_min`: the leftmost node of the subtree `t`. */
    method Min(from: Node, ghost c: Context, ghost t: Tree) returns (node: Node, ghost d: Context, ghost y: Tree)
      requires Linked() && shape == Plug(c, t) && t.Fork? && from == t.node
      ensures LeftSpine(d) && t == Plug(d, y) && y.Fork? && y.left.Leaf? && node == y.node
    {
      node, d, y := from, Top, t;
      At(c, t);
      while node.left != sentinel
        invariant LeftSpine(d) && t == Plug(d, y) && y.Fork? && node == y.node
        invariant node.left == Ptr(y.left, sentinel)
        decreases y
      {
        node := node.left;
        d, y := OnLeft(d, y.node, y.red, y.right), y.left;
        PlugUnder(d, c, y);
        At(Under(d, c), y);
      }
      PlugUnder(d, c, y);
      FitsAt(OnLeft(Under(d, c), y.node, y.red, y.right), y.left, sentinel, root, links);
    }

    static ghost predicate Cleared(node: Node)
      reads node
    {
      var links := FieldsOf(node);
      links.left == null && links.right == null && links.parent == null && node.key == 0
    }

    /** The node is clobbered once it has left the tree. */
    method Clear(node: Node)
      modifies node
      ensures Cleared(node)
    {
      node.left := null;
      node.right := null;
      node.parent := null;
      node.key := 0;
    }

    /** A node with at most one child gives way to `temp`, which may be the sentinel. */
    method Bypass(node: Node, temp: Node, ghost S: set<Node>)
      requires node in S && node.parent != null && node.parent in S
      requires node.parent != node && node.parent != temp && temp != node
      modifies node.parent`left, node.parent`right, temp`parent
      ensures temp.parent == old(node.parent)
      ensures forall u :: u in S && u != node ==>
        FieldsOf(u) == Bypassed(old(node.parent), node, temp, u, old(FieldsOf(u)))
    {
      if node == node.parent.left {
        node.parent.left := temp;
      } else {
        node.parent.right := temp;
      }
      temp.parent := node.parent;
    }

    /** The successor `subst` of `node` leaves its place to `temp`, its only child or the sentinel. */
    method Unhook(node: Node, subst: Node, temp: Node, ghost S: set<Node>)
      requires subst.parent != null && subst.parent in S && subst.parent != subst && subst.parent != temp
      requires subst in S && temp != subst
      modifies subst.parent`left, subst.parent`right, temp`parent
      ensures temp.parent == if old(subst.parent) == node then subst else old(subst.parent)
      ensures forall u :: u in S ==> FieldsOf(u) == Unhooked(node, subst, temp, old(subst.parent), u, old(FieldsOf(u)))
    {
      if subst == subst.parent.left {
        subst.parent.left := temp;
      } else {
        subst.parent.right := temp;
      }

      if subst.parent == node {
        temp.parent := subst;
      } else {
        temp.parent := subst.parent;
      }
    }

    /** The children of `subst` learn of their new parent. */
    method Adopt(subst: Node, ghost S: set<Node>)
      requires subst in S && sentinel !in S
      requires subst.left != null && (subst.left in S || subst.left == sentinel) && subst.left != subst
      requires subst.right != null && (subst.right in S || subst.right == sentinel) && subst.right != subst
      modifies S`parent
      ensures forall u :: u in S ==>
        FieldsOf(u) == old(Adopted(subst, subst.left, subst.right, u, FieldsOf(u)))
    {
      if subst.left != sentinel {
        subst.left.parent := subst;
      }

      if subst.right != sentinel {
        subst.right.parent := subst;
      }
    }

    static ghost function Adopted(subst: Node, l: Node?, r: Node?, u: Node, f: Links): Links {
      if u == l || u == r then f.(parent := subst) else f
    }

    /** `subst` takes the place and the colour of `node`. */
    method Seat(node: Node, subst: Node, ghost S: set<Node>)
      requires node in S && subst in S && node != subst && sentinel !in S
      requires node.left != null && (node.left in S || node.left == sentinel)
      requires node.right != null && (node.right in S || node.right == sentinel)
      requires node.left != node && node.left != subst && node.right != node && node.right != subst
      requires node != root ==> node.parent in S && node.parent != null && node.parent != node && node.parent != subst
      requires node != root ==> node.parent != node.left && node.parent != node.right
      modifies this`root, S`left, S`right, S`parent, S`red
      ensures root == if node == old(root) then subst else old(root)
      ensures forall u :: u in S && u != node ==>
                FieldsOf(u) == old(Seated(node, subst, FieldsOf(node), node == root, u, FieldsOf(u)))
    {
      subst.left := node.left;
      subst.right := node.right;
      subst.parent := node.parent;
      subst.red := node.red;

      if node == root {
        root := subst;
      } else if node == node.parent.left {
        node.parent.left := subst;
      } else {
        node.parent.right := subst;
      }

      Adopt(subst, S);
    }

    // ----- the three ways out of the tree

    method DetachRoot(node: Node, temp: Node)
      requires Valid() && shape.Fork? && node == root && (shape.left.Leaf? || shape.right.Leaf?)
      requires temp == Ptr(OnlyChild(shape), sentinel)
      modifies this`root, this`shape, this`links, temp`red
      ensures Valid() && links.Keys == old(links.Keys) - {node}
      ensures Inorder(shape) == Without(old(Inorder(shape)), node)
    {
      ghost var t, x := shape, OnlyChild(shape);
      BypassRootFits(t, sentinel, root, links);
      BypassWithout(Top, t);
      BypassColours(Top, t);
      root := temp;
      links := links - {node};
      shape := x;
      Blacken(temp, Top, x);
      SufficientRoot(x);
    }

    lemma SufficientRoot(x: Tree)
      requires Sufficient(Top, x) || Deficient(Top, x)
      ensures RedBlack(Painted(x, false))
    {
      if Sufficient(Top, x) {
        assert Painted(x, false) == x;
      } else {
        DeficientDone(Top, x);
      }
    }

    method DetachOne(node: Node, temp: Node, ghost c: Context, ghost t: Tree)
      requires Linked() && shape == Plug(c, t) && t.Fork? && node == t.node && !c.Top?
      requires (t.left.Leaf? || t.right.Leaf?) && temp == Ptr(OnlyChild(t), sentinel)
      modifies this`shape, this`links, sentinel`parent
      modifies links.Keys`left, links.Keys`right, links.Keys`parent
      ensures Linked() && shape == Plug(c, OnlyChild(t)) && links.Keys == old(links.Keys) - {node}
      ensures temp.parent == c.node && temp != node
    {
      ghost var m := links;
      BypassAt(c, t, sentinel, root, m);
      Skip(node, temp);
      BypassFits(c, t, sentinel, root, m, links);
      shape := Plug(c, OnlyChild(t));
    }

    method Skip(node: Node, temp: Node)
      requires Mapped() && Bypassable(links, node, temp) && (temp == sentinel || temp in links)
      modifies this`links, sentinel`parent, links.Keys`left, links.Keys`right, links.Keys`parent
      ensures Mapped() && links.Keys == old(links.Keys) - {node}
      ensures temp.parent == old(links[node].parent)
      ensures forall u :: u in links ==> links[u] == old(Bypassed(links[node].parent, node, temp, u, links[u]))
    {
      ghost var S := links.Keys;
      assert FieldsOf(node) == links[node];
      Bypass(node, temp, S);
      links := map u | u in S && u != node :: FieldsOf(u);
    }

    method DetachTwo(node: Node, subst: Node, temp: Node, ghost c: Context, ghost t: Tree, ghost d: Context,
                     ghost y: Tree)
      requires Linked() && shape == Plug(c, t) && Successor(t, d, y) && node == t.node && subst == y.node
      requires temp == Ptr(y.right, sentinel)
      modifies this`root, this`shape, this`links, sentinel`parent
      modifies links.Keys`left, links.Keys`right, links.Keys`parent, links.Keys`red
      ensures Linked() && shape == Plug(c, Promoted(t, d, y)) && links.Keys == old(links.Keys) - {node}
      ensures temp.parent == HoleParent(d, subst)
    {
      ghost var m, r := links, root;
      PromoteAt(c, t, d, y, sentinel, root, m);
      Promote(node, subst, temp);
      PromoteFits(c, t, d, y, sentinel, r, m, root, links);
      shape := Plug(c, Promoted(t, d, y));
    }

    method Promote(node: Node, subst: Node, temp: Node)
      requires Mapped() && Promotable(links, sentinel, root, node, subst, temp)
      modifies this`root, this`links, sentinel`parent
      modifies links.Keys`left, links.Keys`right, links.Keys`parent, links.Keys`red
      ensures Mapped() && links.Keys == old(links.Keys) - {node}
      ensures root == if node == old(root) then subst else old(root)
      ensures temp.parent == old(if links[subst].parent == node then subst else links[subst].parent)
      ensures forall u :: u in links ==>
                links[u] ==
                old(Replaced(node, subst, temp, links[node], links[subst].parent, node == root, u, links[u]))
    {
      ghost var m := links;
      PromoteFields(node, subst, temp);
      links := map u | u in m && u != node :: FieldsOf(u);
    }

    method PromoteFields(node: Node, subst: Node, temp: Node)
      requires Mapped() && Promotable(links, sentinel, root, node, subst, temp)
      modifies this`root, sentinel`parent
      modifies links.Keys`left, links.Keys`right, links.Keys`parent, links.Keys`red
      ensures root == if node == old(root) then subst else old(root)
      ensures temp.parent == old(if links[subst].parent == node then subst else links[subst].parent)
      ensures forall u :: u in links && u != node ==>
                FieldsOf(u) ==
                old(Replaced(node, subst, temp, links[node], links[subst].parent, node == root, u, links[u]))
    {
      assert FieldsOf(node) == links[node] && FieldsOf(subst) == links[subst];
      Unhook(node, subst, temp, links.Keys);
      Seat(node, subst, links.Keys);
    }

    /** `ngx_rbtree_delete`. */
    method Delete(node: Node)
      requires Valid() && node in links
      modifies this`root, this`shape, this`links, sentinel`parent, sentinel`red, node
      modifies links.Keys`left, links.Keys`right, links.Keys`parent, links.Keys`red
      ensures Valid() && links.Keys == old(links.Keys) - {node}
      ensures Inorder(shape) == Without(old(Inorder(shape)), node)
      ensures Cleared(node)
      ensures old(Ordered(order, Inorder(shape), Keys())) ==> Ordered(order, Inorder(shape), Keys())
    {
      ghost var q, keys := Inorder(shape), Keys();
      TakeOut(node);
      DistinctInorder(shape);
      forall u | u in Without(q, node) && u in keys ensures u in Keys() && Keys()[u] == keys[u] {
        assert u in SetOf(Inorder(shape));
      }
      if base: Key :| Sorted(order, base, q, keys) {
        WithoutSorted(order, base, q, keys, node, Keys());
      }
    }

    /** A node that is inserted and deleted again leaves the nodes of the tree in the same order. */
    method InsertThenDelete(node: Node)
      requires Valid() && node !in links && node != sentinel
      modifies this`root, this`shape, this`links, sentinel`parent, sentinel`red, node
      modifies links.Keys`left, links.Keys`right, links.Keys`parent, links.Keys`red
      ensures Valid() && links.Keys == old(links.Keys)
      ensures Inorder(shape) == old(Inorder(shape)) && Cleared(node)
    {
      ghost var q := Inorder(shape);
      NotListed(node);
      ghost var k := Insert(node);
      Delete(node);
      InsertThenWithout(q, node, k);
    }

    /** `ngx_rbtree_min` at the root: the timer that expires first, seen from any base in whose
        half range all keys lie. */
    method Earliest() returns (node: Node)
      requires Valid() && root != sentinel
      ensures node in links && node == Inorder(shape)[0]
      ensures Ordered(order, Inorder(shape), Keys()) ==>
                forall base: Key :: AllInWindow(order, base, Inorder(shape), Keys()) ==> LeastFrom(base, node)
    {
      ghost var d, y;
      node, d, y := Min(root, Top, shape);
      MinFirst(d, y);
      DistinctInorder(shape);
      assert node in SetOf(Inorder(shape));
      FirstIsLeast(node);
    }

    /** No key lies closer to `base` than that of the node. */
    ghost predicate LeastFrom(base: Key, node: Node)
      reads this, links.Keys, node
    {
      forall u :: u in links ==> Offset(order, base, node.key) <= Offset(order, base, u.key)
    }

    lemma FirstIsLeast(node: Node)
      requires Valid() && Inorder(shape) != [] && node == Inorder(shape)[0] && node in links
      ensures Ordered(order, Inorder(shape), Keys()) ==>
                forall base: Key :: AllInWindow(order, base, Inorder(shape), Keys()) ==> LeastFrom(base, node)
    {
      DistinctInorder(shape);
      var q := Inorder(shape);
      if a: Key :| Sorted(order, a, q, Keys()) {
        forall base: Key | AllInWindow(order, base, q, Keys()) ensures LeastFrom(base, node) {
          Rebased(order, a, base, q, Keys());
          forall u | u in links ensures Offset(order, base, node.key) <= Offset(order, base, u.key) {
            assert u in SetOf(q);
            var i :| 0 <= i < |q| && q[i] == u;
          }
        }
      }
    }

    method TakeOut(node: Node)
      requires Valid() && node in links
      modifies this`root, this`shape, this`links, sentinel`parent, sentinel`red, node
      modifies links.Keys`left, links.Keys`right, links.Keys`parent, links.Keys`red
      ensures Valid() && links.Keys == old(links.Keys) - {node}
      ensures Inorder(shape) == Without(old(Inorder(shape)), node)
      ensures Cleared(node)
    {
      ghost var c, t := Locate(shape, node);
      ChildrenOf(c, t);

      if node.left == sentinel {
        TakeOutLow(node, node.right, c, t);
      } else if node.right == sentinel {
        TakeOutLow(node, node.left, c, t);
      } else {
        var subst;
        ghost var d, y;
        subst, d, y := Min(node.right, OnRight(c, t.left, t.node, t.red), t.right);
        DeletePromoting(node, subst, c, t, d, y);
      }
    }

    lemma ChildrenOf(c: Context, t: Tree)
      requires Linked() && shape == Plug(c, t) && t.Fork?
      ensures t.node.left == Ptr(t.left, sentinel) && t.node.right == Ptr(t.right, sentinel)
      ensures t.left.Leaf? <==> t.node.left == sentinel
      ensures t.right.Leaf? <==> t.node.right == sentinel
      ensures c.Top? <==> root == t.node
    {
      At(c, t);
      At(OnLeft(c, t.node, t.red, t.right), t.left);
      At(OnRight(c, t.left, t.node, t.red), t.right);
    }

    /** The removal of a node with at most one child. */
    method TakeOutLow(node: Node, temp: Node, ghost c: Context, ghost t: Tree)
      requires Valid() && shape == Plug(c, t) && t.Fork? && node == t.node && (c.Top? <==> node == root)
      requires (t.left.Leaf? || t.right.Leaf?) && temp == Ptr(OnlyChild(t), sentinel)
      modifies this`root, this`shape, this`links, sentinel`parent, sentinel`red, node
      modifies links.Keys`left, links.Keys`right, links.Keys`parent, links.Keys`red
      ensures Valid() && links.Keys == old(links.Keys) - {node}
      ensures Inorder(shape) == Without(old(Inorder(shape)), node)
      ensures Cleared(node)
    {
      if node == root {
        DetachRoot(node, temp);
        Clear(node);
      } else {
        DeleteBypassing(node, temp, c, t);
      }
    }

    method DeleteBypassing(node: Node, temp: Node, ghost c: Context, ghost t: Tree)
      requires Valid() && !c.Top? && shape == Plug(c, t) && t.Fork? && node == t.node
      requires (t.left.Leaf? || t.right.Leaf?) && temp == Ptr(OnlyChild(t), sentinel)
      modifies this`root, this`shape, this`links, sentinel`parent, sentinel`red, node
      modifies links.Keys`left, links.Keys`right, links.Keys`parent, links.Keys`red
      ensures Valid() && links.Keys == old(links.Keys) - {node}
      ensures Inorder(shape) == Without(old(Inorder(shape)), node)
      ensures Cleared(node)
    {
      At(c, t);
      BypassWithout(c, t);
      BypassColours(c, t);
      var red := node.red;
      DetachOne(node, temp, c, t);
      Clear(node);
      Settle(red, temp, c, OnlyChild(t));
    }

    /** The end of the delete function, `red` being the colour that left the tree. */
    method Settle(red: bool, temp: Node, ghost c: Context, ghost x: Tree)
      requires Linked() && shape == Plug(c, x) && if red then Sufficient(c, x) else Deficient(c, x)
      requires temp == Ptr(x, sentinel) && (!c.Top? ==> temp.parent == c.node)
      modifies this`root, this`shape, this`links, sentinel`red
      modifies links.Keys`left, links.Keys`right, links.Keys`parent, links.Keys`red
      ensures Valid() && links.Keys == old(links.Keys) && Inorder(shape) == old(Inorder(shape))
    {
      if red {
        PlugRedBlack(c, x, BlackHeight(x));
        return;
      }
      RestoreBalance(temp, c, x);
    }

    /** The only child of the successor, or the sentinel, and its colour. */
    method SuccessorChild(subst: Node, ghost c: Context, ghost t: Tree, ghost d: Context, ghost y: Tree)
      returns (temp: Node, red: bool)
      requires Linked() && shape == Plug(c, t) && Successor(t, d, y) && subst == y.node
      ensures temp == Ptr(y.right, sentinel) && red == y.red && t.node in links && temp != t.node
    {
      PromoteAt(c, t, d, y, sentinel, root, links);
      assert FieldsOf(subst) == links[subst];
      temp := subst.left;
      if temp == sentinel {
        temp := subst.right;
      }
      red := subst.red;
    }

    method DeletePromoting(node: Node, subst: Node, ghost c: Context, ghost t: Tree, ghost d: Context, ghost y: Tree)
      requires Valid() && shape == Plug(c, t) && Successor(t, d, y) && node == t.node && subst == y.node
      modifies this`root, this`shape, this`links, sentinel`parent, sentinel`red, node
      modifies links.Keys`left, links.Keys`right, links.Keys`parent, links.Keys`red
      ensures Valid() && links.Keys == old(links.Keys) - {node}
      ensures Inorder(shape) == Without(old(Inorder(shape)), node)
      ensures Cleared(node)
    {
      PromoteWithout(c, t, d, y);
      PromoteColours(c, t, d, y);
      var temp, red := SuccessorChild(subst, c, t, d, y);
      DetachTwo(node, subst, temp, c, t, d, y);
      Clear(node);
      Settle(red, temp, Under(d, OnRight(c, t.left, subst, t.red)), y.right);
    }
  }
}
