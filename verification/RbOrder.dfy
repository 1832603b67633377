/** The two orders a tree is built with, and what they make of its in-order sequence. */
module RbOrder {
  import opened RbShape
  import opened RbSplice

  /** `ngx_rbtree_insert_value` compares keys as they are, `ngx_rbtree_insert_timer_value`
      by the sign of their difference in machine words. */
  datatype Order = ByValue | ByTimer

  predicate Less(order: Order, a: Key, b: Key) {
    match order
    case ByValue => a < b
    case ByTimer => (a - b) % KEY_RANGE >= KEY_RANGE / 2
  }

  /** How far `k` lies ahead of `base`, going up and around. */
  function Offset(order: Order, base: Key, k: Key): nat {
    match order
    case ByValue => k
    case ByTimer => (k - base) % KEY_RANGE
  }

  /** Timers compare soundly as long as they all fall into the half range that starts at `base`. */
  predicate InWindow(order: Order, base: Key, k: Key) {
    order == ByValue || Offset(order, base, k) < KEY_RANGE / 2
  }

  lemma LessIsOffset(order: Order, base: Key, a: Key, b: Key)
    requires InWindow(order, base, a) && InWindow(order, base, b)
    ensures Less(order, a, b) <==> Offset(order, base, a) < Offset(order, base, b)
  {
    if order == ByTimer {
      var x, y := Offset(order, base, a), Offset(order, base, b);
      assert (a - b) % KEY_RANGE == (x - y) % KEY_RANGE;
    }
  }

  /** On 64-bit words: the comparison of timers is the sign of their difference as a signed word,
      which agrees with the order of distances from a base unless these are half the range apart
      or more (or more than half, where the second comes first). */
  lemma LessExactly(base: Key, a: Key, b: Key, d: int)
    requires -0x8000_0000_0000_0000 <= d < 0x8000_0000_0000_0000 && (a - b - d) % 0x1_0000_0000_0000_0000 == 0
    ensures Less(ByTimer, a, b) <==> d < 0
    ensures Offset(ByTimer, base, base) == 0
    ensures var x, y := Offset(ByTimer, base, a), Offset(ByTimer, base, b);
      Less(ByTimer, a, b) <==> if x < y then y - x <= 0x8000_0000_0000_0000 else x - y >= 0x8000_0000_0000_0000
  {
  }

  /** All keys lie in the half range that starts at `base`. */
  ghost predicate AllInWindow(order: Order, base: Key, q: seq<Node>, keys: map<Node, Key>) {
    forall i :: 0 <= i < |q| ==> q[i] in keys && InWindow(order, base, keys[q[i]])
  }

  /** The nodes of `q`, whose keys `keys` holds, never step back as seen from `base`. */
  ghost predicate Sorted(order: Order, base: Key, q: seq<Node>, keys: map<Node, Key>) {
    var window := AllInWindow(order, base, q, keys);
    window && forall i, j :: 0 <= i < j < |q| ==> Offset(order, base, keys[q[i]]) <= Offset(order, base, keys[q[j]])
  }

  /** The nodes are in order as seen from some base. */
  ghost predicate Ordered(order: Order, q: seq<Node>, keys: map<Node, Key>) {
    exists base: Key :: Sorted(order, base, q, keys)
  }

  /** All keys lie in one half range. */
  ghost predicate Close(order: Order, q: seq<Node>, keys: map<Node, Key>) {
    exists base: Key :: AllInWindow(order, base, q, keys)
  }

  /** The base may move, as long as all keys stay in the half range that starts there. */
  lemma Rebased(order: Order, a: Key, b: Key, q: seq<Node>, keys: map<Node, Key>)
    requires Sorted(order, a, q, keys) && AllInWindow(order, b, q, keys)
    ensures Sorted(order, b, q, keys)
  {
    forall i, j | 0 <= i < j < |q| ensures Offset(order, b, keys[q[i]]) <= Offset(order, b, keys[q[j]]) {
      LessIsOffset(order, a, keys[q[j]], keys[q[i]]);
      LessIsOffset(order, b, keys[q[j]], keys[q[i]]);
    }
  }

  /** `b` is where the keys that `key` precedes begin. */
  ghost predicate Boundary(order: Order, key: Key, q: seq<Node>, keys: map<Node, Key>, b: int) {
    && 0 <= b <= |q|
    && forall i :: 0 <= i < |q| ==> q[i] in keys && (Less(order, key, keys[q[i]]) <==> b <= i)
  }

  /** If the keys that `key` precedes form the tail of `q`, that tail begins at `k`. */
  ghost predicate OnlyBoundary(order: Order, key: Key, q: seq<Node>, keys: map<Node, Key>, k: int) {
    var unique := forall b :: Boundary(order, key, q, keys, b) ==> k == b;
    unique
  }

  /** A guided path to an empty place ends at the boundary. */
  lemma GuidedPlace(order: Order, key: Key, c: Context, smaller: set<Node>, q: seq<Node>, keys: map<Node, Key>)
    requires q == Inorder(Plug(c, Leaf))
    requires Guided(c, smaller) && Elems(Plug(c, Leaf)) <= keys.Keys
    requires forall u :: u in keys ==> (u in smaller <==> Less(order, key, keys[u]))
    ensures OnlyBoundary(order, key, q, keys, |Before(c)|)
  {
    DistinctInorder(Plug(c, Leaf));
    forall b | Boundary(order, key, q, keys, b) ensures |Before(c)| == b {
      forall i | 0 <= i < |q| ensures q[i] in smaller <==> b <= i {
        assert q[i] in SetOf(q);
      }
      GuidedToBoundary(c, Leaf, smaller, b);
    }
  }

  lemma SortedHasBoundary(order: Order, base: Key, key: Key, q: seq<Node>, keys: map<Node, Key>) returns (b: int)
    requires Sorted(order, base, q, keys) && InWindow(order, base, key)
    ensures Boundary(order, key, q, keys, b)
  {
    b := |q|;
    while b > 0 && Less(order, key, keys[q[b - 1]])
      invariant 0 <= b <= |q|
      invariant forall i :: b <= i < |q| ==> Less(order, key, keys[q[i]])
    {
      b := b - 1;
    }
    forall i | 0 <= i < b ensures !Less(order, key, keys[q[i]]) {
      LessIsOffset(order, base, key, keys[q[i]]);
      LessIsOffset(order, base, key, keys[q[b - 1]]);
    }
  }

  lemma InsertKeepsSorted(order: Order, base: Key, q: seq<Node>, keys: map<Node, Key>, n: Node, key: Key, k: int)
    requires Sorted(order, base, q, keys) && InWindow(order, base, key) && n !in q
    requires Boundary(order, key, q, keys, k)
    ensures Sorted(order, base, q[..k] + [n] + q[k..], keys[n := key])
  {
    forall i | 0 <= i < |q|
      ensures Less(order, key, keys[q[i]]) <==> Offset(order, base, key) < Offset(order, base, keys[q[i]])
    {
      LessIsOffset(order, base, key, keys[q[i]]);
    }
  }

  /** The path to a place of the tree: `smaller` is the set of nodes the new key precedes. */
  ghost predicate Guided(c: Context, smaller: set<Node>) {
    match c
    case Top => true
    case OnLeft(up, n, _, _) => n in smaller && Guided(up, smaller)
    case OnRight(up, _, n, _) => n !in smaller && Guided(up, smaller)
  }

  /** When a boundary exists, the guided path cannot miss it. */
  lemma {:induction false} GuidedToBoundary(c: Context, t: Tree, smaller: set<Node>, b: int)
    requires Guided(c, smaller)
    requires var q := Inorder(Plug(c, t));
      0 <= b <= |q| && forall i :: 0 <= i < |q| ==> (q[i] in smaller <==> b <= i)
    ensures |Before(c)| <= b <= |Before(c)| + |Inorder(t)|
    decreases c
  {
    InorderPlug(c, t);
    match c
    case Top =>
    case OnLeft(up, n, red, r) =>
      GuidedToBoundary(up, Fork(t, n, red, r), smaller, b);
      assert Inorder(Plug(c, t))[|Before(c)| + |Inorder(t)|] == n;
    case OnRight(up, l, n, red) =>
      GuidedToBoundary(up, Fork(l, n, red, t), smaller, b);
      assert Inorder(Plug(c, t))[|Before(c)| - 1] == n;
  }

  // ----- what the order gains

  /** The old keys lie in a window if all keys do. */
  lemma OldInWindow(order: Order, base: Key, q: seq<Node>, keys: map<Node, Key>, n: Node, key: Key, k: nat)
    requires k <= |q| && n !in q && forall i :: 0 <= i < |q| ==> q[i] in keys
    requires AllInWindow(order, base, q[..k] + [n] + q[k..], keys[n := key])
    ensures AllInWindow(order, base, q, keys) && InWindow(order, base, key)
  {
    var all := q[..k] + [n] + q[k..];
    assert all[k] == n;
    forall i | 0 <= i < |q| ensures InWindow(order, base, keys[q[i]]) {
      assert q[i] in q && all[if i < k then i else i + 1] == q[i];
    }
  }

  /** A new node placed at the only boundary keeps the sequence in order, provided that all keys
      lie in one half range; from where that was seen before does not matter. */
  lemma StillOrdered(order: Order, q: seq<Node>, keys: map<Node, Key>, n: Node, key: Key, k: nat)
    requires OnlyBoundary(order, key, q, keys, k) && k <= |q| && n !in q
    requires Ordered(order, q, keys) && Close(order, q[..k] + [n] + q[k..], keys[n := key])
    ensures Ordered(order, q[..k] + [n] + q[k..], keys[n := key])
  {
    var a: Key :| Sorted(order, a, q, keys);
    var base: Key :| AllInWindow(order, base, q[..k] + [n] + q[k..], keys[n := key]);
    OldInWindow(order, base, q, keys, n, key, k);
    Rebased(order, a, base, q, keys);
    var b := SortedHasBoundary(order, base, key, q, keys);
    InsertKeepsSorted(order, base, q, keys, n, key, b);
  }

  /** The places of `w` in `q`, one behind the other. */
  ghost predicate Places(w: seq<Node>, q: seq<Node>, at: seq<nat>) {
    && |at| == |w| && (forall i :: 0 <= i < |at| ==> at[i] < |q| && w[i] == q[at[i]])
    && forall i, j :: 0 <= i < j < |at| ==> at[i] < at[j]
  }

  lemma PlacesBehind(w: seq<Node>, q: seq<Node>, at: seq<nat>, n: Node) returns (at': seq<nat>)
    requires Places(w, q, at)
    ensures Places([n] + w, [n] + q, at')
  {
    at' := seq(|at| + 1, i requires 0 <= i <= |at| => if i == 0 then 0 else at[i - 1] + 1);
  }

  lemma PlacesOfRest(q: seq<Node>) returns (at: seq<nat>)
    requires q != []
    ensures Places(q[1..], q, at)
  {
    at := seq(|q| - 1, i requires 0 <= i => i + 1);
  }

  /** The places that what is left of `q` had in it. */
  lemma {:induction false} WithoutAt(q: seq<Node>, n: Node) returns (at: seq<nat>)
    ensures Places(Without(q, n), q, at)
  {
    if q == [] {
      at := [];
    } else if q[0] == n {
      at := PlacesOfRest(q);
    } else {
      at := WithoutAt(q[1..], n);
      at := PlacesBehind(Without(q[1..], n), q[1..], at, q[0]);
      assert [q[0]] + q[1..] == q;
    }
  }

  /** What is left of a sorted sequence, in the same order and with the same keys, is sorted. */
  lemma PartSorted(order: Order, base: Key, q: seq<Node>, keys: map<Node, Key>, w: seq<Node>, keys': map<Node, Key>,
                   at: seq<nat>)
    requires Sorted(order, base, q, keys) && Places(w, q, at)
    requires forall u :: u in w && u in keys ==> u in keys' && keys'[u] == keys[u]
    ensures Sorted(order, base, w, keys')
  {
    forall i | 0 <= i < |w| ensures w[i] in keys' && w[i] in keys && keys'[w[i]] == keys[w[i]] {
      assert q[at[i]] in keys && w[i] in w;
    }
  }

  lemma WithoutSorted(order: Order, base: Key, q: seq<Node>, keys: map<Node, Key>, n: Node, keys': map<Node, Key>)
    requires Sorted(order, base, q, keys)
    requires forall u :: u in Without(q, n) && u in keys ==> u in keys' && keys'[u] == keys[u]
    ensures Sorted(order, base, Without(q, n), keys')
  {
    var at := WithoutAt(q, n);
    PartSorted(order, base, q, keys, Without(q, n), keys', at);
  }

  /** Deleting a node that was just inserted restores the sequence. */
  lemma InsertThenWithout(q: seq<Node>, n: Node, k: nat)
    requires n !in q && k <= |q|
    ensures Without(q[..k] + [n] + q[k..], n) == q
  {
    WithoutSplit(q[..k], n, q[k..]);
  }
}
