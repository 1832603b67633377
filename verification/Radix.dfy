/** The radix tree of 32-bit prefixes. */
module Radix {
  import opened Bits

  const NO_VALUE := 0xffff_ffff_ffff_ffff
  const NODE_SIZE := 32
  const PAGE_SIZE := 4096

  type Prefix = seq<bool>

  datatype Status = Ok | Busy | Error

  class Node {
    var right: Node?
    var left: Node?
    var parent: Node?
    var value: nat

    constructor ()
      ensures right == null && left == null && parent == null && value == 0
    {
      right, left, parent, value := null, null, null, 0;
    }
  }

  // ----- keys and masks

  /** `key & (0x80000000 >> d)`; the shifted bit is zero from 32 on. */
  predicate BitAt(w: nat, d: nat) {
    d < 32 && Bit(w, 31 - d)
  }

  function KeyBits(key: nat): (p: Prefix)
    ensures |p| == 32
  {
    seq(32, d requires 0 <= d < 32 => BitAt(key, d))
  }

  ghost predicate Spells(bits: Prefix, key: nat) {
    |bits| == 32 && forall d :: 0 <= d < 32 ==> bits[d] == BitAt(key, d)
  }

  /** The number of leading ones of a mask, from bit `d` on: what follows them is ignored. */
  function Lead(mask: nat, d: nat): (k: nat)
    requires d <= 32
    ensures d <= k <= 32
    decreases 32 - d
  {
    if BitAt(mask, d) then Lead(mask, d + 1) else d
  }

  /** The bits of a mask up to the first zero. */
  lemma {:induction false} LeadAt(mask: nat, d: nat)
    requires d <= Lead(mask, 0)
    ensures Lead(mask, d) == Lead(mask, 0)
    ensures BitAt(mask, d) <==> d < Lead(mask, 0)
  {
    if d > 0 { LeadAt(mask, d - 1); }
  }

  /** The first `k` bits of the mask are set, the next one is not. */
  ghost predicate LeadingOnes(mask: nat, k: nat) {
    forall d: nat :: d <= k ==> (BitAt(mask, d) <==> d < k)
  }

  lemma LeadIsLeading(mask: nat)
    ensures LeadingOnes(mask, Lead(mask, 0))
  {
    forall d: nat | d <= Lead(mask, 0) ensures BitAt(mask, d) <==> d < Lead(mask, 0) { LeadAt(mask, d); }
  }

  function PrefixOf(key: nat, mask: nat): Prefix {
    KeyBits(key)[..Lead(mask, 0)]
  }

  ghost function Up(p: Prefix): Prefix
    requires p != []
  {
    p[..|p| - 1]
  }

  // ----- the shape

  /** Every prefix of a prefix with a node has one. */
  ghost predicate Rooted(dom: set<Prefix>, p: Prefix) {
    |p| <= 32 && (p != [] ==> Up(p) in dom)
  }

  ghost predicate Closed(dom: set<Prefix>) {
    [] in dom && forall p {:trigger Rooted(dom, p)} :: p in dom ==> Rooted(dom, p)
  }

  /** No prefix below one without a node has a node. */
  lemma {:induction false} Below(dom: set<Prefix>, bits: Prefix, d: nat, k: nat)
    requires Closed(dom) && d <= k <= |bits| && bits[..d] !in dom
    ensures bits[..k] !in dom
  {
    if d < k {
      Below(dom, bits, d, k - 1);
      assert Up(bits[..k]) == bits[..k - 1];
      assert bits[..k] in dom ==> Rooted(dom, bits[..k]);
    }
  }

  /** The fields of a node. */
  datatype Cell = Cell(left: Node?, right: Node?, parent: Node?, value: nat)

  /** The nodes of the prefixes, the values of the prefixes, and the free nodes in their order. */
  datatype Shape = Shape(at: map<Prefix, Node>, vals: map<Prefix, nat>, freed: seq<Node>)

  ghost function NodeAt(at: map<Prefix, Node>, p: Prefix): Node? {
    if p in at then at[p] else null
  }

  /** The fields of the node of `p`: its children, its parent and its value. */
  ghost function CellOf(s: Shape, p: Prefix): Cell
    requires p in s.vals
  {
    Cell(NodeAt(s.at, p + [false]), NodeAt(s.at, p + [true]), if p == [] then null else NodeAt(s.at, Up(p)), s.vals[p])
  }

  ghost predicate Linked(s: Shape, cells: map<Node, Cell>, p: Prefix)
    requires p in s.at && p in s.vals
  {
    s.at[p] in cells && cells[s.at[p]] == CellOf(s, p)
  }

  /** Free nodes are linked by `right`. */
  ghost predicate Next(l: seq<Node>, cells: map<Node, Cell>, i: nat)
    requires i < |l|
  {
    l[i] in cells && cells[l[i]].right == if i + 1 < |l| then l[i + 1] else null
  }

  ghost predicate FreeList(l: seq<Node>, cells: map<Node, Cell>) {
    && (forall i, j :: 0 <= i < j < |l| ==> l[i] != l[j])
    && forall i: nat {:trigger Next(l, cells, i)} :: i < |l| ==> Next(l, cells, i)
  }

  ghost predicate Differ(at: map<Prefix, Node>, p: Prefix, q: Prefix) {
    p in at && q in at && p != q ==> at[p] != at[q]
  }

  /** Different prefixes have different nodes, and none of them is free. */
  ghost predicate Apart(s: Shape) {
    && (forall p, q {:trigger Differ(s.at, p, q)} :: Differ(s.at, p, q))
    && (forall p {:trigger s.at[p]} :: p in s.at ==> s.at[p] !in s.freed)
  }

  ghost predicate AllLinked(s: Shape, cells: map<Node, Cell>)
    requires s.at.Keys == s.vals.Keys
  {
    forall p {:trigger Linked(s, cells, p)} :: p in s.at ==> Linked(s, cells, p)
  }

  ghost predicate WellFormed(s: Shape, cells: map<Node, Cell>) {
    && s.at.Keys == s.vals.Keys
    && var closed := Closed(s.vals.Keys);
       var apart := Apart(s);
       var linked := AllLinked(s, cells);
       var free := FreeList(s.freed, cells);
       closed && apart && linked && free
  }

  /** The values stored for prefixes. */
  ghost function Stored(vals: map<Prefix, nat>): map<Prefix, nat> {
    map p | p in vals && vals[p] != NO_VALUE :: vals[p]
  }

  ghost function ValueAt(vals: map<Prefix, nat>, p: Prefix): nat {
    if p in vals then vals[p] else NO_VALUE
  }

  // ----- the longest stored prefix

  ghost predicate StoredAt(vals: map<Prefix, nat>, bits: Prefix, k: nat, value: nat)
    requires k <= |bits|
  {
    ValueAt(vals, bits[..k]) == value
  }

  ghost predicate Unstored(vals: map<Prefix, nat>, bits: Prefix, lo: nat, n: nat)
    requires n <= |bits| + 1
  {
    forall j: nat {:trigger StoredAt(vals, bits, j, NO_VALUE)} :: lo <= j < n ==> StoredAt(vals, bits, j, NO_VALUE)
  }

  /** `value` is stored for the longest of the first `n` prefixes of `bits` that are stored. */
  ghost predicate Best(vals: map<Prefix, nat>, bits: Prefix, n: nat, value: nat)
    requires n <= |bits| + 1
  {
    if value == NO_VALUE then Unstored(vals, bits, 0, n)
    else exists k: nat :: k < n && StoredAt(vals, bits, k, value) && Unstored(vals, bits, k + 1, n)
  }

  lemma BestStep(vals: map<Prefix, nat>, bits: Prefix, d: nat, value: nat)
    requires d <= |bits| && Best(vals, bits, d, value)
    ensures Best(vals, bits, d + 1, if ValueAt(vals, bits[..d]) != NO_VALUE then ValueAt(vals, bits[..d]) else value)
  {
    if ValueAt(vals, bits[..d]) != NO_VALUE {
      assert StoredAt(vals, bits, d, ValueAt(vals, bits[..d]));
    }
  }

  lemma BestAll(vals: map<Prefix, nat>, bits: Prefix, d: nat, value: nat)
    requires d <= |bits| && Closed(vals.Keys) && Best(vals, bits, d, value) && bits[..d] !in vals
    ensures Best(vals, bits, |bits| + 1, value)
  {
    forall j: nat | d <= j < |bits| + 1 ensures StoredAt(vals, bits, j, NO_VALUE) { Below(vals.Keys, bits, d, j); }
  }

  /** The same value, searched for from the longest prefix down. */
  ghost function Longest(vals: map<Prefix, nat>, bits: Prefix, n: nat): nat
    requires n <= |bits| + 1
  {
    if n == 0 then NO_VALUE
    else if ValueAt(vals, bits[..n - 1]) != NO_VALUE then ValueAt(vals, bits[..n - 1])
    else Longest(vals, bits, n - 1)
  }

  /** No other value is the best. */
  lemma {:induction false} OnlyLongest(vals: map<Prefix, nat>, bits: Prefix, n: nat, value: nat)
    requires n <= |bits| + 1 && Best(vals, bits, n, value)
    ensures value == Longest(vals, bits, n)
  {
    if n > 0 {
      if value == NO_VALUE {
        assert StoredAt(vals, bits, n - 1, NO_VALUE);
        OnlyLongest(vals, bits, n - 1, value);
      } else {
        var k: nat :| k < n && StoredAt(vals, bits, k, value) && Unstored(vals, bits, k + 1, n);
        if k < n - 1 {
          assert StoredAt(vals, bits, n - 1, NO_VALUE);
          OnlyLongest(vals, bits, n - 1, value);
        }
      }
    }
  }

  /** And there is one. */
  lemma {:induction false} BestIsLongest(vals: map<Prefix, nat>, bits: Prefix, n: nat)
    requires n <= |bits| + 1
    ensures Best(vals, bits, n, Longest(vals, bits, n))
  {
    if n > 0 {
      BestIsLongest(vals, bits, n - 1);
      BestStep(vals, bits, n - 1, Longest(vals, bits, n - 1));
    }
  }

  // ----- the nodes that are missing on the way to a prefix

  ghost function Lacking(dom: set<Prefix>, p: Prefix): nat {
    if p in dom || p == [] then 0 else 1 + Lacking(dom, Up(p))
  }

  lemma {:induction false} LackingBelow(dom: set<Prefix>, bits: Prefix, d: nat, k: nat)
    requires Closed(dom) && d <= k <= |bits| && bits[..d] in dom && (d < k ==> bits[..d + 1] !in dom)
    ensures Lacking(dom, bits[..k]) == k - d
  {
    if d < k {
      Below(dom, bits, d + 1, k);
      LackingBelow(dom, bits, d, k - 1);
      assert Up(bits[..k]) == bits[..k - 1];
    }
  }

  lemma PrefixStep(bits: Prefix, d: nat, k: nat)
    requires d < k <= |bits|
    ensures bits[..d + 1] <= bits[..k]
  {
  }

  // ----- a new leaf

  ghost function Grown(s: Shape, p: Prefix, next: Node): Shape {
    s.(at := s.at[p := next], vals := s.vals[p := NO_VALUE])
  }

  ghost function GrownCells(cells: map<Node, Cell>, node: Node, b: bool, next: Node): map<Node, Cell>
    requires node in cells
  {
    cells[next := Cell(null, null, node, NO_VALUE)]
      [node := if b then cells[node].(right := next) else cells[node].(left := next)]
  }

  lemma NoChildren(dom: set<Prefix>, q: Prefix)
    requires Closed(dom) && q !in dom
    ensures q + [false] !in dom && q + [true] !in dom
  {
    assert Up(q + [false]) == q && Up(q + [true]) == q;
    assert q + [false] in dom ==> Rooted(dom, q + [false]);
    assert q + [true] in dom ==> Rooted(dom, q + [true]);
  }

  /** `node` is the last node on the way to `bits`, at depth `d`. */
  ghost predicate Tip(s: Shape, cells: map<Node, Cell>, bits: Prefix, d: nat, node: Node) {
    && d <= |bits| && bits[..d] in s.at && s.at[bits[..d]] == node && node in cells
    && (d < |bits| ==> bits[..d + 1] !in s.at)
  }

  /** One bit more of a key of which the node is missing. */
  lemma OneDeeper(dom: set<Prefix>, bits: Prefix, d: nat)
    requires Closed(dom) && |bits| == 32 && d < 32 && bits[..d + 1] !in dom
    ensures bits[..d] + [bits[d]] == bits[..d + 1]
    ensures d + 1 < 32 ==> bits[..d + 2] !in dom && bits[..d + 2] != bits[..d + 1]
  {
    NoChildren(dom, bits[..d + 1]);
    assert bits[..d] + [bits[d]] == bits[..d + 1];
    if d + 1 < 32 {
      assert bits[..d + 1] + [bits[d + 1]] == bits[..d + 2];
      assert bits[d + 1] == true || bits[d + 1] == false;
      assert |bits[..d + 2]| == d + 2;
    }
  }

  lemma TipGrown(s: Shape, cells: map<Node, Cell>, bits: Prefix, d: nat, node: Node, next: Node)
    requires s.at.Keys == s.vals.Keys && Closed(s.vals.Keys) && |bits| == 32 && d < 32
    requires Tip(s, cells, bits, d, node)
    ensures var s' := Grown(s, bits[..d] + [bits[d]], next);
      && bits[..d] + [bits[d]] == bits[..d + 1] && bits[..d + 1] !in s.at && s.at.Keys <= s'.at.Keys
      && bits[..d + 1] in s'.at && s'.at[bits[..d + 1]] == next && (d + 1 < 32 ==> bits[..d + 2] !in s'.at)
      && ValueAt(s'.vals, bits[..d + 1]) == NO_VALUE
  {
    OneDeeper(s.vals.Keys, bits, d);
  }

  lemma GrownClosed(dom: set<Prefix>, p: Prefix, b: bool)
    requires Closed(dom) && p in dom && |p| < 32
    ensures Closed(dom + {p + [b]})
  {
    var dom' := dom + {p + [b]};
    assert Up(p + [b]) == p;
    forall x | x in dom' ensures Rooted(dom', x) {
      if x in dom { assert Rooted(dom, x); }
    }
  }

  lemma SameChild(p: Prefix, b: bool, x: Prefix, c: bool)
    ensures x + [c] == p + [b] <==> x == p && c == b
  {
    assert Up(x + [c]) == x && (x + [c])[|x|] == c && (p + [b])[|p|] == b && Up(p + [b]) == p;
  }

  /** What a new node changes for the node of `x`. */
  lemma GrownCell(s: Shape, p: Prefix, b: bool, next: Node, x: Prefix)
    requires s.at.Keys == s.vals.Keys && Closed(s.vals.Keys) && p in s.at && p + [b] !in s.at && x in s.at
    ensures CellOf(Grown(s, p + [b], next), x) ==
      if x != p then CellOf(s, x) else if b then CellOf(s, x).(right := next) else CellOf(s, x).(left := next)
  {
    SameChild(p, b, x, false);
    SameChild(p, b, x, true);
    assert Rooted(s.vals.Keys, x);
  }

  lemma GrownLeaf(s: Shape, p: Prefix, b: bool, next: Node)
    requires s.at.Keys == s.vals.Keys && Closed(s.vals.Keys) && p in s.at && p + [b] !in s.at
    ensures CellOf(Grown(s, p + [b], next), p + [b]) == Cell(null, null, s.at[p], NO_VALUE)
  {
    var q := p + [b];
    NoChildren(s.vals.Keys, q);
    assert Up(q) == p;
    assert q + [false] != q && q + [true] != q && p != q;
  }

  lemma GrownLinked(s: Shape, cells: map<Node, Cell>, p: Prefix, b: bool, next: Node)
    requires WellFormed(s, cells) && p in s.at && p + [b] !in s.at && next !in s.at.Values
    requires s.at[p] in cells
    ensures AllLinked(Grown(s, p + [b], next), GrownCells(cells, s.at[p], b, next))
  {
    var s', cells' := Grown(s, p + [b], next), GrownCells(cells, s.at[p], b, next);
    GrownLeaf(s, p, b, next);
    forall x | x in s'.at ensures Linked(s', cells', x) {
      if x != p + [b] {
        assert Linked(s, cells, x) && s.at[x] != next;
        GrownCell(s, p, b, next, x);
        assert Differ(s.at, x, p);
      }
    }
  }

  lemma GrownKeeps(s: Shape, cells: map<Node, Cell>, p: Prefix, b: bool, next: Node)
    requires WellFormed(s, cells) && p in s.at && p + [b] !in s.at && |p| < 32
    requires next !in s.at.Values && next !in s.freed
    ensures s.at[p] in cells
    ensures WellFormed(Grown(s, p + [b], next), GrownCells(cells, s.at[p], b, next))
    ensures Stored(Grown(s, p + [b], next).vals) == Stored(s.vals)
  {
    var s' := Grown(s, p + [b], next);
    assert Linked(s, cells, p);
    GrownLinked(s, cells, p, b, next);
    GrownClosed(s.vals.Keys, p, b);
    assert s'.vals.Keys == s.vals.Keys + {p + [b]};
    forall x, y ensures Differ(s'.at, x, y) { assert Differ(s.at, x, y); }
    assert s'.at.Keys == s.at.Keys + {p + [b]};
    var cells' := GrownCells(cells, s.at[p], b, next);
    forall i: nat | i < |s.freed| ensures Next(s.freed, cells', i) {
      assert Next(s.freed, cells, i) && s.freed[i] != next && s.freed[i] != s.at[p];
    }
  }

  // ----- a leaf less

  ghost predicate IsLeaf(dom: set<Prefix>, p: Prefix) {
    p + [false] !in dom && p + [true] !in dom
  }

  ghost function Pruned(s: Shape, p: Prefix): Shape
    requires p in s.at
  {
    Shape(s.at - {p}, s.vals - {p}, [s.at[p]] + s.freed)
  }

  ghost function PrunedCells(cells: map<Node, Cell>, node: Node, parent: Node, first: Node?): map<Node, Cell>
    requires node in cells && parent in cells && node != parent
  {
    cells[parent := if cells[parent].right == node then cells[parent].(right := null) else cells[parent].(left := null)]
      [node := cells[node].(right := first)]
  }

  /** The last bit of a prefix. */
  ghost function Last(p: Prefix): bool
    requires p != []
  {
    p[|p| - 1]
  }

  lemma LeafParent(dom: set<Prefix>, p: Prefix, x: Prefix)
    requires IsLeaf(dom, p)
    ensures x in dom && x != [] ==> Up(x) != p
  {
    if x != [] && Up(x) == p {
      assert x == p + [Last(x)];
      if Last(x) { assert x == p + [true]; } else { assert x == p + [false]; }
    }
  }

  lemma PrunedClosed(dom: set<Prefix>, p: Prefix)
    requires Closed(dom) && p in dom && p != [] && IsLeaf(dom, p)
    ensures Closed(dom - {p})
  {
    forall x | x in dom - {p} ensures Rooted(dom - {p}, x) {
      assert Rooted(dom, x);
      LeafParent(dom, p, x);
    }
  }

  /** Of the children of `x` at most the one of `p` goes. */
  lemma PrunedChild(at: map<Prefix, Node>, p: Prefix, x: Prefix, b: bool)
    requires p != []
    ensures NodeAt(at - {p}, x + [b]) == if x == Up(p) && b == Last(p) then null else NodeAt(at, x + [b])
  {
    assert p == Up(p) + [Last(p)];
    SameChild(Up(p), Last(p), x, b);
  }

  lemma PrunedUp(at: map<Prefix, Node>, p: Prefix, x: Prefix)
    requires IsLeaf(at.Keys, p) && x in at && x != []
    ensures NodeAt(at - {p}, Up(x)) == NodeAt(at, Up(x))
  {
    LeafParent(at.Keys, p, x);
  }

  /** What the leaf of `p` leaves behind in the node of `x`. */
  lemma PrunedCell(s: Shape, p: Prefix, x: Prefix)
    requires s.at.Keys == s.vals.Keys && Closed(s.vals.Keys) && p in s.at && p != [] && IsLeaf(s.vals.Keys, p)
    requires x in s.at && x != p
    ensures CellOf(Pruned(s, p), x) ==
      if x != Up(p) then CellOf(s, x) else if Last(p) then CellOf(s, x).(right := null) else CellOf(s, x).(left := null)
  {
    PrunedChild(s.at, p, x, false);
    PrunedChild(s.at, p, x, true);
    if x != [] { PrunedUp(s.at, p, x); }
  }

  lemma PrunedLinked(s: Shape, cells: map<Node, Cell>, p: Prefix, first: Node?)
    requires WellFormed(s, cells) && p in s.at && p != [] && IsLeaf(s.vals.Keys, p)
    requires Up(p) in s.at && s.at[p] in cells && s.at[Up(p)] in cells && s.at[p] != s.at[Up(p)]
    ensures Pruned(s, p).at.Keys == Pruned(s, p).vals.Keys
    ensures AllLinked(Pruned(s, p), PrunedCells(cells, s.at[p], s.at[Up(p)], first))
  {
    var s', cells' := Pruned(s, p), PrunedCells(cells, s.at[p], s.at[Up(p)], first);
    ParentLink(s, cells, p);
    forall x | x in s'.at ensures Linked(s', cells', x) {
      assert Linked(s, cells, x);
      PrunedCell(s, p, x);
      assert Differ(s.at, x, p) && Differ(s.at, x, Up(p));
    }
  }

  /** The right child of a parent is the node of the prefix that ends in a one. */
  lemma ParentLink(s: Shape, cells: map<Node, Cell>, p: Prefix)
    requires WellFormed(s, cells) && p in s.at && p != []
    ensures Up(p) in s.at && s.at[Up(p)] in cells && s.at[p] in cells && s.at[p] != s.at[Up(p)]
    ensures cells[s.at[p]].parent == s.at[Up(p)]
    ensures cells[s.at[Up(p)]].right == s.at[p] <==> Last(p)
  {
    assert Rooted(s.vals.Keys, p) && Linked(s, cells, p) && Linked(s, cells, Up(p));
    assert Up(p) + [Last(p)] == p;
    assert Differ(s.at, p, Up(p)) && Differ(s.at, p, Up(p) + [true]);
    assert |Up(p)| != |p|;
    if Up(p) + [true] in s.at && s.at[Up(p) + [true]] == s.at[p] { assert Last(Up(p) + [true]) == true; }
  }

  lemma PrunedKeeps(s: Shape, cells: map<Node, Cell>, p: Prefix)
    requires WellFormed(s, cells) && p in s.at && p != [] && IsLeaf(s.vals.Keys, p)
    ensures Up(p) in s.at && s.at[p] in cells && s.at[Up(p)] in cells && s.at[p] != s.at[Up(p)]
    ensures var first := if s.freed == [] then null else s.freed[0];
      WellFormed(Pruned(s, p), PrunedCells(cells, s.at[p], s.at[Up(p)], first))
  {
    ParentLink(s, cells, p);
    var s', first := Pruned(s, p), if s.freed == [] then null else s.freed[0];
    var cells' := PrunedCells(cells, s.at[p], s.at[Up(p)], first);
    PrunedLinked(s, cells, p, first);
    PrunedClosed(s.vals.Keys, p);
    assert s'.vals.Keys == s.vals.Keys - {p};
    PrunedFree(s, cells, cells', p);
  }

  lemma PrunedFree(s: Shape, cells: map<Node, Cell>, cells': map<Node, Cell>, p: Prefix)
    requires WellFormed(s, cells) && p in s.at && p != [] && Up(p) in s.at
    requires s.at[p] in cells && s.at[Up(p)] in cells && s.at[p] != s.at[Up(p)]
    requires cells' == PrunedCells(cells, s.at[p], s.at[Up(p)], if s.freed == [] then null else s.freed[0])
    ensures FreeList([s.at[p]] + s.freed, cells')
    ensures Apart(Pruned(s, p))
  {
    var l := [s.at[p]] + s.freed;
    forall x, y ensures Differ(s.at - {p}, x, y) { assert Differ(s.at, x, y); }
    forall x | x in s.at && x != p ensures s.at[x] !in l { assert Differ(s.at, x, p); }
    forall i: nat | i < |l| ensures Next(l, cells', i) {
      if i > 0 {
        assert Next(s.freed, cells, i - 1) && s.freed[i - 1] in s.freed;
      }
    }
    forall i, j | 0 <= i < j < |l| ensures l[i] != l[j] {
      if i == 0 { assert l[j] == s.freed[j - 1] && l[j] in s.freed; }
    }
  }

  // ----- trees without idle leaves

  ghost predicate TidyAt(s: Shape, p: Prefix)
    requires p in s.vals
  {
    p != [] && IsLeaf(s.vals.Keys, p) ==> s.vals[p] != NO_VALUE
  }

  /** Every leaf but the root and `q` has a value. */
  ghost predicate TidyBut(s: Shape, q: Prefix) {
    forall p {:trigger TidyAt(s, p)} :: p in s.vals && p != q ==> TidyAt(s, p)
  }

  ghost predicate Tidy(s: Shape) {
    forall p {:trigger TidyAt(s, p)} :: p in s.vals ==> TidyAt(s, p)
  }

  lemma GrownTidy(s: Shape, bits: Prefix, d: nat, next: Node)
    requires d < |bits| && bits[..d] + [bits[d]] == bits[..d + 1]
    ensures TidyBut(s, bits[..d]) ==> TidyBut(Grown(s, bits[..d + 1], next), bits[..d + 1])
  {
    var s' := Grown(s, bits[..d + 1], next);
    forall x | TidyBut(s, bits[..d]) && x in s'.vals && x != bits[..d + 1] ensures TidyAt(s', x) {
      if x != bits[..d] {
        assert TidyAt(s, x);
      } else {
        assert bits[d] == true || bits[d] == false;
      }
    }
  }

  lemma SameTidy(s0: Shape, s: Shape, q: Prefix)
    requires s.vals == s0.vals
    ensures TidyBut(s0, q) ==> TidyBut(s, q)
  {
    forall x | TidyBut(s0, q) && x in s.vals && x != q ensures TidyAt(s, x) { assert TidyAt(s0, x); }
  }

  lemma PrunedTidy(s: Shape, p: Prefix)
    requires p in s.at && p in s.vals && p != [] && TidyBut(s, p)
    ensures TidyBut(Pruned(s, p), Up(p))
  {
    var s' := Pruned(s, p);
    forall x | x in s'.vals && x != Up(p) ensures TidyAt(s', x) {
      assert TidyAt(s, x);
      assert p == Up(p) + [Last(p)];
      SameChild(Up(p), Last(p), x, false);
      SameChild(Up(p), Last(p), x, true);
    }
  }

  // ----- all prefixes of a length

  /** A mask of `i` leading ones. */
  function LevelMask(i: nat): nat
    requires i <= 32
  {
    Times(Pow2(i) - 1, Pow2(32 - i))
  }

  function Times(a: nat, b: nat): nat {
    a * b
  }

  /** The prefix of `i` bits that reads as the number `j`. */
  function Binary(i: nat, j: nat): (p: Prefix)
    requires i <= 32
    ensures |p| == i
  {
    seq(i, d requires 0 <= d < i => Bit(j, i - 1 - d))
  }

  function Number(p: Prefix): nat {
    if p == [] then 0 else 2 * Number(p[..|p| - 1]) + if p[|p| - 1] then 1 else 0
  }

  ghost predicate Covered(s: Shape, i: nat) {
    forall p {:trigger p in s.at} :: |p| <= i ==> p in s.at
  }

  ghost predicate Counted(s: Shape, i: nat, n: nat)
    requires i <= 32
  {
    forall j: nat {:trigger Binary(i, j)} :: j < n ==> Binary(i, j) in s.at
  }

  lemma {:induction false} NumberBits(p: Prefix, d: nat)
    requires d < |p|
    ensures Number(p) < Pow2(|p|) && Bit(Number(p), |p| - 1 - d) == p[d]
  {
    var q := p[..|p| - 1];
    if |p| > 1 {
      NumberBits(q, if d < |p| - 1 then d else 0);
    }
    assert Number(p) / 2 == Number(q);
  }

  lemma AllCounted(s: Shape, i: nat)
    requires 0 < i <= 32 && Covered(s, i - 1) && Counted(s, i, Pow2(i))
    ensures Covered(s, i)
  {
    forall p | |p| <= i ensures p in s.at {
      if |p| == i {
        NumberBits(p, 0);
        var b := Binary(i, Number(p));
        forall d | 0 <= d < i ensures b[d] == p[d] { NumberBits(p, d); }
        assert b == p;
      }
    }
  }

  lemma Word32()
    ensures Pow2(31) == 0x8000_0000 && Pow2(32) == 0x1_0000_0000
  {
    assert Pow2(8) == 256;
    Pow2Sum(8, 8);
    Pow2Sum(16, 16);
  }

  lemma MaskProducts(a: int, b: int)
    ensures (a - 1) * (2 * b) == 2 * ((a - 1) * b)
    ensures (a - 1) * b == a * b - b
    ensures (2 * a - 1) * b == a * b + (a * b - b)
  {
  }

  lemma MaskStep(i: nat)
    requires i < 32
    ensures SetBit(LevelMask(i) / 2, 31) == LevelMask(i + 1)
  {
    var a, b := Pow2(i), Pow2(31 - i);
    var h := (a - 1) * b;
    MaskProducts(a, b);
    assert a * b == Pow2(31) by { Pow2Sum(i, 31 - i); }
    assert Pow2(32 - i) == 2 * b;
    assert LevelMask(i) == 2 * h && LevelMask(i) / 2 == h && h < Pow2(31);
    Bits.SmallWord(h, 31, 31);
    assert LevelMask(i + 1) == (2 * a - 1) * b;
  }

  lemma {:induction false} LevelLead(i: nat, d: nat)
    requires d <= i <= 32
    ensures Lead(LevelMask(i), d) == i
    decreases 32 - d
  {
    if d < 32 {
      BitOfShl(Pow2(i) - 1, 32 - i, 31 - d);
      if d < i {
        OnesBits(i, i - 1 - d);
        LevelLead(i, d + 1);
      }
    }
  }

  /** The `j`-th key of a level has the prefix that reads as `j`. */
  lemma KeyPrefix(i: nat, j: nat)
    requires 0 < i <= 32 && j < Pow2(i)
    ensures PrefixOf(Times(j, Pow2(32 - i)), LevelMask(i)) == Binary(i, j)
  {
    LevelLead(i, 0);
    var key := Times(j, Pow2(32 - i));
    forall d | 0 <= d < i ensures KeyBits(key)[d] == Binary(i, j)[d] { KeyBit(i, j, d); }
    assert KeyBits(key)[..i] == Binary(i, j);
  }

  lemma KeyBit(i: nat, j: nat, d: nat)
    requires d < i <= 32
    ensures BitAt(Times(j, Pow2(32 - i)), d) == Bit(j, i - 1 - d)
  {
    BitOfShl(j, 32 - i, 31 - d);
  }

  /** The step from key to key among those of `i + 1` bits. */
  function Inc(i: nat): nat {
    if i < 32 then Pow2(31 - i) else 0
  }

  lemma IncStep(i: nat)
    requires i < 32
    ensures Inc(i) / 2 == Inc(i + 1)
  {
  }

  /** The `j`-th key of `i + 1` bits. */
  function KeyAt(i: nat, j: nat): nat {
    Times(j, Inc(i))
  }

  lemma KeyWraps(i: nat, j: nat)
    requires i < 32 && j < Pow2(i + 1)
    ensures var key := (KeyAt(i, j) + Inc(i)) % 0x1_0000_0000;
      if j + 1 == Pow2(i + 1) then key == 0 else key == KeyAt(i, j + 1) && key != 0
  {
    Word32();
    Pow2Sum(i + 1, 31 - i);
    var inc := Inc(i);
    assert j * inc + inc == (j + 1) * inc;
    if j + 1 < Pow2(i + 1) {
      Between(j + 1, Pow2(i + 1), inc);
    }
  }

  lemma NextKey(i: nat, j: nat)
    requires i < 32 && j < Pow2(i + 1)
    ensures PrefixOf(KeyAt(i, j), LevelMask(i + 1)) == Binary(i + 1, j)
  {
    KeyPrefix(i + 1, j);
  }

  lemma CountedNext(s0: Shape, s: Shape, i: nat, j: nat, p: Prefix)
    requires i < 32 && Covered(s0, i) && Counted(s0, i + 1, j) && s0.at.Keys <= s.at.Keys
    requires p in s.at && p == Binary(i + 1, j)
    ensures Covered(s, i) && Counted(s, i + 1, j + 1)
  {
    forall q: Prefix | |q| <= i ensures q in s.at {
      assert q in s0.at;
      assert q in s0.at.Keys;
    }
    var m := i + 1;
    forall k: nat | k < j + 1 ensures Binary(m, k) in s.at {
      if k < j { assert Binary(m, k) in s0.at.Keys; }
    }
  }

  lemma Between(a: nat, b: nat, c: nat)
    requires 0 < a < b && c > 0
    ensures 0 < a * c < b * c
  {
    assert b * c == a * c + (b - a) * c;
    assert (b - a) * c > 0;
  }

  ghost predicate AtLevel(i: nat, mask: nat, inc: nat)
    requires i <= 32
  {
    mask == LevelMask(i) && (i < 32 ==> inc == Inc(i))
  }

  lemma LowLevels(s: Shape, mask: nat)
    requires s.at.Keys == s.vals.Keys && Closed(s.vals.Keys) && mask == 0
    ensures Covered(s, 0) && AtLevel(0, mask, 0x8000_0000)
  {
    Word32();
    forall p: Prefix | |p| <= 0 ensures p in s.at { assert p == []; }
  }

  /** What an insertion starts from: the values, the prefixes with nodes, the key, the prefix, the
      depth of the last node on the way, how many nodes there are and can still come, how many can
      still come from the root on, and whether every leaf had a value. */
  datatype Climb = Climb(before: map<Prefix, nat>, dom: set<Prefix>, bits: Prefix, p: Prefix,
                         depth: nat, total: nat, room: nat, tidy: bool)

  ghost predicate Routed(g: Climb, key: nat) {
    var spells := Spells(g.bits, key);
    spells && |g.p| <= 32 && g.p == g.bits[..|g.p|]
  }

  // ----- the tree

  class Tree {
    var root: Node
    var free: Node?
    var size: nat
    /** How many pages the memory pool can still give. */
    var pages: nat
    ghost var shape: Shape
    ghost var cells: map<Node, Cell>

    /** The fields are those noted in `cells`. */
    ghost predicate Mapped()
      reads this, cells.Keys
    {
      forall n {:trigger cells[n]} :: n in cells ==> Cell(n.left, n.right, n.parent, n.value) == cells[n]
    }

    ghost predicate Valid()
      reads this, cells.Keys
    {
      var mapped := Mapped();
      var formed := WellFormed(shape, cells);
      var all := mapped && formed && NodeAt(shape.at, []) == root
        && free == if shape.freed == [] then null else shape.freed[0];
      all
    }

    /** The values stored for prefixes. */
    ghost function Map(): map<Prefix, nat>
      reads this
    {
      Stored(shape.vals)
    }

    /** The free list, the current page and the memory pool are exhausted. */
    ghost predicate NoMemory()
      reads this
    {
      free == null && size < NODE_SIZE && pages == 0
    }

    /** How many nodes the free list, the current page and the memory pool can still give. */
    ghost function Room(): nat
      reads this
    {
      |shape.freed| + size / NODE_SIZE + PAGE_SIZE / NODE_SIZE * pages
    }

    /** No node has been lost or come from elsewhere, and all new ones are for prefixes of `p`. */
    ghost predicate Grew(total: nat, dom: set<Prefix>, p: Prefix)
      reads this
    {
      |shape.at| + Room() == total && forall q :: q in shape.at && q !in dom ==> q <= p
    }

    /** All nodes that have come to the tree are newly allocated. */
    twostate predicate NewNodes()
      reads this
    {
      var all := forall n :: n in cells && n !in old(cells) ==> fresh(n);
      all
    }

    // ----- nodes

    /** `ngx_radix_alloc`: a node of the free list, or a new one, or none. */
    method Alloc() returns (node: Node?)
      requires Valid()
      modifies this`free, this`size, this`pages, this`shape
      ensures Valid() && shape == old(shape).(freed := shape.freed)
      ensures node != null ==> (node in old(cells) || fresh(node)) && node !in shape.at.Values && node !in shape.freed
      ensures old(shape).freed != [] ==> node == old(shape).freed[0] && shape.freed == old(shape).freed[1..]
      ensures node == null ==> shape == old(shape) && NoMemory()
      ensures node == null <==> old(NoMemory())
      ensures node == null <==> old(Room()) == 0
      ensures node != null ==> Room() == old(Room()) - 1
    {
      if free != null {
        node := free;
        FreeRest(shape, cells);
        free := free.right;
        shape := shape.(freed := shape.freed[1..]);
      } else {
        if size < NODE_SIZE {
          if pages == 0 { return null; }
          pages := pages - 1;
          size := PAGE_SIZE;
        }
        NodesKnown(shape, cells);
        node := new Node();
        size := size - NODE_SIZE;
      }
    }

    // ----- lookup

    /** The links of the node at depth `d` of the way down. */
    lemma Descend(bits: Prefix, d: nat)
      requires Valid() && |bits| == 32 && d <= 32 && bits[..d] in shape.at
      ensures var n := shape.at[bits[..d]];
        && n in cells && n.value == ValueAt(shape.vals, bits[..d])
        && (d < 32 ==> NodeAt(shape.at, bits[..d + 1]) == if bits[d] then n.right else n.left)
        && (d == 32 ==> n.left == null && n.right == null)
    {
      assert Linked(shape, cells, bits[..d]);
      if d < 32 {
        assert bits[..d] + [bits[d]] == bits[..d + 1];
      } else {
        assert !Rooted(shape.vals.Keys, bits[..d] + [false]) && !Rooted(shape.vals.Keys, bits[..d] + [true]);
      }
    }

    /** `ngx_radix32tree_find`: the value of the longest stored prefix of the key. */
    method Find(key: nat) returns (value: nat)
      requires Valid()
      ensures Best(shape.vals, KeyBits(key), 33, value)
    {
      ghost var bits := KeyBits(key);
      var node: Node? := root;
      value := NO_VALUE;
      var d := 0;
      assert bits[..0] == [];
      while node != null
        invariant d <= 33 && Best(shape.vals, bits, d, value)
        invariant node == if d <= 32 then NodeAt(shape.at, bits[..d]) else null
        decreases 33 - d
      {
        BestStep(shape.vals, bits, d, value);
        Descend(bits, d);
        if node.value != NO_VALUE { value := node.value; }
        if BitAt(key, d) { node := node.right; } else { node := node.left; }
        d := d + 1;
      }
      if d <= 32 { BestAll(shape.vals, bits, d, value); }
    }

    // ----- insertion

    /** Writes the fields of the new node and the link to it. */
    method Hook(node: Node, next: Node, b: bool)
      requires Mapped() && node in cells && node != next
      modifies this`cells, node, next
      ensures Mapped() && cells == GrownCells(old(cells), node, b, next)
    {
      next.right := null;
      next.left := null;
      next.parent := node;
      next.value := NO_VALUE;
      if b { node.right := next; } else { node.left := next; }
      cells := GrownCells(cells, node, b, next);
    }

    /** Hangs a new leaf without value below the node of `p`. */
    method Attach(node: Node, next: Node, b: bool, ghost p: Prefix)
      requires Valid() && p in shape.at && shape.at[p] == node && |p| < 32 && p + [b] !in shape.at
      requires next !in shape.at.Values && next !in shape.freed
      modifies this`shape, this`cells, node, next
      ensures Valid() && shape == Grown(old(shape), p + [b], next) && Map() == old(Map())
      ensures cells.Keys == old(cells).Keys + {next}
    {
      GrownKeeps(shape, cells, p, b, next);
      assert p + [b] != [];
      Hook(node, next, b);
      shape := Grown(shape, p + [b], next);
    }

    /** The second part of an insertion, at depth `d`: a valid tree with the same values, in which
        `node` is the last node on the way, and in which the new nodes are those on the way. */
    ghost predicate Climbed(g: Climb, d: nat, node: Node)
      reads this, cells.Keys
    {
      d <= |g.bits| &&
      var valid := Valid();
      var tip := Tip(shape, cells, g.bits, d, node);
      var grew := Grew(g.total, g.dom, g.p);
      var tidy := g.tidy ==> TidyBut(shape, g.bits[..d]);
      var bare := d > g.depth ==> ValueAt(shape.vals, g.bits[..d]) == NO_VALUE;
      var all := valid && tip && grew && tidy && bare
        && Map() == g.before && g.dom <= shape.at.Keys && Room() + d == g.room;
      all
    }

    /** A new leaf one bit below the node at depth `d` of the way, if there is memory. */
    method Sprout(node: Node, key: nat, ghost g: Climb, d: nat) returns (next: Node?)
      requires Climbed(g, d, node) && Routed(g, key) && d < |g.p|
      modifies this, cells.Keys
      ensures NewNodes()
      ensures if next == null then Climbed(g, d, node) && NoMemory() && Room() == 0 else Climbed(g, d + 1, next)
    {
      next := Alloc();
      if next != null {
        SameTidy(old(shape), shape, g.bits[..d]);
        PrefixStep(g.bits, d, |g.p|);
        Graft(node, next, BitAt(key, d), g, d);
      }
    }

    /** Hangs that leaf into the tree. */
    method Graft(node: Node, next: Node, b: bool, ghost g: Climb, ghost d: nat)
      requires g.total > 0 && g.room > 0 && Climbed(g.(total := g.total - 1, room := g.room - 1), d, node)
      requires |g.bits| == 32 && d < 32 && b == g.bits[d] && g.bits[..d + 1] <= g.p
      requires next !in shape.at.Values && next !in shape.freed
      modifies this`shape, this`cells, node, next
      ensures Climbed(g, d + 1, next) && cells.Keys == old(cells).Keys + {next}
    {
      TipGrown(shape, cells, g.bits, d, node, next);
      GrownTidy(shape, g.bits, d, next);
      Attach(node, next, b, g.bits[..d]);
    }

    /** Writes the value of the node of `p`. */
    method Store(node: Node, value: nat, ghost p: Prefix)
      requires Valid() && p in shape.at && shape.at[p] == node
      modifies this`shape, this`cells, node
      ensures Valid() && shape == old(shape).(vals := old(shape).vals[p := value]) && cells.Keys == old(cells).Keys
    {
      StoreKeeps(shape, cells, p, value);
      node.value := value;
      cells := cells[node := cells[node].(value := value)];
      shape := shape.(vals := shape.vals[p := value]);
    }

    /** Stores a value for a prefix whose node has none. */
    method Fill(node: Node, value: nat, ghost p: Prefix)
      requires Valid() && p in shape.at && shape.at[p] == node && ValueAt(shape.vals, p) == NO_VALUE
      modifies this`shape, this`cells, node
      ensures Valid() && cells.Keys == old(cells).Keys && shape.at == old(shape).at && shape.freed == old(shape).freed
      ensures p !in old(Map()) && Map() == Put(old(Map()), p, value)
      ensures TidyBut(old(shape), p) && value != NO_VALUE ==> Tidy(shape)
    {
      StoredPut(shape.vals, p, value);
      if value != NO_VALUE { FilledTidy(shape, p, value); }
      Store(node, value, p);
    }

    /** `ngx_radix32tree_insert`: stores the value of a prefix that has none. */
    method Insert(key: nat, mask: nat, value: nat) returns (status: Status)
      requires Valid()
      modifies this, cells.Keys
      ensures Valid() && NewNodes()
      ensures status.Busy? <==> PrefixOf(key, mask) in old(Map())
      ensures status.Ok? ==> PrefixOf(key, mask) in shape.at && Map() == Put(old(Map()), PrefixOf(key, mask), value)
      ensures !status.Ok? ==> Map() == old(Map())
      ensures status.Error? ==> NoMemory()
      ensures status.Error? <==> old(Room()) < Lacking(old(shape).at.Keys, PrefixOf(key, mask))
      ensures status.Ok? ==> Room() == old(Room()) - Lacking(old(shape).at.Keys, PrefixOf(key, mask))
      ensures Grew(old(|shape.at| + Room()), old(shape).at.Keys, PrefixOf(key, mask))
      ensures old(shape).at.Keys <= shape.at.Keys
      ensures Tidy(old(shape)) && status.Ok? && value != NO_VALUE ==> Tidy(shape)
    {
      var node, found, d := Walk(key, mask);
      if found {
        status := Occupy(node, value, PrefixOf(key, mask));
      } else {
        ghost var total, room, tidy := |shape.at| + Room(), Room() + d, Tidy(shape);
        ghost var g := Climb(Map(), shape.at.Keys, KeyBits(key), PrefixOf(key, mask), d, total, room, tidy);
        Start(key, mask, d, node, g);
        status := Grow(node, d, key, mask, value, g);
      }
    }

    /** Stores the value at a node that is there. */
    method Occupy(node: Node, value: nat, ghost p: Prefix) returns (status: Status)
      requires Valid() && p in shape.at && shape.at[p] == node && node in cells && node.value == ValueAt(shape.vals, p)
      modifies this`shape, this`cells, node
      ensures Valid() && cells.Keys == old(cells).Keys && shape.at == old(shape).at && shape.freed == old(shape).freed
      ensures status == if p in old(Map()) then Busy else Ok
      ensures Map() == if status.Ok? then Put(old(Map()), p, value) else old(Map())
      ensures Tidy(old(shape)) && status.Ok? && value != NO_VALUE ==> Tidy(shape)
    {
      if node.value != NO_VALUE {
        StoredPut(shape.vals, p, value);
        return Busy;
      }
      Fill(node, value, p);
      return Ok;
    }

    /** Stores it at a new node, below the last one on the way to the prefix. */
    method Grow(node: Node, d: nat, key: nat, mask: nat, value: nat, ghost g: Climb) returns (status: Status)
      requires Routed(g, key) && LeadingOnes(mask, |g.p|) && d == g.depth < |g.p|
      requires Climbed(g, d, node)
      modifies this, cells.Keys
      ensures Valid() && NewNodes() && !status.Busy? && Grew(g.total, g.dom, g.p) && g.dom <= shape.at.Keys
      ensures status.Ok? ==>
        && g.p in shape.at && Map() == Put(g.before, g.p, value) && Room() + |g.p| == g.room
        && (g.tidy && value != NO_VALUE ==> Tidy(shape))
      ensures status.Error? ==> Map() == g.before && NoMemory() && g.room < |g.p|
    {
      var last, e, tip := Extend(node, d, key, mask, g);
      if last == null { return Error; }
      Crown(last, value, g);
      return Ok;
    }

    /** Stores the value at the last of the new nodes. */
    method Crown(last: Node, value: nat, ghost g: Climb)
      requires g.depth < |g.p| && Climbed(g, |g.p|, last) && g.p == g.bits[..|g.p|]
      modifies this`shape, this`cells, last
      ensures Valid() && cells.Keys == old(cells).Keys && Grew(g.total, g.dom, g.p) && g.dom <= shape.at.Keys
      ensures g.p in shape.at && Map() == Put(g.before, g.p, value) && Room() + |g.p| == g.room
      ensures g.tidy && value != NO_VALUE ==> Tidy(shape)
    {
      Fill(last, value, g.p);
    }

    /** Where the second part begins. */
    lemma Start(key: nat, mask: nat, d: nat, node: Node, g: Climb)
      requires Valid() && d < Lead(mask, 0) && Tip(shape, cells, KeyBits(key), d, node)
      requires g.total == |shape.at| + Room() && g.room == Room() + d && g.tidy == Tidy(shape)
      requires g.before == Map() && g.dom == shape.at.Keys && g.bits == KeyBits(key) && g.p == PrefixOf(key, mask)
      requires g.depth == d
      ensures Climbed(g, d, node) && LeadingOnes(mask, |g.p|) && Routed(g, key)
      ensures g.p !in g.before && Lacking(g.dom, g.p) == |g.p| - d
    {
      Below(shape.vals.Keys, KeyBits(key), d + 1, Lead(mask, 0));
      LackingBelow(shape.at.Keys, KeyBits(key), d, Lead(mask, 0));
      LeadIsLeading(mask);
    }

    /** The first part of the insertion: down to the node of the prefix, or to the last node on
        the way to it. */
    method Walk(key: nat, mask: nat) returns (node: Node, found: bool, d: nat)
      requires Valid()
      ensures found ==>
        && PrefixOf(key, mask) in shape.at && shape.at[PrefixOf(key, mask)] == node && node in cells
        && node.value == ValueAt(shape.vals, PrefixOf(key, mask))
      ensures !found ==> d < Lead(mask, 0) && Tip(shape, cells, KeyBits(key), d, node)
    {
      ghost var bits := KeyBits(key);
      node := root;
      d := 0;
      assert bits[..0] == [];
      LeadAt(mask, 0);
      while BitAt(mask, d)
        invariant d <= Lead(mask, 0) && (BitAt(mask, d) <==> d < Lead(mask, 0))
        invariant bits[..d] in shape.at && node == shape.at[bits[..d]]
        decreases 32 - d
      {
        Descend(bits, d);
        var next := if BitAt(key, d) then node.right else node.left;
        if next == null { return node, false, d; }
        d := d + 1;
        node := next;
        LeadAt(mask, d);
      }
      Descend(bits, d);
      found := true;
    }

    /** The second part of the insertion: nodes without value for the rest of the prefix, as far as
        the memory goes. */
    method Extend(from: Node, depth: nat, key: nat, mask: nat, ghost g: Climb)
      returns (last: Node?, ghost d: nat, ghost tip: Node)
      requires Routed(g, key) && LeadingOnes(mask, |g.p|) && depth < |g.p|
      requires Climbed(g, depth, from)
      modifies this, cells.Keys
      ensures NewNodes() && Climbed(g, d, tip) && d <= |g.p|
      ensures if last == null then d < |g.p| && NoMemory() && Room() == 0 else d == |g.p| && tip == last
    {
      var node: Node := from;
      var i := depth;
      while BitAt(mask, i)
        invariant i <= |g.p| && Climbed(g, i, node) && NewNodes()
        decreases 32 - i
      {
        var next := Sprout(node, key, g, i);
        if next == null { return null, i, node; }
        i := i + 1;
        node := next;
      }
      return node, i, node;
    }

    // ----- deletion

    /** Unlinks a leaf and puts it on the free list. */
    method Unhook(node: Node, parent: Node)
      requires Mapped() && node in cells && parent in cells && node != parent && node.parent == parent
      modifies this`free, this`cells, node, parent
      ensures Mapped() && cells == PrunedCells(old(cells), node, parent, old(free)) && free == node
    {
      ghost var before := cells;
      Unlink(node, parent);
      node.right := free;
      cells := cells[node := cells[node].(right := free)];
      free := node;
      assert cells == PrunedCells(before, node, parent, old(free));
    }

    method Unlink(node: Node, parent: Node)
      requires Mapped() && node in cells && parent in cells && node != parent
      modifies this`cells, parent
      ensures Mapped()
      ensures cells == old(cells)[parent := if old(cells)[parent].right == node then old(cells)[parent].(right := null)
                                            else old(cells)[parent].(left := null)]
    {
      if parent.right == node { parent.right := null; } else { parent.left := null; }
      cells := cells[parent := Cell(parent.left, parent.right, parent.parent, parent.value)];
    }

    method Detach(node: Node, ghost p: Prefix) returns (parent: Node)
      requires Valid() && p in shape.at && shape.at[p] == node && p != [] && IsLeaf(shape.vals.Keys, p) && node in cells
      modifies this`free, this`shape, this`cells, cells.Keys
      ensures Valid() && shape == Pruned(old(shape), p) && cells.Keys == old(cells).Keys
      ensures Up(p) in shape.at && parent == shape.at[Up(p)] && parent in cells
      ensures |shape.at| + Room() == old(|shape.at| + Room())
    {
      ParentLink(shape, cells, p);
      PrunedKeeps(shape, cells, p);
      parent := node.parent;
      Unhook(node, parent);
      shape := Pruned(shape, p);
    }

    /** The node of a prefix, if there is one. */
    method Lookup(key: nat, mask: nat) returns (node: Node?)
      requires Valid()
      ensures node == NodeAt(shape.at, PrefixOf(key, mask))
    {
      ghost var bits := KeyBits(key);
      node := root;
      var d := 0;
      assert bits[..0] == [];
      LeadAt(mask, 0);
      while node != null && BitAt(mask, d)
        invariant d <= Lead(mask, 0) && (BitAt(mask, d) <==> d < Lead(mask, 0))
        invariant node == NodeAt(shape.at, bits[..d])
        decreases 32 - d
      {
        Descend(bits, d);
        if BitAt(key, d) { node := node.right; } else { node := node.left; }
        d := d + 1;
        LeadAt(mask, d);
      }
      if node == null && d < Lead(mask, 0) { Below(shape.vals.Keys, bits, d, Lead(mask, 0)); }
    }

    /** The links of the node of a prefix. */
    lemma LinksOf(p: Prefix)
      requires Valid() && p in shape.at
      ensures var n := shape.at[p];
        && n in cells && n.value == shape.vals[p]
        && (n.left == null && n.right == null <==> IsLeaf(shape.vals.Keys, p))
        && (n.parent == null <==> p == [])
    {
      assert Linked(shape, cells, p);
      if p != [] { assert Rooted(shape.vals.Keys, p); }
    }

    /** `ngx_radix32tree_delete`: the prefix goes if it is stored; a leaf without value goes as
        well, and so does every node that the removal leaves without children and value.  The
        root must not be an empty leaf if it is to be deleted. */
    method Delete(key: nat, mask: nat) returns (status: Status)
      requires Valid() && (PrefixOf(key, mask) == [] ==> !IsLeaf(shape.vals.Keys, []))
      modifies this, cells.Keys
      ensures Valid() && cells.Keys == old(cells).Keys && !status.Busy?
      ensures status.Ok? <==> PrefixOf(key, mask) in old(Map()) || Removable(old(shape), PrefixOf(key, mask))
      ensures status.Ok? ==> Map() == old(Map()) - {PrefixOf(key, mask)}
      ensures status.Error? ==> Map() == old(Map())
      ensures Grew(old(|shape.at| + Room()), old(shape).at.Keys, [])
      ensures Tidy(old(shape)) ==> Tidy(shape)
    {
      ghost var p := PrefixOf(key, mask);
      var node := Lookup(key, mask);
      if node == null { return Error; }
      LinksOf(p);
      if node.left != null || node.right != null {
        if node.value == NO_VALUE { return Error; }
        StoredDrop(shape, p);
        Store(node, NO_VALUE, p);
        return Ok;
      }
      Prune(node, p);
      status := Ok;
    }

    /** Removes a leaf and what it leaves idle above it. */
    method Prune(leaf: Node, ghost p: Prefix)
      requires Valid() && p in shape.at && shape.at[p] == leaf && p != [] && IsLeaf(shape.vals.Keys, p)
      modifies this, cells.Keys
      ensures Valid() && cells.Keys == old(cells).Keys && Map() == old(Map()) - {p}
      ensures Grew(old(|shape.at| + Room()), old(shape).at.Keys, [])
      ensures Tidy(old(shape)) ==> Tidy(shape)
    {
      var node := leaf;
      ghost var q := p;
      LinksOf(q);
      while true
        invariant Valid() && cells.Keys == old(cells).Keys
        invariant Grew(old(|shape.at| + Room()), old(shape).at.Keys, [])
        invariant q in shape.at && shape.at[q] == node && q != [] && IsLeaf(shape.vals.Keys, q) && node in cells
        invariant Stored(shape.vals - {q}) == old(Map()) - {p}
        invariant Tidy(old(shape)) ==> TidyBut(shape, q)
        decreases |q|
      {
        if Tidy(old(shape)) { PrunedTidy(shape, q); }
        node := Detach(node, q);
        q := Up(q);
        LinksOf(q);
        if node.left != null || node.right != null || node.value != NO_VALUE || node.parent == null { break; }
        StoredBut(shape.vals, q);
      }
      if Tidy(old(shape)) { TidyAgain(shape, q); }
    }

    // ----- preallocation

    /** A valid tree that stores nothing and has nodes for all prefixes of `i` bits, and for the
        first `j` of `i + 1` bits. */
    ghost predicate Ready(i: nat, j: nat)
      reads this, cells.Keys
    {
      var valid := Valid();
      var covered := Covered(shape, i);
      var all := valid && covered && Map() == map[] && (i < 32 ==> Counted(shape, i + 1, j));
      all
    }

    /** No node has been lost or come from elsewhere, and all new ones are for at most `most` bits. */
    ghost predicate Prepared(total: nat, dom: set<Prefix>, most: nat)
      reads this
    {
      var all := |shape.at| + Room() == total && forall q :: q in shape.at && q !in dom ==> |q| <= most;
      all
    }

    /** A valid tree that stores nothing, and no memory left. */
    ghost predicate Bare()
      reads this, cells.Keys
    {
      var valid := Valid();
      valid && Map() == map[] && NoMemory()
    }

    /** Nodes without value for all prefixes of up to `preallocate` bits, -1 standing for as many
        as fit a page: the loop of `ngx_radix_tree_create`. */
    method Preallocate(preallocate: int) returns (ok: bool)
      requires Valid() && Map() == map[] && -1 <= preallocate <= 32
      modifies this, cells.Keys
      ensures Valid() && Map() == map[] && NewNodes()
      ensures if ok then Covered(shape, if preallocate == -1 then 6 else preallocate) else NoMemory()
      ensures Prepared(old(|shape.at| + Room()), old(shape).at.Keys, if preallocate == -1 then 6 else preallocate)
    {
      var levels := if preallocate == -1 then 6 else preallocate;
      ghost var total, dom := |shape.at| + Room(), shape.at.Keys;
      var mask, inc, i: nat := 0, 0x8000_0000, 0;
      LowLevels(shape, mask);
      while i < levels
        invariant i <= levels <= 32 && Laid(i, mask, inc, total, dom) && NewNodes()
      {
        ok, mask, inc := NextLevel(i, mask, inc, total, dom);
        i := i + 1;
        if !ok {
          StillPrepared(total, dom, i, levels);
          return;
        }
      }
      ok := true;
    }

    /** What each round of that loop finds. */
    ghost predicate Laid(i: nat, mask: nat, inc: nat, total: nat, dom: set<Prefix>)
      requires i <= 32
      reads this, cells.Keys
    {
      var all := AtLevel(i, mask, inc) && Ready(i, 0) && Prepared(total, dom, i);
      all
    }

    /** One round: mask and step for the prefixes of one bit more, then these prefixes. */
    method NextLevel(i: nat, mask: nat, inc: nat, ghost total: nat, ghost dom: set<Prefix>)
      returns (ok: bool, next: nat, half: nat)
      requires i < 32 && Laid(i, mask, inc, total, dom)
      modifies this, cells.Keys
      ensures NewNodes() && Prepared(total, dom, i + 1)
      ensures if ok then Laid(i + 1, next, half, total, dom) else Bare()
    {
      next := NextMask(i, mask);
      half := inc / 2;
      ok := Level(i, next, inc, total, dom);
      IncStep(i);
    }

    lemma StillPrepared(total: nat, dom: set<Prefix>, most: nat, levels: nat)
      requires Prepared(total, dom, most) && most <= levels
      ensures Prepared(total, dom, levels)
    {
    }

    method NextMask(ghost i: nat, mask: nat) returns (next: nat)
      requires i < 32 && mask == LevelMask(i)
      ensures next == LevelMask(i + 1)
    {
      MaskStep(i);
      next := SetBit(mask / 2, 31);
    }

    /** The inner loop: all prefixes of `i + 1` bits. */
    method Level(i: nat, mask: nat, inc: nat, ghost total: nat, ghost dom: set<Prefix>) returns (ok: bool)
      requires i < 32 && mask == LevelMask(i + 1) && inc == Inc(i) && Ready(i, 0)
      modifies this, cells.Keys
      ensures NewNodes()
      requires Prepared(total, dom, i)
      ensures if ok then Ready(i + 1, 0) else Bare()
      ensures Prepared(total, dom, i + 1)
    {
      var key, more := 0, true;
      ghost var j: nat := 0;
      while more
        invariant NewNodes() && Ready(i, j) && Prepared(total, dom, i + 1)
        invariant if more then j < Pow2(i + 1) && key == KeyAt(i, j) else j == Pow2(i + 1)
        decreases Pow2(i + 1) - j, more
      {
        ok := Reserve(i, j, key, mask, total, dom);
        if !ok { return; }
        key := NextOf(i, j, key, inc);
        more := key != 0;
        j := j + 1;
      }
      AllCounted(shape, i + 1);
      ok := true;
    }

    method NextOf(ghost i: nat, ghost j: nat, key: nat, inc: nat) returns (next: nat)
      requires i < 32 && j < Pow2(i + 1) && key == KeyAt(i, j) && inc == Inc(i)
      ensures if j + 1 == Pow2(i + 1) then next == 0 else next == KeyAt(i, j + 1) && next != 0
    {
      KeyWraps(i, j);
      next := (key + inc) % 0x1_0000_0000;
    }

    method Reserve(i: nat, ghost j: nat, key: nat, mask: nat, ghost total: nat, ghost dom: set<Prefix>)
      returns (ok: bool)
      requires i < 32 && Ready(i, j) && j < Pow2(i + 1) && key == KeyAt(i, j) && mask == LevelMask(i + 1)
      modifies this, cells.Keys
      ensures NewNodes()
      requires Prepared(total, dom, i + 1)
      ensures if ok then Ready(i, j + 1) else Bare()
      ensures Prepared(total, dom, i + 1)
    {
      ghost var s0 := shape;
      NextKey(i, j);
      var status := Insert(key, mask, NO_VALUE);
      ok := status == Ok;
      if ok { CountedNext(s0, shape, i, j, PrefixOf(key, mask)); }
    }

    /** The first node of an empty tree: `ngx_radix_tree_create` without preallocation. */
    constructor (pages: nat)
      requires pages > 0
      ensures Valid() && fresh(cells.Keys) && Map() == map[]
      ensures shape.at.Keys == {[]} && Room() == PAGE_SIZE / NODE_SIZE * pages - 1
    {
      var node := new Node();
      node.value := NO_VALUE;
      root := node;
      free := null;
      this.pages := pages - 1;
      size := PAGE_SIZE - NODE_SIZE;
      shape := Shape(map[[] := node], map[[] := NO_VALUE], []);
      cells := map[node := Cell(null, null, null, NO_VALUE)];
    }
  }

  /** A map after a value has been stored, where `NO_VALUE` stands for none. */
  ghost function Put(m: map<Prefix, nat>, p: Prefix, value: nat): map<Prefix, nat> {
    if value == NO_VALUE then m else m[p := value]
  }

  lemma StoredPut(vals: map<Prefix, nat>, p: Prefix, value: nat)
    requires p in vals
    ensures vals[p] == NO_VALUE ==> Stored(vals[p := value]) == Put(Stored(vals), p, value) && p !in Stored(vals)
    ensures vals[p] != NO_VALUE ==> p in Stored(vals)
  {
  }

  /** A leaf without value can be deleted, though nothing is stored for it. */
  ghost predicate Removable(s: Shape, p: Prefix) {
    p in s.at && IsLeaf(s.vals.Keys, p)
  }

  lemma StoredDrop(s: Shape, p: Prefix)
    requires p in s.vals && !IsLeaf(s.vals.Keys, p)
    ensures Stored(s.vals[p := NO_VALUE]) == Stored(s.vals) - {p}
    ensures Tidy(s) ==> Tidy(s.(vals := s.vals[p := NO_VALUE]))
  {
    var s' := s.(vals := s.vals[p := NO_VALUE]);
    assert s'.vals.Keys == s.vals.Keys;
    if Tidy(s) {
      forall x | x in s'.vals ensures TidyAt(s', x) { assert TidyAt(s, x); }
    }
  }

  lemma StoredBut(vals: map<Prefix, nat>, q: Prefix)
    requires q in vals && vals[q] == NO_VALUE
    ensures Stored(vals - {q}) == Stored(vals)
  {
  }

  lemma TidyAgain(s: Shape, q: Prefix)
    requires TidyBut(s, q) && q in s.vals && (q == [] || !IsLeaf(s.vals.Keys, q) || s.vals[q] != NO_VALUE)
    ensures Tidy(s)
  {
    assert TidyAt(s, q);
  }

  lemma FilledTidy(s: Shape, p: Prefix, value: nat)
    requires p in s.vals && value != NO_VALUE
    ensures TidyBut(s, p) ==> Tidy(s.(vals := s.vals[p := value]))
  {
    var s' := s.(vals := s.vals[p := value]);
    assert s'.vals.Keys == s.vals.Keys;
    if TidyBut(s, p) {
      forall x | x in s'.vals ensures TidyAt(s', x) { if x != p { assert TidyAt(s, x); } }
    }
  }

  lemma StoreKeeps(s: Shape, cells: map<Node, Cell>, p: Prefix, value: nat)
    requires WellFormed(s, cells) && p in s.at
    ensures s.at[p] in cells
    ensures WellFormed(s.(vals := s.vals[p := value]), cells[s.at[p] := cells[s.at[p]].(value := value)])
  {
    assert Linked(s, cells, p);
    var s', cells' := s.(vals := s.vals[p := value]), cells[s.at[p] := cells[s.at[p]].(value := value)];
    assert s'.vals.Keys == s.vals.Keys;
    forall x | x in s'.at ensures Linked(s', cells', x) { assert Linked(s, cells, x) && Differ(s.at, x, p); }
    forall i: nat | i < |s.freed| ensures Next(s.freed, cells', i) { assert Next(s.freed, cells, i); }
  }

  lemma FreeRest(s: Shape, cells: map<Node, Cell>)
    requires WellFormed(s, cells) && s.freed != []
    ensures WellFormed(s.(freed := s.freed[1..]), cells)
    ensures s.freed[0] in cells && s.freed[0] !in s.freed[1..] && s.freed[0] !in s.at.Values
    ensures cells[s.freed[0]].right == if s.freed[1..] == [] then null else s.freed[1..][0]
  {
    assert Next(s.freed, cells, 0);
    var l := s.freed[1..];
    forall i: nat | i < |l| ensures Next(l, cells, i) { assert Next(s.freed, cells, i + 1); }
    forall p | p in s.at ensures Linked(s.(freed := l), cells, p) { assert Linked(s, cells, p); }
  }

  lemma NodesKnown(s: Shape, cells: map<Node, Cell>)
    requires WellFormed(s, cells)
    ensures forall n :: n in s.at.Values || n in s.freed ==> n in cells
  {
    forall n | n in s.at.Values ensures n in cells {
      var p :| p in s.at && s.at[p] == n;
      assert Linked(s, cells, p);
    }
    forall n | n in s.freed ensures n in cells {
      var i :| 0 <= i < |s.freed| && s.freed[i] == n;
      assert Next(s.freed, cells, i);
    }
  }
}
