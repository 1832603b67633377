/** Circular doubly linked lists and their stable insertion sort. */
module Queue {

  class Link {
    var prev: Link
    var next: Link

    /** `ngx_queue_init`: a ring without elements. */
    constructor ()
      ensures Ring(this, [])
    {
      prev, next := this, this;
    }
  }

  /** The entry at index `i`; the indices before the first and after the last name the head. */
  ghost function At(h: Link, s: seq<Link>, i: int): Link {
    if 0 <= i < |s| then s[i] else h
  }

  ghost predicate Joined(a: Link, b: Link)
    reads a, b
  {
    a.next == b && b.prev == a
  }

  /** The entry at index `i` and the one before it. */
  ghost predicate Linked(h: Link, s: seq<Link>, i: int)
    reads Members(h, s)
  {
    Joined(At(h, s, i - 1), At(h, s, i))
  }

  ghost predicate Distinct(h: Link, s: seq<Link>) {
    h !in s && forall i, j :: 0 <= i < j < |s| ==> s[i] != s[j]
  }

  ghost function Members(h: Link, s: seq<Link>): set<Link> {
    (set x | x in s) + {h}
  }

  /** `s` are the elements of the ring with head `h`, first to last. */
  ghost predicate Ring(h: Link, s: seq<Link>)
    reads Members(h, s)
  {
    Distinct(h, s) && forall i :: 0 <= i <= |s| ==> Linked(h, s, i)
  }

  // ----- linking and unlinking

  /** `ngx_queue_insert_head` and `ngx_queue_insert_after`: `x` goes behind the entry at index `k`. */
  method InsertAfter(a: Link, x: Link, ghost h: Link, ghost s: seq<Link>, ghost k: int)
    requires Ring(h, s) && -1 <= k < |s| && a == At(h, s, k) && x != h && x !in s
    modifies Members(h, s), x
    ensures Ring(h, s[..k + 1] + [x] + s[k + 1..])
  {
    ghost var t := s[..k + 1] + [x] + s[k + 1..];
    assert Linked(h, s, k + 1);
    x.next := a.next;
    x.next.prev := x;
    x.prev := a;
    a.next := x;
    forall i | 0 <= i <= |t| ensures Linked(h, t, i) {
      if i <= k {
        assert old(Linked(h, s, i));
        assert At(h, t, i - 1) == At(h, s, i - 1) && At(h, t, i) == At(h, s, i);
      } else if i > k + 2 {
        assert old(Linked(h, s, i - 1));
        assert At(h, t, i - 1) == At(h, s, i - 2) && At(h, t, i) == At(h, s, i - 1);
      }
    }
  }

  /** `ngx_queue_remove`: the entry at index `k` leaves the ring. */
  method Remove(x: Link, ghost h: Link, ghost s: seq<Link>, ghost k: nat)
    requires Ring(h, s) && k < |s| && x == s[k]
    modifies Members(h, s)
    ensures Ring(h, s[..k] + s[k + 1..])
  {
    ghost var t := s[..k] + s[k + 1..];
    assert Linked(h, s, k) && Linked(h, s, k + 1);
    x.next.prev := x.prev;
    x.prev.next := x.next;
    forall i | 0 <= i <= |t| ensures Linked(h, t, i) {
      if i < k {
        assert old(Linked(h, s, i));
        assert At(h, t, i - 1) == At(h, s, i - 1) && At(h, t, i) == At(h, s, i);
      } else if i > k {
        assert old(Linked(h, s, i + 1));
        assert At(h, t, i - 1) == At(h, s, i) && At(h, t, i) == At(h, s, i + 1);
      }
    }
  }

  /** `ngx_queue_split`: the elements from `q` on move to the ring of `n`. */
  method Split(h: Link, q: Link, n: Link, ghost s: seq<Link>, ghost k: nat)
    requires Ring(h, s) && k < |s| && q == s[k] && n != h && n !in s
    modifies Members(h, s), n
    ensures Ring(h, s[..k]) && Ring(n, s[k..])
  {
    assert Linked(h, s, k) && Linked(h, s, |s|);
    n.prev := h.prev;
    n.prev.next := n;
    n.next := q;
    h.prev := q.prev;
    h.prev.next := h;
    q.prev := n;
    ghost var a, b := s[..k], s[k..];
    forall i | 0 <= i <= |a| ensures Linked(h, a, i) {
      if i < k {
        assert old(Linked(h, s, i));
        assert At(h, a, i - 1) == At(h, s, i - 1) && At(h, a, i) == At(h, s, i);
      }
    }
    forall i | 0 <= i <= |b| ensures Linked(n, b, i) {
      if 0 < i < |b| {
        assert old(Linked(h, s, k + i));
        assert At(n, b, i - 1) == At(h, s, k + i - 1) && At(n, b, i) == At(h, s, k + i);
      }
    }
  }

  /** `ngx_queue_add`: the elements of the ring of `n` go behind those of `h`. */
  method Add(h: Link, n: Link, ghost s: seq<Link>, ghost t: seq<Link>)
    requires Ring(h, s) && Ring(n, t) && Distinct(h, s + t) && n != h && n !in s
    modifies Members(h, s), Members(n, t)
    ensures Ring(h, s + t)
  {
    ghost var u := s + t;
    assert Linked(h, s, |s|);
    assert Linked(n, t, 0) && Linked(n, t, |t|);
    h.prev.next := n.next;
    n.next.prev := h.prev;
    h.prev := n.prev;
    h.prev.next := h;
    forall i | 0 <= i <= |u| ensures Linked(h, u, i) {
      if i < |s| {
        assert old(Linked(h, s, i));
        assert At(h, u, i - 1) == At(h, s, i - 1) && At(h, u, i) == At(h, s, i);
      } else if |s| < i < |u| {
        assert old(Linked(n, t, i - |s|));
        assert At(h, u, i - 1) == At(n, t, i - |s| - 1) && At(h, u, i) == At(n, t, i - |s|);
      }
    }
  }

  // ----- the middle

  /** `ngx_queue_middle`: the element at index n / 2 of n elements, the head if there is none. */
  method Middle(h: Link, ghost s: seq<Link>) returns (middle: Link)
    requires Ring(h, s)
    ensures middle == At(h, s, |s| / 2)
  {
    assert Linked(h, s, 0) && Linked(h, s, |s|);
    middle := h.next;
    if middle == h.prev { return; }
    var next := h.next;
    ghost var i := 0;
    while true
      invariant 0 <= i && 2 * i < |s| - 1 && middle == s[i] && next == s[2 * i]
      decreases |s| - i
    {
      assert Linked(h, s, i + 1) && Linked(h, s, 2 * i + 1);
      middle := middle.next;
      next := next.next;
      if next == h.prev { return; }
      assert Linked(h, s, 2 * i + 2);
      next := next.next;
      if next == h.prev { return; }
      i := i + 1;
    }
  }

  // ----- the stable insertion sort

  /** Where `q` goes among the sorted `p`: behind the last element that is not greater. */
  ghost function Place<T>(p: seq<T>, q: T, cmp: (T, T) -> int): (k: nat)
    ensures k <= |p|
  {
    if p == [] then 0 else if cmp(p[|p| - 1], q) <= 0 then |p| else Place(p[..|p| - 1], q, cmp)
  }

  ghost function Inserted<T>(p: seq<T>, q: T, cmp: (T, T) -> int): seq<T> {
    var k := Place(p, q, cmp);
    p[..k] + [q] + p[k..]
  }

  /** The elements of `r` are put among those of `p`, one by one. */
  ghost function Onto<T>(p: seq<T>, r: seq<T>, cmp: (T, T) -> int): (t: seq<T>)
    ensures |t| == |p| + |r|
    decreases |r|
  {
    if r == [] then p else Onto(Inserted(p, r[0], cmp), r[1..], cmp)
  }

  ghost function Sorting<T>(s: seq<T>, cmp: (T, T) -> int): seq<T> {
    Onto([], s, cmp)
  }

  /** Puts `q` among the sorted elements `p`, searching from the last one down. */
  method Settle(last: Link, q: Link, h: Link, cmp: (Link, Link) -> int, ghost p: seq<Link>, ghost r: seq<Link>)
    requires Ring(h, p + r) && p != [] && last == p[|p| - 1] && q != h && q !in p + r
    modifies Members(h, p + r), q
    ensures Ring(h, Inserted(p, q, cmp) + r)
  {
    var prev := last;
    ghost var u, j := p + r, |p| - 1;
    assert p[..j + 1] == p;
    while true
      invariant 0 <= j < |p| && prev == p[j] && Ring(h, u)
      invariant Place(p[..j + 1], q, cmp) == Place(p, q, cmp)
      decreases j
    {
      assert p[..j + 1][..j] == p[..j];
      if cmp(prev, q) <= 0 { break; }
      assert Linked(h, u, j);
      prev := prev.prev;
      j := j - 1;
      if prev == h { break; }
    }
    InsertAfter(prev, q, h, u, j);
    PlacedAt(p, r, q, j, cmp);
  }

  lemma CutInFirst<T>(p: seq<T>, r: seq<T>, k: nat)
    requires k <= |p|
    ensures (p + r)[..k] == p[..k] && (p + r)[k..] == p[k..] + r
  {
  }

  lemma Regrouped<T>(a: seq<T>, b: seq<T>, c: seq<T>, d: seq<T>)
    ensures a + b + (c + d) == (a + b + c) + d
  {
  }

  lemma PlacedAt<T>(p: seq<T>, r: seq<T>, q: T, j: int, cmp: (T, T) -> int)
    requires -1 <= j < |p| && Place(p, q, cmp) == j + 1
    ensures (p + r)[..j + 1] + [q] + (p + r)[j + 1..] == Inserted(p, q, cmp) + r
  {
    CutInFirst(p, r, j + 1);
    Regrouped(p[..j + 1], [q], p[j + 1..], r);
  }

  /** One step of the sort: the first element behind the sorted `p` joins them. */
  method Step(q: Link, h: Link, cmp: (Link, Link) -> int, ghost p: seq<Link>, ghost r: seq<Link>) returns (next: Link)
    requires p != [] && r != [] && q == r[0] && Ring(h, p + r)
    modifies Members(h, p + r)
    ensures Ring(h, Inserted(p, q, cmp) + r[1..]) && next == At(h, p + r, |p| + 1)
  {
    ghost var t, k := p + r, |p|;
    assert Linked(h, t, k) && Linked(h, t, k + 1);
    var prev := q.prev;
    next := q.next;
    Remove(q, h, t, k);
    assert t[..k] + t[k + 1..] == p + r[1..];
    Settle(prev, q, h, cmp, p, r[1..]);
  }

  /** `ngx_queue_sort`. */
  method Sort(h: Link, cmp: (Link, Link) -> int, ghost s: seq<Link>)
    requires Ring(h, s)
    modifies Members(h, s)
    ensures Ring(h, Sorting(s, cmp))
  {
    assert Linked(h, s, 0) && Linked(h, s, |s|);
    var q := h.next;
    if q == h.prev {
      SortOne(s, cmp);
      return;
    }
    assert |s| > 1 && Linked(h, s, 1);
    q := q.next;
    ghost var p, r := s[..1], s[1..];
    SortFirst(s, cmp);
    assert s == p + r;
    while q != h
      invariant p != [] && Onto(p, r, cmp) == Sorting(s, cmp)
      invariant q == if r == [] then h else r[0]
      invariant Ring(h, p + r) && Members(h, p + r) == Members(h, s)
      decreases |r|
    {
      NextOf(h, p, r);
      SameMembers(h, p, r, cmp);
      ghost var p' := Inserted(p, q, cmp);
      q := Step(q, h, cmp, p, r);
      p, r := p', r[1..];
    }
    NoMore(h, p, r);
    assert p + r == p;
  }

  lemma NextOf(h: Link, p: seq<Link>, r: seq<Link>)
    requires r != []
    ensures At(h, p + r, |p| + 1) == if r[1..] == [] then h else r[1..][0]
  {
  }

  lemma NoMore(h: Link, p: seq<Link>, r: seq<Link>)
    requires h !in p + r
    ensures r != [] ==> r[0] != h
  {
    assert r != [] ==> r[0] in p + r;
  }

  lemma SameMembers(h: Link, p: seq<Link>, r: seq<Link>, cmp: (Link, Link) -> int)
    requires r != []
    ensures Members(h, Inserted(p, r[0], cmp) + r[1..]) == Members(h, p + r)
  {
    var k := Place(p, r[0], cmp);
    assert p == p[..k] + p[k..];
    Regroup(p, r);
  }

  lemma SortOne<T>(s: seq<T>, cmp: (T, T) -> int)
    requires |s| <= 1
    ensures Sorting(s, cmp) == s
  {
    if s != [] {
      SortFirst(s, cmp);
      assert s[..1] == s;
    }
  }

  lemma SortFirst<T>(s: seq<T>, cmp: (T, T) -> int)
    requires |s| >= 1
    ensures Onto(s[..1], s[1..], cmp) == Sorting(s, cmp)
  {
    var e: seq<T> := [];
    assert Place(e, s[0], cmp) == 0;
    assert Inserted(e, s[0], cmp) == s[..1];
    assert Onto(e, s, cmp) == Onto(Inserted(e, s[0], cmp), s[1..], cmp);
    assert Sorting(s, cmp) == Onto(e, s, cmp);
  }

  // ----- what the sort promises

  /** `cmp` orders the elements totally, up to ties. */
  ghost predicate Ordering<T>(cmp: (T, T) -> int, all: set<T>) {
    && (forall a, b :: a in all && b in all ==> cmp(a, b) <= 0 || cmp(b, a) <= 0)
    && (forall a, b, c :: a in all && b in all && c in all && cmp(a, b) <= 0 && cmp(b, c) <= 0 ==> cmp(a, c) <= 0)
  }

  ghost predicate From<T>(s: seq<T>, all: set<T>) {
    forall i :: 0 <= i < |s| ==> s[i] in all
  }

  ghost predicate Sorted<T>(s: seq<T>, cmp: (T, T) -> int) {
    forall i, j :: 0 <= i < j < |s| ==> cmp(s[i], s[j]) <= 0
  }

  /** The elements of `s` that tie with `x`, in their order. */
  ghost function Ties<T>(s: seq<T>, x: T, cmp: (T, T) -> int): seq<T> {
    if s == [] then []
    else Ties(s[..|s| - 1], x, cmp) + if Tie(s[|s| - 1], x, cmp) then [s[|s| - 1]] else []
  }

  ghost predicate Tie<T>(a: T, b: T, cmp: (T, T) -> int) {
    cmp(a, b) <= 0 && cmp(b, a) <= 0
  }

  lemma {:induction false} TiesConcat<T>(s: seq<T>, t: seq<T>, x: T, cmp: (T, T) -> int)
    ensures Ties(s + t, x, cmp) == Ties(s, x, cmp) + Ties(t, x, cmp)
  {
    if t == [] {
      assert s + t == s;
    } else {
      var t' := t[..|t| - 1];
      assert (s + t)[..|s + t| - 1] == s + t';
      TiesConcat(s, t', x, cmp);
    }
  }

  /** Everything before the place of `q` is not greater, everything behind it is greater. */
  lemma {:induction false} PlaceParts<T>(p: seq<T>, q: T, cmp: (T, T) -> int, all: set<T>)
    requires Ordering(cmp, all) && From(p, all) && q in all && Sorted(p, cmp)
    ensures var k := Place(p, q, cmp);
      (forall i :: 0 <= i < k ==> cmp(p[i], q) <= 0) && (forall i :: k <= i < |p| ==> cmp(p[i], q) > 0)
  {
    if p != [] {
      var p' := p[..|p| - 1];
      if cmp(p[|p| - 1], q) > 0 {
        PlaceParts(p', q, cmp, all);
        var k := Place(p, q, cmp);
        forall i | 0 <= i < k ensures cmp(p[i], q) <= 0 { assert p'[i] == p[i]; }
        forall i | k <= i < |p| ensures cmp(p[i], q) > 0 { if i < |p| - 1 { assert p'[i] == p[i]; } }
      } else {
        forall i | 0 <= i < |p| ensures cmp(p[i], q) <= 0 {
          if i < |p| - 1 { assert cmp(p[i], p[|p| - 1]) <= 0; }
        }
      }
    }
  }

  /** Two elements of the list with `q` in its place `k` come from two elements of the old one,
      or one of them is `q`. */
  lemma InsertedPair<T>(p: seq<T>, q: T, cmp: (T, T) -> int, k: nat, t: seq<T>, i: nat, j: nat)
    requires Sorted(p, cmp) && k <= |p| && t == p[..k] + [q] + p[k..] && i < j < |t|
    requires forall i :: 0 <= i < k ==> cmp(p[i], q) <= 0
    requires forall i :: k <= i < |p| ==> cmp(q, p[i]) <= 0
    ensures cmp(t[i], t[j]) <= 0
  {
    var i', j' := if i < k then i else i - 1, if j < k then j else j - 1;
    if i == k {
      assert t[i] == q && t[j] == p[j'];
    } else if j == k {
      assert t[i] == p[i'] && t[j] == q;
    } else {
      assert t[i] == p[i'] && t[j] == p[j'];
    }
  }

  lemma InsertedSorted<T>(p: seq<T>, q: T, cmp: (T, T) -> int, all: set<T>)
    requires Ordering(cmp, all) && From(p, all) && q in all && Sorted(p, cmp)
    ensures Sorted(Inserted(p, q, cmp), cmp) && From(Inserted(p, q, cmp), all)
  {
    var k, t := Place(p, q, cmp), Inserted(p, q, cmp);
    PlaceParts(p, q, cmp, all);
    forall i | k <= i < |p| ensures cmp(q, p[i]) <= 0 { assert p[i] in all; }
    forall i, j | 0 <= i < j < |t| ensures cmp(t[i], t[j]) <= 0 { InsertedPair(p, q, cmp, k, t, i, j); }
  }

  /** `q` goes behind all elements that tie with it. */
  lemma InsertedTies<T>(p: seq<T>, q: T, x: T, cmp: (T, T) -> int, all: set<T>)
    requires Ordering(cmp, all) && From(p, all) && q in all && x in all && Sorted(p, cmp)
    ensures Ties(Inserted(p, q, cmp), x, cmp) == Ties(p + [q], x, cmp)
  {
    var k := Place(p, q, cmp);
    var a, b := p[..k], p[k..];
    assert p == a + b;
    TiesAround(a, b, q, x, cmp);
    if Tie(q, x, cmp) {
      GreaterTies(p, q, x, cmp, all);
    } else {
      NoTies([q], x, cmp);
    }
    Swap(Ties(a, x, cmp), Ties(b, x, cmp), Ties([q], x, cmp));
  }

  lemma Swap<T>(a: seq<T>, b: seq<T>, c: seq<T>)
    requires b == [] || c == []
    ensures a + b + c == a + c + b
  {
  }

  lemma TiesAround<T>(a: seq<T>, b: seq<T>, q: T, x: T, cmp: (T, T) -> int)
    ensures Ties(a + [q] + b, x, cmp) == Ties(a, x, cmp) + Ties([q], x, cmp) + Ties(b, x, cmp)
    ensures Ties(a + b + [q], x, cmp) == Ties(a, x, cmp) + Ties(b, x, cmp) + Ties([q], x, cmp)
  {
    TiesConcat(a + [q], b, x, cmp);
    TiesConcat(a, [q], x, cmp);
    TiesConcat(a + b, [q], x, cmp);
    TiesConcat(a, b, x, cmp);
  }

  lemma GreaterTies<T>(p: seq<T>, q: T, x: T, cmp: (T, T) -> int, all: set<T>)
    requires Ordering(cmp, all) && From(p, all) && q in all && x in all && Sorted(p, cmp) && Tie(q, x, cmp)
    ensures Ties(p[Place(p, q, cmp)..], x, cmp) == []
  {
    var k := Place(p, q, cmp);
    var b := p[k..];
    PlaceParts(p, q, cmp, all);
    forall i | 0 <= i < |b| ensures !Tie(b[i], x, cmp) { assert b[i] == p[k + i] && p[k + i] in all; }
    NoTies(b, x, cmp);
  }

  lemma {:induction false} NoTies<T>(s: seq<T>, x: T, cmp: (T, T) -> int)
    requires forall i :: 0 <= i < |s| ==> !Tie(s[i], x, cmp)
    ensures Ties(s, x, cmp) == []
  {
    if s != [] { NoTies(s[..|s| - 1], x, cmp); }
  }

  lemma TiesFollow<T>(p': seq<T>, p: seq<T>, r: seq<T>, x: T, cmp: (T, T) -> int)
    requires r != [] && Ties(p', x, cmp) == Ties(p + [r[0]], x, cmp)
    ensures Ties(p' + r[1..], x, cmp) == Ties(p + r, x, cmp)
  {
    TiesConcat(p', r[1..], x, cmp);
    TiesConcat(p + [r[0]], r[1..], x, cmp);
    Regroup(p, r);
  }

  lemma Regroup<T>(p: seq<T>, r: seq<T>)
    requires r != []
    ensures p + [r[0]] + r[1..] == p + r
  {
    assert r == [r[0]] + r[1..];
  }

  lemma {:induction false} OntoSorts<T>(p: seq<T>, r: seq<T>, x: T, cmp: (T, T) -> int, all: set<T>)
    requires Ordering(cmp, all) && From(p, all) && From(r, all) && x in all && Sorted(p, cmp)
    ensures Sorted(Onto(p, r, cmp), cmp)
    ensures Ties(Onto(p, r, cmp), x, cmp) == Ties(p + r, x, cmp)
    decreases |r|
  {
    if r == [] {
      assert p + r == p;
    } else {
      var q, p' := r[0], Inserted(p, r[0], cmp);
      InsertedSorted(p, q, cmp, all);
      OntoSorts(p', r[1..], x, cmp, all);
      InsertedTies(p, q, x, cmp, all);
      TiesFollow(p', p, r, x, cmp);
    }
  }

  lemma {:induction false} OntoPermutes<T>(p: seq<T>, r: seq<T>, cmp: (T, T) -> int)
    ensures multiset(Onto(p, r, cmp)) == multiset(p) + multiset(r)
    decreases |r|
  {
    if r != [] {
      var q, k := r[0], Place(p, r[0], cmp);
      assert p == p[..k] + p[k..];
      assert r == [q] + r[1..];
      OntoPermutes(Inserted(p, q, cmp), r[1..], cmp);
    }
  }

  /** The sort is a permutation for every `cmp`; for an ordering of the elements it is sorted, and
      elements that tie keep their order. */
  lemma SortIsStable<T>(s: seq<T>, cmp: (T, T) -> int, all: set<T>)
    requires From(s, all)
    ensures multiset(Sorting(s, cmp)) == multiset(s)
    ensures Ordering(cmp, all) ==> Sorted(Sorting(s, cmp), cmp)
    ensures Ordering(cmp, all) ==> forall x :: x in all ==> Ties(Sorting(s, cmp), x, cmp) == Ties(s, x, cmp)
  {
    var e: seq<T> := [];
    OntoPermutes(e, s, cmp);
    assert e + s == s;
    if Ordering(cmp, all) {
      forall x | x in all ensures Ties(Sorting(s, cmp), x, cmp) == Ties(s, x, cmp) {
        OntoSorts(e, s, x, cmp, all);
      }
      if s == [] {
        assert Sorting(s, cmp) == e;
      } else {
        OntoSorts(e, s, s[0], cmp, all);
      }
    }
  }
}
