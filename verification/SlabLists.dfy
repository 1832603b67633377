/** The circular lists that run through the page descriptors of a slab pool.

    A descriptor is named by its position in the descriptor table; position 0 stands for
    NULL, page `h` has position h + 1, and the list heads follow the pages.  A link word
    `prev` is four times a position plus the two tag bits that the allocator hides there. */
module SlabLists {

  ghost predicate Distinct(l: seq<nat>) {
    forall i, j :: 0 <= i < j < |l| ==> l[i] != l[j]
  }

  /** The links of the entry at index `i` of list `l` with head `s`. */
  ghost predicate Entry(next: seq<nat>, prev: seq<nat>, l: seq<nat>, s: nat, tag: nat, i: nat)
    requires i < |l|
  {
    && l[i] + 1 < s && s < |next| && s < |prev|
    && next[l[i] + 1] == Succ(l, s, i)
    && prev[l[i] + 1] == 4 * Pred(l, s, i) + tag
  }

  ghost function Succ(l: seq<nat>, s: nat, i: nat): nat
    requires i < |l|
  {
    if i + 1 < |l| then l[i + 1] + 1 else s
  }

  ghost function Pred(l: seq<nat>, s: nat, i: nat): nat
    requires i < |l|
  {
    if i > 0 then l[i - 1] + 1 else s
  }

  /** `l` are the pages of the list with head `s`, first to last. */
  ghost predicate Chain(next: seq<nat>, prev: seq<nat>, l: seq<nat>, s: nat, tag: nat) {
    && |next| == |prev| && s < |next| && tag < 4
    && Distinct(l)
    && next[s] == (if l == [] then s else l[0] + 1)
    && forall i: nat {:trigger Entry(next, prev, l, s, tag, i)} :: i < |l| ==> Entry(next, prev, l, s, tag, i)
  }

  function Without(l: seq<nat>, j: nat): seq<nat>
    requires j < |l|
  {
    l[..j] + l[j + 1..]
  }

  /** Nothing but the links of the list matters. */
  lemma ChainFrame(next: seq<nat>, prev: seq<nat>, next': seq<nat>, prev': seq<nat>, l: seq<nat>, s: nat, tag: nat)
    requires Chain(next, prev, l, s, tag) && |next'| == |next| && |prev'| == |prev|
    requires next'[s] == next[s]
    requires forall h :: h in l && h + 1 < |next| ==> next'[h + 1] == next[h + 1] && prev'[h + 1] == prev[h + 1]
    ensures Chain(next', prev', l, s, tag)
  {
    forall i: nat | i < |l| ensures Entry(next', prev', l, s, tag, i) {
      assert Entry(next, prev, l, s, tag, i) && l[i] in l;
    }
  }

  lemma UnlinkEntry(next: seq<nat>, prev: seq<nat>, l: seq<nat>, s: nat, tag: nat, j: nat, i: nat)
    requires Chain(next, prev, l, s, tag) && j < |l| && i < |l| - 1
    requires Entry(next, prev, l, s, tag, j)
    requires Pred(l, s, j) < |next| && Succ(l, s, j) < |prev|
    ensures var r := l[j] + 1;
      Entry(next[Pred(l, s, j) := next[r]], prev[Succ(l, s, j) := prev[r]], Without(l, j), s, tag, i)
  {
    var l' := Without(l, j);
    var k := if i < j then i else i + 1;
    assert l'[i] == l[k] && Entry(next, prev, l, s, tag, k);
    assert l[k] + 1 == Pred(l, s, j) <==> k + 1 == j;
    assert l[k] + 1 == Succ(l, s, j) <==> k == j + 1;
    assert Succ(l', s, i) == if k + 1 == j then Succ(l, s, j) else Succ(l, s, k);
    assert Pred(l', s, i) == if k == j + 1 then Pred(l, s, j) else Pred(l, s, k);
  }

  /** Unlinking the entry at index `j`. */
  lemma ChainUnlink(next: seq<nat>, prev: seq<nat>, l: seq<nat>, s: nat, tag: nat, j: nat)
    requires Chain(next, prev, l, s, tag) && j < |l|
    ensures var r := l[j] + 1;
      && r < |next| && prev[r] / 4 == Pred(l, s, j) < |next| && next[r] < |next|
      && Chain(next[prev[r] / 4 := next[r]], prev[next[r] := prev[r]], Without(l, j), s, tag)
  {
    assert Entry(next, prev, l, s, tag, j);
    if j > 0 { assert Entry(next, prev, l, s, tag, j - 1); }
    if j + 1 < |l| { assert Entry(next, prev, l, s, tag, j + 1); }
    var l' := Without(l, j);
    var next', prev' := next[Pred(l, s, j) := next[l[j] + 1]], prev[Succ(l, s, j) := prev[l[j] + 1]];
    forall i: nat | i < |l'| ensures Entry(next', prev', l', s, tag, i) {
      UnlinkEntry(next, prev, l, s, tag, j, i);
    }
    if j == 0 && |l| > 1 { assert l'[0] == l[1]; }
    if j > 0 { assert l'[0] == l[0]; }
  }

  /** Putting page `h` in front. */
  lemma ChainPush(next: seq<nat>, prev: seq<nat>, l: seq<nat>, s: nat, tag: nat, h: nat)
    requires Chain(next, prev, l, s, tag) && h !in l && h + 1 < s
    ensures next[s] < |prev|
    ensures Chain(next[h + 1 := next[s]][s := h + 1],
                  prev[h + 1 := 4 * s + tag][next[s] := 4 * (h + 1) + tag], [h] + l, s, tag)
  {
    if l != [] { assert Entry(next, prev, l, s, tag, 0); }
    var l' := [h] + l;
    var next', prev' := next[h + 1 := next[s]][s := h + 1], prev[h + 1 := 4 * s + tag][next[s] := 4 * (h + 1) + tag];
    forall i: nat | i < |l'| ensures Entry(next', prev', l', s, tag, i) {
      if i > 0 {
        assert l'[i] == l[i - 1] && l[i - 1] in l && Entry(next, prev, l, s, tag, i - 1);
        if i > 1 { assert l[0] != l[i - 1]; }
      }
    }
  }

  /** The first page of an empty list. */
  lemma ChainFirst(next: seq<nat>, prev: seq<nat>, s: nat, tag: nat, h: nat)
    requires Chain(next, prev, [], s, tag) && h + 1 < s
    ensures Chain(next[h + 1 := s][s := h + 1], prev[h + 1 := 4 * s + tag], [h], s, tag)
  {
  }

  lemma ReplaceEntry(next: seq<nat>, prev: seq<nat>, l: seq<nat>, s: nat, tag: nat, j: nat, h: nat, i: nat)
    requires Chain(next, prev, l, s, tag) && j < |l| && h !in l && h + 1 < s && i < |l| && i != j
    requires Entry(next, prev, l, s, tag, j)
    requires Pred(l, s, j) < |next| && Succ(l, s, j) < |prev|
    ensures var r := l[j] + 1;
      Entry(next[h + 1 := next[r]][Pred(l, s, j) := h + 1],
            prev[h + 1 := prev[r]][Succ(l, s, j) := 4 * (h + 1) + tag], l[j := h], s, tag, i)
  {
    var l' := l[j := h];
    assert l'[i] == l[i] && l[i] in l && Entry(next, prev, l, s, tag, i);
    assert l[i] + 1 == Pred(l, s, j) <==> i + 1 == j;
    assert l[i] + 1 == Succ(l, s, j) <==> i == j + 1;
    assert Succ(l', s, i) == if i + 1 == j then h + 1 else Succ(l, s, i);
    assert Pred(l', s, i) == if i == j + 1 then h + 1 else Pred(l, s, i);
  }

  /** Page `h` takes the place of the entry at index `j`. */
  lemma ChainReplace(next: seq<nat>, prev: seq<nat>, l: seq<nat>, s: nat, tag: nat, j: nat, h: nat)
    requires Chain(next, prev, l, s, tag) && j < |l| && h !in l && h + 1 < s
    ensures var r := l[j] + 1;
      && r < |next| && prev[r] / 4 < |next| && next[r] < |next|
      && Chain(next[h + 1 := next[r]][prev[r] / 4 := h + 1],
               prev[h + 1 := prev[r]][next[r] := 4 * (h + 1) + tag], l[j := h], s, tag)
  {
    assert Entry(next, prev, l, s, tag, j);
    if j > 0 { assert Entry(next, prev, l, s, tag, j - 1); }
    if j + 1 < |l| { assert Entry(next, prev, l, s, tag, j + 1); }
    var r, p := l[j] + 1, Pred(l, s, j);
    assert prev[r] / 4 == p && next[r] == Succ(l, s, j);
    var l', next' := l[j := h], next[h + 1 := next[r]][p := h + 1];
    var prev' := prev[h + 1 := prev[r]][next[r] := 4 * (h + 1) + tag];
    forall i: nat | i < |l'| ensures Entry(next', prev', l', s, tag, i) {
      if i != j { ReplaceEntry(next, prev, l, s, tag, j, h, i); }
    }
  }

  /** Unlinking an entry and overwriting its own links. */
  lemma ChainUnlinkClear(next: seq<nat>, prev: seq<nat>, l: seq<nat>, s: nat, tag: nat, j: nat, a: nat, b: nat)
    requires Chain(next, prev, l, s, tag) && j < |l|
    ensures var r := l[j] + 1;
      && r < |next| && prev[r] / 4 < |next| && next[r] < |next|
      && Chain(next[prev[r] / 4 := next[r]][r := a], prev[next[r] := prev[r]][r := b], Without(l, j), s, tag)
  {
    var r := l[j] + 1;
    ChainUnlink(next, prev, l, s, tag, j);
    assert Entry(next, prev, l, s, tag, j);
    var next', prev' := next[prev[r] / 4 := next[r]], prev[next[r] := prev[r]];
    assert l[j] !in Without(l, j);
    ChainFrame(next', prev', next'[r := a], prev'[r := b], Without(l, j), s, tag);
  }

  /** Page `h` takes the place of an entry, whose own links are overwritten. */
  lemma ChainReplaceClear(next: seq<nat>, prev: seq<nat>, l: seq<nat>, s: nat, tag: nat, j: nat, h: nat, a: nat, b: nat)
    requires Chain(next, prev, l, s, tag) && j < |l| && h !in l && h + 1 < s
    ensures var r := l[j] + 1;
      && r < |next| && prev[r] / 4 < |next| && next[r] < |next|
      && Chain(next[h + 1 := next[r]][prev[r] / 4 := h + 1][r := a],
               prev[h + 1 := prev[r]][next[r] := 4 * (h + 1) + tag][r := b], l[j := h], s, tag)
  {
    var r := l[j] + 1;
    ChainReplace(next, prev, l, s, tag, j, h);
    assert Entry(next, prev, l, s, tag, j);
    var next' := next[h + 1 := next[r]][prev[r] / 4 := h + 1];
    var prev' := prev[h + 1 := prev[r]][next[r] := 4 * (h + 1) + tag];
    assert l[j] !in l[j := h];
    ChainFrame(next', prev', next'[r := a], prev'[r := b], l[j := h], s, tag);
  }
}
