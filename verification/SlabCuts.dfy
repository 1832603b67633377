/** The moves that concern the chunks of one page, seen in the memory. */
module SlabCuts {
  import opened Bits
  import opened SlabLists
  import opened SlabLayout
  import opened SlabMemory
  import opened SlabMoves

  /** The positions of page `h` and of slot list `k`. */
  ghost function SlotSide(n: nat, g: Layout, k: nat, h: nat): set<nat>
    requires k < |g.slots|
  {
    set p: nat | p < TableSize(n) && OnSlotSide(n, g.slots[k], k, h, p)
  }

  ghost predicate OnSlotSide(n: nat, l: seq<nat>, k: nat, h: nat, p: nat) {
    p == SlotHead(n, k) || p == h + 1 || (p > 0 && p - 1 in l)
  }

  lemma SlotSideRuns(n: nat, g: Layout, m: Memory, m': Memory, k: nat, h: nat, r: Run)
    requires Listed(g) && Represents(n, g, m) && k < SLOTS
    requires Within(n, m, m', SlotSide(n, g, k, h), {h})
    requires h < n && Encoded(m', h, r)
    ensures HoldsRuns(n, g.runs[h := r], m')
  {
    var runs := g.runs[h := r];
    forall x | x in runs ensures x < n && Encoded(m', x, runs[x]) {
      if x != h { EncodingStays(n, g, m, m', SlotSide(n, g, k, h), {h}, x); }
    }
  }

  /** No page of another slot list is on the side of list `k`. */
  lemma SlotsApart(n: nat, g: Layout, k: nat, h: nat, i: nat)
    requires Listed(g) && k < SLOTS && i < SLOTS && i != k
    requires h in g.runs && (g.runs[h].Cut? ==> g.runs[h].shift == k + MIN_SHIFT)
    ensures forall x :: x in g.slots[i] ==> x + 1 !in SlotSide(n, g, k, h) || x + 1 == SlotHead(n, k)
  {
    forall x | x in g.slots[i] ensures x !in g.slots[k] && x != h {
      assert Partial(g.runs[x], i + MIN_SHIFT);
    }
  }

  lemma SlotSideSlot(n: nat, g: Layout, m: Memory, m': Memory, k: nat, h: nat, i: nat)
    requires Listed(g) && Represents(n, g, m) && k < SLOTS && i < SLOTS && i != k
    requires h in g.runs && (g.runs[h].Cut? ==> g.runs[h].shift == k + MIN_SHIFT)
    requires Within(n, m, m', SlotSide(n, g, k, h), {h})
    ensures Chain(m'.next, m'.prev, g.slots[i], SlotHead(n, i), Tag(i + MIN_SHIFT))
  {
    SlotsApart(n, g, k, h, i);
    forall x | x in g.slots[i] ensures x < n { assert x in g.runs; }
    forall x | x in g.slots[k] ensures x < n { assert x in g.runs; }
    SlotClear(n, g, k, i, h);
    SlotStays(n, g, m, m', SlotSide(n, g, k, h), {h}, i);
  }

  lemma SlotSideSlots(n: nat, g: Layout, m: Memory, m': Memory, k: nat, h: nat, l: seq<nat>)
    requires Listed(g) && Represents(n, g, m) && k < SLOTS
    requires h in g.runs && (g.runs[h].Cut? ==> g.runs[h].shift == k + MIN_SHIFT)
    requires Within(n, m, m', SlotSide(n, g, k, h), {h})
    requires Chain(m'.next, m'.prev, l, SlotHead(n, k), Tag(k + MIN_SHIFT))
    ensures HoldsSlots(n, g.slots[k := l], m')
  {
    forall i: nat | i < SLOTS
      ensures Chain(m'.next, m'.prev, g.slots[k := l][i], SlotHead(n, i), Tag(i + MIN_SHIFT))
    {
      if i != k { SlotSideSlot(n, g, m, m', k, h, i); }
    }
  }

  lemma SlotClear(n: nat, g: Layout, k: nat, i: nat, h: nat)
    requires k < |g.slots| && i != k && forall x :: x in g.slots[k] ==> x < n
    requires h < n
    ensures SlotHead(n, i) !in SlotSide(n, g, k, h)
  {
  }

  lemma SlotSideFree(n: nat, g: Layout, m: Memory, m': Memory, k: nat, h: nat)
    requires Listed(g) && Represents(n, g, m) && k < SLOTS && h in g.runs && !g.runs[h].Free?
    requires Within(n, m, m', SlotSide(n, g, k, h), {h})
    ensures HoldsFree(n, g.free, m')
  {
    forall x | x in g.free ensures x + 1 !in SlotSide(n, g, k, h) {
      assert x < n && x !in g.slots[k];
    }
    assert FreeHead(n) !in SlotSide(n, g, k, h) by {
      assert h < n;
      forall x | x in g.slots[k] ensures x < n {}
    }
    FreeStays(n, g, m, m', SlotSide(n, g, k, h), {h});
  }

  /** All pages written are the first of their runs. */
  lemma SlotSideBodies(n: nat, g: Layout, m: Memory, m': Memory, k: nat, h: nat, r: Run, l: seq<nat>)
    requires Listed(g) && Represents(n, g, m) && k < SLOTS && h in g.runs && !g.runs[h].Free? && !r.Free?
    requires Within(n, m, m', SlotSide(n, g, k, h), {h})
    ensures HoldsBodies(n, Recut(g, h, r, k, l), m')
  {
    forall x: nat | x < n && x !in g.runs && g.owner[x] in g.runs
      ensures Body(m', x, BodyWord(g.runs[g.owner[x]].Free?))
    {
      assert x + 1 !in SlotSide(n, g, k, h) && x !in {h};
      assert Body(m, x, BodyWord(g.runs[g.owner[x]].Free?));
      assert m'.slab[x + 1] == m.slab[x + 1] && m'.next[x + 1] == m.next[x + 1];
    }
  }

  /** Page `h` becomes the run `r` and slot list `k` the list `l`; all else stays. */
  ghost function Recut(g: Layout, h: nat, r: Run, k: nat, l: seq<nat>): Layout
    requires k < |g.slots|
  {
    g.(runs := g.runs[h := r], slots := g.slots[k := l])
  }

  lemma SlotSideOnly(n: nat, g: Layout, m: Memory, m': Memory, k: nat, h: nat, r: Run, l: seq<nat>)
    requires Listed(g) && Represents(n, g, m) && k < SLOTS
    requires h in g.runs && !g.runs[h].Free? && (g.runs[h].Cut? ==> g.runs[h].shift == k + MIN_SHIFT)
    requires Within(n, m, m', SlotSide(n, g, k, h), {h})
    requires Chain(m'.next, m'.prev, l, SlotHead(n, k), Tag(k + MIN_SHIFT))
    requires h < n && !r.Free? && Encoded(m', h, r)
    ensures Represents(n, Recut(g, h, r, k, l), m')
  {
    SlotSideRuns(n, g, m, m', k, h, r);
    SlotSideSlots(n, g, m, m', k, h, l);
    SlotSideFree(n, g, m, m', k, h);
    SlotSideBodies(n, g, m, m', k, h, r, l);
  }

  // ----- handing out a chunk of a cut page

  /** Unlinking the descriptor at position `r` and overwriting its links. */
  ghost function Unlinked(m: Memory, r: nat, a: nat, b: nat): Memory
    requires r < |m.next| && |m.prev| == |m.next| && m.prev[r] / 4 < |m.next| && m.next[r] < |m.prev|
  {
    m.(next := m.next[m.prev[r] / 4 := m.next[r]][r := a],
       prev := m.prev[m.next[r] := m.prev[r]][r := b])
  }

  ghost function UseWords(n: nat, m: Memory, h: nat, shift: nat, c: nat, full: bool): Memory
    requires Sized(n, m) && h < n && IsShift(shift) && c < Count(shift)
    requires full ==> m.prev[h + 1] / 4 < |m.next| && m.next[h + 1] < |m.prev|
  {
    var a := MarkSet(m, h, shift, c);
    if full then Unlinked(a, h + 1, 0, Tag(shift)) else a
  }

  /** The links of the entry at index `j` of a slot list. */
  lemma SlotEntry(n: nat, g: Layout, m: Memory, k: nat, j: nat, h: nat)
    requires Listed(g) && Represents(n, g, m) && k < SLOTS && j < |g.slots[k]| && g.slots[k][j] == h
    ensures h + 1 < |m.next| && h + 1 < |m.prev|
    ensures m.prev[h + 1] / 4 == Pred(g.slots[k], SlotHead(n, k), j)
    ensures m.next[h + 1] == Succ(g.slots[k], SlotHead(n, k), j)
    ensures forall i :: 0 <= i < |g.slots[k]| ==> g.slots[k][i] < n
  {
    var l := g.slots[k];
    assert Entry(m.next, m.prev, l, SlotHead(n, k), Tag(k + MIN_SHIFT), j);
    forall i | 0 <= i < |l| ensures l[i] < n { assert l[i] in l && l[i] in g.runs; }
  }

  /** The neighbours of an entry of a slot list belong to that list. */
  lemma NeighboursOnSide(n: nat, g: Layout, k: nat, j: nat, h: nat)
    requires k < |g.slots| && k < SLOTS && j < |g.slots[k]| && g.slots[k][j] == h
    requires forall i :: 0 <= i < |g.slots[k]| ==> g.slots[k][i] < n
    ensures Pred(g.slots[k], SlotHead(n, k), j) in SlotSide(n, g, k, h)
    ensures Succ(g.slots[k], SlotHead(n, k), j) in SlotSide(n, g, k, h)
    ensures h + 1 in SlotSide(n, g, k, h) && Succ(g.slots[k], SlotHead(n, k), j) > 0
  {
    var l := g.slots[k];
    assert OnSlotSide(n, l, k, h, SlotHead(n, k)) && OnSlotSide(n, l, k, h, h + 1);
    assert j > 0 ==> OnSlotSide(n, l, k, h, l[j - 1] + 1);
    assert j + 1 < |l| ==> OnSlotSide(n, l, k, h, l[j + 1] + 1);
  }

  lemma SlotLinks(n: nat, g: Layout, m: Memory, k: nat, j: nat, h: nat)
    requires Listed(g) && Represents(n, g, m) && k < SLOTS && j < |g.slots[k]| && g.slots[k][j] == h
    ensures h < n && h in g.runs && Partial(g.runs[h], k + MIN_SHIFT)
    ensures m.prev[h + 1] / 4 < TableSize(n) && 0 < m.next[h + 1] < TableSize(n)
    ensures m.next[h + 1] in SlotSide(n, g, k, h) && m.prev[h + 1] / 4 in SlotSide(n, g, k, h)
    ensures h + 1 in SlotSide(n, g, k, h)
  {
    assert h in g.slots[k];
    SlotEntry(n, g, m, k, j, h);
    NeighboursOnSide(n, g, k, j, h);
  }

  lemma MarkWithin(n: nat, m: Memory, m': Memory, h: nat, shift: nat, c: nat, t: set<nat>)
    requires Sized(n, m) && h < n && IsShift(shift) && c < Count(shift)
    requires m' == MarkSet(m, h, shift, c) || m' == MarkClear(m, h, shift, c)
    ensures Within(n, m, m', t, {h})
  {
    Tables(shift);
  }

  lemma UnlinkWithin(n: nat, m: Memory, a: Memory, r: nat, x: nat, y: nat, t: set<nat>, w: set<nat>)
    requires Within(n, m, a, t, w) && r < TableSize(n) && a.prev[r] / 4 < TableSize(n) && a.next[r] < TableSize(n)
    requires r in t && a.prev[r] / 4 in t && a.next[r] in t
    ensures Within(n, m, Unlinked(a, r, x, y), t, w)
  {
  }

  lemma UseEncoded(n: nat, m: Memory, h: nat, shift: nat, used: set<nat>, c: nat)
    requires Sized(n, m) && h < n && Encoded(m, h, Cut(shift, used)) && c < Count(shift)
    requires Full(shift, used + {c}) ==> m.prev[h + 1] / 4 < |m.next| && m.next[h + 1] < |m.prev|
    ensures Encoded(UseWords(n, m, h, shift, c, Full(shift, used + {c})), h, Cut(shift, used + {c}))
  {
    var full := Full(shift, used + {c});
    var a, m' := MarkSet(m, h, shift, c), UseWords(n, m, h, shift, c, full);
    SetKeepsWords(m, h, shift, c);
    forall d: nat | d < Count(shift) ensures Marked(m', h, shift, d) <==> d in used + {c} {
      MarkedAfterSet(m, h, shift, c, d);
      assert Marked(m', h, shift, d) == Marked(a, h, shift, d);
    }
  }

  lemma SlotChain(n: nat, g: Layout, m: Memory, k: nat)
    requires Represents(n, g, m) && k < SLOTS
    ensures Chain(m.next, m.prev, g.slots[k], SlotHead(n, k), Tag(k + MIN_SHIFT))
  {
  }

  lemma UnlinkChain(m: Memory, a: Memory, l: seq<nat>, s: nat, tag: nat, j: nat, x: nat, y: nat)
    requires Chain(m.next, m.prev, l, s, tag) && j < |l| && a.next == m.next && a.prev == m.prev
    requires l[j] + 1 < |m.next| && m.prev[l[j] + 1] / 4 < |m.next| && m.next[l[j] + 1] < |m.prev|
    ensures var b := Unlinked(a, l[j] + 1, x, y); Chain(b.next, b.prev, Without(l, j), s, tag)
  {
    ChainUnlinkClear(m.next, m.prev, l, s, tag, j, x, y);
  }

  lemma UseWithin(n: nat, m: Memory, h: nat, shift: nat, c: nat, full: bool, t: set<nat>)
    requires Sized(n, m) && h < n && IsShift(shift) && c < Count(shift)
    requires m.prev[h + 1] / 4 < TableSize(n) && m.next[h + 1] < TableSize(n)
    requires h + 1 in t && m.prev[h + 1] / 4 in t && m.next[h + 1] in t
    ensures Within(n, m, UseWords(n, m, h, shift, c, full), t, {h})
  {
    var a := MarkSet(m, h, shift, c);
    MarkWithin(n, m, a, h, shift, c, t);
    if full { UnlinkWithin(n, m, a, h + 1, 0, Tag(shift), t, {h}); }
  }

  lemma UseChain(n: nat, m: Memory, h: nat, shift: nat, c: nat, full: bool, l: seq<nat>)
    requires Sized(n, m) && h < n && IsShift(shift) && c < Count(shift) && l != [] && l[0] == h
    requires m.prev[h + 1] / 4 < TableSize(n) && m.next[h + 1] < TableSize(n)
    requires Chain(m.next, m.prev, l, SlotHead(n, shift - MIN_SHIFT), Tag(shift))
    ensures var m' := UseWords(n, m, h, shift, c, full);
      Chain(m'.next, m'.prev, UseList(l, full), SlotHead(n, shift - MIN_SHIFT), Tag(shift))
  {
    if full {
      UnlinkChain(m, MarkSet(m, h, shift, c), l, SlotHead(n, shift - MIN_SHIFT), Tag(shift), 0, 0, Tag(shift));
    }
  }

  /** The list of the class after a chunk of its first page has been handed out. */
  ghost function UseList(l: seq<nat>, full: bool): seq<nat>
    requires l != []
  {
    if full then Without(l, 0) else l
  }

  lemma UseSide(n: nat, g: Layout, m: Memory, h: nat, shift: nat, c: nat, full: bool)
    requires Listed(g) && Represents(n, g, m) && IsShift(shift) && c < Count(shift)
    requires var l := g.slots[shift - MIN_SHIFT]; l != [] && l[0] == h
    ensures h < n && m.prev[h + 1] / 4 < TableSize(n) && m.next[h + 1] < TableSize(n)
    ensures var k, m' := shift - MIN_SHIFT, UseWords(n, m, h, shift, c, full);
      && Within(n, m, m', SlotSide(n, g, k, h), {h})
      && Chain(m'.next, m'.prev, UseList(g.slots[k], full), SlotHead(n, k), Tag(shift))
  {
    var k := shift - MIN_SHIFT;
    SlotLinks(n, g, m, k, 0, h);
    SlotChain(n, g, m, k);
    UseWithin(n, m, h, shift, c, full, SlotSide(n, g, k, h));
    UseChain(n, m, h, shift, c, full, g.slots[k]);
  }

  lemma UseStep(n: nat, g: Layout, m: Memory, h: nat, shift: nat, used: set<nat>, c: nat, l: seq<nat>, full: bool)
    requires Listed(g) && Represents(n, g, m)
    requires h in g.runs && g.runs[h] == Cut(shift, used) && IsShift(shift) && c < Count(shift)
    requires l == g.slots[shift - MIN_SHIFT] && l != [] && l[0] == h && full == Full(shift, used + {c})
    ensures h < n && m.prev[h + 1] / 4 < TableSize(n) && m.next[h + 1] < TableSize(n)
    ensures Represents(n, Recut(g, h, Cut(shift, used + {c}), shift - MIN_SHIFT, UseList(l, full)),
      UseWords(n, m, h, shift, c, full))
  {
    UseSide(n, g, m, h, shift, c, full);
    var m' := UseWords(n, m, h, shift, c, full);
    UseEncoded(n, m, h, shift, used, c);
    SlotSideOnly(n, g, m, m', shift - MIN_SHIFT, h, Cut(shift, used + {c}), UseList(l, full));
  }

  lemma UseRepresents(n: nat, g: Layout, m: Memory, h: nat, c: nat)
    requires Listed(g) && Represents(n, g, m)
    requires h in g.runs && g.runs[h].Cut? && IsShift(g.runs[h].shift) && c < Count(g.runs[h].shift)
    requires var l := g.slots[g.runs[h].shift - MIN_SHIFT]; l != [] && l[0] == h
    ensures h < n && m.prev[h + 1] / 4 < TableSize(n) && m.next[h + 1] < TableSize(n)
    ensures var shift, used := g.runs[h].shift, g.runs[h].used;
      Represents(n, Use(g, h, c), UseWords(n, m, h, shift, c, Full(shift, used + {c})))
  {
    var shift, used := g.runs[h].shift, g.runs[h].used;
    UseStep(n, g, m, h, shift, used, c, g.slots[shift - MIN_SHIFT], Full(shift, used + {c}));
    UseIsRecut(g, h, c);
  }

  lemma UseIsRecut(g: Layout, h: nat, c: nat)
    requires h in g.runs && g.runs[h].Cut? && IsShift(g.runs[h].shift) && |g.slots| == SLOTS
    requires g.slots[g.runs[h].shift - MIN_SHIFT] != []
    ensures var shift, used := g.runs[h].shift, g.runs[h].used + {c};
      var l := g.slots[shift - MIN_SHIFT];
      Use(g, h, c) == Recut(g, h, Cut(shift, used), shift - MIN_SHIFT, UseList(l, Full(shift, used)))
  {
    var k := g.runs[h].shift - MIN_SHIFT;
    assert g.slots[k := g.slots[k]] == g.slots;
  }

  // ----- taking a chunk back

  ghost function DropWords(n: nat, m: Memory, h: nat, shift: nat, c: nat, full: bool): Memory
    requires Sized(n, m) && h < n && IsShift(shift) && c < Count(shift)
    requires full ==> m.next[SlotHead(n, shift - MIN_SHIFT)] < |m.prev|
  {
    var a := MarkClear(m, h, shift, c);
    if full then
      var r, s := h + 1, SlotHead(n, shift - MIN_SHIFT);
      a.(next := m.next[r := m.next[s]][s := r],
         prev := m.prev[r := 4 * s + Tag(shift)][m.next[s] := 4 * r + Tag(shift)])
    else a
  }

  lemma DropEncoded(n: nat, m: Memory, h: nat, shift: nat, used: set<nat>, c: nat, full: bool)
    requires Sized(n, m) && h < n && Encoded(m, h, Cut(shift, used)) && c < Count(shift)
    requires full ==> m.next[SlotHead(n, shift - MIN_SHIFT)] < |m.prev|
    ensures Encoded(DropWords(n, m, h, shift, c, full), h, Cut(shift, used - {c}))
  {
    var a, m' := MarkClear(m, h, shift, c), DropWords(n, m, h, shift, c, full);
    ClearKeepsWords(m, h, shift, c);
    forall d: nat | d < Count(shift) ensures Marked(m', h, shift, d) <==> d in used - {c} {
      MarkedAfterClear(m, h, shift, c, d);
      assert Marked(m', h, shift, d) == Marked(a, h, shift, d);
    }
  }

  /** The first page of a slot list, or the head of an empty one. */
  lemma SlotFirst(n: nat, g: Layout, m: Memory, k: nat, h: nat)
    requires Listed(g) && Represents(n, g, m) && k < SLOTS
    ensures var p := m.next[SlotHead(n, k)];
      && p < TableSize(n) && p in SlotSide(n, g, k, h)
      && p == (if g.slots[k] == [] then SlotHead(n, k) else g.slots[k][0] + 1)
  {
    var l := g.slots[k];
    assert Chain(m.next, m.prev, l, SlotHead(n, k), Tag(k + MIN_SHIFT));
    if l != [] {
      assert l[0] in l;
      assert OnSlotSide(n, l, k, h, l[0] + 1);
    } else {
      assert OnSlotSide(n, l, k, h, SlotHead(n, k));
    }
  }

  lemma PushWithin(n: nat, m: Memory, a: Memory, r: nat, s: nat, x: nat, y: nat, t: set<nat>, w: set<nat>)
    requires Within(n, m, a, t, w) && a.next == m.next && a.prev == m.prev
    requires r < TableSize(n) && s < TableSize(n) && m.next[s] < TableSize(n)
    requires r in t && s in t && m.next[s] in t
    ensures Within(n, m, a.(next := m.next[r := m.next[s]][s := r], prev := m.prev[r := x][m.next[s] := y]), t, w)
  {
  }

  lemma DropWithin(n: nat, m: Memory, h: nat, shift: nat, c: nat, full: bool, t: set<nat>)
    requires Sized(n, m) && h < n && IsShift(shift) && c < Count(shift)
    requires var s := SlotHead(n, shift - MIN_SHIFT); m.next[s] < TableSize(n) && h + 1 in t && s in t && m.next[s] in t
    ensures Within(n, m, DropWords(n, m, h, shift, c, full), t, {h})
  {
    var a, s := MarkClear(m, h, shift, c), SlotHead(n, shift - MIN_SHIFT);
    MarkWithin(n, m, a, h, shift, c, t);
    if full { PushWithin(n, m, a, h + 1, s, 4 * s + Tag(shift), 4 * (h + 1) + Tag(shift), t, {h}); }
  }

  lemma DropChain(n: nat, m: Memory, h: nat, shift: nat, c: nat, l: seq<nat>)
    requires Sized(n, m) && h < n && IsShift(shift) && c < Count(shift) && h !in l
    requires m.next[SlotHead(n, shift - MIN_SHIFT)] < TableSize(n)
    requires Chain(m.next, m.prev, l, SlotHead(n, shift - MIN_SHIFT), Tag(shift))
    ensures var m' := DropWords(n, m, h, shift, c, true);
      Chain(m'.next, m'.prev, [h] + l, SlotHead(n, shift - MIN_SHIFT), Tag(shift))
  {
    ChainPush(m.next, m.prev, l, SlotHead(n, shift - MIN_SHIFT), Tag(shift), h);
  }

  lemma FullIsUnlisted(g: Layout, h: nat, k: nat)
    requires Listed(g) && k < SLOTS && h in g.runs && g.runs[h].Cut? && IsShift(g.runs[h].shift)
    requires Full(g.runs[h].shift, g.runs[h].used)
    ensures h !in g.slots[k]
  {
  }

  /** The list of the class after the chunk has come back. */
  lemma DropList(n: nat, g: Layout, m: Memory, h: nat, shift: nat, c: nat, full: bool)
    requires Listed(g) && Represents(n, g, m) && h < n
    requires h in g.runs && g.runs[h].Cut? && g.runs[h].shift == shift && IsShift(shift) && c < Count(shift)
    requires full == Full(shift, g.runs[h].used) && m.next[SlotHead(n, shift - MIN_SHIFT)] < TableSize(n)
    ensures var l, m' := g.slots[shift - MIN_SHIFT], DropWords(n, m, h, shift, c, full);
      Chain(m'.next, m'.prev, if full then [h] + l else l, SlotHead(n, shift - MIN_SHIFT), Tag(shift))
  {
    var k := shift - MIN_SHIFT;
    SlotChain(n, g, m, k);
    if full {
      FullIsUnlisted(g, h, k);
      DropChain(n, m, h, shift, c, g.slots[k]);
    }
  }

  lemma DropStep(n: nat, g: Layout, m: Memory, h: nat, shift: nat, used: set<nat>, c: nat, l: seq<nat>, full: bool)
    requires Listed(g) && Represents(n, g, m)
    requires h in g.runs && g.runs[h] == Cut(shift, used) && IsShift(shift) && c < Count(shift)
    requires l == g.slots[shift - MIN_SHIFT] && full == Full(shift, used)
    ensures h < n && m.next[SlotHead(n, shift - MIN_SHIFT)] < TableSize(n)
    ensures Represents(n, Drop(g, h, c), DropWords(n, m, h, shift, c, full))
  {
    var k := shift - MIN_SHIFT;
    SlotFirst(n, g, m, k, h);
    assert OnSlotSide(n, l, k, h, h + 1) && OnSlotSide(n, l, k, h, SlotHead(n, k));
    DropEncoded(n, m, h, shift, used, c, full);
    DropWithin(n, m, h, shift, c, full, SlotSide(n, g, k, h));
    DropList(n, g, m, h, shift, c, full);
    var l' := if full then [h] + l else l;
    SlotSideOnly(n, g, m, DropWords(n, m, h, shift, c, full), k, h, Cut(shift, used - {c}), l');
    DropIsRecut(g, h, c);
  }

  lemma DropRepresents(n: nat, g: Layout, m: Memory, h: nat, c: nat)
    requires Listed(g) && Represents(n, g, m)
    requires h in g.runs && g.runs[h].Cut? && IsShift(g.runs[h].shift) && c < Count(g.runs[h].shift)
    ensures h < n && m.next[SlotHead(n, g.runs[h].shift - MIN_SHIFT)] < TableSize(n)
    ensures Represents(n, Drop(g, h, c), DropWords(n, m, h, g.runs[h].shift, c, Full(g.runs[h].shift, g.runs[h].used)))
  {
    var shift, used := g.runs[h].shift, g.runs[h].used;
    DropStep(n, g, m, h, shift, used, c, g.slots[shift - MIN_SHIFT], Full(shift, used));
  }

  lemma DropIsRecut(g: Layout, h: nat, c: nat)
    requires h in g.runs && g.runs[h].Cut? && IsShift(g.runs[h].shift) && |g.slots| == SLOTS
    ensures var shift, used := g.runs[h].shift, g.runs[h].used;
      var l := g.slots[shift - MIN_SHIFT];
      Drop(g, h, c) == Recut(g, h, Cut(shift, used - {c}), shift - MIN_SHIFT, if Full(shift, used) then [h] + l else l)
  {
    var k := g.runs[h].shift - MIN_SHIFT;
    assert g.slots[k := g.slots[k]] == g.slots;
  }

  // ----- a page leaves its list altogether

  ghost function DetachWords(n: nat, m: Memory, h: nat): Memory
    requires Sized(n, m) && h < n && m.prev[h + 1] / 4 < TableSize(n) && m.next[h + 1] < TableSize(n)
  {
    Unlinked(m.(slab := m.slab[h + 1 := PAGE_START + 1]), h + 1, 0, TAG_PAGE)
  }

  lemma DetachSide(n: nat, m: Memory, h: nat, k: nat, l: seq<nat>, j: nat, t: set<nat>)
    requires Sized(n, m) && k < SLOTS && j < |l| && l[j] == h && h < n
    requires m.prev[h + 1] / 4 < TableSize(n) && m.next[h + 1] < TableSize(n)
    requires h + 1 in t && m.prev[h + 1] / 4 in t && m.next[h + 1] in t
    requires Chain(m.next, m.prev, l, SlotHead(n, k), Tag(k + MIN_SHIFT))
    ensures Within(n, m, DetachWords(n, m, h), t, {h})
    ensures var m' := DetachWords(n, m, h); Chain(m'.next, m'.prev, Without(l, j), SlotHead(n, k), Tag(k + MIN_SHIFT))
  {
    var a := m.(slab := m.slab[h + 1 := PAGE_START + 1]);
    UnlinkWithin(n, m, a, h + 1, 0, TAG_PAGE, t, {h});
    UnlinkChain(m, a, l, SlotHead(n, k), Tag(k + MIN_SHIFT), j, 0, TAG_PAGE);
  }

  lemma DetachRepresents(n: nat, g: Layout, m: Memory, h: nat, j: nat)
    requires Tiled(n, g) && Listed(g) && Represents(n, g, m)
    requires h in g.runs && g.runs[h].Cut? && IsShift(g.runs[h].shift)
    requires var l := g.slots[g.runs[h].shift - MIN_SHIFT]; j < |l| && l[j] == h
    ensures h < n && 0 < m.next[h + 1] < TableSize(n) && m.prev[h + 1] / 4 < TableSize(n)
    ensures Represents(n, Detach(g, h, j), DetachWords(n, m, h))
  {
    var k := g.runs[h].shift - MIN_SHIFT;
    SlotLinks(n, g, m, k, j, h);
    SlotChain(n, g, m, k);
    DetachSide(n, m, h, k, g.slots[k], j, SlotSide(n, g, k, h));
    SlotSideOnly(n, g, m, DetachWords(n, m, h), k, h, Whole(1), Without(g.slots[k], j));
  }
}
