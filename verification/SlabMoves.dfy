/** Each move of the allocator, seen in the memory: the words it writes hold the new layout. */
module SlabMoves {
  import opened Bits
  import opened SlabLists
  import opened SlabLayout
  import opened SlabMemory

  /** Links change only at the positions `t`, descriptor and bitmap words only at the pages `w`. */
  ghost predicate Within(n: nat, m: Memory, m': Memory, t: set<nat>, w: set<nat>) {
    && Sized(n, m) && Sized(n, m')
    && (forall p: nat {:trigger m'.next[p]} {:trigger m'.prev[p]} :: p < TableSize(n) && p !in t ==>
          m'.next[p] == m.next[p] && m'.prev[p] == m.prev[p])
    && (forall x: nat {:trigger m'.slab[x + 1]} :: x < n && x !in w ==> m'.slab[x + 1] == m.slab[x + 1])
    && (forall x: nat, i: nat {:trigger x in w, m'.bits[i]} :: x < n && x !in w && 8 * x <= i < 8 * x + 8 ==>
          m'.bits[i] == m.bits[i])
  }

  lemma EncodingStays(n: nat, g: Layout, m: Memory, m': Memory, t: set<nat>, w: set<nat>, x: nat)
    requires Represents(n, g, m) && Within(n, m, m', t, w)
    requires x in g.runs && x !in w && (Detached(g.runs[x]) ==> x + 1 !in t)
    ensures x < n && Encoded(m', x, g.runs[x])
  {
    var r := g.runs[x];
    assert Encoded(m, x, r);
    if r.Cut? { Tables(r.shift); }
    forall i: nat | 8 * x <= i < 8 * x + 8 ensures m'.bits[i] == m.bits[i] {}
    KeptEncoding(m, m', x, r);
  }

  lemma SlotStays(n: nat, g: Layout, m: Memory, m': Memory, t: set<nat>, w: set<nat>, k: nat)
    requires Represents(n, g, m) && Within(n, m, m', t, w) && k < SLOTS
    requires SlotHead(n, k) !in t && forall x :: x in g.slots[k] ==> x + 1 !in t
    ensures Chain(m'.next, m'.prev, g.slots[k], SlotHead(n, k), Tag(k + MIN_SHIFT))
  {
    ChainFrame(m.next, m.prev, m'.next, m'.prev, g.slots[k], SlotHead(n, k), Tag(k + MIN_SHIFT));
  }

  lemma FreeStays(n: nat, g: Layout, m: Memory, m': Memory, t: set<nat>, w: set<nat>)
    requires Represents(n, g, m) && Within(n, m, m', t, w)
    requires FreeHead(n) !in t && forall x :: x in g.free ==> x + 1 !in t
    ensures Chain(m'.next, m'.prev, g.free, FreeHead(n), TAG_PAGE)
  {
    ChainFrame(m.next, m.prev, m'.next, m'.prev, g.free, FreeHead(n), TAG_PAGE);
  }

  /** The positions of the free list, of the pages of free runs and of the run `h`. */
  ghost function FreeSide(n: nat, g: Layout, h: nat): set<nat>
    requires |g.owner| == n
  {
    set p: nat | p < TableSize(n) && OnFreeSide(n, g, h, p)
  }

  ghost predicate OnFreeSide(n: nat, g: Layout, h: nat, p: nat)
    requires |g.owner| == n
  {
    || p == FreeHead(n)
    || (0 < p <= n && (g.owner[p - 1] == h || (g.owner[p - 1] in g.runs && g.runs[g.owner[p - 1]].Free?)))
  }

  /** Writing to the free side leaves every other run as it is. */
  lemma FreeSideRuns(n: nat, g: Layout, m: Memory, m': Memory, h: nat)
    requires Tiled(n, g) && Represents(n, g, m)
    requires Within(n, m, m', FreeSide(n, g, h), OwnedBy(n, g, h))
    ensures RunsStay(n, g, m', h)
  {
    forall x | x in g.runs && !g.runs[x].Free? && x != h ensures x < n && Encoded(m', x, g.runs[x]) {
      OwnRun(n, g, x);
      assert x + 1 !in FreeSide(n, g, h);
      EncodingStays(n, g, m, m', FreeSide(n, g, h), OwnedBy(n, g, h), x);
    }
  }

  /** The runs that are not free, other than `h`, are in the memory. */
  ghost predicate RunsStay(n: nat, g: Layout, m: Memory, h: nat)
    requires Sized(n, m)
  {
    forall x {:trigger x in g.runs} :: x in g.runs && !g.runs[x].Free? && x != h ==> x < n && Encoded(m, x, g.runs[x])
  }

  /** ... and every slot list. */
  lemma FreeSideSlots(n: nat, g: Layout, m: Memory, m': Memory, h: nat)
    requires Tiled(n, g) && Listed(g) && Represents(n, g, m) && h in g.runs && !g.runs[h].Cut?
    requires Within(n, m, m', FreeSide(n, g, h), OwnedBy(n, g, h))
    ensures HoldsSlots(n, g.slots, m')
  {
    forall k: nat | k < SLOTS ensures Chain(m'.next, m'.prev, g.slots[k], SlotHead(n, k), Tag(k + MIN_SHIFT)) {
      forall x | x in g.slots[k] ensures x + 1 !in FreeSide(n, g, h) { OwnRun(n, g, x); }
      SlotStays(n, g, m, m', FreeSide(n, g, h), OwnedBy(n, g, h), k);
    }
  }

  lemma OwnRun(n: nat, g: Layout, h: nat)
    requires Tiled(n, g) && h in g.runs
    ensures h < n && g.owner[h] == h && h + Len(g.runs[h]) <= n
    ensures forall x: nat :: h <= x < h + Len(g.runs[h]) <==> x in OwnedBy(n, g, h)
    ensures forall p: nat :: h + 1 <= p <= h + Len(g.runs[h]) ==> p in FreeSide(n, g, h)
  {
    assert GoodRun(g.runs[h]);
    forall p: nat | h + 1 <= p <= h + Len(g.runs[h]) ensures p in FreeSide(n, g, h) {
      assert g.owner[p - 1] == h && p <= n && p < TableSize(n);
      assert OnFreeSide(n, g, h, p);
    }
  }

  ghost function OwnedBy(n: nat, g: Layout, h: nat): set<nat>
    requires |g.owner| == n
  {
    set x: nat | x < n && g.owner[x] == h
  }

  // ----- taking pages

  /** The words written before the pages behind the first are marked. */
  ghost function TakeWords(n: nat, m: Memory, h: nat, k: nat): Memory
    requires Sized(n, m) && h + k < n + 1 && 0 < k
    requires m.prev[h + 1] / 4 < TableSize(n) && m.next[h + 1] < TableSize(n) && m.slab[h + 1] >= k
  {
    var r, q := h + 1, h + k + 1;
    if m.slab[r] > k then
      Memory(
        m.slab[q := m.slab[r] - k][r := PAGE_START + k],
        m.next[q := m.next[r]][m.prev[r] / 4 := q][r := 0],
        m.prev[q := m.prev[r]][m.next[r] := 4 * q][r := TAG_PAGE],
        m.bits)
    else
      Memory(
        m.slab[r := PAGE_START + k],
        m.next[m.prev[r] / 4 := m.next[r]][r := 0],
        m.prev[m.next[r] := m.prev[r]][r := TAG_PAGE],
        m.bits)
  }

  lemma FreeEntry(n: nat, g: Layout, m: Memory, j: nat)
    requires Tiled(n, g) && Listed(g) && Represents(n, g, m) && j < |g.free|
    ensures var h := g.free[j];
      && h in g.runs && g.runs[h].Free? && h + g.runs[h].len <= n && m.slab[h + 1] == g.runs[h].len > 0
      && m.next[h + 1] == Succ(g.free, FreeHead(n), j) && m.prev[h + 1] / 4 == Pred(g.free, FreeHead(n), j)
  {
    var h := g.free[j];
    assert h in g.free && GoodRun(g.runs[h]);
    assert Entry(m.next, m.prev, g.free, FreeHead(n), TAG_PAGE, j);
  }

  lemma FreeNeighbours(n: nat, g: Layout, h: nat, j: nat)
    requires Tiled(n, g) && Listed(g) && j < |g.free|
    ensures var p, q := Pred(g.free, FreeHead(n), j), Succ(g.free, FreeHead(n), j);
      && p < TableSize(n) && q < TableSize(n) && p in FreeSide(n, g, h) && q in FreeSide(n, g, h)
      && p != g.free[j] + 1 && q != g.free[j] + 1
  {
    var l := g.free;
    forall x | x in l ensures x < n && g.owner[x] == x && OnFreeSide(n, g, h, x + 1) {
      assert GoodRun(g.runs[x]);
    }
    assert l[j] in l && OnFreeSide(n, g, h, FreeHead(n));
    if j + 1 < |l| { assert l[j + 1] in l && l[j + 1] != l[j]; }
    if j > 0 { assert l[j - 1] in l && l[j - 1] != l[j]; }
  }

  lemma TakeLinks(n: nat, g: Layout, m: Memory, j: nat)
    requires Tiled(n, g) && Listed(g) && Represents(n, g, m) && j < |g.free|
    ensures var h := g.free[j];
      && h in g.runs && g.runs[h].Free? && h + g.runs[h].len <= n && m.slab[h + 1] == g.runs[h].len > 0
      && m.prev[h + 1] / 4 < TableSize(n) && m.next[h + 1] < TableSize(n)
      && m.prev[h + 1] / 4 in FreeSide(n, g, h) && m.next[h + 1] in FreeSide(n, g, h)
      && m.next[h + 1] == Succ(g.free, FreeHead(n), j) && m.prev[h + 1] / 4 == Pred(g.free, FreeHead(n), j)
      && m.next[h + 1] != h + 1 && m.prev[h + 1] / 4 != h + 1
  {
    FreeEntry(n, g, m, j);
    FreeNeighbours(n, g, g.free[j], j);
  }

  // ----- the layout after taking pages

  ghost predicate Takes(n: nat, g: Layout, m: Memory, j: nat, k: nat) {
    && Tiled(n, g) && Listed(g) && Represents(n, g, m) && j < |g.free|
    && g.free[j] in g.runs && g.runs[g.free[j]].Free? && 0 < k <= g.runs[g.free[j]].len
    && g.free[j] + k <= n && m.slab[g.free[j] + 1] >= k
    && m.prev[g.free[j] + 1] / 4 < TableSize(n) && m.next[g.free[j] + 1] < TableSize(n)
  }

  lemma TakeChain(n: nat, m: Memory, l: seq<nat>, j: nat, k: nat)
    requires Sized(n, m) && Chain(m.next, m.prev, l, FreeHead(n), TAG_PAGE) && j < |l|
    requires l[j] < n && 0 < k <= m.slab[l[j] + 1] && l[j] + k <= n
    requires m.prev[l[j] + 1] / 4 < TableSize(n) && m.next[l[j] + 1] < TableSize(n)
    requires k < m.slab[l[j] + 1] ==> l[j] + k !in l && l[j] + k < n
    ensures var w := TakeWords(n, m, l[j], k);
      Chain(w.next, w.prev, if m.slab[l[j] + 1] == k then Without(l, j) else l[j := l[j] + k], FreeHead(n), TAG_PAGE)
  {
    if k < m.slab[l[j] + 1] {
      ChainReplaceClear(m.next, m.prev, l, FreeHead(n), TAG_PAGE, j, l[j] + k, 0, TAG_PAGE);
    } else {
      ChainUnlinkClear(m.next, m.prev, l, FreeHead(n), TAG_PAGE, j, 0, TAG_PAGE);
    }
  }

  /** `m` agrees with `w` but for the positions of the pages behind the first of the run. */
  ghost predicate ButBodies(n: nat, w: Memory, m: Memory, h: nat, k: nat) {
    && Sized(n, w) && Sized(n, m) && m.bits == w.bits
    && forall p: nat {:trigger m.slab[p]} {:trigger m.next[p]} {:trigger m.prev[p]} ::
         p < TableSize(n) && !(h + 2 <= p <= h + k) ==>
           m.slab[p] == w.slab[p] && m.next[p] == w.next[p] && m.prev[p] == w.prev[p]
  }

  /** Taking pages writes only to the run itself and to its neighbours in the free list. */
  lemma TakeWithin(n: nat, m: Memory, h: nat, k: nat, m': Memory, t: set<nat>, w: set<nat>)
    requires Sized(n, m) && h < n && 0 < k <= m.slab[h + 1] && h + m.slab[h + 1] <= n
    requires m.prev[h + 1] / 4 < TableSize(n) && m.next[h + 1] < TableSize(n)
    requires ButBodies(n, TakeWords(n, m, h, k), m', h, k)
    requires m.prev[h + 1] / 4 in t && m.next[h + 1] in t
    requires forall p: nat :: h + 1 <= p <= h + m.slab[h + 1] ==> p in t
    requires forall x: nat :: h <= x < h + m.slab[h + 1] ==> x in w
    ensures Within(n, m, m', t, w)
  {
    var v := TakeWords(n, m, h, k);
    forall p: nat | p < TableSize(n) && p !in t ensures m'.next[p] == m.next[p] && m'.prev[p] == m.prev[p] {
      assert m'.next[p] == v.next[p];
    }
    forall x: nat | x < n && x !in w ensures m'.slab[x + 1] == m.slab[x + 1] {
      assert m'.slab[x + 1] == v.slab[x + 1];
    }
  }

  /** No entry of `l` stands for a page behind the first of the `k` pages from `h` on. */
  ghost predicate ClearOf(l: seq<nat>, h: nat, k: nat) {
    forall x :: x in l ==> !(h + 2 <= x + 1 <= h + k)
  }

  lemma TakeFreeList(n: nat, m: Memory, l: seq<nat>, j: nat, k: nat, m': Memory, l': seq<nat>)
    requires Sized(n, m) && HoldsFree(n, l, m) && j < |l|
    requires l[j] < n && 0 < k <= m.slab[l[j] + 1] && l[j] + k <= n
    requires m.prev[l[j] + 1] / 4 < TableSize(n) && m.next[l[j] + 1] < TableSize(n)
    requires k < m.slab[l[j] + 1] ==> l[j] + k !in l && l[j] + k < n
    requires ButBodies(n, TakeWords(n, m, l[j], k), m', l[j], k)
    requires l' == (if m.slab[l[j] + 1] == k then Without(l, j) else l[j := l[j] + k]) && ClearOf(l', l[j], k)
    ensures HoldsFree(n, l', m')
  {
    var w := TakeWords(n, m, l[j], k);
    TakeChain(n, m, l, j, k);
    ChainFrame(w.next, w.prev, m'.next, m'.prev, l', FreeHead(n), TAG_PAGE);
  }

  lemma TakeRuns(n: nat, g: Layout, m: Memory, j: nat, k: nat, m': Memory)
    requires Takes(n, g, m, j, k) && ButBodies(n, TakeWords(n, m, g.free[j], k), m', g.free[j], k)
    requires m.slab[g.free[j] + 1] == g.runs[g.free[j]].len
    requires RunsStay(n, g, m', g.free[j])
    ensures HoldsRuns(n, Take(g, j, k).runs, m')
  {
    forall x | x in Take(g, j, k).runs ensures x < n && Encoded(m', x, Take(g, j, k).runs[x]) {
      TakeEncoded(n, g, m, j, k, m', x);
    }
  }

  lemma TakeFree(n: nat, g: Layout, m: Memory, j: nat, k: nat, m': Memory)
    requires Tiled(n, g) && Listed(g) && Represents(n, g, m) && j < |g.free|
    requires g.free[j] in g.runs && g.runs[g.free[j]].Free? && 0 < k <= g.runs[g.free[j]].len
    requires g.free[j] + k <= n && m.slab[g.free[j] + 1] == g.runs[g.free[j]].len
    requires m.prev[g.free[j] + 1] / 4 < TableSize(n) && m.next[g.free[j] + 1] < TableSize(n)
    requires ButBodies(n, TakeWords(n, m, g.free[j], k), m', g.free[j], k)
    ensures HoldsFree(n, Take(g, j, k).free, m')
  {
    var h := g.free[j];
    if k < g.runs[h].len { SplitPoint(n, g, h, k); }
    TakeFreeClear(n, g, j, k);
    TakeFreeList(n, m, g.free, j, k, m', Take(g, j, k).free);
  }

  /** The pages behind the first of the `k` pages from `h` on. */
  ghost predicate Bodies(n: nat, m: Memory, h: nat, k: nat, word: nat)
    requires Sized(n, m)
  {
    forall x: nat {:trigger Body(m, x, word)} :: h < x < h + k && x < n ==> Body(m, x, word)
  }

  /** A page behind the first of a run that is free before or after is none of the words written. */
  lemma TakeBodies(n: nat, g: Layout, m: Memory, j: nat, k: nat, m': Memory)
    requires Takes(n, g, m, j, k) && ButBodies(n, TakeWords(n, m, g.free[j], k), m', g.free[j], k)
    requires Bodies(n, m', g.free[j], k, SLAB_BUSY)
    ensures HoldsBodies(n, Take(g, j, k), m')
  {
    var g' := Take(g, j, k);
    forall x: nat | x < n && x !in g'.runs && g'.owner[x] in g'.runs
      ensures Body(m', x, BodyWord(g'.runs[g'.owner[x]].Free?))
    {
      TakenBody(n, g, j, k, x);
      if g.free[j] < x < g.free[j] + k {
        assert Body(m', x, SLAB_BUSY);
      } else {
        OldBody(n, g, m, j, k, m', x);
      }
    }
  }

  lemma OldBody(n: nat, g: Layout, m: Memory, j: nat, k: nat, m': Memory, x: nat)
    requires Takes(n, g, m, j, k) && ButBodies(n, TakeWords(n, m, g.free[j], k), m', g.free[j], k)
    requires x < n && x !in g.runs && g.owner[x] in g.runs && !(g.free[j] <= x < g.free[j] + k)
    requires m.slab[g.free[j] + 1] > k ==> x != g.free[j] + k
    ensures Body(m', x, BodyWord(g.runs[g.owner[x]].Free?))
  {
    TakeLinks(n, g, m, j);
    HeadNeighbours(n, g, j);
    assert Body(m, x, BodyWord(g.runs[g.owner[x]].Free?));
    TakeBody(n, m, g.free[j], k, m', x);
  }

  /** The owner of a page behind the first of its run, before the first pages of that run are taken. */
  lemma TakenBody(n: nat, g: Layout, j: nat, k: nat, x: nat)
    requires Tiled(n, g) && Listed(g) && j < |g.free|
    requires g.free[j] in g.runs && g.runs[g.free[j]].Free? && 0 < k <= g.runs[g.free[j]].len
    requires var g' := Take(g, j, k); x < n && x !in g'.runs && g'.owner[x] in g'.runs
    ensures x !in g.runs && g.owner[x] in g.runs
    ensures var g' := Take(g, j, k);
      var h, y := g.free[j], g'.owner[x];
      if h < x < h + k then y == h && g'.runs[y].Whole? else g'.runs[y].Free? == g.runs[g.owner[x]].Free?
  {
    var h := g.free[j];
    TakenOwner(n, g, j, k, x);
    assert h <= x < h + g.runs[h].len <==> g.owner[x] == h;
  }

  lemma TakeBody(n: nat, m: Memory, h: nat, k: nat, m': Memory, x: nat)
    requires Sized(n, m) && h < n && 0 < k <= m.slab[h + 1] && h + k <= n && x < n && !(h <= x < h + k)
    requires m.slab[h + 1] > k ==> x != h + k
    requires m.prev[h + 1] / 4 < TableSize(n) && m.next[h + 1] < TableSize(n)
    requires x + 1 != m.prev[h + 1] / 4 && x + 1 != m.next[h + 1]
    requires ButBodies(n, TakeWords(n, m, h, k), m', h, k)
    ensures forall word: nat :: Body(m, x, word) ==> Body(m', x, word)
  {
    var w := TakeWords(n, m, h, k);
    assert m'.slab[x + 1] == w.slab[x + 1];
  }

  /** The neighbours in the free list are first pages of their runs or the head of the list. */
  lemma HeadNeighbours(n: nat, g: Layout, j: nat)
    requires Listed(g) && j < |g.free|
    ensures forall x: nat :: x < n && x !in g.runs ==>
      x + 1 != Pred(g.free, FreeHead(n), j) && x + 1 != Succ(g.free, FreeHead(n), j)
  {
    assert forall i :: 0 <= i < |g.free| ==> g.free[i] in g.free;
  }

  lemma TakeRepresents(n: nat, g: Layout, m: Memory, j: nat, k: nat, m': Memory)
    requires Takes(n, g, m, j, k) && ButBodies(n, TakeWords(n, m, g.free[j], k), m', g.free[j], k)
    requires Bodies(n, m', g.free[j], k, SLAB_BUSY)
    ensures Represents(n, Take(g, j, k), m')
  {
    var h := g.free[j];
    TakeLinks(n, g, m, j);
    OwnRun(n, g, h);
    TakeWithin(n, m, h, k, m', FreeSide(n, g, h), OwnedBy(n, g, h));
    FreeSideRuns(n, g, m, m', h);
    FreeSideSlots(n, g, m, m', h);
    TakeRuns(n, g, m, j, k, m');
    TakeFree(n, g, m, j, k, m');
    TakeBodies(n, g, m, j, k, m');
    assert Take(g, j, k).slots == g.slots;
  }

  /** Everything stays in order when pages are taken. */
  lemma TakeSound(n: nat, g: Layout, m: Memory, j: nat, k: nat, m': Memory)
    requires Takes(n, g, m, j, k) && ButBodies(n, TakeWords(n, m, g.free[j], k), m', g.free[j], k)
    requires Bodies(n, m', g.free[j], k, SLAB_BUSY)
    ensures var g' := Take(g, j, k); Tiled(n, g') && Listed(g') && Represents(n, g', m')
  {
    TakeTiled(n, g, j, k);
    TakeListed(n, g, j, k);
    TakeRepresents(n, g, m, j, k, m');
  }

  /** The bodies of the run taken are no free heads. */
  lemma TakeFreeClear(n: nat, g: Layout, j: nat, k: nat)
    requires Tiled(n, g) && Listed(g) && j < |g.free|
    requires g.free[j] in g.runs && g.runs[g.free[j]].Free? && 0 < k <= g.runs[g.free[j]].len
    ensures ClearOf(Take(g, j, k).free, g.free[j], k)
  {
    var h, g' := g.free[j], Take(g, j, k);
    TakeTiled(n, g, j, k);
    TakeListed(n, g, j, k);
    forall x | x in g'.free ensures !(h + 2 <= x + 1 <= h + k) {
      OwnRun(n, g', x);
      OwnRun(n, g', h);
    }
  }

  lemma TakeEncoded(n: nat, g: Layout, m: Memory, j: nat, k: nat, m': Memory, x: nat)
    requires Takes(n, g, m, j, k) && ButBodies(n, TakeWords(n, m, g.free[j], k), m', g.free[j], k)
    requires m.slab[g.free[j] + 1] == g.runs[g.free[j]].len
    requires x in Take(g, j, k).runs
    requires x in g.runs && !g.runs[x].Free? && x != g.free[j] ==> x < n && Encoded(m', x, g.runs[x])
    ensures x < n && Encoded(m', x, Take(g, j, k).runs[x])
  {
    var h := g.free[j];
    var w := TakeWords(n, m, h, k);
    if x == h {
      assert m'.slab[x + 1] == w.slab[x + 1] && m'.next[x + 1] == w.next[x + 1] && m'.prev[x + 1] == w.prev[x + 1];
    } else if x in g.runs {
      ApartFrom(n, g, h, x);
      if g.runs[x].Free? {
        assert Encoded(m, x, g.runs[x]) && m'.slab[x + 1] == w.slab[x + 1];
      }
    } else {
      assert m'.slab[x + 1] == w.slab[x + 1];
    }
  }

  lemma ApartFrom(n: nat, g: Layout, h: nat, x: nat)
    requires Tiled(n, g) && h in g.runs && x in g.runs && x != h
    ensures x !in OwnedBy(n, g, h) && x < n && !(h <= x < h + Len(g.runs[h]))
  {
    OwnRun(n, g, x);
    OwnRun(n, g, h);
  }

  // ----- giving a run back

  /** The words of `ngx_slab_free_pages` for a run that is in no list. */
  ghost function PushWords(n: nat, m: Memory, h: nat, len: nat): Memory
    requires Sized(n, m) && h < n && m.next[FreeHead(n)] < TableSize(n)
  {
    var r, f := h + 1, FreeHead(n);
    Memory(
      m.slab[r := len],
      m.next[r := m.next[f]][f := r],
      m.prev[r := 4 * f + TAG_PAGE][m.next[f] := 4 * r + TAG_PAGE],
      m.bits)
  }

  /** The first free page, or the head of an empty list. */
  lemma FreeFirst(n: nat, g: Layout, m: Memory, h: nat)
    requires Tiled(n, g) && Listed(g) && Represents(n, g, m)
    ensures var p := m.next[FreeHead(n)];
      && p < TableSize(n) && p in FreeSide(n, g, h)
      && (p == FreeHead(n) || (p == g.free[0] + 1 && p - 1 in g.runs && g.runs[p - 1].Free?))
  {
    if g.free != [] {
      var x := g.free[0];
      assert x in g.free;
      OwnRun(n, g, x);
      assert OnFreeSide(n, g, h, x + 1);
    } else {
      assert OnFreeSide(n, g, h, FreeHead(n));
    }
  }

  lemma ReleaseWithin(n: nat, m: Memory, h: nat, k: nat, m': Memory, t: set<nat>, w: set<nat>)
    requires Sized(n, m) && h < n && 0 < k && h + k <= n && m.next[FreeHead(n)] < TableSize(n)
    requires ButBodies(n, PushWords(n, m, h, k), m', h, k)
    requires FreeHead(n) in t && m.next[FreeHead(n)] in t
    requires forall p: nat :: h + 1 <= p <= h + k ==> p in t
    requires forall x: nat :: h <= x < h + k ==> x in w
    ensures Within(n, m, m', t, w)
  {
    var v := PushWords(n, m, h, k);
    forall p: nat | p < TableSize(n) && p !in t ensures m'.next[p] == m.next[p] && m'.prev[p] == m.prev[p] {
      assert m'.next[p] == v.next[p];
    }
    forall x: nat | x < n && x !in w ensures m'.slab[x + 1] == m.slab[x + 1] {
      assert m'.slab[x + 1] == v.slab[x + 1];
    }
  }

  lemma ReleaseFree(n: nat, m: Memory, l: seq<nat>, h: nat, k: nat, m': Memory)
    requires Sized(n, m) && HoldsFree(n, l, m) && h < n && 0 < k && h + k <= n && h !in l
    requires m.next[FreeHead(n)] < TableSize(n)
    requires ButBodies(n, PushWords(n, m, h, k), m', h, k) && ClearOf(l, h, k)
    ensures HoldsFree(n, [h] + l, m')
  {
    var w := PushWords(n, m, h, k);
    ChainPush(m.next, m.prev, l, FreeHead(n), TAG_PAGE, h);
    ChainFrame(w.next, w.prev, m'.next, m'.prev, [h] + l, FreeHead(n), TAG_PAGE);
  }

  lemma ReleaseRuns(n: nat, g: Layout, m: Memory, h: nat, m': Memory)
    requires Tiled(n, g) && Sized(n, m) && HoldsRuns(n, g.runs, m) && h in g.runs && h < n
    requires m.next[FreeHead(n)] < TableSize(n)
    requires ButBodies(n, PushWords(n, m, h, Len(g.runs[h])), m', h, Len(g.runs[h]))
    requires RunsStay(n, g, m', h)
    ensures HoldsRuns(n, Release(g, h).runs, m')
  {
    var w := PushWords(n, m, h, Len(g.runs[h]));
    forall x | x in Release(g, h).runs ensures x < n && Encoded(m', x, Release(g, h).runs[x]) {
      if x == h {
        assert m'.slab[x + 1] == w.slab[x + 1];
      } else if g.runs[x].Free? {
        ApartFrom(n, g, h, x);
        assert Encoded(m, x, g.runs[x]) && m'.slab[x + 1] == w.slab[x + 1];
      }
    }
  }

  lemma ReleaseBodies(n: nat, g: Layout, m: Memory, h: nat, m': Memory)
    requires Tiled(n, g) && Listed(g) && Represents(n, g, m) && h in g.runs && h < n
    requires m.next[FreeHead(n)] < TableSize(n)
    requires ButBodies(n, PushWords(n, m, h, Len(g.runs[h])), m', h, Len(g.runs[h]))
    requires Bodies(n, m', h, Len(g.runs[h]), 0)
    ensures HoldsBodies(n, Release(g, h), m')
  {
    var g', w := Release(g, h), PushWords(n, m, h, Len(g.runs[h]));
    OwnRun(n, g, h);
    FreeFirst(n, g, m, h);
    forall x: nat | x < n && x !in g.runs && g.owner[x] in g.runs
      ensures Body(m', x, BodyWord(g'.runs[g.owner[x]].Free?))
    {
      if g.owner[x] == h {
        assert Body(m', x, 0);
      } else {
        assert Body(m, x, BodyWord(g.runs[g.owner[x]].Free?)) && m'.slab[x + 1] == w.slab[x + 1];
      }
    }
  }

  lemma ReleaseRepresents(n: nat, g: Layout, m: Memory, h: nat, m': Memory)
    requires Tiled(n, g) && Listed(g) && Represents(n, g, m) && h in g.runs && g.runs[h].Whole?
    requires h < n && m.next[FreeHead(n)] < TableSize(n)
    requires ButBodies(n, PushWords(n, m, h, g.runs[h].len), m', h, g.runs[h].len)
    requires Bodies(n, m', h, g.runs[h].len, 0)
    ensures Represents(n, Release(g, h), m')
  {
    var k := g.runs[h].len;
    OwnRun(n, g, h);
    FreeFirst(n, g, m, h);
    assert OnFreeSide(n, g, h, FreeHead(n));
    assert GoodRun(g.runs[h]);
    ReleaseWithin(n, m, h, k, m', FreeSide(n, g, h), OwnedBy(n, g, h));
    FreeSideRuns(n, g, m, m', h);
    FreeSideSlots(n, g, m, m', h);
    ReleaseRuns(n, g, m, h, m');
    assert ClearOf(g.free, h, k) by {
      forall x | x in g.free ensures !(h + 2 <= x + 1 <= h + k) { ApartFrom(n, g, h, x); }
    }
    ReleaseFree(n, m, g.free, h, k, m');
    ReleaseBodies(n, g, m, h, m');
    assert Release(g, h).slots == g.slots && Release(g, h).free == [h] + g.free;
  }
}
