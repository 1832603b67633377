/** Reading and starting the map of a cut page. */
module SlabMaps {
  import opened Bits
  import opened SlabLists
  import opened SlabLayout
  import opened SlabMemory
  import opened SlabMoves
  import opened SlabCuts
  import opened SlabLive

  // ----- reading the map

  /** The words that tell whether a page of chunks is busy: all words of the map, the descriptor
      word, or the upper part of the descriptor word. */
  ghost predicate BusyMap(m: Memory, h: nat, shift: nat)
    requires h + 1 < |m.slab| && 8 * h + 8 <= |m.bits| && IsShift(shift)
  {
    Tables(shift);
    if shift < EXACT_SHIFT then forall i :: 8 * h <= i < 8 * h + Count(shift) / 64 ==> m.bits[i] == SLAB_BUSY
    else if shift == EXACT_SHIFT then m.slab[h + 1] == SLAB_BUSY
    else Shr(m.slab[h + 1], MAP_SHIFT) == Pow2(Count(shift)) - 1
  }

  ghost predicate IdleMap(m: Memory, h: nat, shift: nat)
    requires h + 1 < |m.slab| && 8 * h + 8 <= |m.bits| && IsShift(shift)
  {
    Tables(shift);
    if shift < EXACT_SHIFT then
      Shr(m.bits[8 * h], Reserved(shift)) == 0 && forall i :: 8 * h < i < 8 * h + Count(shift) / 64 ==> m.bits[i] == 0
    else if shift == EXACT_SHIFT then m.slab[h + 1] == 0
    else Shr(m.slab[h + 1], MAP_SHIFT) == 0
  }

  /** Bit `b` of the word `w` stands for chunk `off + b`. */
  ghost predicate Maps(w: nat, k: nat, used: set<nat>, off: nat) {
    w < Pow2(k) && forall b: nat :: b < k ==> (Bit(w, b) <==> off + b in used)
  }

  ghost predicate All(used: set<nat>, lo: nat, hi: nat) {
    forall c :: lo <= c < hi ==> c in used
  }

  ghost predicate Absent(used: set<nat>, lo: nat, hi: nat) {
    forall c :: lo <= c < hi ==> c !in used
  }

  lemma MapTest(w: nat, k: nat, used: set<nat>, off: nat)
    requires Maps(w, k, used, off)
    ensures w == Pow2(k) - 1 <==> All(used, off, off + k)
    ensures w == 0 <==> Absent(used, off, off + k)
  {
    AllOnes(w, k);
    NoOnes(w, k);
    if w == Pow2(k) - 1 {
      forall c | off <= c < off + k ensures c in used { OnesBits(k, c - off); }
    }
    if w == 0 {
      forall c | off <= c < off + k ensures c !in used { ZeroBits(c - off); }
    }
  }

  /** Word `i` of the map of a page of small chunks. */
  lemma SmallWord(m: Memory, h: nat, shift: nat, used: set<nat>, i: nat)
    requires h + 1 < |m.slab| && 8 * h + 8 <= |m.bits| && |m.next| == |m.slab| && |m.prev| == |m.slab|
    requires Encoded(m, h, Cut(shift, used)) && shift < EXACT_SHIFT && i < Count(shift) / 64
    ensures i < 8 && Maps(m.bits[8 * h + i], 64, used, 64 * i)
    ensures m.bits[8 * h + i] == SLAB_BUSY <==> All(used, 64 * i, 64 * i + 64)
    ensures m.bits[8 * h + i] == 0 <==> Absent(used, 64 * i, 64 * i + 64)
  {
    Tables(shift);
    WordPowers();
    var w := m.bits[8 * h + i];
    forall b: nat | b < 64 ensures Bit(w, b) <==> 64 * i + b in used {
      assert (64 * i + b) / 64 == i && (64 * i + b) % 64 == b;
      assert Marked(m, h, shift, 64 * i + b) <==> 64 * i + b in used;
    }
    MapTest(w, 64, used, 64 * i);
  }

  /** The words of the other two encodings. */
  lemma LargeWord(m: Memory, h: nat, shift: nat, used: set<nat>)
    requires h + 1 < |m.slab| && 8 * h + 8 <= |m.bits| && |m.next| == |m.slab| && |m.prev| == |m.slab|
    requires Encoded(m, h, Cut(shift, used)) && shift >= EXACT_SHIFT
    ensures Maps(if shift == EXACT_SHIFT then m.slab[h + 1] else Shr(m.slab[h + 1], MAP_SHIFT), Count(shift), used, 0)
  {
    Tables(shift);
    WordPowers();
    forall c: nat | c < Count(shift)
      ensures Bit(if shift == EXACT_SHIFT then m.slab[h + 1] else Shr(m.slab[h + 1], MAP_SHIFT), c) <==> c in used
    {
      BitOfShr(m.slab[h + 1], MAP_SHIFT, c);
      assert Marked(m, h, shift, c) <==> c in used;
    }
  }

  lemma SmallFull(m: Memory, h: nat, shift: nat, used: set<nat>)
    requires h + 1 < |m.slab| && 8 * h + 8 <= |m.bits| && |m.next| == |m.slab| && |m.prev| == |m.slab|
    requires Encoded(m, h, Cut(shift, used)) && shift < EXACT_SHIFT
    ensures Full(shift, used) <==> BusyMap(m, h, shift)
  {
    Tables(shift);
    if Full(shift, used) {
      forall i | 8 * h <= i < 8 * h + Count(shift) / 64 ensures m.bits[i] == SLAB_BUSY {
        SmallWord(m, h, shift, used, i - 8 * h);
        assert 8 * h + (i - 8 * h) == i;
      }
    }
    if BusyMap(m, h, shift) {
      forall c | 0 <= c < Count(shift) ensures c in used {
        SmallWord(m, h, shift, used, c / 64);
        assert m.bits[8 * h + c / 64] == SLAB_BUSY;
      }
    }
  }

  /** A page is full iff its map is busy. */
  lemma FullTest(m: Memory, h: nat, shift: nat, used: set<nat>)
    requires h + 1 < |m.slab| && 8 * h + 8 <= |m.bits| && |m.next| == |m.slab| && |m.prev| == |m.slab|
    requires Encoded(m, h, Cut(shift, used))
    ensures Full(shift, used) <==> BusyMap(m, h, shift)
  {
    if shift < EXACT_SHIFT {
      SmallFull(m, h, shift, used);
    } else {
      Tables(shift);
      WordPowers();
      LargeWord(m, h, shift, used);
      MapTest(if shift == EXACT_SHIFT then m.slab[h + 1] else Shr(m.slab[h + 1], MAP_SHIFT), Count(shift), used, 0);
      assert Full(shift, used) <==> All(used, 0, Count(shift));
    }
  }

  /** What the first word tells beyond the chunks of the map itself. */
  lemma FirstWordIdle(w: nat, used: set<nat>, n: nat)
    requires Maps(w, 64, used, 0) && n <= 64
    ensures Shr(w, n) == 0 <==> Absent(used, n, 64)
  {
    ShrSmall(w, n, 64 - n);
    forall b: nat | b < 64 - n ensures Bit(Shr(w, n), b) <==> n + b in used {
      BitOfShr(w, n, b);
      assert Bit(w, n + b) <==> 0 + (n + b) in used;
    }
    MapTest(Shr(w, n), 64 - n, used, n);
  }

  lemma IdleClearsMap(m: Memory, h: nat, shift: nat, used: set<nat>)
    requires h + 1 < |m.slab| && 8 * h + 8 <= |m.bits| && |m.next| == |m.slab| && |m.prev| == |m.slab|
    requires Encoded(m, h, Cut(shift, used)) && shift < EXACT_SHIFT && Idle(shift, used)
    ensures IdleMap(m, h, shift)
  {
    Tables(shift);
    SmallWord(m, h, shift, used, 0);
    FirstWordIdle(m.bits[8 * h], used, Reserved(shift));
    forall i | 8 * h < i < 8 * h + Count(shift) / 64 ensures m.bits[i] == 0 {
      SmallWord(m, h, shift, used, i - 8 * h);
      assert 8 * h + (i - 8 * h) == i;
    }
  }

  lemma ClearMapIdles(m: Memory, h: nat, shift: nat, used: set<nat>, c: nat)
    requires h + 1 < |m.slab| && 8 * h + 8 <= |m.bits| && |m.next| == |m.slab| && |m.prev| == |m.slab|
    requires Encoded(m, h, Cut(shift, used)) && shift < EXACT_SHIFT && IdleMap(m, h, shift)
    requires Reserved(shift) <= c < Count(shift)
    ensures c !in used
  {
    Tables(shift);
    SmallWord(m, h, shift, used, c / 64);
    if c < 64 { FirstWordIdle(m.bits[8 * h], used, Reserved(shift)); }
  }

  /** A page is idle iff its map, but for the chunks of the map itself, is clear. */
  lemma IdleTest(m: Memory, h: nat, shift: nat, used: set<nat>)
    requires h + 1 < |m.slab| && 8 * h + 8 <= |m.bits| && |m.next| == |m.slab| && |m.prev| == |m.slab|
    requires Encoded(m, h, Cut(shift, used)) && GoodRun(Cut(shift, used))
    ensures Idle(shift, used) <==> IdleMap(m, h, shift)
  {
    if shift < EXACT_SHIFT {
      if Idle(shift, used) { IdleClearsMap(m, h, shift, used); }
      if IdleMap(m, h, shift) {
        forall c | c in used ensures c < Reserved(shift) {
          if c >= Reserved(shift) { ClearMapIdles(m, h, shift, used, c); }
        }
      }
    } else {
      LargeWord(m, h, shift, used);
      MapTest(if shift == EXACT_SHIFT then m.slab[h + 1] else Shr(m.slab[h + 1], MAP_SHIFT), Count(shift), used, 0);
      assert Idle(shift, used) <==> Absent(used, 0, Count(shift));
    }
  }

  // ----- cutting a page

  /** The first word of the map of a page that has just been cut: the chunks of the map itself and one more. */
  function FirstWord(shift: nat): nat
    requires IsShift(shift)
  {
    if shift < EXACT_SHIFT then Pow2(Reserved(shift) + 1) - 1
    else if shift == EXACT_SHIFT then 1
    else Pow2(MAP_SHIFT) + shift
  }

  ghost predicate OpenWords(n: nat, m: Memory, h: nat, shift: nat, m': Memory)
    requires Sized(n, m) && Sized(n, m') && h < n && IsShift(shift)
  {
    Tables(shift);
    var r, s := h + 1, SlotHead(n, shift - MIN_SHIFT);
    && m'.slab == m.slab[r := if shift < EXACT_SHIFT then shift else FirstWord(shift)]
    && m'.next == m.next[r := s][s := r] && m'.prev == m.prev[r := 4 * s + Tag(shift)]
    && (forall i: nat :: i < 8 * n && !(8 * h <= i < 8 * h + 8) ==> m'.bits[i] == m.bits[i])
    && (shift < EXACT_SHIFT ==>
          && m'.bits[8 * h] == FirstWord(shift)
          && forall i: nat :: 8 * h < i < 8 * h + Count(shift) / 64 ==> m'.bits[i] == 0)
  }

  lemma SmallFirst(shift: nat, c: nat)
    requires IsShift(shift) && shift < EXACT_SHIFT
    ensures FirstWord(shift) < 512 && (Bit(FirstWord(shift), c) <==> c <= Reserved(shift))
  {
    Tables(shift);
    assert Pow2(2) == 4 && Pow2(3) == 8 && Pow2(9) == 512;
    OnesBits(Reserved(shift) + 1, c);
  }

  lemma BigFirst(shift: nat, c: nat)
    requires IsShift(shift) && shift > EXACT_SHIFT
    ensures FirstWord(shift) < WORD && (Bit(FirstWord(shift), MAP_SHIFT + c) <==> c == 0)
    ensures FirstWord(shift) % 16 == shift && Shr(FirstWord(shift), MAP_SHIFT) == 1
  {
    WordPowers();
    assert FirstWord(shift) == Pow2(32) * 1 + shift;
    ShrSplit(32, 1, shift);
    BitOfShr(FirstWord(shift), MAP_SHIFT, c);
    assert Pow2(1) == 2;
    OnesBits(1, c);
  }

  lemma OpenWordsGood(n: nat, m: Memory, h: nat, shift: nat, m': Memory)
    requires Sized(n, m) && Sized(n, m') && h < n && IsShift(shift) && OpenWords(n, m, h, shift, m')
    ensures GoodWords(m', h, shift)
  {
    Tables(shift);
    if shift < EXACT_SHIFT {
      SmallFirst(shift, 0);
    } else if shift > EXACT_SHIFT {
      BigFirst(shift, 0);
      assert Pow2(Count(shift)) == 2 * Pow2(Count(shift) - 1);
    }
  }

  lemma OpenMarks(n: nat, m: Memory, h: nat, shift: nat, m': Memory, c: nat)
    requires Sized(n, m) && Sized(n, m') && h < n && IsShift(shift) && OpenWords(n, m, h, shift, m')
    requires c < Count(shift)
    ensures Marked(m', h, shift, c) <==> c <= Reserved(shift)
  {
    Tables(shift);
    if shift < EXACT_SHIFT {
      if c < 64 {
        SmallFirst(shift, c);
      } else {
        ZeroBits(c % 64);
        assert m'.bits[8 * h + c / 64] == 0;
      }
    } else if shift == EXACT_SHIFT {
      assert Pow2(1) == 2;
      OnesBits(1, c);
    } else {
      BigFirst(shift, c);
    }
  }

  lemma OpenEncoded(n: nat, m: Memory, h: nat, shift: nat, m': Memory)
    requires Sized(n, m) && Sized(n, m') && h < n && IsShift(shift) && OpenWords(n, m, h, shift, m')
    ensures Encoded(m', h, Cut(shift, Upto(Reserved(shift))))
  {
    var used := Upto(Reserved(shift));
    OpenWordsGood(n, m, h, shift, m');
    assert Reserved(shift) + 1 < Count(shift) by { Tables(shift); }
    assert Reserved(shift) + 1 !in used;
    forall c: nat | c < Count(shift) ensures Marked(m', h, shift, c) <==> c in used {
      OpenMarks(n, m, h, shift, m', c);
    }
  }

  lemma LinksWithin(n: nat, m: Memory, h: nat, s: nat, x: nat, y: nat, m': Memory, t: set<nat>)
    requires Sized(n, m) && Sized(n, m') && h < n && s < TableSize(n) && h + 1 in t && s in t
    requires m'.slab == m.slab[h + 1 := x] && m'.prev == m.prev[h + 1 := y]
    requires m'.next == m.next[h + 1 := s][s := h + 1]
    requires forall i: nat :: i < 8 * n && !(8 * h <= i < 8 * h + 8) ==> m'.bits[i] == m.bits[i]
    ensures Within(n, m, m', t, {h})
  {
  }

  lemma OpenWithin(n: nat, m: Memory, h: nat, shift: nat, m': Memory, t: set<nat>)
    requires Sized(n, m) && Sized(n, m') && h < n && IsShift(shift) && OpenWords(n, m, h, shift, m')
    requires h + 1 in t && SlotHead(n, shift - MIN_SHIFT) in t
    ensures Within(n, m, m', t, {h})
  {
    var s := SlotHead(n, shift - MIN_SHIFT);
    var word := if shift < EXACT_SHIFT then shift else FirstWord(shift);
    LinksWithin(n, m, h, s, word, 4 * s + Tag(shift), m', t);
  }

  lemma OpenChain(n: nat, m: Memory, h: nat, shift: nat, m': Memory)
    requires Sized(n, m) && Sized(n, m') && h < n && IsShift(shift) && OpenWords(n, m, h, shift, m')
    requires Chain(m.next, m.prev, [], SlotHead(n, shift - MIN_SHIFT), Tag(shift))
    ensures Chain(m'.next, m'.prev, [h], SlotHead(n, shift - MIN_SHIFT), Tag(shift))
  {
    ChainFirst(m.next, m.prev, SlotHead(n, shift - MIN_SHIFT), Tag(shift), h);
  }

  /** Only the page and the list of its class are touched. */
  lemma OpenSide(n: nat, g: Layout, m: Memory, h: nat, shift: nat, m': Memory)
    requires Represents(n, g, m) && h < n && IsShift(shift) && g.slots[shift - MIN_SHIFT] == []
    requires Sized(n, m') && OpenWords(n, m, h, shift, m')
    ensures Within(n, m, m', SlotSide(n, g, shift - MIN_SHIFT, h), {h})
    ensures Chain(m'.next, m'.prev, [h], SlotHead(n, shift - MIN_SHIFT), Tag(shift))
  {
    var k := shift - MIN_SHIFT;
    SlotChain(n, g, m, k);
    assert OnSlotSide(n, [], k, h, h + 1) && OnSlotSide(n, [], k, h, SlotHead(n, k));
    OpenWithin(n, m, h, shift, m', SlotSide(n, g, k, h));
    OpenChain(n, m, h, shift, m');
  }

  lemma OpenRepresents(n: nat, g: Layout, m: Memory, h: nat, shift: nat, m': Memory)
    requires Listed(g) && Represents(n, g, m) && h in g.runs && g.runs[h] == Whole(1)
    requires IsShift(shift) && g.slots[shift - MIN_SHIFT] == [] && h < n
    requires Sized(n, m') && OpenWords(n, m, h, shift, m')
    ensures Represents(n, Open(g, h, shift), m')
  {
    OpenEncoded(n, m, h, shift, m');
    OpenStep(n, g, m, h, shift, Upto(Reserved(shift)), m');
    OpenIsRecut(g, h, shift);
  }

  lemma OpenStep(n: nat, g: Layout, m: Memory, h: nat, shift: nat, used: set<nat>, m': Memory)
    requires Listed(g) && Represents(n, g, m) && h in g.runs && g.runs[h] == Whole(1)
    requires IsShift(shift) && g.slots[shift - MIN_SHIFT] == [] && h < n
    requires Sized(n, m') && OpenWords(n, m, h, shift, m') && Encoded(m', h, Cut(shift, used))
    ensures Represents(n, Recut(g, h, Cut(shift, used), shift - MIN_SHIFT, [h]), m')
  {
    OpenSide(n, g, m, h, shift, m');
    SlotSideOnly(n, g, m, m', shift - MIN_SHIFT, h, Cut(shift, used), [h]);
  }

  lemma OpenIsRecut(g: Layout, h: nat, shift: nat)
    requires IsShift(shift) && |g.slots| == SLOTS
    ensures Open(g, h, shift) == Recut(g, h, Cut(shift, Upto(Reserved(shift))), shift - MIN_SHIFT, [h])
  {
  }

  /** Everything stays in order when a page is cut. */
  lemma OpenSound(n: nat, g: Layout, m: Memory, h: nat, shift: nat, m': Memory)
    requires Tiled(n, g) && Listed(g) && Represents(n, g, m) && h in g.runs && g.runs[h] == Whole(1)
    requires IsShift(shift) && g.slots[shift - MIN_SHIFT] == [] && h < n
    requires Sized(n, m') && OpenWords(n, m, h, shift, m')
    ensures Tiled(n, Open(g, h, shift)) && Listed(Open(g, h, shift)) && Represents(n, Open(g, h, shift), m')
  {
    OpenKeeps(n, g, h, shift);
    OpenRepresents(n, g, m, h, shift, m');
  }

  // ----- what the owners of regions may write

  /** Word `i` of page `x` lies in a live region. */
  ghost predicate Owned(g: Layout, off: nat, size: nat, x: nat, i: nat) {
    Live(g, off, size) && i < 8 && off <= PAGE_SIZE * x + 8 * i && PAGE_SIZE * x + 8 * i + 8 <= off + size
  }

  /** A live region holds no word of a map. */
  lemma OwnedIsNoMap(n: nat, g: Layout, off: nat, size: nat, x: nat, i: nat)
    requires Tiled(n, g) && Owned(g, off, size, x, i)
    ensures x < n
    ensures x in g.runs && g.runs[x].Cut? && g.runs[x].shift < EXACT_SHIFT ==> i >= Count(g.runs[x].shift) / 64
  {
    LiveSpan(n, g, off, size);
    var h := off / PAGE_SIZE;
    assert h <= x < h + Len(g.runs[h]);
    assert g.owner[x] == h;
    if x in g.runs && g.runs[x].Cut? {
      assert GoodRun(g.runs[x]) && g.owner[x] == x;
      LiveClearOfBitmap(n, g, off, size);
      Tables(g.runs[x].shift);
    }
  }

  /** The words of `b` in regions live in `g` are those of `b'`. */
  ghost predicate Untouched(g: Layout, b: seq<nat>, b': seq<nat>) {
    |b'| == |b| && forall off: nat, size: nat, x: nat, i: nat {:trigger Owned(g, off, size, x, i)} ::
      Owned(g, off, size, x, i) && 8 * x + i < |b| ==> b'[8 * x + i] == b[8 * x + i]
  }

  /** Marks are made outside the live regions. */
  lemma MarksUntouched(n: nat, g: Layout, m: Memory, h: nat, shift: nat, c: nat, m': Memory)
    requires Tiled(n, g) && h in g.runs && g.runs[h].Cut? && g.runs[h].shift == shift && IsShift(shift)
    requires h + 1 < |m.slab| && 8 * h + 8 <= |m.bits| && c < Count(shift)
    requires m' == MarkSet(m, h, shift, c) || m' == MarkClear(m, h, shift, c)
    ensures Untouched(g, m.bits, m'.bits)
  {
    Tables(shift);
    forall off: nat, size: nat, x: nat, i: nat | Owned(g, off, size, x, i) && 8 * x + i < |m.bits|
      ensures m'.bits[8 * x + i] == m.bits[8 * x + i]
    {
      OwnedIsNoMap(n, g, off, size, x, i);
    }
  }

  /** Nothing but the words of page `h` differs. */
  ghost predicate OnlyPage(h: nat, b: seq<nat>, b': seq<nat>) {
    |b'| == |b| && forall i: nat :: i < |b| && !(8 * h <= i < 8 * h + 8) ==> b'[i] == b[i]
  }

  /** So is the map of a page that was free before. */
  lemma FreshUntouched(n: nat, g: Layout, h: nat, b: seq<nat>, b': seq<nat>)
    requires Tiled(n, g) && h in g.runs && g.runs[h].Free? && OnlyPage(h, b, b')
    ensures Untouched(g, b, b')
  {
    forall off: nat, size: nat, x: nat, i: nat | Owned(g, off, size, x, i) && 8 * x + i < |b|
      ensures b'[8 * x + i] == b[8 * x + i]
    {
      LiveSpan(n, g, off, size);
      var k := off / PAGE_SIZE;
      assert k <= x < k + Len(g.runs[k]);
      assert g.owner[x] == k && !g.runs[k].Free?;
      assert GoodRun(g.runs[h]) && h <= h < h + Len(g.runs[h]);
      assert x != h;
    }
  }

  lemma RunUntouched(n: nat, m: Memory, h: nat, r: Run, x: nat, i: nat, w: nat)
    requires Sized(n, m) && h < n && x < n && i < 8 && GoodRun(r) && Encoded(m, h, r)
    requires x == h && r.Cut? && r.shift < EXACT_SHIFT ==> i >= Count(r.shift) / 64
    ensures Encoded(m.(bits := m.bits[8 * x + i := w]), h, r)
  {
    if r.Cut? { Tables(r.shift); }
    KeptEncoding(m, m.(bits := m.bits[8 * x + i := w]), h, r);
  }

  /** Whatever its owner writes into a live region, the memory holds the same layout. */
  lemma OwnersWrite(n: nat, g: Layout, m: Memory, off: nat, size: nat, x: nat, i: nat, w: nat)
    requires Tiled(n, g) && Represents(n, g, m) && Owned(g, off, size, x, i)
    ensures x < n && Represents(n, g, m.(bits := m.bits[8 * x + i := w]))
  {
    OwnedIsNoMap(n, g, off, size, x, i);
    var m' := m.(bits := m.bits[8 * x + i := w]);
    forall h | h in g.runs ensures h < n && Encoded(m', h, g.runs[h]) {
      assert GoodRun(g.runs[h]) && Encoded(m, h, g.runs[h]);
      RunUntouched(n, m, h, g.runs[h], x, i, w);
    }
    assert HoldsRuns(n, g.runs, m');
    assert HoldsBodies(n, g, m') by { assert HoldsBodies(n, g, m); }
    assert HoldsSlots(n, g.slots, m') by { assert HoldsSlots(n, g.slots, m); }
  }

  /** A chunk is live iff its bit is set, in whichever encoding its page uses, and the bit is
      not that of a chunk of the map. */
  lemma LiveIsMarked(n: nat, g: Layout, m: Memory, h: nat, c: nat)
    requires Represents(n, g, m) && h in g.runs && g.runs[h].Cut? && IsShift(g.runs[h].shift)
    requires c < Count(g.runs[h].shift)
    ensures h < n
    ensures Live(g, ChunkAt(h, g.runs[h].shift, c), ChunkSize(g.runs[h].shift)) <==>
      Marked(m, h, g.runs[h].shift, c) && c >= Reserved(g.runs[h].shift)
  {
    assert Encoded(m, h, g.runs[h]);
    ChunkLive(g, h, g.runs[h].shift, g.runs[h].used, c);
  }
}
