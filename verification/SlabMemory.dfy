/** How the page descriptors and the bitmaps inside pages hold a layout. */
module SlabMemory {
  import opened Bits
  import opened SlabLists
  import opened SlabLayout

  /** The descriptor table, one word per field and position, and the first eight words of
      every page, where a page of small chunks keeps its bitmap. */
  datatype Memory = Memory(slab: seq<nat>, next: seq<nat>, prev: seq<nat>, bits: seq<nat>)

  /** The positions of the list heads in a table for `n` pages. */
  function SlotHead(n: nat, k: nat): nat {
    n + 1 + k
  }

  function FreeHead(n: nat): nat {
    n + 1 + SLOTS
  }

  function TableSize(n: nat): nat {
    n + 2 + SLOTS
  }

  ghost predicate Sized(n: nat, m: Memory) {
    && |m.slab| == TableSize(n) && |m.next| == TableSize(n) && |m.prev| == TableSize(n)
    && |m.bits| == 8 * n
  }

  // ----- the bit that stands for a chunk

  ghost predicate Marked(m: Memory, h: nat, shift: nat, c: nat)
    requires h + 1 < |m.slab| && 8 * h + 8 <= |m.bits|
    requires IsShift(shift) && c < Count(shift)
  {
    Tables(shift);
    if shift < EXACT_SHIFT then Bit(m.bits[8 * h + c / 64], c % 64)
    else if shift == EXACT_SHIFT then Bit(m.slab[h + 1], c)
    else Bit(m.slab[h + 1], MAP_SHIFT + c)
  }

  ghost predicate GoodWords(m: Memory, h: nat, shift: nat)
    requires h + 1 < |m.slab| && 8 * h + 8 <= |m.bits| && IsShift(shift)
  {
    Tables(shift);
    if shift < EXACT_SHIFT then
      m.slab[h + 1] == shift && forall i :: 8 * h <= i < 8 * h + Count(shift) / 64 ==> m.bits[i] < WORD
    else if shift == EXACT_SHIFT then
      m.slab[h + 1] < WORD
    else
      && m.slab[h + 1] < WORD && m.slab[h + 1] % 16 == shift
      && Shr(m.slab[h + 1], MAP_SHIFT) < Pow2(Count(shift))
  }

  function MarkSet(m: Memory, h: nat, shift: nat, c: nat): (r: Memory)
    requires h + 1 < |m.slab| && 8 * h + 8 <= |m.bits|
    requires IsShift(shift) && c < Count(shift)
    ensures |r.slab| == |m.slab| && |r.bits| == |m.bits| && r.next == m.next && r.prev == m.prev
  {
    Tables(shift);
    if shift < EXACT_SHIFT then
      m.(bits := m.bits[8 * h + c / 64 := SetBit(m.bits[8 * h + c / 64], c % 64)])
    else
      m.(slab := m.slab[h + 1 := SetBit(m.slab[h + 1], if shift == EXACT_SHIFT then c else MAP_SHIFT + c)])
  }

  function MarkClear(m: Memory, h: nat, shift: nat, c: nat): (r: Memory)
    requires h + 1 < |m.slab| && 8 * h + 8 <= |m.bits|
    requires IsShift(shift) && c < Count(shift)
    ensures |r.slab| == |m.slab| && |r.bits| == |m.bits| && r.next == m.next && r.prev == m.prev
  {
    Tables(shift);
    if shift < EXACT_SHIFT then
      m.(bits := m.bits[8 * h + c / 64 := ClearBit(m.bits[8 * h + c / 64], c % 64)])
    else
      m.(slab := m.slab[h + 1 := ClearBit(m.slab[h + 1], if shift == EXACT_SHIFT then c else MAP_SHIFT + c)])
  }

  lemma MarkedAfterSet(m: Memory, h: nat, shift: nat, c: nat, d: nat)
    requires h + 1 < |m.slab| && 8 * h + 8 <= |m.bits|
    requires IsShift(shift) && c < Count(shift) && d < Count(shift)
    ensures Marked(MarkSet(m, h, shift, c), h, shift, d) <==> c == d || Marked(m, h, shift, d)
  {
    Tables(shift);
    if shift < EXACT_SHIFT {
      BitOfSet(m.bits[8 * h + c / 64], c % 64, d % 64);
    } else if shift == EXACT_SHIFT {
      BitOfSet(m.slab[h + 1], c, d);
    } else {
      BitOfSet(m.slab[h + 1], MAP_SHIFT + c, MAP_SHIFT + d);
    }
  }

  lemma MarkedAfterClear(m: Memory, h: nat, shift: nat, c: nat, d: nat)
    requires h + 1 < |m.slab| && 8 * h + 8 <= |m.bits|
    requires IsShift(shift) && c < Count(shift) && d < Count(shift)
    ensures Marked(MarkClear(m, h, shift, c), h, shift, d) <==> c != d && Marked(m, h, shift, d)
  {
    Tables(shift);
    if shift < EXACT_SHIFT {
      BitOfClear(m.bits[8 * h + c / 64], c % 64, d % 64);
    } else if shift == EXACT_SHIFT {
      BitOfClear(m.slab[h + 1], c, d);
    } else {
      BitOfClear(m.slab[h + 1], MAP_SHIFT + c, MAP_SHIFT + d);
    }
  }

  /** The word that holds the bit of a chunk stays in its bounds when the bit is set. */
  lemma SetKeepsUpper(w: nat, shift: nat, c: nat)
    requires EXACT_SHIFT < shift < PAGE_SHIFT && c < Count(shift) && w < WORD
    requires Shr(w, MAP_SHIFT) < Pow2(Count(shift))
    ensures SetBit(w, MAP_SHIFT + c) < WORD && SetBit(w, MAP_SHIFT + c) % 16 == w % 16
    ensures Shr(SetBit(w, MAP_SHIFT + c), MAP_SHIFT) < Pow2(Count(shift))
  {
    Tables(shift);
    WordPowers();
    SetStaysSmall(w, 64, MAP_SHIFT + c);
    SetUpper(w, MAP_SHIFT, c);
    SetStaysSmall(Shr(w, MAP_SHIFT), Count(shift), c);
  }

  lemma SetKeepsWord(w: nat, c: nat)
    requires c < 64 && w < WORD
    ensures SetBit(w, c) < WORD
  {
    WordPowers();
    SetStaysSmall(w, 64, c);
  }

  lemma SetKeepsWords(m: Memory, h: nat, shift: nat, c: nat)
    requires h + 1 < |m.slab| && 8 * h + 8 <= |m.bits|
    requires IsShift(shift) && c < Count(shift) && GoodWords(m, h, shift)
    ensures GoodWords(MarkSet(m, h, shift, c), h, shift)
  {
    Tables(shift);
    if shift < EXACT_SHIFT {
      SetKeepsWord(m.bits[8 * h + c / 64], c % 64);
    } else if shift == EXACT_SHIFT {
      SetKeepsWord(m.slab[h + 1], c);
    } else {
      SetKeepsUpper(m.slab[h + 1], shift, c);
    }
  }

  lemma ClearKeepsWords(m: Memory, h: nat, shift: nat, c: nat)
    requires h + 1 < |m.slab| && 8 * h + 8 <= |m.bits|
    requires IsShift(shift) && c < Count(shift) && GoodWords(m, h, shift)
    ensures GoodWords(MarkClear(m, h, shift, c), h, shift)
  {
    Tables(shift);
    if shift > EXACT_SHIFT { ClearUpper(m.slab[h + 1], MAP_SHIFT, c); }
  }

  // ----- descriptors

  /** Runs that are in no list. */
  ghost predicate Detached(r: Run) {
    r.Whole? || (r.Cut? && IsShift(r.shift) && Full(r.shift, r.used))
  }

  ghost predicate Encoded(m: Memory, h: nat, r: Run)
    requires h + 1 < |m.slab| && 8 * h + 8 <= |m.bits| && |m.next| == |m.slab| && |m.prev| == |m.slab|
  {
    match r
    case Free(len) => m.slab[h + 1] == len
    case Whole(len) => m.slab[h + 1] == PAGE_START + len && m.next[h + 1] == 0 && m.prev[h + 1] == TAG_PAGE
    case Cut(shift, used) =>
      && IsShift(shift) && GoodWords(m, h, shift)
      && (Full(shift, used) ==> m.next[h + 1] == 0 && m.prev[h + 1] == Tag(shift))
      && forall c: nat {:trigger Marked(m, h, shift, c)} :: c < Count(shift) ==> (Marked(m, h, shift, c) <==> c in used)
  }

  ghost predicate HoldsRuns(n: nat, runs: map<nat, Run>, m: Memory)
    requires Sized(n, m)
  {
    forall h {:trigger h in runs} :: h in runs ==> h < n && Encoded(m, h, runs[h])
  }

  ghost predicate HoldsSlots(n: nat, slots: seq<seq<nat>>, m: Memory) {
    && |slots| == SLOTS
    && forall k: nat {:trigger slots[k]} :: k < SLOTS ==>
         Chain(m.next, m.prev, slots[k], SlotHead(n, k), Tag(k + MIN_SHIFT))
  }

  ghost predicate HoldsFree(n: nat, free: seq<nat>, m: Memory) {
    Chain(m.next, m.prev, free, FreeHead(n), TAG_PAGE)
  }

  /** The word of the pages behind the first of a run. */
  function BodyWord(free: bool): nat {
    if free then 0 else SLAB_BUSY
  }

  ghost predicate Body(m: Memory, x: nat, word: nat)
    requires x + 1 < |m.slab| && |m.next| == |m.slab| && |m.prev| == |m.slab|
  {
    m.slab[x + 1] == word && m.next[x + 1] == 0 && m.prev[x + 1] == TAG_PAGE
  }

  /** Every page behind the first of its run shows whether the run is free. */
  ghost predicate HoldsBodies(n: nat, g: Layout, m: Memory)
    requires Sized(n, m)
  {
    && |g.owner| == n
    && forall x: nat {:trigger g.owner[x]} :: x < n && x !in g.runs && g.owner[x] in g.runs ==>
         Body(m, x, BodyWord(g.runs[g.owner[x]].Free?))
  }

  /** The memory holds the layout: every run with all its pages, the free list and the slot lists. */
  ghost predicate Represents(n: nat, g: Layout, m: Memory) {
    && Sized(n, m)
    && var runs := HoldsRuns(n, g.runs, m);
       var bodies := HoldsBodies(n, g, m);
       var free := HoldsFree(n, g.free, m);
       var slots := HoldsSlots(n, g.slots, m);
       var all := runs && bodies && free && slots;
       all
  }

  /** What a run needs of the memory. */
  ghost predicate Kept(m: Memory, m': Memory, h: nat, r: Run)
    requires h + 1 < |m.slab| && 8 * h + 8 <= |m.bits| && |m.next| == |m.slab| && |m.prev| == |m.slab|
    requires |m'.slab| == |m.slab| && |m'.next| == |m.next| && |m'.prev| == |m.prev| && |m'.bits| == |m.bits|
  {
    && m'.slab[h + 1] == m.slab[h + 1]
    && (Detached(r) ==> m'.next[h + 1] == m.next[h + 1] && m'.prev[h + 1] == m.prev[h + 1])
    && (r.Cut? && IsShift(r.shift) && r.shift < EXACT_SHIFT ==>
          (Tables(r.shift); forall i :: 8 * h <= i < 8 * h + Count(r.shift) / 64 ==> m'.bits[i] == m.bits[i]))
  }

  lemma KeptEncoding(m: Memory, m': Memory, h: nat, r: Run)
    requires h + 1 < |m.slab| && 8 * h + 8 <= |m.bits| && |m.next| == |m.slab| && |m.prev| == |m.slab|
    requires |m'.slab| == |m.slab| && |m'.next| == |m.next| && |m'.prev| == |m.prev| && |m'.bits| == |m.bits|
    requires Encoded(m, h, r) && Kept(m, m', h, r)
    ensures Encoded(m', h, r)
  {
    if r.Cut? {
      Tables(r.shift);
      forall c: nat | c < Count(r.shift) ensures Marked(m', h, r.shift, c) == Marked(m, h, r.shift, c) {
      }
    }
  }
}
