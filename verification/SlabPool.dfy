/** The slab allocator of a shared memory zone.

    The pool keeps a table of page descriptors and, in the first words of the pages of small
    chunks, the maps of those pages.  `layout` says what these words mean; every method is
    proved to keep the two in step. */
module SlabPools {
  import opened Bits
  import opened Options
  import opened SlabLists
  import opened SlabLayout
  import opened SlabMemory
  import opened SlabMoves
  import opened SlabCuts
  import opened SlabMaps
  import opened SlabLive

  datatype Outcome = Done | OutsidePool | WrongChunk | AlreadyFree | PageFree | WrongPage

  /** The pages of a 64-bit address space. */
  const MAX_PAGES := 0x10_0000_0000_0000

  /** `sizeof(ngx_slab_page_t)`. */
  const DESCRIPTOR := 24

  class SlabPool {
    const n: nat
    const start: nat
    const end: nat
    const slab: array<nat>
    const next: array<nat>
    const prev: array<nat>
    const bits: array<nat>
    ghost var layout: Layout

    ghost function Words(): Memory
      reads slab, next, prev, bits
    {
      Memory(slab[..], next[..], prev[..], bits[..])
    }

    /** The four arrays are different and have the right sizes. */
    ghost predicate Shaped() {
      && slab != next && slab != prev && slab != bits && next != prev && next != bits && prev != bits
      && slab.Length == TableSize(n) && next.Length == TableSize(n) && prev.Length == TableSize(n)
      && bits.Length == 8 * n
    }

    /** The pages lie in the zone, at page boundaries. */
    ghost predicate Placed() {
      start % PAGE_SIZE == 0 && start + PAGE_SIZE * n <= end
    }

    ghost predicate Sound()
      reads this, slab, next, prev, bits
    {
      && Shaped() && n <= MAX_PAGES
      && var tiled := Tiled(n, layout);
         var listed := Listed(layout);
         var held := Represents(n, layout, Words());
         var all := tiled && listed && held;
         all
    }

    ghost predicate Valid()
      reads this, slab, next, prev, bits
    {
      Placed() && Sound() && NoIdle(layout)
    }

    /** `ngx_slab_init` for the zone that ends at `e`, with the slot table at `p`: one free run
        of all the pages between the table of the descriptors and the end. */
    constructor (p: nat, e: nat)
      requires p <= e < WORD && PagesStart(p, e) + PAGE_SIZE <= e
      ensures Valid() && fresh(slab) && fresh(next) && fresh(prev) && fresh(bits)
      ensures end == e && n == (e - start) / PAGE_SIZE > 0 && start == PagesStart(p, e)
      ensures start >= p + DESCRIPTOR * (SLOTS + n)
      ensures layout == FreshLayout(n) && forall off: nat :: !IsLive(layout, off)
    {
      var pages := (e - p) / (PAGE_SIZE + DESCRIPTOR);
      var s := (p + SLOTS * DESCRIPTOR + pages * DESCRIPTOR + PAGE_SIZE - 1) / PAGE_SIZE * PAGE_SIZE;
      PagesFit(p, e, pages, s);
      var m := pages - (e - s) / PAGE_SIZE;
      if m > 0 { pages := pages - m; }
      n, start, end := pages, s, e;
      slab := new nat[TableSize(pages)];
      next := new nat[TableSize(pages)];
      prev := new nat[TableSize(pages)];
      bits := new nat[8 * pages];
      layout := FreshLayout(pages);
      new;
      InitSlots();
      InitPages();
      FreshKeeps(n);
      FreshRepresents(n, Words());
      NothingLive(n);
    }

    method InitSlots()
      requires Shaped()
      modifies slab, next, prev
      ensures forall k: nat :: k < SLOTS ==> next[SlotHead(n, k)] == SlotHead(n, k)
    {
      var k := 0;
      while k < SLOTS
        invariant k <= SLOTS && forall i: nat :: i < k ==> next[SlotHead(n, i)] == SlotHead(n, i)
      {
        slab[SlotHead(n, k)] := 0;
        next[SlotHead(n, k)] := SlotHead(n, k);
        prev[SlotHead(n, k)] := 0;
        k := k + 1;
      }
    }

    method InitPages()
      requires Shaped() && n > 0
      modifies slab, next, prev
      ensures forall k: nat :: k < SLOTS ==> next[SlotHead(n, k)] == old(next[SlotHead(n, k)])
      ensures next[FreeHead(n)] == 1 && slab[1] == n && next[1] == FreeHead(n) && prev[1] == 4 * FreeHead(n) + TAG_PAGE
      ensures Bodies(n, Words(), 0, n, 0)
    {
      var r := 1;
      while r <= n
        invariant 1 <= r <= n + 1
        invariant forall p :: 1 <= p < r ==> slab[p] == 0 && next[p] == 0 && prev[p] == 0
        invariant forall k: nat :: k < SLOTS ==> next[SlotHead(n, k)] == old(next[SlotHead(n, k)])
      {
        slab[r] := 0;
        next[r] := 0;
        prev[r] := 0;
        r := r + 1;
      }
      prev[FreeHead(n)] := 0;
      next[FreeHead(n)] := 1;
      slab[1] := n;
      next[1] := FreeHead(n);
      prev[1] := 4 * FreeHead(n) + TAG_PAGE;
    }

    // ----- pages

    /** Unlinks the descriptor at `r` from the list it is in. */
    method Unlink(r: nat)
      requires Shaped() && r < next.Length && prev[r] / 4 < next.Length && next[r] < prev.Length
      modifies next, prev
      ensures next[..] == old(next[..])[old(prev[r]) / 4 := old(next[r])]
      ensures prev[..] == old(prev[..])[old(next[r]) := old(prev[r])]
    {
      var a, b := prev[r], next[r];
      next[a / 4] := b;
      prev[b] := a;
    }

    /** Takes `pages` pages from the free run with the descriptor at `r`. */
    method Carve(r: nat, pages: nat)
      requires Shaped() && 0 < r <= n && 0 < pages <= slab[r] && r + pages <= n + 1
      requires prev[r] / 4 < next.Length && next[r] < prev.Length
      requires prev[r] / 4 != r && next[r] != r && prev[r] % 4 == 0
      modifies slab, next, prev
      ensures Words() == TakeWords(n, old(Words()), r - 1, pages)
    {
      ghost var m := Words();
      if slab[r] > pages {
        var q := r + pages;
        slab[q] := slab[r] - pages;
        next[q] := next[r];
        prev[q] := prev[r];
        next[prev[r] / 4] := q;
        prev[next[r]] := 4 * q;
      } else {
        Unlink(r);
      }
      slab[r] := PAGE_START + pages;
      next[r] := 0;
      prev[r] := TAG_PAGE;
      ghost var w := TakeWords(n, m, r - 1, pages);
      assert slab[..] == w.slab;
      assert next[..] == w.next;
      assert prev[..] == w.prev;
    }

    /** Marks the pages behind the first of a run. */
    method MarkBodies(r: nat, pages: nat)
      requires Shaped() && 0 < r && 0 < pages && r + pages <= n + 1
      modifies slab, next, prev
      ensures ButBodies(n, old(Words()), Words(), r - 1, pages)
      ensures Bodies(n, Words(), r - 1, pages, SLAB_BUSY)
    {
      var p := r + 1;
      while p < r + pages
        invariant r < p <= r + pages
        invariant ButBodies(n, old(Words()), Words(), r - 1, pages)
        invariant forall i :: r < i < p ==> slab[i] == SLAB_BUSY && next[i] == 0 && prev[i] == TAG_PAGE
      {
        slab[p] := SLAB_BUSY;
        next[p] := 0;
        prev[p] := TAG_PAGE;
        p := p + 1;
      }
    }

    /** Takes `pages` pages from the free run with the descriptor at `p`. */
    method TakeRun(p: nat, pages: nat, ghost j: nat)
      requires Sound() && j < |layout.free| && p == layout.free[j] + 1 && Fits(layout, j, pages)
      modifies this`layout, slab, next, prev
      ensures Sound() && layout == Take(old(layout), j, pages)
    {
      ghost var g, m := layout, Words();
      TakeLinks(n, g, m, j);
      FreeTag(n, g, m, j);
      Carve(p, pages);
      MarkBodies(p, pages);
      TakeSound(n, g, m, j, pages, Words());
      layout := Take(g, j, pages);
    }

    /** The first free run with at least `pages` pages, or the head of the free list. */
    method FindRun(pages: nat) returns (p: nat, ghost j: nat)
      requires Sound() && pages > 0
      ensures j <= |layout.free| && NoRun(layout, j, pages)
      ensures if j == |layout.free| then p == FreeHead(n)
              else p == layout.free[j] + 1 && p <= n && Fits(layout, j, pages)
    {
      j := 0;
      p := next[FreeHead(n)];
      FreeFirst(n, layout, Words(), 0);
      FreeBounds(n, layout, Words());
      while p != FreeHead(n)
        invariant j <= |layout.free| && p == (if j < |layout.free| then layout.free[j] + 1 else FreeHead(n))
        invariant NoRun(layout, j, pages)
        decreases |layout.free| - j
      {
        RunAt(n, layout, Words(), j);
        if slab[p] >= pages { return; }
        p := next[p];
        j := j + 1;
      }
    }

    /** First fit over the free runs: `ngx_slab_alloc_pages`. */
    method AllocPages(pages: nat) returns (page: Option<nat>, ghost j: nat)
      requires Sound() && pages > 0
      modifies this`layout, slab, next, prev
      ensures Sound() && j <= |old(layout).free| && NoRun(old(layout), j, pages)
      ensures page.None? ==> layout == old(layout) && j == |layout.free|
      ensures page.Some? ==>
        && j < |old(layout).free| && old(layout).free[j] == page.value && Fits(old(layout), j, pages)
        && layout == Take(old(layout), j, pages)
    {
      var p;
      p, j := FindRun(pages);
      if p == FreeHead(n) {
        page := None;
      } else {
        TakeRun(p, pages, j);
        page := Some(p - 1);
      }
    }

    /** Writes the descriptors of a run that is given back. */
    method Return(r: nat, pages: nat)
      requires Shaped() && 0 < r && 0 < pages && r + pages <= n + 1 && next[FreeHead(n)] < TableSize(n)
      requires next[r] != 0 ==> pages == 1 && prev[r] / 4 <= FreeHead(n) - 1 && next[r] <= FreeHead(n) - 1
      requires !(r < next[FreeHead(n)] < r + pages)
      modifies slab, next, prev
      ensures ButBodies(n, FreeWords(n, old(Words()), r - 1, pages), Words(), r - 1, pages)
      ensures Bodies(n, Words(), r - 1, pages, 0)
    {
      slab[r] := pages;
      ClearBodies(r, pages);
      ghost var m := Words();
      if next[r] != 0 { Unlink(r); }
      PushFree(r);
      BodiesStay(n, m, Words(), r - 1, pages, 0);
    }

    /** Puts a run in front of the free list. */
    method PushFree(r: nat)
      requires Shaped() && 0 < r <= n && next[FreeHead(n)] < TableSize(n)
      modifies next, prev
      ensures var m := old(Words());
        var f := m.next[FreeHead(n)];
        && next[..] == m.next[r := f][FreeHead(n) := r]
        && prev[..] == m.prev[r := 4 * FreeHead(n) + TAG_PAGE][f := 4 * r + TAG_PAGE]
    {
      prev[r] := 4 * FreeHead(n) + TAG_PAGE;
      next[r] := next[FreeHead(n)];
      prev[next[r]] := 4 * r + TAG_PAGE;
      next[FreeHead(n)] := r;
    }

    method ClearBodies(r: nat, pages: nat)
      requires Shaped() && 0 < r && 0 < pages && r + pages <= n + 1
      modifies slab, next, prev
      ensures ButBodies(n, old(Words()), Words(), r - 1, pages)
      ensures Bodies(n, Words(), r - 1, pages, 0)
    {
      var p := r + 1;
      while p < r + pages
        invariant r < p <= r + pages
        invariant ButBodies(n, old(Words()), Words(), r - 1, pages)
        invariant forall i :: r < i < p ==> slab[i] == 0 && next[i] == 0 && prev[i] == 0
      {
        slab[p] := 0;
        next[p] := 0;
        prev[p] := 0;
        p := p + 1;
      }
    }

    /** Gives back a run of whole pages: `ngx_slab_free_pages`. */
    method FreeRun(h: nat, pages: nat)
      requires Sound() && h in layout.runs && layout.runs[h] == Whole(pages)
      modifies this`layout, slab, next, prev
      ensures Sound() && layout == Release(old(layout), h)
    {
      ghost var g, m := layout, Words();
      OwnRun(n, g, h);
      FreeFirst(n, g, m, h);
      assert Encoded(m, h, g.runs[h]) && GoodRun(g.runs[h]);
      FreeFirstApart(n, g, m, h);
      Return(h + 1, pages);
      ReleaseKeeps(n, g, h);
      ReleaseRepresents(n, g, m, h, Words());
      layout := Release(g, h);
    }

    /** Gives back a cut page, at index `j` of its slot list: `ngx_slab_free_pages`. */
    method FreeCut(h: nat, ghost j: nat)
      requires Sound() && h in layout.runs && layout.runs[h].Cut? && IsShift(layout.runs[h].shift)
      requires var l := layout.slots[layout.runs[h].shift - MIN_SHIFT]; j < |l| && l[j] == h
      modifies this`layout, slab, next, prev
      ensures Sound() && layout == Release(Detach(old(layout), h, j), h)
    {
      ghost var g, m := layout, Words();
      ghost var d := Detach(g, h, j);
      CutLinks(n, g, m, h, j);
      DetachKeeps(n, g, h, j);
      DetachRepresents(n, g, m, h, j);
      FreeFirst(n, g, m, h);
      FreeFirst(n, d, DetachWords(n, m, h), h);
      Return(h + 1, 1);
      ReleaseKeeps(n, d, h);
      ReleaseRepresents(n, d, DetachWords(n, m, h), h, Words());
      layout := Release(d, h);
    }

    // ----- taking a chunk back

    /** Puts the descriptor at `r` in front of the list with head `s`. */
    method Relist(r: nat, s: nat, tag: nat)
      requires Shaped() && r < next.Length && s < next.Length && r != s && next[s] < prev.Length
      modifies next, prev
      ensures next[..] == old(next[..])[r := old(next[s])][s := r]
      ensures prev[..] == old(prev[..])[r := 4 * s + tag][old(next[s]) := 4 * r + tag]
    {
      next[r] := next[s];
      next[s] := r;
      prev[r] := 4 * s + tag;
      prev[next[r]] := 4 * r + tag;
    }

    method ClearMark(h: nat, shift: nat, c: nat)
      requires Shaped() && h < n && IsShift(shift) && c < Count(shift)
      modifies slab, bits
      ensures Words() == MarkClear(old(Words()), h, shift, c)
    {
      Tables(shift);
      if shift < EXACT_SHIFT {
        bits[8 * h + c / 64] := ClearBit(bits[8 * h + c / 64], c % 64);
      } else if shift == EXACT_SHIFT {
        slab[h + 1] := ClearBit(slab[h + 1], c);
      } else {
        slab[h + 1] := ClearBit(slab[h + 1], MAP_SHIFT + c);
      }
      ghost var m' := MarkClear(old(Words()), h, shift, c);
      assert slab[..] == m'.slab && bits[..] == m'.bits;
    }

    /** Clears the mark of chunk `c`; a page in no list rejoins the list of its class. */
    method Rejoin(h: nat, shift: nat, c: nat, ghost full: bool)
      requires Shaped() && h < n && IsShift(shift) && c < Count(shift)
      requires next[SlotHead(n, shift - MIN_SHIFT)] < TableSize(n)
      requires full == if shift == EXACT_SHIFT then slab[h + 1] == SLAB_BUSY else next[h + 1] == 0
      modifies slab, next, prev, bits
      ensures Words() == DropWords(n, old(Words()), h, shift, c, full)
    {
      if (if shift == EXACT_SHIFT then slab[h + 1] == SLAB_BUSY else next[h + 1] == 0) {
        Relist(h + 1, SlotHead(n, shift - MIN_SHIFT), Tag(shift));
      }
      ClearMark(h, shift, c);
    }

    method Unmark(h: nat, shift: nat, c: nat)
      requires Sound() && h in layout.runs && layout.runs[h].Cut? && layout.runs[h].shift == shift
      requires IsShift(shift) && c in layout.runs[h].used && c >= Reserved(shift) && c < Count(shift)
      modifies this`layout, slab, next, prev, bits
      ensures Sound() && layout == Drop(old(layout), h, c)
      ensures Untouched(old(layout), old(bits[..]), bits[..])
    {
      ghost var g, m := layout, Words();
      FullSigns(n, g, m, h);
      DropRepresents(n, g, m, h, c);
      Rejoin(h, shift, c, Full(shift, g.runs[h].used));
      MarksUntouched(n, g, m, h, shift, c, MarkClear(m, h, shift, c));
      DropKeeps(n, g, h, c);
      layout := Drop(g, h, c);
    }

    /** No chunk but those of the map itself is marked. */
    method IsIdle(h: nat, shift: nat) returns (idle: bool)
      requires Shaped() && h < n && IsShift(shift)
      ensures idle <==> IdleMap(Words(), h, shift)
    {
      Tables(shift);
      if shift < EXACT_SHIFT {
        if Shr(bits[8 * h], Reserved(shift)) != 0 { return false; }
        var i := 1;
        while i < Count(shift) / 64
          invariant 1 <= i <= Count(shift) / 64
          invariant forall w :: 8 * h < w < 8 * h + i ==> bits[w] == 0
        {
          if bits[8 * h + i] != 0 { return false; }
          i := i + 1;
        }
        return true;
      } else if shift == EXACT_SHIFT {
        return slab[h + 1] == 0;
      } else {
        return Shr(slab[h + 1], MAP_SHIFT) == 0;
      }
    }

    /** A cut page that is idle goes back to the free pages. */
    method Reclaim(h: nat, shift: nat, ghost j: nat)
      requires Sound() && h in layout.runs && layout.runs[h].Cut? && layout.runs[h].shift == shift && IsShift(shift)
      requires var l := layout.slots[shift - MIN_SHIFT]; j < |l| && l[j] == h
      modifies this`layout, slab, next, prev
      ensures Sound()
      ensures layout == if Idle(shift, old(layout).runs[h].used) then Release(Detach(old(layout), h, j), h)
                        else old(layout)
    {
      ghost var r := layout.runs[h];
      assert h < n && Encoded(Words(), h, r) && GoodRun(r);
      IdleTest(Words(), h, shift, r.used);
      var idle := IsIdle(h, shift);
      if idle { FreeCut(h, j); }
    }

    /** Takes chunk `c` of page `h` back. */
    method FreeChunk(h: nat, shift: nat, c: nat)
      requires Valid() && h in layout.runs && layout.runs[h].Cut? && layout.runs[h].shift == shift
      requires IsShift(shift) && c in layout.runs[h].used && c >= Reserved(shift) && c < Count(shift)
      modifies this`layout, slab, next, prev, bits
      ensures Valid() && Loses(old(layout), layout, ChunkAt(h, shift, c), ChunkSize(shift))
      ensures Untouched(old(layout), old(bits[..]), bits[..])
    {
      ghost var g := layout;
      ghost var j := IndexInSlot(g, h, c);
      Unmark(h, shift, c);
      Reclaim(h, shift, j);
      FreedChunk(g, h, c, j);
    }

    method IsMarked(h: nat, shift: nat, c: nat) returns (b: bool)
      requires Shaped() && h < n && IsShift(shift) && c < Count(shift)
      ensures b <==> Marked(Words(), h, shift, c)
    {
      Tables(shift);
      if shift < EXACT_SHIFT {
        b := Bit(bits[8 * h + c / 64], c % 64);
      } else if shift == EXACT_SHIFT {
        b := Bit(slab[h + 1], c);
      } else {
        b := Bit(slab[h + 1], MAP_SHIFT + c);
      }
    }

    /** Frees the pointer `p` into the chunks of page `h`. */
    method FreeSmall(p: nat, h: nat, shift: nat) returns (r: Outcome)
      requires Valid() && p >= start && h == (p - start) / PAGE_SIZE && IsShift(shift)
      requires h in layout.runs && layout.runs[h].Cut? && layout.runs[h].shift == shift && Recognised(layout, p - start)
      modifies this`layout, slab, next, prev, bits
      ensures Valid() && r == Verdict(old(layout), p - start)
      ensures Untouched(old(layout), old(bits[..]), bits[..])
      ensures r.Done? ==> Loses(old(layout), layout, p - start, ChunkSize(shift))
      ensures !r.Done? ==> Words() == old(Words()) && layout == old(layout)
    {
      ghost var g, used := layout, layout.runs[h].used;
      Offset(p, start, h, shift);
      if p % ChunkSize(shift) != 0 { return WrongChunk; }
      var c := p % PAGE_SIZE / ChunkSize(shift);
      assert h < n && Encoded(Words(), h, g.runs[h]);
      var b := IsMarked(h, shift, c);
      if !b { return AlreadyFree; }
      FreeChunk(h, shift, c);
      r := Done;
    }

    /** Frees the pointer `p` into page `h`, whose descriptor has the tag of whole pages. */
    method FreeWhole(p: nat, h: nat) returns (r: Outcome)
      requires Valid() && p >= start && h == (p - start) / PAGE_SIZE
      requires Recognised(layout, p - start) && !(h in layout.runs && layout.runs[h].Cut?)
      modifies this`layout, slab, next, prev
      ensures Valid() && r == Verdict(old(layout), p - start)
      ensures r.Done? ==>
        && h in old(layout).runs && old(layout).runs[h].Whole?
        && Loses(old(layout), layout, p - start, PAGE_SIZE * old(layout).runs[h].len)
      ensures !r.Done? ==> Words() == old(Words()) && layout == old(layout)
    {
      ghost var g := layout;
      PageOffset(p, start);
      if p % PAGE_SIZE != 0 { return WrongChunk; }
      WholeWord(n, g, Words(), h);
      if slab[h + 1] == 0 { return PageFree; }
      if slab[h + 1] == SLAB_BUSY { return WrongPage; }
      ReleaseLoses(g, h);
      FreeRun(h, slab[h + 1] % PAGE_START);
      r := Done;
    }

    /** `ngx_slab_free_locked`: a live pointer is freed, and nothing else changes; any other
        pointer gets the error that fits it and changes nothing. */
    method FreeLocked(p: nat) returns (r: Outcome, ghost size: nat)
      requires Valid() && (p < start || p > end || Recognised(layout, p - start))
      modifies this`layout, slab, next, prev, bits
      ensures Valid()
      ensures Untouched(old(layout), old(bits[..]), bits[..])
      ensures r == if p < start || p > end then OutsidePool else Verdict(old(layout), p - start)
      ensures r.Done? ==> p >= start && Loses(old(layout), layout, p - start, size)
      ensures !r.Done? ==> Words() == old(Words()) && layout == old(layout)
    {
      size := 0;
      if p < start || p > end { return OutsidePool, 0; }
      var h := (p - start) / PAGE_SIZE;
      DecodePage(n, layout, Words(), h);
      var word, tag := slab[h + 1], prev[h + 1] % 4;
      if tag == TAG_PAGE {
        size := if h in layout.runs then PAGE_SIZE * Len(layout.runs[h]) else 0;
        r := FreeWhole(p, h);
      } else {
        var shift := if tag == TAG_EXACT then EXACT_SHIFT else word % 16;
        size := ChunkSize(shift);
        r := FreeSmall(p, h, shift);
      }
    }

    // ----- handing out a chunk

    /** The lowest clear bit of `w >> off`. */
    method LowestClear(w: nat, off: nat, k: nat) returns (i: nat)
      requires Shr(w, off) < Pow2(k) && Shr(w, off) != Pow2(k) - 1
      ensures i < k && !Bit(Shr(w, off), i) && OnesBelow(Shr(w, off), i)
    {
      i := 0;
      AllOnes(Shr(w, off), k);
      BitOfShr(w, off, i);
      while Bit(w, off + i)
        invariant i <= k && Bit(w, off + i) == Bit(Shr(w, off), i)
        invariant OnesBelow(Shr(w, off), i)
        decreases k - i
      {
        if i == k { Bits.SmallWord(Shr(w, off), k, k); }
        i := i + 1;
        BitOfShr(w, off, i);
      }
    }

    /** The first free chunk of a page of small chunks: the first word that is not busy, the
        lowest clear bit in it. */
    method FirstFreeSmall(h: nat, shift: nat) returns (c: nat)
      requires Shaped() && h < n && IsShift(shift) && shift < EXACT_SHIFT
      requires GoodWords(Words(), h, shift) && !BusyMap(Words(), h, shift)
      ensures c < Count(shift) && c / 64 < 8 && !Bit(bits[8 * h + c / 64], c % 64) && BusyBelow(h, shift, c)
      ensures OnesBelow(bits[8 * h + c / 64], c % 64)
    {
      Tables(shift);
      WordPowers();
      var w := 0;
      while bits[8 * h + w] == SLAB_BUSY
        invariant w < Count(shift) / 64
        invariant forall i :: 8 * h <= i < 8 * h + w ==> bits[i] == SLAB_BUSY
        decreases Count(shift) / 64 - w
      {
        w := w + 1;
      }
      var i := LowestClear(bits[8 * h + w], 0, 64);
      c := 64 * w + i;
    }

    /** The first free chunk of a page that has one. */
    method FirstFree(h: nat, shift: nat) returns (c: nat)
      requires Shaped() && h < n && IsShift(shift) && GoodWords(Words(), h, shift) && !BusyMap(Words(), h, shift)
      ensures c < Count(shift) && !Marked(Words(), h, shift, c) && BusyBelow(h, shift, c)
      ensures forall d: nat {:trigger Marked(Words(), h, shift, d)} :: d < c ==>
                d < Count(shift) && Marked(Words(), h, shift, d)
    {
      Tables(shift);
      if shift < EXACT_SHIFT {
        c := FirstFreeSmall(h, shift);
        forall d: nat | d < c ensures d < Count(shift) && Marked(Words(), h, shift, d) {
          if d / 64 < c / 64 { BusyBit(bits[8 * h + d / 64], d % 64); }
        }
      } else if shift == EXACT_SHIFT {
        WordPowers();
        c := LowestClear(slab[h + 1], 0, 64);
      } else {
        c := LowestClear(slab[h + 1], MAP_SHIFT, Count(shift));
        BitOfShr(slab[h + 1], MAP_SHIFT, c);
        forall d: nat | d < c ensures d < Count(shift) && Marked(Words(), h, shift, d) {
          BitOfShr(slab[h + 1], MAP_SHIFT, d);
        }
      }
    }

    /** The words of the map of a page of small chunks below the word of chunk `c` are busy. */
    ghost predicate BusyBelow(h: nat, shift: nat, c: nat)
      requires 8 * h + 8 <= bits.Length && IsShift(shift) && c < Count(shift)
      reads bits
    {
      Tables(shift);
      shift < EXACT_SHIFT ==> forall i :: 8 * h <= i < 8 * h + c / 64 ==> bits[i] == SLAB_BUSY
    }

    method SetMark(h: nat, shift: nat, c: nat)
      requires Shaped() && h < n && IsShift(shift) && c < Count(shift) && BusyBelow(h, shift, c)
      modifies slab, bits
      ensures Words() == MarkSet(old(Words()), h, shift, c) && BusyBelow(h, shift, c)
    {
      Tables(shift);
      if shift < EXACT_SHIFT {
        bits[8 * h + c / 64] := SetBit(bits[8 * h + c / 64], c % 64);
      } else if shift == EXACT_SHIFT {
        slab[h + 1] := SetBit(slab[h + 1], c);
      } else {
        slab[h + 1] := SetBit(slab[h + 1], MAP_SHIFT + c);
      }
      ghost var m' := MarkSet(old(Words()), h, shift, c);
      assert slab[..] == m'.slab && bits[..] == m'.bits;
    }

    /** The map is busy; chunk `c` was the last to be marked. */
    method IsBusy(h: nat, shift: nat, c: nat) returns (busy: bool)
      requires Shaped() && h < n && IsShift(shift) && c < Count(shift) && BusyBelow(h, shift, c)
      ensures busy <==> BusyMap(Words(), h, shift)
    {
      Tables(shift);
      if shift < EXACT_SHIFT {
        var w := c / 64;
        if bits[8 * h + w] != SLAB_BUSY { return false; }
        w := w + 1;
        while w < Count(shift) / 64
          invariant w <= Count(shift) / 64
          invariant forall i :: 8 * h <= i < 8 * h + w ==> bits[i] == SLAB_BUSY
        {
          if bits[8 * h + w] != SLAB_BUSY { return false; }
          w := w + 1;
        }
        return true;
      } else if shift == EXACT_SHIFT {
        return slab[h + 1] == SLAB_BUSY;
      } else {
        return Shr(slab[h + 1], MAP_SHIFT) == Pow2(Count(shift)) - 1;
      }
    }

    /** A page that has filled up leaves its list. */
    method Leave(h: nat, shift: nat)
      requires Shaped() && h < n && prev[h + 1] / 4 < next.Length && next[h + 1] < prev.Length
      modifies next, prev
      ensures Words() == Unlinked(old(Words()), h + 1, 0, Tag(shift))
    {
      Unlink(h + 1);
      next[h + 1] := 0;
      prev[h + 1] := Tag(shift);
    }

    /** Hands out the first free chunk of page `h`, the first of its list. */
    method AllocChunk(h: nat, shift: nat) returns (c: nat)
      requires Sound() && h in layout.runs && layout.runs[h].Cut? && layout.runs[h].shift == shift && IsShift(shift)
      requires var l := layout.slots[shift - MIN_SHIFT]; l != [] && l[0] == h
      modifies this`layout, slab, next, prev, bits
      ensures Sound() && c < Count(shift) && c !in old(layout).runs[h].used && layout == Use(old(layout), h, c)
      ensures Untouched(old(layout), old(bits[..]), bits[..])
    {
      ghost var g, m := layout, Words();
      ghost var used := g.runs[h].used;
      FirstOfList(n, g, m, h);
      c := FirstFree(h, shift);
      UseRepresents(n, g, m, h, c);
      SetMark(h, shift, c);
      var full := IsBusy(h, shift, c);
      if full { Leave(h, shift); }
      BusyAfter(n, m, h, shift, used, c);
      UseKeeps(n, g, h, c);
      MarksUntouched(n, g, m, h, shift, c, MarkSet(m, h, shift, c));
      assert Words() == UseWords(n, m, h, shift, c, Full(shift, used + {c}));
      layout := Use(g, h, c);
    }

    /** Hands out a chunk of the first page of the list of its class; the result is an offset
        from the start of the pages. */
    method AllocSlot(shift: nat) returns (off: nat)
      requires Sound() && NoIdle(layout) && IsShift(shift) && layout.slots[shift - MIN_SHIFT] != []
      modifies this`layout, slab, next, prev, bits
      ensures Sound() && NoIdle(layout) && Gains(old(layout), layout, off, ChunkSize(shift))
      ensures layout.free == old(layout).free
      ensures Untouched(old(layout), old(bits[..]), bits[..])
    {
      ghost var g := layout;
      SlotFirst(n, g, Words(), shift - MIN_SHIFT, 0);
      var h := next[SlotHead(n, shift - MIN_SHIFT)] - 1;
      FirstPartial(n, g, h, shift);
      var c := AllocChunk(h, shift);
      UsedChunk(g, h, c);
      off := ChunkAt(h, shift, c);
    }

    /** Starts the map of page `h`. */
    method StartMap(h: nat, shift: nat)
      requires Shaped() && h < n && IsShift(shift)
      modifies slab, bits
      ensures slab[..] == old(slab[..])[h + 1 := if shift < EXACT_SHIFT then shift else FirstWord(shift)]
      ensures forall i: nat :: i < 8 * n && !(8 * h <= i < 8 * h + 8) ==> bits[i] == old(bits[i])
      ensures shift < EXACT_SHIFT ==> bits[8 * h] == FirstWord(shift)
      ensures shift < EXACT_SHIFT ==>
                forall i: nat :: 8 * h < i < 8 * h + Count(shift) / 64 && i < bits.Length ==> bits[i] == 0
    {
      Tables(shift);
      if shift < EXACT_SHIFT {
        bits[8 * h] := Pow2(Reserved(shift) + 1) - 1;
        var i := 1;
        while i < Count(shift) / 64
          invariant 1 <= i <= Count(shift) / 64 && bits[8 * h] == FirstWord(shift)
          invariant forall w: nat :: 8 * h < w < 8 * h + i ==> bits[w] == 0
          invariant forall w: nat :: w < 8 * n && !(8 * h <= w < 8 * h + 8) ==> bits[w] == old(bits[w])
          modifies bits
        {
          bits[8 * h + i] := 0;
          i := i + 1;
        }
        slab[h + 1] := shift;
      } else {
        slab[h + 1] := if shift == EXACT_SHIFT then 1 else Pow2(MAP_SHIFT) + shift;
      }
    }

    /** Cuts page `h` into chunks. */
    method CutPage(h: nat, shift: nat)
      requires Shaped() && h < n && IsShift(shift)
      modifies slab, next, prev, bits
      ensures OpenWords(n, old(Words()), h, shift, Words()) && OnlyPage(h, old(bits[..]), bits[..])
    {
      assert Count(shift) / 64 <= 8 by { Tables(shift); }
      StartMap(h, shift);
      StartList(h + 1, SlotHead(n, shift - MIN_SHIFT), Tag(shift));
    }

    /** The descriptor at `r` becomes the only entry of the list with head `s`. */
    method StartList(r: nat, s: nat, tag: nat)
      requires Shaped() && r < TableSize(n) && s < TableSize(n)
      modifies next, prev
      ensures next[..] == old(next[..])[r := s][s := r] && prev[..] == old(prev[..])[r := 4 * s + tag]
    {
      next[r] := s;
      prev[r] := 4 * s + tag;
      next[s] := r;
    }

    method CutHolding(h: nat, shift: nat, ghost g: Layout)
      requires Shaped() && Tiled(n, g) && Listed(g) && Represents(n, g, Words())
      requires IsShift(shift) && h < n && h in g.runs && g.runs[h] == Whole(1) && g.slots[shift - MIN_SHIFT] == []
      modifies slab, next, prev, bits
      ensures var g' := Open(g, h, shift); Tiled(n, g') && Listed(g') && Represents(n, g', Words())
      ensures OnlyPage(h, old(bits[..]), bits[..])
    {
      ghost var m := Words();
      CutPage(h, shift);
      OpenSound(n, g, m, h, shift, Words());
    }

    method OpenPage(h: nat, shift: nat)
      requires Sound() && IsShift(shift) && h in layout.runs && layout.runs[h] == Whole(1)
      requires layout.slots[shift - MIN_SHIFT] == []
      modifies this`layout, slab, next, prev, bits
      ensures Sound() && layout == Open(old(layout), h, shift)
      ensures OnlyPage(h, old(bits[..]), bits[..])
    {
      OwnRun(n, layout, h);
      CutHolding(h, shift, layout);
      layout := Open(layout, h, shift);
    }

    /** Takes a page for the class and hands out its first chunk. */
    method AllocFresh(shift: nat) returns (r: Option<nat>)
      requires Sound() && NoIdle(layout) && IsShift(shift) && layout.slots[shift - MIN_SHIFT] == []
      modifies this`layout, slab, next, prev, bits
      ensures Sound() && NoIdle(layout)
      ensures Untouched(old(layout), old(bits[..]), bits[..])
      ensures r.None? ==> layout == old(layout) && layout.free == []
      ensures r.Some? ==> old(layout).free != [] && Gains(old(layout), layout, r.value, ChunkSize(shift))
    {
      ghost var g := layout;
      FreeHasRun(n, g);
      var page, j := AllocPages(1);
      match page {
        case None =>
          r := None;
        case Some(h) =>
          OpenPage(h, shift);
          FreshUntouched(n, g, h, old(bits[..]), bits[..]);
          OpenedChunk(n, g, j, shift);
          r := Some(ChunkAt(h, shift, Reserved(shift)));
      }
    }

    // ----- the two entries

    /** The shift of the smallest chunks that hold `size` bytes. */
    method ShiftOf(size: nat) returns (shift: nat)
      requires Pow2(MIN_SHIFT) < size < MAX_SIZE
      ensures shift == ClassOf(size)
    {
      shift := 1;
      var s := (size - 1) / 2;
      while s != 0
        invariant shift > 0 && s == Shr(size - 1, shift) && Shr(size - 1, shift - 1) != 0
        decreases s
      {
        ShrNext(size - 1, shift);
        shift := shift + 1;
        s := s / 2;
      }
      ClassFound(size, shift);
    }

    method AllocWhole(pages: nat) returns (r: Option<nat>)
      requires Sound() && NoIdle(layout) && pages > 0
      modifies this`layout, slab, next, prev
      ensures Sound() && NoIdle(layout)
      ensures r.None? ==> layout == old(layout) && NoRun(layout, |layout.free|, pages)
      ensures r.Some? ==> HasRun(old(layout), pages) && Gains(old(layout), layout, r.value, PAGE_SIZE * pages)
    {
      ghost var g := layout;
      var page, j := AllocPages(pages);
      match page {
        case None =>
          r := None;
        case Some(h) =>
          TakeGains(n, g, j, pages);
          r := Some(PAGE_SIZE * h);
      }
    }

    method AllocClass(shift: nat) returns (r: Option<nat>)
      requires Sound() && NoIdle(layout) && IsShift(shift)
      modifies this`layout, slab, next, prev, bits
      ensures Sound() && NoIdle(layout)
      ensures Untouched(old(layout), old(bits[..]), bits[..])
      ensures r.None? ==> layout == old(layout) && layout.free == [] && layout.slots[shift - MIN_SHIFT] == []
      ensures r.Some? ==> Gains(old(layout), layout, r.value, ChunkSize(shift))
      ensures r.Some? && old(layout).slots[shift - MIN_SHIFT] == [] ==> old(layout).free != []
      ensures r.Some? && old(layout).slots[shift - MIN_SHIFT] != [] ==> layout.free == old(layout).free
    {
      SlotEmpty(n, layout, Words(), shift - MIN_SHIFT);
      var page := next[SlotHead(n, shift - MIN_SHIFT)];
      if next[page] != page {
        var off := AllocSlot(shift);
        r := Some(off);
      } else {
        r := AllocFresh(shift);
      }
    }

    method AllocPaged(size: nat) returns (r: Option<nat>)
      requires Sound() && NoIdle(layout) && size >= MAX_SIZE
      modifies this`layout, slab, next, prev
      ensures Sound() && NoIdle(layout)
      ensures r.Some? ==> Gains(old(layout), layout, r.value, Granted(size))
      ensures r.None? ==> layout == old(layout)
      ensures r.None? <==> Exhausted(old(layout), size)
    {
      PageCount(size);
      ghost var g := layout;
      r := AllocWhole(size / PAGE_SIZE + if size % PAGE_SIZE != 0 then 1 else 0);
      NoRunRuns(g, Pages(size));
    }

    method AllocSized(size: nat) returns (r: Option<nat>)
      requires Sound() && NoIdle(layout) && size < MAX_SIZE
      modifies this`layout, slab, next, prev, bits
      ensures Sound() && NoIdle(layout)
      ensures Untouched(old(layout), old(bits[..]), bits[..])
      ensures r.Some? ==> Gains(old(layout), layout, r.value, Granted(size))
      ensures r.None? ==> layout == old(layout)
      ensures r.None? <==> Exhausted(old(layout), size)
      ensures HasChunk(old(layout), ClassOf(size)) ==> layout.free == old(layout).free
    {
      ghost var g := layout;
      var shift := MIN_SHIFT;
      assert Pow2(MIN_SHIFT) == 8 by { Tables(MIN_SHIFT); }
      if size > Pow2(MIN_SHIFT) { shift := ShiftOf(size); }
      NoChunk(n, g, shift);
      r := AllocClass(shift);
    }

    /** `ngx_slab_alloc_locked`: one more region is live, of the size of the class or of whole
        pages; there is no result only if there is no room.  Pages are cut only when no cut page
        of the class has a free chunk. */
    method AllocLocked(size: nat) returns (r: Option<nat>)
      requires Valid()
      modifies this`layout, slab, next, prev, bits
      ensures Valid()
      ensures Untouched(old(layout), old(bits[..]), bits[..])
      ensures r.Some? ==> r.value >= start && Gains(old(layout), layout, r.value - start, Granted(size))
      ensures r.None? ==> layout == old(layout)
      ensures r.None? <==> Exhausted(old(layout), size)
      ensures size < MAX_SIZE && HasChunk(old(layout), ClassOf(size)) ==> layout.free == old(layout).free
    {
      var off;
      if size >= MAX_SIZE {
        off := AllocPaged(size);
      } else {
        off := AllocSized(size);
      }
      r := match off case None => None case Some(x) => Some(start + x);
    }
  }

  lemma PageCount(size: nat)
    requires size >= MAX_SIZE
    ensures Pages(size) == size / PAGE_SIZE + (if size % PAGE_SIZE != 0 then 1 else 0) && Pages(size) > 0
  {
  }

  /** The size class of a request below the maximum. */
  function ClassOf(size: nat): (shift: nat)
    ensures IsShift(shift)
  {
    if size <= 8 then 3 else if size <= 16 then 4 else if size <= 32 then 5
    else if size <= 64 then 6 else if size <= 128 then 7 else if size <= 256 then 8
    else if size <= 512 then 9 else if size <= 1024 then 10 else 11
  }

  function Pages(size: nat): nat {
    (size + PAGE_SIZE - 1) / PAGE_SIZE
  }

  /** The number of bytes handed out for a request. */
  function Granted(size: nat): nat {
    if size < MAX_SIZE then ChunkSize(ClassOf(size)) else PAGE_SIZE * Pages(size)
  }

  /** A request gets what it asks for, and no smaller class or run would do. */
  lemma GrantedFits(size: nat)
    ensures Granted(size) >= size
    ensures size < PAGE_SIZE / 2 ==>
              forall shift :: IsShift(shift) && ChunkSize(shift) >= size ==> ChunkSize(shift) >= Granted(size)
    ensures size >= PAGE_SIZE / 2 ==>
              Granted(size) % PAGE_SIZE == 0 &&
              forall k: nat :: PAGE_SIZE * k >= size ==> PAGE_SIZE * k >= Granted(size)
  {
    Tables(ClassOf(size));
    forall shift | IsShift(shift) && ChunkSize(shift) >= size && size < MAX_SIZE
      ensures ChunkSize(shift) >= Granted(size)
    {
      Tables(shift);
    }
  }

  lemma ClassFound(size: nat, shift: nat)
    requires 8 < size < MAX_SIZE && shift > 0 && Shr(size - 1, shift) == 0 && Shr(size - 1, shift - 1) != 0
    ensures shift == ClassOf(size)
  {
    ShrZero(size - 1, shift);
    ShrZero(size - 1, shift - 1);
    if shift < ClassOf(size) { Pow2Grows(shift, ClassOf(size) - 1); }
    if shift > ClassOf(size) { Pow2Grows(ClassOf(size), shift - 1); }
    Tables(ClassOf(size));
    if ClassOf(size) > MIN_SHIFT { Tables(ClassOf(size) - 1); }
  }

  ghost predicate HasRun(g: Layout, pages: nat) {
    exists h :: h in g.runs && g.runs[h].Free? && g.runs[h].len >= pages
  }

  ghost predicate HasChunk(g: Layout, shift: nat) {
    exists h :: h in g.runs && Partial(g.runs[h], shift)
  }

  /** No free run is long enough; for a chunk: there is no free page and no free chunk of the class. */
  ghost predicate Exhausted(g: Layout, size: nat) {
    if size >= MAX_SIZE then !HasRun(g, Pages(size)) else !HasRun(g, 1) && !HasChunk(g, ClassOf(size))
  }

  lemma SlotEmpty(n: nat, g: Layout, m: Memory, k: nat)
    requires Listed(g) && Represents(n, g, m) && k < SLOTS
    ensures var p := m.next[SlotHead(n, k)]; p < TableSize(n) && (m.next[p] == p <==> g.slots[k] == [])
  {
    var l := g.slots[k];
    SlotFirst(n, g, m, k, 0);
    SlotChain(n, g, m, k);
    if l != [] {
      assert Entry(m.next, m.prev, l, SlotHead(n, k), Tag(k + MIN_SHIFT), 0);
      assert |l| > 1 ==> l[0] != l[1];
      assert l[0] in l;
    }
  }

  lemma NoRunRuns(g: Layout, pages: nat)
    requires Listed(g)
    ensures NoRun(g, |g.free|, pages) ==> !HasRun(g, pages)
  {
    if NoRun(g, |g.free|, pages) {
      forall h | h in g.runs && g.runs[h].Free? ensures g.runs[h].len < pages {
        assert h in g.free;
        var i :| 0 <= i < |g.free| && g.free[i] == h;
        assert g.free[i] in g.runs;
      }
    }
  }

  lemma NoChunk(n: nat, g: Layout, shift: nat)
    requires Tiled(n, g) && Listed(g) && IsShift(shift)
    ensures HasChunk(g, shift) <==> g.slots[shift - MIN_SHIFT] != []
    ensures HasRun(g, 1) <==> g.free != []
  {
    var l := g.slots[shift - MIN_SHIFT];
    if l != [] { FirstPartial(n, g, l[0], shift); }
    if HasChunk(g, shift) {
      var h :| h in g.runs && Partial(g.runs[h], shift);
      assert h in g.slots[shift - MIN_SHIFT];
    }
    if g.free != [] { assert g.free[0] in g.free && GoodRun(g.runs[g.free[0]]); }
  }

  lemma FirstPartial(n: nat, g: Layout, h: nat, shift: nat)
    requires Tiled(n, g) && Listed(g) && IsShift(shift)
    requires g.slots[shift - MIN_SHIFT] != [] && g.slots[shift - MIN_SHIFT][0] == h
    ensures h in g.runs && Partial(g.runs[h], shift) && GoodRun(g.runs[h])
  {
    assert h in g.slots[shift - MIN_SHIFT];
  }

  lemma UsedChunk(g: Layout, h: nat, c: nat)
    requires NoIdle(g) && |g.slots| == SLOTS && h in g.runs && g.runs[h].Cut? && GoodRun(g.runs[h])
    requires c < Count(g.runs[h].shift) && c !in g.runs[h].used && g.slots[g.runs[h].shift - MIN_SHIFT] != []
    ensures NoIdle(Use(g, h, c))
    ensures Gains(g, Use(g, h, c), ChunkAt(h, g.runs[h].shift, c), ChunkSize(g.runs[h].shift))
  {
    UseGains(g, h, c);
    UseNoIdle(g, h, c);
  }

  lemma UseNoIdle(g: Layout, h: nat, c: nat)
    requires NoIdle(g) && |g.slots| == SLOTS && h in g.runs && g.runs[h].Cut? && IsShift(g.runs[h].shift)
    requires c >= Reserved(g.runs[h].shift) && g.slots[g.runs[h].shift - MIN_SHIFT] != []
    ensures NoIdle(Use(g, h, c))
  {
  }

  lemma TakeOpenNoIdle(g: Layout, j: nat, shift: nat)
    requires NoIdle(g) && |g.slots| == SLOTS && j < |g.free| && IsShift(shift) && Fits(g, j, 1)
    ensures NoIdle(Open(Take(g, j, 1), g.free[j], shift))
  {
    var g' := Open(Take(g, j, 1), g.free[j], shift);
    forall h | h in g'.runs && g'.runs[h].Cut? && IsShift(g'.runs[h].shift)
      ensures !Idle(g'.runs[h].shift, g'.runs[h].used)
    {
      if h == g.free[j] { assert Reserved(shift) in Upto(Reserved(shift)); }
    }
  }

  lemma OpenedChunk(n: nat, g: Layout, j: nat, shift: nat)
    requires Tiled(n, g) && NoIdle(g) && |g.slots| == SLOTS && j < |g.free| && IsShift(shift) && Fits(g, j, 1)
    ensures NoIdle(Open(Take(g, j, 1), g.free[j], shift))
    ensures var h := g.free[j];
      Gains(g, Open(Take(g, j, 1), h, shift), ChunkAt(h, shift, Reserved(shift)), ChunkSize(shift))
  {
    OpenGains(n, g, j, shift);
    TakeOpenNoIdle(g, j, shift);
  }

  lemma FreeHasRun(n: nat, g: Layout)
    requires Tiled(n, g) && Listed(g)
    ensures g.free != [] ==> !NoRun(g, |g.free|, 1)
  {
    if g.free != [] {
      var h := g.free[0];
      assert h in g.free && GoodRun(g.runs[h]);
    }
  }

  /** The first page of a slot list has a free chunk. */
  lemma FirstOfList(n: nat, g: Layout, m: Memory, h: nat)
    requires Listed(g) && Represents(n, g, m) && h in g.runs && g.runs[h].Cut? && IsShift(g.runs[h].shift)
    requires var l := g.slots[g.runs[h].shift - MIN_SHIFT]; l != [] && l[0] == h
    ensures h < n && Encoded(m, h, g.runs[h]) && GoodWords(m, h, g.runs[h].shift) && !BusyMap(m, h, g.runs[h].shift)
  {
    var shift := g.runs[h].shift;
    assert h in g.slots[shift - MIN_SHIFT];
    FullTest(m, h, shift, g.runs[h].used);
  }

  /** The map is busy after chunk `c` has been marked iff that was the last free chunk. */
  lemma BusyAfter(n: nat, m: Memory, h: nat, shift: nat, used: set<nat>, c: nat)
    requires Sized(n, m) && h < n && Encoded(m, h, Cut(shift, used)) && c < Count(shift) && !BusyMap(m, h, shift)
    ensures BusyMap(MarkSet(m, h, shift, c), h, shift) <==> Full(shift, used + {c})
  {
    var a := MarkSet(m, h, shift, c);
    SetKeepsWords(m, h, shift, c);
    var v := a.(next := a.next[h + 1 := 0], prev := a.prev[h + 1 := Tag(shift)]);
    forall d: nat | d < Count(shift) ensures Marked(v, h, shift, d) <==> d in used + {c} {
      MarkedAfterSet(m, h, shift, c, d);
      assert Marked(v, h, shift, d) == Marked(a, h, shift, d);
    }
    FullTest(v, h, shift, used + {c});
  }

  /** The tag in `prev` and the low bits of the descriptor word tell what a run is. */
  lemma DecodeRun(n: nat, g: Layout, m: Memory, h: nat)
    requires Listed(g) && Represents(n, g, m) && h in g.runs && GoodRun(g.runs[h])
    ensures h < n
    ensures g.runs[h].Whole? ==> m.prev[h + 1] % 4 == TAG_PAGE
    ensures g.runs[h].Cut? ==>
      && m.prev[h + 1] % 4 == Tag(g.runs[h].shift)
      && g.runs[h].shift == if Tag(g.runs[h].shift) == TAG_EXACT then EXACT_SHIFT else m.slab[h + 1] % 16
  {
    assert Encoded(m, h, g.runs[h]);
    if g.runs[h].Cut? {
      var shift := g.runs[h].shift;
      Tables(shift);
      if !Full(shift, g.runs[h].used) { SlotTag(n, g, m, h); }
    }
  }

  lemma SlotTag(n: nat, g: Layout, m: Memory, h: nat)
    requires Listed(g) && Represents(n, g, m) && h in g.runs && g.runs[h].Cut? && IsShift(g.runs[h].shift)
    requires !Full(g.runs[h].shift, g.runs[h].used)
    ensures h < n && m.prev[h + 1] % 4 == Tag(g.runs[h].shift)
  {
    var k := g.runs[h].shift - MIN_SHIFT;
    assert h in g.slots[k];
    var j :| 0 <= j < |g.slots[k]| && g.slots[k][j] == h;
    SlotChain(n, g, m, k);
    assert Entry(m.next, m.prev, g.slots[k], SlotHead(n, k), Tag(k + MIN_SHIFT), j);
    Tagged(Pred(g.slots[k], SlotHead(n, k), j), Tag(g.runs[h].shift));
  }

  /** The tag of any page: only cut pages have another than that of whole pages. */
  lemma DecodePage(n: nat, g: Layout, m: Memory, x: nat)
    requires Tiled(n, g) && Listed(g) && Represents(n, g, m) && x < n
    ensures m.prev[x + 1] % 4 == TAG_PAGE <==> !(x in g.runs && g.runs[x].Cut?)
    ensures x in g.runs && g.runs[x].Cut? ==>
      g.runs[x].shift == if m.prev[x + 1] % 4 == TAG_EXACT then EXACT_SHIFT else m.slab[x + 1] % 16
    ensures x in g.runs && g.runs[x].Cut? ==>
      m.prev[x + 1] % 4 == if g.runs[x].shift < 6 then 3 else if g.runs[x].shift == 6 then 2 else 1
  {
    if x in g.runs && g.runs[x].Free? {
      assert x in g.free;
      var j :| 0 <= j < |g.free| && g.free[j] == x;
      FreeTag(n, g, m, j);
    } else if x in g.runs {
      assert GoodRun(g.runs[x]);
      DecodeRun(n, g, m, x);
    } else {
      assert Body(m, x, BodyWord(g.runs[g.owner[x]].Free?));
    }
  }

  /** The descriptor word of a page of no chunks: first of a run of whole pages, behind the first
      of such a run, or behind the first of a free run. */
  lemma WholeWord(n: nat, g: Layout, m: Memory, x: nat)
    requires Tiled(n, g) && Represents(n, g, m) && x < n && n <= MAX_PAGES && (x in g.runs ==> g.runs[x].Whole?)
    ensures x in g.runs ==>
      && m.slab[x + 1] % PAGE_START == g.runs[x].len && m.slab[x + 1] != 0 && m.slab[x + 1] != SLAB_BUSY
      && m.slab[x + 1] == Pow2(63) + g.runs[x].len
    ensures x !in g.runs ==>
      g.owner[x] in g.runs && m.slab[x + 1] == if g.runs[g.owner[x]].Free? then 0 else SLAB_BUSY
  {
    if x in g.runs {
      assert Encoded(m, x, g.runs[x]) && GoodRun(g.runs[x]) && x + g.runs[x].len <= n;
      WordPowers();
    } else {
      assert Body(m, x, BodyWord(g.runs[g.owner[x]].Free?));
    }
  }

  /** A pointer into the pages whose state the allocator can tell: not the start of a free run,
      not a chunk of the map of a cut page. */
  ghost predicate Recognised(g: Layout, off: nat) {
    var x := off / PAGE_SIZE;
    && x < |g.owner|
    && (x in g.runs ==>
          match g.runs[x]
          case Free(_) => off % PAGE_SIZE != 0
          case Whole(_) => true
          case Cut(shift, _) =>
            && IsShift(shift)
            && (off % PAGE_SIZE % ChunkSize(shift) == 0 ==> off % PAGE_SIZE / ChunkSize(shift) >= Reserved(shift)))
  }

  /** What freeing such a pointer should answer. */
  ghost function Verdict(g: Layout, off: nat): Outcome
    requires Recognised(g, off)
  {
    var x, at := off / PAGE_SIZE, off % PAGE_SIZE;
    if x in g.runs && g.runs[x].Cut? then
      if at % ChunkSize(g.runs[x].shift) != 0 then WrongChunk
      else if at / ChunkSize(g.runs[x].shift) in g.runs[x].used then Done
      else AlreadyFree
    else if at != 0 then WrongChunk
    else if x in g.runs then Done
    else if g.owner[x] in g.runs && g.runs[g.owner[x]].Free? then PageFree
    else WrongPage
  }

  /** Exactly the live pointers are freed. */
  lemma DoneIffLive(g: Layout, off: nat)
    requires Recognised(g, off)
    ensures Verdict(g, off).Done? <==> IsLive(g, off)
  {
    var x := off / PAGE_SIZE;
    if Verdict(g, off).Done? {
      assert Live(g, off, if g.runs[x].Cut? then ChunkSize(g.runs[x].shift) else PAGE_SIZE * Len(g.runs[x]));
    }
  }

  ghost predicate IsLive(g: Layout, off: nat) {
    exists size: nat :: Live(g, off, size)
  }

  lemma BusyBit(w: nat, b: nat)
    requires w == SLAB_BUSY && b < 64
    ensures Bit(w, b)
  {
    WordPowers();
    OnesBits(64, b);
  }

  lemma PageOffset(p: nat, start: nat)
    requires start % PAGE_SIZE == 0 && p >= start
    ensures p % PAGE_SIZE == (p - start) % PAGE_SIZE
  {
  }

  lemma ModMod(x: nat, s: nat, c: nat)
    requires s > 0 && s * c == PAGE_SIZE
    ensures x % s == x % PAGE_SIZE % s && x % PAGE_SIZE / s < c
  {
    var q, r := x / PAGE_SIZE, x % PAGE_SIZE;
    var u, t := r / s, r % s;
    assert x == s * (c * q + u) + t by { assert s * (c * q) == (s * c) * q; }
    DivMod(x, s, c * q + u, t);
    assert u >= c ==> s * u >= s * c;
  }

  lemma ChunkAligned(x: nat, shift: nat)
    requires IsShift(shift)
    ensures x % ChunkSize(shift) == x % PAGE_SIZE % ChunkSize(shift)
    ensures x % PAGE_SIZE / ChunkSize(shift) < Count(shift)
  {
    assert ChunkSize(shift) * Count(shift) == PAGE_SIZE by { Tables(shift); }
    ModMod(x, ChunkSize(shift), Count(shift));
  }

  lemma Offset(p: nat, start: nat, h: nat, shift: nat)
    requires start % PAGE_SIZE == 0 && p >= start && h == (p - start) / PAGE_SIZE && IsShift(shift)
    ensures p % PAGE_SIZE == (p - start) % PAGE_SIZE
    ensures p % ChunkSize(shift) == (p - start) % PAGE_SIZE % ChunkSize(shift)
    ensures p % PAGE_SIZE / ChunkSize(shift) < Count(shift)
    ensures p % ChunkSize(shift) == 0 ==> p - start == ChunkAt(h, shift, p % PAGE_SIZE / ChunkSize(shift))
  {
    PageOffset(p, start);
    ChunkAligned(p, shift);
    ChunkStart(p - start, h, shift, p % PAGE_SIZE);
  }

  lemma ChunkStart(a: nat, h: nat, shift: nat, at: nat)
    requires IsShift(shift) && h == a / PAGE_SIZE && at == a % PAGE_SIZE && at / ChunkSize(shift) < Count(shift)
    ensures at % ChunkSize(shift) == 0 ==> a == ChunkAt(h, shift, at / ChunkSize(shift))
  {
    ChunkOffsets(h, shift, at / ChunkSize(shift), a);
  }

  /** The layout after a chunk has come back. */
  ghost function Freed(g: Layout, h: nat, c: nat, j: nat): Layout
    requires |g.slots| == SLOTS && h in g.runs && g.runs[h].Cut? && IsShift(g.runs[h].shift)
    requires j < |Drop(g, h, c).slots[g.runs[h].shift - MIN_SHIFT]|
  {
    var d := Drop(g, h, c);
    if Idle(d.runs[h].shift, d.runs[h].used) then Release(Detach(d, h, j), h) else d
  }

  lemma FreedChunk(g: Layout, h: nat, c: nat, j: nat)
    requires NoIdle(g) && |g.slots| == SLOTS && h in g.runs && g.runs[h].Cut? && IsShift(g.runs[h].shift)
    requires c < Count(g.runs[h].shift) && c in g.runs[h].used && c >= Reserved(g.runs[h].shift)
    requires j < |Drop(g, h, c).slots[g.runs[h].shift - MIN_SHIFT]|
    ensures NoIdle(Freed(g, h, c, j))
    ensures Loses(g, Freed(g, h, c, j), ChunkAt(h, g.runs[h].shift, c), ChunkSize(g.runs[h].shift))
  {
    var d := Drop(g, h, c);
    DropLoses(g, h, c);
    if Idle(d.runs[h].shift, d.runs[h].used) {
      RetireSame(d, h, j);
      RetireNoIdle(g, d, h, j);
    } else {
      DropNoIdle(g, h, c);
    }
  }

  /** How a full page shows: it is in no list, and its map is busy. */
  lemma FullSigns(n: nat, g: Layout, m: Memory, h: nat)
    requires Listed(g) && Represents(n, g, m) && h in g.runs && g.runs[h].Cut? && IsShift(g.runs[h].shift)
    ensures h < n && (m.next[h + 1] == 0 <==> Full(g.runs[h].shift, g.runs[h].used))
    ensures g.runs[h].shift == EXACT_SHIFT ==> (m.slab[h + 1] == SLAB_BUSY <==> Full(g.runs[h].shift, g.runs[h].used))
  {
    var shift, used := g.runs[h].shift, g.runs[h].used;
    assert Encoded(m, h, g.runs[h]);
    FullTest(m, h, shift, used);
    if !Full(shift, used) {
      var k := shift - MIN_SHIFT;
      assert h in g.slots[k];
      var j :| 0 <= j < |g.slots[k]| && g.slots[k][j] == h;
      SlotLinks(n, g, m, k, j, h);
    }
  }

  /** After a chunk has come back its page is in its slot list. */
  ghost function IndexInSlot(g: Layout, h: nat, c: nat): (j: nat)
    requires Listed(g) && h in g.runs && g.runs[h].Cut? && IsShift(g.runs[h].shift) && c < Count(g.runs[h].shift)
    ensures var l := Drop(g, h, c).slots[g.runs[h].shift - MIN_SHIFT]; j < |l| && l[j] == h
  {
    var k := g.runs[h].shift - MIN_SHIFT;
    if Full(g.runs[h].shift, g.runs[h].used) then 0
    else
      assert h in g.slots[k];
      var j :| 0 <= j < |g.slots[k]| && g.slots[k][j] == h;
      j
  }

  lemma DropNoIdle(g: Layout, h: nat, c: nat)
    requires NoIdle(g) && |g.slots| == SLOTS && h in g.runs && g.runs[h].Cut? && IsShift(g.runs[h].shift)
    requires !Idle(g.runs[h].shift, g.runs[h].used - {c})
    ensures NoIdle(Drop(g, h, c))
  {
  }

  lemma RetireNoIdle(g: Layout, d: Layout, h: nat, j: nat)
    requires NoIdle(g) && |d.slots| == SLOTS && h in d.runs && d.runs[h].Cut? && IsShift(d.runs[h].shift)
    requires d.runs == g.runs[h := d.runs[h]] && j < |d.slots[d.runs[h].shift - MIN_SHIFT]|
    ensures NoIdle(Release(Detach(d, h, j), h))
  {
  }

  lemma BodiesStay(n: nat, m: Memory, m': Memory, h: nat, k: nat, word: nat)
    requires Sized(n, m) && Sized(n, m') && Bodies(n, m, h, k, word) && m'.slab == m.slab
    requires forall p :: h + 1 < p <= h + k && p < TableSize(n) ==> m'.next[p] == m.next[p] && m'.prev[p] == m.prev[p]
    ensures Bodies(n, m', h, k, word)
  {
    forall x: nat | h < x < h + k && x < n ensures Body(m', x, word) { assert Body(m, x, word); }
  }

  /** The first free page is none of another run. */
  lemma FreeFirstApart(n: nat, g: Layout, m: Memory, h: nat)
    requires Tiled(n, g) && Listed(g) && Represents(n, g, m) && h in g.runs && !g.runs[h].Free?
    ensures h + Len(g.runs[h]) <= n && !(h + 1 <= m.next[FreeHead(n)] <= h + Len(g.runs[h]))
  {
    FreeFirst(n, g, m, h);
    var p := m.next[FreeHead(n)];
    if p != FreeHead(n) { ApartFrom(n, g, h, p - 1); }
  }

  /** The words written by `ngx_slab_free_pages`. */
  ghost function FreeWords(n: nat, m: Memory, h: nat, pages: nat): Memory
    requires Sized(n, m) && h < n && m.next[FreeHead(n)] < TableSize(n)
    requires m.next[h + 1] != 0 ==> m.prev[h + 1] / 4 <= FreeHead(n) - 1 && m.next[h + 1] <= FreeHead(n) - 1
  {
    if m.next[h + 1] != 0 then PushWords(n, DetachWords(n, m, h), h, pages) else PushWords(n, m, h, pages)
  }

  /** The neighbours of a cut page are pages or the head of a slot list. */
  lemma CutLinks(n: nat, g: Layout, m: Memory, h: nat, j: nat)
    requires Listed(g) && Represents(n, g, m) && h in g.runs && g.runs[h].Cut? && IsShift(g.runs[h].shift)
    requires var l := g.slots[g.runs[h].shift - MIN_SHIFT]; j < |l| && l[j] == h
    ensures h < n && 0 < m.next[h + 1] <= FreeHead(n) - 1 && m.prev[h + 1] / 4 <= FreeHead(n) - 1
  {
    var k := g.runs[h].shift - MIN_SHIFT;
    SlotLinks(n, g, m, k, j, h);
    forall x | x in g.slots[k] ensures x < n {}
    assert forall p :: p in SlotSide(n, g, k, h) ==> p <= FreeHead(n) - 1;
  }

  /** All pages form one free run. */
  ghost function FreshLayout(n: nat): Layout {
    Layout(map[0 := Free(n)], seq(n, i => 0), [0], seq(SLOTS, k => []))
  }

  /** Where the pages begin: at the first page boundary behind the slots and the descriptors. */
  function PagesStart(p: nat, e: nat): nat
    requires p <= e
  {
    var pages := (e - p) / (PAGE_SIZE + DESCRIPTOR);
    (p + SLOTS * DESCRIPTOR + pages * DESCRIPTOR + PAGE_SIZE - 1) / PAGE_SIZE * PAGE_SIZE
  }

  /** The pages and their descriptors fit between the slot table and the end of the zone. */
  lemma PagesFit(p: nat, e: nat, pages: nat, s: nat)
    requires p <= e && s == PagesStart(p, e) && s + PAGE_SIZE <= e
    requires pages == (e - p) / (PAGE_SIZE + DESCRIPTOR)
    ensures s % PAGE_SIZE == 0 && p + SLOTS * DESCRIPTOR + pages * DESCRIPTOR <= s
    ensures 0 < (e - s) / PAGE_SIZE <= pages
  {
  }

  /** That is the first page boundary with room in front of it for the slot table and a descriptor
      for each of the most pages that, with their descriptors, fit into the zone. */
  lemma StartIsFirst(p: nat, e: nat, most: nat, b: nat)
    requires p <= e && (PAGE_SIZE + DESCRIPTOR) * most <= e - p < (PAGE_SIZE + DESCRIPTOR) * (most + 1)
    requires b % PAGE_SIZE == 0
    ensures PagesStart(p, e) % PAGE_SIZE == 0
    ensures PagesStart(p, e) <= b <==> p + DESCRIPTOR * (SLOTS + most) <= b
  {
    assert (e - p) / (PAGE_SIZE + DESCRIPTOR) == most;
  }

  /** In a zone that ends at a page boundary no more pages fit behind their descriptors: not `k`
      pages from the page boundary `b` on.  Elsewhere at most one more does. */
  lemma AsManyAsFit(p: nat, e: nat, b: nat, k: nat)
    requires p <= e && PagesStart(p, e) + PAGE_SIZE <= e && b % PAGE_SIZE == 0
    requires p + DESCRIPTOR * (SLOTS + k) <= b && b + PAGE_SIZE * k <= e
    ensures k <= (e - PagesStart(p, e)) / PAGE_SIZE + if e % PAGE_SIZE == 0 then 0 else 1
  {
    var s := PagesStart(p, e);
    StartIsFirst(p, e, (e - p) / (PAGE_SIZE + DESCRIPTOR), s);
    StartIsFirst(p, e, (e - p) / (PAGE_SIZE + DESCRIPTOR), s - PAGE_SIZE);
  }

  /** And one more sometimes does. */
  lemma OneMoreFits()
    ensures (667440 - PagesStart(0, 667440)) / PAGE_SIZE == 160
    ensures DESCRIPTOR * (SLOTS + 161) <= PAGE_SIZE && PAGE_SIZE + PAGE_SIZE * 161 <= 667440
  {
  }

  /** A zone of eight pages, the least that the configuration accepts, has room for one. */
  lemma EnoughRoom(p: nat, e: nat)
    requires p + 7 * PAGE_SIZE <= e
    ensures PagesStart(p, e) + PAGE_SIZE <= e
  {
  }

  lemma FreshKeeps(n: nat)
    requires n > 0
    ensures Tiled(n, FreshLayout(n)) && Listed(FreshLayout(n)) && NoIdle(FreshLayout(n))
  {
  }

  lemma FreshRepresents(n: nat, m: Memory)
    requires n > 0 && Sized(n, m) && Bodies(n, m, 0, n, 0)
    requires forall k: nat :: k < SLOTS ==> m.next[SlotHead(n, k)] == SlotHead(n, k)
    requires m.next[FreeHead(n)] == 1 && m.slab[1] == n
    requires m.next[1] == FreeHead(n) && m.prev[1] == 4 * FreeHead(n) + TAG_PAGE
    ensures Represents(n, FreshLayout(n), m)
  {
    var g := FreshLayout(n);
    assert Entry(m.next, m.prev, g.free, FreeHead(n), TAG_PAGE, 0);
  }

  lemma NothingLive(n: nat)
    ensures forall off: nat :: !IsLive(FreshLayout(n), off)
  {
  }

  /** The run at index `j` of the free list has at least `pages` pages. */
  ghost predicate Fits(g: Layout, j: nat, pages: nat)
    requires j < |g.free|
  {
    pages > 0 && g.free[j] in g.runs && g.runs[g.free[j]].Free? && g.runs[g.free[j]].len >= pages
  }

  /** The first `j` free runs are too short. */
  ghost predicate NoRun(g: Layout, j: nat, pages: nat)
    requires j <= |g.free|
  {
    forall i: nat {:trigger g.free[i]} :: i < j ==> g.free[i] in g.runs && Len(g.runs[g.free[i]]) < pages
  }

  lemma Tagged(x: nat, t: nat)
    requires t < 4
    ensures (4 * x + t) / 4 == x && (4 * x + t) % 4 == t
  {
  }

  /** What the search over the free runs reads. */
  lemma RunAt(n: nat, g: Layout, m: Memory, j: nat)
    requires Tiled(n, g) && Listed(g) && Represents(n, g, m) && j < |g.free|
    ensures var h := g.free[j];
      && h < n && h in g.runs && g.runs[h].Free? && m.slab[h + 1] == g.runs[h].len
      && m.next[h + 1] == if j + 1 < |g.free| then g.free[j + 1] + 1 else FreeHead(n)
  {
    TakeLinks(n, g, m, j);
  }

  lemma FreeBounds(n: nat, g: Layout, m: Memory)
    requires Listed(g) && Represents(n, g, m)
    ensures forall j: nat {:trigger g.free[j]} :: j < |g.free| ==> g.free[j] < n
  {
    forall j: nat | j < |g.free| ensures g.free[j] < n { assert g.free[j] in g.free; }
  }

  lemma FreeTag(n: nat, g: Layout, m: Memory, j: nat)
    requires Listed(g) && Represents(n, g, m) && j < |g.free|
    ensures g.free[j] < n && m.prev[g.free[j] + 1] % 4 == TAG_PAGE
  {
    assert g.free[j] in g.free;
    assert Entry(m.next, m.prev, g.free, FreeHead(n), TAG_PAGE, j);
    Tagged(Pred(g.free, FreeHead(n), j), TAG_PAGE);
  }
}
