/** What a slab pool means: which pages form which run, and which chunks of a cut page are
    in use.  The constants are those of a 64-bit machine with pages of 4096 bytes and the
    `min_shift` of 3 that the cycle sets up. */
module SlabLayout {
  import opened Bits
  import opened SlabLists

  const PAGE_SHIFT := 12
  const PAGE_SIZE := 4096
  const MIN_SHIFT := 3
  const EXACT_SHIFT := 6
  const MAX_SIZE := 2048
  const SLOTS := 9
  const MAP_SHIFT := 32

  const WORD := 0x1_0000_0000_0000_0000
  const SLAB_BUSY := 0xffff_ffff_ffff_ffff
  const PAGE_START := 0x8000_0000_0000_0000

  // NGX_SLAB_PAGE, _BIG, _EXACT and _SMALL, kept in the low bits of `prev`
  const TAG_PAGE := 0
  const TAG_BIG := 1
  const TAG_EXACT := 2
  const TAG_SMALL := 3

  /** The size classes: chunks of 8 to 2048 bytes. */
  predicate IsShift(shift: nat) {
    MIN_SHIFT <= shift < PAGE_SHIFT
  }

  function ChunkSize(shift: nat): nat {
    Pow2(shift)
  }

  function Count(shift: nat): nat
    requires shift <= PAGE_SHIFT
  {
    Pow2(PAGE_SHIFT - shift)
  }

  function Tag(shift: nat): nat {
    if shift < EXACT_SHIFT then TAG_SMALL else if shift == EXACT_SHIFT then TAG_EXACT else TAG_BIG
  }

  /** The chunks at the start of a page that its own bitmap occupies. */
  function Reserved(shift: nat): nat
    requires IsShift(shift)
  {
    if shift < EXACT_SHIFT then
      var n := Count(shift) / 8 / ChunkSize(shift);
      if n == 0 then 1 else n
    else 0
  }

  lemma Tables(shift: nat)
    requires IsShift(shift)
    ensures shift == 3 ==> Count(shift) == 512 && ChunkSize(shift) == 8 && Reserved(shift) == 8
    ensures shift == 4 ==> Count(shift) == 256 && ChunkSize(shift) == 16 && Reserved(shift) == 2
    ensures shift == 5 ==> Count(shift) == 128 && ChunkSize(shift) == 32 && Reserved(shift) == 1
    ensures shift == 6 ==> Count(shift) == 64 && ChunkSize(shift) == 64
    ensures shift == 7 ==> Count(shift) == 32 && ChunkSize(shift) == 128
    ensures shift == 8 ==> Count(shift) == 16 && ChunkSize(shift) == 256
    ensures shift == 9 ==> Count(shift) == 8 && ChunkSize(shift) == 512
    ensures shift == 10 ==> Count(shift) == 4 && ChunkSize(shift) == 1024
    ensures shift == 11 ==> Count(shift) == 2 && ChunkSize(shift) == 2048
  {
    assert Pow2(3) == 8 && Pow2(4) == 16 && Pow2(5) == 32 && Pow2(6) == 64;
    assert Pow2(7) == 128 && Pow2(8) == 256 && Pow2(9) == 512;
    assert Pow2(1) == 2 && Pow2(2) == 4 && Pow2(10) == 1024 && Pow2(11) == 2048;
  }

  /** A run of pages: free, handed out as a whole, or one page cut into chunks. */
  datatype Run = Free(len: nat) | Whole(len: nat) | Cut(shift: nat, used: set<nat>)

  function Len(r: Run): nat {
    if r.Cut? then 1 else r.len
  }

  /** `runs` by first page, the run each page belongs to, the list of free runs and, for
      each size class, the list of pages with a free chunk. */
  datatype Layout = Layout(runs: map<nat, Run>, owner: seq<nat>, free: seq<nat>, slots: seq<seq<nat>>)

  ghost predicate Full(shift: nat, used: set<nat>)
    requires shift <= PAGE_SHIFT
  {
    forall c :: 0 <= c < Count(shift) ==> c in used
  }

  /** A cut page knows its class and keeps its bitmap to itself. */
  ghost predicate GoodRun(r: Run) {
    match r
    case Free(len) => len > 0
    case Whole(len) => len > 0
    case Cut(shift, used) =>
      && IsShift(shift)
      && (forall c :: c in used ==> c < Count(shift))
      && (forall c :: 0 <= c < Reserved(shift) ==> c in used)
  }

  /** No chunk beyond the bitmap is in use. */
  ghost predicate Idle(shift: nat, used: set<nat>)
    requires IsShift(shift)
  {
    forall c :: c in used ==> c < Reserved(shift)
  }

  /** Cut pages are in use: idle ones go back to the free pages. */
  ghost predicate NoIdle(g: Layout) {
    forall h :: h in g.runs && g.runs[h].Cut? && IsShift(g.runs[h].shift) ==> !Idle(g.runs[h].shift, g.runs[h].used)
  }

  /** Every page belongs to exactly one run. */
  ghost predicate Tiled(n: nat, g: Layout) {
    && |g.owner| == n
    && (forall h :: h in g.runs ==> GoodRun(g.runs[h]) && h + Len(g.runs[h]) <= n)
    && (forall j :: 0 <= j < n ==> g.owner[j] in g.runs && g.owner[j] <= j < g.owner[j] + Len(g.runs[g.owner[j]]))
    && (forall h, j :: h in g.runs && h <= j < h + Len(g.runs[h]) ==> g.owner[j] == h)
  }

  ghost predicate Partial(r: Run, shift: nat) {
    r.Cut? && r.shift == shift && IsShift(shift) && !Full(shift, r.used)
  }

  /** The free list holds the free runs, and each slot list the pages of its class that still
      have a free chunk: neither more nor less. */
  ghost predicate Listed(g: Layout) {
    && Distinct(g.free) && (forall h :: h in g.free <==> h in g.runs && g.runs[h].Free?)
    && |g.slots| == SLOTS
    && forall k :: 0 <= k < SLOTS ==>
         Distinct(g.slots[k]) && forall h :: h in g.slots[k] <==> h in g.runs && Partial(g.runs[h], k + MIN_SHIFT)
  }

  // ----- the regions handed out

  /** The region of `size` bytes at offset `off` of the page area is in the hands of a caller. */
  ghost predicate Live(g: Layout, off: nat, size: nat) {
    var h := off / PAGE_SIZE;
    h in g.runs &&
    match g.runs[h]
    case Free(_) => false
    case Whole(len) => off == PAGE_SIZE * h && size == PAGE_SIZE * len
    case Cut(shift, used) => IsShift(shift) && size == ChunkSize(shift) && LiveChunk(shift, used, off % PAGE_SIZE)
  }

  ghost predicate LiveChunk(shift: nat, used: set<nat>, at: nat)
    requires IsShift(shift)
  {
    at % ChunkSize(shift) == 0 && at / ChunkSize(shift) in used && at / ChunkSize(shift) >= Reserved(shift)
  }

  /** Two regions handed out never overlap, nor does one reach beyond the pages. */
  lemma LiveRegions(n: nat, g: Layout, a: nat, s: nat, b: nat, t: nat)
    requires Tiled(n, g) && Live(g, a, s) && Live(g, b, t)
    ensures s > 0 && a + s <= PAGE_SIZE * n
    ensures a == b ==> s == t
    ensures a < b ==> a + s <= b
  {
    LiveSpan(n, g, a, s);
    LiveSpan(n, g, b, t);
    var h, k := a / PAGE_SIZE, b / PAGE_SIZE;
    if h < k {
      assert g.owner[k] == k;
    } else if h == k && g.runs[h].Cut? {
      var shift := g.runs[h].shift;
      Tables(shift);
      if a < b { Aligned(ChunkSize(shift), a % PAGE_SIZE, b % PAGE_SIZE); }
    }
  }

  lemma Aligned(size: nat, x: nat, y: nat)
    requires size > 0 && x % size == 0 && y % size == 0 && x < y
    ensures x + size <= y
  {
    var p, q := x / size, y / size;
    assert x == size * p && y == size * q;
    assert q <= p ==> size * q <= size * p;
    assert q > p ==> size * q >= size * (p + 1);
  }

  /** A region lies within the run of the page it starts in. */
  lemma LiveSpan(n: nat, g: Layout, a: nat, s: nat)
    requires Tiled(n, g) && Live(g, a, s)
    ensures var h := a / PAGE_SIZE;
      s > 0 && PAGE_SIZE * h <= a && a + s <= PAGE_SIZE * (h + Len(g.runs[h])) <= PAGE_SIZE * n
  {
    var h := a / PAGE_SIZE;
    if g.runs[h].Cut? {
      var shift := g.runs[h].shift;
      Tables(shift);
    }
  }

  /** The bitmap of a page of small chunks lies below every chunk handed out from that page. */
  lemma LiveClearOfBitmap(n: nat, g: Layout, a: nat, s: nat)
    requires Tiled(n, g) && Live(g, a, s)
    ensures var r := g.runs[a / PAGE_SIZE];
      r.Cut? && r.shift < EXACT_SHIFT ==> a % PAGE_SIZE >= Count(r.shift) / 8
  {
    var r := g.runs[a / PAGE_SIZE];
    if r.Cut? { Tables(r.shift); }
  }

  // ----- the moves of the allocator

  /** The free run at index `j` of the free list gives its first `k` pages. */
  ghost function Take(g: Layout, j: nat, k: nat): Layout
    requires j < |g.free| && g.free[j] in g.runs && g.runs[g.free[j]].Free? && 0 < k <= g.runs[g.free[j]].len
  {
    var h := g.free[j];
    var len := g.runs[h].len;
    if k == len then g.(runs := g.runs[h := Whole(k)], free := Without(g.free, j))
    else Layout(
      g.runs[h := Whole(k)][h + k := Free(len - k)],
      seq(|g.owner|, i requires 0 <= i < |g.owner| => if h + k <= i < h + len then h + k else g.owner[i]),
      g.free[j := h + k],
      g.slots)
  }

  lemma SplitPoint(n: nat, g: Layout, h: nat, k: nat)
    requires Tiled(n, g) && h in g.runs && 0 < k < Len(g.runs[h])
    ensures h + k < n && g.owner[h + k] == h && h + k !in g.runs
  {
    forall x | x in g.runs ensures x < n && g.owner[x] == x {}
  }

  ghost predicate OwnerAt(g: Layout, i: nat)
    requires i < |g.owner|
  {
    g.owner[i] in g.runs && g.owner[i] <= i < g.owner[i] + Len(g.runs[g.owner[i]])
  }

  lemma TakenOwner(n: nat, g: Layout, j: nat, k: nat, i: nat)
    requires Tiled(n, g) && j < |g.free| && i < n
    requires g.free[j] in g.runs && g.runs[g.free[j]].Free? && 0 < k <= g.runs[g.free[j]].len
    ensures OwnerAt(Take(g, j, k), i)
  {
    var h := g.free[j];
    if k < g.runs[h].len { SplitPoint(n, g, h, k); }
    assert h <= i < h + g.runs[h].len <==> g.owner[i] == h;
  }

  lemma TakenSpan(n: nat, g: Layout, j: nat, k: nat, x: nat, i: nat)
    requires Tiled(n, g) && j < |g.free|
    requires g.free[j] in g.runs && g.runs[g.free[j]].Free? && 0 < k <= g.runs[g.free[j]].len
    requires var g' := Take(g, j, k); x in g'.runs && x <= i < x + Len(g'.runs[x])
    ensures i < n && Take(g, j, k).owner[i] == x
  {
    var h := g.free[j];
    var len := g.runs[h].len;
    if k < len { SplitPoint(n, g, h, k); }
    if x == h || (k < len && x == h + k) {
      assert g.owner[i] == h;
    } else {
      assert g.owner[i] == x;
      assert !(h <= i < h + len);
    }
  }

  lemma TakeTiled(n: nat, g: Layout, j: nat, k: nat)
    requires Tiled(n, g) && Listed(g) && j < |g.free|
    requires g.free[j] in g.runs && g.runs[g.free[j]].Free? && 0 < k <= g.runs[g.free[j]].len
    ensures Tiled(n, Take(g, j, k))
  {
    var g' := Take(g, j, k);
    forall i: nat | i < n
      ensures g'.owner[i] in g'.runs && g'.owner[i] <= i < g'.owner[i] + Len(g'.runs[g'.owner[i]])
    {
      TakenOwner(n, g, j, k, i);
    }
    forall x, i: nat | x in g'.runs && x <= i < x + Len(g'.runs[x]) ensures i < n && g'.owner[i] == x {
      TakenSpan(n, g, j, k, x, i);
    }
  }

  lemma TakeListed(n: nat, g: Layout, j: nat, k: nat)
    requires Tiled(n, g) && Listed(g) && j < |g.free|
    requires g.free[j] in g.runs && g.runs[g.free[j]].Free? && 0 < k <= g.runs[g.free[j]].len
    ensures Listed(Take(g, j, k))
  {
    var h := g.free[j];
    if k < g.runs[h].len {
      SplitPoint(n, g, h, k);
      ReplaceMembers(g.free, j, h + k);
    } else {
      WithoutMembers(g.free, j);
    }
  }

  lemma WithoutMembers(l: seq<nat>, j: nat)
    requires Distinct(l) && j < |l|
    ensures Distinct(Without(l, j))
    ensures forall x :: x in Without(l, j) <==> x in l && x != l[j]
  {
    var w := Without(l, j);
    forall x | x in l && x != l[j] ensures x in w {
      var i :| 0 <= i < |l| && l[i] == x;
      assert w[if i < j then i else i - 1] == x;
    }
    forall x | x in w ensures x in l && x != l[j] {
      var i :| 0 <= i < |w| && w[i] == x;
      assert x == l[if i < j then i else i + 1];
    }
  }

  lemma ReplaceMembers(l: seq<nat>, j: nat, y: nat)
    requires Distinct(l) && j < |l| && y !in l
    ensures Distinct(l[j := y])
    ensures forall x :: x in l[j := y] <==> x == y || (x in l && x != l[j])
  {
    var w := l[j := y];
    forall x | x == y || (x in l && x != l[j]) ensures x in w {
      if x == y {
        assert w[j] == y;
      } else {
        var i :| 0 <= i < |l| && l[i] == x;
        assert w[i] == x;
      }
    }
    forall x | x in w ensures x == y || (x in l && x != l[j]) {
      var i :| 0 <= i < |w| && w[i] == x;
      assert i != j ==> x == l[i];
    }
  }

  // ----- moves that leave the runs where they are

  ghost predicate SameRuns(g: Layout, g': Layout, h: nat) {
    && g'.owner == g.owner && h in g.runs && g'.runs.Keys == g.runs.Keys
    && Len(g'.runs[h]) == Len(g.runs[h]) && GoodRun(g'.runs[h])
    && forall x :: x in g.runs && x != h ==> g'.runs[x] == g.runs[x]
  }

  lemma SameTiling(n: nat, g: Layout, g': Layout, h: nat)
    requires Tiled(n, g) && SameRuns(g, g', h)
    ensures Tiled(n, g')
  {
    forall x, j | x in g'.runs && x <= j < x + Len(g'.runs[x]) ensures j < n && g'.owner[j] == x {
      assert x in g.runs && Len(g.runs[x]) == Len(g'.runs[x]);
    }
    forall j | 0 <= j < n
      ensures g'.owner[j] in g'.runs && g'.owner[j] <= j < g'.owner[j] + Len(g'.runs[g'.owner[j]])
    {
      assert g.owner[j] in g.runs;
    }
    forall x | x in g'.runs ensures GoodRun(g'.runs[x]) && x + Len(g'.runs[x]) <= n {
      assert GoodRun(g.runs[x]);
    }
  }

  /** Only the run at `h`, which is not free, and the list of its class have changed. */
  ghost predicate SameLists(g: Layout, g': Layout, h: nat, k: nat, l: seq<nat>) {
    && k < SLOTS == |g.slots| && g'.free == g.free && g'.slots == g.slots[k := l]
    && h in g.runs && g'.runs.Keys == g.runs.Keys && InClass(g.runs[h], k) && InClass(g'.runs[h], k)
    && forall x :: x in g.runs && x != h ==> g'.runs[x] == g.runs[x]
  }

  ghost predicate InClass(r: Run, k: nat) {
    match r
    case Free(_) => false
    case Whole(_) => true
    case Cut(shift, _) => shift == k + MIN_SHIFT
  }

  ghost predicate SlotListed(g: Layout, k: nat)
    requires k < |g.slots|
  {
    Distinct(g.slots[k]) && forall h :: h in g.slots[k] <==> h in g.runs && Partial(g.runs[h], k + MIN_SHIFT)
  }

  lemma ListedAgain(g: Layout, g': Layout, h: nat, k: nat, l: seq<nat>)
    requires Listed(g) && SameLists(g, g', h, k, l) && SlotListed(g', k)
    ensures Listed(g')
  {
    forall i: nat | i < SLOTS ensures SlotListed(g', i) {
      assert SlotListed(g, i);
      if i != k { assert g'.slots[i] == g.slots[i]; }
    }
  }

  /** A run is free again and goes to the front of the free list. */
  ghost function Release(g: Layout, h: nat): Layout
    requires h in g.runs
  {
    g.(runs := g.runs[h := Free(Len(g.runs[h]))], free := [h] + g.free)
  }

  lemma ReleaseKeeps(n: nat, g: Layout, h: nat)
    requires Tiled(n, g) && Listed(g) && h in g.runs && g.runs[h].Whole?
    ensures Tiled(n, Release(g, h)) && Listed(Release(g, h))
  {
    SameTiling(n, g, Release(g, h), h);
    PushMembers(g.free, h);
  }

  lemma PushMembers(l: seq<nat>, h: nat)
    requires Distinct(l) && h !in l
    ensures Distinct([h] + l) && forall x :: x in [h] + l <==> x == h || x in l
  {
    var w := [h] + l;
    assert forall i :: 0 < i < |w| ==> w[i] == l[i - 1];
  }

  ghost function Upto(n: nat): (s: set<nat>)
    ensures forall c: nat :: c in s <==> c <= n
  {
    if n == 0 then {0} else Upto(n - 1) + {n}
  }

  /** A whole page is cut; its first free chunk is handed out at once. */
  ghost function Open(g: Layout, h: nat, shift: nat): Layout
    requires IsShift(shift) && |g.slots| == SLOTS
  {
    g.(runs := g.runs[h := Cut(shift, Upto(Reserved(shift)))], slots := g.slots[shift - MIN_SHIFT := [h]])
  }

  lemma OpenKeeps(n: nat, g: Layout, h: nat, shift: nat)
    requires Tiled(n, g) && Listed(g) && h in g.runs && g.runs[h] == Whole(1)
    requires IsShift(shift) && g.slots[shift - MIN_SHIFT] == []
    ensures Tiled(n, Open(g, h, shift)) && Listed(Open(g, h, shift))
  {
    var g', k := Open(g, h, shift), shift - MIN_SHIFT;
    Tables(shift);
    SameTiling(n, g, g', h);
    assert Reserved(shift) + 1 < Count(shift) && Reserved(shift) + 1 !in g'.runs[h].used;
    assert Partial(g'.runs[h], shift);
    assert SlotListed(g, k);
    ListedAgain(g, g', h, k, [h]);
  }

  /** Chunk `c` of page `h` is handed out; a page that fills up leaves its list. */
  ghost function Use(g: Layout, h: nat, c: nat): Layout
    requires h in g.runs && g.runs[h].Cut? && IsShift(g.runs[h].shift) && |g.slots| == SLOTS
    requires g.slots[g.runs[h].shift - MIN_SHIFT] != []
  {
    var r := g.runs[h];
    var k, used := r.shift - MIN_SHIFT, r.used + {c};
    g.(runs := g.runs[h := Cut(r.shift, used)],
       slots := if Full(r.shift, used) then g.slots[k := Without(g.slots[k], 0)] else g.slots)
  }

  lemma UseKeeps(n: nat, g: Layout, h: nat, c: nat)
    requires Tiled(n, g) && Listed(g) && h in g.runs && g.runs[h].Cut? && IsShift(g.runs[h].shift)
    requires c < Count(g.runs[h].shift) && c !in g.runs[h].used
    requires var l := g.slots[g.runs[h].shift - MIN_SHIFT]; l != [] && l[0] == h
    ensures Tiled(n, Use(g, h, c)) && Listed(Use(g, h, c))
  {
    SameTiling(n, g, Use(g, h, c), h);
    UseListed(g, h, c, g.runs[h].shift - MIN_SHIFT);
  }

  lemma UseListed(g: Layout, h: nat, c: nat, k: nat)
    requires Listed(g) && h in g.runs && g.runs[h].Cut? && IsShift(g.runs[h].shift) && k == g.runs[h].shift - MIN_SHIFT
    requires c !in g.runs[h].used && g.slots[k] != [] && g.slots[k][0] == h
    ensures Listed(Use(g, h, c))
  {
    var g' := Use(g, h, c);
    assert SlotListed(g, k);
    WithoutMembers(g.slots[k], 0);
    assert SlotListed(g', k);
    assert g.slots[k := g.slots[k]] == g.slots;
    ListedAgain(g, g', h, k, g'.slots[k]);
  }

  /** Chunk `c` of page `h` comes back; a page that was full rejoins its list in front. */
  ghost function Drop(g: Layout, h: nat, c: nat): Layout
    requires h in g.runs && g.runs[h].Cut? && IsShift(g.runs[h].shift) && |g.slots| == SLOTS
  {
    var r := g.runs[h];
    var k := r.shift - MIN_SHIFT;
    g.(runs := g.runs[h := Cut(r.shift, r.used - {c})],
       slots := if Full(r.shift, r.used) then g.slots[k := [h] + g.slots[k]] else g.slots)
  }

  lemma DropKeeps(n: nat, g: Layout, h: nat, c: nat)
    requires Tiled(n, g) && Listed(g) && h in g.runs && g.runs[h].Cut? && IsShift(g.runs[h].shift)
    requires c in g.runs[h].used && c >= Reserved(g.runs[h].shift)
    ensures Tiled(n, Drop(g, h, c)) && Listed(Drop(g, h, c))
  {
    var g', shift := Drop(g, h, c), g.runs[h].shift;
    var k := shift - MIN_SHIFT;
    assert GoodRun(g.runs[h]) && SlotListed(g, k);
    SameTiling(n, g, g', h);
    assert c < Count(shift) && Partial(g'.runs[h], shift);
    if Full(shift, g.runs[h].used) { PushMembers(g.slots[k], h); }
    assert SlotListed(g', k);
    assert g.slots[k := g.slots[k]] == g.slots;
    ListedAgain(g, g', h, k, g'.slots[k]);
  }

  /** A cut page leaves its list, at index `j`, and is one whole page again. */
  ghost function Detach(g: Layout, h: nat, j: nat): Layout
    requires h in g.runs && g.runs[h].Cut? && IsShift(g.runs[h].shift) && |g.slots| == SLOTS
    requires j < |g.slots[g.runs[h].shift - MIN_SHIFT]|
  {
    var k := g.runs[h].shift - MIN_SHIFT;
    g.(runs := g.runs[h := Whole(1)], slots := g.slots[k := Without(g.slots[k], j)])
  }

  lemma DetachKeeps(n: nat, g: Layout, h: nat, j: nat)
    requires Tiled(n, g) && Listed(g) && h in g.runs && g.runs[h].Cut? && IsShift(g.runs[h].shift)
    requires var l := g.slots[g.runs[h].shift - MIN_SHIFT]; j < |l| && l[j] == h
    ensures Tiled(n, Detach(g, h, j)) && Listed(Detach(g, h, j))
  {
    var g', k := Detach(g, h, j), g.runs[h].shift - MIN_SHIFT;
    SameTiling(n, g, g', h);
    assert SlotListed(g, k);
    WithoutMembers(g.slots[k], j);
    assert SlotListed(g', k);
    ListedAgain(g, g', h, k, g'.slots[k]);
  }
}
