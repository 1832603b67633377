/** What each move does to the regions in the hands of callers. */
module SlabLive {
  import opened Bits
  import opened SlabLists
  import opened SlabLayout

  /** One region more is live, which was not live before. */
  ghost predicate Gains(g: Layout, g': Layout, off: nat, size: nat) {
    && !Live(g, off, size)
    && forall a: nat, s: nat {:trigger Live(g', a, s)} :: Live(g', a, s) <==> Live(g, a, s) || (a == off && s == size)
  }

  /** One region less is live. */
  ghost predicate Loses(g: Layout, g': Layout, off: nat, size: nat) {
    && Live(g, off, size)
    && forall a: nat, s: nat {:trigger Live(g', a, s)} :: Live(g', a, s) <==> Live(g, a, s) && !(a == off && s == size)
  }

  ghost predicate SameLive(g: Layout, g': Layout) {
    forall a: nat, s: nat {:trigger Live(g', a, s)} :: Live(g', a, s) <==> Live(g, a, s)
  }

  /** Page by page, but for page `h`. */
  lemma ElsewhereLive(g: Layout, g': Layout, h: nat, a: nat, s: nat)
    requires forall x :: x != h ==> (x in g'.runs <==> x in g.runs) && (x in g.runs ==> g'.runs[x] == g.runs[x])
    requires a / PAGE_SIZE != h
    ensures Live(g', a, s) <==> Live(g, a, s)
  {
  }

  lemma TakeGains(n: nat, g: Layout, j: nat, k: nat)
    requires Tiled(n, g) && j < |g.free|
    requires g.free[j] in g.runs && g.runs[g.free[j]].Free? && 0 < k <= g.runs[g.free[j]].len
    ensures Gains(g, Take(g, j, k), PAGE_SIZE * g.free[j], PAGE_SIZE * k)
  {
    var h, g' := g.free[j], Take(g, j, k);
    if k < g.runs[h].len { SplitPoint(n, g, h, k); }
    forall a: nat, s: nat
      ensures Live(g', a, s) <==> Live(g, a, s) || (a == PAGE_SIZE * h && s == PAGE_SIZE * k)
    {
      if a / PAGE_SIZE == h {
      } else if a / PAGE_SIZE == h + k && k < g.runs[h].len {
      } else {
        assert a / PAGE_SIZE in g'.runs <==> a / PAGE_SIZE in g.runs;
      }
    }
  }

  lemma ReleaseLoses(g: Layout, h: nat)
    requires h in g.runs && g.runs[h].Whole?
    ensures Loses(g, Release(g, h), PAGE_SIZE * h, PAGE_SIZE * g.runs[h].len)
  {
    var g' := Release(g, h);
    forall a: nat, s: nat
      ensures Live(g', a, s) <==> Live(g, a, s) && !(a == PAGE_SIZE * h && s == PAGE_SIZE * g.runs[h].len)
    {
      if a / PAGE_SIZE != h { ElsewhereLive(g, g', h, a, s); }
    }
  }

  /** The offset of chunk `c` of page `h`. */
  function ChunkAt(h: nat, shift: nat, c: nat): nat {
    PAGE_SIZE * h + ChunkSize(shift) * c
  }

  lemma SameQuotient(s: nat, d: nat, m: nat, q: nat, r: nat)
    requires s * d + m == s * q + r && m < s && r < s
    ensures d == q && m == r
  {
    if d > q {
      MulLess(s, q, d);
    } else if q > d {
      MulLess(s, d, q);
    }
  }

  lemma MulLess(s: nat, a: nat, b: nat)
    requires a < b
    ensures s * b >= s * a + s
  {
    var e: nat := b - a - 1;
    assert s * (a + e + 1) == s * a + s * e + s;
    assert s * e >= 0;
  }

  lemma DivMod(x: nat, s: nat, q: nat, r: nat)
    requires x == s * q + r && r < s
    ensures x % s == r && x / s == q
  {
    var d, m := x / s, x % s;
    assert x == s * d + m;
    SameQuotient(s, d, m, q, r);
  }

  lemma Exactly(x: nat, s: nat, q: nat)
    requires s > 0
    ensures x == s * q <==> x % s == 0 && x / s == q
  {
    if x == s * q { DivMod(x, s, q, 0); }
  }

  lemma ChunkOffsets(h: nat, shift: nat, c: nat, a: nat)
    requires IsShift(shift) && c < Count(shift) && a / PAGE_SIZE == h
    ensures a == ChunkAt(h, shift, c) <==>
      (a % PAGE_SIZE) % ChunkSize(shift) == 0 && (a % PAGE_SIZE) / ChunkSize(shift) == c
    ensures ChunkAt(h, shift, c) / PAGE_SIZE == h
  {
    ChunkPage(h, shift, c);
    Exactly(a % PAGE_SIZE, ChunkSize(shift), c);
  }

  lemma ChunkPage(h: nat, shift: nat, c: nat)
    requires IsShift(shift) && c < Count(shift)
    ensures ChunkAt(h, shift, c) / PAGE_SIZE == h
  {
    Tables(shift);
  }

  /** The chunks of page `h` that are live. */
  lemma ChunkLive(g: Layout, h: nat, shift: nat, used: set<nat>, c: nat)
    requires IsShift(shift) && c < Count(shift) && h in g.runs && g.runs[h] == Cut(shift, used)
    ensures Live(g, ChunkAt(h, shift, c), ChunkSize(shift)) <==> c in used && c >= Reserved(shift)
  {
    ChunkPage(h, shift, c);
    ChunkOffsets(h, shift, c, ChunkAt(h, shift, c));
  }

  lemma CutLive(g: Layout, g': Layout, h: nat, shift: nat, used: set<nat>, used': set<nat>, c: nat, a: nat, s: nat)
    requires IsShift(shift) && c < Count(shift) && h in g.runs && h in g'.runs
    requires g.runs[h] == Cut(shift, used) && g'.runs[h] == Cut(shift, used') && a / PAGE_SIZE == h
    requires used' == used + {c} && c >= Reserved(shift)
    ensures Live(g', a, s) <==> Live(g, a, s) || (a == ChunkAt(h, shift, c) && s == ChunkSize(shift))
  {
    ChunkOffsets(h, shift, c, a);
  }

  lemma UseGains(g: Layout, h: nat, c: nat)
    requires |g.slots| == SLOTS && h in g.runs && g.runs[h].Cut? && IsShift(g.runs[h].shift)
    requires c < Count(g.runs[h].shift) && c !in g.runs[h].used && c >= Reserved(g.runs[h].shift)
    requires g.slots[g.runs[h].shift - MIN_SHIFT] != []
    ensures Gains(g, Use(g, h, c), ChunkAt(h, g.runs[h].shift, c), ChunkSize(g.runs[h].shift))
  {
    var g', shift, used := Use(g, h, c), g.runs[h].shift, g.runs[h].used;
    ChunkPage(h, shift, c);
    ChunkLive(g, h, shift, used, c);
    forall a: nat, s: nat
      ensures Live(g', a, s) <==> Live(g, a, s) || (a == ChunkAt(h, shift, c) && s == ChunkSize(shift))
    {
      if a / PAGE_SIZE == h {
        CutLive(g, g', h, shift, used, used + {c}, c, a, s);
      } else {
        ElsewhereLive(g, g', h, a, s);
      }
    }
  }

  lemma DropLoses(g: Layout, h: nat, c: nat)
    requires |g.slots| == SLOTS && h in g.runs && g.runs[h].Cut? && IsShift(g.runs[h].shift)
    requires c < Count(g.runs[h].shift) && c in g.runs[h].used && c >= Reserved(g.runs[h].shift)
    ensures Loses(g, Drop(g, h, c), ChunkAt(h, g.runs[h].shift, c), ChunkSize(g.runs[h].shift))
  {
    var g', shift, used := Drop(g, h, c), g.runs[h].shift, g.runs[h].used;
    ChunkPage(h, shift, c);
    ChunkLive(g, h, shift, used, c);
    ChunkLive(g', h, shift, used - {c}, c);
    forall a: nat, s: nat
      ensures Live(g', a, s) <==> Live(g, a, s) && !(a == ChunkAt(h, shift, c) && s == ChunkSize(shift))
    {
      if a / PAGE_SIZE == h {
        assert used == (used - {c}) + {c};
        CutLive(g', g, h, shift, used - {c}, used, c, a, s);
      } else {
        ElsewhereLive(g, g', h, a, s);
      }
    }
  }

  /** A whole page gives way to its first chunk. */
  lemma OpenTrades(g: Layout, h: nat, shift: nat, a: nat, s: nat)
    requires IsShift(shift) && |g.slots| == SLOTS && h in g.runs && g.runs[h] == Whole(1)
    ensures Live(Open(g, h, shift), a, s) <==>
      || (Live(g, a, s) && !(a == PAGE_SIZE * h && s == PAGE_SIZE))
      || (a == ChunkAt(h, shift, Reserved(shift)) && s == ChunkSize(shift))
  {
    var g', c := Open(g, h, shift), Reserved(shift);
    assert c < Count(shift) by { Tables(shift); }
    ChunkPage(h, shift, c);
    if a / PAGE_SIZE == h {
      ChunkOffsets(h, shift, c, a);
    } else {
      ElsewhereLive(g, g', h, a, s);
    }
  }

  /** Taking a page and cutting it hands out one chunk. */
  lemma OpenGains(n: nat, g: Layout, j: nat, shift: nat)
    requires Tiled(n, g) && |g.slots| == SLOTS && j < |g.free| && IsShift(shift)
    requires g.free[j] in g.runs && g.runs[g.free[j]].Free?
    ensures 0 < g.runs[g.free[j]].len
    ensures var h := g.free[j];
      Gains(g, Open(Take(g, j, 1), h, shift), ChunkAt(h, shift, Reserved(shift)), ChunkSize(shift))
  {
    var h, c := g.free[j], Reserved(shift);
    assert GoodRun(g.runs[h]);
    var g1 := Take(g, j, 1);
    var g2 := Open(g1, h, shift);
    TakeGains(n, g, j, 1);
    assert c < Count(shift) by { Tables(shift); }
    ChunkPage(h, shift, c);
    forall a: nat, s: nat
      ensures Live(g2, a, s) <==> Live(g, a, s) || (a == ChunkAt(h, shift, c) && s == ChunkSize(shift))
    {
      OpenTrades(g1, h, shift, a, s);
      assert Live(g1, a, s) <==> Live(g, a, s) || (a == PAGE_SIZE * h && s == PAGE_SIZE * 1);
    }
  }

  /** An idle page holds no region; turning it into a free run changes none. */
  lemma RetireSame(g: Layout, h: nat, j: nat)
    requires |g.slots| == SLOTS && h in g.runs && g.runs[h].Cut? && IsShift(g.runs[h].shift)
    requires j < |g.slots[g.runs[h].shift - MIN_SHIFT]| && Idle(g.runs[h].shift, g.runs[h].used)
    ensures SameLive(g, Release(Detach(g, h, j), h))
  {
    var g' := Release(Detach(g, h, j), h);
    forall a: nat, s: nat ensures Live(g', a, s) <==> Live(g, a, s) {
      if a / PAGE_SIZE != h { ElsewhereLive(g, g', h, a, s); }
    }
  }

  /** A region that has just been handed out lies in the pages and overlaps no live one. */
  lemma GainedApart(n: nat, g: Layout, g': Layout, off: nat, size: nat, a: nat, s: nat)
    requires Tiled(n, g') && Gains(g, g', off, size) && Live(g, a, s)
    ensures size > 0 && off + size <= PAGE_SIZE * n && (off + size <= a || a + s <= off)
  {
    assert Live(g', off, size) && Live(g', a, s);
    LiveRegions(n, g', off, size, a, s);
    LiveRegions(n, g', a, s, off, size);
  }
}
