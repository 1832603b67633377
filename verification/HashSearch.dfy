/** Which sizes of a hash table the search can miss. */
module HashSearch {

  import opened HashTables

  /** The names that are not dropped. */
  ghost function Kept(names: seq<HashKey>): (n: nat)
    ensures n <= |names|
  {
    if names == [] then 0
    else Kept(names[..|names| - 1]) + if names[|names| - 1].dropped then 0 else 1
  }

  lemma {:induction false} AllKept(names: seq<HashKey>)
    requires forall k :: k in names ==> !k.dropped
    ensures Kept(names) == |names|
  {
    if names != [] {
      assert names[|names| - 1] in names;
      AllKept(names[..|names| - 1]);
    }
  }

  // ----- a table holds no more than its buckets do

  /** The items of the first `k` buckets. */
  ghost function Total(names: seq<HashKey>, size: nat, k: nat): nat
    requires size > 0
  {
    if k == 0 then 0 else Total(names, size, k - 1) + |Items(names, size, k - 1)|
  }

  lemma {:induction false} TotalStep(names: seq<HashKey>, size: nat, k: nat)
    requires size > 0 && names != []
    ensures var last := names[|names| - 1];
      Total(names, size, k) ==
        Total(names[..|names| - 1], size, k) + if !last.dropped && Slot(last.hash, size) < k then 1 else 0
  {
    if k > 0 { TotalStep(names, size, k - 1); }
  }

  lemma {:induction false} TotalOfNone(size: nat, k: nat)
    requires size > 0
    ensures Total([], size, k) == 0
  {
    if k > 0 { TotalOfNone(size, k - 1); }
  }

  lemma {:induction false} EveryNameFalls(names: seq<HashKey>, size: nat)
    requires size > 0
    ensures Total(names, size, size) == Kept(names)
  {
    if names == [] {
      TotalOfNone(size, size);
    } else {
      EveryNameFalls(names[..|names| - 1], size);
      TotalStep(names, size, size);
    }
  }

  lemma {:induction false} SizeAtLeast(items: seq<Item>)
    ensures 16 * |items| <= Size(items)
  {
    if items != [] {
      SizeAtLeast(items[..|items| - 1]);
      SizeIsAligned(items[|items| - 1].name);
    }
  }

  lemma {:induction false} TotalAtMost(names: seq<HashKey>, size: nat, k: nat, most: nat)
    requires size > 0 && forall b: nat :: b < k ==> |Items(names, size, b)| <= most
    ensures Total(names, size, k) <= k * most
  {
    if k > 0 {
      TotalAtMost(names, size, k - 1, most);
      assert k * most == (k - 1) * most + most;
    }
  }

  /** In a table that suffices there is room for so many of the smallest elements. */
  lemma EnoughBuckets(names: seq<HashKey>, size: nat, bucketSize: nat)
    requires Suffices(names, size, bucketSize) && bucketSize >= 24
    ensures Kept(names) <= size * Capacity16(bucketSize)
  {
    var most := Capacity16(bucketSize);
    forall b: nat | b < size ensures |Items(names, size, b)| <= most {
      SizeAtLeast(Items(names, size, b));
      assert Load(names, size, b) + PTR_SIZE <= bucketSize;
    }
    TotalAtMost(names, size, size, most);
    EveryNameFalls(names, size);
  }

  /** Where no name is dropped and there are not too many, every size that suffices is tried. */
  lemma NothingMissed(names: seq<HashKey>, bucketSize: nat, maxSize: nat, size: nat)
    requires bucketSize >= 24 && (forall k :: k in names ==> !k.dropped) && !Large(|names|, maxSize)
    requires 0 < size <= maxSize && Suffices(names, size, bucketSize)
    ensures Tried(|names|, bucketSize, maxSize, size)
  {
    AllKept(names);
    EnoughBuckets(names, size, bucketSize);
    assert (size + 1) * Capacity16(bucketSize) == size * Capacity16(bucketSize) + Capacity16(bucketSize);
  }

  // ----- names that spread evenly

  /** So many names, with the hashes 0, 1, 2, ..., of which the first `kept` are not dropped. */
  ghost function Spread(kept: nat, nelts: nat): (names: seq<HashKey>)
    ensures |names| == nelts
  {
    seq(nelts, i requires 0 <= i < nelts => HashKey(i >= kept, "", i, 1))
  }

  lemma {:induction false} SlotOfSum(size: nat, q: nat, r: nat)
    requires r < size
    ensures Slot(size * q + r, size) == r
  {
    if q > 0 {
      SlotOfSum(size, q - 1, r);
      assert size * q + r - size == size * (q - 1) + r;
    }
  }

  lemma OneRoundLess(size: nat, q: nat)
    requires q > 0
    ensures size * q == size * (q - 1) + size
  {
  }

  /** The names have the hashes 0, 1, 2, ... and none of the first `n` is dropped. */
  ghost predicate Numbered(names: seq<HashKey>, n: nat) {
    n <= |names| && forall i :: 0 <= i < n ==> !names[i].dropped && names[i].hash == i
  }

  /** After `q` rounds over the buckets and `r` names more. */
  lemma {:induction false} EvenlySpread(names: seq<HashKey>, n: nat, size: nat, b: nat, q: nat, r: nat)
    requires Numbered(names, n) && b < size && r <= size && n == size * q + r
    ensures |Items(names[..n], size, b)| == q + if b < r then 1 else 0
    decreases q, r
  {
    if r > 0 {
      EvenlySpread(names, n - 1, size, b, q, r - 1);
      SlotOfSum(size, q, r - 1);
      OneMoreItem(names, n - 1, size, b, r - 1);
    } else if q > 0 {
      OneRoundLess(size, q);
      EvenlySpread(names, n, size, b, q - 1, size);
    } else {
      assert names[..0] == [];
    }
  }

  lemma OneMoreItem(names: seq<HashKey>, i: nat, size: nat, b: nat, slot: nat)
    requires Numbered(names, i + 1) && size > 0 && Slot(i, size) == slot
    ensures |Items(names[..i + 1], size, b)| == |Items(names[..i], size, b)| + if b == slot then 1 else 0
  {
    ItemsStep(names, size, b, i);
  }

  lemma {:induction false} DroppedAdds(kept: nat, nelts: nat, size: nat, b: nat, n: nat)
    requires size > 0 && kept <= n <= nelts
    ensures Items(Spread(kept, nelts)[..n], size, b) == Items(Spread(kept, nelts)[..kept], size, b)
    ensures Kept(Spread(kept, nelts)[..n]) == kept
  {
    var names := Spread(kept, nelts);
    if n > kept {
      DroppedAdds(kept, nelts, size, b, n - 1);
      ItemsStep(names, size, b, n - 1);
      assert names[..n][..n - 1] == names[..n - 1];
    } else {
      AllKept(names[..kept]);
    }
  }

  lemma {:induction false} SizeOfShort(items: seq<Item>)
    requires forall i :: 0 <= i < |items| ==> items[i].name == ""
    ensures Size(items) == 16 * |items|
  {
    if items != [] {
      SizeOfShort(items[..|items| - 1]);
      assert Align(2, PTR_SIZE) == 8;
    }
  }

  /** As many buckets as are needed for so many of the smallest elements do suffice for these. */
  lemma SpreadSuffices(kept: nat, nelts: nat, size: nat, bucketSize: nat)
    requires kept <= nelts && size > 0 && bucketSize >= 24 && kept <= size * Capacity16(bucketSize)
    ensures Suffices(Spread(kept, nelts), size, bucketSize) && Kept(Spread(kept, nelts)) == kept
  {
    var names := Spread(kept, nelts);
    assert names[..nelts] == names;
    DroppedAdds(kept, nelts, size, 0, nelts);
    forall b: nat | b < size ensures Load(names, size, b) + PTR_SIZE <= bucketSize {
      SpreadLoad(kept, nelts, size, b, Capacity16(bucketSize));
    }
  }

  lemma SpreadLoad(kept: nat, nelts: nat, size: nat, b: nat, most: nat)
    requires kept <= nelts && b < size && kept <= size * most
    ensures Load(Spread(kept, nelts), size, b) <= 16 * most
  {
    var q, r := kept / size, kept % size;
    assert kept == size * q + r;
    AtMostFull(size, q, r, most);
    SpreadItems(kept, nelts, size, b, q, r);
    SizeOfShort(Items(Spread(kept, nelts), size, b));
  }

  lemma SpreadItems(kept: nat, nelts: nat, size: nat, b: nat, q: nat, r: nat)
    requires kept <= nelts && b < size && r < size && kept == size * q + r
    ensures var items := Items(Spread(kept, nelts), size, b);
      |items| <= (if r > 0 then q + 1 else q) && forall i :: 0 <= i < |items| ==> items[i].name == ""
  {
    var names := Spread(kept, nelts);
    assert names[..nelts] == names;
    DroppedAdds(kept, nelts, size, b, nelts);
    EvenlySpread(names, kept, size, b, q, r);
    var items := Items(names, size, b);
    forall i | 0 <= i < |items| ensures items[i].name == "" { ItemsFrom(names, size, b, items[i]); }
  }

  lemma AtMostFull(size: nat, q: nat, r: nat, most: nat)
    requires r < size && size * q + r <= size * most
    ensures (if r > 0 then q + 1 else q) <= most
  {
    if q >= most { assert size * q >= size * most; }
  }

  // ----- what is missed

  /** For some names, so many of them and so many not dropped, a size that is not tried suffices. */
  ghost predicate Misses(nelts: nat, kept: nat, bucketSize: nat, maxSize: nat)
    requires bucketSize >= 24
  {
    exists names: seq<HashKey>, size: nat ::
      && |names| == nelts && Kept(names) == kept
      && 0 < size <= maxSize && !Tried(nelts, bucketSize, maxSize, size) && Suffices(names, size, bucketSize)
  }

  /** The least size with room for so many of the smallest elements. */
  function Fewest(kept: nat, bucketSize: nat): (size: nat)
    requires bucketSize >= 24
    ensures size > 0 && kept <= size * Capacity16(bucketSize)
    ensures forall s: nat :: 0 < s < size ==> s * Capacity16(bucketSize) < kept
  {
    if kept == 0 then 1 else Fewer(kept, Capacity16(bucketSize)); (kept - 1) / Capacity16(bucketSize) + 1
  }

  lemma Fewer(kept: nat, most: nat)
    requires kept > 0 && most > 0
    ensures kept <= ((kept - 1) / most + 1) * most
    ensures forall s: nat :: 0 < s < (kept - 1) / most + 1 ==> s * most < kept
  {
    Quotient(kept - 1, most, (kept - 1) / most);
    forall s: nat | 0 < s < (kept - 1) / most + 1 ensures s * most < kept { Quotient(kept - 1, most, s - 1); }
  }

  /** That is so iff the least size with room for these is not tried. */
  lemma MissesIff(nelts: nat, kept: nat, bucketSize: nat, maxSize: nat)
    requires bucketSize >= 24 && kept <= nelts
    ensures var least := Fewest(kept, bucketSize);
      Misses(nelts, kept, bucketSize, maxSize) <==> least <= maxSize && !Tried(nelts, bucketSize, maxSize, least)
  {
    var least := Fewest(kept, bucketSize);
    if least <= maxSize && !Tried(nelts, bucketSize, maxSize, least) {
      SpreadSuffices(kept, nelts, least, bucketSize);
      assert |Spread(kept, nelts)| == nelts;
    }
    if Misses(nelts, kept, bucketSize, maxSize) {
      var names: seq<HashKey>, size: nat :| |names| == nelts && Kept(names) == kept &&
        0 < size <= maxSize && !Tried(nelts, bucketSize, maxSize, size) && Suffices(names, size, bucketSize);
      EnoughBuckets(names, size, bucketSize);
      TriedFromFirst(nelts, bucketSize, maxSize);
    }
  }
}
