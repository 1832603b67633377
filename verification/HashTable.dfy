/** The hash tables of the configuration: buckets packed into one block of memory. */
module HashTables {

  import opened Options

  const PTR_SIZE := 8
  const CACHELINE := 64

  /** A byte of memory: one of a pointer, one of a length, or a character. */
  datatype Cell = Blank | Ptr(value: nat, k: nat) | Len(len: nat, k: nat) | Char(c: char)

  /** What an element holds. */
  datatype Item = Item(name: string, value: nat)

  /** A name to store; some have been dropped from the list. */
  datatype HashKey = HashKey(dropped: bool, key: string, hash: nat, value: nat)

  /** The smallest multiple of `a` that is not below `n`. */
  function Align(n: nat, a: nat): (r: nat)
    requires a > 0
    ensures n <= r < n + a
  {
    if n == 0 then 0 else if n <= a then a else a + Align(n - a, a)
  }

  lemma {:induction false} AlignedTo(n: nat, a: nat)
    requires a == PTR_SIZE || a == CACHELINE
    ensures Align(n, a) % a == 0 && Align(n, a) % PTR_SIZE == 0
  {
    if n > a { AlignedTo(n - a, a); }
  }

  /** Whole steps may be taken first. */
  lemma {:induction false} AlignBehind(q: nat, n: nat)
    requires n > 0
    ensures Align(PTR_SIZE * q + n, PTR_SIZE) == PTR_SIZE * q + Align(n, PTR_SIZE)
  {
    if q > 0 { AlignBehind(q - 1, n); }
  }

  /** `NGX_HASH_ELT_SIZE`. */
  function EltSize(name: string): nat {
    PTR_SIZE + Align(|name| + 2, PTR_SIZE)
  }

  function ToLower(c: char): char {
    if 'A' <= c <= 'Z' then c - 'A' + 'a' else c
  }

  /** `ngx_strlow`. */
  function Lower(s: string): (t: string)
    ensures |t| == |s|
  {
    seq(|s|, i requires 0 <= i < |s| => ToLower(s[i]))
  }

  /** The codes 65 to 90 go up by 32; all others stay. */
  lemma LowerCodes(s: string)
    ensures forall i :: 0 <= i < |s| ==>
      Lower(s)[i] as int == s[i] as int + if 65 <= s[i] as int <= 90 then 32 else 0
  {
  }

  /** The characters are equal or the two cases of one letter. */
  predicate SameLetter(a: char, b: char) {
    || a == b
    || (65 <= a as int <= 90 && b as int == a as int + 32)
    || (65 <= b as int <= 90 && a as int == b as int + 32)
  }

  predicate SameButCase(s: string, t: string) {
    |s| == |t| && forall i :: 0 <= i < |s| ==> SameLetter(s[i], t[i])
  }

  /** Two names are the same in lower case iff they differ in the cases of letters only. */
  lemma LowerIffSame(s: string, t: string)
    ensures Lower(s) == Lower(t) <==> SameButCase(s, t)
  {
    LowerCodes(s);
    LowerCodes(t);
    if Lower(s) == Lower(t) {
      forall i | 0 <= i < |s| ensures SameLetter(s[i], t[i]) { assert Lower(s)[i] == Lower(t)[i]; }
    }
  }

  lemma SizeIsAligned(name: string)
    ensures EltSize(name) % 8 == 0 && EltSize(name) >= |name| + 10
  {
    AlignedTo(|name| + 2, PTR_SIZE);
  }

  /** The step of the lookup from element to element is the size of the element. */
  lemma StepIsSize(a: nat, name: string)
    requires a % 8 == 0
    ensures Align(a + 10 + |name|, PTR_SIZE) == a + EltSize(name)
  {
    AlignBehind(a / 8 + 1, |name| + 2);
    assert a + 10 + |name| == PTR_SIZE * (a / 8 + 1) + (|name| + 2);
  }

  // ----- elements in memory

  ghost predicate PtrAt(m: seq<Cell>, a: nat, value: nat) {
    a + 8 <= |m| && forall k :: 0 <= k < 8 ==> m[a + k] == Ptr(value, k)
  }

  ghost predicate NameAt(m: seq<Cell>, a: nat, name: string) {
    a + |name| <= |m| && forall i :: 0 <= i < |name| ==> m[a + i] == Char(name[i])
  }

  ghost predicate ItemAt(m: seq<Cell>, a: nat, x: Item) {
    && PtrAt(m, a, x.value) && a + 10 <= |m|
    && m[a + 8] == Len(|x.name|, 0) && m[a + 9] == Len(|x.name|, 1)
    && NameAt(m, a + 10, x.name)
  }

  function Size(items: seq<Item>): nat {
    if items == [] then 0 else Size(items[..|items| - 1]) + EltSize(items[|items| - 1].name)
  }

  /** The items lie one behind the other from address `a` on. */
  ghost predicate Run(m: seq<Cell>, a: nat, items: seq<Item>) {
    a + Size(items) <= |m| &&
    (items == [] ||
      (Run(m, a, items[..|items| - 1]) && ItemAt(m, a + Size(items[..|items| - 1]), items[|items| - 1])))
  }

  lemma ItemFrame(m: seq<Cell>, m': seq<Cell>, a: nat, x: Item)
    requires ItemAt(m, a, x) && |m'| == |m|
    requires forall i :: a <= i < a + EltSize(x.name) && i < |m| ==> m'[i] == m[i]
    ensures ItemAt(m', a, x)
  {
    SizeIsAligned(x.name);
  }

  /** Only the memory of the run matters. */
  lemma {:induction false} RunFrame(m: seq<Cell>, m': seq<Cell>, a: nat, items: seq<Item>)
    requires Run(m, a, items) && |m'| == |m|
    requires forall i :: a <= i < a + Size(items) ==> m'[i] == m[i]
    ensures Run(m', a, items)
  {
    if items != [] {
      var h, x := items[..|items| - 1], items[|items| - 1];
      RunFrame(m, m', a, h);
      ItemFrame(m, m', a + Size(h), x);
    }
  }

  lemma RunAppend(m: seq<Cell>, a: nat, items: seq<Item>, x: Item)
    requires Run(m, a, items) && ItemAt(m, a + Size(items), x) && a + Size(items) + EltSize(x.name) <= |m|
    ensures Run(m, a, items + [x]) && Size(items + [x]) == Size(items) + EltSize(x.name)
  {
    assert (items + [x])[..|items|] == items;
  }

  lemma {:induction false} SizeConcat(s: seq<Item>, t: seq<Item>)
    ensures Size(s + t) == Size(s) + Size(t)
  {
    if t == [] {
      assert s + t == s;
    } else {
      assert (s + t)[..|s + t| - 1] == s + t[..|t| - 1];
      SizeConcat(s, t[..|t| - 1]);
    }
  }

  lemma {:induction false} SizeAligned(s: seq<Item>)
    ensures Size(s) % 8 == 0
  {
    if s != [] {
      SizeIsAligned(s[|s| - 1].name);
      SizeAligned(s[..|s| - 1]);
    }
  }

  lemma {:induction false} RunItem(m: seq<Cell>, a: nat, items: seq<Item>, j: nat)
    requires Run(m, a, items) && j < |items|
    ensures ItemAt(m, a + Size(items[..j]), items[j])
    ensures Size(items[..j + 1]) == Size(items[..j]) + EltSize(items[j].name) && Size(items[..j]) % 8 == 0
  {
    var h := items[..|items| - 1];
    if j < |h| {
      RunItem(m, a, h, j);
      assert h[..j] == items[..j] && h[..j + 1] == items[..j + 1];
    } else {
      assert items[..j + 1] == items && h == items[..j];
      SizeAligned(h);
    }
  }

  ghost function Offset(items: seq<Item>, j: nat): nat
    requires j <= |items|
  {
    Size(items[..j])
  }

  /** What the lookup reads at its `j`-th stop, and where it goes from there. */
  ghost predicate Stop(m: seq<Cell>, first: nat, items: seq<Item>, j: nat)
    requires j <= |items|
  {
    var elt := first + Offset(items, j);
    && elt + 8 <= |m| && m[elt] == Ptr(ValueAt(items, j), 0)
    && (j < |items| ==>
          && ItemAt(m, elt, items[j])
          && Align(elt + 10 + |items[j].name|, PTR_SIZE) == first + Offset(items, j + 1))
  }

  ghost predicate Stops(m: seq<Cell>, first: nat, items: seq<Item>) {
    forall j: nat {:trigger Stop(m, first, items, j)} :: j <= |items| ==> Stop(m, first, items, j)
  }

  lemma StopAtItem(m: seq<Cell>, first: nat, items: seq<Item>, j: nat)
    requires Run(m, first, items) && first % 8 == 0 && j < |items|
    ensures Stop(m, first, items, j)
  {
    var elt := first + Size(items[..j]);
    RunItem(m, first, items, j);
    StepIsSize(elt, items[j].name);
    assert m[elt + 0] == Ptr(items[j].value, 0);
  }

  lemma AllStops(m: seq<Cell>, first: nat, items: seq<Item>)
    requires Run(m, first, items) && PtrAt(m, first + Size(items), 0) && first % 8 == 0
    ensures Stops(m, first, items)
  {
    forall j: nat | j <= |items| ensures Stop(m, first, items, j) {
      if j < |items| {
        StopAtItem(m, first, items, j);
      } else {
        assert items[..j] == items;
        assert m[first + Size(items) + 0] == Ptr(0, 0);
      }
    }
  }

  ghost function ValueAt(items: seq<Item>, j: nat): nat {
    if j < |items| then items[j].value else 0
  }

  // ----- what the buckets hold

  /** The bucket of a hash, `key_hash % size`, by repeated subtraction. */
  function Slot(hash: nat, size: nat): (b: nat)
    requires size > 0
    ensures b < size
  {
    if hash < size then hash else Slot(hash - size, size)
  }

  lemma {:induction false} SlotIsRemainder(hash: nat, size: nat)
    requires size > 0
    ensures Slot(hash, size) == hash % size
  {
    if hash >= size {
      SlotIsRemainder(hash - size, size);
      RemainderOfLess(hash, size);
    }
  }

  lemma RemainderOfLess(hash: nat, size: nat)
    requires 0 < size <= hash
    ensures (hash - size) % size == hash % size
  {
    var d := (hash - size) / size + 1 - hash / size;
    assert d * size == hash % size - (hash - size) % size;
    assert d >= 1 ==> d * size >= size;
    assert d <= -1 ==> d * size + size <= 0;
  }

  ghost predicate Falls(k: HashKey, size: nat, b: nat)
    requires size > 0
  {
    !k.dropped && Slot(k.hash, size) == b
  }

  function ItemOf(k: HashKey): Item {
    Item(Lower(k.key), k.value)
  }

  /** The items of bucket `b`, in the order of the names. */
  ghost function Items(names: seq<HashKey>, size: nat, b: nat): seq<Item>
    requires size > 0
  {
    if names == [] then []
    else
      var h, k := names[..|names| - 1], names[|names| - 1];
      Items(h, size, b) + if Falls(k, size, b) then [ItemOf(k)] else []
  }

  ghost predicate IsItem(names: seq<HashKey>, size: nat, b: nat, x: Item, k: HashKey)
    requires size > 0
  {
    k in names && Falls(k, size, b) && x == ItemOf(k)
  }

  lemma {:induction false} ItemsFrom(names: seq<HashKey>, size: nat, b: nat, x: Item)
    requires size > 0
    ensures x in Items(names, size, b) <==> exists k :: IsItem(names, size, b, x, k)
  {
    if names != [] {
      var h, last := names[..|names| - 1], names[|names| - 1];
      ItemsFrom(h, size, b, x);
      assert names == h + [last];
      if x in Items(h, size, b) {
        var k :| IsItem(h, size, b, x, k);
        assert IsItem(names, size, b, x, k);
      }
      if Falls(last, size, b) && x == ItemOf(last) { assert IsItem(names, size, b, x, last); }
      if exists k :: IsItem(names, size, b, x, k) {
        var k :| IsItem(names, size, b, x, k);
        if k in h { assert IsItem(h, size, b, x, k); }
      }
    }
  }

  lemma ItemsStep(names: seq<HashKey>, size: nat, b: nat, n: nat)
    requires size > 0 && n < |names|
    ensures Items(names[..n + 1], size, b) ==
      Items(names[..n], size, b) + if Falls(names[n], size, b) then [ItemOf(names[n])] else []
  {
    assert names[..n + 1][..n] == names[..n];
  }

  lemma {:induction false} LoadGrows(names: seq<HashKey>, size: nat, b: nat, n: nat)
    requires size > 0 && n <= |names|
    ensures Size(Items(names[..n], size, b)) <= Size(Items(names, size, b))
    decreases |names| - n
  {
    if n == |names| {
      assert names[..n] == names;
    } else {
      ItemsStep(names, size, b, n);
      LoadGrows(names, size, b, n + 1);
      SizeConcat(Items(names[..n], size, b), if Falls(names[n], size, b) then [ItemOf(names[n])] else []);
    }
  }

  /** `value` is that of the first item with the name; zero if there is none. */
  ghost predicate IsFound(items: seq<Item>, name: string, value: nat) {
    || (value == 0 && Missing(items, |items|, name))
    || (exists j: nat :: j < |items| && items[j].name == name && value == items[j].value && Missing(items, j, name))
  }

  // ----- the table

  ghost predicate HoldsItems(m: seq<Cell>, at: int, items: seq<Item>) {
    if items == [] then at == -1
    else at >= 0 && at % 8 == 0 && Run(m, at, items) && PtrAt(m, at + Size(items), 0)
  }

  class Table {
    const size: nat
    const buckets: array<int>
    const mem: array<Cell>
    ghost const stored: seq<HashKey>

    /** Bucket `b` lies in the block: its items and a null pointer behind them. */
    ghost predicate BucketHolds(b: nat, items: seq<Item>)
      requires b < buckets.Length
      reads buckets, mem
    {
      HoldsItems(mem[..], buckets[b], items)
    }

    ghost predicate Valid()
      reads buckets, mem
    {
      && size > 0 && buckets.Length == size
      && (forall k :: k in stored ==> k.value > 0)
      && forall b :: 0 <= b < size ==> BucketHolds(b, Items(stored, size, b))
    }

    /** The element at `elt` has the name. */
    method SameName(elt: nat, name: string, ghost x: Item) returns (same: bool)
      requires ItemAt(mem[..], elt, x)
      ensures same <==> x.name == name
    {
      if |name| != mem[elt + 8].len { return false; }
      var i := 0;
      while i < |name|
        invariant i <= |name| && name[..i] == x.name[..i]
      {
        if mem[elt + 10 + i] != Char(name[i]) { return false; }
        i := i + 1;
      }
      assert name[..i] == name && x.name[..i] == x.name;
      return true;
    }

    /** The walk through one bucket, from stop to stop. */
    method Walk(first: nat, name: string, ghost items: seq<Item>) returns (value: nat)
      requires Stops(mem[..], first, items) && Valued(items)
      ensures IsFound(items, name, value)
    {
      var elt := first;
      ghost var j: nat := 0;
      assert Offset(items, 0) == 0;
      assert Stop(mem[..], first, items, 0);
      while mem[elt].value != 0
        invariant j <= |items| && elt == first + Offset(items, j) && Stop(mem[..], first, items, j)
        invariant Missing(items, j, name)
        decreases |items| - j
      {
        var same := SameName(elt, name, items[j]);
        if same { return mem[elt].value; }
        elt := Align(elt + 10 + mem[elt + 8].len, PTR_SIZE);
        j := j + 1;
        assert Stop(mem[..], first, items, j);
      }
      return 0;
    }

    constructor (names: seq<HashKey>, size: nat, buckets: array<int>, mem: array<Cell>)
      requires size > 0 && (forall k :: k in names ==> k.value > 0)
      requires Placed(buckets[..], names, size)
      requires AllFilled(mem[..], names, size, |names|) && EndedBelow(mem[..], names, size, size)
      ensures Valid() && stored == names && this.size == size
    {
      this.size, this.buckets, this.mem, stored := size, buckets, mem, names;
      new;
      assert names[..|names|] == names;
      forall b: nat | b < size ensures BucketHolds(b, Items(names, size, b)) {
        assert Filled(mem[..], names, size, |names|, b) && Ended(mem[..], names, size, b);
        PlacedHolds(mem[..], names, size, b);
      }
    }

    /** `ngx_hash_find`. */
    method Find(key: nat, name: string) returns (value: nat)
      requires Valid()
      ensures IsFound(Items(stored, size, key % size), name, value)
    {
      var b := key % size;
      ghost var items := Items(stored, size, b);
      assert BucketHolds(b, items);
      if buckets[b] == -1 { return 0; }
      ItemValues(stored, size, b);
      AllStops(mem[..], buckets[b], items);
      value := Walk(buckets[b], name, items);
    }
  }

  ghost predicate Valued(items: seq<Item>) {
    forall i :: 0 <= i < |items| ==> items[i].value > 0
  }

  ghost predicate Missing(items: seq<Item>, j: nat, name: string)
    requires j <= |items|
  {
    forall i :: 0 <= i < j ==> items[i].name != name
  }

  lemma ItemValues(names: seq<HashKey>, size: nat, b: nat)
    requires size > 0 && forall k :: k in names ==> k.value > 0
    ensures Valued(Items(names, size, b))
  {
    var items := Items(names, size, b);
    forall i | 0 <= i < |items| ensures items[i].value > 0 { ItemsFrom(names, size, b, items[i]); }
  }

  // ----- the size of the table

  lemma EmptyOrNot(items: seq<Item>)
    ensures items == [] <==> Size(items) == 0
  {
    if items != [] { SizeIsAligned(items[|items| - 1].name); }
  }

  const SHORT := 0x1_0000

  /** The bytes that the items of bucket `b` take. */
  ghost function Load(names: seq<HashKey>, size: nat, b: nat): nat
    requires size > 0
  {
    Size(Items(names, size, b))
  }

  lemma LoadStep(names: seq<HashKey>, size: nat, b: nat, n: nat)
    requires size > 0 && n < |names|
    ensures Load(names[..n + 1], size, b) ==
      Load(names[..n], size, b) + if Falls(names[n], size, b) then EltSize(names[n].key) else 0
    ensures Load(names[..n + 1], size, b) <= Load(names, size, b)
  {
    ItemsStep(names, size, b, n);
    LoadGrows(names, size, b, n + 1);
    var items := Items(names[..n], size, b);
    if Falls(names[n], size, b) { SizeAppend(items, ItemOf(names[n])); } else { assert items + [] == items; }
  }

  lemma SizeAppend(items: seq<Item>, x: Item)
    ensures Size(items + [x]) == Size(items) + EltSize(x.name)
  {
    assert (items + [x])[..|items|] == items;
  }

  ghost predicate SumAt(test: seq<nat>, names: seq<HashKey>, size: nat, n: nat, limit: nat, first: nat, b: nat)
    requires size > 0 && n <= |names| && b < |test|
  {
    test[b] == first + Load(names[..n], size, b) && Load(names[..n], size, b) <= limit
  }

  /** The sums, each from `first` on, after the names before `n` have been counted. */
  ghost predicate Sums(test: seq<nat>, names: seq<HashKey>, size: nat, n: nat, limit: nat, first: nat)
    requires size > 0 && n <= |names|
  {
    && |test| == size
    && forall b: nat {:trigger SumAt(test, names, size, n, limit, first, b)} :: b < size ==>
         SumAt(test, names, size, n, limit, first, b)
  }

  lemma SumsDropped(test: seq<nat>, names: seq<HashKey>, size: nat, n: nat, limit: nat, first: nat)
    requires size > 0 && n < |names| && Sums(test, names, size, n, limit, first) && names[n].dropped
    ensures Sums(test, names, size, n + 1, limit, first)
  {
    var n' := n + 1;
    forall c: nat | c < size ensures SumAt(test, names, size, n', limit, first, c) {
      assert SumAt(test, names, size, n, limit, first, c);
      LoadStep(names, size, c, n);
    }
  }

  lemma SumsBound(test: seq<nat>, names: seq<HashKey>, size: nat, n: nat, limit: nat, first: nat)
    requires size > 0 && n < |names| && Sums(test, names, size, n, limit, first) && !names[n].dropped
    requires Load(names, size, Slot(names[n].hash, size)) <= limit
    ensures test[Slot(names[n].hash, size)] + EltSize(names[n].key) <= first + limit
  {
    var b := Slot(names[n].hash, size);
    assert SumAt(test, names, size, n, limit, first, b);
    LoadStep(names, size, b, n);
  }

  lemma SumsStep(test: seq<nat>, names: seq<HashKey>, size: nat, n: nat, limit: nat, first: nat)
    requires size > 0 && n < |names| && Sums(test, names, size, n, limit, first) && !names[n].dropped
    requires test[Slot(names[n].hash, size)] + EltSize(names[n].key) <= first + limit
    ensures var b, s := Slot(names[n].hash, size), EltSize(names[n].key);
      Sums(test[b := test[b] + s], names, size, n + 1, limit, first)
  {
    var b := Slot(names[n].hash, size);
    var test' := test[b := test[b] + EltSize(names[n].key)];
    var n' := n + 1;
    forall c: nat | c < size ensures SumAt(test', names, size, n', limit, first, c) {
      assert SumAt(test, names, size, n, limit, first, c);
      LoadStep(names, size, c, n);
    }
  }

  // ----- the search for a size

  ghost predicate AcceptedAt(names: seq<HashKey>, size: nat, limit: nat, n: nat)
    requires size > 0 && n < |names|
  {
    var up := names[..n + 1];
    !names[n].dropped ==> Load(up, size, Slot(names[n].hash, size)) % SHORT <= limit % SHORT
  }

  /** What the search tests: no sum exceeds the limit, both as an `u_short` holds them. */
  ghost predicate Accepted(names: seq<HashKey>, size: nat, limit: nat)
    requires size > 0
  {
    forall n: nat {:trigger AcceptedAt(names, size, limit, n)} :: n < |names| ==> AcceptedAt(names, size, limit, n)
  }

  ghost predicate ShortAt(test: seq<nat>, names: seq<HashKey>, size: nat, n: nat, b: nat)
    requires size > 0 && n <= |names| && b < |test|
  {
    test[b] == Load(names[..n], size, b) % SHORT
  }

  /** The sums in shorts after the names before `n` have been counted. */
  ghost predicate Shorts(test: seq<nat>, names: seq<HashKey>, size: nat, n: nat)
    requires size > 0 && n <= |names|
  {
    && |test| == size
    && forall b: nat {:trigger ShortAt(test, names, size, n, b)} :: b < size ==> ShortAt(test, names, size, n, b)
  }

  lemma ShortsDropped(test: seq<nat>, names: seq<HashKey>, size: nat, n: nat)
    requires size > 0 && n < |names| && Shorts(test, names, size, n) && names[n].dropped
    ensures Shorts(test, names, size, n + 1)
  {
    var n' := n + 1;
    forall b: nat | b < size ensures ShortAt(test, names, size, n', b) {
      assert ShortAt(test, names, size, n, b);
      LoadStep(names, size, b, n);
    }
  }

  lemma ShortsStep(test: seq<nat>, names: seq<HashKey>, size: nat, n: nat, b: nat)
    requires size > 0 && n < |names| && Shorts(test, names, size, n) && !names[n].dropped
    requires b == Slot(names[n].hash, size)
    ensures Shorts(test[b := (test[b] + EltSize(names[n].key)) % SHORT], names, size, n + 1)
  {
    var test' := test[b := (test[b] + EltSize(names[n].key)) % SHORT];
    var n' := n + 1;
    forall c: nat | c < size ensures ShortAt(test', names, size, n', c) {
      assert ShortAt(test, names, size, n, c);
      LoadStep(names, size, c, n);
    }
  }

  /** Whether the search takes that size. */
  method Fits(names: seq<HashKey>, size: nat, limit: nat) returns (ok: bool)
    requires size > 0
    ensures ok <==> Accepted(names, size, limit)
  {
    var test := new nat[size](_ => 0);
    var n: nat := 0;
    assert names[..0] == [];
    while n < |names|
      invariant n <= |names| && Shorts(test[..], names, size, n)
      invariant forall i: nat {:trigger AcceptedAt(names, size, limit, i)} :: i < n ==>
                  AcceptedAt(names, size, limit, i)
    {
      if names[n].dropped {
        ShortsDropped(test[..], names, size, n);
      } else {
        var key := names[n].hash % size;
        SlotIsRemainder(names[n].hash, size);
        ghost var t := test[..];
        ShortsStep(t, names, size, n, key);
        test[key] := (test[key] + EltSize(names[n].key)) % SHORT;
        assert test[..] == t[key := (t[key] + EltSize(names[n].key)) % SHORT];
        assert ShortAt(test[..], names, size, n + 1, key);
        if test[key] > limit % SHORT {
          assert !AcceptedAt(names, size, limit, n);
          return false;
        }
      }
      assert AcceptedAt(names, size, limit, n);
      n := n + 1;
    }
    return true;
  }

  /** Sums of sizes are multiples of eight: the largest one within the limit. */
  function Floor(limit: nat): (f: nat)
    ensures f <= limit < f + PTR_SIZE && f % PTR_SIZE == 0
  {
    limit - limit % PTR_SIZE
  }

  /** No sum that is within the limit wraps around when one more name is added. */
  ghost predicate NoWrap(names: seq<HashKey>, limit: nat) {
    forall k :: k in names && !k.dropped ==> Floor(limit) + EltSize(k.key) < SHORT
  }

  ghost predicate Within(names: seq<HashKey>, size: nat, limit: nat)
    requires size > 0
  {
    forall b: nat :: b < size ==> Load(names, size, b) <= limit
  }

  lemma LoadAligned(names: seq<HashKey>, size: nat, b: nat, limit: nat)
    requires size > 0
    ensures Load(names, size, b) % PTR_SIZE == 0
    ensures Load(names, size, b) <= limit <==> Load(names, size, b) <= Floor(limit)
  {
    SizeAligned(Items(names, size, b));
    MultipleBelow(Load(names, size, b), limit);
  }

  lemma MultipleBelow(n: nat, limit: nat)
    requires n % PTR_SIZE == 0
    ensures n <= limit <==> n <= Floor(limit)
  {
  }

  /** Where nothing wraps the search takes exactly the sizes whose buckets are within the limit. */
  lemma AcceptedIffWithin(names: seq<HashKey>, size: nat, limit: nat)
    requires size > 0 && limit < SHORT && NoWrap(names, limit)
    ensures Accepted(names, size, limit) <==> Within(names, size, limit)
    ensures Within(names, size, limit) ==> Within(names, size, Floor(limit))
  {
    if Accepted(names, size, limit) {
      assert names[..|names|] == names;
      forall b: nat | b < size ensures Load(names, size, b) <= limit {
        LoadLimited(names, size, limit, b, |names|);
      }
    }
    if Within(names, size, limit) {
      forall n: nat | n < |names| ensures AcceptedAt(names, size, limit, n) {
        LoadStep(names, size, Slot(names[n].hash, size), n);
      }
      forall b: nat | b < size ensures Load(names, size, b) <= Floor(limit) {
        LoadAligned(names, size, b, limit);
      }
    }
  }

  lemma {:induction false} LoadLimited(names: seq<HashKey>, size: nat, limit: nat, b: nat, n: nat)
    requires size > 0 && limit < SHORT && NoWrap(names, limit) && Accepted(names, size, limit) && n <= |names|
    ensures Load(names[..n], size, b) <= Floor(limit)
  {
    if n == 0 {
      assert names[..0] == [];
    } else {
      var last := n - 1;
      LoadLimited(names, size, limit, b, last);
      LoadStep(names, size, b, last);
      assert AcceptedAt(names, size, limit, last);
      assert names[last] in names;
      LoadAligned(names[..n], size, b, limit);
    }
  }

  // ----- where the search can be trusted

  /** The names that are not dropped take at most that many bytes each. */
  ghost predicate AtMost(names: seq<HashKey>, longest: nat) {
    forall k :: k in names && !k.dropped ==> EltSize(k.key) <= longest
  }

  /** With that limit, and names that take at most `longest` bytes, the search takes exactly the
      sizes whose buckets are within the limit. */
  ghost predicate Exact(limit: nat, longest: nat) {
    forall names: seq<HashKey>, size: nat :: size > 0 && AtMost(names, longest) ==>
      (Accepted(names, size, limit) <==> Within(names, size, limit))
  }

  /** The size of every bucket, with its null pointer and aligned, is the one that a short holds. */
  ghost predicate Aligned(names: seq<HashKey>, size: nat)
    requires size > 0
  {
    forall b: nat :: b < size ==> Align(PTR_SIZE + Load(names, size, b), CACHELINE) < SHORT
  }

  /** Whatever size the search takes, all buckets are within the limit and keep their size. */
  ghost predicate Safe(limit: nat, longest: nat) {
    forall names: seq<HashKey>, size: nat :: size > 0 && AtMost(names, longest) && Accepted(names, size, limit) ==>
      Within(names, size, limit) && Aligned(names, size)
  }

  /** That is so iff the largest sum within the limit does not wrap with the longest name. */
  lemma ExactIff(limit: nat, longest: nat)
    requires 16 <= longest <= limit
    ensures Exact(limit, longest) <==> Floor(limit) + Floor(longest) < SHORT
  {
    if Floor(limit) + Floor(longest) < SHORT {
      forall names: seq<HashKey>, size: nat | size > 0 && AtMost(names, longest)
        ensures Accepted(names, size, limit) <==> Within(names, size, limit)
      {
        ShortNames(names, limit, longest);
        AcceptedIffWithin(names, size, limit);
      }
    } else if limit < SHORT {
      var names := Overfull(limit, longest);
    } else if limit % SHORT < SHORT - 16 {
      var names := Refused(limit, longest);
    } else {
      var names := Boundless(limit, longest);
    }
  }

  /** And nothing goes wrong behind the search iff a cache line fits behind that sum as well. */
  lemma SafeIff(limit: nat, longest: nat)
    requires 16 <= longest <= limit < SHORT
    ensures Safe(limit, longest) <==>
      Floor(limit) + Floor(longest) < SHORT && PTR_SIZE + Floor(limit) + CACHELINE <= SHORT
  {
    if Floor(limit) + Floor(longest) >= SHORT {
      var names := Overfull(limit, longest);
    } else if PTR_SIZE + Floor(limit) + CACHELINE > SHORT {
      var names := Misaligned(limit, longest);
    } else {
      forall names: seq<HashKey>, size: nat | size > 0 && AtMost(names, longest) && Accepted(names, size, limit)
        ensures Within(names, size, limit) && Aligned(names, size)
      {
        ShortNames(names, limit, longest);
        AcceptedIffWithin(names, size, limit);
      }
    }
  }

  lemma ShortNames(names: seq<HashKey>, limit: nat, longest: nat)
    requires AtMost(names, longest) && Floor(limit) + Floor(longest) < SHORT
    ensures NoWrap(names, limit)
  {
    forall k | k in names && !k.dropped ensures Floor(limit) + EltSize(k.key) < SHORT {
      SizeIsAligned(k.key);
      MultipleBelow(EltSize(k.key), longest);
    }
  }

  // ----- names that fill one bucket

  /** One name for each size, all with the hash zero. */
  ghost function Keys(sizes: seq<nat>): seq<HashKey>
    requires Sizes(sizes)
  {
    seq(|sizes|, i requires 0 <= i < |sizes| => HashKey(false, seq(sizes[i] - 10, _ => 'a'), 0, 1))
  }

  ghost predicate Sizes(sizes: seq<nat>) {
    forall i :: 0 <= i < |sizes| ==> sizes[i] >= 16 && sizes[i] % PTR_SIZE == 0
  }

  ghost function Sum(sizes: seq<nat>): nat {
    if sizes == [] then 0 else Sum(sizes[..|sizes| - 1]) + sizes[|sizes| - 1]
  }

  lemma SizeOfKey(e: nat)
    requires e >= 16 && e % PTR_SIZE == 0
    ensures EltSize(seq(e - 10, _ => 'a')) == e
  {
    var q := (e - 16) / PTR_SIZE;
    AlignBehind(q, PTR_SIZE);
    assert e - 8 == PTR_SIZE * q + PTR_SIZE;
  }

  lemma KeyAt(sizes: seq<nat>, i: nat)
    requires Sizes(sizes) && i < |sizes|
    ensures var k := Keys(sizes)[i]; !k.dropped && Slot(k.hash, 1) == 0 && EltSize(k.key) == sizes[i]
  {
    SizeOfKey(sizes[i]);
  }

  lemma SumNext(sizes: seq<nat>, i: nat)
    requires i < |sizes|
    ensures Sum(sizes[..i + 1]) == Sum(sizes[..i]) + sizes[i]
  {
    assert sizes[..i + 1][..i] == sizes[..i];
  }

  lemma LoadOfNext(names: seq<HashKey>, sizes: seq<nat>, i: nat)
    requires i < |names| == |sizes| && Load(names[..i], 1, 0) == Sum(sizes[..i])
    requires !names[i].dropped && Slot(names[i].hash, 1) == 0 && EltSize(names[i].key) == sizes[i]
    ensures Load(names[..i + 1], 1, 0) == Sum(sizes[..i + 1])
  {
    LoadStep(names, 1, 0, i);
    SumNext(sizes, i);
  }

  lemma {:induction false} LoadOfKeys(sizes: seq<nat>, n: nat)
    requires Sizes(sizes) && n <= |sizes|
    ensures Load(Keys(sizes)[..n], 1, 0) == Sum(sizes[..n])
  {
    var names := Keys(sizes);
    if n == 0 {
      assert names[..0] == [];
    } else {
      LoadOfKeys(sizes, n - 1);
      KeyAt(sizes, n - 1);
      LoadOfNext(names, sizes, n - 1);
    }
  }

  lemma KeysAtMost(sizes: seq<nat>, longest: nat)
    requires Sizes(sizes) && forall i :: 0 <= i < |sizes| ==> sizes[i] <= longest
    ensures AtMost(Keys(sizes), longest)
  {
    var names := Keys(sizes);
    forall k | k in names ensures EltSize(k.key) <= longest {
      var i :| 0 <= i < |names| && names[i] == k;
      SizeOfKey(sizes[i]);
    }
  }

  ghost predicate SumFits(sizes: seq<nat>, n: nat, limit: nat)
    requires n <= |sizes|
  {
    Sum(sizes[..n]) % SHORT <= limit % SHORT
  }

  ghost predicate SumsFit(sizes: seq<nat>, limit: nat) {
    forall n: nat {:trigger SumFits(sizes, n, limit)} :: 0 < n <= |sizes| ==> SumFits(sizes, n, limit)
  }

  /** The search takes one bucket for all of them if no running sum is over the limit. */
  lemma KeysAccepted(sizes: seq<nat>, limit: nat)
    requires Sizes(sizes) && SumsFit(sizes, limit)
    ensures Accepted(Keys(sizes), 1, limit) && Load(Keys(sizes), 1, 0) == Sum(sizes)
  {
    var names := Keys(sizes);
    forall n: nat | n < |names| ensures AcceptedAt(names, 1, limit, n) {
      LoadOfKeys(sizes, n + 1);
      assert Slot(0, 1) == 0 && SumFits(sizes, n + 1, limit);
    }
    LoadOfKeys(sizes, |sizes|);
    assert names[..|sizes|] == names && sizes[..|sizes|] == sizes;
  }

  /** `8 * q` bytes: sixteen at a time, and once 24 where that is needed. */
  ghost function Fill(q: nat): (sizes: seq<nat>)
    requires q != 1
    ensures Sizes(sizes) && forall i :: 0 <= i < |sizes| ==> sizes[i] == 16 || sizes[i] == 24
  {
    if q == 0 then [] else if q == 3 then [24] else Fill(q - 2) + [16]
  }

  lemma {:induction false} FillEven(q: nat)
    requires q % 2 == 0
    ensures forall i :: 0 <= i < |Fill(q)| ==> Fill(q)[i] == 16
  {
    if q > 0 { FillEven(q - 2); }
  }

  lemma OneSize(h: seq<nat>, e: nat)
    ensures Sum(h + [e]) == Sum(h) + e && (h + [e])[..|h| + 1] == h + [e]
    ensures forall n :: 0 <= n <= |h| ==> (h + [e])[..n] == h[..n]
  {
    assert (h + [e])[..|h|] == h;
  }

  lemma {:induction false} PrefixBelow(sizes: seq<nat>, n: nat)
    requires n <= |sizes|
    ensures Sum(sizes[..n]) <= Sum(sizes)
    decreases |sizes|
  {
    if n == |sizes| {
      assert sizes[..n] == sizes;
    } else {
      var h := sizes[..|sizes| - 1];
      PrefixBelow(h, n);
      assert sizes[..n] == h[..n];
    }
  }

  lemma SmallSums(sizes: seq<nat>, limit: nat)
    requires Sum(sizes) <= limit < SHORT
    ensures SumsFit(sizes, limit)
  {
    forall n: nat | 0 < n <= |sizes| ensures SumFits(sizes, n, limit) {
      PrefixBelow(sizes, n);
      Unwrapped(Sum(sizes[..n]), limit);
    }
  }

  lemma Unwrapped(n: nat, limit: nat)
    requires n <= limit < SHORT
    ensures n % SHORT <= limit % SHORT
  {
  }

  lemma {:induction false} SixteensOnly(sizes: seq<nat>, n: nat)
    requires n <= |sizes| && forall i :: 0 <= i < |sizes| ==> sizes[i] == 16
    ensures Sum(sizes[..n]) % 16 == 0
  {
    if n > 0 {
      SixteensOnly(sizes, n - 1);
      assert sizes[..n][..n - 1] == sizes[..n - 1];
    }
  }

  lemma {:induction false} FillSum(q: nat)
    requires q != 1
    ensures Sum(Fill(q)) == PTR_SIZE * q
  {
    if q == 3 {
      OneSize([], 24);
      assert [] + [24] == [24];
    } else if q > 0 {
      FillSum(q - 2);
      OneSize(Fill(q - 2), 16);
    }
  }

  lemma FillAtMost(q: nat, longest: nat)
    requires q != 1 && longest >= 16 && (q % 2 == 1 ==> longest >= 24)
    ensures forall i :: 0 <= i < |Fill(q)| ==> Fill(q)[i] <= longest
  {
    if q % 2 == 0 { FillEven(q); }
  }

  /** Names that fill a bucket with `8 * q` bytes, and one more. */
  lemma OneMore(q: nat, e: nat, limit: nat, longest: nat) returns (names: seq<HashKey>)
    requires q != 1 && PTR_SIZE * q <= limit < SHORT && (q % 2 == 1 ==> 24 <= longest)
    requires 16 <= e <= longest && e % PTR_SIZE == 0 && (PTR_SIZE * q + e) % SHORT <= limit % SHORT
    ensures AtMost(names, longest) && Accepted(names, 1, limit) && Load(names, 1, 0) == PTR_SIZE * q + e
  {
    FillSum(q);
    FillAtMost(q, longest);
    names := Lengthened(Fill(q), e, limit, longest);
  }

  lemma Lengthened(h: seq<nat>, e: nat, limit: nat, longest: nat) returns (names: seq<HashKey>)
    requires Sizes(h + [e]) && Sum(h) <= limit < SHORT && (Sum(h) + e) % SHORT <= limit % SHORT
    requires e <= longest && forall i :: 0 <= i < |h| ==> h[i] <= longest
    ensures AtMost(names, longest) && Accepted(names, 1, limit) && Load(names, 1, 0) == Sum(h) + e
  {
    var sizes := h + [e];
    OneSize(h, e);
    SmallSums(h, limit);
    SumsFitLonger(h, e, limit);
    KeysAtMost(sizes, longest);
    KeysAccepted(sizes, limit);
    names := Keys(sizes);
  }

  lemma SumsFitLonger(h: seq<nat>, e: nat, limit: nat)
    requires SumsFit(h, limit) && (Sum(h) + e) % SHORT <= limit % SHORT
    ensures SumsFit(h + [e], limit)
  {
    OneSize(h, e);
    forall n: nat | 0 < n <= |h + [e]| ensures SumFits(h + [e], n, limit) {
      if n <= |h| { assert SumFits(h, n, limit); }
    }
  }

  /** A bucket filled so far that the longest name makes the sum wrap. */
  lemma Overfull(limit: nat, longest: nat) returns (names: seq<HashKey>)
    requires 16 <= longest <= limit < SHORT && Floor(limit) + Floor(longest) >= SHORT
    ensures AtMost(names, longest) && Accepted(names, 1, limit)
    ensures !Within(names, 1, limit)
  {
    var e := Floor(longest) / PTR_SIZE;
    var q := SHORT / PTR_SIZE - e;
    if q == 1 { q := 2; }
    names := OneMore(q, PTR_SIZE * e, limit, longest);
  }

  /** A limit beyond a short: a bucket within it is refused. */
  lemma Refused(limit: nat, longest: nat) returns (names: seq<HashKey>)
    requires 16 <= longest && limit >= SHORT && limit % SHORT < SHORT - 16
    ensures AtMost(names, longest) && !Accepted(names, 1, limit) && Within(names, 1, limit)
  {
    var q := NextEven(limit % SHORT);
    var sizes := Fill(q);
    FillAtMost(q, longest);
    FillSum(q);
    KeysAtMost(sizes, longest);
    names := Keys(sizes);
    LastRefused(sizes, limit);
  }

  /** The next multiple of sixteen, counted in eights. */
  lemma NextEven(n: nat) returns (q: nat)
    ensures n < PTR_SIZE * q <= n + 16 && q % 2 == 0
  {
    q := 2 * (n / 16 + 1);
  }

  lemma LastRefused(sizes: seq<nat>, limit: nat)
    requires Sizes(sizes) && sizes != [] && limit % SHORT < Sum(sizes) < SHORT <= limit
    ensures !Accepted(Keys(sizes), 1, limit) && Within(Keys(sizes), 1, limit)
  {
    var names, last := Keys(sizes), |sizes| - 1;
    LoadOfKeys(sizes, |sizes|);
    assert names[..|names|] == names && sizes[..|sizes|] == sizes && Slot(0, 1) == 0;
    assert !AcceptedAt(names, 1, limit, last);
  }

  /** Or no bucket of names of sixteen bytes ever is. */
  lemma Boundless(limit: nat, longest: nat) returns (names: seq<HashKey>)
    requires 16 <= longest && limit % SHORT >= SHORT - 16
    ensures AtMost(names, longest) && Accepted(names, 1, limit) && !Within(names, 1, limit)
  {
    var q := NextEven(limit);
    var sizes := Fill(q);
    FillEven(q);
    FillSum(q);
    forall n: nat | 0 < n <= |sizes| ensures SumFits(sizes, n, limit) {
      SixteensOnly(sizes, n);
      SixteensInShort(Sum(sizes[..n]));
    }
    KeysAtMost(sizes, longest);
    KeysAccepted(sizes, limit);
    names := Keys(sizes);
  }

  lemma SixteensInShort(sum: nat)
    requires sum % 16 == 0
    ensures sum % SHORT <= SHORT - 16
  {
  }

  lemma FilledAccepted(q: nat, limit: nat, longest: nat) returns (names: seq<HashKey>)
    requires q % 2 == 0 && PTR_SIZE * q <= limit < SHORT && 16 <= longest
    ensures AtMost(names, longest) && Accepted(names, 1, limit) && Load(names, 1, 0) == PTR_SIZE * q
  {
    var sizes := Fill(q);
    FillEven(q);
    FillSum(q);
    SmallSums(sizes, limit);
    KeysAtMost(sizes, longest);
    KeysAccepted(sizes, limit);
    names := Keys(sizes);
  }

  /** A full bucket that leaves no room for a cache line. */
  lemma Misaligned(limit: nat, longest: nat) returns (names: seq<HashKey>)
    requires 16 <= longest <= limit < SHORT && PTR_SIZE + Floor(limit) + CACHELINE > SHORT
    ensures AtMost(names, longest) && Accepted(names, 1, limit) && !Aligned(names, 1)
  {
    names := FilledAccepted((SHORT - CACHELINE) / PTR_SIZE, limit, longest);
    AlignShort(PTR_SIZE + Load(names, 1, 0));
  }

  /** Where a sum can wrap, it goes wrong: when `q` names of one size fill a bucket up to the
      limit and one more makes the sum wrap, the search takes a table with a single bucket for
      all of them, which is over the limit. */
  lemma OverfullAccepted(key: string, limit: nat, q: nat) returns (names: seq<HashKey>)
    requires EltSize(key) <= limit < SHORT && q * EltSize(key) <= limit && SHORT <= q * EltSize(key) + EltSize(key)
    ensures names == seq(q + 1, _ => HashKey(false, key, 0, 1))
    ensures Accepted(names, 1, limit) && Load(names, 1, 0) == q * EltSize(key) + EltSize(key) > limit
  {
    names := seq(q + 1, _ => HashKey(false, key, 0, 1));
    forall n: nat | n < |names| ensures AcceptedAt(names, 1, limit, n) {
      var load := SumOfCopies(q, EltSize(key), limit, n);
      LoadOfCopies(names, key, n + 1, load);
      CopyAccepted(names, key, limit, n, load);
    }
    LoadOfCopies(names, key, q + 1, q * EltSize(key) + EltSize(key));
    assert names[..q + 1] == names;
  }

  lemma CopyAccepted(names: seq<HashKey>, key: string, limit: nat, n: nat, load: nat)
    requires n < |names| && names[n] == HashKey(false, key, 0, 1)
    requires Load(names[..n + 1], 1, 0) == load && load % SHORT <= limit % SHORT
    ensures AcceptedAt(names, 1, limit, n)
  {
    assert Slot(0, 1) == 0;
  }

  /** The sum of `n + 1` sizes, which only the last one makes wrap. */
  lemma SumOfCopies(q: nat, e: nat, limit: nat, n: nat) returns (load: nat)
    requires e <= limit < SHORT && q * e <= limit && SHORT <= q * e + e && n <= q
    ensures load == (n + 1) * e && load % SHORT <= limit % SHORT
  {
    load := n * e + e;
    if n < q { Times(n + 1, q, e); } else { WrapsBelow(q * e, e, limit); }
  }

  lemma Times(n: nat, q: nat, e: nat)
    requires n <= q
    ensures n * e <= q * e
  {
  }

  lemma WrapsBelow(full: nat, e: nat, limit: nat)
    requires full <= limit < SHORT && e <= limit && SHORT <= full + e
    ensures (full + e) % SHORT <= limit % SHORT
  {
  }

  lemma {:induction false} LoadOfCopies(names: seq<HashKey>, key: string, n: nat, load: nat)
    requires n <= |names| && forall k :: k in names ==> k == HashKey(false, key, 0, 1)
    requires load == n * EltSize(key)
    ensures Load(names[..n], 1, 0) == load
  {
    if n == 0 {
      assert names[..0] == [];
    } else {
      var last := n - 1;
      assert load == last * EltSize(key) + EltSize(key);
      LoadOfCopies(names, key, last, last * EltSize(key));
      LoadStep(names, 1, 0, last);
      assert names[last] in names && Slot(0, 1) == 0;
    }
  }

  /** Such a bucket can even count as empty: 4096 names of six characters, a bucket size of 65536
      and a table of one bucket, in which the sum of all sizes wraps to nothing. */
  lemma FullCountsAsEmpty() returns (names: seq<HashKey>)
    ensures |names| == 4096 && forall k :: k in names ==> !k.dropped && |k.key| == 6
    ensures FirstSize(|names|, 65536, 1) == 1 && Accepted(names, 1, 65536 - PTR_SIZE)
    ensures !Within(names, 1, 65536 - PTR_SIZE) && (PTR_SIZE + Load(names, 1, 0)) % SHORT == PTR_SIZE
  {
    var key := "worker";
    assert EltSize(key) == 16;
    names := OverfullAccepted(key, 65536 - PTR_SIZE, 4095);
    assert Load(names, 1, 0) == 65536;
  }

  // ----- the layout of the block

  /** The bytes a bucket takes, with the null pointer behind its items. */
  function Capacity(load: nat): nat {
    if load == 0 then 0 else Align(PTR_SIZE + load, CACHELINE)
  }

  /** Where bucket `b` begins. */
  ghost function Start(names: seq<HashKey>, size: nat, b: nat): nat
    requires size > 0
  {
    if b == 0 then 0 else Start(names, size, b - 1) + Capacity(Load(names, size, b - 1))
  }

  lemma CapacityFits(load: nat)
    ensures Capacity(load) % 8 == 0 && (load > 0 ==> Capacity(load) >= PTR_SIZE + load)
  {
    AlignedTo(PTR_SIZE + load, CACHELINE);
  }

  lemma {:induction false} StartAligned(names: seq<HashKey>, size: nat, b: nat)
    requires size > 0
    ensures Start(names, size, b) % 8 == 0
  {
    if b > 0 {
      StartAligned(names, size, b - 1);
      CapacityFits(Load(names, size, b - 1));
    }
  }

  lemma {:induction false} StartsGrow(names: seq<HashKey>, size: nat, b: nat, c: nat)
    requires size > 0 && b < c
    ensures Start(names, size, b) + Capacity(Load(names, size, b)) <= Start(names, size, c)
    decreases c
  {
    if b < c - 1 { StartsGrow(names, size, b, c - 1); }
  }

  /** Adds the size of name `n` to the sum of its bucket. */
  method AddSize(names: seq<HashKey>, size: nat, limit: nat, n: nat, test: array<nat>, ghost first: nat)
    requires size > 0 && n < |names| && !names[n].dropped && first + limit < SHORT
    requires Load(names, size, Slot(names[n].hash, size)) <= limit && Sums(test[..], names, size, n, limit, first)
    modifies test
    ensures Sums(test[..], names, size, n + 1, limit, first)
  {
    var key := names[n].hash % size;
    SlotIsRemainder(names[n].hash, size);
    ghost var t := test[..];
    SumsBound(t, names, size, n, limit, first);
    test[key] := (test[key] + EltSize(names[n].key)) % SHORT;
    SumsStep(t, names, size, n, limit, first);
    assert test[..] == t[key := t[key] + EltSize(names[n].key)];
  }

  /** The sums of the sizes, each from `first` on, for a table whose buckets are within the limit. */
  method Count(names: seq<HashKey>, size: nat, limit: nat, first: nat) returns (test: array<nat>)
    requires size > 0 && first + limit < SHORT && Within(names, size, limit)
    ensures fresh(test) && Sums(test[..], names, size, |names|, limit, first)
  {
    test := new nat[size](_ => first);
    var n: nat := 0;
    assert names[..0] == [];
    while n < |names|
      invariant n <= |names| && test.Length == size && Sums(test[..], names, size, n, limit, first)
    {
      if names[n].dropped {
        SumsDropped(test[..], names, size, n, limit, first);
      } else {
        AddSize(names, size, limit, n, test, first);
      }
      n := n + 1;
    }
  }

  /** Where a bucket is to be, and nowhere if it is empty. */
  function PlaceIn(loads: seq<nat>, b: nat): int
    requires b < |loads|
  {
    if loads[b] == 0 then -1 else StartIn(loads, b)
  }

  /** Where bucket `b` begins when the buckets have these loads. */
  function StartIn(loads: seq<nat>, b: nat): nat
    requires b <= |loads|
  {
    if b == 0 then 0 else StartIn(loads, b - 1) + Capacity(loads[b - 1])
  }

  function Bytes(load: nat): nat {
    if load == 0 then PTR_SIZE else Capacity(load)
  }

  /** A size in a short survives the alignment iff it leaves room for a cache line. */
  lemma AlignShort(n: nat)
    requires n < SHORT
    ensures Align(n, CACHELINE) % SHORT == Align(n, CACHELINE) <==> n + CACHELINE <= SHORT
  {
    AlignedTo(n, CACHELINE);
  }

  /** The bytes of each bucket, a pointer for an empty one; and the length of the block. */
  method Measure(size: nat, limit: nat, test: array<nat>, ghost loads: seq<nat>) returns (len: nat)
    requires PTR_SIZE + limit + CACHELINE <= SHORT && test.Length == size == |loads|
    requires forall b :: 0 <= b < size ==> test[b] == PTR_SIZE + loads[b] && loads[b] <= limit
    modifies test
    ensures len == StartIn(loads, size) && forall b :: 0 <= b < size ==> test[b] == Bytes(loads[b])
  {
    len := 0;
    for i := 0 to size
      invariant len == StartIn(loads, i)
      invariant forall b :: 0 <= b < i ==> test[b] == Bytes(loads[b])
      invariant forall b :: i <= b < size ==> test[b] == PTR_SIZE + loads[b] && loads[b] <= limit
    {
      if test[i] != PTR_SIZE {
        AlignShort(test[i]);
        test[i] := Align(test[i], CACHELINE) % SHORT;
        len := len + test[i];
      }
    }
  }

  method PlaceBuckets(size: nat, test: array<nat>, buckets: array<int>, ghost loads: seq<nat>)
    requires test.Length == size == buckets.Length == |loads|
    requires forall b :: 0 <= b < size ==> test[b] == Bytes(loads[b]) && buckets[b] == -1
    modifies buckets
    ensures forall b :: 0 <= b < size ==> buckets[b] == PlaceIn(loads, b)
  {
    var elts: nat := 0;
    for i := 0 to size
      invariant elts == StartIn(loads, i)
      invariant forall b :: 0 <= b < size ==> buckets[b] == if b < i then PlaceIn(loads, b) else -1
    {
      CapacityFits(loads[i]);
      if test[i] != PTR_SIZE {
        buckets[i] := elts;
        elts := elts + test[i];
      }
    }
  }

  ghost function Loads(names: seq<HashKey>, size: nat): (l: seq<nat>)
    requires size > 0
    ensures |l| == size
  {
    seq(size, b requires 0 <= b < size => Load(names, size, b))
  }

  ghost function Place(names: seq<HashKey>, size: nat, b: nat): int
    requires size > 0
  {
    if Load(names, size, b) == 0 then -1 else Start(names, size, b)
  }

  lemma {:induction false} StartOfLoads(names: seq<HashKey>, size: nat, b: nat)
    requires size > 0 && b <= size
    ensures StartIn(Loads(names, size), b) == Start(names, size, b)
  {
    if b > 0 { StartOfLoads(names, size, b - 1); }
  }

  lemma PlacesOfLoads(names: seq<HashKey>, size: nat)
    requires size > 0
    ensures forall b: nat :: b < size ==> PlaceIn(Loads(names, size), b) == Place(names, size, b)
  {
    forall b: nat | b < size ensures PlaceIn(Loads(names, size), b) == Place(names, size, b) {
      StartOfLoads(names, size, b);
    }
  }

  lemma SumsOfLoads(test: seq<nat>, names: seq<HashKey>, size: nat, limit: nat)
    requires size > 0 && Sums(test, names, size, |names|, limit, PTR_SIZE)
    ensures forall b :: 0 <= b < size ==> test[b] == PTR_SIZE + Loads(names, size)[b] && Loads(names, size)[b] <= limit
  {
    assert names[..|names|] == names;
    forall b | 0 <= b < size ensures test[b] == PTR_SIZE + Loads(names, size)[b] && Loads(names, size)[b] <= limit {
      assert SumAt(test, names, size, |names|, limit, PTR_SIZE, b);
    }
  }

  // ----- the elements

  /** Nothing but `size` bytes from `at` on differs. */
  ghost predicate Only(m: seq<Cell>, m': seq<Cell>, at: nat, size: nat) {
    |m'| == |m| && forall i :: 0 <= i < |m| && !(at <= i < at + size) ==> m'[i] == m[i]
  }

  lemma PtrFrame(m: seq<Cell>, m': seq<Cell>, a: nat, value: nat, at: nat)
    requires PtrAt(m, a, value) && Only(m, m', at, PTR_SIZE)
    requires a + PTR_SIZE <= at || at + PTR_SIZE <= a
    ensures PtrAt(m', a, value)
  {
  }

  lemma LowerSize(key: string)
    ensures EltSize(Lower(key)) == EltSize(key)
  {
  }

  method WritePtr(mem: array<Cell>, a: nat, value: nat)
    requires a + 8 <= mem.Length
    modifies mem
    ensures PtrAt(mem[..], a, value)
    ensures forall i :: 0 <= i < mem.Length && !(a <= i < a + 8) ==> mem[i] == old(mem[i])
  {
    for k := 0 to 8
      invariant forall j :: 0 <= j < k ==> mem[a + j] == Ptr(value, j)
      invariant forall i :: 0 <= i < mem.Length && !(a <= i < a + 8) ==> mem[i] == old(mem[i])
    {
      mem[a + k] := Ptr(value, k);
    }
  }

  /** The item has been written at `at`, and nothing else. */
  ghost predicate Written(m: seq<Cell>, m': seq<Cell>, x: Item, at: nat) {
    var item := ItemAt(m', at, x);
    var only := Only(m, m', at, EltSize(x.name));
    item && only
  }

  /** Writes an element; the name is written in lower case. */
  method WriteItem(mem: array<Cell>, a: nat, key: string, value: nat)
    requires a + EltSize(key) <= mem.Length
    modifies mem
    ensures Written(old(mem[..]), mem[..], Item(Lower(key), value), a)
  {
    SizeIsAligned(key);
    LowerSize(key);
    WritePtr(mem, a, value);
    mem[a + 8] := Len(|key|, 0);
    mem[a + 9] := Len(|key|, 1);
    for n := 0 to |key|
      invariant PtrAt(mem[..], a, value) && mem[a + 8] == Len(|key|, 0) && mem[a + 9] == Len(|key|, 1)
      invariant forall j :: 0 <= j < n ==> mem[a + 10 + j] == Char(Lower(key)[j])
      invariant forall i :: 0 <= i < mem.Length && !(a <= i < a + EltSize(key)) ==> mem[i] == old(mem[i])
    {
      mem[a + 10 + n] := Char(ToLower(key[n]));
    }
  }

  /** Bucket `b` lies in the block and apart from the others. */
  lemma BucketInBlock(names: seq<HashKey>, size: nat, b: nat)
    requires size > 0 && b < size
    ensures Start(names, size, b) + Load(names, size, b) <= Start(names, size, size)
    ensures Load(names, size, b) > 0 ==>
              Start(names, size, b) + Load(names, size, b) + PTR_SIZE <= Start(names, size, size)
  {
    StartsGrow(names, size, b, size);
    CapacityFits(Load(names, size, b));
  }

  lemma BucketsApart(names: seq<HashKey>, size: nat, b: nat, c: nat)
    requires size > 0 && b != c
    ensures var s, t := Start(names, size, b), Start(names, size, c);
      s + Capacity(Load(names, size, b)) <= t || t + Capacity(Load(names, size, c)) <= s
    ensures Load(names, size, b) <= Capacity(Load(names, size, b))
    ensures Load(names, size, c) <= Capacity(Load(names, size, c))
    ensures Load(names, size, b) > 0 ==> Load(names, size, b) + PTR_SIZE <= Capacity(Load(names, size, b))
  {
    CapacityFits(Load(names, size, b));
    CapacityFits(Load(names, size, c));
    if b < c { StartsGrow(names, size, b, c); } else { StartsGrow(names, size, c, b); }
  }

  /** The items of bucket `b` among the names before `n` are in their place. */
  ghost predicate Filled(m: seq<Cell>, names: seq<HashKey>, size: nat, n: nat, b: nat)
    requires size > 0 && n <= |names|
  {
    Run(m, Start(names, size, b), Items(names[..n], size, b))
  }

  ghost predicate AllFilled(m: seq<Cell>, names: seq<HashKey>, size: nat, n: nat)
    requires size > 0 && n <= |names|
  {
    forall b: nat {:trigger Filled(m, names, size, n, b)} :: b < size ==> Filled(m, names, size, n, b)
  }

  /** Where name `n` is to be written. */
  ghost function PlaceOf(names: seq<HashKey>, size: nat, n: nat): nat
    requires size > 0 && n < |names|
  {
    Start(names, size, Slot(names[n].hash, size)) + Load(names[..n], size, Slot(names[n].hash, size))
  }

  lemma FilledSame(m: seq<Cell>, m': seq<Cell>, names: seq<HashKey>, size: nat, n: nat, at: nat)
    requires size > 0 && n < |names| && !names[n].dropped && |m| == Start(names, size, size)
    requires Filled(m, names, size, n, Slot(names[n].hash, size))
    requires at == PlaceOf(names, size, n) && Written(m, m', ItemOf(names[n]), at)
    ensures Filled(m', names, size, n + 1, Slot(names[n].hash, size))
  {
    var b := Slot(names[n].hash, size);
    ItemsStep(names, size, b, n);
    var items, x := Items(names[..n], size, b), ItemOf(names[n]);
    SizeAppend(items, x);
    LoadGrows(names, size, b, n + 1);
    BucketInBlock(names, size, b);
    assert Size(items) + EltSize(x.name) <= Load(names, size, b);
    RunExtend(m, m', Start(names, size, b), items, x, at);
  }

  lemma RunExtend(m: seq<Cell>, m': seq<Cell>, a: nat, items: seq<Item>, x: Item, at: nat)
    requires Run(m, a, items) && a + Size(items) + EltSize(x.name) <= |m|
    requires Written(m, m', x, at) && at == a + Size(items)
    ensures Run(m', a, items + [x])
  {
    RunFrame(m, m', a, items);
    RunAppend(m', a, items, x);
  }

  lemma FilledOther(m: seq<Cell>, m': seq<Cell>, names: seq<HashKey>, size: nat, n: nat, at: nat, b: nat)
    requires size > 0 && n < |names| && !names[n].dropped && b < size && b != Slot(names[n].hash, size)
    requires Filled(m, names, size, n, b) && at == PlaceOf(names, size, n) && Written(m, m', ItemOf(names[n]), at)
    ensures Filled(m', names, size, n + 1, b)
  {
    var k := Slot(names[n].hash, size);
    var items := Items(names[..n], size, b);
    ItemsStep(names, size, b, n);
    assert items + [] == items;
    LoadStep(names, size, k, n);
    BucketsApart(names, size, b, k);
    LoadGrows(names, size, b, n);
    RunFrame(m, m', Start(names, size, b), items);
  }

  lemma FilledStep(m: seq<Cell>, m': seq<Cell>, names: seq<HashKey>, size: nat, n: nat, at: nat)
    requires size > 0 && n < |names| && !names[n].dropped && |m| == Start(names, size, size)
    requires AllFilled(m, names, size, n) && at == PlaceOf(names, size, n) && Written(m, m', ItemOf(names[n]), at)
    ensures AllFilled(m', names, size, n + 1)
  {
    var n' := n + 1;
    forall b: nat | b < size ensures Filled(m', names, size, n', b) {
      assert Filled(m, names, size, n, b);
      if b == Slot(names[n].hash, size) {
        FilledSame(m, m', names, size, n, at);
      } else {
        FilledOther(m, m', names, size, n, at, b);
      }
    }
  }

  lemma FilledDropped(m: seq<Cell>, names: seq<HashKey>, size: nat, n: nat)
    requires size > 0 && n < |names| && names[n].dropped && AllFilled(m, names, size, n)
    ensures AllFilled(m, names, size, n + 1)
  {
    var n' := n + 1;
    forall b: nat | b < size ensures Filled(m, names, size, n', b) {
      assert Filled(m, names, size, n, b);
      ItemsStep(names, size, b, n);
      assert Items(names[..n], size, b) + [] == Items(names[..n], size, b);
    }
  }

  /** Where the buckets are. */
  ghost predicate Placed(buckets: seq<int>, names: seq<HashKey>, size: nat)
    requires size > 0
  {
    |buckets| == size && forall b: nat :: b < size ==> buckets[b] == Place(names, size, b)
  }

  /** Writes all elements, bucket by bucket as the names come. */
  method WriteItems(names: seq<HashKey>, size: nat, limit: nat, buckets: array<int>, mem: array<Cell>)
    returns (test: array<nat>)
    requires size > 0 && limit < SHORT && Within(names, size, limit) && Placed(buckets[..], names, size)
    requires mem.Length == Start(names, size, size)
    modifies mem
    ensures AllFilled(mem[..], names, size, |names|) && Sums(test[..], names, size, |names|, limit, 0)
  {
    test := new nat[size](_ => 0);
    var n: nat := 0;
    NothingFilled(mem[..], names, size, limit, test[..]);
    while n < |names|
      invariant n <= |names| && fresh(test) && Placed(buckets[..], names, size)
      invariant Sums(test[..], names, size, n, limit, 0) && AllFilled(mem[..], names, size, n)
    {
      WriteNext(names, size, limit, n, test, buckets, mem);
      n := n + 1;
    }
  }

  method WriteNext(names: seq<HashKey>, size: nat, limit: nat, n: nat, test: array<nat>, buckets: array<int>,
                   mem: array<Cell>)
    requires size > 0 && n < |names| && limit < SHORT && Within(names, size, limit)
    requires Placed(buckets[..], names, size) && mem.Length == Start(names, size, size)
    requires Sums(test[..], names, size, n, limit, 0) && AllFilled(mem[..], names, size, n)
    modifies mem, test
    ensures Sums(test[..], names, size, n + 1, limit, 0) && AllFilled(mem[..], names, size, n + 1)
  {
    if names[n].dropped {
      SumsDropped(test[..], names, size, n, limit, 0);
      FilledDropped(mem[..], names, size, n);
    } else {
      WriteOne(names, size, limit, n, test, buckets, mem);
    }
  }

  lemma NothingFilled(m: seq<Cell>, names: seq<HashKey>, size: nat, limit: nat, test: seq<nat>)
    requires size > 0 && |m| == Start(names, size, size) && |test| == size && forall b :: 0 <= b < size ==> test[b] == 0
    ensures AllFilled(m, names, size, 0) && Sums(test, names, size, 0, limit, 0)
  {
    assert names[..0] == [];
    forall b: nat | b < size ensures Filled(m, names, size, 0, b) { BucketInBlock(names, size, b); }
    forall b: nat | b < size ensures SumAt(test, names, size, 0, limit, 0, b) {}
  }

  method WriteOne(names: seq<HashKey>, size: nat, limit: nat, n: nat, test: array<nat>, buckets: array<int>,
                  mem: array<Cell>)
    requires size > 0 && n < |names| && !names[n].dropped && limit < SHORT && Within(names, size, limit)
    requires Placed(buckets[..], names, size) && mem.Length == Start(names, size, size)
    requires Sums(test[..], names, size, n, limit, 0) && AllFilled(mem[..], names, size, n)
    modifies mem, test
    ensures Sums(test[..], names, size, n + 1, limit, 0) && AllFilled(mem[..], names, size, n + 1)
  {
    var key := names[n].hash % size;
    SlotIsRemainder(names[n].hash, size);
    ghost var m := mem[..];
    ItemPlace(test[..], names, size, n, limit);
    var at := buckets[key] + test[key];
    WriteItem(mem, at, names[n].key, names[n].value);
    FilledStep(m, mem[..], names, size, n, at);
    AddSize(names, size, limit, n, test, 0);
  }

  lemma ItemPlace(test: seq<nat>, names: seq<HashKey>, size: nat, n: nat, limit: nat)
    requires size > 0 && n < |names| && !names[n].dropped && Sums(test, names, size, n, limit, 0)
    ensures var k := Slot(names[n].hash, size);
      && Place(names, size, k) == Start(names, size, k) && Start(names, size, k) + test[k] == PlaceOf(names, size, n)
      && PlaceOf(names, size, n) + EltSize(names[n].key) <= Start(names, size, size)
  {
    var k := Slot(names[n].hash, size);
    assert SumAt(test, names, size, n, limit, 0, k);
    LoadStep(names, size, k, n);
    SizeIsAligned(names[n].key);
    BucketInBlock(names, size, k);
  }

  // ----- the ends of the buckets

  lemma HoldsThere(m: seq<Cell>, start: nat, items: seq<Item>)
    requires Run(m, start, items) && start % 8 == 0 && NullBehind(m, start, Size(items))
    ensures HoldsItems(m, if Size(items) == 0 then -1 else start, items)
  {
    EmptyOrNot(items);
  }

  lemma PlacedHolds(m: seq<Cell>, names: seq<HashKey>, size: nat, b: nat)
    requires size > 0 && Run(m, Start(names, size, b), Items(names, size, b)) && Ended(m, names, size, b)
    ensures HoldsItems(m, Place(names, size, b), Items(names, size, b))
  {
    StartAligned(names, size, b);
    HoldsThere(m, Start(names, size, b), Items(names, size, b));
  }

  /** A null pointer lies behind the items, if there are any. */
  ghost predicate NullBehind(m: seq<Cell>, start: nat, load: nat) {
    load > 0 ==> PtrAt(m, start + load, 0)
  }

  ghost predicate Ended(m: seq<Cell>, names: seq<HashKey>, size: nat, b: nat)
    requires size > 0
  {
    NullBehind(m, Start(names, size, b), Load(names, size, b))
  }

  ghost predicate EndedBelow(m: seq<Cell>, names: seq<HashKey>, size: nat, n: nat)
    requires size > 0
  {
    forall b: nat {:trigger Ended(m, names, size, b)} :: b < n ==> Ended(m, names, size, b)
  }

  /** The null pointer behind bucket `i` disturbs nothing. */
  lemma EndKeepsFilled(m: seq<Cell>, m': seq<Cell>, names: seq<HashKey>, size: nat, i: nat, at: nat)
    requires size > 0 && i < size && Load(names, size, i) > 0 && at == Start(names, size, i) + Load(names, size, i)
    requires AllFilled(m, names, size, |names|) && Only(m, m', at, PTR_SIZE)
    ensures AllFilled(m', names, size, |names|)
  {
    var all := |names|;
    assert names[..all] == names;
    forall b: nat | b < size ensures Filled(m', names, size, all, b) {
      assert Filled(m, names, size, all, b);
      if b != i { BucketsApart(names, size, i, b); }
      RunFrame(m, m', Start(names, size, b), Items(names, size, b));
    }
  }

  lemma NullFrame(m: seq<Cell>, m': seq<Cell>, start: nat, load: nat, at: nat)
    requires NullBehind(m, start, load) && Only(m, m', at, PTR_SIZE)
    requires load > 0 ==> start + load + PTR_SIZE <= at || at + PTR_SIZE <= start + load
    ensures NullBehind(m', start, load)
  {
    if load > 0 { PtrFrame(m, m', start + load, 0, at); }
  }

  lemma EndedOther(m: seq<Cell>, m': seq<Cell>, names: seq<HashKey>, size: nat, i: nat, at: nat, b: nat)
    requires size > 0 && b != i && Load(names, size, i) > 0 && at == Start(names, size, i) + Load(names, size, i)
    requires Ended(m, names, size, b) && Only(m, m', at, PTR_SIZE)
    ensures Ended(m', names, size, b)
  {
    BucketsApart(names, size, i, b);
    NullFrame(m, m', Start(names, size, b), Load(names, size, b), at);
  }

  lemma EndStep(m: seq<Cell>, m': seq<Cell>, names: seq<HashKey>, size: nat, i: nat, at: nat)
    requires size > 0 && i < size && Load(names, size, i) > 0 && at == Start(names, size, i) + Load(names, size, i)
    requires EndedBelow(m, names, size, i) && Only(m, m', at, PTR_SIZE) && PtrAt(m', at, 0)
    ensures EndedBelow(m', names, size, i + 1)
  {
    var i' := i + 1;
    forall b: nat | b < i' ensures Ended(m', names, size, b) {
      if b < i { EndedOther(m, m', names, size, i, at, b); }
    }
  }

  method WriteEnds(names: seq<HashKey>, size: nat, limit: nat, buckets: array<int>, mem: array<Cell>, test: array<nat>)
    requires size > 0 && Sums(test[..], names, size, |names|, limit, 0) && Placed(buckets[..], names, size)
    requires mem.Length == Start(names, size, size) && AllFilled(mem[..], names, size, |names|)
    modifies mem
    ensures AllFilled(mem[..], names, size, |names|) && EndedBelow(mem[..], names, size, size)
  {
    var i: nat := 0;
    while i < size
      invariant i <= size && Sums(test[..], names, size, |names|, limit, 0) && Placed(buckets[..], names, size)
      invariant AllFilled(mem[..], names, size, |names|) && EndedBelow(mem[..], names, size, i)
    {
      WriteEnd(names, size, limit, i, buckets, mem, test);
      i := i + 1;
    }
  }

  method WriteEnd(names: seq<HashKey>, size: nat, limit: nat, i: nat, buckets: array<int>, mem: array<Cell>,
                  test: array<nat>)
    requires size > 0 && i < size && Sums(test[..], names, size, |names|, limit, 0) && Placed(buckets[..], names, size)
    requires mem.Length == Start(names, size, size)
    requires AllFilled(mem[..], names, size, |names|) && EndedBelow(mem[..], names, size, i)
    modifies mem
    ensures AllFilled(mem[..], names, size, |names|) && EndedBelow(mem[..], names, size, i + 1)
  {
    if buckets[i] != -1 {
      EndPlace(test[..], names, size, limit, i, buckets[..]);
      var at := buckets[i] + test[i];
      ghost var m := mem[..];
      WritePtr(mem, at, 0);
      EndKeepsFilled(m, mem[..], names, size, i, at);
      EndStep(m, mem[..], names, size, i, at);
    } else {
      EmptyStep(mem[..], names, size, i, buckets[..]);
    }
  }

  lemma EmptyStep(m: seq<Cell>, names: seq<HashKey>, size: nat, i: nat, buckets: seq<int>)
    requires size > 0 && i < size && Placed(buckets, names, size) && buckets[i] == -1 && EndedBelow(m, names, size, i)
    ensures EndedBelow(m, names, size, i + 1)
  {
    assert Ended(m, names, size, i);
  }

  lemma EndPlace(test: seq<nat>, names: seq<HashKey>, size: nat, limit: nat, i: nat, buckets: seq<int>)
    requires size > 0 && i < size && Sums(test, names, size, |names|, limit, 0)
    requires Placed(buckets, names, size) && buckets[i] != -1
    ensures Load(names, size, i) > 0 && buckets[i] == Start(names, size, i) && test[i] == Load(names, size, i)
    ensures Start(names, size, i) + Load(names, size, i) + PTR_SIZE <= Start(names, size, size)
  {
    assert names[..|names|] == names;
    assert SumAt(test, names, size, |names|, limit, 0, i);
    BucketInBlock(names, size, i);
  }

  // ----- the whole

  /** `ngx_hash_init`: the smallest table, of all sizes that are tried, whose buckets are within
      their limit; none if a name is too long or no such size suffices. */
  method Build(names: seq<HashKey>, bucketSize: nat, maxSize: nat) returns (t: Option<Table>)
    requires names == [] ==> bucketSize >= 24
    requires TooLong(names, bucketSize) || SmallSizes(names, bucketSize)
    requires forall k :: k in names ==> k.value > 0
    ensures t.Some? ==> fresh(t.value) && t.value.Valid() && t.value.stored == names
    ensures t.Some? ==> Suffices(names, t.value.size, bucketSize)
    ensures TooLong(names, bucketSize) ==> t.None?
    ensures !TooLong(names, bucketSize) ==> bucketSize >= 24
    ensures t.Some? ==>
      && Tried(|names|, bucketSize, maxSize, t.value.size)
      && NoneTried(names, bucketSize, maxSize, t.value.size)
    ensures t.None? && !TooLong(names, bucketSize) ==> NoneTried(names, bucketSize, maxSize, maxSize + 1)
  {
    for n := 0 to |names|
      invariant forall k :: k in names[..n] ==> EltSize(k.key) + PTR_SIZE <= bucketSize
    {
      if bucketSize < EltSize(names[n].key) + PTR_SIZE {
        assert names[n] in names;
        return None;
      }
    }
    assert names[..|names|] == names;
    if names != [] { assert names[0] in names; SizeIsAligned(names[0].key); }
    t := Search(names, bucketSize, maxSize);
    TriedFromFirst(|names|, bucketSize, maxSize);
  }

  /** The search, once every name fits a bucket of its own. */
  method Search(names: seq<HashKey>, bucketSize: nat, maxSize: nat) returns (t: Option<Table>)
    requires 24 <= bucketSize && SmallSizes(names, bucketSize) && forall k :: k in names ==> k.value > 0
    ensures t.Some? ==> fresh(t.value) && t.value.Valid() && t.value.stored == names
    ensures t.Some? ==> FirstSize(|names|, bucketSize, maxSize) <= t.value.size <= maxSize
    ensures t.Some? ==> Suffices(names, t.value.size, bucketSize)
    ensures NoneSuffices(names, FirstSize(|names|, bucketSize, maxSize),
                         if t.Some? then t.value.size else maxSize + 1, bucketSize)
  {
    var size, limit := FirstSize(|names|, bucketSize, maxSize), bucketSize - PTR_SIZE;
    while size <= maxSize
      invariant size >= FirstSize(|names|, bucketSize, maxSize) && size > 0
      invariant NoneSuffices(names, FirstSize(|names|, bucketSize, maxSize), size, bucketSize)
    {
      var ok := Fits(names, size, limit);
      AcceptedIffSuffices(names, size, bucketSize);
      if ok {
        var table := Pack(names, size, Floor(limit));
        return Some(table);
      }
      size := size + 1;
    }
    return None;
  }

  lemma AcceptedIffSuffices(names: seq<HashKey>, size: nat, bucketSize: nat)
    requires size > 0 && 24 <= bucketSize && SmallSizes(names, bucketSize)
    ensures var limit := bucketSize - PTR_SIZE;
      && (Accepted(names, size, limit) <==> Suffices(names, size, bucketSize))
      && (Accepted(names, size, limit) ==> Within(names, size, Floor(limit)))
      && PTR_SIZE + Floor(limit) + CACHELINE <= SHORT
  {
    AcceptedIffWithin(names, size, bucketSize - PTR_SIZE);
  }

  /** The sizes are so small that none of the sums wraps around in a short (`SafeIff`). */
  ghost predicate SmallSizes(names: seq<HashKey>, bucketSize: nat) {
    && Floor(bucketSize) + CACHELINE <= SHORT
    && forall k :: k in names && !k.dropped ==> Floor(bucketSize) + EltSize(k.key) < SHORT + PTR_SIZE
  }

  ghost predicate TooLong(names: seq<HashKey>, bucketSize: nat) {
    exists k :: k in names && bucketSize < EltSize(k.key) + PTR_SIZE
  }

  /** All buckets of a table of that size are within the limit. */
  ghost predicate Suffices(names: seq<HashKey>, size: nat, bucketSize: nat) {
    size > 0 && forall b :: 0 <= b < size ==> Load(names, size, b) + PTR_SIZE <= bucketSize
  }

  ghost predicate NoneSuffices(names: seq<HashKey>, lo: nat, hi: nat, bucketSize: nat) {
    forall s :: lo <= s < hi ==> !Suffices(names, s, bucketSize)
  }

  /** There are many names for the largest table that is wanted. */
  predicate Large(nelts: nat, maxSize: nat) {
    maxSize > 10000 && nelts > 0 && maxSize < 100 * nelts
  }

  /** The smallest elements, of 16 bytes, that a bucket can hold. */
  function Capacity16(bucketSize: nat): nat
    requires bucketSize >= PTR_SIZE
  {
    (bucketSize - PTR_SIZE) / 16
  }

  /** The sizes that are tried: with many names the last thousand, otherwise all with which there
      would be more room, in one more bucket, than so many of the smallest elements take. */
  ghost predicate Tried(nelts: nat, bucketSize: nat, maxSize: nat, size: nat)
    requires bucketSize >= 24
  {
    && 0 < size <= maxSize
    && if Large(nelts, maxSize) then maxSize - 1000 <= size else nelts < (size + 1) * Capacity16(bucketSize)
  }

  ghost predicate NoneTried(names: seq<HashKey>, bucketSize: nat, maxSize: nat, below: nat)
    requires bucketSize >= 24
  {
    forall s: nat :: Tried(|names|, bucketSize, maxSize, s) && s < below ==> !Suffices(names, s, bucketSize)
  }

  lemma TriedFromFirst(nelts: nat, bucketSize: nat, maxSize: nat)
    requires bucketSize >= 24
    ensures forall s: nat ::
      Tried(nelts, bucketSize, maxSize, s) <==> FirstSize(nelts, bucketSize, maxSize) <= s <= maxSize
  {
    forall s: nat ensures
      Tried(nelts, bucketSize, maxSize, s) <==> FirstSize(nelts, bucketSize, maxSize) <= s <= maxSize
    {
      Quotient(nelts, Capacity16(bucketSize), s);
      if nelts > 0 { Quotient(maxSize, nelts, 99); }
    }
  }

  lemma Quotient(n: nat, d: nat, s: nat)
    requires d > 0
    ensures n / d <= s <==> n < (s + 1) * d
  {
    var q, r := n / d, n % d;
    assert n == d * q + r;
    if q <= s { assert d * q <= d * s; } else { assert d * q >= d * (s + 1); }
  }

  /** The size at which the search begins. */
  function FirstSize(nelts: nat, bucketSize: nat, maxSize: nat): (s: nat)
    requires bucketSize >= 24
    ensures s > 0
  {
    var start := nelts / ((bucketSize - PTR_SIZE) / (2 * PTR_SIZE));
    if maxSize > 10000 && nelts > 0 && maxSize / nelts < 100 then maxSize - 1000
    else if start > 0 then start else 1
  }

  method Pack(names: seq<HashKey>, size: nat, limit: nat) returns (table: Table)
    requires size > 0 && PTR_SIZE + limit + CACHELINE <= SHORT && Within(names, size, limit)
    requires forall k :: k in names ==> k.value > 0
    ensures fresh(table) && table.Valid() && table.stored == names && table.size == size
  {
    var test := Count(names, size, limit, PTR_SIZE);
    ghost var loads := Loads(names, size);
    SumsOfLoads(test[..], names, size, limit);
    var len := Measure(size, limit, test, loads);
    var buckets := new int[size](_ => -1);
    PlaceBuckets(size, test, buckets, loads);
    StartOfLoads(names, size, size);
    PlacesOfLoads(names, size);
    var mem := new Cell[len](_ => Blank);
    test := WriteItems(names, size, limit, buckets, mem);
    WriteEnds(names, size, limit, buckets, mem, test);
    table := new Table(names, size, buckets, mem);
  }

  /** The name is stored, in lower case, with that value. */
  ghost predicate StoredAs(names: seq<HashKey>, name: string, k: HashKey) {
    k in names && !k.dropped && Lower(k.key) == name
  }

  /** When a name comes with the hash under which it is stored, the lookup returns a value of it,
      and nothing iff the name is not stored. */
  lemma FoundIffStored(names: seq<HashKey>, size: nat, key: nat, name: string, value: nat)
    requires size > 0 && (forall k :: k in names ==> k.value > 0)
    requires forall k :: StoredAs(names, name, k) ==> k.hash == key
    requires IsFound(Items(names, size, key % size), name, value)
    ensures value == 0 <==> forall k :: !StoredAs(names, name, k)
    ensures value != 0 ==> exists k :: StoredAs(names, name, k) && k.value == value
  {
    var b := key % size;
    SlotIsRemainder(key, size);
    var items := Items(names, size, b);
    ItemValues(names, size, b);
    forall k | StoredAs(names, name, k) ensures value != 0 {
      assert IsItem(names, size, b, ItemOf(k), k);
      ItemsFrom(names, size, b, ItemOf(k));
      var j :| 0 <= j < |items| && items[j] == ItemOf(k);
      assert items[j].name == name;
    }
    if j: nat :| j < |items| && items[j].name == name && value == items[j].value && Missing(items, j, name) {
      ItemsFrom(names, size, b, items[j]);
      var k :| IsItem(names, size, b, items[j], k);
      assert StoredAs(names, name, k) && k.value == value;
    }
  }

  /** However a stored name is spelled, in lower case it is found under its hash, with the value of
      a name that differs in the cases of letters only. */
  lemma FoundInAnyCase(names: seq<HashKey>, size: nat, k: HashKey, spelling: string, value: nat)
    requires size > 0 && (forall k :: k in names ==> k.value > 0)
    requires k in names && !k.dropped && SameButCase(k.key, spelling)
    requires forall k' :: k' in names && !k'.dropped && SameButCase(k'.key, spelling) ==> k'.hash == k.hash
    requires IsFound(Items(names, size, k.hash % size), Lower(spelling), value)
    ensures exists k' :: k' in names && !k'.dropped && SameButCase(k'.key, spelling) && k'.value == value > 0
  {
    forall k' | k' in names ensures Lower(k'.key) == Lower(spelling) <==> SameButCase(k'.key, spelling) {
      LowerIffSame(k'.key, spelling);
    }
    FoundIffStored(names, size, k.hash, Lower(spelling), value);
    assert StoredAs(names, Lower(spelling), k);
    var k' :| StoredAs(names, Lower(spelling), k') && k'.value == value;
  }
}
