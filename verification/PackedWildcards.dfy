/** Wildcard tables in memory: every level is a packed hash table whose values are pointers with
    tags in their low bits.  Packing a compiled table and searching through the packed levels
    gives what the search in the compiled table gives. */
module PackedWildcards {

  import opened Options
  import HashTables
  import opened Wildcards

  // ----- one level

  /** What the hash table stores for a level: the labels with their hashes and pointers. */
  function Stored(elts: seq<Elt>, ptrs: seq<nat>, hash: string -> nat): (names: seq<HashTables.HashKey>)
    requires |ptrs| == |elts|
    ensures |names| == |elts|
  {
    seq(|elts|, i requires 0 <= i < |elts| => HashTables.HashKey(false, elts[i].name, hash(elts[i].name), ptrs[i]))
  }

  /** The labels are in lower case and no pointer is null. */
  ghost predicate Packable(elts: seq<Elt>, ptrs: seq<nat>) {
    |ptrs| == |elts| && forall i :: 0 <= i < |elts| ==> HashTables.Lower(elts[i].name) == elts[i].name && ptrs[i] > 0
  }

  /** The pointer of the first element with the label; null if there is none. */
  ghost function Pointer(elts: seq<Elt>, ptrs: seq<nat>, name: string): nat
    requires |ptrs| == |elts|
  {
    if elts == [] then 0 else if elts[0].name == name then ptrs[0] else Pointer(elts[1..], ptrs[1..], name)
  }

  ghost predicate HasPointer(elts: seq<Elt>, ptrs: seq<nat>, slot: Slot, ptr: nat)
    requires |ptrs| == |elts|
  {
    exists i :: 0 <= i < |elts| && elts[i].slot == slot && ptrs[i] == ptr
  }

  /** It leads to what the search in the list of labels finds. */
  lemma {:induction false} PointerFound(elts: seq<Elt>, ptrs: seq<nat>, name: string)
    requires Packable(elts, ptrs)
    ensures Pointer(elts, ptrs, name) == 0 <==> HashFind(elts, name).None?
    ensures HashFind(elts, name).Some? ==> HasPointer(elts, ptrs, HashFind(elts, name).value, Pointer(elts, ptrs, name))
  {
    if elts != [] && elts[0].name != name {
      PointerFound(elts[1..], ptrs[1..], name);
      var ptr := Pointer(elts, ptrs, name);
      if HashFind(elts, name).Some? {
        var i :| 0 <= i < |elts| - 1 && elts[1..][i].slot == HashFind(elts, name).value && ptrs[1..][i] == ptr;
        assert elts[i + 1] == elts[1..][i] && ptrs[i + 1] == ptrs[1..][i];
      }
    }
  }

  lemma {:induction false} PointerAppend(elts: seq<Elt>, ptrs: seq<nat>, x: Elt, p: nat, name: string)
    requires Packable(elts, ptrs)
    ensures Pointer(elts + [x], ptrs + [p], name) ==
      if Pointer(elts, ptrs, name) != 0 then Pointer(elts, ptrs, name) else if x.name == name then p else 0
  {
    var es, ps := elts + [x], ptrs + [p];
    if elts == [] {
      assert es[1..] == [] && ps[1..] == [];
    } else {
      assert es[0] == elts[0] && ps[0] == ptrs[0] && es[1..] == elts[1..] + [x] && ps[1..] == ptrs[1..] + [p];
      PointerAppend(elts[1..], ptrs[1..], x, p, name);
    }
  }

  /** The value of the first item with the name; zero if there is none. */
  ghost function FirstValue(items: seq<HashTables.Item>, name: string): nat {
    if items == [] then 0 else if items[0].name == name then items[0].value else FirstValue(items[1..], name)
  }

  lemma {:induction false} FoundIsFirst(items: seq<HashTables.Item>, name: string, value: nat)
    requires HashTables.IsFound(items, name, value)
    ensures value == FirstValue(items, name)
  {
    if items != [] && items[0].name != name {
      var rest := items[1..];
      if HashTables.Missing(items, |items|, name) {
        assert HashTables.Missing(rest, |rest|, name);
      } else {
        var j: nat :| j < |items| && items[j].name == name && value == items[j].value
          && HashTables.Missing(items, j, name);
        assert rest[j - 1] == items[j] && HashTables.Missing(rest, j - 1, name);
      }
      FoundIsFirst(rest, name, value);
    } else if items != [] {
      assert !HashTables.Missing(items, |items|, name);
    }
  }

  /** One more item counts only if none before it has the name. */
  lemma {:induction false} FirstAppend(items: seq<HashTables.Item>, x: HashTables.Item, name: string)
    requires HashTables.Valued(items)
    ensures FirstValue(items + [x], name) ==
      if FirstValue(items, name) != 0 then FirstValue(items, name) else if x.name == name then x.value else 0
  {
    var all := items + [x];
    if items == [] {
      assert all[1..] == [];
    } else {
      assert all[0] == items[0] && all[1..] == items[1..] + [x];
      FirstAppend(items[1..], x, name);
    }
  }

  lemma StoredValues(elts: seq<Elt>, ptrs: seq<nat>, hash: string -> nat)
    requires Packable(elts, ptrs)
    ensures forall k :: k in Stored(elts, ptrs, hash) ==> k.value > 0
  {
    var names := Stored(elts, ptrs, hash);
    forall k | k in names ensures k.value > 0 {
      var i :| 0 <= i < |names| && names[i] == k;
      assert ptrs[i] > 0;
    }
  }

  /** The first item with the label, in the bucket of its hash, holds its pointer. */
  lemma {:induction false} LevelFinds(elts: seq<Elt>, ptrs: seq<nat>, hash: string -> nat, size: nat, b: nat,
                                      name: string)
    requires size > 0 && Packable(elts, ptrs) && b == HashTables.Slot(hash(name), size)
    ensures FirstValue(HashTables.Items(Stored(elts, ptrs, hash), size, b), name) == Pointer(elts, ptrs, name)
  {
    if elts != [] {
      var h, x, q, p := elts[..|elts| - 1], elts[|elts| - 1], ptrs[..|ptrs| - 1], ptrs[|ptrs| - 1];
      var names := Stored(elts, ptrs, hash);
      assert elts == h + [x] && ptrs == q + [p] && names[..|names| - 1] == Stored(h, q, hash);
      LevelFinds(h, q, hash, size, b, name);
      PointerAppend(h, q, x, p, name);
      var items, k := HashTables.Items(Stored(h, q, hash), size, b), names[|names| - 1];
      StoredValues(h, q, hash);
      HashTables.ItemValues(Stored(h, q, hash), size, b);
      if HashTables.Falls(k, size, b) {
        FirstAppend(items, HashTables.ItemOf(k), name);
      } else {
        assert items + [] == items && x.name != name;
      }
    }
  }

  /** No size up to `maxSize` gives a hash table for the labels of the level. */
  ghost predicate LevelCrowded(elts: seq<Elt>, hash: string -> nat, bucketSize: nat, maxSize: nat)
    requires bucketSize >= 24
  {
    Crowds(Stored(elts, seq(|elts|, _ => 1), hash), bucketSize, maxSize)
  }

  ghost predicate Crowds(names: seq<HashTables.HashKey>, bucketSize: nat, maxSize: nat)
    requires bucketSize >= 24
  {
    || HashTables.TooLong(names, bucketSize)
    || HashTables.NoneTried(names, bucketSize, maxSize, maxSize + 1)
  }

  /** How full the buckets are does not depend on the pointers. */
  lemma {:induction false} SameLoad(elts: seq<Elt>, p: seq<nat>, q: seq<nat>, hash: string -> nat, size: nat, b: nat)
    requires |p| == |q| == |elts| && size > 0
    ensures HashTables.Load(Stored(elts, p, hash), size, b) == HashTables.Load(Stored(elts, q, hash), size, b)
  {
    if elts != [] {
      var n := |elts| - 1;
      var v, w := Stored(elts, p, hash), Stored(elts, q, hash);
      assert v[..n] == Stored(elts[..n], p[..n], hash) && w[..n] == Stored(elts[..n], q[..n], hash);
      assert v[..n + 1] == v && w[..n + 1] == w;
      SameLoad(elts[..n], p[..n], q[..n], hash, size, b);
      HashTables.LoadStep(v, size, b, n);
      HashTables.LoadStep(w, size, b, n);
    }
  }

  lemma SameSuffices(elts: seq<Elt>, p: seq<nat>, q: seq<nat>, hash: string -> nat, size: nat, bucketSize: nat)
    requires |p| == |q| == |elts|
    ensures HashTables.Suffices(Stored(elts, p, hash), size, bucketSize) ==>
              HashTables.Suffices(Stored(elts, q, hash), size, bucketSize)
  {
    if size > 0 {
      forall b: nat | b < size
        ensures HashTables.Load(Stored(elts, p, hash), size, b) == HashTables.Load(Stored(elts, q, hash), size, b)
      {
        SameLoad(elts, p, q, hash, size, b);
      }
    }
  }

  lemma SameCrowd(elts: seq<Elt>, p: seq<nat>, q: seq<nat>, hash: string -> nat, bucketSize: nat, maxSize: nat)
    requires |p| == |q| == |elts| && bucketSize >= 24
    ensures Crowds(Stored(elts, p, hash), bucketSize, maxSize) ==> Crowds(Stored(elts, q, hash), bucketSize, maxSize)
  {
    var v, w := Stored(elts, p, hash), Stored(elts, q, hash);
    if HashTables.TooLong(v, bucketSize) {
      var k :| k in v && bucketSize < HashTables.EltSize(k.key) + HashTables.PTR_SIZE;
      var i :| 0 <= i < |v| && v[i] == k;
      assert w[i] in w && w[i].key == k.key;
    }
    forall size | HashTables.Suffices(w, size, bucketSize) ensures HashTables.Suffices(v, size, bucketSize) {
      SameSuffices(elts, q, p, hash, size, bucketSize);
    }
  }

  /** Packs one level. */
  method PackLevel(elts: seq<Elt>, ptrs: seq<nat>, hash: string -> nat, bucketSize: nat, maxSize: nat)
    returns (t: Option<HashTables.Table>)
    requires Packable(elts, ptrs) && 24 <= bucketSize && HashTables.SmallSizes(Stored(elts, ptrs, hash), bucketSize)
    ensures t.Some? ==> fresh(t.value) && t.value.Valid() && t.value.stored == Stored(elts, ptrs, hash)
    ensures t.None? <==> LevelCrowded(elts, hash, bucketSize, maxSize)
  {
    StoredValues(elts, ptrs, hash);
    t := HashTables.Build(Stored(elts, ptrs, hash), bucketSize, maxSize);
    ghost var ones := seq(|elts|, _ => 1);
    SameCrowd(elts, ptrs, ones, hash, bucketSize, maxSize);
    SameCrowd(elts, ones, ptrs, hash, bucketSize, maxSize);
  }

  /** The lookup of a label in a packed level. */
  method FindLabel(t: HashTables.Table, name: string, hash: string -> nat, ghost elts: seq<Elt>, ghost ptrs: seq<nat>)
    returns (value: nat)
    requires t.Valid() && Packable(elts, ptrs) && t.stored == Stored(elts, ptrs, hash)
    ensures value == Pointer(elts, ptrs, name)
  {
    var key := hash(name);
    value := t.Find(key, name);
    HashTables.SlotIsRemainder(key, t.size);
    ghost var b := HashTables.Slot(key, t.size);
    FoundIsFirst(HashTables.Items(t.stored, t.size, b), name, value);
    LevelFinds(elts, ptrs, hash, t.size, b, name);
  }

  // ----- all levels

  /** `ngx_hash_wildcard_t`: the packed table of a level and the value beside it. */
  datatype Level = Level(table: HashTables.Table, value: nat)

  /** The levels by address; all addresses are below `next`. */
  datatype Memory = Memory(levels: map<nat, Level>, next: nat)

  /** What the level at each address stands for, and its pointers. */
  datatype Image = Image(tries: map<nat, Trie>, ptrs: map<nat, seq<nat>>)

  /** The two low bits of a pointer tell data and tables apart. */
  ghost predicate Tagged(tries: map<nat, Trie>, ptr: nat, slot: Slot) {
    match slot
    case Data(word) => ptr == word && word % 4 < 2
    case Table(sub, tag) =>
      var at := ptr - ptr % 4;
      2 <= tag < 4 && ptr % 4 == tag && at in tries && tries[at] == sub
  }

  ghost predicate AllTagged(tries: map<nat, Trie>, ptrs: seq<nat>, elts: seq<Elt>) {
    |ptrs| <= |elts| && forall i :: 0 <= i < |ptrs| ==> Tagged(tries, ptrs[i], elts[i].slot)
  }

  ghost predicate Holds(l: Level, t: Trie, ptrs: seq<nat>, tries: map<nat, Trie>, hash: string -> nat)
    reads l.table.buckets, l.table.mem
  {
    && l.value == t.value && Packable(t.elts, ptrs) && AllTagged(tries, ptrs, t.elts)
    && l.table.Valid() && l.table.stored == Stored(t.elts, ptrs, hash)
  }

  ghost predicate HoldsAt(m: Memory, g: Image, hash: string -> nat, at: nat)
    requires at in m.levels && at in g.tries && at in g.ptrs
    reads m.levels[at].table.buckets, m.levels[at].table.mem
  {
    Holds(m.levels[at], g.tries[at], g.ptrs[at], g.tries, hash)
  }

  ghost predicate Sound(m: Memory, g: Image, hash: string -> nat)
    reads set at | at in m.levels :: m.levels[at].table.buckets
    reads set at | at in m.levels :: m.levels[at].table.mem
  {
    && m.next > 0 && m.next % 4 == 0 && g.tries.Keys == m.levels.Keys && g.ptrs.Keys == m.levels.Keys
    && var held := forall at :: at in m.levels ==> at < m.next && HoldsAt(m, g, hash, at);
       held
  }

  /** Levels are added and none is changed. */
  ghost predicate Grows(m: Memory, g: Image, m': Memory, g': Image) {
    var levels, tries, ptrs := Added(m.levels, m'.levels), Added(g.tries, g'.tries), Added(g.ptrs, g'.ptrs);
    levels && tries && ptrs
  }

  ghost predicate Added<T>(f: map<nat, T>, f': map<nat, T>) {
    forall at :: at in f ==> at in f' && f'[at] == f[at]
  }

  ghost predicate PointersFor(tries: map<nat, Trie>, ptrs: seq<nat>, elts: seq<Elt>) {
    var tagged := AllTagged(tries, ptrs, elts);
    tagged && forall i :: 0 <= i < |ptrs| ==> ptrs[i] > 0
  }

  lemma StillTagged(tries: map<nat, Trie>, tries': map<nat, Trie>, ptrs: seq<nat>, elts: seq<Elt>)
    requires AllTagged(tries, ptrs, elts)
    requires Added(tries, tries')
    ensures AllTagged(tries', ptrs, elts)
  {
    forall i | 0 <= i < |ptrs| ensures Tagged(tries', ptrs[i], elts[i].slot) {
      assert Tagged(tries, ptrs[i], elts[i].slot);
    }
  }

  /** Labels of that length fit every sum into a short. */
  predicate Roomy(bucketSize: nat, most: nat) {
    24 <= bucketSize && bucketSize + HashTables.CACHELINE <= HashTables.SHORT
    && bucketSize + most + 10 <= HashTables.SHORT
  }

  ghost predicate LowerCase(chars: set<char>) {
    forall c :: c in chars ==> HashTables.ToLower(c) == c
  }

  lemma LowerSpelt(s: string, chars: set<char>, most: nat)
    requires LowerCase(chars) && Spelt(s, chars, most)
    ensures HashTables.Lower(s) == s
  {
  }

  lemma FormedPacks(t: Trie, chars: set<char>, most: nat, ptrs: seq<nat>, hash: string -> nat, bucketSize: nat)
    requires Formed(t, chars, most) && LowerCase(chars) && Roomy(bucketSize, most)
    requires |ptrs| == |t.elts| && forall i :: 0 <= i < |ptrs| ==> ptrs[i] > 0
    ensures Packable(t.elts, ptrs) && HashTables.SmallSizes(Stored(t.elts, ptrs, hash), bucketSize)
  {
    forall i | 0 <= i < |t.elts| ensures HashTables.Lower(t.elts[i].name) == t.elts[i].name {
      LowerSpelt(t.elts[i].name, chars, most);
    }
    var names := Stored(t.elts, ptrs, hash);
    forall k | k in names ensures bucketSize + HashTables.EltSize(k.key) < HashTables.SHORT + HashTables.PTR_SIZE {
      var i :| 0 <= i < |names| && names[i] == k;
      assert Spelt(t.elts[i].name, chars, most);
    }
  }

  /** Some level of the table has no size. */
  ghost predicate Crowded(t: Trie, hash: string -> nat, bucketSize: nat, maxSize: nat)
    requires bucketSize >= 24
    decreases t
  {
    || LevelCrowded(t.elts, hash, bucketSize, maxSize)
    || exists i :: 0 <= i < |t.elts| && SlotCrowded(t.elts[i].slot, hash, bucketSize, maxSize)
  }

  /** None of the first `n` labels leads to such a level. */
  ghost predicate SlotsPacked(t: Trie, n: nat, hash: string -> nat, bucketSize: nat, maxSize: nat)
    requires bucketSize >= 24 && n <= |t.elts|
  {
    forall i :: 0 <= i < n ==> !SlotCrowded(t.elts[i].slot, hash, bucketSize, maxSize)
  }

  ghost predicate SlotCrowded(slot: Slot, hash: string -> nat, bucketSize: nat, maxSize: nat)
    requires bucketSize >= 24
    decreases slot
  {
    slot.Table? && Crowded(slot.trie, hash, bucketSize, maxSize)
  }

  /** Packs a compiled table from the inner levels out, and returns the address of the outer one;
      none if and only if some level has no size. */
  method PackTrie(t: Trie, hash: string -> nat, bucketSize: nat, maxSize: nat, m0: Memory, ghost g0: Image,
                  ghost chars: set<char>, ghost most: nat)
    returns (r: Option<nat>, m: Memory, ghost g: Image)
    requires Sound(m0, g0, hash) && Formed(t, chars, most) && LowerCase(chars) && Roomy(bucketSize, most)
    ensures Sound(m, g, hash) && Grows(m0, g0, m, g)
    ensures r.Some? ==> r.value > 0 && r.value % 4 == 0 && r.value in g.tries && g.tries[r.value] == t
    ensures r.None? <==> Crowded(t, hash, bucketSize, maxSize)
    decreases t
  {
    var ptrs;
    ptrs, m, g := PackSlots(t, hash, bucketSize, maxSize, m0, g0, chars, most);
    if ptrs.None? { return None, m, g; }
    FormedPacks(t, chars, most, ptrs.value, hash, bucketSize);
    var table := PackLevel(t.elts, ptrs.value, hash, bucketSize, maxSize);
    if table.None? { return None, m, g; }
    ghost var g1, m1 := g, m;
    m, g := AddLevel(Level(table.value, t.value), hash, m, t, ptrs.value, g);
    GrowsOn(m0, g0, m1, g1, m, g);
    r := Some(m.next - 4);
  }

  lemma PointerAdded(tries: map<nat, Trie>, tries': map<nat, Trie>, ptrs: seq<nat>, elts: seq<Elt>, p: nat)
    requires PointersFor(tries, ptrs, elts) && Added(tries, tries')
    requires |ptrs| < |elts| && p > 0 && Tagged(tries', p, elts[|ptrs|].slot)
    ensures PointersFor(tries', ptrs + [p], elts)
  {
    StillTagged(tries, tries', ptrs, elts);
  }

  lemma GrowsOn(m0: Memory, g0: Image, m1: Memory, g1: Image, m2: Memory, g2: Image)
    requires Grows(m0, g0, m1, g1) && Grows(m1, g1, m2, g2)
    ensures Grows(m0, g0, m2, g2)
  {
  }

  /** The pointers for the labels of the outer level. */
  method PackSlots(t: Trie, hash: string -> nat, bucketSize: nat, maxSize: nat, m0: Memory, ghost g0: Image,
                   ghost chars: set<char>, ghost most: nat)
    returns (r: Option<seq<nat>>, m: Memory, ghost g: Image)
    requires Sound(m0, g0, hash) && Formed(t, chars, most) && LowerCase(chars) && Roomy(bucketSize, most)
    ensures Sound(m, g, hash) && Grows(m0, g0, m, g)
    ensures r.Some? ==> PointersFor(g.tries, r.value, t.elts) && |r.value| == |t.elts|
    ensures r.Some? <==> SlotsPacked(t, |t.elts|, hash, bucketSize, maxSize)
    decreases t, 1
  {
    m, g := m0, g0;
    var ptrs: seq<nat> := [];
    while |ptrs| < |t.elts|
      invariant Sound(m, g, hash) && Grows(m0, g0, m, g)
      invariant PointersFor(g.tries, ptrs, t.elts) && SlotsPacked(t, |ptrs|, hash, bucketSize, maxSize)
      decreases |t.elts| - |ptrs|
    {
      ghost var m1, g1 := m, g;
      r, m, g := PackNext(t, ptrs, hash, bucketSize, maxSize, m, g, chars, most);
      GrowsOn(m0, g0, m1, g1, m, g);
      if r.None? { return; }
      ptrs := r.value;
    }
    r := Some(ptrs);
  }

  /** One more pointer. */
  method PackNext(t: Trie, ptrs: seq<nat>, hash: string -> nat, bucketSize: nat, maxSize: nat, m0: Memory,
                  ghost g0: Image, ghost chars: set<char>, ghost most: nat)
    returns (r: Option<seq<nat>>, m: Memory, ghost g: Image)
    requires Sound(m0, g0, hash) && Formed(t, chars, most) && LowerCase(chars) && Roomy(bucketSize, most)
    requires |ptrs| < |t.elts| && PointersFor(g0.tries, ptrs, t.elts)
    requires SlotsPacked(t, |ptrs|, hash, bucketSize, maxSize)
    ensures Sound(m, g, hash) && Grows(m0, g0, m, g)
    ensures if r.None? then !SlotsPacked(t, |t.elts|, hash, bucketSize, maxSize)
            else |r.value| == |ptrs| + 1 && PointersFor(g.tries, r.value, t.elts)
                 && SlotsPacked(t, |r.value|, hash, bucketSize, maxSize)
    decreases t, 0
  {
    var p;
    p, m, g := PackSlot(t.elts[|ptrs|].slot, hash, bucketSize, maxSize, m0, g0, chars, most);
    if p.None? { return None, m, g; }
    PointerAdded(g0.tries, g.tries, ptrs, t.elts, p.value);
    r := Some(ptrs + [p.value]);
  }

  /** The pointer for what a label leads to. */
  method PackSlot(slot: Slot, hash: string -> nat, bucketSize: nat, maxSize: nat, m0: Memory, ghost g0: Image,
                  ghost chars: set<char>, ghost most: nat)
    returns (p: Option<nat>, m: Memory, ghost g: Image)
    requires Sound(m0, g0, hash) && FormedSlot(slot, chars, most) && LowerCase(chars) && Roomy(bucketSize, most)
    ensures Sound(m, g, hash) && Grows(m0, g0, m, g)
    ensures p.Some? ==> p.value > 0 && Tagged(g.tries, p.value, slot)
    ensures p.None? <==> SlotCrowded(slot, hash, bucketSize, maxSize)
    decreases slot
  {
    match slot
    case Data(word) =>
      p, m, g := Some(word), m0, g0;
    case Table(sub, tag) =>
      var at;
      at, m, g := PackTrie(sub, hash, bucketSize, maxSize, m0, g0, chars, most);
      if at.None? { return None, m, g; }
      TagOf(at.value, tag);
      p := Some(at.value + tag);
  }

  lemma TagOf(at: nat, tag: nat)
    requires at % 4 == 0 && tag < 4
    ensures (at + tag) % 4 == tag && at + tag - (at + tag) % 4 == at
  {
    Remainder(at + tag, 4, at / 4, tag);
  }

  /** Puts a packed level at the next address. */
  method AddLevel(l: Level, hash: string -> nat, m0: Memory, ghost t: Trie, ghost ptrs: seq<nat>, ghost g0: Image)
    returns (m: Memory, ghost g: Image)
    requires Sound(m0, g0, hash) && Holds(l, t, ptrs, g0.tries, hash)
    ensures Sound(m, g, hash) && Grows(m0, g0, m, g)
    ensures m.next == m0.next + 4 && m0.next in g.tries && g.tries[m0.next] == t
  {
    var at := m0.next;
    m := Memory(m0.levels[at := l], at + 4);
    g := Image(g0.tries[at := t], g0.ptrs[at := ptrs]);
    StillTagged(g0.tries, g.tries, ptrs, t.elts);
    forall a | a in m.levels ensures a < m.next && HoldsAt(m, g, hash, a) {
      if a != at {
        assert HoldsAt(m0, g0, hash, a);
        StillTagged(g0.tries, g.tries, g.ptrs[a], g.tries[a].elts);
      }
    }
  }

  // ----- the search

  /** What a pointer found in a level leads to. */
  lemma Leads(elts: seq<Elt>, ptrs: seq<nat>, tries: map<nat, Trie>, name: string)
    requires Packable(elts, ptrs) && AllTagged(tries, ptrs, elts)
    ensures var found, p := HashFind(elts, name), Pointer(elts, ptrs, name);
      if found.None? then p == 0 else p > 0 && Tagged(tries, p, found.value)
  {
    PointerFound(elts, ptrs, name);
  }

  /** What a label leads to when it is the last one of the name and begins at `n`. */
  ghost function SlotValue(slot: Slot, name: string, n: nat): nat
    requires n <= |name|
  {
    match slot
    case Data(word) => if word % 2 == 0 then word else if n == 0 then 0 else word - word % 4
    case Table(sub, tag) =>
      if n == 0 then (if tag % 2 == 1 then 0 else sub.value)
      else (var v := Lookup(sub, Reversed(name[..n - 1])); if v != 0 then v else sub.value)
  }

  /** What the search in a compiled table does at its outer level. */
  lemma LookupStep(t: Trie, name: string, n: nat)
    requires n == LastLabel(name)
    ensures var found := HashFind(t.elts, name[n..]);
      Lookup(t, Reversed(name)) == if found.None? then t.value else SlotValue(found.value, name, n)
  {
    var r := Reversed(name);
    assert r[0] == name[n..];
    if n > 0 { assert r[1..] == Reversed(name[..n - 1]); }
  }

  /** `ngx_hash_find_wc_head` on packed levels: it returns what the search in the compiled table
      returns. */
  method FindHeadPacked(m: Memory, at: nat, name: string, hash: string -> nat, ghost g: Image) returns (value: nat)
    requires Sound(m, g, hash) && at in m.levels
    ensures value == Lookup(g.tries[at], Reversed(name))
    decreases |name|, 2
  {
    var n := LabelStart(name);
    ghost var t := g.tries[at];
    assert HoldsAt(m, g, hash, at);
    value := FindLabel(m.levels[at].table, name[n..], hash, t.elts, g.ptrs[at]);
    Leads(t.elts, g.ptrs[at], g.tries, name[n..]);
    LookupStep(t, name, n);
    if value == 0 {
      value := m.levels[at].value;
    } else {
      value := Follow(m, value, name, n, hash, g, HashFind(t.elts, name[n..]).value);
    }
  }

  /** Acts on a pointer found for the last label of the name. */
  method Follow(m: Memory, ptr: nat, name: string, n: nat, hash: string -> nat, ghost g: Image, ghost slot: Slot)
    returns (value: nat)
    requires Sound(m, g, hash) && n <= |name| && Tagged(g.tries, ptr, slot)
    ensures value == SlotValue(slot, name, n)
    decreases |name|, 1
  {
    var tag := ptr % 4;
    LowBit(ptr);
    if tag >= 2 {
      if n == 0 {
        value := BareValue(m, ptr - tag, tag % 2 == 1, hash, g);
      } else {
        value := FindBelow(m, ptr - tag, name, n, hash, g);
      }
    } else if tag % 2 == 1 {
      value := if n == 0 then 0 else ptr - tag;
    } else {
      value := ptr;
    }
  }

  lemma LowBit(ptr: nat)
    ensures ptr % 4 % 2 == ptr % 2 && ptr - ptr % 4 >= 0
  {
    var q, t := ptr / 4, ptr % 4;
    Remainder(ptr, 2, 2 * q + t / 2, t % 2);
  }

  /** The whole name has been read: the value beside the inner level, unless the wildcard is not
      to match the bare domain. */
  method BareValue(m: Memory, sub: nat, dot: bool, ghost hash: string -> nat, ghost g: Image) returns (value: nat)
    requires Sound(m, g, hash) && sub in m.levels
    ensures value == if dot then 0 else g.tries[sub].value
  {
    assert HoldsAt(m, g, hash, sub);
    value := if dot then 0 else m.levels[sub].value;
  }

  /** The search goes on in the inner level with what is before the label. */
  method FindBelow(m: Memory, sub: nat, name: string, n: nat, hash: string -> nat, ghost g: Image) returns (value: nat)
    requires Sound(m, g, hash) && sub in m.levels && 0 < n <= |name|
    ensures var v := Lookup(g.tries[sub], Reversed(name[..n - 1])); value == if v != 0 then v else g.tries[sub].value
    decreases |name|, 0
  {
    assert HoldsAt(m, g, hash, sub);
    value := FindHeadPacked(m, sub, name[..n - 1], hash, g);
    if value == 0 { value := m.levels[sub].value; }
  }

  // ----- from wildcards to answers

  /** The packed levels in `m`, the outer one at address `at`, answer for every name. */
  ghost predicate Serves(m: Memory, at: nat, hash: string -> nat, ws: seq<Wildcard>)
    reads set a | a in m.levels :: m.levels[a].table.buckets
    reads set a | a in m.levels :: m.levels[a].table.mem
  {
    exists g :: Sound(m, g, hash) && at in g.tries && Answers(g.tries[at], ws)
  }

  /** Compiles and packs wildcards; the result is the address of the outer level.  There is none
      if and only if some level of the compiled table has no size. */
  method PackWildcards(ws: seq<Wildcard>, hash: string -> nat, bucketSize: nat, maxSize: nat, ghost chars: set<char>)
    returns (r: Option<nat>, m: Memory, t: Trie)
    requires Admissible(ws) && Over(ws, chars) && LowerCase(chars) && Roomy(bucketSize, Longest(ws))
    ensures Answers(t, ws) && (r.None? <==> Crowded(t, hash, bucketSize, maxSize))
    ensures r.Some? ==> Serves(m, r.value, hash, ws)
  {
    t := CompileWildcards(ws, chars);
    m := Memory(map[], 4);
    ghost var g := Image(map[], map[]);
    r, m, g := PackTrie(t, hash, bucketSize, maxSize, m, g, chars, Longest(ws));
  }

  /** The search by name. */
  method Search(m: Memory, at: nat, name: string, hash: string -> nat, ghost ws: seq<Wildcard>) returns (value: nat)
    requires Serves(m, at, hash, ws)
    ensures Answer(ws, name, value)
  {
    ghost var g :| Sound(m, g, hash) && at in g.tries && Answers(g.tries[at], ws);
    value := FindHeadPacked(m, at, name, hash, g);
  }
}
