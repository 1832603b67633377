/** Head wildcards: names such as `*.example.com` and `.example.com`, compiled into tables of
    labels, and the search for the longest one that matches a name. */
module Wildcards {

  import opened Options

  /** A wildcard with its labels in reverse order: `com.example.` for `*.example.com` and
      `com.example` for `.example.com`; and its value. */
  datatype Entry = Entry(key: string, value: nat)

  /** What a label leads to: a value, or a further table.  The two low bits of the pointer tell
      which: bit 1 that it is a table, bit 0 that the name must go on. */
  datatype Slot = Data(word: nat) | Table(trie: Trie, tag: nat)

  datatype Elt = Elt(name: string, slot: Slot)

  datatype Trie = Trie(elts: seq<Elt>, value: nat)

  // ----- labels

  function FirstDot(s: string): (d: nat)
    ensures d <= |s| && (d < |s| ==> s[d] == '.') && forall i :: 0 <= i < d ==> s[i] != '.'
  {
    if s == [] || s[0] == '.' then 0 else 1 + FirstDot(s[1..])
  }

  /** Where the last label of a name begins. */
  function LastLabel(s: string): (n: nat)
    ensures n <= |s| && (n > 0 ==> s[n - 1] == '.') && forall i :: n <= i < |s| ==> s[i] != '.'
  {
    if s == [] || s[|s| - 1] == '.' then |s| else LastLabel(s[..|s| - 1])
  }

  function Label(s: string): string {
    s[..FirstDot(s)]
  }

  /** The labels of a key; a dot at its end does not begin another one. */
  function Base(s: string): (l: seq<string>)
    ensures l != [] && l[0] == Label(s)
    decreases |s|
  {
    var d := FirstDot(s);
    if d + 1 >= |s| then [s[..d]] else [s[..d]] + Base(s[d + 1..])
  }

  /** The wildcard stands for the bare domain as well. */
  predicate Bare(s: string)
    decreases |s|
  {
    var d := FirstDot(s);
    if d + 1 >= |s| then d == |s| else Bare(s[d + 1..])
  }

  /** The labels of a name, last one first. */
  function Reversed(s: string): (l: seq<string>)
    ensures l != []
    decreases |s|
  {
    var n := LastLabel(s);
    if n == 0 then [s] else [s[n..]] + Reversed(s[..n - 1])
  }

  predicate Matches(key: string, name: seq<string>) {
    Base(key) <= name && (Base(key) == name ==> Bare(key))
  }

  // ----- the search

  /** The first element with that name: what the lookup in one hash table returns. */
  function HashFind(elts: seq<Elt>, text: string): Option<Slot> {
    if elts == [] then None
    else if elts[0].name == text then Some(elts[0].slot)
    else HashFind(elts[1..], text)
  }

  function Lookup(t: Trie, name: seq<string>): nat
    requires name != []
    decreases |name|, 1
  {
    match HashFind(t.elts, name[0])
    case None => t.value
    case Some(slot) => SlotLookup(slot, name)
  }

  function SlotLookup(slot: Slot, name: seq<string>): nat
    requires name != []
    decreases |name|, 0
  {
    match slot
    case Table(t, tag) =>
      if |name| == 1 then
        (if tag % 2 == 1 then 0 else t.value)
      else
        (var v := Lookup(t, name[1..]); if v != 0 then v else t.value)
    case Data(word) =>
      if word % 2 == 1 then (if |name| == 1 then 0 else word - word % 4) else word
  }

  /** Where the last label begins. */
  method LabelStart(name: string) returns (n: nat)
    ensures n == LastLabel(name)
  {
    n := |name|;
    while n > 0
      invariant n <= |name| && forall i :: n <= i < |name| ==> name[i] != '.'
    {
      if name[n - 1] == '.' { break; }
      n := n - 1;
    }
    LastIs(name, n);
  }

  /** `ngx_hash_find_wc_head`. */
  method FindHead(t: Trie, name: string) returns (value: nat)
    ensures value == Lookup(t, Reversed(name))
    decreases |name|
  {
    var n := LabelStart(name);
    match HashFind(t.elts, name[n..]) {
      case None => return t.value;
      case Some(Data(word)) =>
        if word % 2 == 1 {
          if n == 0 { return 0; }
          return word - word % 4;
        }
        return word;
      case Some(Table(sub, tag)) =>
        if n == 0 {
          if tag % 2 == 1 { return 0; }
          return sub.value;
        }
        value := FindHead(sub, name[..n - 1]);
        if value != 0 { return; }
        return sub.value;
    }
  }

  lemma LastIs(s: string, n: nat)
    requires n <= |s| && (n > 0 ==> s[n - 1] == '.') && forall i :: n <= i < |s| ==> s[i] != '.'
    ensures LastLabel(s) == n
  {
  }

  // ----- what is wanted

  ghost predicate IsLongest(names: seq<Entry>, name: seq<string>, e: Entry) {
    && e in names && Matches(e.key, name)
    && forall f :: f in names && Matches(f.key, name) ==> |Base(f.key)| <= |Base(e.key)|
  }

  ghost predicate NoMatch(names: seq<Entry>, name: seq<string>) {
    forall f :: f in names ==> !Matches(f.key, name)
  }

  /** `value` is that of the longest wildcard that matches, or, if there is none, nothing or the
      value to fall back to. */
  ghost predicate Wanted(names: seq<Entry>, name: seq<string>, value: nat, fallback: nat) {
    || (exists e :: IsLongest(names, name, e) && value == e.value)
    || (NoMatch(names, name) && (value == 0 || value == fallback))
  }

  // ----- the order of the names

  /** The dot is the lowest character. */
  function Code(c: char): int {
    if c == '.' then 32 else c as int
  }

  predicate Less(s: string, t: string) {
    if t == [] then false
    else if s == [] then true
    else if s[0] == t[0] then Less(s[1..], t[1..])
    else Code(s[0]) < Code(t[0])
  }

  /** No character comes before the dot. */
  predicate Plain(s: string) {
    forall i :: 0 <= i < |s| ==> s[i] >= ' '
  }

  lemma {:induction false} LessBehind(p: string, s: string, t: string)
    ensures Less(p + s, p + t) == Less(s, t)
  {
    if p == [] {
      assert p + s == s && p + t == t;
    } else {
      LessBehind(p[1..], s, t);
      assert (p + s)[1..] == p[1..] + s && (p + t)[1..] == p[1..] + t;
    }
  }

  /** What lies between two strings with the same beginning begins in the same way. */
  lemma {:induction false} Between(p: string, s: string, t: string, u: string)
    requires p <= s && p <= u && Less(s, t) && Less(t, u)
    ensures p <= t
  {
    if p != [] {
      assert s[0] == p[0] == u[0] == t[0];
      Between(p[1..], s[1..], t[1..], u[1..]);
    }
  }

  /** Only a character before the dot lets a string go on below one that has a dot there. */
  lemma {:induction false} BelowDot(p: string, t: string, u: string)
    requires p <= t && p + "." <= u && Less(t, u)
    ensures |t| == |p| || t[|p|] == '.' || t[|p|] < ' '
  {
    if p == [] {
      assert (p + ".")[0] == '.' && u[0] == '.';
    } else {
      assert u[0] == (p + ".")[0] == p[0];
      assert p[1..] + "." == (p + ".")[1..] <= u[1..];
      BelowDot(p[1..], t[1..], u[1..]);
    }
  }

  // ----- keys with the same first label

  /** The key is one label, with or without a dot behind it. */
  predicate Self(key: string) {
    FirstDot(key) + 1 >= |key|
  }

  lemma DotIs(s: string, d: nat)
    requires d <= |s| && (d < |s| ==> s[d] == '.') && forall i :: 0 <= i < d ==> s[i] != '.'
    ensures FirstDot(s) == d
  {
  }

  lemma SplitAt(s: string, d: nat)
    requires d < |s| && s[d] == '.'
    ensures s == s[..d] + "." + s[d + 1..] && s[..d] + "." == s[..d + 1] && s[..d + 1] <= s
  {
  }

  lemma LabelPrefix(s: string)
    ensures Label(s) <= s
    ensures FirstDot(s) < |s| ==> Label(s) + "." <= s && s == Label(s) + "." + s[FirstDot(s) + 1..]
  {
    var d := FirstDot(s);
    if d < |s| { SplitAt(s, d); }
  }

  /** Sorted names with the same first label lie side by side. */
  lemma SideBySide(s: string, t: string, u: string)
    requires Less(s, t) && Less(t, u) && Plain(Label(t)) && Label(s) == Label(u)
    ensures Label(t) == Label(s)
  {
    var p := Label(s);
    LabelPrefix(s);
    LabelPrefix(u);
    LabelPrefix(t);
    Between(p, s, t, u);
    if FirstDot(u) == |u| {
      assert u == p;
      Shorter(p, t, u);
    } else {
      BelowDot(p, t, u);
      InLabel(t, |p|);
      DotIs(t, |p|);
    }
  }

  /** The first label reaches to the first dot. */
  lemma InLabel(t: string, d: nat)
    ensures d < |t| && (forall i :: 0 <= i <= d ==> t[i] != '.') ==> d < |Label(t)| && Label(t)[d] == t[d]
  {
  }

  /** `t` comes between no two names with another first label that they share. */
  ghost predicate Joins(t: string) {
    forall s: string, u: string :: Less(s, t) && Less(t, u) && Label(s) == Label(u) ==> Label(t) == Label(s)
  }

  /** That is so iff no character of its first label comes before the dot. */
  lemma JoinsIffPlain(t: string)
    ensures Joins(t) <==> Plain(Label(t))
  {
    if Plain(Label(t)) {
      forall s: string, u: string | Less(s, t) && Less(t, u) && Label(s) == Label(u) ensures Label(t) == Label(s) {
        SideBySide(s, t, u);
      }
    } else {
      LabelPrefix(t);
      var i :| 0 <= i < |Label(t)| && Label(t)[i] < ' ';
      Split(t, i);
    }
  }

  /** A character before the dot: what is before it, alone and with a dot, lies around `t`. */
  lemma Split(t: string, i: nat)
    requires i < |Label(t)| && t[i] < ' '
    ensures Less(t[..i], t) && Less(t, t[..i] + ".")
    ensures Label(t[..i]) == Label(t[..i] + ".") == t[..i] != Label(t)
  {
    var p, rest := t[..i], t[i..];
    assert t == p + rest && p == p + [];
    LessBehind(p, [], rest);
    LessBehind(p, rest, ".");
    DotIs(p, i);
    DotIs(p + ".", i);
    assert (p + ".")[..i] == p;
    assert |Label(t)| > i;
  }

  /** Strings over the characters from the space on and `c`. */
  predicate With(s: string, c: char) {
    forall i :: 0 <= i < |s| ==> s[i] >= ' ' || s[i] == c
  }

  /** Sorted names over these characters with the same first label lie side by side. */
  ghost predicate Grouping(c: char) {
    forall s: string, t: string, u: string ::
      With(s, c) && With(t, c) && With(u, c) && Less(s, t) && Less(t, u) && Label(s) == Label(u) ==>
        Label(t) == Label(s)
  }

  /** So the order of `ngx_dns_strcmp` groups names by their first label iff no character of them
      comes before the dot. */
  lemma GroupingIff(c: char)
    ensures Grouping(c) <==> c >= ' '
  {
    if c >= ' ' {
      forall s: string, t: string, u: string |
        With(s, c) && With(t, c) && With(u, c) && Less(s, t) && Less(t, u) && Label(s) == Label(u)
        ensures Label(t) == Label(s)
      {
        SideBySide(s, t, u);
      }
    } else {
      var s, t, u := "a", "a" + [c], "a.";
      DotIs(t, 2);
      Split(t, 1);
      assert t[..1] == s && s + "." == u;
      assert With(s, c) && With(t, c) && With(u, c);
    }
  }

  lemma {:induction false} Shorter(p: string, t: string, u: string)
    requires p <= t && Less(t, u) && u == p
    ensures false
  {
    if p != [] { Shorter(p[1..], t[1..], u[1..]); }
  }

  /** The name that is the label alone comes first. */
  lemma SelfFirst(s: string, t: string)
    requires Less(s, t) && Label(s) == Label(t)
    ensures Self(t) ==> Base(s) == Base(t)
  {
    LabelPrefix(s);
    LabelPrefix(t);
    var p := Label(s);
    if Self(t) && !Self(s) {
      if FirstDot(t) == |t| {
        assert t == p;
        Shorter(p, s, t);
      } else {
        assert t == p + "." by { assert t[..|p| + 1] == t; }
        Shorter(p + ".", s, t);
      }
    }
  }

  // ----- one group of names

  function Tail(e: Entry): Entry
    requires !Self(e.key)
  {
    Entry(e.key[FirstDot(e.key) + 1..], e.value)
  }

  /** What follows the first label in the names where something does. */
  ghost function Tails(g: seq<Entry>): seq<Entry> {
    if g == [] then []
    else Tails(g[..|g| - 1]) + if Self(g[|g| - 1].key) then [] else [Tail(g[|g| - 1])]
  }

  ghost predicate IsTail(g: seq<Entry>, x: Entry, e: Entry) {
    e in g && !Self(e.key) && x == Tail(e)
  }

  lemma {:induction false} TailsFrom(g: seq<Entry>, x: Entry)
    ensures x in Tails(g) <==> exists e :: IsTail(g, x, e)
  {
    if g != [] {
      var h, last := g[..|g| - 1], g[|g| - 1];
      TailsFrom(h, x);
      assert g == h + [last];
      if x in Tails(h) {
        var e :| IsTail(h, x, e);
        assert IsTail(g, x, e);
      }
      if !Self(last.key) && x == Tail(last) { assert IsTail(g, x, last); }
      if exists e :: IsTail(g, x, e) {
        var e :| IsTail(g, x, e);
        if e in h { assert IsTail(h, x, e); }
      }
    }
  }

  /** All names of `g` have the first label `text`. */
  ghost predicate Grouped(g: seq<Entry>, text: string) {
    forall e :: e in g ==> Label(e.key) == text
  }

  lemma NonSelfMatches(e: Entry, name: seq<string>)
    requires name != [] && !Self(e.key) && Label(e.key) == name[0]
    ensures Base(e.key) == [name[0]] + Base(Tail(e).key) && Bare(e.key) == Bare(Tail(e).key)
    ensures Matches(e.key, name) <==> |name| > 1 && Matches(Tail(e).key, name[1..])
  {
    var b := Base(Tail(e).key);
    assert Base(e.key) == [name[0]] + b;
    assert name == [name[0]] + name[1..];
    if [name[0]] + b <= name { assert b == ([name[0]] + b)[1..] <= name[1..]; }
    if |name| > 1 && b <= name[1..] { assert [name[0]] + b <= [name[0]] + name[1..]; }
  }

  lemma SelfMatches(e: Entry, name: seq<string>)
    requires name != [] && Self(e.key) && Label(e.key) == name[0]
    ensures Base(e.key) == [name[0]] && (Matches(e.key, name) <==> |name| > 1 || Bare(e.key))
  {
  }

  /** A name whose first label is another one does not match. */
  lemma OtherLabel(e: Entry, name: seq<string>)
    requires name != [] && Label(e.key) != name[0]
    ensures !Matches(e.key, name)
  {
  }

  /** The name in the group that is the label alone, if there is one. */
  ghost predicate SelfOf(g: seq<Entry>, self: Option<Entry>) {
    match self
    case None => forall f :: f in g ==> !Self(f.key)
    case Some(e) => e in g && Self(e.key) && forall f :: f in g && Self(f.key) ==> f == e
  }

  ghost predicate Finds(names: seq<Entry>, t: Trie) {
    forall name {:trigger Lookup(t, name)} :: name != [] ==> Wanted(names, name, Lookup(t, name), t.value)
  }

  /** The slot of a group: its table holds the tails, its value is that of the label alone. */
  ghost predicate SlotFor(g: seq<Entry>, self: Option<Entry>, slot: Slot) {
    match slot
    case Data(word) =>
      && self.Some? && (forall f :: f in g ==> f == self.value)
      && word == self.value.value + (if Bare(self.value.key) then 0 else 1) && self.value.value % 4 == 0
    case Table(t, tag) =>
      && Finds(Tails(g), t)
      && t.value == (if self.Some? then self.value.value else 0)
      && tag % 2 == (if self.Some? && Bare(self.value.key) then 0 else 1)
  }

  ghost predicate Valued(names: seq<Entry>) {
    forall e :: e in names ==> e.value > 0 && e.value % 4 == 0
  }

  ghost function BareValue(self: Option<Entry>): nat {
    if self.Some? && Bare(self.value.key) then self.value.value else 0
  }

  lemma OneValue(g: seq<Entry>, self: Option<Entry>, slot: Slot, name: seq<string>)
    requires |name| == 1 && SlotFor(g, self, slot)
    ensures SlotLookup(slot, name) == BareValue(self)
  {
    var bare := self.Some? && Bare(self.value.key);
    match slot
    case Data(word) => LowBits(word, self.value.value, bare);
    case Table(t, tag) =>
  }

  /** The tag of a value says whether the name must go on. */
  lemma LowBits(word: nat, value: nat, bare: bool)
    requires value % 4 == 0 && word == value + (if bare then 0 else 1)
    ensures (word % 2 == 1 <==> !bare) && word - word % 4 == value
  {
    var q, t := value / 4, if bare then 0 else 1;
    Remainder(word, 4, q, t);
    Remainder(word, 2, 2 * q, t);
  }

  lemma Remainder(w: nat, k: nat, q: nat, t: nat)
    requires w == k * q + t && t < k
    ensures w % k == t
  {
    var d := w / k - q;
    assert k * d == t - w % k by { assert w == k * (w / k) + w % k; }
    assert d >= 1 ==> k * d >= k;
    assert d <= -1 ==> k * d + k <= 0;
  }

  /** One label in the name: only the label alone can match. */
  lemma OneLabel(g: seq<Entry>, self: Option<Entry>, name: seq<string>)
    requires |name| == 1 && Grouped(g, name[0]) && SelfOf(g, self)
    ensures Wanted(g, name, BareValue(self), 0)
  {
    forall e | e in g ensures Matches(e.key, name) <==> self == Some(e) && Bare(e.key) {
      if Self(e.key) { SelfMatches(e, name); } else { NonSelfMatches(e, name); }
    }
    if self.Some? && Bare(self.value.key) {
      assert IsLongest(g, name, self.value);
    }
  }

  /** A match of a tail is a match of the whole. */
  lemma TailLongest(g: seq<Entry>, name: seq<string>, x: Entry) returns (e: Entry)
    requires |name| > 1 && Grouped(g, name[0]) && IsLongest(Tails(g), name[1..], x)
    ensures IsLongest(g, name, e) && e.value == x.value
  {
    TailsFrom(g, x);
    e :| IsTail(g, x, e);
    NonSelfMatches(e, name);
    forall f | f in g && Matches(f.key, name) ensures |Base(f.key)| <= |Base(e.key)| {
      if Self(f.key) {
        SelfMatches(f, name);
      } else {
        NonSelfMatches(f, name);
        assert IsTail(g, Tail(f), f);
        TailsFrom(g, Tail(f));
      }
    }
  }

  lemma NoTailMatch(g: seq<Entry>, self: Option<Entry>, name: seq<string>)
    requires |name| > 1 && Grouped(g, name[0]) && SelfOf(g, self) && NoMatch(Tails(g), name[1..])
    ensures if self.Some? then IsLongest(g, name, self.value) else NoMatch(g, name)
  {
    forall f | f in g ensures Matches(f.key, name) <==> self == Some(f) {
      if Self(f.key) {
        SelfMatches(f, name);
      } else {
        NonSelfMatches(f, name);
        assert IsTail(g, Tail(f), f);
        TailsFrom(g, Tail(f));
      }
    }
  }

  lemma MoreLabels(g: seq<Entry>, self: Option<Entry>, slot: Slot, name: seq<string>)
    requires |name| > 1 && Grouped(g, name[0]) && SelfOf(g, self) && SlotFor(g, self, slot) && Valued(g)
    ensures Wanted(g, name, SlotLookup(slot, name), 0)
  {
    match slot
    case Data(word) =>
      var e := self.value;
      LowBits(word, e.value, Bare(e.key));
      SelfMatches(e, name);
      assert IsLongest(g, name, e);
    case Table(t, tag) =>
      var v := Lookup(t, name[1..]);
      assert Wanted(Tails(g), name[1..], v, t.value);
      if x :| IsLongest(Tails(g), name[1..], x) && v == x.value {
        var e := TailLongest(g, name, x);
        assert v == e.value > 0;
      } else {
        NoTailMatch(g, self, name);
      }
  }

  lemma GroupWanted(g: seq<Entry>, self: Option<Entry>, slot: Slot, name: seq<string>)
    requires name != [] && Grouped(g, name[0]) && SelfOf(g, self) && SlotFor(g, self, slot) && Valued(g)
    ensures Wanted(g, name, SlotLookup(slot, name), 0)
  {
    if |name| == 1 { OneValue(g, self, slot, name); OneLabel(g, self, name); } else { MoreLabels(g, self, slot, name); }
  }

  // ----- the table of all groups

  /** What the table finds for the first label of `name`. */
  ghost predicate TableAt(elts: seq<Elt>, names: seq<Entry>, name: seq<string>)
    requires name != []
  {
    match HashFind(elts, name[0])
    case None => forall e :: e in names ==> Label(e.key) != name[0]
    case Some(slot) =>
      && (exists e :: e in names && Label(e.key) == name[0])
      && Wanted(names, name, SlotLookup(slot, name), 0)
  }

  ghost predicate TableFor(elts: seq<Elt>, names: seq<Entry>) {
    forall name {:trigger TableAt(elts, names, name)} :: name != [] ==> TableAt(elts, names, name)
  }

  lemma {:induction false} HashAppend(elts: seq<Elt>, x: Elt, text: string)
    ensures HashFind(elts + [x], text) ==
      if HashFind(elts, text).Some? then HashFind(elts, text) else if x.name == text then Some(x.slot) else None
  {
    if elts == [] {
      assert elts + [x] == [x];
    } else {
      HashAppend(elts[1..], x, text);
      assert (elts + [x])[1..] == elts[1..] + [x];
    }
  }

  /** Names with other first labels make no difference. */
  lemma OthersOnly(a: seq<Entry>, b: seq<Entry>, name: seq<string>, v: nat)
    requires name != [] && Wanted(a, name, v, 0)
    requires forall e :: e in b && e !in a ==> Label(e.key) != name[0]
    requires forall e :: e in a ==> e in b
    ensures Wanted(b, name, v, 0)
  {
    forall e | e in b && e !in a ensures !Matches(e.key, name) { OtherLabel(e, name); }
    if e :| IsLongest(a, name, e) && v == e.value {
      assert IsLongest(b, name, e);
    } else {
      assert NoMatch(b, name);
    }
  }

  /** A group of names with a label of their own joins the table. */
  lemma GroupJoins(elts: seq<Elt>, names: seq<Entry>, g: seq<Entry>, text: string, self: Option<Entry>, slot: Slot)
    requires TableFor(elts, names) && g != [] && Grouped(g, text) && Valued(g)
    requires SelfOf(g, self) && SlotFor(g, self, slot)
    requires forall e :: e in names ==> Label(e.key) != text
    ensures TableFor(elts + [Elt(text, slot)], names + g)
  {
    var all, elts' := names + g, elts + [Elt(text, slot)];
    forall name: seq<string> | name != [] ensures TableAt(elts', all, name) {
      HashAppend(elts, Elt(text, slot), name[0]);
      assert TableAt(elts, names, name);
      if name[0] == text {
        GroupWanted(g, self, slot, name);
        OthersOnly(g, all, name, SlotLookup(slot, name));
        assert g[0] in all && Label(g[0].key) == text;
      } else if HashFind(elts, name[0]).Some? {
        OthersOnly(names, all, name, SlotLookup(HashFind(elts, name[0]).value, name));
      }
    }
  }

  /** The table finds what is wanted. */
  lemma TableFinds(elts: seq<Elt>, names: seq<Entry>)
    requires TableFor(elts, names)
    ensures Finds(names, Trie(elts, 0))
  {
    var t := Trie(elts, 0);
    forall name | name != [] ensures Wanted(names, name, Lookup(t, name), 0) {
      assert TableAt(elts, names, name);
      if HashFind(elts, name[0]) == None {
        forall e | e in names ensures !Matches(e.key, name) { OtherLabel(e, name); }
      }
    }
  }

  /** A table to which a value is given falls back to it. */
  lemma WithValue(names: seq<Entry>, t: Trie, value: nat)
    requires Finds(names, t) && t.value == 0 && Valued(names)
    ensures Finds(names, t.(value := value))
  {
    var t' := t.(value := value);
    forall name | name != [] ensures Wanted(names, name, Lookup(t', name), value) {
      assert Wanted(names, name, Lookup(t, name), 0);
      if HashFind(t.elts, name[0]).Some? {
        assert Lookup(t', name) == Lookup(t, name);
      } else if e :| IsLongest(names, name, e) && 0 == e.value {
        assert e in names;
      }
    }
  }

  // ----- the compilation

  ghost predicate Good(e: Entry, bound: nat) {
    Plain(e.key) && |e.key| <= bound && e.value > 0 && e.value % 4 == 0
  }

  ghost predicate Before(e: Entry, f: Entry) {
    Less(e.key, f.key) && Base(e.key) != Base(f.key)
  }

  /** Sorted names without conflicts; the values are aligned pointers. */
  ghost predicate Ready(names: seq<Entry>, bound: nat) {
    var good := AllGood(names, bound);
    var ascending := Ascending(names);
    good && ascending
  }

  ghost predicate AllGood(names: seq<Entry>, bound: nat) {
    forall e :: e in names ==> Good(e, bound)
  }

  ghost predicate Ascending(names: seq<Entry>) {
    forall i, j :: 0 <= i < j < |names| ==> Before(names[i], names[j])
  }

  ghost predicate Uses(s: string, chars: set<char>) {
    forall i :: 0 <= i < |s| ==> s[i] in chars
  }

  /** A string over these characters, of at most that length. */
  ghost predicate Spelt(s: string, chars: set<char>, most: nat) {
    |s| <= most && Uses(s, chars)
  }

  ghost predicate AllSpelt(names: seq<Entry>, chars: set<char>, most: nat) {
    forall e :: e in names ==> Spelt(e.key, chars, most)
  }

  /** On all levels the labels are such strings and the tags as they have to be. */
  ghost predicate Formed(t: Trie, chars: set<char>, most: nat) {
    forall i :: 0 <= i < |t.elts| ==> Spelt(t.elts[i].name, chars, most) && FormedSlot(t.elts[i].slot, chars, most)
  }

  ghost predicate FormedSlot(slot: Slot, chars: set<char>, most: nat) {
    match slot
    case Data(word) => word > 0 && word % 4 < 2
    case Table(sub, tag) => 2 <= tag < 4 && Formed(sub, chars, most)
  }

  lemma TailsSpelt(g: seq<Entry>, chars: set<char>, most: nat)
    requires AllSpelt(g, chars, most)
    ensures AllSpelt(Tails(g), chars, most)
  {
    forall x | x in Tails(g) ensures Spelt(x.key, chars, most) {
      TailsFrom(g, x);
      var e :| IsTail(g, x, e);
      assert Spelt(e.key, chars, most);
    }
  }

  lemma SliceSpelt(names: seq<Entry>, n: nat, i: nat, chars: set<char>, most: nat)
    requires AllSpelt(names, chars, most) && n <= i <= |names|
    ensures AllSpelt(names[n..i], chars, most)
  {
    forall e | e in names[n..i] ensures e in names {}
  }

  lemma FormedAppend(curr: seq<Elt>, x: Elt, chars: set<char>, most: nat)
    requires Formed(Trie(curr, 0), chars, most) && Spelt(x.name, chars, most) && FormedSlot(x.slot, chars, most)
    ensures Formed(Trie(curr + [x], 0), chars, most)
  {
  }

  lemma LabelSpelt(s: string, chars: set<char>, most: nat)
    requires Spelt(s, chars, most)
    ensures Spelt(Label(s), chars, most)
  {
  }

  lemma TailBefore(e: Entry, f: Entry)
    requires Label(e.key) == Label(f.key) && !Self(e.key) && !Self(f.key) && Before(e, f)
    ensures Before(Tail(e), Tail(f))
  {
    LabelPrefix(e.key);
    LabelPrefix(f.key);
    LessBehind(Label(e.key) + ".", Tail(e).key, Tail(f).key);
    NonSelfMatches(e, [Label(e.key)]);
    NonSelfMatches(f, [Label(f.key)]);
  }

  ghost predicate AllBefore(names: seq<Entry>, x: Entry) {
    forall y :: y in names ==> Before(y, x)
  }

  lemma ReadyAppend(names: seq<Entry>, x: Entry, bound: nat)
    requires Ready(names, bound) && Good(x, bound) && AllBefore(names, x)
    ensures Ready(names + [x], bound)
  {
    var all := names + [x];
    forall i, j | 0 <= i < j < |all| ensures Before(all[i], all[j]) {
      if j == |names| { assert all[i] in names; }
    }
  }

  lemma ReadyPrefix(names: seq<Entry>, bound: nat)
    requires Ready(names, bound) && names != []
    ensures Ready(names[..|names| - 1], bound) && Good(names[|names| - 1], bound)
    ensures AllBefore(names[..|names| - 1], names[|names| - 1])
  {
    var h := names[..|names| - 1];
    forall y | y in h ensures y in names && Before(y, names[|names| - 1]) {
      var i :| 0 <= i < |h| && h[i] == y;
      assert names[i] == y;
    }
  }

  lemma TailsBefore(h: seq<Entry>, text: string, last: Entry)
    requires Grouped(h, text) && AllBefore(h, last) && Label(last.key) == text && !Self(last.key)
    ensures AllBefore(Tails(h), Tail(last))
  {
    forall x | x in Tails(h) ensures Before(x, Tail(last)) {
      TailsFrom(h, x);
      var e :| IsTail(h, x, e);
      TailBefore(e, last);
    }
  }

  lemma {:induction false} TailsReady(g: seq<Entry>, text: string, bound: nat)
    requires Ready(g, bound) && Grouped(g, text)
    ensures bound > 0 ==> Ready(Tails(g), bound - 1)
    ensures bound == 0 ==> Tails(g) == []
  {
    if g != [] {
      var h, last := g[..|g| - 1], g[|g| - 1];
      ReadyPrefix(g, bound);
      assert last in g && forall e :: e in h ==> e in g;
      TailsReady(h, text, bound);
      if !Self(last.key) {
        TailsBefore(h, text, last);
        ReadyAppend(Tails(h), Tail(last), bound - 1);
      }
    }
  }

  /** A later name with the label of an earlier one is longer than the label. */
  lemma LaterIsLonger(names: seq<Entry>, bound: nat, n: nat, i: nat)
    requires Ready(names, bound) && n < i < |names| && Label(names[n].key) == Label(names[i].key)
    ensures !Self(names[i].key)
  {
    assert Before(names[n], names[i]) && Good(names[n], bound) && Good(names[i], bound);
    SelfFirst(names[n].key, names[i].key);
  }

  /** The test that ends a group, on the bytes of the names. */
  predicate InGroup(key: string, len: nat, dot: bool, other: string)
    requires len <= |key|
  {
    key[..len] <= other && (dot || |other| <= len || other[len] == '.')
  }

  lemma InGroupIffLabel(names: seq<Entry>, bound: nat, n: nat, i: nat)
    requires Ready(names, bound) && n < i < |names|
    ensures var key := names[n].key;
      var d := FirstDot(key);
      InGroup(key, if d < |key| then d + 1 else d, d < |key|, names[i].key) <==> Label(names[i].key) == Label(key)
  {
    var key, other := names[n].key, names[i].key;
    var d := FirstDot(key);
    LabelPrefix(key);
    LabelPrefix(other);
    if Label(other) == Label(key) {
      LaterIsLonger(names, bound, n, i);
      if d < |key| { SplitAt(key, d); }
    }
    PrefixLabel(key, other);
  }

  lemma PrefixLabel(key: string, other: string)
    ensures var d := FirstDot(key);
      InGroup(key, if d < |key| then d + 1 else d, d < |key|, other) ==> Label(other) == Label(key)
  {
    var d := FirstDot(key);
    if d < |key| && key[..d + 1] <= other {
      DotIs(other, d);
    } else if d == |key| && key <= other && (|other| <= d || other[d] == '.') {
      DotIs(other, d);
    }
  }

  /** Names behind the end of a group have other labels. */
  lemma GroupEnds(names: seq<Entry>, bound: nat, n: nat, i: nat, k: nat)
    requires Ready(names, bound) && n < i <= k < |names| && Label(names[i].key) != Label(names[n].key)
    ensures Label(names[k].key) != Label(names[n].key)
  {
    if i < k && Label(names[k].key) == Label(names[n].key) {
      assert Before(names[n], names[i]) && Before(names[i], names[k]);
      assert Good(names[n], bound) && Good(names[i], bound) && Good(names[k], bound);
      SideBySide(names[n].key, names[i].key, names[k].key);
    }
  }

  ghost predicate Follows(key: string, other: string) {
    Label(other) == Label(key) && !Self(other)
  }

  ghost predicate Differs(key: string, other: string) {
    Label(other) != Label(key)
  }

  /** The names from `i` on have another first label than that at `n`. */
  ghost predicate AllDiffer(names: seq<Entry>, n: nat, i: nat)
    requires n < |names|
  {
    forall k :: i <= k < |names| ==> Differs(names[n].key, names[k].key)
  }

  /** The names from `n` on have the first label of that one; the later ones go on behind it. */
  ghost predicate AllFollow(names: seq<Entry>, n: nat, i: nat)
    requires n < i <= |names|
  {
    forall j :: n < j < i ==> Follows(names[n].key, names[j].key)
  }

  lemma FollowStep(names: seq<Entry>, n: nat, i: nat)
    requires n < i < |names| && AllFollow(names, n, i) && Follows(names[n].key, names[i].key)
    ensures AllFollow(names, n, i + 1)
  {
  }

  lemma NextTail(key: string, e: Entry, dotLen: nat)
    requires Follows(key, e.key) && dotLen == FirstDot(key) + 1
    ensures dotLen <= |e.key| && Entry(e.key[dotLen..], e.value) == Tail(e)
  {
    SameDot(key, e.key);
  }

  lemma TailsStep(names: seq<Entry>, n: nat, i: nat)
    requires n <= i < |names|
    ensures Tails(names[n..i + 1]) == Tails(names[n..i]) + if Self(names[i].key) then [] else [Tail(names[i])]
    ensures Tails(names[n..n]) == []
  {
    assert names[n..i + 1][..i - n] == names[n..i];
  }

  lemma SameDot(s: string, t: string)
    requires Label(s) == Label(t)
    ensures FirstDot(s) == FirstDot(t)
  {
    assert |Label(s)| == FirstDot(s) && |Label(t)| == FirstDot(t);
  }

  /** `next` is what follows the label in the names of the group so far. */
  ghost predicate Collected(names: seq<Entry>, n: nat, i: nat, next: seq<Entry>)
    requires n < i <= |names|
  {
    var follow := AllFollow(names, n, i);
    var tails := Tails(names[n..i]);
    follow && next == tails
  }

  lemma FirstOfGroup(names: seq<Entry>, n: nat, len: nat, next: seq<Entry>)
    requires n < |names| && len <= |names[n].key|
    requires var d := FirstDot(names[n].key); len == if d < |names[n].key| then d + 1 else d
    requires next == if |names[n].key| != len then [Entry(names[n].key[len..], names[n].value)] else []
    ensures Collected(names, n, n + 1, next)
  {
    TailsStep(names, n, n);
  }

  /** Where the first label of a key ends, and what its dot adds. */
  ghost predicate Marks(key: string, len: nat, dotLen: nat, dot: bool) {
    var d := FirstDot(key);
    dot == (d < |key|) && dotLen == d + 1 && len == if dot then d + 1 else d
  }

  /** The name at index `i` belongs to the group that begins at index `n`. */
  lemma JoinsGroup(names: seq<Entry>, bound: nat, n: nat, i: nat, next: seq<Entry>, len: nat, dotLen: nat, dot: bool)
    requires Ready(names, bound) && n < i < |names| && Collected(names, n, i, next)
    requires Marks(names[n].key, len, dotLen, dot) && len <= |names[n].key|
    requires InGroup(names[n].key, len, dot, names[i].key)
    ensures dotLen <= |names[i].key|
    ensures Collected(names, n, i + 1, next + [Entry(names[i].key[dotLen..], names[i].value)])
  {
    InGroupIffLabel(names, bound, n, i);
    LaterIsLonger(names, bound, n, i);
    CollectStep(names, n, i, next, dotLen);
  }

  lemma CollectStep(names: seq<Entry>, n: nat, i: nat, next: seq<Entry>, dotLen: nat)
    requires n < i < |names| && Collected(names, n, i, next) && Follows(names[n].key, names[i].key)
    requires dotLen == FirstDot(names[n].key) + 1
    ensures dotLen <= |names[i].key|
    ensures Collected(names, n, i + 1, next + [Entry(names[i].key[dotLen..], names[i].value)])
  {
    FollowStep(names, n, i);
    TailsStep(names, n, i);
    NextTail(names[n].key, names[i], dotLen);
  }

  lemma LeavesGroup(names: seq<Entry>, bound: nat, n: nat, i: nat, len: nat, dotLen: nat, dot: bool)
    requires Ready(names, bound) && n < i < |names|
    requires Marks(names[n].key, len, dotLen, dot) && len <= |names[n].key|
    requires !InGroup(names[n].key, len, dot, names[i].key)
    ensures AllDiffer(names, n, i)
  {
    InGroupIffLabel(names, bound, n, i);
    forall k | i <= k < |names| ensures Differs(names[n].key, names[k].key) { GroupEnds(names, bound, n, i, k); }
  }

  /** The names from `n` on that share their first label, and what follows it in them. */
  method Collect(names: seq<Entry>, n: nat, len: nat, dotLen: nat, dot: bool, ghost bound: nat)
    returns (i: nat, next: seq<Entry>)
    requires Ready(names, bound) && n < |names|
    requires Marks(names[n].key, len, dotLen, dot) && len <= |names[n].key|
    ensures n < i <= |names| && Collected(names, n, i, next)
    ensures AllDiffer(names, n, i)
  {
    var key := names[n].key;
    next := [];
    if |key| != len { next := [Entry(key[len..], names[n].value)]; }
    FirstOfGroup(names, n, len, next);
    i := n + 1;
    while i < |names|
      invariant n < i <= |names| && Collected(names, n, i, next)
    {
      if !InGroup(key, len, dot, names[i].key) {
        LeavesGroup(names, bound, n, i, len, dotLen, dot);
        return;
      }
      JoinsGroup(names, bound, n, i, next, len, dotLen, dot);
      next := next + [Entry(names[i].key[dotLen..], names[i].value)];
      i := i + 1;
    }
  }

  ghost function SelfAt(names: seq<Entry>, n: nat): Option<Entry>
    requires n < |names|
  {
    if Self(names[n].key) then Some(names[n]) else None
  }

  lemma CollectedGroup(names: seq<Entry>, n: nat, i: nat)
    requires n < i <= |names| && AllFollow(names, n, i)
    ensures names[n..i] != [] && Grouped(names[n..i], Label(names[n].key)) && SelfOf(names[n..i], SelfAt(names, n))
  {
    var g := names[n..i];
    assert g[0] == names[n] && names[n] in g;
    forall e | e in g ensures Label(e.key) == Label(names[n].key) && (Self(e.key) ==> e == names[n]) {
      var j :| 0 <= j < |g| && g[j] == e;
      if j > 0 { assert Follows(names[n].key, names[n + j].key); }
    }
  }

  lemma ReadySlice(names: seq<Entry>, bound: nat, n: nat, i: nat)
    requires Ready(names, bound) && n <= i <= |names|
    ensures Ready(names[n..i], bound) && Valued(names[n..i])
  {
    var g := names[n..i];
    forall e | e in g ensures Good(e, bound) {
      var j :| 0 <= j < |g| && g[j] == e;
      assert names[n + j] in names;
    }
    forall j, k | 0 <= j < k < |g| ensures Before(g[j], g[k]) { assert Before(names[n + j], names[n + k]); }
  }

  /** The names before `n` have other first labels than those from `n` on. */
  ghost predicate Behind(names: seq<Entry>, n: nat)
    requires n <= |names|
  {
    forall j, k :: 0 <= j < n <= k < |names| ==> Differs(names[j].key, names[k].key)
  }

  lemma BehindNext(names: seq<Entry>, n: nat, i: nat)
    requires n < i <= |names| && Behind(names, n) && AllFollow(names, n, i)
    requires AllDiffer(names, n, i)
    ensures Behind(names, i)
    ensures forall e :: e in names[..n] ==> Label(e.key) != Label(names[n].key)
  {
    forall j, k | 0 <= j < i <= k < |names| ensures Differs(names[j].key, names[k].key) {
      if n < j { assert Follows(names[n].key, names[j].key); }
    }
    forall e | e in names[..n] ensures Label(e.key) != Label(names[n].key) {
      var j :| 0 <= j < n && names[j] == e;
      assert Differs(names[j].key, names[n].key);
    }
  }

  /** The table of the names before `i`, after that of the names before `n`. */
  lemma GroupDone(curr: seq<Elt>, names: seq<Entry>, bound: nat, n: nat, i: nat, slot: Slot)
    requires Ready(names, bound) && n < i <= |names| && Behind(names, n) && AllFollow(names, n, i)
    requires AllDiffer(names, n, i)
    requires TableFor(curr, names[..n]) && SlotFor(names[n..i], SelfAt(names, n), slot)
    ensures Behind(names, i) && TableFor(curr + [Elt(Label(names[n].key), slot)], names[..i])
  {
    BehindNext(names, n, i);
    CollectedGroup(names, n, i);
    ReadySlice(names, bound, n, i);
    GroupJoins(curr, names[..n], names[n..i], Label(names[n].key), SelfAt(names, n), slot);
    assert names[..n] + names[n..i] == names[..i];
  }

  /** `ngx_hash_wildcard_init`: the table finds what is wanted for every name. */
  method Compile(names: seq<Entry>, ghost bound: nat, ghost chars: set<char>, ghost most: nat) returns (t: Trie)
    requires Ready(names, bound) && AllSpelt(names, chars, most)
    ensures Finds(names, t) && t.value == 0 && Formed(t, chars, most)
    decreases bound, 1
  {
    var curr: seq<Elt> := [];
    var n := 0;
    assert names[..0] == [];
    while n < |names|
      invariant n <= |names| && TableFor(curr, names[..n]) && Behind(names, n) && Formed(Trie(curr, 0), chars, most)
    {
      var len := 0;
      while len < |names[n].key|
        invariant len <= |names[n].key| && forall i :: 0 <= i < len ==> names[n].key[i] != '.'
      {
        if names[n].key[len] == '.' { break; }
        len := len + 1;
      }
      DotIs(names[n].key, len);
      var dot := len < |names[n].key|;
      var text := names[n].key[..len];
      var dotLen := len + 1;
      if dot { len := len + 1; }
      var i, next := Collect(names, n, len, dotLen, dot, bound);
      var slot := GroupSlot(names, n, i, len, dot, next, bound, chars, most);
      GroupDone(curr, names, bound, n, i, slot);
      LabelSpelt(names[n].key, chars, most);
      FormedAppend(curr, Elt(text, slot), chars, most);
      curr := curr + [Elt(text, slot)];
      n := i;
    }
    assert names[..n] == names;
    TableFinds(curr, names);
    t := Trie(curr, 0);
  }

  /** What the label of a group leads to. */
  method GroupSlot(names: seq<Entry>, n: nat, i: nat, len: nat, dot: bool, next: seq<Entry>, ghost bound: nat,
                   ghost chars: set<char>, ghost most: nat)
    returns (slot: Slot)
    requires Ready(names, bound) && AllSpelt(names, chars, most) && n < i <= |names| && Collected(names, n, i, next)
    requires var d := FirstDot(names[n].key); dot == (d < |names[n].key|) && len == if dot then d + 1 else d
    ensures SlotFor(names[n..i], SelfAt(names, n), slot) && FormedSlot(slot, chars, most)
    decreases bound, 0
  {
    ghost var g := names[n..i];
    CollectedGroup(names, n, i);
    ReadySlice(names, bound, n, i);
    if next != [] {
      TailsReady(g, Label(names[n].key), bound);
      SliceSpelt(names, n, i, chars, most);
      TailsSpelt(g, chars, most);
      var sub := Compile(next, bound - 1, chars, most);
      assert Valued(next) by { assert Ready(next, bound - 1); }
      if |names[n].key| == len {
        WithValue(next, sub, names[n].value);
        sub := sub.(value := names[n].value);
      }
      slot := Table(sub, if dot then 3 else 2);
    } else {
      AloneInGroup(names, n, i);
      assert Good(names[n], bound);
      slot := Data(if dot then names[n].value + 1 else names[n].value);
    }
  }

  /** A group in which nothing follows the label is one name. */
  lemma AloneInGroup(names: seq<Entry>, n: nat, i: nat)
    requires n < i <= |names| && AllFollow(names, n, i) && Tails(names[n..i]) == []
    ensures Self(names[n].key) && forall f :: f in names[n..i] ==> f == names[n]
  {
    var g := names[n..i];
    forall f | f in g ensures Self(f.key) {
      if !Self(f.key) {
        assert IsTail(g, Tail(f), f);
        TailsFrom(g, Tail(f));
      }
    }
    CollectedGroup(names, n, i);
    assert names[n] == g[0];
  }

  // ----- wildcards as they are written

  /** `*.domain` or `.domain`. */
  datatype Wildcard = Wildcard(star: bool, domain: string, value: nat)

  function Text(w: Wildcard): string {
    (if w.star then "*." else ".") + w.domain
  }

  /** The wildcard stands for the name. */
  ghost predicate Covers(w: Wildcard, name: string) {
    (exists p: string :: name == p + "." + w.domain) || (!w.star && name == w.domain)
  }

  /** A string with its labels in reverse order. */
  function Flipped(s: string): string
    decreases |s|
  {
    var n := LastLabel(s);
    if n == 0 then s else s[n..] + "." + Flipped(s[..n - 1])
  }

  ghost predicate NoDot(s: string, lo: nat, hi: nat) {
    forall j :: lo <= j < hi && j < |s| ==> s[j] != '.'
  }

  /** `f[n]` is the first `n` characters of `s`, flipped. */
  ghost predicate FlippedAll(s: string, f: seq<string>) {
    |f| == |s| + 1 && forall i: nat, e: nat :: i <= e <= |s| && NoDot(s, i, e) ==> Step(s, f, i, e)
  }

  /** What the text up to `e` adds to the text before its last label, which begins at `i`. */
  ghost predicate Step(s: string, f: seq<string>, i: nat, e: nat)
    requires i <= e <= |s| && |f| == |s| + 1
  {
    if i == 0 then f[e] == s[..e] else s[i - 1] == '.' ==> f[e] == s[i..e] + "." + f[i - 1]
  }

  lemma AllFlipped(s: string, f: seq<string>)
    requires |f| == |s| + 1 && forall n :: 0 <= n <= |s| ==> f[n] == Flipped(s[..n])
    ensures FlippedAll(s, f)
  {
    forall i: nat, e: nat | i <= e <= |s| && NoDot(s, i, e) ensures Step(s, f, i, e) {
      if i == 0 {
        LastIs(s[..e], 0);
      } else if s[i - 1] == '.' {
        FlippedAt(s[..e], i);
        assert s[..e][i..] == s[i..e] && s[..e][..i - 1] == s[..i - 1];
      }
    }
  }

  /** The key for a wildcard, as `ngx_hash_add_key` copies it label by label from the text
      behind the first character, the last label first. */
  method KeyOf(s: string) returns (key: string)
    ensures key == Flipped(s)
  {
    ghost var f := seq(|s| + 1, n requires 0 <= n <= |s| => Flipped(s[..n]));
    AllFlipped(s, f);
    assert s[..|s|] == s;
    key := Copy(s, f);
  }

  method Copy(s: string, ghost f: seq<string>) returns (key: string)
    requires FlippedAll(s, f)
    ensures key == f[|s|]
  {
    key := "";
    var len: nat := 0;
    var i: nat := |s|;
    ghost var e := i;
    while i > 0
      invariant i + len == e <= |s| && NoDot(s, i, e) && key + f[e] == f[|s|]
    {
      if s[i - 1] == '.' {
        assert Step(s, f, i, e);
        Regrouped(key, s[i..e], f[i - 1]);
        key := key + s[i..i + len] + ".";
        len := 0;
        e := i - 1;
      } else {
        len := len + 1;
      }
      i := i - 1;
    }
    assert Step(s, f, 0, e);
    if len > 0 { key := key + s[..len]; }
  }

  lemma Regrouped(a: string, b: string, c: string)
    ensures a + (b + "." + c) == a + b + "." + c
  {
  }

  lemma FlippedAt(s: string, n: nat)
    requires 0 < n <= |s| && s[n - 1] == '.' && forall i :: n <= i < |s| ==> s[i] != '.'
    ensures Flipped(s) == s[n..] + "." + Flipped(s[..n - 1])
  {
    LastIs(s, n);
  }

  // ----- from labels to strings

  ghost predicate Dotless(s: string) {
    forall i :: 0 <= i < |s| ==> s[i] != '.'
  }

  /** `name` is `x`, or ends with a dot and `x`. */
  ghost predicate Ends(name: string, x: string) {
    name == x || exists p: string :: name == p + "." + x
  }

  /** A string is one label, or what is before its last label, a dot, and that label. */
  lemma CutLast(s: string) returns (a: string, b: string)
    ensures Dotless(b)
    ensures LastLabel(s) == 0 ==> b == s
    ensures LastLabel(s) > 0 ==> s == a + "." + b && a == s[..LastLabel(s) - 1] && b == s[LastLabel(s)..]
  {
    var n := LastLabel(s);
    b := s[n..];
    a := [];
    if n > 0 {
      a := s[..n - 1];
      SplitAt(s, n - 1);
    }
  }

  lemma CutIs(s: string, a: string, b: string)
    requires s == a + "." + b && Dotless(b)
    ensures LastLabel(s) == |a| + 1 && s[..|a|] == a && s[|a| + 1..] == b
  {
    var n := |a| + 1;
    assert s[n - 1] == '.' && s[n..] == b;
    forall i | n <= i < |s| ensures s[i] != '.' { assert s[i] == b[i - n]; }
    LastIs(s, n);
  }

  lemma CutUnique(a: string, b: string, c: string, d: string)
    requires a + "." + b == c + "." + d && Dotless(b) && Dotless(d)
    ensures a == c && b == d
  {
    CutIs(a + "." + b, a, b);
    CutIs(c + "." + d, c, d);
  }

  lemma EndsByLabel(a: string, b: string, c: string, d: string)
    requires Dotless(b) && Dotless(d)
    ensures Ends(a + "." + b, c + "." + d) <==> b == d && Ends(a, c)
  {
    var name, x := a + "." + b, c + "." + d;
    if name == x {
      CutUnique(a, b, c, d);
    } else if p: string :| name == p + "." + x {
      assert name == (p + "." + c) + "." + d;
      CutUnique(a, b, p + "." + c, d);
    }
    if b == d && Ends(a, c) && a != c {
      var p: string :| a == p + "." + c;
      assert name == p + "." + x;
    }
  }

  /** `x` is one label. */
  lemma EndsOneLabel(a: string, b: string, x: string)
    requires Dotless(b) && Dotless(x)
    ensures Ends(a + "." + b, x) <==> b == x
    ensures a + "." + b != x
  {
    var name := a + "." + b;
    assert name[|a|] == '.' && name != x;
    if p: string :| name == p + "." + x {
      CutUnique(a, b, p, x);
    }
  }

  lemma DotlessEnds(name: string, x: string)
    requires Dotless(name)
    ensures Ends(name, x) <==> name == x
  {
    forall p: string ensures name != p + "." + x { assert (p + "." + x)[|p|] == '.'; }
  }

  lemma ConsPrefix<T>(a: T, s: seq<T>, b: T, t: seq<T>)
    ensures [a] + s <= [b] + t <==> a == b && s <= t
    ensures [a] + s == [b] + t <==> a == b && s == t
  {
    var u, v := [a] + s, [b] + t;
    assert u[1..] == s && v[1..] == t && u[0] == a && v[0] == b;
    if u <= v {
      assert v[..|u|] == u && v[..|u|][1..] == v[1..][..|s|];
    }
    if a == b && s <= t {
      assert t[..|s|] == s && v[..|u|] == [b] + t[..|s|];
    }
  }

  /** One label more on both sides; `r` and `q` are the labels of `a` and `c` in reverse. */
  lemma SuffixStep(a: string, b: string, r: seq<string>, c: string, d: string, q: seq<string>)
    requires Dotless(b) && Dotless(d)
    requires (q <= r <==> Ends(a, c)) && (q == r <==> c == a)
    ensures [d] + q <= [b] + r <==> Ends(a + "." + b, c + "." + d)
    ensures [d] + q == [b] + r <==> c + "." + d == a + "." + b
  {
    EndsByLabel(a, b, c, d);
    ConsPrefix(d, q, b, r);
    if c + "." + d == a + "." + b { CutUnique(c, d, a, b); }
  }

  /** The name is one label; `q` are the labels of `x` in reverse. */
  lemma SuffixOfOne(name: string, x: string, q: seq<string>)
    requires Dotless(name) && q != [] && if Dotless(x) then q == [x] else |q| > 1
    ensures q <= [name] <==> Ends(name, x)
    ensures q == [name] <==> x == name
  {
    DotlessEnds(name, x);
    if Dotless(x) { assert [x] <= [name] ==> [x][0] == [name][0]; }
  }

  /** The suffix is one label; `r` are the labels of `a` in reverse. */
  lemma SuffixIsOne(a: string, b: string, r: seq<string>, x: string)
    requires Dotless(b) && Dotless(x) && r != []
    ensures [x] <= [b] + r <==> Ends(a + "." + b, x)
    ensures [x] == [b] + r <==> x == a + "." + b
  {
    EndsOneLabel(a, b, x);
    ConsPrefix(x, [], b, r);
    assert [x] + [] == [x];
  }

  /** A string is one label, or its labels in reverse are the last one and those before it. */
  lemma ByLastLabel(s: string) returns (one: bool, a: string, b: string)
    ensures one ==> Dotless(s) && Reversed(s) == [s]
    ensures !one ==> s == a + "." + b && Dotless(b) && !Dotless(s) && |a| < |s|
    ensures !one ==> Reversed(s) == [b] + Reversed(a) && Reversed(a) != []
  {
    one := LastLabel(s) == 0;
    a, b := CutLast(s);
    if !one { assert s[LastLabel(s) - 1] == '.'; }
  }

  /** The labels of `x` begin those of `name`, both in reverse, iff `name` ends with `x`. */
  lemma {:induction false} SuffixLabels(name: string, x: string)
    ensures Reversed(x) <= Reversed(name) <==> Ends(name, x)
    ensures Reversed(x) == Reversed(name) <==> x == name
    decreases |x|
  {
    var oneName, a, b := ByLastLabel(name);
    var oneSuffix, c, d := ByLastLabel(x);
    if oneName {
      SuffixOfOne(name, x, Reversed(x));
    } else if oneSuffix {
      SuffixIsOne(a, b, Reversed(a), x);
    } else {
      SuffixLabels(a, c);
      SuffixStep(a, b, Reversed(a), c, d, Reversed(c));
    }
  }

  // ----- keys of wildcards

  /** The key of a wildcard: what is behind the first character of its text, flipped. */
  function Key(w: Wildcard): string {
    Flipped(Text(w)[1..])
  }

  lemma FlippedCut(a: string, b: string)
    requires Dotless(b)
    ensures Flipped(a + "." + b) == b + "." + Flipped(a)
    ensures Reversed(a + "." + b) == [b] + Reversed(a)
  {
    CutIs(a + "." + b, a, b);
  }

  lemma FlippedOne(x: string)
    requires LastLabel(x) == 0
    ensures Flipped(x) == x && Reversed(x) == [x] && Dotless(x)
  {
  }

  lemma {:induction false} StarKey(x: string)
    ensures Flipped("." + x) == Flipped(x) + "."
    decreases |x|
  {
    var a, b := CutLast(x);
    if LastLabel(x) == 0 {
      FlippedOne(x);
      FlippedCut("", x);
      assert "" + "." + x == "." + x && x + "." + "" == x + ".";
    } else {
      StarKey(a);
      FlippedCut(a, b);
      FlippedCut("." + a, b);
      StarCat(a, b, Flipped(a));
    }
  }

  lemma StarCat(a: string, b: string, c: string)
    ensures ("." + a) + "." + b == "." + (a + "." + b)
    ensures b + "." + (c + ".") == (b + "." + c) + "."
  {
  }

  /** A key that is one label, and one that goes on. */
  lemma KeyOne(x: string, dot: string)
    requires Dotless(x) && (dot == "" || dot == ".")
    ensures Base(x + dot) == [x] && (Bare(x + dot) <==> dot == "")
  {
    DotIs(x + dot, |x|);
    assert (x + dot)[..|x|] == x;
  }

  lemma KeyMore(b: string, rest: string)
    requires Dotless(b) && rest != []
    ensures Base(b + "." + rest) == [b] + Base(rest) && Bare(b + "." + rest) == Bare(rest)
  {
    var key := b + "." + rest;
    DotIs(key, |b|);
    assert key[..|b|] == b && key[|b| + 1..] == rest;
  }

  lemma KeyStep(b: string, f: string, dot: string)
    requires Dotless(b) && f != [] && (dot == "" || dot == ".")
    ensures Base((b + "." + f) + dot) == [b] + Base(f + dot)
    ensures Bare((b + "." + f) + dot) == Bare(f + dot)
  {
    KeyMore(b, f + dot);
    DotBehind(b, f, dot);
  }

  lemma DotBehind(b: string, f: string, dot: string)
    ensures (b + "." + f) + dot == b + "." + (f + dot)
  {
  }

  /** The key spells the labels of the domain in reverse and tells whether it was bare. */
  lemma {:induction false} KeyLabels(x: string, dot: string)
    requires x != [] && x[0] != '.' && (dot == "" || dot == ".")
    ensures Base(Flipped(x) + dot) == Reversed(x)
    ensures Bare(Flipped(x) + dot) <==> dot == ""
    ensures Flipped(x) != []
    decreases |x|
  {
    if LastLabel(x) == 0 {
      FlippedOne(x);
      KeyOne(x, dot);
    } else {
      var a, b := CutLast(x);
      assert a != [] && a[0] == x[0];
      KeyLabels(a, dot);
      FlippedCut(a, b);
      KeyStep(b, Flipped(a), dot);
    }
  }

  /** A domain has a first label. */
  predicate IsWildcard(w: Wildcard) {
    w.domain != [] && w.domain[0] != '.' && w.value > 0 && w.value % 4 == 0
  }

  ghost function EntryOf(w: Wildcard): Entry {
    Entry(Key(w), w.value)
  }

  lemma KeyIs(w: Wildcard)
    requires IsWildcard(w)
    ensures Base(Key(w)) == Reversed(w.domain) && (Bare(Key(w)) <==> !w.star)
  {
    if w.star {
      assert Text(w)[1..] == "." + w.domain;
      StarKey(w.domain);
      KeyLabels(w.domain, ".");
    } else {
      assert Text(w)[1..] == w.domain;
      KeyLabels(w.domain, "");
      assert Flipped(w.domain) + "" == Flipped(w.domain);
    }
  }

  /** A key matches a name by labels iff the wildcard covers it as a string. */
  lemma MatchesIffCovers(w: Wildcard, name: string)
    requires IsWildcard(w)
    ensures Matches(Key(w), Reversed(name)) <==> Covers(w, name)
  {
    KeyIs(w);
    SuffixLabels(name, w.domain);
    if p: string :| name == p + "." + w.domain { assert |name| > |w.domain|; }
  }

  /** Of two domains with which a name ends, the one with more labels is the longer one. */
  lemma LongerDomain(name: string, x: string, y: string)
    requires Ends(name, x) && Ends(name, y)
    ensures |Reversed(x)| <= |Reversed(y)| <==> |x| <= |y|
  {
    SuffixLabels(name, x);
    SuffixLabels(name, y);
    SuffixLabels(y, x);
    SuffixLabels(x, y);
    PrefixChain(Reversed(x), Reversed(y), Reversed(name));
    PrefixChain(Reversed(y), Reversed(x), Reversed(name));
    EndsShorter(x, y);
    EndsShorter(y, x);
  }

  lemma PrefixChain<T>(s: seq<T>, t: seq<T>, u: seq<T>)
    requires s <= u && t <= u
    ensures |s| <= |t| ==> s <= t
  {
  }

  lemma EndsShorter(x: string, y: string)
    ensures Ends(x, y) && x != y ==> |y| < |x|
  {
  }

  // ----- the whole

  /** `names` are the keys of the wildcards `all`, in any order. */
  ghost predicate KeysOf(all: set<Wildcard>, names: seq<Entry>) {
    (forall w :: w in all ==> EntryOf(w) in names) && forall e :: e in names ==> exists w :: w in all && e == EntryOf(w)
  }

  /** The wildcard that covers the name and has the longest domain. */
  ghost predicate LongestCover(all: set<Wildcard>, name: string, w: Wildcard) {
    w in all && Covers(w, name) && forall v :: v in all && Covers(v, name) ==> |v.domain| <= |w.domain|
  }

  /** The search in the compiled table returns the value of the longest wildcard that covers the
      name, or nothing if there is none. */
  lemma LongestWildcard(all: set<Wildcard>, names: seq<Entry>, t: Trie, name: string)
    requires forall w :: w in all ==> IsWildcard(w)
    requires KeysOf(all, names) && Finds(names, t) && t.value == 0
    ensures var value := Lookup(t, Reversed(name));
      || (exists w :: LongestCover(all, name, w) && value == w.value)
      || ((forall w :: w in all ==> !Covers(w, name)) && value == 0)
  {
    var value := Lookup(t, Reversed(name));
    assert Wanted(names, Reversed(name), value, 0);
    if e :| IsLongest(names, Reversed(name), e) && value == e.value {
      var w :| w in all && e == EntryOf(w);
      MatchesIffCovers(w, name);
      forall v | v in all && Covers(v, name) ensures |v.domain| <= |w.domain| {
        MatchesIffCovers(v, name);
        KeyIs(v);
        KeyIs(w);
        assert EntryOf(v) in names;
        LongerDomain(name, v.domain, w.domain);
      }
      assert LongestCover(all, name, w);
    } else {
      forall w | w in all ensures !Covers(w, name) {
        MatchesIffCovers(w, name);
        assert EntryOf(w) in names;
      }
    }
  }

  /** Wildcards with different domains do not conflict. */
  lemma NoConflict(v: Wildcard, w: Wildcard)
    requires IsWildcard(v) && IsWildcard(w)
    ensures Base(Key(v)) == Base(Key(w)) <==> v.domain == w.domain
  {
    KeyIs(v);
    KeyIs(w);
    SuffixLabels(v.domain, w.domain);
  }

  lemma {:induction false} FlippedPlain(s: string)
    ensures |Flipped(s)| == |s| && (Plain(s) ==> Plain(Flipped(s)))
    decreases |s|
  {
    var n := LastLabel(s);
    if n > 0 {
      FlippedPlain(s[..n - 1]);
      assert Plain(s) ==> Plain(s[..n - 1]) && Plain(s[n..]);
    }
  }

  /** Wildcards as they come to the compilation: with different domains, sorted by their keys. */
  ghost predicate Admissible(ws: seq<Wildcard>) {
    && (forall w :: w in ws ==> IsWildcard(w) && Plain(w.domain))
    && forall i, j :: 0 <= i < j < |ws| ==> InOrder(ws[i], ws[j])
  }

  ghost predicate InOrder(v: Wildcard, w: Wildcard) {
    v.domain != w.domain && Less(Key(v), Key(w))
  }

  ghost function Entries(ws: seq<Wildcard>): seq<Entry> {
    seq(|ws|, i requires 0 <= i < |ws| => EntryOf(ws[i]))
  }

  ghost function Longest(ws: seq<Wildcard>): (n: nat)
    ensures forall w :: w in ws ==> |w.domain| < n
  {
    if ws == [] then 0
    else
      var last, n := ws[|ws| - 1], Longest(ws[..|ws| - 1]);
      assert ws == ws[..|ws| - 1] + [last];
      if n <= |last.domain| then |last.domain| + 1 else n
  }

  lemma KeyText(w: Wildcard)
    ensures |Text(w)[1..]| <= |w.domain| + 1 && (Plain(w.domain) ==> Plain(Text(w)[1..]))
  {
    assert Text(w)[1..] == if w.star then "." + w.domain else w.domain;
  }

  lemma KeyGood(w: Wildcard, bound: nat)
    requires IsWildcard(w) && Plain(w.domain) && |w.domain| < bound
    ensures Good(EntryOf(w), bound)
  {
    KeyText(w);
    FlippedPlain(Text(w)[1..]);
  }

  /** Such wildcards meet what the compilation asks of their keys. */
  lemma EntriesReady(ws: seq<Wildcard>, bound: nat)
    requires Admissible(ws) && forall w :: w in ws ==> |w.domain| < bound
    ensures Ready(Entries(ws), bound)
  {
    var names := Entries(ws);
    forall e | e in names ensures Good(e, bound) {
      var i :| 0 <= i < |names| && names[i] == e;
      assert ws[i] in ws;
      KeyGood(ws[i], bound);
    }
    forall i, j | 0 <= i < j < |names| ensures Before(names[i], names[j]) {
      assert ws[i] in ws && ws[j] in ws && InOrder(ws[i], ws[j]);
      NoConflict(ws[i], ws[j]);
    }
  }

  /** The value of the longest wildcard that covers the name, or nothing if there is none. */
  ghost predicate Answer(ws: seq<Wildcard>, name: string, value: nat) {
    var all := set w | w in ws;
    || (exists w :: LongestCover(all, name, w) && value == w.value)
    || ((forall w :: w in ws ==> !Covers(w, name)) && value == 0)
  }

  /** The search in the table gives the answer for every name. */
  ghost predicate Answers(t: Trie, ws: seq<Wildcard>) {
    forall name: string :: Answer(ws, name, Lookup(t, Reversed(name)))
  }

  lemma CoverEnds(w: Wildcard, name: string)
    requires Covers(w, name)
    ensures |w.domain| <= |name| && w.domain == name[|name| - |w.domain|..]
  {
  }

  /** Only one wildcard is the longest to cover a name. */
  lemma OneCover(ws: seq<Wildcard>, name: string, v: Wildcard, w: Wildcard)
    requires Admissible(ws) && v in ws && w in ws && Covers(v, name) && Covers(w, name) && |v.domain| == |w.domain|
    ensures v == w
  {
    CoverEnds(v, name);
    CoverEnds(w, name);
    var i, j :| 0 <= i < |ws| && 0 <= j < |ws| && ws[i] == v && ws[j] == w;
    assert i < j ==> InOrder(ws[i], ws[j]);
    assert j < i ==> InOrder(ws[j], ws[i]);
  }

  /** There is only one answer. */
  lemma OneAnswer(ws: seq<Wildcard>, name: string, u: nat, v: nat)
    requires Admissible(ws) && Answer(ws, name, u) && Answer(ws, name, v)
    ensures u == v
  {
    var all := set w | w in ws;
    if a :| LongestCover(all, name, a) && u == a.value {
      var b :| LongestCover(all, name, b) && v == b.value;
      OneCover(ws, name, a, b);
    }
  }

  lemma {:induction false} FlippedUses(s: string, chars: set<char>)
    requires '.' in chars && Uses(s, chars)
    ensures Uses(Flipped(s), chars)
    decreases |s|
  {
    var n := LastLabel(s);
    if n > 0 { FlippedUses(s[..n - 1], chars); }
  }

  /** The domains use these characters only. */
  ghost predicate Over(ws: seq<Wildcard>, chars: set<char>) {
    '.' in chars && forall w :: w in ws ==> Uses(w.domain, chars)
  }

  lemma KeySpelt(w: Wildcard, chars: set<char>, most: nat)
    requires '.' in chars && Uses(w.domain, chars) && |w.domain| < most
    ensures Spelt(Key(w), chars, most)
  {
    KeyText(w);
    var t := Text(w)[1..];
    assert t == if w.star then "." + w.domain else w.domain;
    FlippedUses(t, chars);
    FlippedPlain(t);
  }

  lemma EntriesSpelt(ws: seq<Wildcard>, chars: set<char>, most: nat)
    requires Over(ws, chars) && forall w :: w in ws ==> |w.domain| < most
    ensures AllSpelt(Entries(ws), chars, most)
  {
    var names := Entries(ws);
    forall e | e in names ensures Spelt(e.key, chars, most) {
      var i :| 0 <= i < |names| && names[i] == e;
      assert ws[i] in ws;
      KeySpelt(ws[i], chars, most);
    }
  }

  /** Converts the wildcards to keys and compiles the keys: the search in the table then answers
      for every name. */
  method CompileWildcards(ws: seq<Wildcard>, ghost chars: set<char>) returns (t: Trie)
    requires Admissible(ws) && Over(ws, chars)
    ensures Formed(t, chars, Longest(ws)) && Answers(t, ws)
  {
    var names: seq<Entry> := [];
    for i := 0 to |ws|
      invariant names == Entries(ws)[..i]
    {
      var key := KeyOf(Text(ws[i])[1..]);
      names := names + [Entry(key, ws[i].value)];
    }
    assert names == Entries(ws);
    EntriesReady(ws, Longest(ws));
    EntriesSpelt(ws, chars, Longest(ws));
    t := Compile(names, Longest(ws), chars, Longest(ws));
    ghost var all := set w | w in ws;
    EntriesAreKeys(ws);
    forall name: string ensures Answer(ws, name, Lookup(t, Reversed(name))) {
      LongestWildcard(all, names, t, name);
    }
  }

  lemma EntriesAreKeys(ws: seq<Wildcard>)
    ensures KeysOf((set w | w in ws), Entries(ws))
  {
    var names := Entries(ws);
    forall w | w in ws ensures EntryOf(w) in names {
      var i :| 0 <= i < |ws| && ws[i] == w;
      assert names[i] == EntryOf(w);
    }
    forall e | e in names ensures exists w :: w in ws && e == EntryOf(w) {
      var i :| 0 <= i < |names| && names[i] == e;
      assert ws[i] in ws;
    }
  }
}
