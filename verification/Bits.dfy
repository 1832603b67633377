/** Machine words as naturals, read bit by bit. */
module Bits {

  function Pow2(n: nat): (p: nat)
    ensures p > 0
  {
    if n == 0 then 1 else 2 * Pow2(n - 1)
  }

  /** `w & ((uintptr_t) 1 << i)` is not zero. */
  predicate Bit(w: nat, i: nat) {
    if i == 0 then w % 2 == 1 else Bit(w / 2, i - 1)
  }

  /** The bits below `i` are set. */
  ghost predicate OnesBelow(w: nat, i: nat) {
    forall b: nat :: b < i ==> Bit(w, b)
  }

  /** `w | ((uintptr_t) 1 << i)`. */
  function SetBit(w: nat, i: nat): nat {
    if Bit(w, i) then w else w + Pow2(i)
  }

  /** `w & ~((uintptr_t) 1 << i)`. */
  function ClearBit(w: nat, i: nat): (r: nat) {
    if Bit(w, i) then BitHas(w, i); w - Pow2(i) else w
  }

  lemma {:induction false} BitHas(w: nat, i: nat)
    requires Bit(w, i)
    ensures w >= Pow2(i)
  {
    if i > 0 { BitHas(w / 2, i - 1); }
  }

  lemma {:induction false} BitOfSet(w: nat, i: nat, j: nat)
    ensures Bit(SetBit(w, i), j) <==> i == j || Bit(w, j)
  {
    if !Bit(w, i) {
      var v := w + Pow2(i);
      if i == 0 {
        assert v / 2 == w / 2;
      } else {
        assert v / 2 == w / 2 + Pow2(i - 1) && v % 2 == w % 2;
        if j > 0 { BitOfSet(w / 2, i - 1, j - 1); }
      }
    }
  }

  lemma BitOfClear(w: nat, i: nat, j: nat)
    ensures Bit(ClearBit(w, i), j) <==> i != j && Bit(w, j)
  {
    if Bit(w, i) {
      var v := ClearBit(w, i);
      ClearedBit(w, i);
      BitOfSet(v, i, j);
    }
  }

  lemma {:induction false} ClearedBit(w: nat, i: nat)
    ensures !Bit(ClearBit(w, i), i)
  {
    if Bit(w, i) {
      BitHas(w, i);
      var v := w - Pow2(i);
      if i > 0 {
        BitHas(w / 2, i - 1);
        assert v / 2 == w / 2 - Pow2(i - 1);
        ClearedBit(w / 2, i - 1);
      }
    }
  }

  lemma {:induction false} SmallWord(w: nat, n: nat, i: nat)
    requires w < Pow2(n) && n <= i
    ensures !Bit(w, i)
  {
    if n > 0 { SmallWord(w / 2, n - 1, i - 1); } else if i > 0 { SmallWord(0, 0, i - 1); }
  }

  lemma {:induction false} SetStaysSmall(w: nat, n: nat, i: nat)
    requires w < Pow2(n) && i < n
    ensures SetBit(w, i) < Pow2(n)
  {
    if !Bit(w, i) && i > 0 {
      SetStaysSmall(w / 2, n - 1, i - 1);
      assert SetBit(w / 2, i - 1) == w / 2 + Pow2(i - 1) < Pow2(n - 1);
    }
  }

  /** A word is determined by its bits. */
  lemma {:induction false} SameBits(v: nat, w: nat, n: nat)
    requires v < Pow2(n) && w < Pow2(n)
    requires forall i :: 0 <= i < n ==> Bit(v, i) == Bit(w, i)
    ensures v == w
  {
    if n > 0 {
      assert Bit(v, 0) == Bit(w, 0);
      forall i | 0 <= i < n - 1 ensures Bit(v / 2, i) == Bit(w / 2, i) {
        assert Bit(v, i + 1) == Bit(w, i + 1);
      }
      SameBits(v / 2, w / 2, n - 1);
    }
  }

  /** `Pow2(n) - 1` has exactly its low `n` bits set. */
  lemma {:induction false} OnesBits(n: nat, i: nat)
    ensures Bit(Pow2(n) - 1, i) <==> i < n
  {
    if n > 0 {
      assert (Pow2(n) - 1) / 2 == Pow2(n - 1) - 1;
      if i > 0 { OnesBits(n - 1, i - 1); }
    } else if i > 0 {
      OnesBits(0, i - 1);
    }
  }

  lemma {:induction false} ZeroBits(i: nat)
    ensures !Bit(0, i)
  {
    if i > 0 { ZeroBits(i - 1); }
  }

  /** A word is busy iff all its bits are set. */
  lemma AllOnes(w: nat, n: nat)
    requires w < Pow2(n)
    ensures w == Pow2(n) - 1 <==> forall i :: 0 <= i < n ==> Bit(w, i)
  {
    if w == Pow2(n) - 1 {
      forall i | 0 <= i < n ensures Bit(w, i) { OnesBits(n, i); }
    } else if forall i :: 0 <= i < n ==> Bit(w, i) {
      forall i | 0 <= i < n ensures Bit(Pow2(n) - 1, i) == Bit(w, i) { OnesBits(n, i); }
      SameBits(Pow2(n) - 1, w, n);
      assert false;
    } else {
      assert exists i :: 0 <= i < n && !Bit(w, i);
    }
  }

  /** A word is zero iff no bit of it is set. */
  lemma NoOnes(w: nat, n: nat)
    requires w < Pow2(n)
    ensures w == 0 <==> forall i :: 0 <= i < n ==> !Bit(w, i)
  {
    if w == 0 {
      forall i | 0 <= i < n ensures !Bit(w, i) { ZeroBits(i); }
    } else if forall i :: 0 <= i < n ==> !Bit(w, i) {
      forall i | 0 <= i < n ensures Bit(0, i) == Bit(w, i) { ZeroBits(i); }
      SameBits(0, w, n);
      assert false;
    } else {
      assert exists i :: 0 <= i < n && Bit(w, i);
    }
  }

  // ----- words that keep a map in their upper part

  /** `w >> k`. */
  function Shr(w: nat, k: nat): nat {
    if k == 0 then w else Shr(w / 2, k - 1)
  }

  lemma {:induction false} BitOfShr(w: nat, k: nat, i: nat)
    ensures Bit(Shr(w, k), i) == Bit(w, k + i)
  {
    if k > 0 { BitOfShr(w / 2, k - 1, i); }
  }

  lemma Times16(n: nat)
    requires n >= 4
    ensures Pow2(n) == 16 * Pow2(n - 4)
  {
    assert Pow2(n) == 2 * Pow2(n - 1) && Pow2(n - 1) == 2 * Pow2(n - 2);
    assert Pow2(n - 2) == 2 * Pow2(n - 3) && Pow2(n - 3) == 2 * Pow2(n - 4);
  }

  lemma {:induction false} SetUpperPart(w: nat, k: nat, i: nat)
    ensures Shr(SetBit(w, k + i), k) == SetBit(Shr(w, k), i)
  {
    BitOfShr(w, k, i);
    if k > 0 {
      SetUpperPart(w / 2, k - 1, i);
      assert !Bit(w, k + i) ==> (w + Pow2(k + i)) / 2 == w / 2 + Pow2(k - 1 + i);
    }
  }

  lemma AddSixteens(w: nat, x: nat)
    ensures (w + 16 * x) % 16 == w % 16
  {
  }

  /** A bit of the upper part can be set without disturbing the lower part. */
  lemma SetUpper(w: nat, k: nat, i: nat)
    ensures Shr(SetBit(w, k + i), k) == SetBit(Shr(w, k), i)
    ensures k >= 4 ==> SetBit(w, k + i) % 16 == w % 16
  {
    SetUpperPart(w, k, i);
    if k >= 4 {
      Times16(k + i);
      AddSixteens(w, Pow2(k + i - 4));
    }
  }

  lemma ClearUpper(w: nat, k: nat, i: nat)
    ensures Shr(ClearBit(w, k + i), k) == ClearBit(Shr(w, k), i)
    ensures k >= 4 ==> ClearBit(w, k + i) % 16 == w % 16
  {
    BitOfShr(w, k, i);
    if Bit(w, k + i) {
      var v := ClearBit(w, k + i);
      BitHas(w, k + i);
      ClearedBit(w, k + i);
      BitOfShr(v, k, i);
      SetUpper(v, k, i);
    }
  }

  lemma {:induction false} ShrSmall(w: nat, k: nat, n: nat)
    requires w < Pow2(k + n)
    ensures Shr(w, k) < Pow2(n)
  {
    if k > 0 { ShrSmall(w / 2, k - 1, n); }
  }

  lemma {:induction false} Pow2Sum(a: nat, b: nat)
    ensures Pow2(a + b) == Pow2(a) * Pow2(b)
  {
    if a > 0 { Pow2Sum(a - 1, b); }
  }

  lemma {:induction false} ShrSplit(k: nat, q: nat, r: nat)
    requires r < Pow2(k)
    ensures Shr(Pow2(k) * q + r, k) == q
  {
    if k > 0 {
      assert Pow2(k) * q + r == 2 * (Pow2(k - 1) * q) + r;
      assert (Pow2(k) * q + r) / 2 == Pow2(k - 1) * q + r / 2;
      ShrSplit(k - 1, q, r / 2);
    }
  }

  lemma {:induction false} ShrNext(w: nat, k: nat)
    ensures Shr(w, k + 1) == Shr(w, k) / 2
  {
    if k > 0 { ShrNext(w / 2, k - 1); }
  }

  lemma {:induction false} ShrZero(w: nat, k: nat)
    ensures Shr(w, k) == 0 <==> w < Pow2(k)
  {
    if k > 0 { ShrZero(w / 2, k - 1); }
  }

  lemma {:induction false} Pow2Grows(a: nat, b: nat)
    requires a <= b
    ensures Pow2(a) <= Pow2(b)
  {
    if a < b { Pow2Grows(a, b - 1); }
  }

  /** The powers of two at the half and at the end of a word of 64 bits. */
  lemma WordPowers()
    ensures Pow2(32) == 0x1_0000_0000 && Pow2(63) == 0x8000_0000_0000_0000 && Pow2(64) == 0x1_0000_0000_0000_0000
  {
    assert Pow2(4) == 16 && Pow2(8) == 256 by { Pow2Sum(4, 4); }
    Pow2Sum(8, 8);
    Pow2Sum(16, 16);
    Pow2Sum(32, 32);
  }

  /** Shifting to the left moves the bits up and fills with zeros. */
  lemma {:induction false} BitOfShl(w: nat, k: nat, i: nat)
    ensures Bit(w * Pow2(k), i) <==> i >= k && Bit(w, i - k)
  {
    if k > 0 {
      assert w * Pow2(k) == 2 * (w * Pow2(k - 1));
      if i > 0 { BitOfShl(w, k - 1, i - 1); }
    }
  }
}
