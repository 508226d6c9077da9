/** Bit-level view of the allocator's bitmap words.

    The source keeps its bitmaps in `uint16_t`, `uint32_t` and `uint64_t` words.  All of
    them are modelled as `bv64`; `Within(w, n)` says that a word only uses its lower `n`
    bits, and every operation on a narrower word is shown to keep that, so the source's
    narrower types never truncate anything. */
module Bits {

  // 1 << i
  function Mask(i: nat): bv64
    requires i < 64
  {
    1 << i
  }

  // (1 << k) - 1
  function Below(k: nat): bv64
    requires k < 64
  {
    Pred(Mask(k))
  }

  predicate Bit(w: bv64, i: nat)
    requires i < 64
  {
    Meets(w, Mask(i))
  }

  function And(a: bv64, b: bv64): bv64 {
    a & b
  }

  function Or(a: bv64, b: bv64): bv64 {
    a | b
  }

  function Xor(a: bv64, b: bv64): bv64 {
    a ^ b
  }

  // w & (w - 1): clears the least significant set bit
  function ClearLow(w: bv64): bv64 {
    w & (w - 1)
  }

  ghost predicate Within(w: bv64, n: nat)
    requires n <= 64
  {
    forall i :: n <= i < 64 ==> !Bit(w, i)
  }

  // ---------- words with one bit ----------

  predicate Meets(w: bv64, m: bv64) {
    w & m != 0
  }

  function Pred(m: bv64): bv64 {
    m - 1
  }

  predicate Less(m: bv64, n: bv64) {
    m < n
  }

  predicate OneHot(m: bv64) {
    m != 0 && m & (m - 1) == 0
  }

  lemma OneHotAnd(a: bv64, b: bv64, c: bv64, m: bv64)
    requires OneHot(m) && c == a & b
    ensures Meets(c, m) == (Meets(a, m) && Meets(b, m))
  {
  }

  lemma OneHotXor(a: bv64, b: bv64, c: bv64, m: bv64)
    requires OneHot(m) && c == a ^ b
    ensures Meets(c, m) == (Meets(a, m) != Meets(b, m))
  {
  }

  lemma OneHotOr(a: bv64, b: bv64, m: bv64)
    ensures Meets(a | b, m) == (Meets(a, m) || Meets(b, m))
  {
    AndOverOr(a, b, m);
    OrIsZero(a & m, b & m);
  }

  lemma AndOverOr(a: bv64, b: bv64, m: bv64)
    ensures (a | b) & m == (a & m) | (b & m)
  {
  }

  lemma OrIsZero(a: bv64, b: bv64)
    ensures (a | b == 0) == (a == 0 && b == 0)
  {
  }

  lemma OneHotBelow(m: bv64, n: bv64)
    requires OneHot(m) && OneHot(n)
    ensures Meets(Pred(m), n) == Less(n, m)
  {
  }

  lemma OneHotApart(m: bv64, n: bv64)
    requires OneHot(m) && OneHot(n)
    ensures Meets(m, n) == (m == n)
  {
  }

  lemma OneHotGrows(m: bv64, d: bv64)
    requires OneHot(m) && d == m << 1 && d != 0
    ensures Less(m, d) && Pred(m) | m == Pred(d)
  {
  }

  lemma LessTransitive(a: bv64, b: bv64, c: bv64)
    requires Less(a, b) && Less(b, c)
    ensures Less(a, c) && a != c
  {
  }

  // clearing the lowest bit m of w leaves the rest of w
  lemma OneHotClear(w: bv64, m: bv64, rest: bv64)
    requires OneHot(m) && Meets(w, m) && w & Pred(m) == 0 && rest == w ^ m
    ensures ClearLow(w) == rest
  {
    hide OneHot, Pred, ClearLow;
    OneHotSplit(w, m, rest);
    OneHotBorrow(w, m, rest);
  }

  lemma OneHotSplit(w: bv64, m: bv64, rest: bv64)
    requires OneHot(m) && Meets(w, m) && w & Pred(m) == 0 && rest == w ^ m
    ensures w == rest | m && rest & m == 0 && rest & Pred(m) == 0
  {
  }

  lemma OneHotBorrow(w: bv64, m: bv64, rest: bv64)
    requires OneHot(m) && rest & m == 0 && rest & Pred(m) == 0 && w == rest | m
    ensures ClearLow(w) == rest
  {
  }

  // ---------- the masks 1 << i ----------

  lemma MaskOneHot(i: nat)
    requires i < 64
    ensures OneHot(Mask(i))
  {
  }

  lemma MaskStep0(i: nat)
    requires i < 16
    ensures Mask(i + 1) == Mask(i) << 1
  {
  }

  lemma MaskStep1(i: nat)
    requires 16 <= i < 32
    ensures Mask(i + 1) == Mask(i) << 1
  {
  }

  lemma MaskStep2(i: nat)
    requires 32 <= i < 48
    ensures Mask(i + 1) == Mask(i) << 1
  {
  }

  lemma MaskStep3(i: nat)
    requires 48 <= i < 56
    ensures Mask(i + 1) == Mask(i) << 1
  {
  }

  lemma MaskStep4(i: nat)
    requires 56 <= i < 63
    ensures Mask(i + 1) == Mask(i) << 1
  {
  }

  lemma MaskStep(i: nat)
    requires i < 63
    ensures Mask(i + 1) == Mask(i) << 1
  {
    hide Mask;
    if i < 16 {
      MaskStep0(i);
    } else if i < 32 {
      MaskStep1(i);
    } else if i < 48 {
      MaskStep2(i);
    } else if i < 56 {
      MaskStep3(i);
    } else {
      MaskStep4(i);
    }
  }

  lemma MaskGrows(i: nat)
    requires i < 63
    ensures Less(Mask(i), Mask(i + 1)) && Pred(Mask(i)) | Mask(i) == Pred(Mask(i + 1))
  {
    hide Mask, Less, Pred;
    MaskOneHot(i);
    MaskOneHot(i + 1);
    MaskStep(i);
    OneHotGrows(Mask(i), Mask(i + 1));
  }

  lemma {:induction false} MaskOrder(i: nat, j: nat)
    requires i < j < 64
    ensures Less(Mask(i), Mask(j)) && Mask(i) != Mask(j)
    decreases j
  {
    hide Mask, Less, Pred;
    MaskGrows(j - 1);
    if i < j - 1 {
      MaskOrder(i, j - 1);
      LessTransitive(Mask(i), Mask(j - 1), Mask(j));
    } else {
      LessIrreflexive(Mask(i), Mask(j));
    }
  }

  lemma LessIrreflexive(a: bv64, b: bv64)
    requires Less(a, b)
    ensures a != b && !Less(b, a)
  {
  }

  // ---------- bits of compound words ----------

  lemma BitOrAt(a: bv64, b: bv64, i: nat)
    requires i < 64
    ensures Bit(Or(a, b), i) == (Bit(a, i) || Bit(b, i))
  {
    hide Mask, OneHot, Meets;
    OneHotOr(a, b, Mask(i));
  }

  lemma BitAndAt(a: bv64, b: bv64, i: nat)
    requires i < 64
    ensures Bit(And(a, b), i) == (Bit(a, i) && Bit(b, i))
  {
    hide Mask, OneHot, Meets;
    MaskOneHot(i);
    OneHotAnd(a, b, And(a, b), Mask(i));
  }

  lemma BitXorAt(a: bv64, b: bv64, i: nat)
    requires i < 64
    ensures Bit(Xor(a, b), i) == (Bit(a, i) != Bit(b, i))
  {
    hide Mask, OneHot, Meets;
    MaskOneHot(i);
    OneHotXor(a, b, Xor(a, b), Mask(i));
  }

  lemma BitMaskAt(k: nat, i: nat)
    requires k < 64 && i < 64
    ensures Bit(Mask(k), i) == (i == k)
  {
    hide Mask, OneHot, Meets, Less;
    MaskOneHot(i);
    MaskOneHot(k);
    OneHotApart(Mask(k), Mask(i));
    if i < k {
      MaskOrder(i, k);
    } else if k < i {
      MaskOrder(k, i);
    }
  }

  lemma BitBelowAt(k: nat, i: nat)
    requires k < 64 && i < 64
    ensures Bit(Below(k), i) == (i < k)
  {
    hide Mask, OneHot, Meets, Pred, Less;
    MaskOneHot(i);
    MaskOneHot(k);
    OneHotBelow(Mask(k), Mask(i));
    if i < k {
      MaskOrder(i, k);
    } else if k < i {
      MaskOrder(k, i);
      LessIrreflexive(Mask(k), Mask(i));
    } else if Less(Mask(i), Mask(k)) {
      LessIrreflexive(Mask(i), Mask(k));
    }
  }

  lemma BitZeroAt(i: nat)
    requires i < 64
    ensures !Bit(0, i)
  {
    hide Mask;
    assert 0 & Mask(i) == 0;
  }

  // ---------- words without bits ----------

  lemma {:induction false} NoBitsBelow(w: bv64, k: nat)
    requires k < 64
    requires forall i :: 0 <= i < k ==> !Bit(w, i)
    ensures w & Below(k) == 0
  {
    if k == 0 {
      assert Below(0) == 0;
    } else {
      hide Mask, Pred, Less, Meets;
      NoBitsBelow(w, k - 1);
      assert !Bit(w, k - 1);
      NotMeets(w, Mask(k - 1));
      MaskGrows(k - 1);
      AndOr(w, Below(k - 1), Mask(k - 1), Below(k));
    }
  }

  lemma NotMeets(w: bv64, m: bv64)
    requires !Meets(w, m)
    ensures w & m == 0
  {
  }

  lemma AndOr(w: bv64, l: bv64, m: bv64, lm: bv64)
    requires w & l == 0 && w & m == 0 && lm == l | m
    ensures w & lm == 0
  {
  }

  lemma NoBits(w: bv64)
    requires forall i :: 0 <= i < 64 ==> !Bit(w, i)
    ensures w == 0
  {
    NoBitsBelow(w, 63);
    assert !Bit(w, 63);
    assert Mask(63) == 0x8000_0000_0000_0000;
  }

  lemma XorZero(a: bv64, b: bv64)
    requires Xor(a, b) == 0
    ensures a == b
  {
  }

  // two words with the same bits are the same word
  lemma SameBits(a: bv64, b: bv64)
    requires forall i :: 0 <= i < 64 ==> Bit(a, i) == Bit(b, i)
    ensures a == b
  {
    hide Mask, Bit;
    hide Xor;
    var d := Xor(a, b);
    forall i | 0 <= i < 64 ensures !Bit(d, i) {
      BitXorAt(a, b, i);
    }
    NoBits(d);
    XorZero(a, b);
  }

  // ---------- count trailing zeros ----------

  // __builtin_ctz: the position of the least significant set bit
  function Ctz(w: bv64): (k: nat)
    requires w != 0
    ensures k < 64 && Bit(w, k)
    ensures forall i :: 0 <= i < k ==> !Bit(w, i)
  {
    CtzFrom(w, 0)
  }

  function CtzFrom(w: bv64, i: nat): (k: nat)
    requires w != 0 && i < 64
    requires forall j :: 0 <= j < i ==> !Bit(w, j)
    ensures i <= k < 64 && Bit(w, k)
    ensures forall j :: 0 <= j < k ==> !Bit(w, j)
    decreases 64 - i
  {
    TopBit(w);
    if i == 63 || Bit(w, i) then i else CtzFrom(w, i + 1)
  }

  lemma TopBit(w: bv64)
    requires w != 0
    ensures (forall j :: 0 <= j < 63 ==> !Bit(w, j)) ==> Bit(w, 63)
  {
    hide Mask, Bit;
    if (forall j :: 0 <= j < 63 ==> !Bit(w, j)) && !Bit(w, 63) {
      NoBits(w);
    }
  }

  // ---------- the updates the allocator makes ----------

  // w | (1 << k)
  function SetBit(w: bv64, k: nat): bv64
    requires k < 64
  {
    Or(w, Mask(k))
  }

  // w ^ (1 << k)
  function FlipBit(w: bv64, k: nat): bv64
    requires k < 64
  {
    Xor(w, Mask(k))
  }

  lemma SetBitBits(w: bv64, k: nat)
    requires k < 64
    ensures forall i :: 0 <= i < 64 ==> Bit(SetBit(w, k), i) == (Bit(w, i) || i == k)
  {
    hide Mask, Meets, Bit, Or;
    forall i | 0 <= i < 64
      ensures Bit(SetBit(w, k), i) == (Bit(w, i) || i == k)
    {
      BitOrAt(w, Mask(k), i);
      BitMaskAt(k, i);
    }
  }

  lemma FlipBitAt(w: bv64, k: nat, i: nat)
    requires k < 64 && i < 64
    ensures Bit(FlipBit(w, k), i) == (if i == k then !Bit(w, i) else Bit(w, i))
  {
    hide Mask, Meets, Bit, Xor;
    BitXorAt(w, Mask(k), i);
    BitMaskAt(k, i);
  }

  lemma FlipBitBits(w: bv64, k: nat)
    requires k < 64
    ensures forall i :: 0 <= i < 64 ==> Bit(FlipBit(w, k), i) == (if i == k then !Bit(w, i) else Bit(w, i))
  {
    hide FlipBit, Bit;
    forall i | 0 <= i < 64
      ensures Bit(FlipBit(w, k), i) == (if i == k then !Bit(w, i) else Bit(w, i))
    {
      FlipBitAt(w, k, i);
    }
  }

  lemma ClearLowIsFlip(w: bv64, m: bv64)
    requires w != 0 && m == Mask(Ctz(w))
    ensures ClearLow(w) == Xor(w, m)
  {
    hide Mask, Meets, Pred, OneHot, CtzFrom, ClearLow;
    MaskOneHot(Ctz(w));
    NoBitsBelow(w, Ctz(w));
    OneHotClear(w, m, Xor(w, m));
  }

  // w & (w - 1) clears the bit at Ctz(w) and nothing else
  lemma ClearLowBits(w: bv64)
    requires w != 0
    ensures forall i :: 0 <= i < 64 ==> Bit(ClearLow(w), i) == (Bit(w, i) && i != Ctz(w))
  {
    hide Mask, Bit, Xor, CtzFrom, ClearLow;
    ClearLowIsFlip(w, Mask(Ctz(w)));
    FlipBitBits(w, Ctz(w));
  }
}
