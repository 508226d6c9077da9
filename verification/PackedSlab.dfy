/** Packed slabs: one slab cut into equal tiny blocks, tracked by a bitmap of free blocks.
    Blocks of 16 to 48 bytes need more than 64 bits and use two levels: a bit of the first
    level is set while the corresponding 16-bit word of the second has a bit set. */
module PackedSlabs {
  import opened Arithmetic
  import opened Bits

  const SLAB_SIZE := 4096
  const MAX_TINY := 496
  const TWO_LEVEL := 48  // PACKED_SLAB_2LVL_BITV_THRESH

  // ---------- size classes ----------

  // the block sizes that adj_tiny_size produces
  predicate IsClass(size: nat) {
    size % 16 == 0 && 16 <= size <= MAX_TINY && AdjTinySize(size) == size
  }

  // adj_tiny_size: sizes of which equally many fit in a slab are rounded up to the largest
  function AdjTinySize(size: nat): nat {
    if size < 320 then size + (if size == 256 then 16 else 0)
    else if size < 416 then size - size % 32 + 16
    else 400 + 3 * ((size + 48) / 16 - (size + 48) / 16 % 16)
  }

  // packed_bin_idx
  function PackedBinIdx(size: nat): nat
    requires size >= 16
  {
    if size < 256 then size / 16 - 1
    else if size < 368 then size * 3 / 64 + 3
    else (size * 3 + 32) / 128 + 11
  }

  const NUM_SMALLBINS := 23

  lemma AdjTinyIsClass(size: nat)
    requires size % 16 == 0 && 16 <= size <= MAX_TINY
    ensures IsClass(AdjTinySize(size)) && size <= AdjTinySize(size)
  {
    if size >= 320 {
      AdjTinyLarge(size);
    }
  }

  lemma AdjTinyLarge(size: nat)
    requires size % 16 == 0 && 320 <= size <= MAX_TINY
    ensures AdjTinySize(size) == if size <= 336 then 336 else if size <= 368 then 368 else if size <= 400 then 400
                                 else if size <= 448 then 448 else 496
  {
  }

  // the block size of a bin
  function BinClass(bin: nat): nat {
    if bin < 15 then 16 * (bin + 1)
    else if bin < 18 then 272 + 16 * (bin - 15)
    else if bin == 18 then 336
    else if bin == 19 then 368
    else if bin == 20 then 400
    else if bin == 21 then 448 else 496
  }

  lemma BinClassIs(a: nat)
    requires IsClass(a)
    ensures PackedBinIdx(a) < NUM_SMALLBINS && BinClass(PackedBinIdx(a)) == a
  {
    if a >= 320 {
      AdjTinyLarge(a);
    }
  }

  // a bin holds slabs of one block size only, so an allocation may trust the requested size
  lemma BinsOfClasses(a: nat, b: nat)
    requires IsClass(a) && IsClass(b)
    ensures PackedBinIdx(a) == PackedBinIdx(b) <==> a == b
  {
    BinClassIs(a);
    BinClassIs(b);
  }

  function HeaderSize(size: nat): nat {
    if size == 16 then 64 else if size <= TWO_LEVEL then 48 else 32
  }

  function Capacity(size: nat): nat
    requires size > 0
  {
    (SLAB_SIZE - HeaderSize(size)) / size
  }

  // the capacities of the block sizes 16, 32, ...
  const CAPACITIES := [252, 126, 84, 63, 50, 42, 36, 31, 28, 25, 23, 21, 19, 18, 16, 15, 14, 14, 13, 12, 12, 11, 11, 10, 10,
                       9, 9, 9, 8, 8, 8]

  lemma CapacityOf(size: nat)
    requires size % 16 == 0 && 16 <= size <= MAX_TINY
    ensures Capacity(size) == CAPACITIES[size / 16 - 1]
  {
    var c := CAPACITIES[size / 16 - 1];
    Quotient(SLAB_SIZE - HeaderSize(size), size, c, c);
  }

  /** Rounding a size up costs no block of the slab, except for 256, which is rounded up to 272. */
  lemma AdjKeepsCapacity(size: nat)
    requires size % 16 == 0 && 16 <= size <= MAX_TINY
    ensures Capacity(AdjTinySize(size)) == Capacity(size) <==> size != 256
  {
    hide Capacity;
    CapacityOf(size);
    AdjTinyIsClass(size);
    CapacityOf(AdjTinySize(size));
  }

  lemma {:induction false} FewerBlocks(i: nat, j: nat)
    requires i <= j < 31
    ensures CAPACITIES[j] <= CAPACITIES[i]
    ensures i < j && i < 16 ==> CAPACITIES[j] < CAPACITIES[i]
  {
    if i < j {
      FewerBlocks(i, j - 1);
    }
  }

  lemma CapacityLarge(size: nat)
    requires size % 16 == 0 && 272 <= size <= MAX_TINY
    ensures Capacity(size) == if size <= 288 then 14 else if size == 304 then 13 else if size <= 336 then 12
                              else if size <= 368 then 11 else if size <= 400 then 10 else if size <= 448 then 9 else 8
  {
    hide Capacity;
    CapacityOf(size);
  }

  /** Two sizes are grouped together if and only if equally many blocks fit in a slab, except for
      256 and 272, which are grouped, and 272 and 288, which are not. */
  lemma GroupedByCapacity(a: nat, b: nat)
    requires a % 16 == 0 && b % 16 == 0 && 16 <= a < b <= MAX_TINY
    ensures (AdjTinySize(a) == AdjTinySize(b) <==> Capacity(a) == Capacity(b)) <==> (a, b) != (256, 272) && (a, b) != (272, 288)
  {
    hide Capacity;
    if a >= 272 {
      CapacityLarge(a);
      CapacityLarge(b);
      if b >= 320 {
        AdjTinyLarge(b);
      }
      if a >= 320 {
        AdjTinyLarge(a);
      }
    } else {
      CapacityOf(a);
      CapacityOf(b);
      FewerBlocks(a / 16 - 1, b / 16 - 1);
      AdjTinyIsClass(b);
    }
  }

  // 16-bit words of the second level
  function Words(size: nat): nat {
    if size == 16 then 16 else 8
  }

  lemma CapacityBounds(size: nat)
    requires IsClass(size)
    ensures size <= TWO_LEVEL ==> size == 16 || size == 32 || size == 48
    ensures Capacity(16) == 252 && Capacity(32) == 126 && Capacity(48) == 84
    ensures size > TWO_LEVEL ==> 8 <= Capacity(size) <= 63
    ensures 8 <= Capacity(size) <= 16 * Words(16)
    ensures size <= TWO_LEVEL ==> Capacity(size) <= 16 * Words(size)
  {
    hide AdjTinySize;
    if size > TWO_LEVEL {
      Quotient(SLAB_SIZE - HeaderSize(size), size, 8, 63);
    }
  }

  // ---------- headers ----------

  /** The header of a packed slab: block size, number of allocated blocks, and the bitmaps, of
      which a slab uses either the two-level one (f1, f2) or the flat one (flat). */
  datatype Packed = Packed(size: nat, cnt: nat, f1: bv64, f2: seq<bv64>, flat: bv64)

  // block j is free
  predicate IsFree(h: Packed, j: nat) {
    if h.size <= TWO_LEVEL then j / 16 < |h.f2| && Bit(h.f2[j / 16], j % 16)
    else j < 64 && Bit(h.flat, j)
  }

  ghost function FreeSet(h: Packed): set<nat>
    requires h.size > 0
  {
    set j: nat | j < Capacity(h.size) && IsFree(h, j)
  }

  // a first-level bit is set exactly when its second-level word is not zero
  ghost predicate Summary(f1: bv64, f2: seq<bv64>) {
    forall i :: 0 <= i < 64 ==> Bit(f1, i) == (i < |f2| && f2[i] != 0)
  }

  ghost predicate BitmapOk(h: Packed) {
    && IsClass(h.size)
    && (h.size <= TWO_LEVEL ==>
         && |h.f2| == Words(h.size) && Summary(h.f1, h.f2)
         && (forall i :: 0 <= i < |h.f2| ==> Within(h.f2[i], 16)))
    && (forall j :: 0 <= j && IsFree(h, j) ==> j < Capacity(h.size))
  }

  // a packed slab in use
  ghost predicate PackedOk(h: Packed) {
    && BitmapOk(h)
    && h.cnt >= 1 && h.cnt == Capacity(h.size) - |FreeSet(h)|
  }

  // the test for "no free block": the whole first level, or the whole flat bitmap, is zero
  predicate IsFull(h: Packed) {
    if h.size <= TWO_LEVEL then h.f1 == 0 else h.flat == 0
  }

  lemma FullIs(h: Packed)
    requires BitmapOk(h)
    ensures IsFull(h) <==> FreeSet(h) == {}
  {
    hide Bit, Capacity, AdjTinySize;
    if IsFull(h) {
      forall j | j in FreeSet(h) ensures false {
        if h.size <= TWO_LEVEL {
          BitZeroAt(j / 16);
          BitZeroAt(j % 16);
        } else {
          BitZeroAt(j);
        }
      }
    } else {
      LeastIs(h);
      assert LeastFree(h) in FreeSet(h);
    }
  }

  // ctz of the first level, then ctz of that word
  function LeastFree(h: Packed): nat
    requires BitmapOk(h) && !IsFull(h)
  {
    hide Bit, CtzFrom;
    if h.size <= TWO_LEVEL then
      LeastTwoLevel(h);
      Ctz(h.f1) * 16 + Ctz(h.f2[Ctz(h.f1)])
    else Ctz(h.flat)
  }

  lemma LeastIs(h: Packed)
    requires BitmapOk(h) && !IsFull(h)
    ensures IsFree(h, LeastFree(h)) && LeastFree(h) < Capacity(h.size)
    ensures forall i :: 0 <= i < LeastFree(h) ==> !IsFree(h, i)
  {
    hide Bit, CtzFrom, Capacity, AdjTinySize;
    if h.size <= TWO_LEVEL {
      LeastTwoLevel(h);
    }
  }

  lemma LeastTwoLevel(h: Packed)
    requires BitmapOk(h) && h.size <= TWO_LEVEL && h.f1 != 0
    ensures Ctz(h.f1) < |h.f2| && h.f2[Ctz(h.f1)] != 0
    ensures Ctz(h.f2[Ctz(h.f1)]) < 16
    ensures var j := Ctz(h.f1) * 16 + Ctz(h.f2[Ctz(h.f1)]);
      IsFree(h, j) && (forall i :: 0 <= i < j ==> !IsFree(h, i))
  {
    hide Bit, CtzFrom, IsClass, Capacity;
    var l1 := Ctz(h.f1);
    var l2 := Ctz(h.f2[l1]);
    forall i | 0 <= i < l1 * 16 + l2 ensures !IsFree(h, i) {
      if i / 16 < l1 {
        assert !Bit(h.f1, i / 16);
        BitZeroAt(i % 16);
      }
    }
  }

  // ---------- allocating ----------

  // __packed_alloc_N and __packed_alloc: take the least free block
  function AllocBlock(h: Packed): Packed
    requires BitmapOk(h) && !IsFull(h)
  {
    hide Bit, CtzFrom, FlipBit;
    if h.size <= TWO_LEVEL then
      LeastTwoLevel(h);
      var l1 := Ctz(h.f1);
      var word := FlipBit(h.f2[l1], Ctz(h.f2[l1]));
      h.(cnt := h.cnt + 1,
         f2 := h.f2[l1 := word],
         f1 := if word == 0 then FlipBit(h.f1, l1) else h.f1)
    else
      h.(cnt := h.cnt + 1, flat := FlipBit(h.flat, Ctz(h.flat)))
  }

  // exactly the least free block stops being free
  lemma AllocFree(h: Packed, j: nat)
    requires BitmapOk(h) && !IsFull(h)
    ensures IsFree(AllocBlock(h), j) <==> IsFree(h, j) && j != LeastFree(h)
  {
    hide Bit, CtzFrom, FlipBit, Capacity, AdjTinySize;
    if h.size <= TWO_LEVEL {
      LeastTwoLevel(h);
      var l1 := Ctz(h.f1);
      FlipBitBits(h.f2[l1], Ctz(h.f2[l1]));
    } else {
      FlipBitBits(h.flat, Ctz(h.flat));
    }
  }

  lemma AllocSummary(h: Packed)
    requires BitmapOk(h) && !IsFull(h) && h.size <= TWO_LEVEL
    ensures Summary(AllocBlock(h).f1, AllocBlock(h).f2)
    ensures forall i :: 0 <= i < |h.f2| ==> Within(AllocBlock(h).f2[i], 16)
  {
    hide Bit, CtzFrom, FlipBit, Capacity, AdjTinySize;
    LeastTwoLevel(h);
    var l1 := Ctz(h.f1);
    FlipBitBits(h.f2[l1], Ctz(h.f2[l1]));
    FlipBitBits(h.f1, l1);
  }

  lemma AllocOk(h: Packed)
    requires PackedOk(h) && !IsFull(h)
    ensures PackedOk(AllocBlock(h)) && AllocBlock(h).size == h.size
    ensures FreeSet(AllocBlock(h)) == FreeSet(h) - {LeastFree(h)} && LeastFree(h) in FreeSet(h)
  {
    hide Bit, CtzFrom, FlipBit, AdjTinySize, IsFree, Summary, Within, Capacity;
    var a := AllocBlock(h);
    if h.size <= TWO_LEVEL {
      LeastTwoLevel(h);
      AllocSummary(h);
    }
    LeastIs(h);
    forall j: nat ensures IsFree(a, j) <==> IsFree(h, j) && j != LeastFree(h) {
      AllocFree(h, j);
    }
    assert FreeSet(a) == FreeSet(h) - {LeastFree(h)};
  }

  // ---------- freeing ----------

  // __packed_free_N and __packed_free
  function FreeBlock(h: Packed, idx: nat): Packed
    requires idx < 256 && (h.size <= TWO_LEVEL ==> idx / 16 < |h.f2|) && (h.size > TWO_LEVEL ==> idx < 64)
    requires h.cnt >= 1
  {
    if h.size <= TWO_LEVEL then
      h.(cnt := h.cnt - 1,
         f1 := SetBit(h.f1, idx / 16),
         f2 := h.f2[idx / 16 := SetBit(h.f2[idx / 16], idx % 16)])
    else
      h.(cnt := h.cnt - 1, flat := SetBit(h.flat, idx))
  }

  lemma FreeIndex(h: Packed, idx: nat)
    requires BitmapOk(h) && idx < Capacity(h.size)
    ensures idx < 256 && (h.size <= TWO_LEVEL ==> idx / 16 < |h.f2|) && (h.size > TWO_LEVEL ==> idx < 64)
  {
    CapacityBounds(h.size);
  }

  // exactly block idx becomes free
  lemma FreeFree(h: Packed, idx: nat, j: nat)
    requires BitmapOk(h) && idx < Capacity(h.size) && h.cnt >= 1
    requires idx < 256 && (h.size <= TWO_LEVEL ==> idx / 16 < |h.f2|) && (h.size > TWO_LEVEL ==> idx < 64)
    ensures IsFree(FreeBlock(h, idx), j) <==> IsFree(h, j) || j == idx
  {
    hide Bit, SetBit, Capacity, AdjTinySize;
    if h.size <= TWO_LEVEL {
      SetBitBits(h.f2[idx / 16], idx % 16);
      assert j == idx <==> j / 16 == idx / 16 && j % 16 == idx % 16;
    } else {
      SetBitBits(h.flat, idx);
    }
  }

  lemma FreeSummary(h: Packed, idx: nat)
    requires BitmapOk(h) && h.size <= TWO_LEVEL && h.cnt >= 1 && idx / 16 < |h.f2| && idx < 256
    ensures Summary(FreeBlock(h, idx).f1, FreeBlock(h, idx).f2)
    ensures forall i :: 0 <= i < |h.f2| ==> Within(FreeBlock(h, idx).f2[i], 16)
  {
    hide Bit, SetBit, Capacity, AdjTinySize;
    SetBitBits(h.f2[idx / 16], idx % 16);
    SetBitBits(h.f1, idx / 16);
    var w := SetBit(h.f2[idx / 16], idx % 16);
    if w == 0 {
      BitZeroAt(idx % 16);
    }
  }

  // a slab's last allocated block has been freed exactly when the count reaches zero
  lemma FreeOk(h: Packed, idx: nat)
    requires PackedOk(h) && idx < Capacity(h.size) && !IsFree(h, idx)
    ensures idx < 256 && (h.size <= TWO_LEVEL ==> idx / 16 < |h.f2|) && (h.size > TWO_LEVEL ==> idx < 64)
    ensures BitmapOk(FreeBlock(h, idx)) && FreeBlock(h, idx).size == h.size
    ensures FreeSet(FreeBlock(h, idx)) == FreeSet(h) + {idx}
    ensures FreeBlock(h, idx).cnt == Capacity(h.size) - |FreeSet(FreeBlock(h, idx))|
    ensures FreeBlock(h, idx).cnt == 0 <==> forall j :: 0 <= j < Capacity(h.size) && j != idx ==> IsFree(h, j)
  {
    hide Bit, SetBit, AdjTinySize, IsFree, Summary, Within, Capacity;
    FreeIndex(h, idx);
    var a := FreeBlock(h, idx);
    if h.size <= TWO_LEVEL {
      FreeSummary(h, idx);
    }
    forall j: nat ensures IsFree(a, j) <==> IsFree(h, j) || j == idx {
      FreeFree(h, idx, j);
    }
    assert FreeSet(a) == FreeSet(h) + {idx};
    CountUpTo(FreeSet(a), Capacity(h.size));
    assert a.cnt == 0 <==> forall j: nat :: j < Capacity(h.size) ==> j in FreeSet(a);
    assert forall j: nat :: j < Capacity(h.size) ==> (j in FreeSet(a) <==> IsFree(h, j) || j == idx);
  }

  // a set of numbers below n has n elements exactly when it has them all
  lemma {:induction false} CountUpTo(s: set<nat>, n: nat)
    requires forall j :: j in s ==> j < n
    ensures |s| <= n
    ensures |s| == n <==> forall j: nat :: j < n ==> j in s
  {
    if n > 0 {
      CountUpTo(s - {n - 1}, n - 1);
      assert n - 1 !in s ==> s - {n - 1} == s;
    } else {
      assert s == {};
    }
  }

  // ---------- new packed slabs ----------

  // the second level as __int_slab_init_packed_and_alloc writes it, in 16-bit words: every
  // block but the first is free
  function NewWords(size: nat): seq<bv64> {
    if size == 16 then
      [0xfffe, 0xffff, 0xffff, 0xffff, 0xffff, 0xffff, 0xffff, 0xffff,
       0xffff, 0xffff, 0xffff, 0xffff, 0xffff, 0xffff, 0xffff, 0x0fff]
    else if size == 32 then
      [0xfffe, 0xffff, 0xffff, 0xffff, 0xffff, 0xffff, 0xffff, 0x3fff]
    else
      [0xfffe, 0xffff, 0xffff, 0xffff, 0xffff, 0x000f, 0x0000, 0x0000]
  }

  function NewPacked(size: nat): Packed
    requires IsClass(size)
  {
    if size <= TWO_LEVEL then
      Packed(size, 1, if size == 16 then 0xffff else if size == 32 then 0x00ff else 0x003f, NewWords(size), 0)
    else
      CapacityBounds(size);
      Packed(size, 1, 0, [], AllButFirst(Capacity(size)))
  }

  // (1LU << n) - 2
  function AllButFirst(n: nat): bv64
    requires n < 64
  {
    Mask(n) - 2
  }

  lemma WordBits(i: nat)
    requires i < 64
    ensures Bit(0xffff, i) == (i < 16) && Bit(0x0fff, i) == (i < 12) && Bit(0x3fff, i) == (i < 14)
    ensures Bit(0x000f, i) == (i < 4) && Bit(0x00ff, i) == (i < 8) && Bit(0x003f, i) == (i < 6)
  {
    assert Below(16) == 0xffff && Below(12) == 0x0fff && Below(14) == 0x3fff;
    assert Below(4) == 0x000f && Below(8) == 0x00ff && Below(6) == 0x003f;
    hide Bit, Below;
    BitBelowAt(16, i);
    BitBelowAt(12, i);
    BitBelowAt(14, i);
    BitBelowAt(4, i);
    BitBelowAt(8, i);
    BitBelowAt(6, i);
  }

  lemma PredPred(m: bv64)
    requires OneHot(m) && m != 1
    ensures m - 2 == Xor(Pred(m), 1)
  {
  }

  lemma AllButFirstBits(n: nat, i: nat)
    requires 0 < n < 64 && i < 64
    ensures Bit(AllButFirst(n), i) == (1 <= i < n)
  {
    hide Bit, Less, OneHot, Pred, Xor;
    assert Mask(0) == 1;
    hide Mask;
    MaskOneHot(n);
    MaskOrder(0, n);
    PredPred(Mask(n));
    FlipBitAt(Below(n), 0, i);
    BitBelowAt(n, i);
  }

  lemma FirstWordBits(i: nat)
    requires i < 64
    ensures Bit(0xfffe, i) == (1 <= i < 16)
  {
    assert AllButFirst(16) == 0xfffe;
    hide Bit, AllButFirst;
    AllButFirstBits(16, i);
  }

  lemma NewWordsBit(size: nat, k: nat, i: nat)
    requires IsClass(size) && size <= TWO_LEVEL && k < Words(size) && i < 64
    ensures |NewWords(size)| == Words(size)
    ensures Bit(NewWords(size)[k], i) <==> i < 16 && 1 <= 16 * k + i < Capacity(size)
  {
    hide Bit;
    CapacityBounds(size);
    WordBits(i);
    FirstWordBits(i);
    BitZeroAt(i);
  }

  lemma NewBitmapOk(size: nat)
    requires IsClass(size)
    ensures BitmapOk(NewPacked(size))
    ensures forall j: nat :: IsFree(NewPacked(size), j) <==> 1 <= j < Capacity(size)
  {
    hide Bit, AdjTinySize, AllButFirst, NewWords;
    var h := NewPacked(size);
    CapacityBounds(size);
    if size <= TWO_LEVEL {
      NewWordsBit(size, 0, 0);
      forall k, i | 0 <= k < Words(size) && 0 <= i < 64
        ensures Bit(h.f2[k], i) <==> i < 16 && 1 <= 16 * k + i < Capacity(size)
      {
        NewWordsBit(size, k, i);
      }
      forall i | 0 <= i < 64 ensures Bit(h.f1, i) == (i < |h.f2| && h.f2[i] != 0) {
        WordBits(i);
        NewWordZero(size, i);
      }
      assert Summary(h.f1, h.f2);
      forall k | 0 <= k < |h.f2| ensures Within(h.f2[k], 16) {
      }
    } else {
      forall i | 0 <= i < 64 ensures Bit(h.flat, i) == (1 <= i < Capacity(size)) {
        AllButFirstBits(Capacity(size), i);
      }
    }
  }

  lemma NewWordZero(size: nat, k: nat)
    requires IsClass(size) && size <= TWO_LEVEL
    ensures k < Words(size) == |NewWords(size)| ==> (NewWords(size)[k] == 0 <==> size == 48 && k >= 6)
  {
    CapacityBounds(size);
  }

  // the first block is allocated, all others are free
  lemma NewPackedOk(size: nat)
    requires IsClass(size)
    ensures PackedOk(NewPacked(size)) && NewPacked(size).size == size
    ensures forall j: nat :: IsFree(NewPacked(size), j) <==> 1 <= j < Capacity(size)
  {
    hide Bit, AdjTinySize, AllButFirst, NewWords, BitmapOk, IsFree;
    CapacityBounds(size);
    NewBitmapOk(size);
    var s := FreeSet(NewPacked(size));
    assert forall j: nat :: j in s <==> j < Capacity(size) && IsFree(NewPacked(size), j);
    CountUpTo(s + {0}, Capacity(size));
    assert forall j: nat :: j < Capacity(size) ==> IsFree(NewPacked(size), j) || j == 0;
  }
}
