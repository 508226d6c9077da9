/** The header of a large slab, decoded: the word of offsets and the byte of alloc bits stand
    for a sequence of blocks, and every update of the source does on the words what
    `MediumBlocks` does on the sequence. */
module LargeSlabs {
  import opened Arithmetic
  import opened HeaderWords
  import opened MediumBlocks

  // the first 8 bytes of the slab and the alloc byte
  datatype Header = Header(mem: bv64, bits: bv8)

  // offset k in units of 16 bytes; the byte 0 stands for SLAB_SIZE, as does anything past the word
  function AdjByte(w: bv64, k: nat): nat {
    if k >= 8 then SLAB_UNITS
    else if ByteAt(w, k) == 0 then SLAB_UNITS else ByteAt(w, k) as nat
  }

  // the header stands for these blocks
  ghost predicate Rep(h: Header, offs: seq<nat>, alloc: seq<bool>) {
    && 1 <= |offs| == |alloc| <= MAX_BLOCKS && offs[0] == HEADER_UNITS
    && ByteAt(h.mem, 0) != 0  // the flags of an allocated slab
    && (forall k :: 1 <= k < 8 ==> AdjByte(h.mem, k) == if k < |offs| then offs[k] else SLAB_UNITS)
    && (forall k :: 0 <= k < 8 ==> AllocBit(h.bits, k) == (k < |alloc| && alloc[k]))
  }

  // ---------- the tests of medium_bin_free ----------

  // 1 << k in 16 bits
  function BitMask16(k: nat): bv16
    requires k < 10
  {
    match k
    case 0 => 0x001
    case 1 => 0x002
    case 2 => 0x004
    case 3 => 0x008
    case 4 => 0x010
    case 5 => 0x020
    case 6 => 0x040
    case 7 => 0x080
    case 8 => 0x100
    case _ => 0x200
  }

  // alloc bits with an allocated sentinel before the first block and after the eighth
  function Sentinels(bits: bv8): bv16 {
    ((bits as bv16) << 1) | 0x201
  }

  predicate PrevFreeBit(bits: bv8, idx: nat)
    requires idx < 8
  {
    Sentinels(bits) & BitMask16(idx) == 0
  }

  predicate NextFreeBit(bits: bv8, idx: nat)
    requires idx < 8
  {
    Sentinels(bits) & BitMask16(idx + 2) == 0
  }

  // a large block hanging over the edge is freed
  predicate LargeFreed(h: Header, idx: nat)
    requires idx < 8
  {
    var offsetsAfter := Shr(h.mem, idx);
    offsetsAfter == 0 || (ByteRight(offsetsAfter) == 0 && NextFreeBit(h.bits, idx))
  }

  predicate NextIsFree(h: Header, n: nat, idx: nat)
    requires idx < 8
  {
    if n == 1 || !LargeFreed(h, idx) then NextFreeBit(h.bits, idx) && ByteAt(h.mem, idx + 1) != 0
    else false
  }

  lemma PrevFreeBitIs(bits: bv8, idx: nat)
    requires idx < 8
    ensures PrevFreeBit(bits, idx) <==> idx > 0 && !AllocBit(bits, idx - 1)
  {
  }

  lemma NextFreeBitIs(bits: bv8, idx: nat)
    requires idx < 8
    ensures NextFreeBit(bits, idx) <==> idx < 7 && !AllocBit(bits, idx + 1)
  {
  }

  // a word whose upper bytes are zero shifts to zero
  lemma ShrZero(w: bv64, idx: nat)
    requires idx < 8
    ensures Shr(w, idx) == 0 <==> forall k :: idx <= k < 8 ==> ByteAt(w, k) == 0
  {
    hide Shr, ByteAt;
    if forall k :: idx <= k < 8 ==> ByteAt(w, k) == 0 {
      ShrZeroFrom(w, idx);
    }
    if Shr(w, idx) == 0 {
      forall k | idx <= k < 8 ensures ByteAt(w, k) == 0 {
        ShrZeroByte(w, idx, k);
      }
    }
  }

  lemma ShrZeroByte(w: bv64, idx: nat, k: nat)
    requires idx <= k < 8 && Shr(w, idx) == 0
    ensures ByteAt(w, k) == 0
  {
  }

  lemma ShrZeroFrom(w: bv64, idx: nat)
    requires idx < 8
    requires (idx <= 0 ==> ByteAt(w, 0) == 0) && (idx <= 1 ==> ByteAt(w, 1) == 0)
    requires (idx <= 2 ==> ByteAt(w, 2) == 0) && (idx <= 3 ==> ByteAt(w, 3) == 0)
    requires (idx <= 4 ==> ByteAt(w, 4) == 0) && (idx <= 5 ==> ByteAt(w, 5) == 0)
    requires (idx <= 6 ==> ByteAt(w, 6) == 0) && ByteAt(w, 7) == 0
    ensures Shr(w, idx) == 0
  {
  }

  lemma ShrLowStep(w: bv64, idx: nat)
    requires idx < 4
    ensures ByteRight(Shr(w, idx)) == 0 <==> Shr(w, idx + 1) == 0
  {
  }

  lemma ShrHighStep(w: bv64, idx: nat)
    requires 4 <= idx < 7
    ensures ByteRight(Shr(w, idx)) == 0 <==> Shr(w, idx + 1) == 0
  {
  }

  lemma ShrStep(w: bv64, idx: nat)
    requires idx < 7
    ensures ByteRight(Shr(w, idx)) == 0 <==> Shr(w, idx + 1) == 0
  {
    hide Shr, ByteRight;
    if idx < 4 {
      ShrLowStep(w, idx);
    } else {
      ShrHighStep(w, idx);
    }
  }

  lemma ShrLast(w: bv64)
    ensures ByteRight(Shr(w, 7)) == 0
  {
  }

  // ---------- the tests mean what they should ----------

  lemma ByteZero(w: bv64, k: nat)
    requires k < 8
    ensures ByteAt(w, k) == 0 <==> AdjByte(w, k) == SLAB_UNITS
    ensures AdjByte(w, k) <= SLAB_UNITS
  {
    hide ByteAt;
    ByteSmall(ByteAt(w, k));
  }

  lemma ByteSmall(b: bv8)
    ensures b as nat < 256
  {
  }

  lemma PrevFreeIs(h: Header, l: Large, idx: nat)
    requires Rep(h, l.offs, l.alloc) && idx < |l.offs|
    ensures PrevFreeBit(h.bits, idx) == PrevFree(l, idx)
  {
    PrevFreeBitIs(h.bits, idx);
  }

  // the word says that the slabs after the first go exactly when `Releases` does
  lemma LargeFreedIs(h: Header, l: Large, idx: nat)
    requires Rep(h, l.offs, l.alloc) && Shape(l) && idx < |l.offs| && l.alloc[idx]
    ensures LargeFreed(h, idx) == (idx == |l.offs| - 1 && (idx < MAX_BLOCKS - 1 || l.offs[idx] == SLAB_UNITS))
  {
    hide ByteAt, Shr, ByteRight, AllocBit, NextFreeBit;
    var m := |l.offs|;
    ShrZero(h.mem, idx);
    NextFreeBitIs(h.bits, idx);
    if idx < 7 {
      ShrStep(h.mem, idx);
      ShrZero(h.mem, idx + 1);
    } else {
      ShrLast(h.mem);
    }
    forall k | 0 < k < 8 ensures ByteAt(h.mem, k) == 0 <==> k >= m || l.offs[k] == SLAB_UNITS {
      ByteZero(h.mem, k);
    }
    assert forall k :: 0 <= k < m - 1 ==> l.offs[k] < l.offs[m - 1];
  }

  /** Freeing the hanging block gives back the slabs it hung into if and only if it is not the
      eighth block or its offset byte is 0, that is, it starts with the second slab. */
  lemma TailReleased(h: Header, l: Large, idx: nat)
    requires Rep(h, l.offs, l.alloc) && Shape(l) && l.hang && idx == |l.offs| - 1
    ensures l.n > 1 && (Freed(l, idx).n == 1 <==> LargeFreed(h, idx))
    ensures LargeFreed(h, idx) <==> idx < 7 || ByteAt(h.mem, 7) == 0
  {
    hide ByteAt, AllocBit, LargeFreed;
    LargeFreedIs(h, l, idx);
    if idx == 7 {
      ByteZero(h.mem, 7);
    }
  }

  /** A tail that stayed behind goes with the last block of the slab, whatever else is allocated:
      freeing block idx gives it back if and only if no block starts after it. */
  lemma DeadTailReleased(h: Header, l: Large, idx: nat)
    requires Rep(h, l.offs, l.alloc) && Shape(l) && l.n > 1 && !l.hang && idx < |l.offs| && l.alloc[idx]
    ensures idx < 7 && Freed(l, idx).n == (if LargeFreed(h, idx) then 1 else l.n)
    ensures LargeFreed(h, idx) <==> idx == |l.offs| - 1
  {
    hide ByteAt, AllocBit, LargeFreed;
    BlockCount(l);
    LargeFreedIs(h, l, idx);
  }

  lemma NextIsFreeIs(h: Header, l: Large, idx: nat)
    requires Rep(h, l.offs, l.alloc) && Shape(l) && idx < |l.offs| && l.alloc[idx]
    ensures NextIsFree(h, l.n, idx) == NextFree(l, idx)
  {
    hide ByteAt, AllocBit, NextFreeBit, LargeFreed;
    NextFreeBitIs(h.bits, idx);
    LargeFreedIs(h, l, idx);
    if idx < 7 {
      ByteZero(h.mem, idx + 1);
      assert NextFree(l, idx) ==> l.offs[idx + 1] < SLAB_UNITS;
    }
  }

  // the word after __medium_bin_mem_to_offsets holds every start, and the end after the last
  lemma OffsetIs(h: Header, l: Large, k: nat)
    requires Rep(h, l.offs, l.alloc) && k <= |l.offs|
    ensures (if k == 0 then HEADER_UNITS else AdjByte(h.mem, k)) == if k < |l.offs| then l.offs[k] else SLAB_UNITS
  {
  }

  // ---------- the updates do what they should ----------

  lemma FreedRep(h: Header, l: Large, idx: nat)
    requires Rep(h, l.offs, l.alloc) && Shape(l) && idx < |l.offs| && l.alloc[idx]
    ensures Rep(Header(FreeWord(h.mem, idx, PrevFree(l, idx), NextFree(l, idx), Absorbed(l, idx)),
                       FreeBits(h.bits, idx, PrevFree(l, idx), NextFree(l, idx))),
                Freed(l, idx).offs, Freed(l, idx).alloc)
  {
    hide FreeWord, FreeBits, ByteAt, AllocBit, AdjByte, Absorbed, Freed, Ascending, Sizes, NoFreePair;
    var p, n, a := PrevFree(l, idx), NextFree(l, idx), Absorbed(l, idx);
    FreedBounds(l, idx);
    FreeWordByte(h.mem, idx, p, n, a, 0);
    forall k | 1 <= k < 8
      ensures AdjByte(FreeWord(h.mem, idx, p, n, a), k)
        == if k < |Freed(l, idx).offs| then Freed(l, idx).offs[k] else SLAB_UNITS
    {
      FreedWordAt(h, l, idx, k);
    }
    forall k | 0 <= k < 8
      ensures AllocBit(FreeBits(h.bits, idx, p, n), k) == (k < |Freed(l, idx).alloc| && Freed(l, idx).alloc[k])
    {
      FreedBitAt(h, l, idx, k);
    }
  }

  lemma FreedBounds(l: Large, idx: nat)
    requires Shape(l) && idx < |l.offs|
    ensures 1 <= |Freed(l, idx).offs| == |Freed(l, idx).alloc| <= |l.offs| && Freed(l, idx).offs[0] == HEADER_UNITS
    ensures idx + 1 - (if PrevFree(l, idx) then 1 else 0) - (if Absorbed(l, idx) then 1 else 0) > 0
    ensures !(PrevFree(l, idx) && Absorbed(l, idx)) && (Absorbed(l, idx) ==> idx > 0)
  {
    if Absorbed(l, idx) {
      AbsorbedCase(l, idx);
    } else {
      FreedSize(l, idx);
      FreedAt(l, idx, 0);
    }
  }

  lemma FreedWordAt(h: Header, l: Large, idx: nat, k: nat)
    requires Rep(h, l.offs, l.alloc) && Shape(l) && idx < |l.offs| && l.alloc[idx] && 1 <= k < 8
    ensures AdjByte(FreeWord(h.mem, idx, PrevFree(l, idx), NextFree(l, idx), Absorbed(l, idx)), k)
      == if k < |Freed(l, idx).offs| then Freed(l, idx).offs[k] else SLAB_UNITS
  {
    hide FreeWord, ByteAt, AdjByte;
    assert Absorbed(l, idx) == true || Absorbed(l, idx) == false;
    if Absorbed(l, idx) {
      FreedWordAbsorbed(h, l, idx, k);
    } else {
      FreedWordMerged(h, l, idx, k);
    }
  }

  lemma FreedWordAbsorbed(h: Header, l: Large, idx: nat, k: nat)
    requires Rep(h, l.offs, l.alloc) && Shape(l) && idx < |l.offs| && l.alloc[idx] && 1 <= k < 8 && Absorbed(l, idx)
    ensures AdjByte(FreeWord(h.mem, idx, PrevFree(l, idx), NextFree(l, idx), true), k)
      == if k < |Freed(l, idx).offs| then Freed(l, idx).offs[k] else SLAB_UNITS
  {
    AbsorbedCase(l, idx);
    assert Freed(l, idx).offs == l.offs[..idx];
    hide FreeWord, ByteAt, Ascending, Sizes, NoFreePair, Freed, Absorbed;
    FreeWordByte(h.mem, idx, false, false, true, k);
  }

  lemma FreedWordMerged(h: Header, l: Large, idx: nat, k: nat)
    requires Rep(h, l.offs, l.alloc) && Shape(l) && idx < |l.offs| && l.alloc[idx] && 1 <= k < 8 && !Absorbed(l, idx)
    ensures AdjByte(FreeWord(h.mem, idx, PrevFree(l, idx), NextFree(l, idx), false), k)
      == if k < |Freed(l, idx).offs| then Freed(l, idx).offs[k] else SLAB_UNITS
  {
    hide FreeWord, ByteAt, Ascending, Sizes, NoFreePair, Absorbed, Freed;
    FreeWordByte(h.mem, idx, PrevFree(l, idx), NextFree(l, idx), false, k);
    FreedSize(l, idx);
    var d := MergeHi(l, idx) - 1 - MergeLo(l, idx);
    if k < |Freed(l, idx).offs| {
      FreedAt(l, idx, k);
      var j := Source(l, idx, k);
      assert j == if k <= MergeLo(l, idx) then k else k + d;
      assert ByteAt(FreeWord(h.mem, idx, PrevFree(l, idx), NextFree(l, idx), false), k) == ByteAt(h.mem, j);
      assert AdjByte(h.mem, j) == l.offs[j];
    } else {
      assert k > MergeLo(l, idx) && k + d >= |l.offs|;
      assert k + d < 8 ==> AdjByte(h.mem, k + d) == SLAB_UNITS;
    }
  }

  lemma FreedBitAt(h: Header, l: Large, idx: nat, k: nat)
    requires Rep(h, l.offs, l.alloc) && Shape(l) && idx < |l.offs| && l.alloc[idx] && k < 8
    ensures AllocBit(FreeBits(h.bits, idx, PrevFree(l, idx), NextFree(l, idx)), k)
      == (k < |Freed(l, idx).alloc| && Freed(l, idx).alloc[k])
  {
    hide FreeBits, AllocBit, AdjByte, ByteAt, Ascending, Sizes, NoFreePair, Rep, Absorbed, Freed;
    if Absorbed(l, idx) {
      FreedBitAbsorbed(h, l, idx, k);
    } else {
      FreedBitMerged(h, l, idx, k);
    }
  }

  lemma FreedBitAbsorbed(h: Header, l: Large, idx: nat, k: nat)
    requires Rep(h, l.offs, l.alloc) && Shape(l) && idx < |l.offs| && l.alloc[idx] && k < 8 && Absorbed(l, idx)
    ensures AllocBit(FreeBits(h.bits, idx, PrevFree(l, idx), NextFree(l, idx)), k)
      == (k < |Freed(l, idx).alloc| && Freed(l, idx).alloc[k])
  {
    hide FreeBits, AllocBit, AdjByte, ByteAt, Ascending, Sizes, NoFreePair;
    AbsorbedCase(l, idx);
    FreeBitsBit(h.bits, idx, false, false, k);
  }

  lemma FreedBitMerged(h: Header, l: Large, idx: nat, k: nat)
    requires Rep(h, l.offs, l.alloc) && Shape(l) && idx < |l.offs| && l.alloc[idx] && k < 8 && !Absorbed(l, idx)
    ensures AllocBit(FreeBits(h.bits, idx, PrevFree(l, idx), NextFree(l, idx)), k)
      == (k < |Freed(l, idx).alloc| && Freed(l, idx).alloc[k])
  {
    hide FreeBits, AllocBit, AdjByte, ByteAt, Ascending, Sizes, NoFreePair, Absorbed, Freed;
    FreeBitsBit(h.bits, idx, PrevFree(l, idx), NextFree(l, idx), k);
    FreedSize(l, idx);
    if k < |Freed(l, idx).alloc| {
      FreedAt(l, idx, k);
    }
  }

  // a header without alloc bits has no allocated block
  lemma NoAllocBits(bits: bv8)
    requires !AllocBit(bits, 0) && !AllocBit(bits, 1) && !AllocBit(bits, 2) && !AllocBit(bits, 3)
    requires !AllocBit(bits, 4) && !AllocBit(bits, 5) && !AllocBit(bits, 6) && !AllocBit(bits, 7)
    ensures bits == 0
  {
  }

  lemma ZeroBit(k: nat)
    requires k < 8
    ensures !AllocBit(0, k)
  {
  }

  lemma BitsZeroIs(h: Header, offs: seq<nat>, alloc: seq<bool>)
    requires Rep(h, offs, alloc)
    ensures h.bits == 0 <==> true !in alloc
  {
    hide AllocBit, AdjByte, ByteAt;
    if h.bits == 0 {
      forall k | 0 <= k < |alloc| ensures !alloc[k] {
        ZeroBit(k);
      }
    }
    if true !in alloc {
      assert forall k :: 0 <= k < |alloc| ==> !alloc[k];
      NoAllocBits(h.bits);
    }
  }

  // ---------- allocating ----------

  // block_alloc |= 1 << pos
  function TakeBits(bits: bv8, pos: nat): bv8
    requires pos < 8
  {
    bits | BitMask8(pos)
  }

  lemma TakeBitsBit(bits: bv8, pos: nat, k: nat)
    requires pos < 8 && k < 8
    ensures AllocBit(TakeBits(bits, pos), k) == (AllocBit(bits, k) || k == pos)
  {
  }

  lemma TakenRep(h: Header, l: Large, pos: nat)
    requires Rep(h, l.offs, l.alloc) && pos < |l.offs|
    ensures Rep(Header(h.mem, TakeBits(h.bits, pos)), Taken(l, pos).offs, Taken(l, pos).alloc)
  {
    hide TakeBits, AllocBit, AdjByte, ByteAt;
    forall k | 0 <= k < 8
      ensures AllocBit(TakeBits(h.bits, pos), k) == (k < |Taken(l, pos).alloc| && Taken(l, pos).alloc[k])
    {
      TakeBitsBit(h.bits, pos, k);
    }
  }

  // an offset as a byte; SLAB_SIZE becomes 0
  function OffsetByte(u: nat): bv8 {
    (u % 256) as bv8
  }

  lemma OffsetByteIs(u: nat)
    requires 1 <= u <= SLAB_UNITS
    ensures OffsetByte(u) == 0 <==> u == SLAB_UNITS
    ensures u < SLAB_UNITS ==> OffsetByte(u) as nat == u
  {
    if u < SLAB_UNITS {
      ByteRoundTrip(u);
    }
  }

  lemma SplitRep(h: Header, l: Large, pos: nat, size: nat)
    requires Rep(h, l.offs, l.alloc) && pos < |l.offs| < MAX_BLOCKS && 1 <= l.offs[pos] + size < SLAB_UNITS
    ensures Rep(Header(PushWord(h.mem, pos, OffsetByte(l.offs[pos] + size)), SplitBits(h.bits, pos)),
                Split(l, pos, size).offs, Split(l, pos, size).alloc)
  {
    hide PushWord, SplitBits, AllocBit, AdjByte, ByteAt, OffsetByte, Split;
    var off := OffsetByte(l.offs[pos] + size);
    SplitAt(l, pos, size, 0);
    PushWordByte(h.mem, pos, off, 0);
    forall k | 0 <= k < 8
      ensures AllocBit(SplitBits(h.bits, pos), k) == (k < |Split(l, pos, size).alloc| && Split(l, pos, size).alloc[k])
    {
      SplitBitsBit(h.bits, pos, k);
      if k <= |l.offs| {
        SplitAt(l, pos, size, k);
      }
    }
    forall k | 1 <= k < 8
      ensures AdjByte(PushWord(h.mem, pos, off), k)
        == if k < |Split(l, pos, size).offs| then Split(l, pos, size).offs[k] else SLAB_UNITS
    {
      SplitWordAt(h, l, pos, size, k);
    }
  }

  lemma SplitWordAt(h: Header, l: Large, pos: nat, size: nat, k: nat)
    requires Rep(h, l.offs, l.alloc) && pos < |l.offs| < MAX_BLOCKS && 1 <= l.offs[pos] + size < SLAB_UNITS
    requires 1 <= k < 8
    ensures AdjByte(PushWord(h.mem, pos, OffsetByte(l.offs[pos] + size)), k)
      == if k < |Split(l, pos, size).offs| then Split(l, pos, size).offs[k] else SLAB_UNITS
  {
    hide PushWord, ByteAt, OffsetByte, Split, AllocBit;
    PushWordByte(h.mem, pos, OffsetByte(l.offs[pos] + size), k);
    OffsetByteIs(l.offs[pos] + size);
    SplitAt(l, pos, size, 0);
    if k <= |l.offs| {
      SplitAt(l, pos, size, k);
    }
    if k > 1 {
      assert AdjByte(h.mem, k - 1) == if k - 1 < |l.offs| then l.offs[k - 1] else SLAB_UNITS;
    }
  }

  // ---------- new headers ----------

  // (mem & 0xff) | (off << 8)
  function NewWord(mem: bv64, off: bv8): bv64 {
    Or(And(mem, 0xff), ByteLeft(off as bv64))
  }

  lemma NewWordByte(mem: bv64, off: bv8, k: nat)
    requires k < 8
    ensures ByteAt(NewWord(mem, off), k) == if k == 0 then ByteAt(mem, 0) else if k == 1 then off else 0
  {
    hide ByteAt, And, Or, ByteLeft;
    FlagsMask(k);
    ByteMasked(mem, 0xff, k);
    ByteOfLeft(off as bv64, k);
    if k > 0 {
      WideByte(off, k - 1);
    }
    ByteEither(And(mem, 0xff), ByteLeft(off as bv64), k);
  }

  lemma FlagsMask(k: nat)
    requires k < 8
    ensures ByteAt(0xff, k) == if k == 0 then 0xff else 0
  {
  }

  lemma WideByte(off: bv8, k: nat)
    requires k < 8
    ensures ByteAt(off as bv64, k) == if k == 0 then off else 0
  {
  }

  // the header of __int_slab_init_large_and_alloc: one block, or two with the second at `second`
  function NewHeader(mem: bv64, offs: seq<nat>, bits: bv8): Header
    requires 1 <= |offs| <= 2
  {
    Header(NewWord(mem, if |offs| == 2 then OffsetByte(offs[1]) else 0), bits)
  }

  lemma NewRep(mem: bv64, offs: seq<nat>, alloc: seq<bool>, bits: bv8)
    requires 1 <= |offs| == |alloc| <= 2 && offs[0] == HEADER_UNITS && ByteAt(mem, 0) != 0
    requires |offs| == 2 ==> 1 <= offs[1] <= SLAB_UNITS
    requires alloc == [true] || alloc == [true, false] ==> bits == 1
    requires alloc == [false, true] ==> bits == 2
    requires alloc == [true] || alloc == [true, false] || alloc == [false, true]
    ensures Rep(NewHeader(mem, offs, bits), offs, alloc)
  {
    hide ByteAt, NewWord, OffsetByte;
    var off := if |offs| == 2 then OffsetByte(offs[1]) else 0;
    NewWordByte(mem, off, 0);
    if |offs| == 2 {
      OffsetByteIs(offs[1]);
    }
    forall k | 1 <= k < 8
      ensures AdjByte(NewWord(mem, off), k) == if k < |offs| then offs[k] else SLAB_UNITS
    {
      NewWordByte(mem, off, k);
    }
  }

  // ---------- finding a block ----------

  // byte k of __medium_bin_offsets
  function OffsetsByte(mem: bv64, k: nat): bv8
    requires k < 8
  {
    if k == 0 then 1 else ByteAt(mem, k)
  }

  /** medium_bin_find_block_pos: the first of the eight offsets equal to that of the block.  It
      is the block's index, so the assertion that some offset matches holds. */
  method FindBlockPos(h: Header, ghost l: Large, ghost idx: nat, off: nat) returns (k: nat)
    requires Rep(h, l.offs, l.alloc) && Shape(l) && idx < |l.offs| && l.offs[idx] == off
    ensures k == idx
  {
    hide ByteAt, AllocBit, OffsetByte, Sizes, NoFreePair, AdjByte;
    var target := OffsetByte(off);
    k := 0;
    FoundAt(h, l, idx, idx);
    while k < 8 && OffsetsByte(h.mem, k) != target
      invariant k <= idx
      decreases 8 - k
    {
      k := k + 1;
    }
    FoundAt(h, l, idx, k);
  }

  // offset k matches that of block idx exactly when k is idx, for k up to idx
  lemma FoundAt(h: Header, l: Large, idx: nat, k: nat)
    requires Rep(h, l.offs, l.alloc) && Shape(l) && k <= idx < |l.offs|
    ensures OffsetsByte(h.mem, k) == OffsetByte(l.offs[idx]) <==> k == idx
  {
    hide ByteAt, AllocBit, OffsetByte, Sizes, NoFreePair;
    assert k < idx ==> l.offs[k] < l.offs[idx];
    OffsetByteIs(l.offs[idx]);
    OffsetByteIs(HEADER_UNITS);
    if k > 0 {
      ByteZero(h.mem, k);
    }
  }
}
