/** The header word of a large slab.  The low byte of the 64-bit word is the flags byte; the
    upper seven hold the offsets of blocks 1 to 7 in units of 16 bytes.  A separate byte holds
    one alloc bit for each block.  This module states what each masked shift of the source
    does to the bytes and to the bits. */
module HeaderWords {

  // w << (8 * k)
  function Shl(w: bv64, k: nat): bv64
    requires k < 8
  {
    match k
    case 0 => w
    case 1 => w << 8
    case 2 => w << 16
    case 3 => w << 24
    case 4 => w << 32
    case 5 => w << 40
    case 6 => w << 48
    case _ => w << 56
  }

  // w >> (8 * k)
  function Shr(w: bv64, k: nat): bv64
    requires k < 8
  {
    match k
    case 0 => w
    case 1 => w >> 8
    case 2 => w >> 16
    case 3 => w >> 24
    case 4 => w >> 32
    case 5 => w >> 40
    case 6 => w >> 48
    case _ => w >> 56
  }

  function ByteAt(w: bv64, k: nat): bv8
    requires k < 8
  {
    (Shr(w, k) & 0xff) as bv8
  }

  // 1 << k in a byte
  function BitMask8(k: nat): bv8
    requires k < 8
  {
    match k
    case 0 => 0x01
    case 1 => 0x02
    case 2 => 0x04
    case 3 => 0x08
    case 4 => 0x10
    case 5 => 0x20
    case 6 => 0x40
    case _ => 0x80
  }

  predicate AllocBit(b: bv8, k: nat)
    requires k < 8
  {
    b & BitMask8(k) != 0
  }

  // (0x100 << (8 * k)) - 1: the bytes 0 to k
  function KeepMask(k: nat): bv64
    requires k < 8
  {
    Shl(0x100, k) - 1
  }

  function And(a: bv64, b: bv64): bv64 {
    a & b
  }

  function Or(a: bv64, b: bv64): bv64 {
    a | b
  }

  function Not(w: bv64): bv64 {
    !w
  }

  function ByteLeft(w: bv64): bv64 {
    w << 8
  }

  function ByteRight(w: bv64): bv64 {
    w >> 8
  }

  // (offset << 4) << (8 * after), for an offset of 16 * off bytes
  function Place(off: bv8, after: nat): bv64
    requires after < 7
  {
    Shl((off as bv64) << 8, after)
  }

  // __medium_bin_push_offset
  function PushWord(mem: bv64, after: nat, off: bv8): bv64
    requires after < 7
  {
    var keep := KeepMask(after);
    Or(Or(And(mem, keep), Place(off, after)), ByteLeft(And(mem, Not(keep))))
  }

  // __medium_bin_remove_offset, the offsets
  function RemoveWord(mem: bv64, after: nat): bv64
    requires after < 7
  {
    var keep := KeepMask(after);
    Or(And(mem, keep), And(ByteRight(mem), Not(keep)))
  }

  // the offsets written back by medium_bin_free
  function FreeWord(mem: bv64, idx: nat, prevFree: bool, nextFree: bool, absorb: bool): bv64
    requires idx < 8
  {
    var keep0 := KeepMask(idx);
    var keep1 := if prevFree then ByteRight(keep0) else keep0;
    var keep := if absorb then ByteRight(keep1) else keep1;
    var move := if nextFree then ByteLeft(Not(keep0)) else Not(keep0);
    var moved0 := And(mem, move);
    var moved1 := if prevFree then ByteRight(moved0) else moved0;
    var moved := if nextFree then ByteRight(moved1) else moved1;
    Or(And(mem, keep), moved)
  }

  // (2 << k) - 1 in a byte: the bits 0 to k
  function KeepBits(k: nat): bv8
    requires k < 8
  {
    (BitMask8(k) << 1) - 1
  }

  // the alloc bits written back by medium_bin_free
  function FreeBits(b: bv8, idx: nat, prevFree: bool, nextFree: bool): bv8
    requires idx < 8
  {
    var keep0 := KeepBits(idx);
    var keep1 := keep0 >> 1;
    var keep := if prevFree then keep1 >> 1 else keep1;
    var move := if nextFree then !keep0 << 1 else !keep0;
    var moved := b & move;
    var moved1 := if prevFree then moved >> 1 else moved;
    (b & keep) | (if nextFree then moved1 >> 1 else moved1)
  }

  // the alloc bits after a block is allocated and its remainder split off
  function SplitBits(b: bv8, pos: nat): bv8
    requires pos < 8
  {
    var keep := BitMask8(pos) - 1;
    (b & keep) | BitMask8(pos) | ((b & !keep) << 1)
  }

  // __medium_bin_split_block, the alloc bits
  function PushBits(b: bv8, after: nat): bv8
    requires after < 8
  {
    var keep := KeepBits(after);
    (b & keep) | ((b & !keep) << 1)
  }

  // __medium_bin_remove_offset, the alloc bits
  function RemoveBits(b: bv8, after: nat): bv8
    requires after < 8
  {
    var keep := KeepBits(after);
    (b & keep) | ((b >> 1) & !keep)
  }

  // ---------- bytes of compound words ----------

  lemma ByteOfLeft(w: bv64, k: nat)
    requires k < 8
    ensures ByteAt(ByteLeft(w), k) == if k == 0 then 0 else ByteAt(w, k - 1)
  {
  }

  lemma ByteOfRight(w: bv64, k: nat)
    requires k < 8
    ensures ByteAt(ByteRight(w), k) == if k == 7 then 0 else ByteAt(w, k + 1)
  {
  }

  lemma ByteOfPlace(off: bv8, after: nat, k: nat)
    requires after < 7 && k < 8
    ensures ByteAt(Place(off, after), k) == if k == after + 1 then off else 0
  {
  }

  lemma ByteOfKeepMask(c: nat, k: nat)
    requires c < 8 && k < 8
    ensures ByteAt(KeepMask(c), k) == if k <= c then 0xff else 0
  {
  }

  lemma ByteOfDropMask(c: nat, k: nat)
    requires c < 8 && k < 8
    ensures ByteAt(Not(KeepMask(c)), k) == if k <= c then 0 else 0xff
  {
  }

  lemma ByteKept(w: bv64, m: bv64, k: nat)
    requires k < 8 && ByteAt(m, k) == 0xff
    ensures ByteAt(And(w, m), k) == ByteAt(w, k)
  {
  }

  lemma ByteDropped(w: bv64, m: bv64, k: nat)
    requires k < 8 && ByteAt(m, k) == 0
    ensures ByteAt(And(w, m), k) == 0
  {
  }

  // a byte under a mask of whole bytes
  lemma ByteMasked(w: bv64, m: bv64, k: nat)
    requires k < 8
    ensures ByteAt(m, k) == 0xff ==> ByteAt(And(w, m), k) == ByteAt(w, k)
    ensures ByteAt(m, k) == 0 ==> ByteAt(And(w, m), k) == 0
  {
    hide ByteAt, And;
    if ByteAt(m, k) == 0xff {
      ByteKept(w, m, k);
    } else if ByteAt(m, k) == 0 {
      ByteDropped(w, m, k);
    }
  }

  lemma ByteOrZeroLow(a: bv64, b: bv64, k: nat)
    requires k < 4 && ByteAt(b, k) == 0
    ensures ByteAt(Or(a, b), k) == ByteAt(a, k)
  {
  }

  lemma ByteOrZeroMiddle(a: bv64, b: bv64, k: nat)
    requires 4 <= k < 6 && ByteAt(b, k) == 0
    ensures ByteAt(Or(a, b), k) == ByteAt(a, k)
  {
  }

  lemma ByteOrZeroHigh(a: bv64, b: bv64, k: nat)
    requires 6 <= k < 8 && ByteAt(b, k) == 0
    ensures ByteAt(Or(a, b), k) == ByteAt(a, k)
  {
  }

  lemma ByteOrZero(a: bv64, b: bv64, k: nat)
    requires k < 8 && ByteAt(b, k) == 0
    ensures ByteAt(Or(a, b), k) == ByteAt(a, k)
  {
    hide ByteAt, Or;
    if k < 4 {
      ByteOrZeroLow(a, b, k);
    } else if k < 6 {
      ByteOrZeroMiddle(a, b, k);
    } else {
      ByteOrZeroHigh(a, b, k);
    }
  }

  lemma OrSwap(a: bv64, b: bv64)
    ensures Or(a, b) == Or(b, a)
  {
  }

  // one of the two words has nothing in this byte
  lemma ByteEither(a: bv64, b: bv64, k: nat)
    requires k < 8
    ensures ByteAt(a, k) == 0 ==> ByteAt(Or(a, b), k) == ByteAt(b, k)
    ensures ByteAt(b, k) == 0 ==> ByteAt(Or(a, b), k) == ByteAt(a, k)
  {
    hide ByteAt, Or;
    if ByteAt(b, k) == 0 {
      ByteOrZero(a, b, k);
    }
    if ByteAt(a, k) == 0 {
      OrSwap(a, b);
      ByteOrZero(b, a, k);
    }
  }

  // ---------- what the updates do to the bytes ----------

  lemma PushWordByte(mem: bv64, after: nat, off: bv8, k: nat)
    requires after < 7 && k < 8
    ensures ByteAt(PushWord(mem, after, off), k) ==
      if k <= after then ByteAt(mem, k) else if k == after + 1 then off else ByteAt(mem, k - 1)
  {
    hide ByteAt, And, Or, Not, ByteLeft, Place, KeepMask;
    var keep := KeepMask(after);
    var low, high := And(mem, keep), ByteLeft(And(mem, Not(keep)));
    ByteOfKeepMask(after, k);
    ByteOfDropMask(after, k);
    ByteMasked(mem, keep, k);
    ByteOfPlace(off, after, k);
    ByteOfLeft(And(mem, Not(keep)), k);
    if k > 0 {
      ByteOfDropMask(after, k - 1);
      ByteMasked(mem, Not(keep), k - 1);
    }
    ByteEither(low, Place(off, after), k);
    ByteEither(Or(low, Place(off, after)), high, k);
  }

  lemma RemoveWordByte(mem: bv64, after: nat, k: nat)
    requires after < 7 && k < 8
    ensures ByteAt(RemoveWord(mem, after), k) ==
      if k <= after then ByteAt(mem, k) else if k < 7 then ByteAt(mem, k + 1) else 0
  {
    hide ByteAt, And, Or, Not, ByteRight, KeepMask;
    var keep := KeepMask(after);
    ByteOfKeepMask(after, k);
    ByteOfDropMask(after, k);
    ByteMasked(mem, keep, k);
    ByteMasked(ByteRight(mem), Not(keep), k);
    ByteOfRight(mem, k);
    ByteEither(And(mem, keep), And(ByteRight(mem), Not(keep)), k);
  }

  // the masks of medium_bin_free are masks of whole bytes
  lemma FreeMasks(idx: nat, p: bool, n: bool, a: bool, k: nat)
    requires idx < 8 && k < 8 && (p || a ==> idx > 0) && !(p && a) && (n ==> idx < 7)
    ensures var keep1 := if p then ByteRight(KeepMask(idx)) else KeepMask(idx);
      var keep := if a then ByteRight(keep1) else keep1;
      ByteAt(keep, k) == if k < idx + 1 - (if p || a then 1 else 0) then 0xff else 0
    ensures var move := if n then ByteLeft(Not(KeepMask(idx))) else Not(KeepMask(idx));
      ByteAt(move, k) == if k < idx + 1 + (if n then 1 else 0) then 0 else 0xff
  {
    hide ByteAt, Not, ByteLeft, ByteRight, KeepMask, And;
    var m := KeepMask(idx);
    ByteOfKeepMask(idx, k);
    ByteOfDropMask(idx, k);
    ByteOfRight(m, k);
    ByteOfLeft(Not(m), k);
    if k < 7 {
      ByteOfKeepMask(idx, k + 1);
    }
    if k > 0 {
      ByteOfDropMask(idx, k - 1);
    }
  }

  lemma ByteOfShifted(w: bv64, p: bool, n: bool, k: nat)
    requires k < 8
    ensures var moved1 := if p then ByteRight(w) else w;
      var moved := if n then ByteRight(moved1) else moved1;
      var shift := (if p then 1 else 0) + (if n then 1 else 0);
      ByteAt(moved, k) == if k + shift < 8 then ByteAt(w, k + shift) else 0
  {
    hide ByteAt, ByteRight;
    var moved1 := if p then ByteRight(w) else w;
    ByteOfRight(moved1, k);
    ByteOfRight(w, k);
    if k < 7 {
      ByteOfRight(w, k + 1);
    }
  }

  // medium_bin_free drops the offset of the freed block if the block before it is free, the
  // offset of the next block if that is free, and closes the gap
  lemma FreeWordByte(mem: bv64, idx: nat, p: bool, n: bool, a: bool, k: nat)
    requires idx < 8 && k < 8 && (p || a ==> idx > 0) && !(p && a) && (n ==> idx < 7)
    ensures var cut := idx + 1 - (if p then 1 else 0);
      var shift := (if p then 1 else 0) + (if n then 1 else 0);
      ByteAt(FreeWord(mem, idx, p, n, a), k) ==
        if k < cut - (if a then 1 else 0) then ByteAt(mem, k)
        else if k < cut then 0
        else if k + shift < 8 then ByteAt(mem, k + shift) else 0
  {
    hide ByteAt, And, Or, Not, ByteLeft, ByteRight, KeepMask;
    var keep1 := if p then ByteRight(KeepMask(idx)) else KeepMask(idx);
    var keep := if a then ByteRight(keep1) else keep1;
    var move := if n then ByteLeft(Not(KeepMask(idx))) else Not(KeepMask(idx));
    var shift := (if p then 1 else 0) + (if n then 1 else 0);
    var moved0 := And(mem, move);
    var moved1 := if p then ByteRight(moved0) else moved0;
    var moved := if n then ByteRight(moved1) else moved1;
    FreeMasks(idx, p, n, a, k);
    ByteMasked(mem, keep, k);
    ByteOfShifted(moved0, p, n, k);
    if k + shift < 8 {
      FreeMasks(idx, p, n, a, k + shift);
      ByteMasked(mem, move, k + shift);
    }
    ByteEither(And(mem, keep), moved, k);
  }

  // ---------- what the updates do to the alloc bits ----------

  lemma FreeBitsAlone(b: bv8, idx: nat, k: nat)
    requires idx < 8 && k < 8
    ensures AllocBit(FreeBits(b, idx, false, false), k) ==
      if k < idx then AllocBit(b, k)
      else if k < idx + 1 then false
      else AllocBit(b, k)
  {
  }

  lemma FreeBitsPrev(b: bv8, idx: nat, k: nat)
    requires 0 < idx < 8 && k < 8
    ensures AllocBit(FreeBits(b, idx, true, false), k) ==
      if k < idx - 1 then AllocBit(b, k)
      else if k < idx then false
      else k + 1 < 8 && AllocBit(b, k + 1)
  {
  }

  lemma FreeBitsNext(b: bv8, idx: nat, k: nat)
    requires idx < 7 && k < 8
    ensures AllocBit(FreeBits(b, idx, false, true), k) ==
      if k < idx then AllocBit(b, k)
      else if k < idx + 1 then false
      else k + 1 < 8 && AllocBit(b, k + 1)
  {
  }

  lemma FreeBitsBoth(b: bv8, idx: nat, k: nat)
    requires 0 < idx < 7 && k < 8
    ensures AllocBit(FreeBits(b, idx, true, true), k) ==
      if k < idx - 1 then AllocBit(b, k)
      else if k < idx then false
      else k + 2 < 8 && AllocBit(b, k + 2)
  {
  }

  lemma FreeBitsBit(b: bv8, idx: nat, p: bool, n: bool, k: nat)
    requires idx < 8 && k < 8 && (p ==> idx > 0) && (n ==> idx < 7)
    ensures var cut := idx + 1 - (if p then 1 else 0);
      var shift := (if p then 1 else 0) + (if n then 1 else 0);
      AllocBit(FreeBits(b, idx, p, n), k) ==
        if k < cut - 1 then AllocBit(b, k)
        else if k < cut then false
        else k + shift < 8 && AllocBit(b, k + shift)
  {
    hide AllocBit, FreeBits;
    if p && n {
      FreeBitsBoth(b, idx, k);
    } else if p {
      FreeBitsPrev(b, idx, k);
    } else if n {
      FreeBitsNext(b, idx, k);
    } else {
      FreeBitsAlone(b, idx, k);
    }
  }

  lemma SplitBitsBit(b: bv8, pos: nat, k: nat)
    requires pos < 8 && k < 8
    ensures AllocBit(SplitBits(b, pos), k) ==
      if k < pos then AllocBit(b, k) else if k == pos then true else AllocBit(b, k - 1)
  {
  }

  lemma PushBitsBit(b: bv8, after: nat, k: nat)
    requires after < 8 && k < 8
    ensures AllocBit(PushBits(b, after), k) ==
      if k <= after then AllocBit(b, k) else k != after + 1 && AllocBit(b, k - 1)
  {
  }

  lemma RemoveBitsBit(b: bv8, after: nat, k: nat)
    requires after < 8 && k < 8
    ensures AllocBit(RemoveBits(b, after), k) ==
      if k <= after then AllocBit(b, k) else k < 7 && AllocBit(b, k + 1)
  {
  }
}
