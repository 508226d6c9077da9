/** The two standalone edits of a large slab's header, `__medium_bin_split_block` and
    `__medium_bin_remove_offset`: on the blocks they insert and delete, on the words they undo
    each other exactly when nothing falls off the end. */
module HeaderEdits {
  import opened HeaderWords
  import opened LargeSlabs
  import opened MediumBlocks

  function InsertAt<T>(s: seq<T>, k: nat, x: T): seq<T>
    requires k <= |s|
  {
    s[..k] + [x] + s[k..]
  }

  function DeleteAt<T>(s: seq<T>, k: nat): seq<T>
    requires k < |s|
  {
    s[..k] + s[k + 1..]
  }

  function SplitBlock(h: Header, after: nat, off: bv8): Header
    requires after < 7
  {
    Header(PushWord(h.mem, after, off), PushBits(h.bits, after))
  }

  function RemoveOffset(h: Header, after: nat): Header
    requires after < 7
  {
    Header(RemoveWord(h.mem, after), RemoveBits(h.bits, after))
  }

  // ---------- words ----------

  // a word is its eight bytes
  lemma SameBytes(v: bv64, w: bv64)
    requires ByteAt(v, 0) == ByteAt(w, 0) && ByteAt(v, 1) == ByteAt(w, 1) && ByteAt(v, 2) == ByteAt(w, 2)
    requires ByteAt(v, 3) == ByteAt(w, 3) && ByteAt(v, 4) == ByteAt(w, 4) && ByteAt(v, 5) == ByteAt(w, 5)
    requires ByteAt(v, 6) == ByteAt(w, 6) && ByteAt(v, 7) == ByteAt(w, 7)
    ensures v == w
  {
  }

  lemma SameBits(a: bv8, b: bv8)
    requires AllocBit(a, 0) == AllocBit(b, 0) && AllocBit(a, 1) == AllocBit(b, 1) && AllocBit(a, 2) == AllocBit(b, 2)
    requires AllocBit(a, 3) == AllocBit(b, 3) && AllocBit(a, 4) == AllocBit(b, 4) && AllocBit(a, 5) == AllocBit(b, 5)
    requires AllocBit(a, 6) == AllocBit(b, 6) && AllocBit(a, 7) == AllocBit(b, 7)
    ensures a == b
  {
  }

  lemma WordsEqual(v: bv64, w: bv64)
    requires forall k :: 0 <= k < 8 ==> ByteAt(v, k) == ByteAt(w, k)
    ensures v == w
  {
    hide ByteAt;
    SameBytes(v, w);
  }

  lemma BitsEqual(a: bv8, b: bv8)
    requires forall k :: 0 <= k < 8 ==> AllocBit(a, k) == AllocBit(b, k)
    ensures a == b
  {
    hide AllocBit;
    SameBits(a, b);
  }

  // splitting and removing at the same index restores the offsets unless an eighth was there
  lemma SplitThenRemoveWord(mem: bv64, after: nat, off: bv8)
    requires after < 7
    ensures RemoveWord(PushWord(mem, after, off), after) == mem <==> ByteAt(mem, 7) == 0
  {
    hide ByteAt, PushWord, RemoveWord;
    var v := RemoveWord(PushWord(mem, after, off), after);
    forall k | 0 <= k < 8 ensures ByteAt(v, k) == if k < 7 then ByteAt(mem, k) else 0 {
      RemoveWordByte(PushWord(mem, after, off), after, k);
      PushWordByte(mem, after, off, k);
      if k < 7 {
        PushWordByte(mem, after, off, k + 1);
      }
    }
    if ByteAt(mem, 7) == 0 {
      WordsEqual(v, mem);
    }
  }

  lemma SplitThenRemoveBits(b: bv8, after: nat)
    requires after < 7
    ensures RemoveBits(PushBits(b, after), after) == b <==> !AllocBit(b, 7)
  {
    hide AllocBit, PushBits, RemoveBits;
    var c := RemoveBits(PushBits(b, after), after);
    forall k | 0 <= k < 8 ensures AllocBit(c, k) == (k < 7 && AllocBit(b, k)) {
      RemoveBitsBit(PushBits(b, after), after, k);
      PushBitsBit(b, after, k);
      if k < 7 {
        PushBitsBit(b, after, k + 1);
      }
    }
    if !AllocBit(b, 7) {
      BitsEqual(c, b);
    }
  }

  /** Splitting and then removing at the same index restores the header exactly when byte 7 of
      the word and bit 7 of the alloc bits are clear. */
  lemma SplitThenRemove(h: Header, after: nat, off: bv8)
    requires after < 7
    ensures RemoveOffset(SplitBlock(h, after, off), after) == h <==> ByteAt(h.mem, 7) == 0 && !AllocBit(h.bits, 7)
  {
    hide ByteAt, AllocBit, PushWord, RemoveWord, PushBits, RemoveBits;
    SplitThenRemoveWord(h.mem, after, off);
    SplitThenRemoveBits(h.bits, after);
  }

  // removing an offset and splitting there again restores the word, and the bits if the block was free
  lemma RemoveThenSplit(h: Header, after: nat)
    requires after < 7
    ensures SplitBlock(RemoveOffset(h, after), after, ByteAt(h.mem, after + 1)) == h <==> !AllocBit(h.bits, after + 1)
  {
    hide ByteAt, AllocBit, PushWord, RemoveWord, PushBits, RemoveBits;
    RemoveThenSplitWord(h.mem, after);
    RemoveThenSplitBits(h.bits, after);
  }

  lemma RemoveThenSplitWord(mem: bv64, after: nat)
    requires after < 7
    ensures PushWord(RemoveWord(mem, after), after, ByteAt(mem, after + 1)) == mem
  {
    hide ByteAt, PushWord, RemoveWord;
    var r := RemoveWord(mem, after);
    var v := PushWord(r, after, ByteAt(mem, after + 1));
    forall k | 0 <= k < 8 ensures ByteAt(v, k) == ByteAt(mem, k) {
      PushWordByte(r, after, ByteAt(mem, after + 1), k);
      RemoveWordByte(mem, after, k);
      if k > 0 {
        RemoveWordByte(mem, after, k - 1);
      }
    }
    WordsEqual(v, mem);
  }

  lemma RemoveThenSplitBits(b: bv8, after: nat)
    requires after < 7
    ensures PushBits(RemoveBits(b, after), after) == b <==> !AllocBit(b, after + 1)
  {
    hide AllocBit, PushBits, RemoveBits;
    var r := RemoveBits(b, after);
    var c := PushBits(r, after);
    forall k | 0 <= k < 8 ensures AllocBit(c, k) == (k != after + 1 && AllocBit(b, k)) {
      PushBitsBit(r, after, k);
      RemoveBitsBit(b, after, k);
      if k > 0 {
        RemoveBitsBit(b, after, k - 1);
      }
    }
    if !AllocBit(b, after + 1) {
      BitsEqual(c, b);
    }
  }

  // ---------- blocks ----------

  // the split inserts a free block after block `after`
  lemma SplitInserts(h: Header, offs: seq<nat>, alloc: seq<bool>, after: nat, u: nat)
    requires Rep(h, offs, alloc) && after < |offs| < MAX_BLOCKS && 1 <= u < SLAB_UNITS
    ensures Rep(SplitBlock(h, after, OffsetByte(u)), InsertAt(offs, after + 1, u), InsertAt(alloc, after + 1, false))
  {
    hide PushWord, PushBits, AllocBit, AdjByte, ByteAt, OffsetByte;
    var offs', alloc' := InsertAt(offs, after + 1, u), InsertAt(alloc, after + 1, false);
    PushWordByte(h.mem, after, OffsetByte(u), 0);
    forall k | 1 <= k < 8
      ensures AdjByte(PushWord(h.mem, after, OffsetByte(u)), k) == if k < |offs'| then offs'[k] else SLAB_UNITS
    {
      InsertedByte(h, offs, alloc, after, u, k);
    }
    forall k | 0 <= k < 8 ensures AllocBit(PushBits(h.bits, after), k) == (k < |alloc'| && alloc'[k]) {
      PushBitsBit(h.bits, after, k);
      assert k > after + 1 ==> AllocBit(h.bits, k - 1) == (k - 1 < |alloc| && alloc[k - 1]);
    }
  }

  lemma InsertedByte(h: Header, offs: seq<nat>, alloc: seq<bool>, after: nat, u: nat, k: nat)
    requires Rep(h, offs, alloc) && after < |offs| < MAX_BLOCKS && 1 <= u < SLAB_UNITS && 1 <= k < 8
    ensures AdjByte(PushWord(h.mem, after, OffsetByte(u)), k)
      == if k < |offs| + 1 then InsertAt(offs, after + 1, u)[k] else SLAB_UNITS
  {
    hide PushWord, ByteAt, OffsetByte, AllocBit;
    PushWordByte(h.mem, after, OffsetByte(u), k);
    OffsetByteIs(u);
    if k > 1 {
      assert AdjByte(h.mem, k - 1) == if k - 1 < |offs| then offs[k - 1] else SLAB_UNITS;
    }
  }

  // the removal deletes the block after block `after`, which so takes its place
  lemma RemoveDeletes(h: Header, offs: seq<nat>, alloc: seq<bool>, after: nat)
    requires Rep(h, offs, alloc) && after + 1 < |offs|
    ensures Rep(RemoveOffset(h, after), DeleteAt(offs, after + 1), DeleteAt(alloc, after + 1))
  {
    hide RemoveWord, RemoveBits, AllocBit, AdjByte, ByteAt;
    var offs', alloc' := DeleteAt(offs, after + 1), DeleteAt(alloc, after + 1);
    RemoveWordByte(h.mem, after, 0);
    forall k | 1 <= k < 8
      ensures AdjByte(RemoveWord(h.mem, after), k) == if k < |offs'| then offs'[k] else SLAB_UNITS
    {
      DeletedByte(h, offs, alloc, after, k);
    }
    forall k | 0 <= k < 8 ensures AllocBit(RemoveBits(h.bits, after), k) == (k < |alloc'| && alloc'[k]) {
      RemoveBitsBit(h.bits, after, k);
      assert k > after && k < 7 ==> AllocBit(h.bits, k + 1) == (k + 1 < |alloc| && alloc[k + 1]);
    }
  }

  lemma DeletedByte(h: Header, offs: seq<nat>, alloc: seq<bool>, after: nat, k: nat)
    requires Rep(h, offs, alloc) && after + 1 < |offs| && 1 <= k < 8
    ensures AdjByte(RemoveWord(h.mem, after), k)
      == if k < |offs| - 1 then DeleteAt(offs, after + 1)[k] else SLAB_UNITS
  {
    hide RemoveWord, ByteAt, AllocBit;
    RemoveWordByte(h.mem, after, k);
    assert AdjByte(h.mem, k) == if k < |offs| then offs[k] else SLAB_UNITS;
    if k < 7 {
      assert AdjByte(h.mem, k + 1) == if k + 1 < |offs| then offs[k + 1] else SLAB_UNITS;
    }
  }
}
