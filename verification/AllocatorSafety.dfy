/** What the invariant of the allocator means for a program that uses it: live blocks are
    aligned, inside the heap, apart from each other and from everything the allocator keeps for
    itself, so the program may write to them as it likes. */
module AllocatorSafety {
  import opened AllocatorState
  import opened AllocatorSteps
  import opened Allocators
  import opened LargeSlabs
  import FreeLists
  import opened MediumBinLists
  import opened MediumBlocks
  import opened Options
  import opened PackedSlabs
  import opened SlabHeaps

  // byte i is in the block at p
  ghost predicate InBlock(live: map<nat, nat>, p: nat, i: nat) {
    p in live && p <= i < p + live[p]
  }

  // bytes that a header takes
  function HeaderBytes(packed: map<nat, Packed>, s: nat): nat {
    if s in packed then HeaderSize(packed[s].size) else UNIT * HEADER_UNITS
  }

  // byte i is in the header of an allocated slab, in a free region (with its tags and its list
  // node), or in a free medium block (with its list node)
  ghost predicate Metadata(regs: map<nat, Region>, st: State, i: nat) {
    || (exists s :: s in st.allocs && InHeader(st.packed, s, i))
    || (exists r :: r in regs && !regs[r].alloc && InRegion(regs[r].size, r, i))
    || (exists a :: a in st.free && InMedium(st.free[a], a, i))
  }

  ghost predicate InHeader(packed: map<nat, Packed>, s: nat, i: nat) {
    SLAB_SIZE * s <= i < SLAB_SIZE * s + HeaderBytes(packed, s)
  }

  ghost predicate InRegion(size: nat, r: nat, i: nat) {
    SLAB_SIZE * r <= i < SLAB_SIZE * (r + size)
  }

  ghost predicate InMedium(size: nat, a: nat, i: nat) {
    UNIT * a <= i < UNIT * (a + size)
  }

  // ---------- live blocks and each other ----------

  lemma LiveRange(st: State, p: nat) returns (s: nat, hi: nat)
    requires StateOk(st) && p in st.live
    ensures Slot(st.packed, st.med, s, p, hi) && p + st.live[p] <= hi && s in st.allocs
    ensures SLAB_SIZE * s + UNIT <= p < hi <= SLAB_SIZE * (s + st.allocs[s]) && p % UNIT == 0
  {
    hide StateOk, Slot, Shape;
    LiveSlot(st, p);
    LayoutOf(st);
    s := PtrSlab(p);
    hi :| Slot(st.packed, st.med, s, p, hi) && p + st.live[p] <= hi;
    SlotRange(st.allocs, st.packed, st.med, s, p, hi);
  }

  /** Live blocks are 16-byte aligned, end inside the heap, and do not overlap: objects that are
      alive at the same time are disjoint (ISO/IEC 9899:2011, 7.22.3). */
  lemma LiveApart(regs: map<nat, Region>, end: nat, st: State, p: nat, q: nat)
    requires Tiles(regs, end) && st.allocs == Allocs(regs) && StateOk(st)
    requires p in st.live && q in st.live
    ensures p % UNIT == 0 && UNIT <= p && p + st.live[p] <= SLAB_SIZE * end
    ensures p < q ==> p + st.live[p] <= q
  {
    hide StateOk, Slot, Shape;
    var s, hi := LiveRange(st, p);
    RegionEnds(regs, end, s);
    LayoutOf(st);
    if p < q {
      var t, hi' := LiveRange(st, q);
      SlotsApart(regs, end, st.packed, st.med, s, p, hi, t, q, hi');
    }
  }

  lemma RegionEnds(regs: map<nat, Region>, end: nat, s: nat)
    requires Tiles(regs, end) && s in Allocs(regs)
    ensures s + Allocs(regs)[s] <= end
  {
  }

  // ---------- live blocks and metadata ----------

  lemma NotInHeader(regs: map<nat, Region>, end: nat, st: State, p: nat, i: nat, t: nat)
    requires Tiles(regs, end) && st.allocs == Allocs(regs) && StateOk(st)
    requires InBlock(st.live, p, i) && t in st.allocs
    ensures !InHeader(st.packed, t, i)
  {
    hide StateOk, Slot, Shape, Tiles, HeaderSize;
    var s, hi := LiveRange(st, p);
    if t == s {
      AfterHeader(st, s, p, hi);
    } else {
      TilesApart(regs, end, if s < t then s else t, if s < t then t else s);
      HeaderFits(st, t);
    }
  }

  lemma AfterHeader(st: State, s: nat, p: nat, hi: nat)
    requires StateOk(st) && Slot(st.packed, st.med, s, p, hi) && s in st.allocs
    ensures SLAB_SIZE * s + HeaderBytes(st.packed, s) <= p
  {
    hide StateOk, MedSlot, PackedSlot, PackedOk, IsClass, HeaderSize;
    if s in st.packed {
      ClassOf(st, s);
      PackedSlotRange(st.packed[s], s, p, hi);
    } else {
      LargeOf(st, s);
      hide Shape;
      MedSlotRange(st.med[s], s, p, hi);
    }
  }

  lemma HeaderFits(st: State, t: nat)
    requires StateOk(st) && t in st.allocs
    ensures HeaderBytes(st.packed, t) <= SLAB_SIZE && st.allocs[t] >= 1
  {
    hide PackedAll, SmallBinned, MedBinned, LiveOk, FlagBits, Rep;
  }

  lemma NotInRegion(regs: map<nat, Region>, end: nat, st: State, p: nat, i: nat, r: nat)
    requires Tiles(regs, end) && st.allocs == Allocs(regs) && StateOk(st)
    requires InBlock(st.live, p, i) && r in regs && !regs[r].alloc
    ensures !InRegion(regs[r].size, r, i)
  {
    hide StateOk, Slot, Shape, Tiles;
    var s, hi := LiveRange(st, p);
    RegionsApart(regs, end, s, r);
  }

  lemma RegionsApart(regs: map<nat, Region>, end: nat, s: nat, r: nat)
    requires Tiles(regs, end) && s in Allocs(regs) && r in regs && !regs[r].alloc
    ensures r + regs[r].size <= s || s + Allocs(regs)[s] <= r
  {
  }

  lemma NotInMedium(regs: map<nat, Region>, end: nat, st: State, p: nat, i: nat, a: nat)
    requires Tiles(regs, end) && st.allocs == Allocs(regs) && StateOk(st)
    requires InBlock(st.live, p, i) && a in st.free
    ensures !InMedium(st.free[a], a, i)
  {
    hide StateOk, Slot, Shape, Tiles, EndOf;
    var s, hi := LiveRange(st, p);
    var pos := BinnedIndex(st, a);
    var t := a / MediumBlocks.SLAB_UNITS;
    FreeIdxInside(st.med[t], pos);
    LargeOf(st, t);
    if t == s {
      SlotOffFree(st.packed, st.med, s, p, hi, pos);
    } else {
      TilesApart(regs, end, if s < t then s else t, if s < t then t else s);
      HeaderFits(st, t);
    }
  }

  // an allocated block and a free one of the same large slab
  lemma SlotOffFree(packed: map<nat, Packed>, med: map<nat, Large>, s: nat, p: nat, hi: nat, pos: nat)
    requires Slot(packed, med, s, p, hi) && s in med && s !in packed && Shape(med[s])
    requires pos < |med[s].offs| == |med[s].alloc| && !med[s].alloc[pos]
    ensures hi <= SLAB_SIZE * s + UNIT * med[s].offs[pos] || SLAB_SIZE * s + UNIT * EndOf(med[s].offs, pos) <= p
  {
    hide PackedSlot;
    var off: nat, end: nat :| MedSlotAt(med[s], s, off, end, p, hi);
    var i: nat :| LiveIdx(med[s], i, off, end);
    if i < pos {
      BlocksApart(med[s], i, pos);
    } else {
      BlocksApart(med[s], pos, i);
      FreeBlockEnd(med[s], pos);
    }
  }

  lemma FreeBlockEnd(l: Large, pos: nat)
    requires Shape(l) && pos < |l.offs| && !l.alloc[pos]
    ensures BlockEnd(l, pos) == EndOf(l.offs, pos)
  {
  }

  // no byte of a live block is metadata
  lemma NoMetadata(regs: map<nat, Region>, end: nat, st: State, p: nat, i: nat)
    requires Tiles(regs, end) && st.allocs == Allocs(regs) && StateOk(st) && InBlock(st.live, p, i)
    ensures !Metadata(regs, st, i)
  {
    hide StateOk, Tiles, InHeader, InRegion, InMedium, InBlock;
    forall s | s in st.allocs ensures !InHeader(st.packed, s, i) {
      NotInHeader(regs, end, st, p, i, s);
    }
    forall r | r in regs && !regs[r].alloc ensures !InRegion(regs[r].size, r, i) {
      NotInRegion(regs, end, st, p, i, r);
    }
    forall a | a in st.free ensures !InMedium(st.free[a], a, i) {
      NotInMedium(regs, end, st, p, i, a);
    }
  }

  // ---------- the program's own stores ----------

  const WORD := 8

  // byte i is where the flags, or the footer, of slab t would be
  predicate HeadByte(t: nat, i: nat) {
    i == SLAB_SIZE * t
  }

  predicate TailByte(t: nat, i: nat) {
    SLAB_SIZE * (t + 1) - WORD <= i < SLAB_SIZE * (t + 1)
  }

  /** The program stores into byte i of a live block: whatever flags or footer that byte would
      lie in, were it the allocator's, may change arbitrarily.  The invariant does not notice. */
  method Store(h: Heap, ghost p: nat, i: nat, f: Flags, w: nat)
    requires h.Valid() && InBlock(h.live, p, i)
    modifies h.slabs`flags, h.slabs`footer
    ensures h.Valid() && h.live == old(h.live) && i / SLAB_SIZE < h.slabs.heapEnd == |h.slabs.flags| == |h.slabs.footer|
    ensures |old(h.slabs.flags)| == |old(h.slabs.footer)| == h.slabs.heapEnd
    ensures var t := i / SLAB_SIZE;
      && h.slabs.flags == (if HeadByte(t, i) then old(h.slabs.flags)[t := f] else old(h.slabs.flags))
      && h.slabs.footer == (if TailByte(t, i) then old(h.slabs.footer)[t := w] else old(h.slabs.footer))
  {
    hide StateOk, SlabHeap.Valid, MediumBins.Valid, FreeLists.Bins.Valid, Metadata, Allocs, InBlock;
    ghost var st := h.St();
    var t := i / SLAB_SIZE;
    HeapParts(h.slabs);
    NoMetadata(h.slabs.regs, h.slabs.heapEnd, st, p, i);
    StoreIsInside(h.slabs.regs, h.slabs.heapEnd, st, p, i);
    if i == SLAB_SIZE * t {
      NotAStart(h.slabs.regs, h.slabs.heapEnd, st, i);
      h.slabs.ScribbleStart(t, f);
      FlagsUntouched(st, t, f);
    }
    if i >= SLAB_SIZE * (t + 1) - WORD {
      NotAnEnd(h.slabs.regs, h.slabs.heapEnd, st, i);
      h.slabs.ScribbleEnd(t, w);
    }
  }

  lemma HeapParts(h: SlabHeap)
    requires h.Valid()
    ensures Tiles(h.regs, h.heapEnd) && |h.flags| == |h.footer| == h.heapEnd
  {
  }

  lemma StoreIsInside(regs: map<nat, Region>, end: nat, st: State, p: nat, i: nat)
    requires Tiles(regs, end) && st.allocs == Allocs(regs) && StateOk(st) && InBlock(st.live, p, i)
    ensures i / SLAB_SIZE < end
  {
    hide StateOk, Tiles;
    LiveApart(regs, end, st, p, p);
  }

  // no region starts at a slab whose first bytes are the program's
  lemma NotAStart(regs: map<nat, Region>, end: nat, st: State, i: nat)
    requires Tiles(regs, end) && st.allocs == Allocs(regs) && StateOk(st) && !Metadata(regs, st, i)
    requires i % SLAB_SIZE < WORD
    ensures i / SLAB_SIZE !in regs && i / SLAB_SIZE !in st.allocs
  {
    hide StateOk;
    if i / SLAB_SIZE in regs {
      StartIsMetadata(regs, end, st, i);
    }
  }

  lemma StartIsMetadata(regs: map<nat, Region>, end: nat, st: State, i: nat)
    requires Tiles(regs, end) && st.allocs == Allocs(regs) && i / SLAB_SIZE in regs && i % SLAB_SIZE < WORD
    ensures Metadata(regs, st, i)
  {
    var t := i / SLAB_SIZE;
    if regs[t].alloc {
      HeaderNonempty(st.packed, t);
      assert t in st.allocs && InHeader(st.packed, t, i);
    } else {
      assert InRegion(regs[t].size, t, i);
    }
  }

  lemma HeaderNonempty(packed: map<nat, Packed>, t: nat)
    ensures HeaderBytes(packed, t) >= UNIT
  {
  }

  // no free region ends with a slab whose last bytes are the program's
  lemma NotAnEnd(regs: map<nat, Region>, end: nat, st: State, i: nat)
    requires Tiles(regs, end) && !Metadata(regs, st, i)
    ensures forall r :: r in regs && r + regs[r].size == i / SLAB_SIZE + 1 ==> regs[r].alloc
  {
    forall r | r in regs && r + regs[r].size == i / SLAB_SIZE + 1 ensures regs[r].alloc {
      if !regs[r].alloc {
        assert InRegion(regs[r].size, r, i);
      }
    }
  }

  lemma FlagsUntouched(st: State, t: nat, f: Flags)
    requires StateOk(st) && t < |st.flags| && t !in st.allocs
    ensures StateOk(st.(flags := st.flags[t := f]))
  {
    hide PackedAll, LargeAll, SmallBinned, MedBinned, LiveOk, Owners;
  }
}
