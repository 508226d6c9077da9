/** What each operation of the allocator does to the state as a whole, on values: one slab
    changes, the bins and the live blocks follow, and the invariant of `AllocatorState` is
    kept. */
module AllocatorSteps {
  import opened AllocatorState
  import opened Arithmetic
  import opened HeaderWords
  import opened LargeSlabs
  import opened MediumBinLists
  import opened MediumBlocks
  import opened PackedSlabs
  import opened SlabHeaps

  datatype State = State(
    allocs: map<nat, nat>, flags: seq<Flags>, packed: map<nat, Packed>,
    large: map<nat, LargeHeader>, med: map<nat, Large>,
    bin: map<nat, nat>, free: map<nat, nat>, live: map<nat, nat>)

  ghost predicate StateOk(st: State) {
    && Owners(st.allocs, st.packed, st.med)
    && FlagBits(st.allocs, st.flags, st.packed)
    && PackedAll(st.packed)
    && LargeAll(st.large, st.med)
    && SmallBinned(st.bin, st.packed)
    && MedBinned(st.free, st.med)
    && LiveOk(st.live, st.packed, st.med)
  }

  lemma LayoutOf(st: State)
    requires StateOk(st)
    ensures Layout(st.allocs, st.packed, st.med)
  {
    hide FlagBits, PackedAll, SmallBinned, MedBinned, LiveOk, Shape, Rep;
  }

  // ---------- medium bins ----------

  // the bins hold the free blocks of slab s as l has them
  ghost predicate BinsFor(free: map<nat, nat>, s: nat, l: Large) {
    && (forall a :: a in free && a / SLAB_UNITS == s ==> FreeAt(l, a % SLAB_UNITS, free[a]))
    && (forall off, size :: FreeAt(l, off, size) ==> InBins(free, s, off, size))
  }

  ghost predicate BinsElsewhere(free: map<nat, nat>, free': map<nat, nat>, s: nat) {
    forall a: nat :: a / SLAB_UNITS != s ==> (a in free' <==> a in free) && (a in free ==> free'[a] == free[a])
  }

  lemma AddrSplit(s: nat, off: nat)
    requires off < SLAB_UNITS
    ensures (SLAB_UNITS * s + off) / SLAB_UNITS == s && (SLAB_UNITS * s + off) % SLAB_UNITS == off
  {
  }

  lemma FreeInside(l: Large, off: nat, size: nat)
    requires Shape(l) && FreeAt(l, off, size)
    ensures HEADER_UNITS <= off && off + size <= SLAB_UNITS && MIN_UNITS <= size
  {
    var i: nat :| FreeIdx(l, i, off, size);
    FreeIdxInside(l, i);
  }

  lemma FreeIdxInside(l: Large, i: nat)
    requires Shape(l) && i < |l.offs| && !l.alloc[i]
    ensures HEADER_UNITS <= l.offs[i] && l.offs[i] + MIN_UNITS <= EndOf(l.offs, i) <= SLAB_UNITS
  {
    BlockInside(l, i);
    assert !(l.hang && i == |l.offs| - 1);
    if i + 1 < |l.offs| {
      LastOffset(l, i + 1);
    }
  }

  lemma BinnedPut(free: map<nat, nat>, med: map<nat, Large>, free': map<nat, nat>, s: nat, l: Large)
    requires MedBinned(free, med) && (forall t :: t in med ==> Shape(med[t]))
    requires BinsFor(free', s, l) && BinsElsewhere(free, free', s)
    ensures MedBinned(free', med[s := l])
  {
    hide FreeAt, Shape;
    var med' := med[s := l];
    forall a | a in free' ensures BinnedBlock(med', a, free'[a]) {
      assert a / SLAB_UNITS != s ==> BinnedBlock(med, a, free[a]);
    }
    forall t, off, size | t in med' && FreeAt(med'[t], off, size) ensures InBins(free', t, off, size) {
      if t != s {
        assert InBins(free, t, off, size);
        FreeInside(med[t], off, size);
        AddrSplit(t, off);
      }
    }
  }

  ghost predicate NoBins(free: map<nat, nat>, s: nat) {
    forall a :: a in free ==> a / SLAB_UNITS != s
  }

  lemma ElsewhereAt(free: map<nat, nat>, free': map<nat, nat>, s: nat, t: nat, off: nat, size: nat)
    requires BinsElsewhere(free, free', s) && InBins(free, t, off, size) && t != s && off < SLAB_UNITS
    ensures InBins(free', t, off, size)
  {
    AddrSplit(t, off);
  }

  lemma BinnedDrop(free: map<nat, nat>, med: map<nat, Large>, free': map<nat, nat>, s: nat)
    requires MedBinned(free, med) && (forall t :: t in med ==> Shape(med[t]))
    requires NoBins(free', s) && BinsElsewhere(free, free', s)
    ensures MedBinned(free', med - {s})
  {
    hide FreeAt, Shape, InBins;
    var med' := med - {s};
    forall a | a in free' ensures BinnedBlock(med', a, free'[a]) {
      assert BinnedBlock(med, a, free[a]);
    }
    forall t, off, size | t in med' && FreeAt(med'[t], off, size) ensures InBins(free', t, off, size) {
      FreeInside(med[t], off, size);
      ElsewhereAt(free, free', s, t, off, size);
    }
  }

  // ---------- one slab of the state changes ----------

  // slab s is large, with the blocks l
  ghost function PutLarge(st: State, flags: seq<Flags>, s: nat, h: LargeHeader, l: Large, free: map<nat, nat>,
                          live: map<nat, nat>): State
  {
    State(st.allocs[s := l.n], flags, st.packed, st.large[s := h], st.med[s := l], st.bin, free, live)
  }

  lemma PutLargeOk(st: State, flags: seq<Flags>, s: nat, h: LargeHeader, l: Large, free: map<nat, nat>,
                   live: map<nat, nat>)
    requires StateOk(st) && s !in st.packed && LargeOk(h, l)
    requires FlagBits(st.allocs[s := l.n], flags, st.packed)
    requires BinsFor(free, s, l) && BinsElsewhere(st.free, free, s)
    requires LiveOk(live, st.packed, st.med[s := l])
    ensures StateOk(PutLarge(st, flags, s, h, l, free, live))
  {
    hide FlagBits, PackedAll, SmallBinned, LiveOk, Rep, MedBinned, BinsFor, BinsElsewhere, Shape;
    LayoutOf(st);
    BinnedPut(st.free, st.med, free, s, l);
  }

  // slab s is no longer allocated
  ghost function DropLarge(st: State, flags: seq<Flags>, s: nat, free: map<nat, nat>, live: map<nat, nat>): State {
    State(st.allocs - {s}, flags, st.packed, st.large - {s}, st.med - {s}, st.bin, free, live)
  }

  lemma DropLargeOk(st: State, flags: seq<Flags>, s: nat, free: map<nat, nat>, live: map<nat, nat>)
    requires StateOk(st) && s !in st.packed
    requires FlagBits(st.allocs - {s}, flags, st.packed)
    requires NoBins(free, s) && BinsElsewhere(st.free, free, s)
    requires LiveOk(live, st.packed, st.med - {s})
    ensures StateOk(DropLarge(st, flags, s, free, live))
  {
    hide FlagBits, PackedAll, SmallBinned, LiveOk, Rep, MedBinned, BinsElsewhere, NoBins, Shape;
    LayoutOf(st);
    BinnedDrop(st.free, st.med, free, s);
  }

  // slab s is packed, with the header h
  ghost function PutPacked(st: State, flags: seq<Flags>, s: nat, h: Packed, bin: map<nat, nat>, live: map<nat, nat>): State {
    State(st.allocs[s := 1], flags, st.packed[s := h], st.large, st.med, bin, st.free, live)
  }

  // slab s is in the bin of its size if it has a free block, the others are where they were
  ghost predicate BinFor(bin: map<nat, nat>, bin': map<nat, nat>, s: nat, h: Packed) {
    && bin' - {s} == bin - {s}
    && (s in bin' <==> !IsFull(h))
    && (s in bin' ==> h.size >= 16 && bin'[s] == PackedBinIdx(h.size))
  }

  lemma SmallPut(bin: map<nat, nat>, packed: map<nat, Packed>, bin': map<nat, nat>, s: nat, h: Packed)
    requires SmallBinned(bin, packed) && BinFor(bin, bin', s, h)
    ensures SmallBinned(bin', packed[s := h])
  {
    hide IsFull, PackedBinIdx;
    var packed' := packed[s := h];
    forall t | t in bin' ensures BinnedSlab(packed', t, bin'[t]) {
      if t != s {
        assert t in bin' - {s};
        assert BinnedSlab(packed, t, bin[t]);
      }
    }
    forall t | t in packed' && !IsFull(packed'[t]) ensures t in bin' {
      if t != s {
        assert t in bin - {s};
      }
    }
  }

  lemma PutPackedOk(st: State, flags: seq<Flags>, s: nat, h: Packed, bin: map<nat, nat>, live: map<nat, nat>)
    requires StateOk(st) && s !in st.med && PackedOk(h)
    requires FlagBits(st.allocs[s := 1], flags, st.packed[s := h])
    requires BinFor(st.bin, bin, s, h)
    requires LiveOk(live, st.packed[s := h], st.med)
    ensures StateOk(PutPacked(st, flags, s, h, bin, live))
  {
    hide FlagBits, PackedOk, SmallBinned, LiveOk, LargeAll, MedBinned, BinFor;
    SmallPut(st.bin, st.packed, bin, s, h);
  }

  ghost function DropPacked(st: State, flags: seq<Flags>, s: nat, bin: map<nat, nat>, live: map<nat, nat>): State {
    State(st.allocs - {s}, flags, st.packed - {s}, st.large, st.med, bin, st.free, live)
  }

  lemma DropPackedOk(st: State, flags: seq<Flags>, s: nat, live: map<nat, nat>)
    requires StateOk(st) && s !in st.med
    requires FlagBits(st.allocs - {s}, flags, st.packed - {s})
    requires LiveOk(live, st.packed - {s}, st.med)
    ensures StateOk(DropPacked(st, flags, s, st.bin - {s}, live))
  {
    hide FlagBits, PackedOk, LiveOk, LargeAll, MedBinned, IsFull, PackedBinIdx;
    forall t | t in st.bin - {s} ensures BinnedSlab(st.packed - {s}, t, (st.bin - {s})[t]) {
      assert BinnedSlab(st.packed, t, st.bin[t]);
    }
  }

  // ---------- flags ----------

  lemma FlagsAllocated(regs: map<nat, Region>, flags: seq<Flags>, flags': seq<Flags>, s: nat, n: nat, now: Flags,
                       packed: map<nat, Packed>, packed': map<nat, Packed>)
    requires FlagBits(Allocs(regs), flags, packed) && PackedKept(regs, flags, flags')
    requires s < |flags'| && now.packed == (s in packed')
    requires forall t :: t != s ==> (t in packed' <==> t in packed)
    ensures FlagBits(Allocs(regs)[s := n], flags'[s := now], packed')
  {
  }

  lemma FlagsKept(regs: map<nat, Region>, flags: seq<Flags>, flags': seq<Flags>, allocs: map<nat, nat>,
                  packed: map<nat, Packed>, packed': map<nat, Packed>)
    requires FlagBits(Allocs(regs), flags, packed) && PackedKept(regs, flags, flags')
    requires forall t :: t in allocs ==> t in Allocs(regs) && (t in packed' <==> t in packed)
    ensures FlagBits(allocs, flags', packed')
  {
  }

  // ---------- tiny blocks ----------

  lemma AddrApart(h: Packed, s: nat, i: nat, j: nat)
    requires h.size > 0 && BlockAddr(h, s, i) == BlockAddr(h, s, j)
    ensures i == j
  {
    if i < j {
      MulBounds(i, j, h.size);
    } else if j < i {
      MulBounds(j, i, h.size);
    }
  }

  lemma PackedSlotAdd(h: Packed, h': Packed, s: nat, j0: nat, p: nat, hi: nat)
    requires h.size > 0 && h'.size == h.size && IsFree(h, j0) && j0 < Capacity(h.size)
    requires forall j: nat :: IsFree(h', j) <==> IsFree(h, j) && j != j0
    ensures PackedSlot(h', s, p, hi) <==> PackedSlot(h, s, p, hi) || (p == BlockAddr(h, s, j0) && hi == p + h.size)
    ensures p == BlockAddr(h, s, j0) ==> !PackedSlot(h, s, p, hi)
  {
    hide IsFree, Capacity, BlockAddr;
    assert forall j: nat :: BlockAddr(h', s, j) == BlockAddr(h, s, j) by {
      SameAddrs(h, h', s);
    }
    if PackedSlot(h', s, p, hi) {
      var j: nat :| PackedSlotAt(h', s, j, p, hi);
      assert j != j0 ==> PackedSlotAt(h, s, j, p, hi);
    }
    if PackedSlot(h, s, p, hi) {
      var j: nat :| PackedSlotAt(h, s, j, p, hi);
      assert PackedSlotAt(h', s, j, p, hi);
      if p == BlockAddr(h, s, j0) {
        AddrApart(h, s, j, j0);
      }
    }
    if p == BlockAddr(h, s, j0) && hi == p + h.size {
      assert PackedSlotAt(h', s, j0, p, hi);
    }
  }

  lemma SameAddrs(h: Packed, h': Packed, s: nat)
    requires h'.size == h.size
    ensures forall j: nat :: BlockAddr(h', s, j) == BlockAddr(h, s, j)
  {
  }

  // where a tiny block is
  lemma TinyAddr(h: Packed, s: nat, j: nat)
    requires IsClass(h.size) && j < Capacity(h.size)
    ensures BlockAddr(h, s, j) >= UNIT && PtrSlab(BlockAddr(h, s, j)) == s
  {
    BlockInSlab(h.size, j);
    hide Capacity, AdjTinySize;
    assert SLAB_SIZE * s + 32 <= BlockAddr(h, s, j) < SLAB_SIZE * s + SLAB_SIZE;
  }

  lemma LiveTinyAdd(st: State, s: nat, h': Packed, j0: nat, size: nat)
    requires StateOk(st) && s in st.packed && IsFree(st.packed[s], j0) && j0 < Capacity(st.packed[s].size)
    requires h'.size == st.packed[s].size && (forall j: nat :: IsFree(h', j) <==> IsFree(st.packed[s], j) && j != j0)
    requires size <= h'.size
    ensures var p := BlockAddr(h', s, j0);
      p !in st.live && LiveOk(st.live[p := size], st.packed[s := h'], st.med)
  {
    hide FlagBits, LargeAll, SmallBinned, MedBinned, LiveOk, IsFree, Capacity, PackedSlot, BlockAddr, IsClass;
    var h := st.packed[s];
    var p0 := BlockAddr(h, s, j0);
    SameAddrs(h, h', s);
    assert IsClass(h.size) && h.size > 0 by {
      ClassOf(st, s);
    }
    TinyAddr(h, s, j0);
    var packed' := st.packed[s := h'];
    forall p, hi
      ensures Slot(packed', st.med, s, p, hi) <==> Slot(st.packed, st.med, s, p, hi) || (p == p0 && hi == p0 + h.size)
      ensures p == p0 ==> !Slot(st.packed, st.med, s, p, hi)
    {
      PackedSlotAdd(h, h', s, j0, p, hi);
    }
    AddLive(st.allocs, st.live, st.packed, st.med, packed', st.med, s, p0, p0 + h.size, size);
  }

  lemma ClassOf(st: State, s: nat)
    requires StateOk(st) && s in st.packed
    ensures PackedOk(st.packed[s]) && IsClass(st.packed[s].size) && st.packed[s].size > 0
    ensures s in st.allocs && st.allocs[s] == 1 && s !in st.med
  {
    hide FlagBits, LargeAll, SmallBinned, MedBinned, LiveOk, FreeSet;
  }

  // __packed_alloc on a slab with a free block: its address was not live, and is now
  lemma TinyTaken(st: State, s: nat, size: nat)
    requires StateOk(st) && s in st.packed && BitmapOk(st.packed[s]) && !IsFull(st.packed[s])
    requires size <= st.packed[s].size
    ensures var h := AllocBlock(st.packed[s]);
      var p := BlockAddr(h, s, LeastFree(st.packed[s]));
      var bin := if IsFull(h) then st.bin - {s} else st.bin;
      && p !in st.live && s in st.bin
      && StateOk(st.(packed := st.packed[s := h], bin := bin, live := st.live[p := size]))
  {
    hide FlagBits, LargeAll, SmallBinned, MedBinned, LiveOk, AllocBlock, BitmapOk, LeastFree, IsFull, FreeSet, IsFree;
    hide Capacity, BlockAddr, IsClass, PackedAll, Owners;
    var h0 := st.packed[s];
    var h := AllocBlock(h0);
    ClassOf(st, s);
    AllocOk(h0);
    LeastIs(h0);
    forall j: nat ensures IsFree(h, j) <==> IsFree(h0, j) && j != LeastFree(h0) {
      AllocFree(h0, j);
    }
    LiveTinyAdd(st, s, h, LeastFree(h0), size);
    var live := st.live[BlockAddr(h, s, LeastFree(h0)) := size];
    var bin := if IsFull(h) then st.bin - {s} else st.bin;
    InSmallBin(st, s);
    SizeOfClass(h.size);
    assert BinFor(st.bin, bin, s, h);
    FlagsSame(st, s, h);
    PutPackedOk(st, st.flags, s, h, bin, live);
    assert st.allocs[s := 1] == st.allocs;
  }

  lemma SizeOfClass(size: nat)
    requires IsClass(size)
    ensures size >= 16
  {
  }

  lemma InSmallBin(st: State, s: nat)
    requires StateOk(st) && s in st.packed
    ensures s in st.bin <==> !IsFull(st.packed[s])
    ensures s in st.bin ==> st.packed[s].size >= 16 && st.bin[s] == PackedBinIdx(st.packed[s].size)
  {
    hide FlagBits, LargeAll, MedBinned, LiveOk, PackedAll, Owners, IsFull, PackedBinIdx;
  }

  lemma FlagsSame(st: State, s: nat, h: Packed)
    requires StateOk(st) && s in st.packed
    ensures FlagBits(st.allocs[s := 1], st.flags, st.packed[s := h])
  {
    hide LargeAll, MedBinned, LiveOk, PackedAll, SmallBinned;
  }

  lemma NewSlots(h: Packed, s: nat, p: nat, hi: nat)
    requires h.size > 0 && Capacity(h.size) > 0 && (forall j: nat :: IsFree(h, j) <==> 1 <= j < Capacity(h.size))
    ensures PackedSlot(h, s, p, hi) <==> p == BlockAddr(h, s, 0) && hi == p + h.size
  {
    hide IsFree, Capacity, BlockAddr;
    if PackedSlot(h, s, p, hi) {
      var j: nat :| PackedSlotAt(h, s, j, p, hi);
      assert j == 0;
    }
    if p == BlockAddr(h, s, 0) && hi == p + h.size {
      assert PackedSlotAt(h, s, 0, p, hi);
    }
  }

  lemma LiveTinyNew(st: State, s: nat, h: Packed, size: nat)
    requires StateOk(st) && s !in st.allocs && IsClass(h.size) && size <= h.size
    requires forall j: nat :: IsFree(h, j) <==> 1 <= j < Capacity(h.size)
    ensures var p := BlockAddr(h, s, 0);
      p !in st.live && LiveOk(st.live[p := size], st.packed[s := h], st.med)
  {
    hide FlagBits, LargeAll, SmallBinned, MedBinned, LiveOk, IsFree, Capacity, PackedSlot, BlockAddr, IsClass;
    var p0 := BlockAddr(h, s, 0);
    SizeOfClass(h.size);
    CapacityBounds(h.size);
    TinyAddr(h, s, 0);
    var packed' := st.packed[s := h];
    forall p, hi
      ensures Slot(packed', st.med, s, p, hi) <==> Slot(st.packed, st.med, s, p, hi) || (p == p0 && hi == p0 + h.size)
      ensures !Slot(st.packed, st.med, s, p, hi)
    {
      NewSlots(h, s, p, hi);
    }
    AddLive(st.allocs, st.live, st.packed, st.med, packed', st.med, s, p0, p0 + h.size, size);
  }

  // __int_slab_init_packed_and_alloc
  lemma TinyNew(st: State, flags: seq<Flags>, s: nat, size: nat, req: nat)
    requires StateOk(st) && s !in st.allocs && IsClass(size) && req <= size
    requires FlagBits(st.allocs[s := 1], flags, st.packed[s := NewPacked(size)])
    ensures var h := NewPacked(size);
      var p := BlockAddr(h, s, 0);
      && p !in st.live && s !in st.bin && size >= 16
      && StateOk(PutPacked(st, flags, s, h, st.bin[s := PackedBinIdx(size)], st.live[p := req]))
  {
    hide FlagBits, LargeAll, SmallBinned, MedBinned, LiveOk, IsFull, IsFree, BitmapOk, FreeSet, NewPacked;
    hide Capacity, BlockAddr, IsClass, PackedBinIdx;
    var h := NewPacked(size);
    NewPackedOk(size);
    SizeOfClass(size);
    LiveTinyNew(st, s, h, req);
    NotBinned(st, s);
    assert !IsFull(h) by {
      CapacityBounds(size);
      FullIs(h);
      assert 1 in FreeSet(h) by {
        FreeSetHas(h, 1);
      }
    }
    PutPackedOk(st, flags, s, h, st.bin[s := PackedBinIdx(size)], st.live[BlockAddr(h, s, 0) := req]);
  }

  lemma FreeSetHas(h: Packed, j: nat)
    requires h.size > 0
    ensures j in FreeSet(h) <==> j < Capacity(h.size) && IsFree(h, j)
  {
  }

  lemma NotBinned(st: State, s: nat)
    requires StateOk(st) && s !in st.packed
    ensures s !in st.bin
  {
    hide FlagBits, LargeAll, MedBinned, LiveOk, PackedAll, IsFull, PackedBinIdx;
  }

  // ---------- freeing tiny blocks ----------

  lemma PackedSlotDrop(h: Packed, h': Packed, s: nat, j0: nat, p: nat, hi: nat)
    requires h.size > 0 && h'.size == h.size && j0 < Capacity(h.size)
    requires forall j: nat :: IsFree(h', j) <==> IsFree(h, j) || j == j0
    ensures PackedSlot(h', s, p, hi) <==> PackedSlot(h, s, p, hi) && p != BlockAddr(h, s, j0)
  {
    hide IsFree, Capacity, BlockAddr;
    SameAddrs(h, h', s);
    if PackedSlot(h', s, p, hi) {
      var j: nat :| PackedSlotAt(h', s, j, p, hi);
      assert PackedSlotAt(h, s, j, p, hi);
      if p == BlockAddr(h, s, j0) {
        AddrApart(h, s, j, j0);
      }
    }
    if PackedSlot(h, s, p, hi) && p != BlockAddr(h, s, j0) {
      var j: nat :| PackedSlotAt(h, s, j, p, hi);
      assert PackedSlotAt(h', s, j, p, hi);
    }
  }

  lemma LiveTinyDrop(st: State, s: nat, h': Packed, j0: nat)
    requires StateOk(st) && s in st.packed && j0 < Capacity(st.packed[s].size)
    requires h'.size == st.packed[s].size && (forall j: nat :: IsFree(h', j) <==> IsFree(st.packed[s], j) || j == j0)
    ensures LiveOk(st.live - {BlockAddr(st.packed[s], s, j0)}, st.packed[s := h'], st.med)
  {
    hide FlagBits, LargeAll, SmallBinned, MedBinned, LiveOk, IsFree, Capacity, PackedSlot, BlockAddr, IsClass, Layout;
    var h := st.packed[s];
    ClassOf(st, s);
    TinyAddr(h, s, j0);
    LayoutOf(st);
    var packed' := st.packed[s := h'];
    forall p, hi
      ensures Slot(packed', st.med, s, p, hi) <==> Slot(st.packed, st.med, s, p, hi) && p != BlockAddr(h, s, j0)
    {
      PackedSlotDrop(h, h', s, j0, p, hi);
    }
    DropLive(st.allocs, st.live, st.packed, st.med, packed', st.med, s, BlockAddr(h, s, j0));
  }

  lemma LiveTinyGone(st: State, s: nat, j0: nat)
    requires StateOk(st) && s in st.packed && j0 < Capacity(st.packed[s].size)
    requires forall j :: 0 <= j < Capacity(st.packed[s].size) && j != j0 ==> IsFree(st.packed[s], j)
    ensures LiveOk(st.live - {BlockAddr(st.packed[s], s, j0)}, st.packed - {s}, st.med)
  {
    hide FlagBits, LargeAll, SmallBinned, MedBinned, LiveOk, IsFree, Capacity, BlockAddr, IsClass, Layout;
    var h := st.packed[s];
    ClassOf(st, s);
    TinyAddr(h, s, j0);
    LayoutOf(st);
    forall p, hi | Slot(st.packed, st.med, s, p, hi) ensures p == BlockAddr(h, s, j0) {
      var j: nat :| PackedSlotAt(h, s, j, p, hi);
    }
    DropSlab(st.allocs, st.live, st.packed, st.med, s, BlockAddr(h, s, j0));
    assert st.med - {s} == st.med;
  }

  lemma BinForPartial(st: State, s: nat, h: Packed)
    requires BitmapOk(h) && FreeSet(h) != {} && h.size >= 16
    ensures BinFor(st.bin, st.bin[s := PackedBinIdx(h.size)], s, h)
  {
    hide BitmapOk, IsFull, FreeSet, PackedBinIdx;
    FullIs(h);
  }

  // __packed_free while another block of the slab stays allocated
  lemma TinyFreed(st: State, s: nat, idx: nat)
    requires StateOk(st) && s in st.packed && idx < Capacity(st.packed[s].size) && !IsFree(st.packed[s], idx)
    requires idx < 256 && (st.packed[s].size <= TWO_LEVEL ==> idx / 16 < |st.packed[s].f2|)
    requires (st.packed[s].size > TWO_LEVEL ==> idx < 64) && st.packed[s].cnt >= 1 && st.packed[s].size >= 16
    requires FreeBlock(st.packed[s], idx).cnt != 0
    ensures var h := FreeBlock(st.packed[s], idx);
      var p := BlockAddr(st.packed[s], s, idx);
      StateOk(st.(packed := st.packed[s := h], bin := st.bin[s := PackedBinIdx(h.size)], live := st.live - {p}))
  {
    hide FlagBits, LargeAll, SmallBinned, MedBinned, LiveOk, FreeBlock, BitmapOk, IsFull, FreeSet, IsFree, BinFor;
    hide Capacity, BlockAddr, IsClass, PackedBinIdx;
    var h0 := st.packed[s];
    var h := FreeBlock(h0, idx);
    ClassOf(st, s);
    FreeOk(h0, idx);
    forall j: nat ensures IsFree(h, j) <==> IsFree(h0, j) || j == idx {
      FreeFree(h0, idx, j);
    }
    LiveTinyDrop(st, s, h, idx);
    FreeSetHas(h, idx);
    BinForPartial(st, s, h);
    FlagsSame(st, s, h);
    PutPackedOk(st, st.flags, s, h, st.bin[s := PackedBinIdx(h.size)], st.live - {BlockAddr(h0, s, idx)});
    assert st.allocs[s := 1] == st.allocs;
  }

  // __packed_free of the last allocated block: the slab goes back
  lemma TinyGone(st: State, flags: seq<Flags>, s: nat, idx: nat)
    requires StateOk(st) && s in st.packed && idx < Capacity(st.packed[s].size) && !IsFree(st.packed[s], idx)
    requires idx < 256 && (st.packed[s].size <= TWO_LEVEL ==> idx / 16 < |st.packed[s].f2|)
    requires (st.packed[s].size > TWO_LEVEL ==> idx < 64) && st.packed[s].cnt >= 1
    requires FreeBlock(st.packed[s], idx).cnt == 0
    requires FlagBits(st.allocs - {s}, flags, st.packed - {s})
    ensures StateOk(DropPacked(st, flags, s, st.bin - {s}, st.live - {BlockAddr(st.packed[s], s, idx)}))
  {
    hide FlagBits, LargeAll, SmallBinned, MedBinned, LiveOk, FreeBlock, BitmapOk, IsFull, FreeSet, IsFree;
    hide Capacity, BlockAddr, IsClass;
    ClassOf(st, s);
    FreeOk(st.packed[s], idx);
    LiveTinyGone(st, s, idx);
    DropPackedOk(st, flags, s, st.live - {BlockAddr(st.packed[s], s, idx)});
  }

  // ---------- blocks of large slabs ----------

  ghost predicate OldLive(med: map<nat, Large>, s: nat, off: nat, end: nat) {
    s in med && LiveAt(med[s], off, end)
  }

  lemma MedSlotIs(l: Large, s: nat, p: nat, hi: nat, off: nat, end: nat)
    requires p == SLAB_SIZE * s + UNIT * off && hi == SLAB_SIZE * s + UNIT * end
    ensures MedSlot(l, s, p, hi) <==> LiveAt(l, off, end)
  {
    hide LiveAt;
    if LiveAt(l, off, end) {
      assert MedSlotAt(l, s, off, end, p, hi);
    }
  }

  lemma LiveLargeAdd(st: State, s: nat, l: Large, off0: nat, end0: nat, size: nat)
    requires StateOk(st) && Shape(l) && (s in st.allocs ==> s in st.med) && s !in st.packed
    requires forall off, end :: LiveAt(l, off, end) <==> OldLive(st.med, s, off, end) || (off == off0 && end == end0)
    requires forall end :: !OldLive(st.med, s, off0, end)
    requires UNIT * off0 + size <= UNIT * end0
    ensures var p := SLAB_SIZE * s + UNIT * off0;
      p !in st.live && LiveOk(st.live[p := size], st.packed, st.med[s := l])
  {
    hide FlagBits, LargeAll, SmallBinned, MedBinned, LiveOk, LiveAt, Shape;
    var p0, hi0 := SLAB_SIZE * s + UNIT * off0, SLAB_SIZE * s + UNIT * end0;
    MedSlotIs(l, s, p0, hi0, off0, end0);
    MedSlotRange(l, s, p0, hi0);
    var med' := st.med[s := l];
    forall p, hi
      ensures Slot(st.packed, med', s, p, hi) <==> Slot(st.packed, st.med, s, p, hi) || (p == p0 && hi == hi0)
      ensures p == p0 ==> !Slot(st.packed, st.med, s, p, hi)
    {
      MedSlotAdd(st.med, s, l, off0, end0, p, hi);
    }
    AddLive(st.allocs, st.live, st.packed, st.med, st.packed, med', s, p0, hi0, size);
  }

  lemma MedSlotAdd(med: map<nat, Large>, s: nat, l: Large, off0: nat, end0: nat, p: nat, hi: nat)
    requires forall off, end :: LiveAt(l, off, end) <==> OldLive(med, s, off, end) || (off == off0 && end == end0)
    requires forall end :: !OldLive(med, s, off0, end)
    ensures var p0, hi0 := SLAB_SIZE * s + UNIT * off0, SLAB_SIZE * s + UNIT * end0;
      && (MedSlot(l, s, p, hi) <==> (s in med && MedSlot(med[s], s, p, hi)) || (p == p0 && hi == hi0))
      && (p == p0 && s in med ==> !MedSlot(med[s], s, p, hi))
  {
    hide LiveAt;
    if MedSlot(l, s, p, hi) {
      var off, end :| MedSlotAt(l, s, off, end, p, hi);
      assert OldLive(med, s, off, end) ==> MedSlotAt(med[s], s, off, end, p, hi);
    }
    if s in med && MedSlot(med[s], s, p, hi) {
      var off, end :| MedSlotAt(med[s], s, off, end, p, hi);
      assert OldLive(med, s, off, end);
      assert MedSlotAt(l, s, off, end, p, hi);
    }
    if p == SLAB_SIZE * s + UNIT * off0 && hi == SLAB_SIZE * s + UNIT * end0 {
      assert MedSlotAt(l, s, off0, end0, p, hi);
    }
  }

  lemma LargeOf(st: State, s: nat)
    requires StateOk(st) && s in st.med
    ensures s in st.large && LargeOk(st.large[s], st.med[s]) && Shape(st.med[s])
    ensures s in st.allocs && st.allocs[s] == st.med[s].n && s !in st.packed
    ensures BinsFor(st.free, s, st.med[s])
  {
    BinsOf(st.free, st.med, s);
    hide FlagBits, SmallBinned, PackedAll, LiveOk, MedBinned, Shape, Rep, BinsFor;
  }

  lemma BinsOf(free: map<nat, nat>, med: map<nat, Large>, s: nat)
    requires MedBinned(free, med) && s in med
    ensures BinsFor(free, s, med[s])
  {
    hide FreeAt, InBins;
    forall a | a in free && a / SLAB_UNITS == s ensures FreeAt(med[s], a % SLAB_UNITS, free[a]) {
      assert BinnedBlock(med, a, free[a]);
    }
  }

  lemma FreeNotLive(l: Large, pos: nat, end: nat)
    requires Shape(l) && pos < |l.offs| && !l.alloc[pos]
    ensures !LiveAt(l, l.offs[pos], end)
  {
    if LiveAt(l, l.offs[pos], end) {
      var i: nat :| LiveIdx(l, i, l.offs[pos], end);
      OffsetsDiffer(l, i, pos);
    }
  }

  // ---------- bins of the free blocks of one slab ----------

  function Addr(s: nat, off: nat): nat {
    SLAB_UNITS * s + off
  }

  lemma AddrJoin(a: nat)
    ensures a == Addr(a / SLAB_UNITS, a % SLAB_UNITS)
  {
  }

  // b is the free map after the block at `gone` has left
  lemma BinsForLess(free: map<nat, nat>, s: nat, l: Large, l': Large, gone: nat)
    requires BinsFor(free, s, l) && gone < SLAB_UNITS
    requires forall off, size :: FreeAt(l', off, size) <==> FreeAt(l, off, size) && off != gone
    ensures BinsFor(free - {Addr(s, gone)}, s, l') && BinsElsewhere(free, free - {Addr(s, gone)}, s)
  {
    hide FreeAt;
    AddrSplit(s, gone);
    forall a | a in free - {Addr(s, gone)} && a / SLAB_UNITS == s ensures FreeAt(l', a % SLAB_UNITS, free[a]) {
      AddrJoin(a);
    }
  }

  // ... after a block has entered
  lemma BinsForMore(free: map<nat, nat>, s: nat, l: Large, l': Large, off0: nat, size0: nat)
    requires BinsFor(free, s, l) && off0 < SLAB_UNITS && Addr(s, off0) !in free
    requires forall off, size :: FreeAt(l', off, size) <==> FreeAt(l, off, size) || (off == off0 && size == size0)
    ensures BinsFor(free[Addr(s, off0) := size0], s, l') && BinsElsewhere(free, free[Addr(s, off0) := size0], s)
  {
    hide FreeAt;
    AddrSplit(s, off0);
    var free' := free[Addr(s, off0) := size0];
    forall off, size | FreeAt(l', off, size) ensures InBins(free', s, off, size) {
      assert FreeAt(l, off, size) ==> InBins(free, s, off, size);
    }
  }

  lemma BinsTaken(free: map<nat, nat>, s: nat, l: Large, pos: nat)
    requires BinsFor(free, s, l) && Shape(l) && pos < |l.offs| == |l.alloc| && !l.alloc[pos]
    ensures BinsFor(free - {Addr(s, l.offs[pos])}, s, Taken(l, pos))
    ensures BinsElsewhere(free, free - {Addr(s, l.offs[pos])}, s)
    ensures Addr(s, l.offs[pos]) in free && l.offs[pos] < SLAB_UNITS
    ensures free[Addr(s, l.offs[pos])] == EndOf(l.offs, pos) - l.offs[pos] >= MIN_UNITS
  {
    hide Shape, FreeAt, Taken, BinsElsewhere, BinsFor, EndOf;
    FreeIdxInside(l, pos);
    FreeAtIndex(l, pos);
    BinsForAt(free, s, l, l.offs[pos], EndOf(l.offs, pos) - l.offs[pos]);
    forall off, sz ensures FreeAt(Taken(l, pos), off, sz) <==> FreeAt(l, off, sz) && off != l.offs[pos] {
      TakenFrees(l, pos, off, sz);
    }
    BinsForLess(free, s, l, Taken(l, pos), l.offs[pos]);
  }

  lemma FreeAtIndex(l: Large, pos: nat)
    requires Shape(l) && pos < |l.offs| && !l.alloc[pos] && l.offs[pos] <= EndOf(l.offs, pos)
    ensures FreeAt(l, l.offs[pos], EndOf(l.offs, pos) - l.offs[pos])
  {
    assert FreeIdx(l, pos, l.offs[pos], EndOf(l.offs, pos) - l.offs[pos]);
  }

  lemma BinsForAt(free: map<nat, nat>, s: nat, l: Large, off: nat, size: nat)
    requires BinsFor(free, s, l) && FreeAt(l, off, size)
    ensures Addr(s, off) in free && free[Addr(s, off)] == size
  {
    hide FreeAt;
    assert InBins(free, s, off, size);
  }

  lemma BinsForHas(free: map<nat, nat>, s: nat, l: Large, off: nat)
    requires BinsFor(free, s, l) && off < SLAB_UNITS && Addr(s, off) in free
    ensures FreeAt(l, off, free[Addr(s, off)])
  {
    hide FreeAt;
    AddrSplit(s, off);
  }

  // no block starts inside block pos
  lemma NoneInside(l: Large, pos: nat, off: nat, size: nat)
    requires Shape(l) && pos < |l.offs| && l.offs[pos] < off < EndOf(l.offs, pos)
    ensures !FreeAt(l, off, size)
  {
    if FreeAt(l, off, size) {
      var i: nat :| FreeIdx(l, i, off, size);
      StartsApart(l, pos, i);
    }
  }

  lemma StartsApart(l: Large, pos: nat, i: nat)
    requires Shape(l) && pos < |l.offs| && i < |l.offs|
    ensures l.offs[i] <= l.offs[pos] || l.offs[i] >= EndOf(l.offs, pos)
  {
    hide Sizes, NoFreePair;
    if pos + 1 < i {
      assert l.offs[pos + 1] < l.offs[i];
    } else if i < pos {
      assert l.offs[i] < l.offs[pos];
    }
  }

  lemma BinsSplit(free: map<nat, nat>, s: nat, l: Large, pos: nat, u: nat)
    requires BinsFor(free, s, l) && Shape(l) && pos < |l.offs| == |l.alloc| && !l.alloc[pos]
    requires 0 < u && l.offs[pos] + u < EndOf(l.offs, pos)
    ensures var free' := (free - {Addr(s, l.offs[pos])})[Addr(s, l.offs[pos] + u) := EndOf(l.offs, pos) - l.offs[pos] - u];
      BinsFor(free', s, Split(l, pos, u)) && BinsElsewhere(free, free', s)
  {
    hide Shape, FreeAt, Taken, Split, EndOf, BinsFor, BinsElsewhere;
    BinsTaken(free, s, l, pos);
    FreeIdxInside(l, pos);
    var free1 := free - {Addr(s, l.offs[pos])};
    var off0, size0 := l.offs[pos] + u, EndOf(l.offs, pos) - l.offs[pos] - u;
    SplitFresh(free1, s, l, pos, off0);
    forall off, sz
      ensures FreeAt(Split(l, pos, u), off, sz) <==> FreeAt(Taken(l, pos), off, sz) || (off == off0 && sz == size0)
    {
      TakenFrees(l, pos, off, sz);
      SplitFrees(l, pos, u, off, sz);
    }
    BinsForMore(free1, s, Taken(l, pos), Split(l, pos, u), off0, size0);
    ElsewhereTwice(free, free1, free1[Addr(s, off0) := size0], s);
  }

  lemma SplitFresh(free: map<nat, nat>, s: nat, l: Large, pos: nat, off: nat)
    requires Shape(l) && pos < |l.offs| == |l.alloc| && !l.alloc[pos] && BinsFor(free, s, Taken(l, pos))
    requires l.offs[pos] < off < EndOf(l.offs, pos) && off < SLAB_UNITS
    ensures Addr(s, off) !in free
  {
    hide Shape, FreeAt, Taken, EndOf, BinsFor;
    if Addr(s, off) in free {
      BinsForHas(free, s, Taken(l, pos), off);
      TakenFrees(l, pos, off, free[Addr(s, off)]);
      NoneInside(l, pos, off, free[Addr(s, off)]);
    }
  }

  lemma ElsewhereTwice(a: map<nat, nat>, b: map<nat, nat>, c: map<nat, nat>, s: nat)
    requires BinsElsewhere(a, b, s) && BinsElsewhere(b, c, s)
    ensures BinsElsewhere(a, c, s)
  {
  }

  // ---------- taking a free medium block ----------

  function UnlessRemainder(l: Large, pos: nat, u: nat): Large
    requires pos < |l.offs| == |l.alloc|
  {
    if EndOf(l.offs, pos) >= l.offs[pos] + u + MIN_UNITS then Split(l, pos, u) else Taken(l, pos)
  }

  lemma LiveMediumTaken(st: State, s: nat, pos: nat, u: nat, req: nat)
    requires StateOk(st) && s in st.med && Shape(st.med[s]) && pos < |st.med[s].offs| && !st.med[s].alloc[pos]
    requires MIN_UNITS <= u && st.med[s].offs[pos] + u <= EndOf(st.med[s].offs, pos) && req <= UNIT * u
    ensures var p := SLAB_SIZE * s + UNIT * st.med[s].offs[pos];
      p !in st.live && LiveOk(st.live[p := req], st.packed, st.med[s := UnlessRemainder(st.med[s], pos, u)])
  {
    hide StateOk, Shape, LiveAt, Taken, Split, EndOf, LiveOk;
    LargeOf(st, s);
    var l := st.med[s];
    var end0 := if EndOf(l.offs, pos) >= l.offs[pos] + u + MIN_UNITS then l.offs[pos] + u else EndOf(l.offs, pos);
    forall off, end
      ensures LiveAt(UnlessRemainder(l, pos, u), off, end)
        <==> OldLive(st.med, s, off, end) || (off == l.offs[pos] && end == end0)
    {
      TakenLive(l, pos, off, end);
      SplitLive(l, pos, u, off, end);
    }
    forall end ensures !OldLive(st.med, s, l.offs[pos], end) {
      FreeNotLive(l, pos, end);
    }
    UnlessRemainderOk(l, pos, u);
    LiveLargeAdd(st, s, UnlessRemainder(l, pos, u), l.offs[pos], end0, req);
  }

  lemma UnlessRemainderOk(l: Large, pos: nat, u: nat)
    requires Shape(l) && pos < |l.offs| && !l.alloc[pos] && MIN_UNITS <= u && l.offs[pos] + u <= EndOf(l.offs, pos)
    ensures Ok(UnlessRemainder(l, pos, u)) && Shape(UnlessRemainder(l, pos, u)) && UnlessRemainder(l, pos, u).n == l.n
  {
    hide Sizes, NoFreePair, Ascending;
    if EndOf(l.offs, pos) >= l.offs[pos] + u + MIN_UNITS {
      SplitOk(l, pos, u);
    } else {
      TakenOk(l, pos);
    }
  }

  // the header after the free block of `size` units at `off` is taken for u units, whole or in part
  function TakenHeader(h: LargeHeader, pos: nat, off: nat, size: nat, u: nat): LargeHeader
    requires pos < MAX_BLOCKS && (size >= u + MIN_UNITS ==> pos < MAX_BLOCKS - 1)
  {
    if size >= u + MIN_UNITS then
      h.(h := Header(PushWord(h.h.mem, pos, OffsetByte(off + u)), SplitBits(h.h.bits, pos)))
    else h.(h := Header(h.h.mem, TakeBits(h.h.bits, pos)))
  }

  lemma TakenHeaderOk(h: LargeHeader, l: Large, pos: nat, size: nat, u: nat)
    requires LargeOk(h, l) && pos < |l.offs| && !l.alloc[pos] && MIN_UNITS <= u <= size
    requires EndOf(l.offs, pos) == l.offs[pos] + size
    ensures pos < MAX_BLOCKS && (size >= u + MIN_UNITS ==> pos < MAX_BLOCKS - 1)
    ensures LargeOk(TakenHeader(h, pos, l.offs[pos], size, u), UnlessRemainder(l, pos, u))
  {
    hide Sizes, NoFreePair, Ascending, Taken, Split, PushWord, SplitBits, OffsetByte, TakeBits, AllocBit, AdjByte, ByteAt;
    BlockCount(l);
    FreeIdxInside(l, pos);
    UnlessRemainderOk(l, pos, u);
    if size >= u + MIN_UNITS {
      SplitCount(l, pos);
      SplitRep(h.h, l, pos, u);
    } else {
      TakenRep(h.h, l, pos);
    }
  }

  // __int_find_medium_block, once a block that fits has been found
  lemma MediumTaken(st: State, s: nat, pos: nat, size: nat, u: nat, req: nat)
    requires StateOk(st) && s in st.med && s in st.large && LargeOk(st.large[s], st.med[s])
    requires pos < |st.med[s].offs| == |st.med[s].alloc| && !st.med[s].alloc[pos]
    requires EndOf(st.med[s].offs, pos) == st.med[s].offs[pos] + size
    requires MIN_UNITS <= u <= size && req <= UNIT * u
    requires pos < MAX_BLOCKS && (size >= u + MIN_UNITS ==> pos < MAX_BLOCKS - 1)
    ensures var l := st.med[s];
      var a := Addr(s, l.offs[pos]);
      && a in st.free && st.free[a] == size && UNIT * a !in st.live
      && StateOk(st.(large := st.large[s := TakenHeader(st.large[s], pos, l.offs[pos], size, u)],
                     med := st.med[s := UnlessRemainder(l, pos, u)],
                     free := TakenFrom(st.free, a, u), live := st.live[UNIT * a := req]))
  {
    hide StateOk, Shape, Rep, Taken, Split, LiveOk, TakenHeader, BinsFor, BinsElsewhere;
    LargeOf(st, s);
    var l := st.med[s];
    var a := Addr(s, l.offs[pos]);
    var h' := TakenHeader(st.large[s], pos, l.offs[pos], size, u);
    UnlessRemainderOk(l, pos, u);
    BinsTaken(st.free, s, l, pos);
    if size >= u + MIN_UNITS {
      BinsSplit(st.free, s, l, pos, u);
    }
    TakenHeaderOk(st.large[s], l, pos, size, u);
    LiveMediumTaken(st, s, pos, u, req);
    FlagsOf(st, s);
    assert UNIT * a == SLAB_SIZE * s + UNIT * l.offs[pos];
    PutLargeOk(st, st.flags, s, h', UnlessRemainder(l, pos, u), TakenFrom(st.free, a, u), st.live[UNIT * a := req]);
    assert st.allocs[s := l.n] == st.allocs;
  }

  // a block in the bins is a free block of its slab
  lemma BinnedIndex(st: State, a: nat) returns (pos: nat)
    requires StateOk(st) && a in st.free
    ensures var s := a / SLAB_UNITS;
      && s in st.med && s in st.large && LargeOk(st.large[s], st.med[s]) && Shape(st.med[s])
      && pos < |st.med[s].offs| == |st.med[s].alloc| && !st.med[s].alloc[pos]
      && st.med[s].offs[pos] == a % SLAB_UNITS && EndOf(st.med[s].offs, pos) == a % SLAB_UNITS + st.free[a]
      && a == Addr(s, st.med[s].offs[pos])
  {
    hide StateOk, Rep, Ascending, Sizes, NoFreePair, EndOf;
    var s := a / SLAB_UNITS;
    InMedium(st, a);
    LargeOf(st, s);
    AddrJoin(a);
    pos :| FreeIdx(st.med[s], pos, a % SLAB_UNITS, st.free[a]);
  }

  lemma InMedium(st: State, a: nat)
    requires StateOk(st) && a in st.free
    ensures a / SLAB_UNITS in st.med && FreeAt(st.med[a / SLAB_UNITS], a % SLAB_UNITS, st.free[a])
  {
    hide LargeAll, FlagBits, LiveOk, SmallBinned, PackedAll, Owners, FreeAt;
    assert BinnedBlock(st.med, a, st.free[a]);
  }

  // the free blocks do not overlap
  lemma FreesApart(st: State)
    requires StateOk(st)
    ensures Apart(st.free)
  {
    hide StateOk, EndOf, Shape, Rep;
    forall a, b | a in st.free && b in st.free && a < b ensures a + st.free[a] <= b {
      var i := BinnedIndex(st, a);
      var j := BinnedIndex(st, b);
      FreeIdxInside(st.med[a / SLAB_UNITS], i);
      if a / SLAB_UNITS == b / SLAB_UNITS {
        StartsApart(st.med[a / SLAB_UNITS], i, j);
      } else {
        DivOrder(a, b);
      }
    }
  }

  lemma DivOrder(a: nat, b: nat)
    requires a < b && a / SLAB_UNITS != b / SLAB_UNITS
    ensures a / SLAB_UNITS * SLAB_UNITS + SLAB_UNITS <= b
  {
  }

  lemma FlagsOf(st: State, s: nat)
    requires StateOk(st) && s in st.med
    ensures FlagBits(st.allocs[s := st.med[s].n], st.flags, st.packed)
  {
    hide LargeAll, MedBinned, LiveOk, PackedAll, SmallBinned;
  }

  // ---------- new large slabs ----------

  lemma NoBinsOf(free: map<nat, nat>, med: map<nat, Large>, s: nat)
    requires MedBinned(free, med) && s !in med
    ensures NoBins(free, s)
  {
    hide FreeAt;
    forall a | a in free ensures a / SLAB_UNITS != s {
      assert BinnedBlock(med, a, free[a]);
    }
  }

  function WithBlock(free: map<nat, nat>, has: bool, a: nat, size: nat): map<nat, nat> {
    if has then free[a := size] else free
  }

  lemma BinsForFresh(free: map<nat, nat>, s: nat, l: Large, has: bool, off0: nat, size0: nat)
    requires NoBins(free, s) && off0 < SLAB_UNITS
    requires forall off, size :: FreeAt(l, off, size) <==> has && off == off0 && size == size0
    ensures Addr(s, off0) !in free
    ensures BinsFor(WithBlock(free, has, Addr(s, off0), size0), s, l)
    ensures BinsElsewhere(free, WithBlock(free, has, Addr(s, off0), size0), s)
  {
    hide FreeAt;
    AddrSplit(s, off0);
  }

  // a new slab with one allocated block, and a free one if `has`
  lemma LargeNew(st: State, flags: seq<Flags>, s: nat, h: LargeHeader, l: Large, off0: nat, end0: nat,
                 has: bool, foff: nat, fsize: nat, req: nat)
    requires StateOk(st) && s !in st.allocs && LargeOk(h, l) && FlagBits(st.allocs[s := l.n], flags, st.packed)
    requires forall off, end :: LiveAt(l, off, end) <==> off == off0 && end == end0
    requires forall off, size :: FreeAt(l, off, size) <==> has && off == foff && size == fsize
    requires foff < SLAB_UNITS && UNIT * off0 + req <= UNIT * end0
    ensures var p := SLAB_SIZE * s + UNIT * off0;
      && p !in st.live && Addr(s, foff) !in st.free
      && StateOk(PutLarge(st, flags, s, h, l, WithBlock(st.free, has, Addr(s, foff), fsize), st.live[p := req]))
  {
    hide StateOk, Ok, Rep, FlagBits, LiveAt, FreeAt, LiveOk, WithBlock, BinsFor, BinsElsewhere;
    NewSlab(st, s);
    BinsForFresh(st.free, s, l, has, foff, fsize);
    assert Shape(l) by {
      ShapeOf(l);
    }
    LiveLargeAdd(st, s, l, off0, end0, req);
    PutLargeOk(st, flags, s, h, l, WithBlock(st.free, has, Addr(s, foff), fsize),
               st.live[SLAB_SIZE * s + UNIT * off0 := req]);
  }

  lemma ShapeOf(l: Large)
    requires Ok(l)
    ensures Shape(l)
  {
    hide Shape;
  }

  lemma NewSlab(st: State, s: nat)
    requires StateOk(st) && s !in st.allocs
    ensures s !in st.med && s !in st.packed && s !in st.bin && NoBins(st.free, s)
  {
    hide FlagBits, LargeAll, PackedAll, LiveOk, MedBinned, SmallBinned, NoBins;
    NotBinned(st, s);
    NoBinsOf(st.free, st.med, s);
  }

  function NewMediumHeader(mem: bv64, u: nat): LargeHeader {
    LargeHeader(NewHeader(mem, NewMedium(u).offs, 1), 1)
  }

  // __int_slab_init_large_and_alloc for one slab
  lemma MediumNew(st: State, flags: seq<Flags>, s: nat, mem: bv64, u: nat, req: nat)
    requires StateOk(st) && s !in st.allocs && FlagBits(st.allocs[s := 1], flags, st.packed)
    requires MIN_UNITS <= u < SLAB_UNITS && ByteAt(mem, 0) != 0 && req <= UNIT * u
    ensures var p := SLAB_SIZE * s + UNIT * HEADER_UNITS;
      var has := SLAB_UNITS >= u + HEADER_UNITS + MIN_UNITS;
      var a := Addr(s, u + HEADER_UNITS);
      && p !in st.live && (has ==> a !in st.free)
      && StateOk(PutLarge(st, flags, s, NewMediumHeader(mem, u), NewMedium(u),
                          WithBlock(st.free, has, a, SLAB_UNITS - u - HEADER_UNITS), st.live[p := req]))
  {
    hide StateOk, Ok, FlagBits, LiveAt, FreeAt, ByteAt, NewHeader, Rep, WithBlock;
    var l := NewMedium(u);
    var has := SLAB_UNITS >= u + HEADER_UNITS + MIN_UNITS;
    NewMediumOk(u);
    NewRep(mem, l.offs, l.alloc, 1);
    forall off: nat, z: nat
      ensures LiveAt(l, off, z) <==> off == HEADER_UNITS && z == if has then u + HEADER_UNITS else SLAB_UNITS
      ensures FreeAt(l, off, z) <==> has && off == u + HEADER_UNITS && off + z == SLAB_UNITS
    {
      NewMediumBlocks(u, off, z);
    }
    if has {
      LargeNew(st, flags, s, NewMediumHeader(mem, u), l, HEADER_UNITS, u + HEADER_UNITS,
               true, u + HEADER_UNITS, SLAB_UNITS - u - HEADER_UNITS, req);
    } else {
      LargeNew(st, flags, s, NewMediumHeader(mem, u), l, HEADER_UNITS, SLAB_UNITS, false, 0, 0, req);
      NoBlock(st.free, Addr(s, u + HEADER_UNITS), Addr(s, 0), SLAB_UNITS - u - HEADER_UNITS, 0);
    }
  }

  lemma NoBlock(free: map<nat, nat>, a: nat, b: nat, m: nat, n: nat)
    ensures WithBlock(free, false, a, m) == WithBlock(free, false, b, n)
  {
  }

  // the slabs that req_slabs_for_size asks for
  function SlabsFor(u: nat): nat {
    (u + HEADER_UNITS + SLAB_UNITS - 1) / SLAB_UNITS
  }

  lemma SlabsForIs(u: nat)
    ensures SLAB_UNITS * (SlabsFor(u) - 1) < u + HEADER_UNITS <= SLAB_UNITS * SlabsFor(u)
    ensures u >= SLAB_UNITS ==> SlabsFor(u) > 1 && SLAB_UNITS - u % SLAB_UNITS + u == SLAB_UNITS * SlabsFor(u)
    ensures u < SLAB_UNITS ==> SlabsFor(u) == 1
  {
  }

  function NewLargeHeader(mem: bv64, n: nat, u: nat): LargeHeader {
    var l := NewLarge(n, u);
    LargeHeader(NewHeader(mem, l.offs, if |l.offs| == 2 then 2 else 1), n)
  }

  // __int_slab_init_large_and_alloc for several slabs
  lemma HangingNew(st: State, flags: seq<Flags>, s: nat, mem: bv64, u: nat, req: nat)
    requires StateOk(st) && s !in st.allocs && FlagBits(st.allocs[s := SlabsFor(u)], flags, st.packed)
    requires u >= SLAB_UNITS && ByteAt(mem, 0) != 0 && req <= UNIT * u
    ensures var n := SlabsFor(u);
      var start := SLAB_UNITS - u % SLAB_UNITS;
      var has := start >= HEADER_UNITS + MIN_UNITS;
      var p := SLAB_SIZE * s + UNIT * (if has then start else HEADER_UNITS);
      && p !in st.live && Addr(s, HEADER_UNITS) !in st.free
      && StateOk(PutLarge(st, flags, s, NewLargeHeader(mem, n, u), NewLarge(n, u),
                          WithBlock(st.free, has, Addr(s, HEADER_UNITS), start - HEADER_UNITS), st.live[p := req]))
  {
    hide StateOk, Ok, FlagBits, LiveAt, FreeAt, ByteAt, NewHeader, Rep, WithBlock, SlabsFor;
    SlabsForIs(u);
    var n := SlabsFor(u);
    var l := NewLarge(n, u);
    var start := SLAB_UNITS - u % SLAB_UNITS;
    var has := start >= HEADER_UNITS + MIN_UNITS;
    var off0 := if has then start else HEADER_UNITS;
    NewLargeOk(n, u);
    NewRep(mem, l.offs, l.alloc, if |l.offs| == 2 then 2 else 1);
    forall off, z
      ensures LiveAt(l, off, z) <==> off == off0 && z == SLAB_UNITS * n
      ensures FreeAt(l, off, z) <==> has && off == HEADER_UNITS && z == start - HEADER_UNITS
    {
      NewLargeBlocks(n, u, off, z);
    }
    LargeNew(st, flags, s, NewLargeHeader(mem, n, u), l, off0, SLAB_UNITS * n,
             has, HEADER_UNITS, start - HEADER_UNITS, req);
  }

  // ---------- freeing a block of a large slab ----------

  function Without(free: map<nat, nat>, gone: bool, a: nat): map<nat, nat> {
    if gone then free - {a} else free
  }

  function PrevAddr(s: nat, l: Large, idx: nat): nat {
    if 0 < idx <= |l.offs| then Addr(s, l.offs[idx - 1]) else 0
  }

  function NextAddr(s: nat, l: Large, idx: nat): nat {
    if idx + 1 < |l.offs| then Addr(s, l.offs[idx + 1]) else 0
  }

  // the bins after the free neighbours of block idx have left them
  function Unlinked(free: map<nat, nat>, s: nat, l: Large, idx: nat): map<nat, nat> {
    Without(Without(free, PrevFree(l, idx), PrevAddr(s, l, idx)), NextFree(l, idx), NextAddr(s, l, idx))
  }

  // what is left in the bins of slab s are the untouched free blocks
  ghost predicate OthersBinned(free: map<nat, nat>, s: nat, l: Large, idx: nat)
    requires idx < |l.offs| == |l.alloc|
  {
    && (forall a :: a in free && a / SLAB_UNITS == s ==> OtherFree(l, idx, a % SLAB_UNITS, free[a]))
    && (forall off, size :: OtherFree(l, idx, off, size) ==> InBins(free, s, off, size))
  }

  lemma UnlinkedElsewhere(free: map<nat, nat>, s: nat, l: Large, idx: nat)
    requires Shape(l) && idx < |l.offs| == |l.alloc|
    ensures BinsElsewhere(free, Unlinked(free, s, l, idx), s)
  {
    hide Shape;
    if PrevFree(l, idx) {
      FreeIdxInside(l, idx - 1);
      AddrSplit(s, l.offs[idx - 1]);
    }
    if NextFree(l, idx) {
      FreeIdxInside(l, idx + 1);
      AddrSplit(s, l.offs[idx + 1]);
    }
  }

  lemma UnlinkedFrom(free: map<nat, nat>, s: nat, l: Large, idx: nat, a: nat)
    requires BinsFor(free, s, l) && idx < |l.offs| == |l.alloc|
    requires a in Unlinked(free, s, l, idx) && a / SLAB_UNITS == s
    ensures OtherFree(l, idx, a % SLAB_UNITS, Unlinked(free, s, l, idx)[a])
  {
    hide FreeAt;
    AddrJoin(a);
  }

  lemma UnlinkedTo(free: map<nat, nat>, s: nat, l: Large, idx: nat, off: nat, size: nat)
    requires BinsFor(free, s, l) && idx < |l.offs| == |l.alloc| && OtherFree(l, idx, off, size)
    ensures InBins(Unlinked(free, s, l, idx), s, off, size)
  {
    hide FreeAt, BinsFor;
    BinsForAt(free, s, l, off, size);
  }

  lemma UnlinkedOk(free: map<nat, nat>, s: nat, l: Large, idx: nat)
    requires BinsFor(free, s, l) && Shape(l) && idx < |l.offs| == |l.alloc|
    ensures OthersBinned(Unlinked(free, s, l, idx), s, l, idx) && BinsElsewhere(free, Unlinked(free, s, l, idx), s)
    ensures PrevFree(l, idx) ==> PrevAddr(s, l, idx) in free
    ensures NextFree(l, idx) ==> NextAddr(s, l, idx) in Without(free, PrevFree(l, idx), PrevAddr(s, l, idx))
  {
    hide Shape, FreeAt, BinsFor, Unlinked, OtherFree, InBins, BinsElsewhere;
    UnlinkedElsewhere(free, s, l, idx);
    UnlinkedHad(free, s, l, idx);
    forall a | a in Unlinked(free, s, l, idx) && a / SLAB_UNITS == s
      ensures OtherFree(l, idx, a % SLAB_UNITS, Unlinked(free, s, l, idx)[a])
    {
      UnlinkedFrom(free, s, l, idx, a);
    }
    forall off, size | OtherFree(l, idx, off, size) ensures InBins(Unlinked(free, s, l, idx), s, off, size) {
      UnlinkedTo(free, s, l, idx, off, size);
    }
  }

  lemma UnlinkedHad(free: map<nat, nat>, s: nat, l: Large, idx: nat)
    requires BinsFor(free, s, l) && Shape(l) && idx < |l.offs| == |l.alloc|
    ensures PrevFree(l, idx) ==> PrevAddr(s, l, idx) in free
    ensures NextFree(l, idx) ==> NextAddr(s, l, idx) in Without(free, PrevFree(l, idx), PrevAddr(s, l, idx))
  {
    hide Shape, FreeAt, BinsFor, EndOf;
    if PrevFree(l, idx) {
      FreeIdxInside(l, idx - 1);
      FreeAtIndex(l, idx - 1);
      BinsForAt(free, s, l, l.offs[idx - 1], EndOf(l.offs, idx - 1) - l.offs[idx - 1]);
    }
    if NextFree(l, idx) {
      FreeIdxInside(l, idx + 1);
      FreeAtIndex(l, idx + 1);
      BinsForAt(free, s, l, l.offs[idx + 1], EndOf(l.offs, idx + 1) - l.offs[idx + 1]);
      if PrevFree(l, idx) {
        StartsDiffer(l, idx - 1, idx + 1);
      }
    }
  }

  lemma StartsDiffer(l: Large, i: nat, j: nat)
    requires Shape(l) && i < |l.offs| && j < |l.offs| && i != j
    ensures l.offs[i] != l.offs[j]
  {
    OffsetsDiffer(l, i, j);
  }

  // the merged block enters its bin, unless the block before it took it
  function Relinked(free: map<nat, nat>, s: nat, l: Large, idx: nat): map<nat, nat>
    requires idx < |l.offs| == |l.alloc| && MergedStart(l, idx) <= MergedEnd(l, idx)
  {
    WithBlock(free, !Absorbed(l, idx), Addr(s, MergedStart(l, idx)), MergedEnd(l, idx) - MergedStart(l, idx))
  }

  // the merged block lies in the first slab, and starts where nothing in the bins does
  lemma MergedInsideSlab(l: Large, idx: nat)
    requires Shape(l) && idx < |l.offs| == |l.alloc| && l.alloc[idx]
    ensures MergedStart(l, idx) <= MergedEnd(l, idx) <= SLAB_UNITS
    ensures !Absorbed(l, idx) ==> HEADER_UNITS <= MergedStart(l, idx) < SLAB_UNITS
    ensures forall size :: !OtherFree(l, idx, MergedStart(l, idx), size)
  {
    hide Sizes, NoFreePair;
    var lo, last := MergeLo(l, idx), MergeHi(l, idx) - 1;
    assert lo < last ==> l.offs[lo] < l.offs[last];
    assert last + 1 < |l.offs| ==> l.offs[last] < l.offs[last + 1];
    LastOffset(l, last);
    if last + 1 < |l.offs| {
      LastOffset(l, last + 1);
    }
    BlockInside(l, lo);
    forall size ensures !OtherFree(l, idx, MergedStart(l, idx), size) {
      MergedIsNew(l, idx, size);
    }
  }

  lemma MergedIsNew(l: Large, idx: nat, size: nat)
    requires Ascending(l.offs) && idx < |l.offs| == |l.alloc| && l.alloc[idx]
    ensures !OtherFree(l, idx, MergedStart(l, idx), size)
  {
    forall i: nat ensures !(FreeIdx(l, i, MergedStart(l, idx), size) && !PrevFree(l, idx)) {
      if i < |l.offs| && i != idx {
        OffsetsDiffer(l, i, idx);
      }
    }
  }

  lemma RelinkedOk(free: map<nat, nat>, s: nat, l: Large, idx: nat)
    requires Shape(l) && idx < |l.offs| == |l.alloc| && l.alloc[idx] && OthersBinned(free, s, l, idx)
    requires MergedStart(l, idx) <= MergedEnd(l, idx)
    ensures BinsFor(Relinked(free, s, l, idx), s, Freed(l, idx)) && BinsElsewhere(free, Relinked(free, s, l, idx), s)
    ensures !Absorbed(l, idx) ==> Addr(s, MergedStart(l, idx)) !in free
  {
    hide Shape, FreeAt, Absorbed, Freed, OtherFree, MergedStart, MergedEnd;
    MergedInsideSlab(l, idx);
    var off0, size0 := MergedStart(l, idx), MergedEnd(l, idx) - MergedStart(l, idx);
    forall off, size
      ensures FreeAt(Freed(l, idx), off, size) <==>
        (!Absorbed(l, idx) && off == off0 && size == size0) || OtherFree(l, idx, off, size)
    {
      FreedFrees(l, idx, off, size);
    }
    if !Absorbed(l, idx) {
      AddrSplit(s, off0);
    }
  }

  lemma MedSlotFreed(l: Large, s: nat, idx: nat, p: nat, hi: nat)
    requires Shape(l) && idx < |l.offs| == |l.alloc| && l.alloc[idx]
    requires MedSlot(l, s, p, hi) && p != SLAB_SIZE * s + UNIT * l.offs[idx]
    ensures exists hi' :: hi <= hi' && MedSlot(Freed(l, idx), s, p, hi')
  {
    hide Shape, LiveAt, Freed;
    var off: nat, end: nat :| MedSlotAt(l, s, off, end, p, hi);
    FreedLive(l, idx, off);
    var end': nat :| end <= end' && LiveAt(Freed(l, idx), off, end');
    var hi' := SLAB_SIZE * s + UNIT * end';
    assert MedSlotAt(Freed(l, idx), s, off, end', p, hi');
    assert MedSlot(Freed(l, idx), s, p, hi');
  }

  lemma MedSlotKept(l: Large, s: nat, idx: nat, p: nat, hi: nat)
    requires Shape(l) && idx < |l.offs| == |l.alloc| && l.alloc[idx] && MedSlot(Freed(l, idx), s, p, hi)
    ensures p != SLAB_SIZE * s + UNIT * l.offs[idx] && exists hi' :: MedSlot(l, s, p, hi')
  {
    hide Shape, LiveAt, Freed;
    var off, end :| MedSlotAt(Freed(l, idx), s, off, end, p, hi);
    FreedLive(l, idx, off);
    var end': nat :| LiveAt(l, off, end');
    var hi' := SLAB_SIZE * s + UNIT * end';
    assert MedSlotAt(l, s, off, end', p, hi');
    assert MedSlot(l, s, p, hi');
  }

  lemma StartInside(l: Large, s: nat, idx: nat)
    requires Shape(l) && idx < |l.offs|
    ensures var p := SLAB_SIZE * s + UNIT * l.offs[idx];
      p >= UNIT && PtrSlab(p) == s
  {
    BlockInside(l, idx);
    LastOffset(l, idx);
  }

  // the blocks of the slab other than the freed one stay, and no others appear
  lemma SlotsFreed(packed: map<nat, Packed>, med: map<nat, Large>, s: nat, idx: nat)
    requires s in med && s !in packed && Shape(med[s])
    requires idx < |med[s].offs| == |med[s].alloc| && med[s].alloc[idx]
    ensures var med' := med[s := Freed(med[s], idx)];
      var p0 := SLAB_SIZE * s + UNIT * med[s].offs[idx];
      && (forall p, hi :: Slot(packed, med, s, p, hi) && p != p0 ==> exists hi' :: hi <= hi' && Slot(packed, med', s, p, hi'))
      && (forall p, hi :: Slot(packed, med', s, p, hi) ==> p != p0 && exists hi' :: Slot(packed, med, s, p, hi'))
  {
    hide Shape, Freed, MedSlot;
    var l := med[s];
    var p0 := SLAB_SIZE * s + UNIT * l.offs[idx];
    var med' := med[s := Freed(l, idx)];
    forall p, hi | Slot(packed, med, s, p, hi) && p != p0
      ensures exists hi' :: hi <= hi' && Slot(packed, med', s, p, hi')
    {
      MedSlotFreed(l, s, idx, p, hi);
      var hi' :| hi <= hi' && MedSlot(Freed(l, idx), s, p, hi');
      assert Slot(packed, med', s, p, hi');
    }
    forall p, hi | Slot(packed, med', s, p, hi)
      ensures p != p0 && exists hi' :: Slot(packed, med, s, p, hi')
    {
      MedSlotKept(l, s, idx, p, hi);
      var hi' :| MedSlot(l, s, p, hi');
      assert Slot(packed, med, s, p, hi');
    }
  }

  lemma LiveLargeDrop(st: State, s: nat, idx: nat)
    requires StateOk(st) && s in st.med && Shape(st.med[s]) && s !in st.packed
    requires idx < |st.med[s].offs| == |st.med[s].alloc| && st.med[s].alloc[idx]
    ensures LiveOk(st.live - {SLAB_SIZE * s + UNIT * st.med[s].offs[idx]}, st.packed, st.med[s := Freed(st.med[s], idx)])
  {
    hide Owners, PackedAll, FlagBits, LargeAll, SmallBinned, MedBinned, LiveOk, Layout, Shape, Freed, MedSlot, Slot;
    StartInside(st.med[s], s, idx);
    LayoutOf(st);
    SlotsFreed(st.packed, st.med, s, idx);
    DropLive(st.allocs, st.live, st.packed, st.med, st.packed, st.med[s := Freed(st.med[s], idx)], s,
             SLAB_SIZE * s + UNIT * st.med[s].offs[idx]);
  }

  // medium_bin_free while another block of the slab stays allocated
  lemma LargeFreedOk(st: State, flags: seq<Flags>, s: nat, idx: nat, h: LargeHeader)
    requires StateOk(st) && s in st.med && Shape(st.med[s]) && s !in st.packed
    requires idx < |st.med[s].offs| == |st.med[s].alloc| && st.med[s].alloc[idx]
    requires MergedStart(st.med[s], idx) <= MergedEnd(st.med[s], idx)
    requires LargeOk(h, Freed(st.med[s], idx)) && FlagBits(st.allocs[s := Freed(st.med[s], idx).n], flags, st.packed)
    ensures var l := st.med[s];
      StateOk(PutLarge(st, flags, s, h, Freed(l, idx), Relinked(Unlinked(st.free, s, l, idx), s, l, idx),
                       st.live - {SLAB_SIZE * s + UNIT * l.offs[idx]}))
  {
    hide StateOk, Shape, LargeOk, FlagBits, LiveOk, Relinked, Unlinked, Freed, BinsFor, BinsElsewhere, OthersBinned;
    hide MergedStart, MergedEnd;
    var l := st.med[s];
    var free1 := Unlinked(st.free, s, l, idx);
    var free2 := Relinked(free1, s, l, idx);
    LargeOf(st, s);
    UnlinkedOk(st.free, s, l, idx);
    RelinkedOk(free1, s, l, idx);
    ElsewhereTwice(st.free, free1, free2, s);
    LiveLargeDrop(st, s, idx);
    PutLargeOk(st, flags, s, h, Freed(l, idx), free2, st.live - {SLAB_SIZE * s + UNIT * l.offs[idx]});
  }

  // the freed block was the only allocated one
  lemma LiveLargeGone(st: State, s: nat, idx: nat)
    requires StateOk(st) && s in st.med && Shape(st.med[s]) && s !in st.packed
    requires idx < |st.med[s].offs| == |st.med[s].alloc| && st.med[s].alloc[idx]
    requires true !in Freed(st.med[s], idx).alloc
    ensures LiveOk(st.live - {SLAB_SIZE * s + UNIT * st.med[s].offs[idx]}, st.packed, st.med - {s})
  {
    hide Owners, PackedAll, FlagBits, LargeAll, SmallBinned, MedBinned, LiveOk, Layout, Shape, Freed, MedSlot;
    var l := st.med[s];
    var p0 := SLAB_SIZE * s + UNIT * l.offs[idx];
    StartInside(l, s, idx);
    LayoutOf(st);
    forall p, hi | Slot(st.packed, st.med, s, p, hi) ensures p == p0 {
      OnlySlot(l, s, idx, p, hi);
    }
    DropSlab(st.allocs, st.live, st.packed, st.med, s, p0);
    assert st.packed - {s} == st.packed;
  }

  lemma OnlySlot(l: Large, s: nat, idx: nat, p: nat, hi: nat)
    requires Shape(l) && idx < |l.offs| == |l.alloc| && l.alloc[idx]
    requires true !in Freed(l, idx).alloc && MedSlot(l, s, p, hi)
    ensures p == SLAB_SIZE * s + UNIT * l.offs[idx]
  {
    hide Shape, Freed, MedSlot;
    if p != SLAB_SIZE * s + UNIT * l.offs[idx] {
      MedSlotFreed(l, s, idx, p, hi);
      NoMedSlots(Freed(l, idx), s);
    }
  }

  lemma NoMedSlots(l: Large, s: nat)
    requires true !in l.alloc
    ensures forall p, hi :: !MedSlot(l, s, p, hi)
  {
    assert forall i :: 0 <= i < |l.alloc| ==> !l.alloc[i];
  }

  // then the merged block is the whole slab, and none of its blocks is left in a bin
  lemma NothingBinned(free: map<nat, nat>, s: nat, l: Large, idx: nat)
    requires Shape(l) && idx < |l.offs| == |l.alloc| && l.alloc[idx] && OthersBinned(free, s, l, idx)
    requires true !in Freed(l, idx).alloc
    ensures NoBins(free, s)
  {
    hide Shape, Freed, OtherFree;
    forall a | a in free ensures a / SLAB_UNITS != s {
      if a / SLAB_UNITS == s {
        NoOtherFree(l, idx, a % SLAB_UNITS, free[a]);
      }
    }
  }

  lemma NoOtherFree(l: Large, idx: nat, off: nat, size: nat)
    requires Shape(l) && idx < |l.offs| == |l.alloc| && l.alloc[idx] && true !in Freed(l, idx).alloc
    ensures !OtherFree(l, idx, off, size)
  {
    hide Shape, Freed, OtherFree, FreeAt, MergedStart, MergedEnd, Absorbed;
    NotAbsorbed(l, idx);
    MergedInsideSlab(l, idx);
    FreedShape(l, idx);
    AllFree(Freed(l, idx));
    FreedFrees(l, idx, off, size);
    FreedFrees(l, idx, MergedStart(l, idx), MergedEnd(l, idx) - MergedStart(l, idx));
    OneFree(Freed(l, idx), off, size);
    OneFree(Freed(l, idx), MergedStart(l, idx), MergedEnd(l, idx) - MergedStart(l, idx));
  }

  lemma OneFree(l: Large, off: nat, size: nat)
    requires l.offs == [HEADER_UNITS]
    ensures FreeAt(l, off, size) ==> off == HEADER_UNITS
  {
  }

  lemma NotAbsorbed(l: Large, idx: nat)
    requires Shape(l) && idx < |l.offs| == |l.alloc| && l.alloc[idx] && true !in Freed(l, idx).alloc
    ensures !Absorbed(l, idx)
  {
    if Absorbed(l, idx) {
      AbsorberStays(l, idx);
    }
  }

  lemma AbsorberStays(l: Large, idx: nat)
    requires Shape(l) && idx < |l.offs| == |l.alloc| && l.alloc[idx] && Absorbed(l, idx)
    ensures true in Freed(l, idx).alloc
  {
    AbsorbedCase(l, idx);
    assert Freed(l, idx).alloc[idx - 1];
  }

  // medium_bin_free of the last allocated block: the slab goes back
  lemma LargeGone(st: State, flags: seq<Flags>, s: nat, idx: nat)
    requires StateOk(st) && s in st.med && Shape(st.med[s]) && s !in st.packed
    requires idx < |st.med[s].offs| == |st.med[s].alloc| && st.med[s].alloc[idx]
    requires true !in Freed(st.med[s], idx).alloc && FlagBits(st.allocs - {s}, flags, st.packed)
    ensures var l := st.med[s];
      StateOk(DropLarge(st, flags, s, Unlinked(st.free, s, l, idx), st.live - {SLAB_SIZE * s + UNIT * l.offs[idx]}))
  {
    hide StateOk, Shape, LargeOk, FlagBits, LiveOk, Unlinked, Freed, BinsFor, BinsElsewhere, OthersBinned, NoBins;
    var l := st.med[s];
    LargeOf(st, s);
    UnlinkedOk(st.free, s, l, idx);
    NothingBinned(Unlinked(st.free, s, l, idx), s, l, idx);
    LiveLargeGone(st, s, idx);
    DropLargeOk(st, flags, s, Unlinked(st.free, s, l, idx), st.live - {SLAB_SIZE * s + UNIT * l.offs[idx]});
  }
}
