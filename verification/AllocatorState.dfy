/** What the layers of the allocator hold together: which slabs are packed, which are large,
    what the bins list, and where the live blocks are.  Addresses are bytes from `heap_start`. */
module AllocatorState {
  import opened Arithmetic
  import opened MediumBlocks
  import opened PackedSlabs
  import opened LargeSlabs
  import opened SlabHeaps

  const UNIT := 16

  // the header fields of a large slab: the word, the alloc byte, and the number of slabs
  datatype LargeHeader = LargeHeader(h: Header, n: nat)

  // ---------- slabs ----------

  // every allocated region is one packed slab or one large slab
  ghost predicate Owners(allocs: map<nat, nat>, packed: map<nat, Packed>, med: map<nat, Large>) {
    && (forall s :: s in allocs ==> s in packed || s in med)
    && (forall s :: s in packed ==> s in allocs && allocs[s] == 1 && s !in med)
    && (forall s :: s in med ==> s in allocs && allocs[s] == med[s].n)
  }

  ghost predicate FlagBits(allocs: map<nat, nat>, flags: seq<Flags>, packed: map<nat, Packed>) {
    forall s :: s in allocs ==> s < |flags| && flags[s].packed == (s in packed)
  }

  ghost predicate PackedAll(packed: map<nat, Packed>) {
    forall s :: s in packed ==> PackedOk(packed[s])
  }

  ghost predicate LargeAll(large: map<nat, LargeHeader>, med: map<nat, Large>) {
    && large.Keys == med.Keys
    && (forall s :: s in med ==> LargeOk(large[s], med[s]))
  }

  ghost predicate LargeOk(h: LargeHeader, l: Large) {
    Ok(l) && h.n == l.n && Rep(h.h, l.offs, l.alloc)
  }

  // ---------- bins ----------

  // a packed slab is in the bin of its block size exactly while it has a free block
  ghost predicate SmallBinned(bin: map<nat, nat>, packed: map<nat, Packed>) {
    && (forall s :: s in bin ==> BinnedSlab(packed, s, bin[s]))
    && (forall s :: s in packed && !IsFull(packed[s]) ==> s in bin)
  }

  ghost predicate BinnedSlab(packed: map<nat, Packed>, s: nat, b: nat) {
    s in packed && !IsFull(packed[s]) && packed[s].size >= 16 && b == PackedBinIdx(packed[s].size)
  }

  // the medium bins hold exactly the free blocks of the large slabs, named by 256 * slab + offset
  ghost predicate MedBinned(free: map<nat, nat>, med: map<nat, Large>) {
    && (forall a :: a in free ==> BinnedBlock(med, a, free[a]))
    && (forall s, off, size :: s in med && FreeAt(med[s], off, size) ==> InBins(free, s, off, size))
  }

  ghost predicate BinnedBlock(med: map<nat, Large>, a: nat, size: nat) {
    a / SLAB_UNITS in med && FreeAt(med[a / SLAB_UNITS], a % SLAB_UNITS, size)
  }

  ghost predicate InBins(free: map<nat, nat>, s: nat, off: nat, size: nat) {
    SLAB_UNITS * s + off in free && free[SLAB_UNITS * s + off] == size
  }

  // ---------- live blocks ----------

  // the slab of a pointer: ALIGN_DOWN(ptr - MALLOC_ALIGN, SLAB_SIZE)
  function PtrSlab(p: nat): nat
    requires p >= UNIT
  {
    (p - UNIT) / SLAB_SIZE
  }

  ghost predicate MedSlot(l: Large, s: nat, p: nat, hi: nat) {
    exists off: nat, end: nat :: MedSlotAt(l, s, off, end, p, hi)
  }

  ghost predicate MedSlotAt(l: Large, s: nat, off: nat, end: nat, p: nat, hi: nat) {
    LiveAt(l, off, end) && p == SLAB_SIZE * s + UNIT * off && hi == SLAB_SIZE * s + UNIT * end
  }

  function BlockAddr(h: Packed, s: nat, j: nat): nat {
    SLAB_SIZE * s + HeaderSize(h.size) + j * h.size
  }

  ghost predicate PackedSlot(h: Packed, s: nat, p: nat, hi: nat) {
    exists j: nat :: PackedSlotAt(h, s, j, p, hi)
  }

  ghost predicate PackedSlotAt(h: Packed, s: nat, j: nat, p: nat, hi: nat) {
    h.size > 0 && j < Capacity(h.size) && !IsFree(h, j) && p == BlockAddr(h, s, j) && hi == p + h.size
  }

  // an allocated block of slab s from address p to address hi
  ghost predicate Slot(packed: map<nat, Packed>, med: map<nat, Large>, s: nat, p: nat, hi: nat) {
    || (s in med && MedSlot(med[s], s, p, hi))
    || (s in packed && PackedSlot(packed[s], s, p, hi))
  }

  // live[p] bytes from p lie in an allocated block that starts at p
  ghost predicate Backed(packed: map<nat, Packed>, med: map<nat, Large>, p: nat, size: nat) {
    p >= UNIT && exists hi: nat :: Slot(packed, med, PtrSlab(p), p, hi) && p + size <= hi
  }

  // the live pointers are exactly the allocated blocks
  ghost predicate LiveOk(live: map<nat, nat>, packed: map<nat, Packed>, med: map<nat, Large>) {
    && (forall p :: p in live ==> Backed(packed, med, p, live[p]))
    && (forall s, p, hi :: Slot(packed, med, s, p, hi) ==> p in live)
  }

  // ---------- where blocks are ----------

  lemma MedSlotRange(l: Large, s: nat, p: nat, hi: nat)
    requires Shape(l) && MedSlot(l, s, p, hi)
    ensures SLAB_SIZE * s + UNIT <= p < hi <= SLAB_SIZE * (s + l.n) && p % UNIT == 0
    ensures p <= SLAB_SIZE * (s + 1) && PtrSlab(p) == s
  {
    var off, end :| MedSlotAt(l, s, off, end, p, hi);
    var i: nat :| LiveIdx(l, i, off, end);
    BlockInside(l, i);
    LastOffset(l, i);
    hide Shape, BlockEnd, PtrSlab;
    UnitPart(s, off);
  }

  // a unit of a slab, or the one just after it
  lemma UnitPart(s: nat, off: nat)
    requires 1 <= off <= SLAB_UNITS
    ensures PtrSlab(SLAB_SIZE * s + UNIT * off) == s && (SLAB_SIZE * s + UNIT * off) % UNIT == 0
  {
    Quotient(SLAB_SIZE * s + UNIT * (off - 1), SLAB_SIZE, s, s);
    QuotientIs(SLAB_UNITS * s + off, UNIT);
  }

  lemma LastOffset(l: Large, i: nat)
    requires Shape(l) && i < |l.offs|
    ensures l.offs[i] <= SLAB_UNITS
  {
    assert i < |l.offs| - 1 ==> l.offs[i] < l.offs[|l.offs| - 1];
  }

  lemma PackedSlotRange(h: Packed, s: nat, p: nat, hi: nat)
    requires IsClass(h.size) && PackedSlot(h, s, p, hi)
    ensures SLAB_SIZE * s + 2 * UNIT <= p < hi <= SLAB_SIZE * (s + 1) && p % UNIT == 0
    ensures PtrSlab(p) == s && SLAB_SIZE * s + HeaderSize(h.size) <= p
  {
    hide Capacity, IsFree, IsClass, HeaderSize;
    var j: nat :| PackedSlotAt(h, s, j, p, hi);
    BlockInSlab(h.size, j);
    HeaderFloor(h.size);
    SlabPart(s, p - SLAB_SIZE * s, HeaderSize(h.size) + j * h.size);
  }

  lemma HeaderFloor(size: nat)
    ensures HeaderSize(size) >= 2 * UNIT && HeaderSize(size) % UNIT == 0
  {
  }

  // an offset inside a slab
  lemma SlabPart(s: nat, k: nat, off: nat)
    requires UNIT < k == off < SLAB_SIZE && off % UNIT == 0
    ensures PtrSlab(SLAB_SIZE * s + k) == s && (SLAB_SIZE * s + k) % UNIT == 0
  {
  }

  lemma BlockInSlab(size: nat, j: nat)
    requires IsClass(size) && j < Capacity(size)
    ensures HeaderSize(size) + j * size + size <= SLAB_SIZE && j * size % UNIT == 0
  {
    MulBounds(j, Capacity(size), size);
    DivMul(SLAB_SIZE - HeaderSize(size), size);
    MulMod(j, size / 16);
    assert j * size == 16 * (j * (size / 16)) by {
      assert size == 16 * (size / 16);
      MulSwap(j, size / 16);
    }
  }

  lemma MulSwap(j: nat, q: nat)
    ensures j * (16 * q) == 16 * (j * q)
  {
  }

  lemma MulMod(j: nat, q: nat)
    ensures 16 * (j * q) % 16 == 0
  {
  }

  lemma SlotRange(allocs: map<nat, nat>, packed: map<nat, Packed>, med: map<nat, Large>, s: nat, p: nat, hi: nat)
    requires Owners(allocs, packed, med) && PackedAll(packed) && (forall t :: t in med ==> Shape(med[t]))
    requires Slot(packed, med, s, p, hi)
    ensures s in allocs && SLAB_SIZE * s + UNIT <= p < hi <= SLAB_SIZE * (s + allocs[s])
    ensures PtrSlab(p) == s && p % UNIT == 0
  {
    hide Shape, MedSlot, PackedSlot;
    if s in med && MedSlot(med[s], s, p, hi) {
      MedSlotRange(med[s], s, p, hi);
    } else {
      PackedSlotRange(packed[s], s, p, hi);
    }
  }

  // ---------- separation ----------

  ghost predicate Layout(allocs: map<nat, nat>, packed: map<nat, Packed>, med: map<nat, Large>) {
    && Owners(allocs, packed, med) && PackedAll(packed)
    && (forall t :: t in med ==> Shape(med[t]))
  }

  lemma MedSlotsApart(l: Large, s: nat, p: nat, hi: nat, q: nat, hi': nat)
    requires Shape(l) && MedSlot(l, s, p, hi) && MedSlot(l, s, q, hi') && p < q
    ensures hi <= q
  {
    var off, end :| MedSlotAt(l, s, off, end, p, hi);
    var off', end' :| MedSlotAt(l, s, off', end', q, hi');
    var i: nat :| LiveIdx(l, i, off, end);
    var j: nat :| LiveIdx(l, j, off', end');
    if i < j {
      BlocksApart(l, i, j);
    } else if j < i {
      BlocksApart(l, j, i);
      BlockInside(l, j);
    }
  }

  lemma PackedSlotsApart(h: Packed, s: nat, p: nat, hi: nat, q: nat, hi': nat)
    requires PackedSlot(h, s, p, hi) && PackedSlot(h, s, q, hi') && p < q
    ensures hi <= q
  {
    var i: nat :| PackedSlotAt(h, s, i, p, hi);
    var j: nat :| PackedSlotAt(h, s, j, q, hi');
    if i < j {
      MulBounds(i, j, h.size);
    } else if j < i {
      MulBounds(j, i, h.size);
    }
  }

  lemma TilesApart(regs: map<nat, Region>, end: nat, s: nat, t: nat)
    requires Tiles(regs, end) && s in Allocs(regs) && t in Allocs(regs) && s < t
    ensures s + Allocs(regs)[s] <= t
  {
  }

  // two allocated blocks do not overlap
  lemma SlotsApart(regs: map<nat, Region>, end: nat, packed: map<nat, Packed>, med: map<nat, Large>,
                   s: nat, p: nat, hi: nat, t: nat, q: nat, hi': nat)
    requires Tiles(regs, end) && Layout(Allocs(regs), packed, med)
    requires Slot(packed, med, s, p, hi) && Slot(packed, med, t, q, hi') && p < q
    ensures hi <= q
  {
    SlotRange(Allocs(regs), packed, med, s, p, hi);
    SlotRange(Allocs(regs), packed, med, t, q, hi');
    hide Shape, MedSlot, PackedSlot;
    if s != t {
      TilesApart(regs, end, if s < t then s else t, if s < t then t else s);
    } else if s in med {
      MedSlotsApart(med[s], s, p, hi, q, hi');
    } else {
      PackedSlotsApart(packed[s], s, p, hi, q, hi');
    }
  }

  // ---------- live blocks after an operation on slab s ----------

  // the slabs other than s are as before
  ghost predicate Others(packed: map<nat, Packed>, med: map<nat, Large>, packed': map<nat, Packed>, med': map<nat, Large>,
                         s: nat)
  {
    && (forall t :: t != s ==> (t in packed' <==> t in packed) && (t in med' <==> t in med))
    && (forall t :: t != s && t in packed ==> packed'[t] == packed[t])
    && (forall t :: t != s && t in med ==> med'[t] == med[t])
  }

  lemma NotLive(live: map<nat, nat>, packed: map<nat, Packed>, med: map<nat, Large>, p: nat)
    requires LiveOk(live, packed, med) && p >= UNIT && forall hi :: !Slot(packed, med, PtrSlab(p), p, hi)
    ensures p !in live
  {
  }

  // slab s gets one more allocated block, at p0
  lemma AddLive(allocs: map<nat, nat>, live: map<nat, nat>, packed: map<nat, Packed>, med: map<nat, Large>,
                packed': map<nat, Packed>, med': map<nat, Large>, s: nat, p0: nat, hi0: nat, size: nat)
    requires LiveOk(live, packed, med) && Others(packed, med, packed', med', s)
    requires forall p, hi :: Slot(packed', med', s, p, hi) <==> Slot(packed, med, s, p, hi) || (p == p0 && hi == hi0)
    requires p0 >= UNIT && PtrSlab(p0) == s && p0 + size <= hi0
    requires forall hi :: !Slot(packed, med, s, p0, hi)
    ensures p0 !in live && LiveOk(live[p0 := size], packed', med')
  {
    var live' := live[p0 := size];
    NotLive(live, packed, med, p0);
    forall p | p in live' ensures Backed(packed', med', p, live'[p]) {
      if p == p0 {
        assert Slot(packed', med', s, p0, hi0);
      } else {
        assert Backed(packed, med, p, live[p]);
        var hi: nat :| Slot(packed, med, PtrSlab(p), p, hi) && p + live[p] <= hi;
        assert Slot(packed', med', PtrSlab(p), p, hi);
      }
    }
    forall t, p, hi | Slot(packed', med', t, p, hi) ensures p in live' {
      assert t != s ==> Slot(packed, med, t, p, hi);
    }
  }

  // slab s loses the allocated block at p0; its others stay where they are, at least as long
  lemma DropLive(allocs: map<nat, nat>, live: map<nat, nat>, packed: map<nat, Packed>, med: map<nat, Large>,
                 packed': map<nat, Packed>, med': map<nat, Large>, s: nat, p0: nat)
    requires LiveOk(live, packed, med) && Layout(allocs, packed, med) && Others(packed, med, packed', med', s)
    requires p0 >= UNIT && PtrSlab(p0) == s
    requires forall p, hi :: Slot(packed, med, s, p, hi) && p != p0 ==> exists hi' :: hi <= hi' && Slot(packed', med', s, p, hi')
    requires forall p, hi :: Slot(packed', med', s, p, hi) ==> p != p0 && exists hi' :: Slot(packed, med, s, p, hi')
    ensures LiveOk(live - {p0}, packed', med')
  {
    var live' := live - {p0};
    hide Layout;
    forall p | p in live' ensures Backed(packed', med', p, live'[p]) {
      assert Backed(packed, med, p, live[p]);
      var hi: nat :| Slot(packed, med, PtrSlab(p), p, hi) && p + live[p] <= hi;
      if PtrSlab(p) == s {
        var hi' :| hi <= hi' && Slot(packed', med', s, p, hi');
      } else {
        assert Slot(packed', med', PtrSlab(p), p, hi);
      }
    }
    forall t, p, hi | Slot(packed', med', t, p, hi) ensures p in live' {
      if t == s {
        var hi' :| Slot(packed, med, s, p, hi');
      } else {
        assert Slot(packed, med, t, p, hi);
        SlotAt(allocs, packed, med, t, p, hi);
      }
    }
  }

  // slab s goes, with its only allocated block
  lemma DropSlab(allocs: map<nat, nat>, live: map<nat, nat>, packed: map<nat, Packed>, med: map<nat, Large>,
                 s: nat, p0: nat)
    requires LiveOk(live, packed, med) && Layout(allocs, packed, med) && p0 >= UNIT && PtrSlab(p0) == s
    requires forall p, hi :: Slot(packed, med, s, p, hi) ==> p == p0
    ensures LiveOk(live - {p0}, packed - {s}, med - {s})
  {
    hide Layout, MedSlot, PackedSlot;
    var live' := live - {p0};
    forall p | p in live' ensures Backed(packed - {s}, med - {s}, p, live'[p]) {
      assert Backed(packed, med, p, live[p]);
      var hi: nat :| Slot(packed, med, PtrSlab(p), p, hi) && p + live[p] <= hi;
      assert Slot(packed - {s}, med - {s}, PtrSlab(p), p, hi);
    }
    forall t, p, hi | Slot(packed - {s}, med - {s}, t, p, hi) ensures p in live' {
      assert Slot(packed, med, t, p, hi);
      SlotAt(allocs, packed, med, t, p, hi);
    }
  }

  lemma SlotAt(allocs: map<nat, nat>, packed: map<nat, Packed>, med: map<nat, Large>, s: nat, p: nat, hi: nat)
    requires Layout(allocs, packed, med) && Slot(packed, med, s, p, hi)
    ensures p >= UNIT && PtrSlab(p) == s
  {
    SlotRange(allocs, packed, med, s, p, hi);
  }
}
