/** malloc and free over the three layers: packed slabs for tiny blocks, large slabs for medium
    and large ones, and the slab heap below. */
module Allocators {
  import opened AllocatorState
  import opened AllocatorSteps
  import opened Arithmetic
  import FreeLists
  import opened HeaderWords
  import opened LargeSlabs
  import opened MediumBinLists
  import opened MediumBlocks
  import opened Options
  import opened PackedSlabs
  import opened Skiplists
  import opened SlabBinLists
  import opened SlabHeaps
  import opened Writes

  const MAX_MEDIUM_UNITS := 255  // MAX_MEDIUM_BLOCK_SZ

  // a pointer, or NULL
  type Ptr = Option<nat>

  // ALIGN_UP(size, MALLOC_ALIGN)
  function AlignUp(size: nat): nat {
    (size + UNIT - 1) / UNIT * UNIT
  }

  /** All that the allocator keeps in the heap: the tags of the slabs, the nodes of its lists, and
      the headers of the allocated slabs. */
  datatype Image = Image(slabs: Memory, smallNext: map<nat, FreeLists.Next>, smallPrev: map<nat, FreeLists.Prev>,
                         medNext: map<nat, FreeLists.Next>, medPrev: map<nat, FreeLists.Prev>,
                         packed: map<nat, Packed>, large: map<nat, LargeHeader>)

  /** An operation from st to st' writes only to what is the allocator's own before or after it: it
      leaves the regions in `allocs` alone but for the headers of their first slabs, and changes
      list nodes in packed slabs and in free medium blocks only. */
  ghost predicate WritesOwn(allocs: map<nat, nat>, st: State, st': State, m: Image, m': Image) {
    && Spared(allocs, m.slabs, m'.slabs)
    && OnlyAt(m.smallNext, m'.smallNext, st.packed.Keys + st'.packed.Keys)
    && OnlyAt(m.smallPrev, m'.smallPrev, st.packed.Keys + st'.packed.Keys)
    && OnlyAt(m.medNext, m'.medNext, st.free.Keys + st'.free.Keys)
    && OnlyAt(m.medPrev, m'.medPrev, st.free.Keys + st'.free.Keys)
  }

  lemma OwnWrites(allocs: map<nat, nat>, st: State, st': State, m: Image, m': Image, small: set<nat>, med: set<nat>)
    requires m'.slabs == m.slabs || Spared(allocs, m.slabs, m'.slabs)
    requires small <= st.packed.Keys + st'.packed.Keys && med <= st.free.Keys + st'.free.Keys
    requires (m'.smallNext == m.smallNext && m'.smallPrev == m.smallPrev)
      || (OnlyAt(m.smallNext, m'.smallNext, small) && OnlyAt(m.smallPrev, m'.smallPrev, small))
    requires (m'.medNext == m.medNext && m'.medPrev == m.medPrev)
      || (OnlyAt(m.medNext, m'.medNext, med) && OnlyAt(m.medPrev, m'.medPrev, med))
    ensures WritesOwn(allocs, st, st', m, m')
  {
    if m'.slabs == m.slabs {
      SparedNone(allocs, m.slabs);
    }
    hide Spared;
  }

  lemma SparedBoth(allocs: map<nat, nat>, more: map<nat, nat>, s: nat, m: Memory, m': Memory, m'': Memory)
    requires allocs == more - {s} && Spared(more, m, m') && Spared(allocs, m', m'')
    ensures Spared(allocs, m, m'')
  {
    assert Fewer(allocs, more);
    hide Spared, Fewer;
    SparedFewer(allocs, more, m, m');
    SparedTrans(allocs, m, m', m'');
  }

  // the bins hold packed slabs
  lemma SmallKeys(st: State)
    requires StateOk(st)
    ensures st.bin.Keys <= st.packed.Keys
  {
    hide FlagBits, LargeAll, MedBinned, LiveOk, Owners, PackedAll;
  }

  // ---------- where blocks come from and go to ----------

  // the free regions and the end of the heap
  datatype Room = Room(frees: map<nat, nat>, end: nat)

  // n slabs from s on come from the place that __int_alloc_slab looks for
  ghost predicate TakesSlabs(n: nat, x: Room, x': Room, s: nat) {
    BestPlace(n, x.frees, x.end, s, x'.end)
  }

  // a packed slab of this block size has a free block
  ghost predicate HasTiny(st: State, size: nat) {
    exists s: nat :: PartlyFree(st, size, s)
  }

  ghost predicate PartlyFree(st: State, size: nat, s: nat) {
    s in st.packed && size > 0 && st.packed[s].size == size && FreeSet(st.packed[s]) != {}
  }

  // the least free block j of slab s, and that alone
  ghost predicate TakesTiny(st: State, st': State, size: nat, p: nat, s: nat, j: nat) {
    && PartlyFree(st, size, s) && j in FreeSet(st.packed[s]) && (forall i :: i in FreeSet(st.packed[s]) ==> j <= i)
    && p == BlockAddr(st.packed[s], s, j)
    && s in st'.packed && st'.packed == st.packed[s := st'.packed[s]]
    && st'.packed[s].size == size && FreeSet(st'.packed[s]) == FreeSet(st.packed[s]) - {j}
  }

  ghost predicate TookTiny(st: State, st': State, size: nat, p: nat) {
    exists s: nat, j: nat :: TakesTiny(st, st', size, p, s, j)
  }

  // the first block of a new packed slab
  ghost predicate TakesNewTiny(st: State, st': State, size: nat, p: nat, s: nat) {
    && s !in st.allocs && s in st'.packed && st'.packed == st.packed[s := st'.packed[s]]
    && size > 0 && st'.packed[s].size == size && (forall j :: j in FreeSet(st'.packed[s]) <==> 1 <= j < Capacity(size))
    && p == BlockAddr(st'.packed[s], s, 0)
  }

  ghost predicate TookNewTiny(st: State, st': State, x: Room, x': Room, size: nat, p: nat) {
    exists s: nat :: TakesNewTiny(st, st', size, p, s) && TakesSlabs(1, x, x', s)
  }

  // a free medium block is large enough
  ghost predicate HasMedium(st: State, u: nat) {
    exists a: nat :: a in st.free && st.free[a] >= u
  }

  // the block at unit a, a best fit, becomes block pos of its slab, up to what remains of it
  ghost predicate TakesMedium(st: State, st': State, u: nat, p: nat, a: nat, pos: nat) {
    && IsBestFit(st.free, u, Some(a)) && p == UNIT * a && st'.free == TakenFrom(st.free, a, u)
    && var s := a / SLAB_UNITS;
      && s in st.med && pos < |st.med[s].offs| == |st.med[s].alloc| && st.med[s].offs[pos] == a % SLAB_UNITS
      && st'.med == st.med[s := UnlessRemainder(st.med[s], pos, u)]
  }

  ghost predicate TookMedium(st: State, st': State, u: nat, p: nat) {
    exists a: nat, pos: nat :: TakesMedium(st, st', u, p, a, pos)
  }

  // the first block of a new slab, of which the rest is a free block if it is large enough
  ghost predicate TakesNewMedium(st: State, st': State, u: nat, p: nat, s: nat) {
    var has := u + HEADER_UNITS + MIN_UNITS <= SLAB_UNITS;
    && s !in st.allocs && u <= MAX_MEDIUM_UNITS && st'.med == st.med[s := NewMedium(u)]
    && st'.free == WithBlock(st.free, has, Addr(s, u + HEADER_UNITS), SLAB_UNITS - u - HEADER_UNITS)
    && p == SLAB_SIZE * s + UNIT * HEADER_UNITS
  }

  ghost predicate TookNewMedium(st: State, st': State, x: Room, x': Room, u: nat, p: nat) {
    exists s: nat :: TakesNewMedium(st, st', u, p, s) && TakesSlabs(1, x, x', s)
  }

  // new slabs from s on, at whose end the block lies
  ghost predicate TakesHanging(st: State, st': State, u: nat, p: nat, s: nat) {
    var start := SLAB_UNITS - u % SLAB_UNITS;
    var has := start >= HEADER_UNITS + MIN_UNITS;
    && s !in st.allocs && st'.med == st.med[s := NewLarge(SlabsFor(u), u)]
    && st'.free == WithBlock(st.free, has, Addr(s, HEADER_UNITS), start - HEADER_UNITS)
    && p == SLAB_SIZE * s + UNIT * (if has then start else HEADER_UNITS)
  }

  ghost predicate TookHanging(st: State, st': State, x: Room, x': Room, u: nat, p: nat) {
    exists s: nat :: TakesHanging(st, st', u, p, s) && TakesSlabs(SlabsFor(u), x, x', s)
  }

  /** Where __int_malloc gets a block of this size, a multiple of 16, from. */
  ghost predicate Serves(st: State, st': State, x: Room, x': Room, size: nat, p: nat) {
    var u := size / UNIT;
    if size <= MAX_TINY then
      && st'.med == st.med && st'.free == st.free
      && (if HasTiny(st, AdjTinySize(size)) then TookTiny(st, st', AdjTinySize(size), p) && x' == x && st'.allocs == st.allocs
          else TookNewTiny(st, st', x, x', AdjTinySize(size), p))
    else
      && st'.packed == st.packed && st'.bin == st.bin
      && (if u > MAX_MEDIUM_UNITS then TookHanging(st, st', x, x', u, p)
          else if HasMedium(st, u) then TookMedium(st, st', u, p) && x' == x && st'.allocs == st.allocs
          else TookNewMedium(st, st', x, x', u, p))
  }

  // block idx of slab s is freed
  ghost predicate FreesLarge(st: State, st': State, p: nat, s: nat, idx: nat) {
    && s in st.med && idx < |st.med[s].offs| == |st.med[s].alloc| && st.med[s].alloc[idx]
    && p == SLAB_SIZE * s + UNIT * st.med[s].offs[idx]
    && st'.med == if true in Freed(st.med[s], idx).alloc then st.med[s := Freed(st.med[s], idx)] else st.med - {s}
  }

  ghost predicate FreedLarge(st: State, st': State, p: nat) {
    exists s: nat, idx: nat :: FreesLarge(st, st', p, s, idx)
  }

  // block j of the packed slab s becomes free; if it was the last one that was not, the slab goes back
  ghost predicate FreesTiny(st: State, st': State, p: nat, s: nat, j: nat) {
    && s in st.packed && st.packed[s].size > 0 && j < Capacity(st.packed[s].size) && j !in FreeSet(st.packed[s])
    && p == BlockAddr(st.packed[s], s, j)
    && (if forall i :: 0 <= i < Capacity(st.packed[s].size) ==> i == j || i in FreeSet(st.packed[s])
        then st'.packed == st.packed - {s} && st'.allocs == st.allocs - {s}
        else
          && s in st'.packed && st'.packed == st.packed[s := st'.packed[s]] && st'.allocs == st.allocs
          && st'.packed[s].size == st.packed[s].size && FreeSet(st'.packed[s]) == FreeSet(st.packed[s]) + {j})
  }

  ghost predicate FreedTiny(st: State, st': State, p: nat) {
    exists s: nat, j: nat :: FreesTiny(st, st', p, s, j)
  }

  class Heap {
    const slabs: SlabHeap
    const smallbins: FreeLists.Bins
    const medbins: MediumBins
    var packed: map<nat, Packed>       // the headers of the packed slabs
    var large: map<nat, LargeHeader>   // ... and of the large slabs
    ghost var med: map<nat, Large>     // the blocks that the large headers stand for
    ghost var live: map<nat, nat>      // the pointers handed out, with the sizes asked for

    ghost function Repr(): set<object> {
      {this, slabs, slabs.bins, slabs.bins.skip, smallbins, medbins, medbins.lists, medbins.skip}
    }

    ghost function St(): State
      reads this, slabs, smallbins, medbins
    {
      State(Allocs(slabs.regs), slabs.flags, packed, large, med, smallbins.bin, medbins.free, live)
    }

    lemma SmallInPacked()
      requires Valid()
      ensures smallbins.bin.Keys <= packed.Keys && smallbins != medbins.lists && slabs.bins.skip != medbins.skip
    {
      SmallKeys(St());
    }

    // what is in the heap
    ghost function Contents(): Image
      reads this, slabs, slabs.bins, smallbins, medbins, medbins.lists
    {
      Image(slabs.Image(), smallbins.next, smallbins.prev, medbins.lists.next, medbins.lists.prev, packed, large)
    }

    ghost function Space(): Room
      reads slabs
    {
      Room(Frees(slabs.regs), slabs.heapEnd)
    }

    ghost predicate Layers()
      reads this, slabs, slabs.bins, slabs.bins.skip, smallbins, medbins, medbins.lists, medbins.skip
    {
      && smallbins != medbins.lists && slabs.bins.skip != medbins.skip
      && slabs.Valid() && medbins.Valid()
      && smallbins.Valid() && |smallbins.heads| == NUM_SMALLBINS
    }

    ghost predicate Valid()
      reads this, slabs, slabs.bins, slabs.bins.skip, smallbins, medbins, medbins.lists, medbins.skip
    {
      Layers() && StateOk(St())
    }

    // mm_init
    constructor ()
      ensures Valid() && live == map[] && med == map[] && medbins.free == map[] && fresh(Repr())
    {
      hide StateOk, SlabHeap.Valid, MediumBins.Valid, FreeLists.Bins.Valid, SlabBins.Valid, Skiplist.Valid;
      slabs := new SlabHeap();
      smallbins := new FreeLists.Bins(NUM_SMALLBINS);
      medbins := new MediumBins();
      packed, large, med, live := map[], map[], map[], map[];
      new;
      EmptyOk(slabs.flags);
      assert Allocs(slabs.regs) == map[];
    }

    // n new slabs, with the PACKED bit as told; a packed slab is going to have the header h
    method NewSlabs(n: nat, bit: bool, ghost h: Option<Packed>) returns (s: nat)
      requires slabs.Valid() && n >= 1 && FlagBits(Allocs(slabs.regs), slabs.flags, packed)
      requires packed.Keys <= Allocs(slabs.regs).Keys && bit == h.Some?
      modifies slabs, slabs.bins, slabs.bins.skip
      ensures slabs.Valid() && s !in Allocs(old(slabs.regs)) && Allocs(slabs.regs) == Allocs(old(slabs.regs))[s := n]
      ensures FlagBits(Allocs(slabs.regs), slabs.flags, if h.Some? then packed[s := h.value] else packed)
      ensures TakesSlabs(n, old(Space()), Space(), s)
      ensures Spared(Allocs(old(slabs.regs)), old(slabs.Image()), slabs.Image())
    {
      hide Spared, BestPlace, SlabHeap.Valid, Allocs, Frees, FlagBits, PackedKept;
      ghost var regs, flags0, image := slabs.regs, slabs.flags, slabs.Image();
      s := slabs.AllocSlab(n);
      slabs.AllocatedRegion(s);
      ghost var flags, image' := slabs.flags, slabs.Image();
      slabs.SetPacked(s, bit);
      slabs.HeaderSpares(Allocs(regs), s, n, image');
      ghost var packed' := if h.Some? then packed[s := h.value] else packed;
      FlagsAllocated(regs, flags0, flags, s, n, flags[s].(packed := bit), packed, packed');
      SparedTrans(Allocs(regs), image, image', slabs.Image());
    }

    // ---------- tiny blocks ----------

    // __int_find_tiny_block
    method FindTiny(size: nat, ghost req: nat) returns (p: Ptr)
      requires Valid() && IsClass(size) && req <= size
      modifies this, smallbins
      ensures Valid()
      ensures p.Some? <==> HasTiny(old(St()), size)
      ensures p.Some? ==> TookTiny(old(St()), St(), size, p.value) && St().allocs == old(St()).allocs
      ensures p.Some? ==> med == old(med) && medbins.free == old(medbins.free) && Space() == old(Space())
      ensures p.Some? ==> p.value >= UNIT && size >= 16 && FreeLists.IsHead(old(smallbins.heads), PackedBinIdx(size), PtrSlab(p.value))
      ensures p == None ==> live == old(live) && St() == old(St()) && Contents() == old(Contents())
      ensures p.Some? ==> p.value !in old(live) && live == old(live)[p.value := req]
      ensures OnlyAt(old(smallbins.next), smallbins.next, old(smallbins.bin).Keys)
      ensures OnlyAt(old(smallbins.prev), smallbins.prev, old(smallbins.bin).Keys)
    {
      hide OnlyAt, StateOk, SlabHeap.Valid, MediumBins.Valid, FreeLists.Bins.Valid, AllocBlock, BlockAddr, LeastFree, IsFull;
      hide PackedBinIdx, BitmapOk, IsClass, HasTiny, TookTiny;
      OnlyAtNone(smallbins.next, smallbins.bin.Keys);
      OnlyAtNone(smallbins.prev, smallbins.bin.Keys);
      BinClassIs(size);
      SizeOfClass(size);
      var b := PackedBinIdx(size);
      smallbins.HeadOf(b);
      if smallbins.heads[b] == FreeLists.Null {
        NoTiny(St(), size);
        return None;
      }
      var s := smallbins.heads[b].id;
      ghost var st := St();
      BinnedSize(st, s, size);
      TinyTaken(st, s, req);
      var h := AllocBlock(packed[s]);
      p := Some(BlockAddr(h, s, LeastFree(packed[s])));
      packed := packed[s := h];
      if IsFull(h) {
        smallbins.Unlink(s);
      }
      live := live[p.value := req];
      TinyIsTaken(st, St(), s, size, p.value);
    }

    // __int_slab_init_packed_and_alloc on a new slab
    method NewTiny(size: nat, ghost req: nat) returns (p: nat)
      requires Valid() && IsClass(size) && req <= size
      modifies this, slabs, slabs.bins, slabs.bins.skip, smallbins
      ensures Valid() && p !in old(live) && live == old(live)[p := req]
      ensures TookNewTiny(old(St()), St(), old(Space()), Space(), size, p)
      ensures med == old(med) && medbins.free == old(medbins.free)
      ensures Spared(Allocs(old(slabs.regs)), old(slabs.Image()), slabs.Image())
      ensures OnlyAt(old(smallbins.next), smallbins.next, smallbins.bin.Keys)
      ensures OnlyAt(old(smallbins.prev), smallbins.prev, smallbins.bin.Keys)
    {
      hide OnlyAt, Spared, StateOk, SlabHeap.Valid, MediumBins.Valid;
      hide FreeLists.Bins.Valid, NewPacked, BlockAddr, PackedBinIdx, IsClass;
      hide Allocs, Frees, FlagBits, TakesSlabs, TookNewTiny;
      BinClassIs(size);
      SizeOfClass(size);
      ghost var st, x := St(), Space();
      FlagsIn(st);
      var h := NewPacked(size);
      var s := NewSlabs(1, true, Some(h));
      TinyNew(st, slabs.flags, s, size, req);
      smallbins.Link(PackedBinIdx(size), s);
      p := BlockAddr(h, s, 0);
      packed := packed[s := h];
      live := live[p := req];
      NewTinyIsTaken(st, St(), x, Space(), s, size, p);
    }

    // ---------- medium and large blocks ----------

    // __int_find_medium_block
    method FindMedium(u: nat, ghost req: nat) returns (p: Ptr)
      requires Valid() && MIN_UNITS <= u < SLAB_UNITS && req <= UNIT * u
      modifies this, medbins, medbins.lists, medbins.skip
      ensures Valid()
      ensures p == None ==> live == old(live) && St() == old(St()) && Contents() == old(Contents())
      ensures p.Some? ==> p.value !in old(live) && live == old(live)[p.value := req]
      ensures p.Some? <==> HasMedium(old(St()), u)
      ensures p.Some? ==> TookMedium(old(St()), St(), u, p.value) && St().allocs == old(St()).allocs
      ensures p.Some? ==> p.value / UNIT in old(medbins.free) && old(medbins.free)[p.value / UNIT] >= MIN_UNITS
      ensures p.Some? ==> var a := p.value / UNIT;
        FreeLists.IsHead(old(medbins.lists.heads), MediumBinLists.BinIdx(old(medbins.free)[a]), a)
      ensures p.Some? ==> packed == old(packed) && smallbins.bin == old(smallbins.bin) && Space() == old(Space())
      ensures OnlyAt(old(medbins.lists.next), medbins.lists.next, old(medbins.free).Keys + medbins.free.Keys)
      ensures OnlyAt(old(medbins.lists.prev), medbins.lists.prev, old(medbins.free).Keys + medbins.free.Keys)
    {
      hide OnlyAt, StateOk, SlabHeap.Valid, MediumBins.Valid, FreeLists.Bins.Valid, TakenHeader, TakenFrom, Taken, Split;
      hide Shape, Rep, EndOf, Apart, HasMedium, TookMedium, TakesMedium;
      ghost var st := St();
      FreesApart(st);
      var r, blkSize := medbins.TakeBlock(u);
      FitIsMedium(st, u, r);
      if r == None {
        return None;
      }
      var a := r.value;
      var s := a / SLAB_UNITS;
      ghost var pos := BinnedIndex(st, a);
      ghost var l := med[s];
      TakenHeaderOk(large[s], l, pos, blkSize, u);
      MediumTaken(st, s, pos, blkSize, u, req);
      var blockPos := FindBlockPos(large[s].h, l, pos, a % SLAB_UNITS);
      large := large[s := TakenHeader(large[s], blockPos, a % SLAB_UNITS, blkSize, u)];
      med := med[s := UnlessRemainder(l, pos, u)];
      p := Some(UNIT * a);
      assert p.value / UNIT == a;
      live := live[p.value := req];
      MediumIsTaken(st, St(), u, p.value, a, pos);
    }

    // a slab's memory is arbitrary, but for the flags byte of an allocated slab
    method SomeWord() returns (mem: bv64)
      ensures ByteAt(mem, 0) != 0
    {
      assert ByteAt(1, 0) != 0;
      mem :| ByteAt(mem, 0) != 0;
    }

    // medium_bin_link of a remainder that is large enough
    method LinkIf(has: bool, a: nat, size: nat)
      requires medbins.Valid() && (has ==> a !in medbins.free && MIN_UNITS <= size < SLAB_UNITS)
      modifies medbins, medbins.lists, medbins.skip
      ensures medbins.Valid() && medbins.free == WithBlock(old(medbins.free), has, a, size)
      ensures OnlyAt(old(medbins.lists.next), medbins.lists.next, medbins.free.Keys)
      ensures OnlyAt(old(medbins.lists.prev), medbins.lists.prev, medbins.free.Keys)
    {
      hide OnlyAt;
      OnlyAtNone(medbins.lists.next, medbins.free.Keys);
      OnlyAtNone(medbins.lists.prev, medbins.free.Keys);
      if has {
        medbins.Link(a, size);
      }
    }

    // the layers are sound and the state is st, but for n more slabs at s
    ghost predicate Taking(st: State, s: nat, n: nat)
      reads this, slabs, slabs.bins, slabs.bins.skip, smallbins, medbins, medbins.lists, medbins.skip
    {
      && Layers()
      && StateOk(st) && s !in st.allocs && St() == st.(allocs := st.allocs[s := n], flags := slabs.flags)
      && FlagBits(st.allocs[s := n], slabs.flags, st.packed)
    }

    // the header of a large slab is written
    method Install(s: nat, h: LargeHeader, ghost l: Large, ghost st: State, ghost live': map<nat, nat>)
      requires Layers() && StateOk(PutLarge(st, slabs.flags, s, h, l, medbins.free, live'))
      requires St() == st.(allocs := st.allocs[s := l.n], flags := slabs.flags, free := medbins.free)
      modifies this`large, this`med, this`live
      ensures Valid() && live == live' && med == old(med)[s := l]
    {
      hide StateOk, SlabHeap.Valid, MediumBins.Valid, FreeLists.Bins.Valid;
      large := large[s := h];
      med := med[s := l];
      live := live';
    }

    // __int_slab_init_large_and_alloc on one new slab
    method InitMedium(s: nat, u: nat, ghost req: nat, ghost st: State) returns (p: nat)
      requires Taking(st, s, 1) && MIN_UNITS <= u < SLAB_UNITS && req <= UNIT * u
      modifies this, medbins, medbins.lists, medbins.skip
      ensures Valid() && p !in st.live && live == st.live[p := req] && packed == old(packed)
      ensures TakesNewMedium(st, St(), u, p, s)
      ensures OnlyAt(old(medbins.lists.next), medbins.lists.next, medbins.free.Keys)
      ensures OnlyAt(old(medbins.lists.prev), medbins.lists.prev, medbins.free.Keys)
    {
      hide PutLarge, Addr, OnlyAt, Skiplist.Valid, StateOk, SlabHeap.Valid, MediumBins.Valid, FreeLists.Bins.Valid;
      hide NewMediumHeader, NewMedium;
      hide Allocs, FlagBits, ByteAt, WithBlock;
      var mem := SomeWord();
      MediumNew(st, slabs.flags, s, mem, u, req);
      NewMediumN(u);
      LinkIf(SLAB_UNITS >= u + HEADER_UNITS + MIN_UNITS, Addr(s, u + HEADER_UNITS), SLAB_UNITS - u - HEADER_UNITS);
      p := SLAB_SIZE * s + UNIT * HEADER_UNITS;
      Install(s, NewMediumHeader(mem, u), NewMedium(u), st, st.live[p := req]);
    }

    // ... and on several, for a block that hangs over the edge of the first
    method InitLarge(s: nat, u: nat, ghost req: nat, ghost st: State) returns (p: nat)
      requires Taking(st, s, SlabsFor(u)) && SLAB_UNITS <= u && req <= UNIT * u
      modifies this, medbins, medbins.lists, medbins.skip
      ensures Valid() && p !in st.live && live == st.live[p := req] && packed == old(packed)
      ensures TakesHanging(st, St(), u, p, s)
      ensures OnlyAt(old(medbins.lists.next), medbins.lists.next, medbins.free.Keys)
      ensures OnlyAt(old(medbins.lists.prev), medbins.lists.prev, medbins.free.Keys)
    {
      hide PutLarge, Addr, OnlyAt, Skiplist.Valid, StateOk, SlabHeap.Valid, MediumBins.Valid, FreeLists.Bins.Valid;
      hide NewLargeHeader, NewLarge, SlabsFor;
      hide Allocs, FlagBits, ByteAt, WithBlock;
      var mem := SomeWord();
      var n := SlabsFor(u);
      SlabsForIs(u);
      HangingNew(st, slabs.flags, s, mem, u, req);
      NewLargeN(n, u);
      var allocOffset := SLAB_UNITS - u % SLAB_UNITS;
      LinkIf(allocOffset >= HEADER_UNITS + MIN_UNITS, Addr(s, HEADER_UNITS), allocOffset - HEADER_UNITS);
      if allocOffset < HEADER_UNITS + MIN_UNITS {
        allocOffset := HEADER_UNITS;
      }
      p := SLAB_SIZE * s + UNIT * allocOffset;
      Install(s, NewLargeHeader(mem, n, u), NewLarge(n, u), st, st.live[p := req]);
    }

    // a medium or large block that no medium bin can serve
    method NewLargeSlab(u: nat, ghost req: nat) returns (p: nat)
      requires Valid() && MIN_UNITS <= u && req <= UNIT * u
      modifies this, slabs, slabs.bins, slabs.bins.skip, medbins, medbins.lists, medbins.skip
      ensures Valid() && p !in old(live) && live == old(live)[p := req]
      ensures u >= SLAB_UNITS ==> TookHanging(old(St()), St(), old(Space()), Space(), u, p)
      ensures u < SLAB_UNITS ==> TookNewMedium(old(St()), St(), old(Space()), Space(), u, p)
      ensures packed == old(packed) && smallbins.bin == old(smallbins.bin)
      ensures Spared(Allocs(old(slabs.regs)), old(slabs.Image()), slabs.Image())
      ensures OnlyAt(old(medbins.lists.next), medbins.lists.next, medbins.free.Keys)
      ensures OnlyAt(old(medbins.lists.prev), medbins.lists.prev, medbins.free.Keys)
    {
      hide OnlyAt, Spared, TakesHanging, TakesNewMedium, TakesSlabs;
      hide StateOk, SlabHeap.Valid, MediumBins.Valid, FreeLists.Bins.Valid, SlabsFor;
      hide Allocs, FlagBits;
      var n := SlabsFor(u);
      SlabsForIs(u);
      ghost var st := St();
      FlagsIn(st);
      var s := NewSlabs(n, false, None);
      if n == 1 {
        p := InitMedium(s, u, req, st);
        assert TakesNewMedium(st, St(), u, p, s);
      } else {
        p := InitLarge(s, u, req, st);
        assert TakesHanging(st, St(), u, p, s);
      }
    }

    // ---------- malloc ----------

    // __int_malloc, for a size that is a positive multiple of MALLOC_ALIGN
    method IntMalloc(size: nat, ghost req: nat) returns (p: nat)
      requires Valid() && size % UNIT == 0 && 0 < size && req <= size
      modifies this, slabs, slabs.bins, slabs.bins.skip, smallbins, medbins, medbins.lists, medbins.skip
      ensures Valid() && p !in old(live) && live == old(live)[p := req]
      ensures Serves(old(St()), St(), old(Space()), Space(), size, p)
      ensures WritesOwn(old(St()).allocs, old(St()), St(), old(Contents()), Contents())
    {
      hide OnlyAt, Spared, WritesOwn, TookMedium, TookHanging, TookTiny, TookNewTiny;
      hide TookNewMedium, HasTiny, HasMedium, StateOk, Valid, IsClass, AdjTinySize, SlabsFor;
      var u := size / UNIT;
      SlabsForIs(u);
      SmallInPacked();
      ghost var st, m := St(), Contents();
      if size <= MAX_TINY {
        AdjTinyIsClass(size);
        var adj := AdjTinySize(size);
        var found := FindTiny(adj, req);
        if found.Some? {
          OwnWrites(st.allocs, st, St(), m, Contents(), st.bin.Keys, {});
          return found.value;
        }
        p := NewTiny(adj, req);
        SmallInPacked();
        OwnWrites(st.allocs, st, St(), m, Contents(), St().bin.Keys, {});
      } else if u <= MAX_MEDIUM_UNITS {
        var found := FindMedium(u, req);
        if found.Some? {
          OwnWrites(st.allocs, st, St(), m, Contents(), {}, st.free.Keys + St().free.Keys);
          return found.value;
        }
        p := NewLargeSlab(u, req);
        OwnWrites(st.allocs, st, St(), m, Contents(), {}, St().free.Keys);
      } else {
        p := NewLargeSlab(u, req);
        OwnWrites(st.allocs, st, St(), m, Contents(), {}, St().free.Keys);
      }
    }

    /** malloc.  NULL for size 0; otherwise an address that was not live and now is, with the
        size asked for, in the place that `Serves` tells. */
    method Malloc(size: nat) returns (p: Ptr)
      requires Valid()
      modifies this, slabs, slabs.bins, slabs.bins.skip, smallbins, medbins, medbins.lists, medbins.skip
      ensures Valid()
      ensures size == 0 ==> p == None && live == old(live)
      ensures size > 0 ==> p.Some? && p.value !in old(live) && live == old(live)[p.value := size]
      ensures size == 0 ==> St() == old(St()) && Space() == old(Space())
      ensures size > 0 ==> Serves(old(St()), St(), old(Space()), Space(), AlignUp(size), p.value)
      ensures WritesOwn(old(St()).allocs, old(St()), St(), old(Contents()), Contents())
    {
      hide OnlyAt, Spared, WritesOwn, Serves, StateOk, Valid, SlabsFor;
      var esize := AlignUp(size);
      if esize == 0 {
        OwnWrites(St().allocs, St(), St(), Contents(), Contents(), {}, {});
        return None;
      }
      AlignUpIs(size);
      var ptr := IntMalloc(esize, size);
      p := Some(ptr);
    }

    // ---------- free ----------

    // the bins of small slabs when a block of s is freed: small_bin_link if it was full, and
    // small_bin_unlink if it has no allocated block left
    method Rebin(s: nat, h: Packed, empty: bool)
      requires smallbins.Valid() && h.size >= 16 && PackedBinIdx(h.size) < |smallbins.heads|
      requires s in smallbins.bin <==> !IsFull(h)
      requires s in smallbins.bin ==> smallbins.bin[s] == PackedBinIdx(h.size)
      modifies smallbins
      ensures smallbins.Valid() && |smallbins.heads| == |old(smallbins.heads)|
      ensures smallbins.bin ==
        if empty then old(smallbins.bin) - {s} else old(smallbins.bin)[s := PackedBinIdx(h.size)]
      ensures OnlyAt(old(smallbins.next), smallbins.next, old(smallbins.bin).Keys + {s})
      ensures OnlyAt(old(smallbins.prev), smallbins.prev, old(smallbins.bin).Keys + {s})
    {
      hide OnlyAt, FreeLists.Bins.Valid, IsFull, PackedBinIdx;
      ghost var next, prev, keys := smallbins.next, smallbins.prev, smallbins.bin.Keys + {s};
      OnlyAtNone(next, keys);
      OnlyAtNone(prev, keys);
      if IsFull(h) {
        smallbins.Link(PackedBinIdx(h.size), s);
      }
      assert smallbins.bin.Keys == keys;
      if empty {
        ghost var next', prev' := smallbins.next, smallbins.prev;
        smallbins.Unlink(s);
        OnlyAtTrans(next, next', smallbins.next, keys, keys);
        OnlyAtTrans(prev, prev', smallbins.prev, keys, keys);
        assert keys + keys == keys;
      }
    }

    // __int_tiny_block_free
    method FreeTiny(s: nat, p: nat)
      requires Valid() && p in live && p >= UNIT && s == PtrSlab(p) && s in packed
      modifies this, slabs, slabs.bins, slabs.bins.skip, smallbins
      ensures Valid() && live == old(live) - {p} && slabs.heapEnd == old(slabs.heapEnd)
      ensures FreedTiny(old(St()), St(), p) && med == old(med) && medbins.free == old(medbins.free)
      ensures Spared(Allocs(slabs.regs), old(slabs.Image()), slabs.Image())
      ensures OnlyAt(old(smallbins.next), smallbins.next, old(smallbins.bin).Keys + {s})
      ensures OnlyAt(old(smallbins.prev), smallbins.prev, old(smallbins.bin).Keys + {s})
    {
      hide OnlyAt, Spared, StateOk, SlabHeap.Valid, MediumBins.Valid;
      hide FreeLists.Bins.Valid, FreeBlock, BlockAddr, IsFull, IsFree;
      hide PackedBinIdx, BitmapOk, FreeSet, IsClass, Capacity, Allocs, FlagBits, FreedTiny;
      ghost var st := St();
      FlagsIn(st);
      ghost var i := TinyIndex(st, p);
      var h := packed[s];
      FreeTinyFacts(st, s, i);
      var idx := (p - SLAB_SIZE * s - HeaderSize(h.size)) / h.size;
      var h' := FreeBlock(h, idx);
      Rebin(s, h, h'.cnt == 0);
      if h'.cnt == 0 {
        ReturnSlab(s, 1);
        TinyGone(st, slabs.flags, s, idx);
        packed := packed - {s};
      } else {
        SparedNone(Allocs(slabs.regs), slabs.Image());
        TinyFreed(st, s, idx);
        packed := packed[s := h'];
      }
      live := live - {p};
      TinyIsFreed(st, St(), s, idx, p);
    }

    // __int_free_remainder_slab of all slabs of s but the first
    method ReleaseTail(s: nat, n: nat, tail: bool) returns (left: nat)
      requires slabs.Valid() && s in Allocs(slabs.regs) && Allocs(slabs.regs)[s] == n >= 1
      requires FlagBits(Allocs(slabs.regs), slabs.flags, packed)
      modifies slabs, slabs.bins, slabs.bins.skip
      ensures left == (if n > 1 && tail then 1 else n)
      ensures slabs.Valid() && Allocs(slabs.regs) == Allocs(old(slabs.regs))[s := left]
      ensures slabs.heapEnd == old(slabs.heapEnd)
      ensures FlagBits(Allocs(slabs.regs), slabs.flags, packed)
      ensures Spared(Allocs(slabs.regs), old(slabs.Image()), slabs.Image())
    {
      hide Spared, SlabHeap.Valid, Allocs, FlagBits, PackedKept;
      SparedNone(Allocs(slabs.regs), slabs.Image());
      left := n;
      if n > 1 && tail {
        ghost var regs, flags := slabs.regs, slabs.flags;
        slabs.AllocatedRegion(s);
        slabs.FreeTail(s, n, 1);
        FlagsKept(regs, flags, slabs.flags, Allocs(slabs.regs), packed, packed);
        left := 1;
      }
    }

    // the free neighbours of block idx leave their bins; start and end are those of the merged block
    method Coalesce(s: nat, h: Header, idx: nat, ghost l: Large, prevFree: bool, nextFree: bool)
      returns (start: nat, end: nat)
      requires medbins.Valid() && BinsFor(medbins.free, s, l) && Rep(h, l.offs, l.alloc) && Shape(l)
      requires idx < |l.offs| == |l.alloc| && prevFree == PrevFree(l, idx) && nextFree == NextFree(l, idx)
      modifies medbins, medbins.lists
      ensures medbins.Valid() && medbins.free == Unlinked(old(medbins.free), s, l, idx)
      ensures start == MergedStart(l, idx) && end == MergedEnd(l, idx)
      ensures OnlyAt(old(medbins.lists.next), medbins.lists.next, old(medbins.free).Keys)
      ensures OnlyAt(old(medbins.lists.prev), medbins.lists.prev, old(medbins.free).Keys)
    {
      hide OnlyAt, MediumBins.Valid, BinsFor, AdjByte, AllocBit, ByteAt, Ascending, Sizes, NoFreePair;
      ghost var next, prev, keys := medbins.lists.next, medbins.lists.prev, medbins.free.Keys;
      OnlyAtNone(next, keys);
      OnlyAtNone(prev, keys);
      UnlinkedHad(medbins.free, s, l, idx);
      HeaderOffsets(h, l, idx);
      if prevFree {
        start := OffsetAt(h.mem, idx - 1);
        medbins.Unlink(Addr(s, start));
      } else {
        start := OffsetAt(h.mem, idx);
      }
      if nextFree {
        ghost var next', prev', keys' := medbins.lists.next, medbins.lists.prev, medbins.free.Keys;
        medbins.Unlink(Addr(s, OffsetAt(h.mem, idx + 1)));
        OnlyAtTrans(next, next', medbins.lists.next, keys, keys');
        OnlyAtTrans(prev, prev', medbins.lists.prev, keys, keys');
        assert keys + keys' == keys;
        end := OffsetAt(h.mem, idx + 2);
      } else {
        end := OffsetAt(h.mem, idx + 1);
      }
    }

    /** medium_bin_free.  A hanging tail goes back to the slab heap, the free neighbours leave
        their bins, and the merged block is linked, or left to the block before it when it is
        too small; a slab without allocated blocks goes back whole. */
    method MediumBinFree(s: nat, idx: nat)
      requires Valid() && s in med && s in large && LargeOk(large[s], med[s])
      requires idx < |med[s].offs| == |med[s].alloc| && med[s].alloc[idx]
      modifies this, slabs, slabs.bins, slabs.bins.skip, medbins, medbins.lists, medbins.skip
      ensures Valid() && live == old(live) - {SLAB_SIZE * s + UNIT * old(med[s]).offs[idx]}
      ensures slabs.heapEnd == old(slabs.heapEnd)
      ensures FreesLarge(old(St()), St(), SLAB_SIZE * s + UNIT * old(med[s]).offs[idx], s, idx)
      ensures Spared(Allocs(slabs.regs), old(slabs.Image()), slabs.Image())
      ensures OnlyAt(old(medbins.lists.next), medbins.lists.next, old(medbins.free).Keys + medbins.free.Keys)
      ensures OnlyAt(old(medbins.lists.prev), medbins.lists.prev, old(medbins.free).Keys + medbins.free.Keys)
    {
      hide OnlyAt, Spared, Allocs, StateOk, Valid, FreedHeader, PrevFreeBit, NextIsFree, LargeOk, AllocBit, Freeing, Freed;
      hide PrevFree, NextFree, Absorbed, MergedStart, MergedEnd, FreesLarge;
      ghost var st, l := St(), med[s];
      FreeTests(large[s], l, idx);
      FreedHeaderOk(large[s], l, idx);
      AbsorbedIs(l, idx);
      var h := large[s].h;
      var prevFree, nextFree := PrevFreeBit(h.bits, idx), NextIsFree(h, large[s].n, idx);
      ghost var image, keys, next, prev := slabs.Image(), medbins.free.Keys, medbins.lists.next, medbins.lists.prev;
      var n, start, end := Detach(s, idx, prevFree, nextFree);
      ghost var image', next', prev', regs := slabs.Image(), medbins.lists.next, medbins.lists.prev, slabs.regs;
      var absorb := end < start + MIN_UNITS;
      assert absorb ==> idx > 0 && AllocBit(h.bits, idx - 1);  // so it is in no bin
      var h' := FreedHeader(h, idx, prevFree, nextFree, absorb);
      if h'.bits == 0 {
        FinishEmpty(s, n, st, idx);
        SparedBoth(Allocs(slabs.regs), Allocs(regs), s, image, image', slabs.Image());
      } else {
        FinishKept(s, LargeHeader(h', n), start, end, absorb, st, idx);
      }
      OnlyAtTrans(next, next', medbins.lists.next, keys, medbins.free.Keys);
      OnlyAtTrans(prev, prev', medbins.lists.prev, keys, medbins.free.Keys);
      LargeIsFreed(st, St(), s, idx);
    }

    method Detach(s: nat, idx: nat, prevFree: bool, nextFree: bool) returns (n: nat, start: nat, end: nat)
      requires Valid() && s in med && s in large && LargeOk(large[s], med[s])
      requires idx < |med[s].offs| == |med[s].alloc| && med[s].alloc[idx]
      requires prevFree == PrevFree(med[s], idx) && nextFree == NextFree(med[s], idx)
      modifies slabs, slabs.bins, slabs.bins.skip, medbins, medbins.lists, medbins.skip
      ensures s in old(St()).med && Freeing(old(St()), s, n, idx) && slabs.heapEnd == old(slabs.heapEnd)
      ensures start == MergedStart(med[s], idx) && end == MergedEnd(med[s], idx) && n == Freed(med[s], idx).n
      ensures Spared(Allocs(slabs.regs), old(slabs.Image()), slabs.Image())
      ensures OnlyAt(old(medbins.lists.next), medbins.lists.next, old(medbins.free).Keys)
      ensures OnlyAt(old(medbins.lists.prev), medbins.lists.prev, old(medbins.free).Keys)
    {
      hide OnlyAt, Spared, StateOk, SlabHeap.Valid, MediumBins.Valid;
      hide FreeLists.Bins.Valid, Shape, Rep, Freed, LargeFreed, AllocBit;
      hide PrevFreeBit, NextIsFree, MergedStart, MergedEnd, Allocs, FlagBits, BinsFor, Unlinked;
      hide PrevFree, NextFree, Releases, Absorbed;
      ghost var st, l := St(), med[s];
      FlagsIn(st);
      LargeOf(st, s);
      FreeTests(large[s], l, idx);
      n := ReleaseTail(s, large[s].n, LargeFreed(large[s].h, idx));
      start, end := Coalesce(s, large[s].h, idx, l, prevFree, nextFree);
    }

    // halfway through freeing block idx of slab s: the neighbours have left their bins, and the
    // slab has its final size
    ghost predicate Freeing(st: State, s: nat, n: nat, idx: nat)
      requires s in st.med && idx < |st.med[s].offs| == |st.med[s].alloc|
      reads this, slabs, slabs.bins, slabs.bins.skip, smallbins, medbins, medbins.lists, medbins.skip
    {
      && Layers() && StateOk(st) && Shape(st.med[s]) && s !in st.packed
      && n == Freed(st.med[s], idx).n && n >= 1 && st.med[s].alloc[idx]
      && St() == st.(allocs := st.allocs[s := n], flags := slabs.flags, free := Unlinked(st.free, s, st.med[s], idx))
      && FlagBits(st.allocs[s := n], slabs.flags, st.packed)
    }

    // the slab has no allocated block left
    method FinishEmpty(s: nat, n: nat, ghost st: State, ghost idx: nat)
      requires s in st.med && idx < |st.med[s].offs| == |st.med[s].alloc|
      requires Freeing(st, s, n, idx) && true !in Freed(st.med[s], idx).alloc
      modifies this, slabs, slabs.bins, slabs.bins.skip
      ensures Valid() && live == st.live - {SLAB_SIZE * s + UNIT * st.med[s].offs[idx]}
      ensures slabs.heapEnd == old(slabs.heapEnd) && Allocs(slabs.regs) == Allocs(old(slabs.regs)) - {s}
      ensures Spared(Allocs(slabs.regs), old(slabs.Image()), slabs.Image())
      ensures OnlyAt(medbins.lists.next, medbins.lists.next, medbins.free.Keys)
      ensures OnlyAt(medbins.lists.prev, medbins.lists.prev, medbins.free.Keys)
      ensures med == st.med - {s}
    {
      hide OnlyAt, Spared, StateOk, SlabHeap.Valid, MediumBins.Valid;
      hide FreeLists.Bins.Valid, Shape, Freed, Allocs, FlagBits, Unlinked;
      hide PackedKept;
      assert s in st.allocs[s := n];
      OnlyAtNone(medbins.lists.next, medbins.free.Keys);
      OnlyAtNone(medbins.lists.prev, medbins.free.Keys);
      ReturnSlab(s, n);
      assert Allocs(slabs.regs) == st.allocs - {s};
      LargeGone(st, slabs.flags, s, idx);
      large, med := large - {s}, med - {s};
      live := live - {SLAB_SIZE * s + UNIT * st.med[s].offs[idx]};
    }

    // the slab stays
    method FinishKept(s: nat, h: LargeHeader, start: nat, end: nat, absorb: bool, ghost st: State, ghost idx: nat)
      requires s in st.med && idx < |st.med[s].offs| == |st.med[s].alloc|
      requires Freeing(st, s, h.n, idx) && LargeOk(h, Freed(st.med[s], idx))
      requires start == MergedStart(st.med[s], idx) && end == MergedEnd(st.med[s], idx)
      requires absorb == Absorbed(st.med[s], idx)
      modifies this, medbins, medbins.lists, medbins.skip
      ensures Valid() && live == st.live - {SLAB_SIZE * s + UNIT * st.med[s].offs[idx]}
      ensures OnlyAt(old(medbins.lists.next), medbins.lists.next, medbins.free.Keys)
      ensures OnlyAt(old(medbins.lists.prev), medbins.lists.prev, medbins.free.Keys)
      ensures med == st.med[s := Freed(st.med[s], idx)]
    {
      hide OnlyAt, StateOk, SlabHeap.Valid, MediumBins.Valid, FreeLists.Bins.Valid, Shape, Freed, Allocs, FlagBits, Unlinked;
      hide LargeOk, MergedStart, MergedEnd, Absorbed, WithBlock;
      ghost var l := st.med[s];
      RelinkFresh(st, s, idx);
      LargeFreedOk(st, slabs.flags, s, idx, h);
      LinkIf(!absorb, Addr(s, start), if absorb then 0 else end - start);
      RelinkedIs(Unlinked(st.free, s, l, idx), s, l, idx);
      Install(s, h, Freed(l, idx), st, live - {SLAB_SIZE * s + UNIT * l.offs[idx]});
    }

    // __int_free: the PACKED bit of the slab tells how
    method IntFree(p: nat)
      requires Valid() && p in live
      modifies this, slabs, slabs.bins, slabs.bins.skip, smallbins, medbins, medbins.lists, medbins.skip
      ensures Valid() && live == old(live) - {p} && slabs.heapEnd == old(slabs.heapEnd)
      ensures if PtrSlab(p) in old(packed) then FreedTiny(old(St()), St(), p) else FreedLarge(old(St()), St(), p)
      ensures WritesOwn(St().allocs, old(St()), St(), old(Contents()), Contents())
    {
      hide OnlyAt, Spared, WritesOwn, FreesLarge, FreedTiny, StateOk, SlabHeap.Valid, MediumBins.Valid, FreeLists.Bins.Valid;
      hide LargeOk, Allocs, Ascending, Sizes, NoFreePair;
      SmallInPacked();
      ghost var st, m := St(), Contents();
      SlabOfLive(St(), p);
      var s := PtrSlab(p);
      slabs.AllocatedRegion(s);
      assert slabs.flags[s].alloc;
      if slabs.flags[s].packed {
        FreeTiny(s, p);
        OwnWrites(St().allocs, st, St(), m, Contents(), st.bin.Keys + {s}, {});
      } else {
        ghost var i := LargeIndex(St(), p);
        assert Rep(large[s].h, med[s].offs, med[s].alloc) by {
          HeaderOf(large[s], med[s]);
        }
        hide Rep;
        var idx := FindBlockPos(large[s].h, med[s], i, (p - SLAB_SIZE * s) / UNIT);
        MediumBinFree(s, idx);
        assert FreesLarge(st, St(), p, s, idx);
        OwnWrites(St().allocs, st, St(), m, Contents(), {}, st.free.Keys + St().free.Keys);
      }
    }

    // free.  Exactly the freed pointer stops being live; the heap does not change its size.
    method Free(p: Ptr)
      requires Valid() && (p.Some? ==> p.value in live)
      modifies this, slabs, slabs.bins, slabs.bins.skip, smallbins, medbins, medbins.lists, medbins.skip
      ensures Valid() && slabs.heapEnd == old(slabs.heapEnd)
      ensures live == if p.Some? then old(live) - {p.value} else old(live)
      ensures p.Some? ==>
        if PtrSlab(p.value) in old(packed) then FreedTiny(old(St()), St(), p.value) else FreedLarge(old(St()), St(), p.value)
      ensures p == None ==> St() == old(St())
      ensures WritesOwn(St().allocs, old(St()), St(), old(Contents()), Contents())
    {
      hide OnlyAt, Spared, WritesOwn, FreedLarge, FreedTiny, Valid;
      if p == None {
        OwnWrites(St().allocs, St(), St(), Contents(), Contents(), {}, {});
        return;
      }
      IntFree(p.value);
    }

    // __int_free_slab, as far as the flags of the other slabs are concerned
    method ReturnSlab(s: nat, n: nat)
      requires slabs.Valid() && s in Allocs(slabs.regs) && Allocs(slabs.regs)[s] == n
      requires FlagBits(Allocs(slabs.regs), slabs.flags, packed)
      modifies slabs, slabs.bins, slabs.bins.skip
      ensures slabs.Valid() && Allocs(slabs.regs) == Allocs(old(slabs.regs)) - {s}
      ensures slabs.heapEnd == old(slabs.heapEnd)
      ensures FlagBits(Allocs(slabs.regs), slabs.flags, packed) && FlagBits(Allocs(slabs.regs), slabs.flags, packed - {s})
      ensures Spared(Allocs(slabs.regs), old(slabs.Image()), slabs.Image())
    {
      hide Spared, SlabHeap.Valid, Allocs, FlagBits, PackedKept;
      ghost var regs, flags := slabs.regs, slabs.flags;
      slabs.AllocatedRegion(s);
      slabs.FreeSlab(s, n);
      FlagsKept(regs, flags, slabs.flags, Allocs(slabs.regs), packed, packed);
      FlagsKept(regs, flags, slabs.flags, Allocs(slabs.regs), packed, packed - {s});
    }
  }

  // a live pointer into a packed slab is that of an allocated block, and its index is computed right
  lemma TinyIndex(st: State, p: nat) returns (idx: nat)
    requires StateOk(st) && p in st.live && p >= UNIT && PtrSlab(p) in st.packed
    ensures var s := PtrSlab(p);
      var h := st.packed[s];
      && h.size > 0 && idx < Capacity(h.size) && !IsFree(h, idx) && p == BlockAddr(h, s, idx)
      && SLAB_SIZE * s + HeaderSize(h.size) <= p && idx == (p - SLAB_SIZE * s - HeaderSize(h.size)) / h.size
  {
    hide StateOk, MedSlot, PackedSlot, PackedOk, IsClass, IsFree, Capacity, BlockAddr;
    ClassOf(st, PtrSlab(p));
    LiveSlot(st, p);
    var hi: nat :| Slot(st.packed, st.med, PtrSlab(p), p, hi);
    idx := SlotIndex(st.packed[PtrSlab(p)], PtrSlab(p), p, hi);
  }

  lemma SlotIndex(h: Packed, s: nat, p: nat, hi: nat) returns (idx: nat)
    requires PackedSlot(h, s, p, hi) && h.size > 0
    ensures idx < Capacity(h.size) && !IsFree(h, idx) && p == BlockAddr(h, s, idx)
    ensures SLAB_SIZE * s + HeaderSize(h.size) <= p && idx == (p - SLAB_SIZE * s - HeaderSize(h.size)) / h.size
  {
    hide IsFree, Capacity;
    idx :| PackedSlotAt(h, s, idx, p, hi);
    QuotientIs(idx, h.size);
  }

  lemma TinyIsFreed(st: State, st': State, s: nat, idx: nat, p: nat)
    requires StateOk(st) && s in st.packed && st.packed[s].size > 0 && p == BlockAddr(st.packed[s], s, idx)
    requires idx < Capacity(st.packed[s].size) && !IsFree(st.packed[s], idx) && idx < 256
    requires (st.packed[s].size <= TWO_LEVEL ==> idx / 16 < |st.packed[s].f2|) && (st.packed[s].size > TWO_LEVEL ==> idx < 64)
    requires st.packed[s].cnt >= 1
    requires var h := FreeBlock(st.packed[s], idx);
      if h.cnt == 0 then st'.packed == st.packed - {s} && st'.allocs == st.allocs - {s}
      else st'.packed == st.packed[s := h] && st'.allocs == st.allocs
    ensures FreedTiny(st, st', p)
  {
    hide StateOk, FreeBlock, IsFull, IsFree, BitmapOk, IsClass, Capacity, BlockAddr, FreeSet;
    ClassOf(st, s);
    FreeOk(st.packed[s], idx);
    forall i: nat | i < Capacity(st.packed[s].size) ensures i in FreeSet(st.packed[s]) <==> IsFree(st.packed[s], i) {
      InFreeSet(st.packed[s], i);
    }
    assert FreesTiny(st, st', p, s, idx);
  }

  lemma LargeIsFreed(st: State, st': State, s: nat, idx: nat)
    requires s in st.med && idx < |st.med[s].offs| == |st.med[s].alloc| && st.med[s].alloc[idx]
    requires st'.med == if true in Freed(st.med[s], idx).alloc then st.med[s := Freed(st.med[s], idx)] else st.med - {s}
    ensures FreesLarge(st, st', SLAB_SIZE * s + UNIT * st.med[s].offs[idx], s, idx)
  {
    hide Freed;
  }

  lemma InFreeSet(h: Packed, i: nat)
    requires h.size > 0 && i < Capacity(h.size)
    ensures i in FreeSet(h) <==> IsFree(h, i)
  {
    hide IsFree, Capacity;
  }

  // what freeing block idx needs to know of its slab
  lemma FreeTinyFacts(st: State, s: nat, idx: nat)
    requires StateOk(st) && s in st.packed && st.packed[s].size > 0
    requires idx < Capacity(st.packed[s].size) && !IsFree(st.packed[s], idx)
    ensures idx < 256 && (st.packed[s].size <= TWO_LEVEL ==> idx / 16 < |st.packed[s].f2|)
    ensures (st.packed[s].size > TWO_LEVEL ==> idx < 64) && st.packed[s].cnt >= 1 && st.packed[s].size >= 16
    ensures PackedBinIdx(st.packed[s].size) < NUM_SMALLBINS && FreeBlock(st.packed[s], idx).size == st.packed[s].size
    ensures s in st.bin <==> !IsFull(st.packed[s])
    ensures s in st.bin ==> st.bin[s] == PackedBinIdx(st.packed[s].size)
    ensures s in st.allocs && st.allocs[s] == 1 && s !in st.med
  {
    hide StateOk, FreeBlock, IsFull, IsFree, PackedBinIdx, BitmapOk, FreeSet, IsClass, Capacity;
    ClassOf(st, s);
    FreeOk(st.packed[s], idx);
    InSmallBin(st, s);
    SizeOfClass(st.packed[s].size);
    BinClassIs(st.packed[s].size);
  }

  lemma LiveSlot(st: State, p: nat)
    requires StateOk(st) && p in st.live
    ensures p >= UNIT && exists hi: nat :: Slot(st.packed, st.med, PtrSlab(p), p, hi) && p + st.live[p] <= hi
  {
    hide Owners, LargeAll, FlagBits, PackedAll, SmallBinned, MedBinned, Slot;
    assert Backed(st.packed, st.med, p, st.live[p]);
  }

  // a live pointer into a large slab is that of an allocated block
  lemma LargeIndex(st: State, p: nat) returns (idx: nat)
    requires StateOk(st) && p in st.live && p >= UNIT && PtrSlab(p) !in st.packed
    ensures var s := PtrSlab(p);
      && s in st.med && s in st.large && LargeOk(st.large[s], st.med[s]) && Shape(st.med[s])
      && idx < |st.med[s].offs| == |st.med[s].alloc| && st.med[s].alloc[idx]
      && p == SLAB_SIZE * s + UNIT * st.med[s].offs[idx]
  {
    LiveSlot(st, p);
    hide StateOk, PackedSlot, Rep, Ascending, Sizes, NoFreePair;
    var s := PtrSlab(p);
    var hi: nat :| Slot(st.packed, st.med, s, p, hi);
    LargeOf(st, s);
    var off: nat, end: nat :| MedSlotAt(st.med[s], s, off, end, p, hi);
    idx :| LiveIdx(st.med[s], idx, off, end);
  }

  // a live pointer is in an allocated slab, and the PACKED bit tells which kind
  lemma SlabOfLive(st: State, p: nat)
    requires StateOk(st) && p in st.live
    ensures p >= UNIT && PtrSlab(p) in st.allocs && PtrSlab(p) < |st.flags|
    ensures st.flags[PtrSlab(p)].packed == (PtrSlab(p) in st.packed)
  {
    LiveSlot(st, p);
    hide LargeAll, PackedAll, SmallBinned, MedBinned, LiveOk, MedSlot, PackedSlot;
  }

  lemma HeaderOf(h: LargeHeader, l: Large)
    requires LargeOk(h, l)
    ensures Rep(h.h, l.offs, l.alloc)
  {
    hide Rep, Ok;
  }

  // what the tests on the header of a large slab say about its blocks
  lemma FreeTests(h: LargeHeader, l: Large, idx: nat)
    requires LargeOk(h, l) && idx < |l.offs| == |l.alloc| && l.alloc[idx]
    ensures idx < MAX_BLOCKS && h.n == l.n
    ensures PrevFreeBit(h.h.bits, idx) == PrevFree(l, idx) && NextIsFree(h.h, h.n, idx) == NextFree(l, idx)
    ensures h.n > 1 && LargeFreed(h.h, idx) <==> Releases(l, idx)
    ensures Freed(l, idx).n == (if Releases(l, idx) then 1 else h.n) && Freed(l, idx).n >= 1
    ensures Absorbed(l, idx) ==> idx > 0 && AllocBit(h.h.bits, idx - 1)
  {
    hide PrevFreeBit, NextIsFree, LargeFreed, AllocBit, AdjByte, ByteAt, Ascending, Sizes, NoFreePair, Absorbed;
    BlockCount(l);
    PrevFreeIs(h.h, l, idx);
    NextIsFreeIs(h.h, l, idx);
    LargeFreedIs(h.h, l, idx);
    if Absorbed(l, idx) {
      AbsorbedCase(l, idx);
    }
  }

  lemma AbsorbedIs(l: Large, idx: nat)
    requires idx < |l.offs| == |l.alloc|
    ensures Absorbed(l, idx) <==> MergedEnd(l, idx) < MergedStart(l, idx) + MIN_UNITS
  {
  }

  // the header word gives the starts around block idx and where they end
  lemma HeaderOffsets(h: Header, l: Large, idx: nat)
    requires Rep(h, l.offs, l.alloc) && idx < |l.offs|
    ensures OffsetAt(h.mem, idx) == l.offs[idx] && OffsetAt(h.mem, idx + 1) == EndOf(l.offs, idx)
    ensures idx > 0 ==> OffsetAt(h.mem, idx - 1) == l.offs[idx - 1]
    ensures idx + 1 < |l.offs| ==> OffsetAt(h.mem, idx + 2) == EndOf(l.offs, idx + 1)
  {
    hide AdjByte, AllocBit, ByteAt;
    OffsetIs(h, l, idx);
    OffsetIs(h, l, idx + 1);
    if idx > 0 {
      OffsetIs(h, l, idx - 1);
    }
    if idx + 1 < |l.offs| {
      OffsetIs(h, l, idx + 2);
    }
  }

  // the merged block is not in a bin yet, and fits one
  lemma RelinkFresh(st: State, s: nat, idx: nat)
    requires StateOk(st) && s in st.med && Shape(st.med[s])
    requires idx < |st.med[s].offs| == |st.med[s].alloc| && st.med[s].alloc[idx]
    ensures var l := st.med[s];
      && MergedStart(l, idx) <= MergedEnd(l, idx)
      && (!Absorbed(l, idx) ==> Addr(s, MergedStart(l, idx)) !in Unlinked(st.free, s, l, idx))
      && (!Absorbed(l, idx) ==> MIN_UNITS <= MergedEnd(l, idx) - MergedStart(l, idx) < SLAB_UNITS)
  {
    hide StateOk, Shape, Unlinked, OthersBinned, MergedStart, MergedEnd, Absorbed, Freed;
    LargeOf(st, s);
    AbsorbedIs(st.med[s], idx);
    MergedInsideSlab(st.med[s], idx);
    UnlinkedOk(st.free, s, st.med[s], idx);
    RelinkedOk(Unlinked(st.free, s, st.med[s], idx), s, st.med[s], idx);
  }

  lemma RelinkedIs(free: map<nat, nat>, s: nat, l: Large, idx: nat)
    requires idx < |l.offs| == |l.alloc| && MergedStart(l, idx) <= MergedEnd(l, idx)
    ensures var absorb := Absorbed(l, idx);
      Relinked(free, s, l, idx) ==
        WithBlock(free, !absorb, Addr(s, MergedStart(l, idx)), if absorb then 0 else MergedEnd(l, idx) - MergedStart(l, idx))
  {
  }

  // the header that medium_bin_free writes back
  function FreedHeader(h: Header, idx: nat, prevFree: bool, nextFree: bool, absorb: bool): Header
    requires idx < MAX_BLOCKS
  {
    Header(FreeWord(h.mem, idx, prevFree, nextFree, absorb), FreeBits(h.bits, idx, prevFree, nextFree))
  }

  // it stands for the blocks after the free
  lemma FreedHeaderOk(h: LargeHeader, l: Large, idx: nat)
    requires LargeOk(h, l) && idx < |l.offs| == |l.alloc| && l.alloc[idx] && idx < MAX_BLOCKS
    ensures var h' := FreedHeader(h.h, idx, PrevFree(l, idx), NextFree(l, idx), Absorbed(l, idx));
      && (h'.bits == 0 <==> true !in Freed(l, idx).alloc)
      && (h'.bits != 0 ==> LargeOk(LargeHeader(h', Freed(l, idx).n), Freed(l, idx)))
  {
    hide Shape, Rep, FreeWord, FreeBits, Freed, Absorbed;
    FreedRep(h.h, l, idx);
    FreedShape(l, idx);
    BitsZeroIs(FreedHeader(h.h, idx, PrevFree(l, idx), NextFree(l, idx), Absorbed(l, idx)),
               Freed(l, idx).offs, Freed(l, idx).alloc);
  }

  lemma AlignUpIs(size: nat)
    ensures AlignUp(size) % UNIT == 0 && size <= AlignUp(size) < size + UNIT
    ensures AlignUp(size) == 0 <==> size == 0
  {
  }

  lemma NewMediumN(u: nat)
    ensures NewMedium(u).n == 1
  {
  }

  lemma NewLargeN(n: nat, u: nat)
    ensures NewLarge(n, u).n == n
  {
  }

  // where block k of the slab starts, and where the last one ends, as the header word has it
  function OffsetAt(mem: bv64, k: nat): nat {
    if k == 0 then HEADER_UNITS else AdjByte(mem, k)
  }

  // an empty bin: no slab of its block size has a free block
  lemma NoTiny(st: State, size: nat)
    requires StateOk(st) && IsClass(size) && forall e :: e in st.bin ==> st.bin[e] != PackedBinIdx(size)
    ensures !HasTiny(st, size)
  {
    hide StateOk, IsClass, PackedBinIdx, FreeSet, IsFull, BitmapOk;
    forall s: nat ensures !PartlyFree(st, size, s) {
      if PartlyFree(st, size, s) {
        ClassOf(st, s);
        FullIs(st.packed[s]);
        InSmallBin(st, s);
      }
    }
  }

  lemma TinyIsTaken(st: State, st': State, s: nat, size: nat, p: nat)
    requires StateOk(st) && s in st.packed && BitmapOk(st.packed[s]) && !IsFull(st.packed[s]) && st.packed[s].size == size
    requires st'.packed == st.packed[s := AllocBlock(st.packed[s])]
    requires p == BlockAddr(AllocBlock(st.packed[s]), s, LeastFree(st.packed[s]))
    ensures HasTiny(st, size) && TookTiny(st, st', size, p) && p >= UNIT && PtrSlab(p) == s
  {
    hide StateOk, IsFree, Capacity, IsFull, BitmapOk, AllocBlock, LeastFree;
    var h := st.packed[s];
    ClassOf(st, s);
    AllocOk(h);
    LeastIs(h);
    assert PartlyFree(st, size, s);
    assert TakesTiny(st, st', size, p, s, LeastFree(h));
    hide BlockAddr, TakesTiny;
    BlockSlab(h, s, LeastFree(h));
  }

  lemma BlockSlab(h: Packed, s: nat, j: nat)
    requires IsClass(h.size) && h.size > 0 && j < Capacity(h.size)
    ensures BlockAddr(h, s, j) >= UNIT && PtrSlab(BlockAddr(h, s, j)) == s
  {
    hide Capacity, IsClass, HeaderSize;
    BlockInSlab(h.size, j);
    HeaderFloor(h.size);
    SlabPart(s, HeaderSize(h.size) + j * h.size, HeaderSize(h.size) + j * h.size);
  }

  lemma NewTinyIsTaken(st: State, st': State, x: Room, x': Room, s: nat, size: nat, p: nat)
    requires IsClass(size) && s !in st.allocs && TakesSlabs(1, x, x', s)
    requires st'.packed == st.packed[s := NewPacked(size)] && p == BlockAddr(NewPacked(size), s, 0)
    ensures TookNewTiny(st, st', x, x', size, p)
  {
    hide IsFree, Capacity, NewPacked, TakesSlabs;
    NewPackedOk(size);
    assert TakesNewTiny(st, st', size, p, s);
  }

  lemma FitIsMedium(st: State, u: nat, r: Option<nat>)
    requires IsBestFit(st.free, u, r)
    ensures r.Some? <==> HasMedium(st, u)
  {
  }

  lemma MediumIsTaken(st: State, st': State, u: nat, p: nat, a: nat, pos: nat)
    requires IsBestFit(st.free, u, Some(a)) && p == UNIT * a && st'.free == TakenFrom(st.free, a, u)
    requires a / SLAB_UNITS in st.med && pos < |st.med[a / SLAB_UNITS].offs| == |st.med[a / SLAB_UNITS].alloc|
    requires st.med[a / SLAB_UNITS].offs[pos] == a % SLAB_UNITS
    requires st'.med == st.med[a / SLAB_UNITS := UnlessRemainder(st.med[a / SLAB_UNITS], pos, u)]
    ensures TookMedium(st, st', u, p)
  {
    hide TakenFrom, UnlessRemainder, IsBestFit;
    assert TakesMedium(st, st', u, p, a, pos);
  }

  lemma BinnedSize(st: State, s: nat, size: nat)
    requires StateOk(st) && IsClass(size) && size >= 16 && s in st.bin && st.bin[s] == PackedBinIdx(size)
    ensures s in st.packed && st.packed[s].size == size && BitmapOk(st.packed[s]) && !IsFull(st.packed[s])
  {
    hide FlagBits, LargeAll, MedBinned, LiveOk, Owners, IsFull, PackedBinIdx, FreeSet, IsClass, Capacity, IsFree;
    assert BinnedSlab(st.packed, s, st.bin[s]);
    BinsOfClasses(st.packed[s].size, size);
  }

  lemma EmptyOk(flags: seq<Flags>)
    ensures StateOk(State(map[], flags, map[], map[], map[], map[], map[], map[]))
  {
    hide MedSlot, PackedSlot;
  }

  lemma FlagsIn(st: State)
    requires StateOk(st)
    ensures FlagBits(st.allocs, st.flags, st.packed) && st.packed.Keys <= st.allocs.Keys
  {
    hide FlagBits, PackedAll, LargeAll, SmallBinned, MedBinned, LiveOk;
  }
}
