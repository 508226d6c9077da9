/** What malloc and free write: their own data and nothing else, so that the contents of a live
    block are the program's alone. */
module AllocatorWrites {
  import opened AllocatorSafety
  import opened AllocatorState
  import opened AllocatorSteps
  import opened Allocators
  import opened MediumBlocks
  import opened PackedSlabs
  import opened SlabBinLists
  import opened SlabHeaps
  import opened Writes

  // ---------- the bytes that an operation writes ----------

  // the flags byte of slab t
  ghost predicate WroteFlags(m: Image, m': Image, t: nat, i: nat) {
    t < |m.slabs.flags| <= |m'.slabs.flags| && m'.slabs.flags[t] != m.slabs.flags[t] && HeadByte(t, i)
  }

  // the last word of slab t
  ghost predicate WroteFooter(m: Image, m': Image, t: nat, i: nat) {
    t < |m.slabs.footer| <= |m'.slabs.footer| && m'.slabs.footer[t] != m.slabs.footer[t] && TailByte(t, i)
  }

  // next, prev and num_slabs of the free slab t
  ghost predicate WroteNode(m: Image, m': Image, t: nat, i: nat) {
    !SameNode(m.slabs.nodes, m'.slabs.nodes, t) && SLAB_SIZE * t + 8 <= i < SLAB_SIZE * t + 32
  }

  // next_p and prev_p of the packed slab t
  ghost predicate WroteSmall(m: Image, m': Image, t: nat, i: nat) {
    && !(SameAt(m.smallNext, m'.smallNext, t) && SameAt(m.smallPrev, m'.smallPrev, t))
    && SLAB_SIZE * t + 8 <= i < SLAB_SIZE * t + 24
  }

  // next and prev of the free medium block a
  ghost predicate WroteMedium(m: Image, m': Image, a: nat, i: nat) {
    && !(SameAt(m.medNext, m'.medNext, a) && SameAt(m.medPrev, m'.medPrev, a))
    && UNIT * a <= i < UNIT * a + 16
  }

  // the size class, count and bitmaps of the packed slab t
  ghost predicate WrotePacked(m: Image, m': Image, t: nat, i: nat) {
    !SameAt(m.packed, m'.packed, t) && ((t in m.packed && InHeader(m.packed, t, i)) || (t in m'.packed && InHeader(m'.packed, t, i)))
  }

  // the offsets, alloc bits and size of the large slab t
  ghost predicate WroteLarge(m: Image, m': Image, t: nat, i: nat) {
    !SameAt(m.large, m'.large, t) && SLAB_SIZE * t <= i < SLAB_SIZE * t + UNIT * HEADER_UNITS
  }

  ghost predicate Wrote(m: Image, m': Image, i: nat) {
    || (exists t :: WroteFlags(m, m', t, i)) || (exists t :: WroteFooter(m, m', t, i))
    || (exists t :: WroteNode(m, m', t, i)) || (exists t :: WroteSmall(m, m', t, i))
    || (exists a :: WroteMedium(m, m', a, i)) || (exists t :: WrotePacked(m, m', t, i))
    || (exists t :: WroteLarge(m, m', t, i))
  }

  // ---------- they are the allocator's ----------

  // a slab outside allocated regions is all metadata, and the first 16 bytes of one that does not
  // lie inside one are
  lemma OwnBytes(regs: map<nat, Region>, end: nat, st: State, t: nat, i: nat)
    requires Tiles(regs, end) && st.allocs == Allocs(regs) && t < end && SLAB_SIZE * t <= i < SLAB_SIZE * (t + 1)
    ensures !Used(st.allocs, t) ==> Metadata(regs, st, i)
    ensures !Interior(st.allocs, t) && i < SLAB_SIZE * t + UNIT ==> Metadata(regs, st, i)
  {
    assert Covered(regs, t);
    var r: nat :| In(regs, r, t);
    if regs[r].alloc {
      assert r in st.allocs && st.allocs[r] == regs[r].size;
      if !Interior(st.allocs, t) {
        assert InHeader(st.packed, t, i) <== i < SLAB_SIZE * t + UNIT by {
          HeaderNonempty(st.packed, t);
        }
      }
    } else {
      assert InRegion(regs[r].size, r, i);
    }
  }

  // a slab in use has a header of at least 16 bytes; that of a packed slab has 32
  lemma HeaderBytesOwn(regs: map<nat, Region>, st: State, t: nat, i: nat)
    requires StateOk(st) && t in st.allocs && SLAB_SIZE * t <= i
    ensures i < SLAB_SIZE * t + UNIT ==> Metadata(regs, st, i)
    ensures t in st.packed && i < SLAB_SIZE * t + 32 ==> Metadata(regs, st, i)
    ensures t in st.packed && InHeader(st.packed, t, i) ==> Metadata(regs, st, i)
  {
    hide StateOk;
    HeaderNonempty(st.packed, t);
    assert i < SLAB_SIZE * t + UNIT ==> InHeader(st.packed, t, i);
    assert t in st.packed && i < SLAB_SIZE * t + 32 ==> InHeader(st.packed, t, i);
  }

  lemma FreeBlockOwn(regs: map<nat, Region>, st: State, a: nat, i: nat)
    requires StateOk(st) && a in st.free && UNIT * a <= i < UNIT * a + 16
    ensures Metadata(regs, st, i)
  {
    FreeSize(st, a);
    assert AllocatorSafety.InMedium(st.free[a], a, i);
  }

  lemma FreeSize(st: State, a: nat)
    requires StateOk(st) && a in st.free
    ensures st.free[a] >= 1
  {
    hide StateOk, LargeOk, Shape;
    var pos := BinnedIndex(st, a);
    BlockNonempty(st.med[a / MediumBlocks.SLAB_UNITS], pos);
  }

  lemma BlockNonempty(l: Large, pos: nat)
    requires Shape(l) && pos < |l.offs| && !l.alloc[pos]
    ensures EndOf(l.offs, pos) > l.offs[pos]
  {
  }

  lemma HeadersInUse(st: State, t: nat)
    requires StateOk(st)
    ensures t in st.packed || t in st.large ==> t in st.allocs
  {
    hide FlagBits, SmallBinned, MedBinned, LiveOk, PackedAll, LargeOk;
  }

  /** Whatever malloc or free writes in the heap is metadata before, or metadata after. */
  lemma WritesAreMetadata(regs: map<nat, Region>, end: nat, st: State, m: Image,
                          regs': map<nat, Region>, end': nat, st': State, m': Image, allocs: map<nat, nat>, i: nat)
    requires Tiles(regs, end) && st.allocs == Allocs(regs) && StateOk(st) && m.packed == st.packed && m.large == st.large
    requires Tiles(regs', end') && st'.allocs == Allocs(regs') && StateOk(st') && m'.packed == st'.packed && m'.large == st'.large
    requires end <= end' && i < SLAB_SIZE * end && (allocs == st.allocs || allocs == st'.allocs)
    requires WritesOwn(allocs, st, st', m, m') && Wrote(m, m', i)
    ensures Metadata(regs, st, i) || Metadata(regs', st', i)
  {
    hide StateOk, Tiles, Metadata, Allocs, InHeader;
    if t :| WroteFlags(m, m', t, i) || WroteFooter(m, m', t, i) || WroteNode(m, m', t, i) {
      hide WritesOwn, Wrote;
      SlabWrites(allocs, st, st', m, m', t, i);
      if allocs == st.allocs {
        OwnBytes(regs, end, st, t, i);
      } else {
        OwnBytes(regs', end', st', t, i);
      }
    } else if t :| WroteSmall(m, m', t, i) {
      HeadersInUse(st, t);
      HeadersInUse(st', t);
      if t in st.packed {
        HeaderBytesOwn(regs, st, t, i);
      } else {
        HeaderBytesOwn(regs', st', t, i);
      }
    } else if a :| WroteMedium(m, m', a, i) {
      if a in st.free {
        FreeBlockOwn(regs, st, a, i);
      } else {
        FreeBlockOwn(regs', st', a, i);
      }
    } else if t :| WrotePacked(m, m', t, i) {
      HeadersInUse(st, t);
      HeadersInUse(st', t);
      HeaderStart(m, m', t, i);
      if t in st.packed && InHeader(st.packed, t, i) {
        HeaderBytesOwn(regs, st, t, i);
      } else {
        HeaderBytesOwn(regs', st', t, i);
      }
    } else {
      var t :| WroteLarge(m, m', t, i);
      HeadersInUse(st, t);
      HeadersInUse(st', t);
      if t in st.large {
        HeaderBytesOwn(regs, st, t, i);
      } else {
        HeaderBytesOwn(regs', st', t, i);
      }
    }
  }

  lemma HeaderStart(m: Image, m': Image, t: nat, i: nat)
    requires WrotePacked(m, m', t, i)
    ensures SLAB_SIZE * t <= i
  {
  }

  // tags and nodes of slabs are written outside allocated regions, or in the header of their first slab
  lemma SlabWrites(allocs: map<nat, nat>, st: State, st': State, m: Image, m': Image, t: nat, i: nat)
    requires WritesOwn(allocs, st, st', m, m')
    requires WroteFlags(m, m', t, i) || WroteFooter(m, m', t, i) || WroteNode(m, m', t, i)
    ensures SLAB_SIZE * t <= i < SLAB_SIZE * (t + 1)
    ensures !Used(allocs, t) || (!Interior(allocs, t) && i < SLAB_SIZE * t + UNIT)
  {
    hide Used, Interior, OnlyAt;
  }

  /** So no byte of a block that is live before and after is written. */
  lemma LiveUnwritten(regs: map<nat, Region>, end: nat, st: State, m: Image,
                      regs': map<nat, Region>, end': nat, st': State, m': Image, allocs: map<nat, nat>, p: nat, p': nat, i: nat)
    requires Tiles(regs, end) && st.allocs == Allocs(regs) && StateOk(st) && m.packed == st.packed && m.large == st.large
    requires Tiles(regs', end') && st'.allocs == Allocs(regs') && StateOk(st') && m'.packed == st'.packed && m'.large == st'.large
    requires end <= end' && (allocs == st.allocs || allocs == st'.allocs) && WritesOwn(allocs, st, st', m, m')
    requires InBlock(st.live, p, i) && InBlock(st'.live, p', i)
    ensures !Wrote(m, m', i)
  {
    hide StateOk, Tiles, Metadata, Allocs, InBlock, WritesOwn, Wrote;
    StoreIsInside(regs, end, st, p, i);
    NoMetadata(regs, end, st, p, i);
    NoMetadata(regs', end', st', p', i);
    if Wrote(m, m', i) {
      WritesAreMetadata(regs, end, st, m, regs', end', st', m', allocs, i);
    }
  }
}
