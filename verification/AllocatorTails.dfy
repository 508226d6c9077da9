/** A run that ends with a slab whose tail stays behind after the block that hung into it is freed. */
module AllocatorTails {
  import opened AllocatorState
  import opened AllocatorSteps
  import opened Allocators
  import FreeLists
  import opened MediumBinLists
  import opened MediumBlocks
  import opened Options
  import opened PackedSlabs
  import opened SlabHeaps

  lemma {:induction false} FilledAt(k: nat, i: nat)
    requires k <= 6 && i < k + 2
    ensures Filled(k).n == 2 && Filled(k).hang
    ensures Filled(k).offs[i] == (if i <= k then 1 + 32 * i else 225) && Filled(k).alloc[i] == (i != k)
  {
    if k > 0 {
      var before := Filled(k - 1);
      SplitAt(before, k - 1, MIN_UNITS, i);
      SplitFields(before, k - 1, MIN_UNITS);
      FilledAt(k - 1, 0);
      FilledAt(k - 1, k - 1);
      FilledAt(k - 1, if i <= k - 1 then i else if i == k then k - 1 else k);
      hide Split;
    }
  }

  lemma FilledPos(k: nat, pos: nat)
    requires k <= 6 && pos < k + 2 && Filled(k).offs[pos] == 1 + 32 * k
    ensures pos == k
  {
    FilledAt(k, pos);
  }

  // the only free block, of which the next 512 bytes are taken
  ghost predicate HasFilled(st: State, s: nat, k: nat) {
    k <= 6 && st.med == map[s := Filled(k)] && st.free == map[Addr(s, 1 + 32 * k) := 224 - 32 * k]
  }

  lemma FillStep(st: State, st': State, x: Room, x': Room, s: nat, k: nat, p: nat)
    requires HasFilled(st, s, k) && Serves(st, st', x, x', UNIT * 32, p)
    ensures k < 6 ==> HasFilled(st', s, k + 1)
    ensures k == 6 ==> st'.med == map[s := Taken(Filled(6), 6)] && st'.free == map[]
  {
    hide Split, Taken, Filled, TookNewMedium;
    assert HasMedium(st, 32) by {
      assert st.free[Addr(s, 1 + 32 * k)] >= 32;
    }
    var a: nat, pos: nat :| TakesMedium(st, st', 32, p, a, pos);
    assert a == Addr(s, 1 + 32 * k);
    assert a / MediumBlocks.SLAB_UNITS == s && a % MediumBlocks.SLAB_UNITS == 1 + 32 * k;
    FilledPos(k, pos);
    FilledAt(k, k);
    FilledAt(k, k + 1);
    FilledNext(k);
    assert st.med[s] == Filled(k);
    assert st'.med == map[s := UnlessRemainder(Filled(k), k, 32)];
    if k < 6 {
      assert st'.free == map[Addr(s, 1 + 32 * (k + 1)) := 224 - 32 * (k + 1)];
    }
  }

  lemma FilledNext(k: nat)
    ensures k < 6 ==> Filled(k + 1) == Split(Filled(k), k, 32)
  {
  }

  lemma HangStart(st: State, st': State, x: Room, x': Room, p: nat) returns (s: nat)
    requires st.med == map[] && st.free == map[] && Serves(st, st', x, x', UNIT * 287, p)
    ensures HasFilled(st', s, 0) && p == SLAB_SIZE * s + UNIT * 225
  {
    hide TakesSlabs;
    s :| TakesHanging(st, st', 287, p, s) && TakesSlabs(SlabsFor(287), x, x', s);
    assert SlabsFor(287) == 2;
  }

  lemma NotPacked(h: Heap, s: nat)
    requires h.Valid() && s in h.med
    ensures s !in h.packed
  {
    hide FlagBits, PackedAll, LargeAll, SmallBinned, MedBinned, LiveOk, SlabHeap.Valid, MediumBins.Valid, FreeLists.Bins.Valid;
  }

  lemma TailFreed(st: State, st': State, s: nat, p: nat)
    requires st.med == map[s := Taken(Filled(6), 6)] && p == SLAB_SIZE * s + UNIT * 225 && FreedLarge(st, st', p)
    ensures s in st'.med && st'.med[s].n == 2 && !st'.med[s].hang
  {
    DeadTail();
    hide Filled, Taken, Freed;
    var t: nat, idx: nat :| FreesLarge(st, st', p, t, idx);
    assert t == s && st.med[s].offs[idx] == 225;
    assert idx == 7;
  }

  // malloc(4592), seven times malloc(512), and free of the first block
  method DeadTailRun() returns (h: Heap, ghost s: nat)
    ensures h.Valid() && s in h.med && h.med[s].n == 2 && !h.med[s].hang
  {
    hide Heap.Valid, Serves, FreedLarge, WritesOwn, Filled, Taken, Addr, StateOk;
    h := new Heap();
    ghost var st, x := h.St(), h.Space();
    var large := h.Malloc(4592);
    assert AlignUp(4592) == UNIT * 287 && AlignUp(512) == UNIT * 32;
    s := HangStart(st, h.St(), x, h.Space(), large.value);
    for k := 0 to 7
      invariant h.Valid() && fresh(h.Repr()) && large.Some? && large.value in h.live && large.value == SLAB_SIZE * s + UNIT * 225
      invariant k < 7 ==> HasFilled(h.St(), s, k)
      invariant k == 7 ==> h.med == map[s := Taken(Filled(6), 6)]
    {
      st, x := h.St(), h.Space();
      var p := h.Malloc(512);
      FillStep(st, h.St(), x, h.Space(), s, k, p.value);
    }
    st := h.St();
    assert s in h.med;
    NotPacked(h, s);
    UnitPart(s, 225);
    h.Free(large);
    TailFreed(st, h.St(), s, large.value);
  }
}
