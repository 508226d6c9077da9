/** Runs of a program that allocates, frees, and stores into what it has allocated. */
module AllocatorRuns {
  import opened AllocatorSafety
  import opened AllocatorState
  import opened AllocatorSteps
  import opened AllocatorWrites
  import opened Allocators
  import FreeLists
  import opened MediumBinLists
  import opened Options
  import opened PackedSlabs
  import opened SlabHeaps
  import opened Writes

  // malloc(size); free of what call k returned, if that is a live pointer; or a store into byte i
  // of the block that call k returned, if that is live and so long
  datatype Call = Malloc(size: nat) | Free(k: nat) | Write(k: nat, i: nat, f: Flags, w: nat)

  // a value stored at byte i of the heap, in the block at p
  datatype Stored<T> = Stored(p: nat, i: nat, value: T)

  /** What a program knows: its live blocks, and what it last stored in them where a slab that is
      the allocator's would have its flags, or its footer. */
  datatype View = View(live: map<nat, nat>, heads: map<nat, Stored<Flags>>, tails: map<nat, Stored<nat>>)

  // the stores that are left when the block at p is gone
  function Without<T>(stored: map<nat, Stored<T>>, p: nat): map<nat, Stored<T>> {
    map t | t in stored && stored[t].p != p :: stored[t]
  }


  // a store into byte i of the heap, in the block at p
  function Put(view: View, p: nat, i: nat, f: Flags, w: nat): View {
    var t := i / SLAB_SIZE;
    view.(heads := if HeadByte(t, i) then view.heads[t := Stored(p, i, f)] else view.heads,
          tails := if TailByte(t, i) then view.tails[t := Stored(p, i, w)] else view.tails)
  }

  // what one call with result r does to the view, after calls with the given results
  function Step(view: View, c: Call, results: seq<Ptr>, r: Ptr): View {
    match c
    case Malloc(size) => if r.Some? then view.(live := view.live[r.value := size]) else view
    case Free(k) =>
      if k < |results| && results[k].Some? && results[k].value in view.live then
        var p := results[k].value;
        View(view.live - {p}, Without(view.heads, p), Without(view.tails, p))
      else view
    case Write(k, i, f, w) =>
      if k < |results| && results[k].Some? && results[k].value in view.live && i < view.live[results[k].value]
      then Put(view, results[k].value, results[k].value + i, f, w) else view
  }

  // the view after a run, from the calls and their results alone
  function ViewAfter(calls: seq<Call>, results: seq<Ptr>): View
    requires |calls| == |results|
  {
    if calls == [] then View(map[], map[], map[])
    else
      var n := |calls| - 1;
      Step(ViewAfter(calls[..n], results[..n]), calls[n], results[..n], results[n])
  }

  // ---------- what a valid heap means for the program ----------

  // blocks are aligned, inside the heap, and apart from each other
  ghost predicate Blocks(live: map<nat, nat>, end: nat) {
    && (forall p :: p in live ==> p % UNIT == 0 && UNIT <= p && p + live[p] <= SLAB_SIZE * end)
    && (forall p, q :: p in live && q in live && p < q ==> p + live[p] <= q)
  }

  // no byte of a block is the allocator's
  ghost predicate OwnBlocks(regs: map<nat, Region>, st: State) {
    forall p, i :: InBlock(st.live, p, i) ==> !Metadata(regs, st, i)
  }

  lemma ValidMeans(h: Heap)
    requires h.Valid()
    ensures Blocks(h.live, h.slabs.heapEnd) && OwnBlocks(h.slabs.regs, h.St())
  {
    hide StateOk, SlabHeap.Valid, MediumBins.Valid, FreeLists.Bins.Valid, Metadata, Allocs, Tiles;
    HeapParts(h.slabs);
    var regs, end, st := h.slabs.regs, h.slabs.heapEnd, h.St();
    forall p | p in h.live ensures p % UNIT == 0 && UNIT <= p && p + h.live[p] <= SLAB_SIZE * end {
      LiveApart(regs, end, st, p, p);
    }
    forall p, q | p in h.live && q in h.live && p < q ensures p + h.live[p] <= q {
      LiveApart(regs, end, st, p, q);
    }
    forall p, i | InBlock(st.live, p, i) ensures !Metadata(regs, st, i) {
      NoMetadata(regs, end, st, p, i);
    }
  }

  // ---------- what the program stored is still there ----------

  ghost predicate Head(live: map<nat, nat>, flags: seq<Flags>, t: nat, x: Stored<Flags>) {
    t < |flags| && flags[t] == x.value && HeadByte(t, x.i) && InBlock(live, x.p, x.i)
  }

  ghost predicate Tail(live: map<nat, nat>, footer: seq<nat>, t: nat, x: Stored<nat>) {
    t < |footer| && footer[t] == x.value && TailByte(t, x.i) && InBlock(live, x.p, x.i)
  }

  ghost predicate Holds(view: View, live: map<nat, nat>, flags: seq<Flags>, footer: seq<nat>) {
    && view.live == live
    && (forall t :: t in view.heads ==> Head(live, flags, t, view.heads[t]))
    && (forall t :: t in view.tails ==> Tail(live, footer, t, view.tails[t]))
  }

  // what is not written in blocks that stay live keeps its value
  ghost predicate Unwritten(live: map<nat, nat>, live': map<nat, nat>, m: Image, m': Image) {
    && |m.slabs.flags| <= |m'.slabs.flags| && |m.slabs.footer| <= |m'.slabs.footer|
    && forall p, p', i :: InBlock(live, p, i) && InBlock(live', p', i) ==> !Wrote(m, m', i)
  }

  lemma KeepsHead(live: map<nat, nat>, live': map<nat, nat>, m: Image, m': Image, t: nat, x: Stored<Flags>)
    requires Unwritten(live, live', m, m') && Head(live, m.slabs.flags, t, x) && InBlock(live', x.p, x.i)
    ensures Head(live', m'.slabs.flags, t, x)
  {
    assert !Wrote(m, m', x.i);
    assert !WroteFlags(m, m', t, x.i);
  }

  lemma KeepsTail(live: map<nat, nat>, live': map<nat, nat>, m: Image, m': Image, t: nat, x: Stored<nat>)
    requires Unwritten(live, live', m, m') && Tail(live, m.slabs.footer, t, x) && InBlock(live', x.p, x.i)
    ensures Tail(live', m'.slabs.footer, t, x)
  {
    assert !Wrote(m, m', x.i);
    assert !WroteFooter(m, m', t, x.i);
  }

  lemma MallocHolds(view: View, live: map<nat, nat>, live': map<nat, nat>, m: Image, m': Image)
    requires Holds(view, live, m.slabs.flags, m.slabs.footer) && Unwritten(live, live', m, m')
    requires forall p :: p in live ==> p in live' && live'[p] == live[p]
    ensures Holds(view.(live := live'), live', m'.slabs.flags, m'.slabs.footer)
  {
    hide Unwritten;
    forall t | t in view.heads ensures Head(live', m'.slabs.flags, t, view.heads[t]) {
      KeepsHead(live, live', m, m', t, view.heads[t]);
    }
    forall t | t in view.tails ensures Tail(live', m'.slabs.footer, t, view.tails[t]) {
      KeepsTail(live, live', m, m', t, view.tails[t]);
    }
  }

  lemma FreeHolds(view: View, live: map<nat, nat>, m: Image, m': Image, p: nat)
    requires Holds(view, live, m.slabs.flags, m.slabs.footer) && Unwritten(live, live - {p}, m, m')
    ensures Holds(View(live - {p}, Without(view.heads, p), Without(view.tails, p)), live - {p}, m'.slabs.flags, m'.slabs.footer)
  {
    hide Unwritten;
    var live' := live - {p};
    var heads, tails := Without(view.heads, p), Without(view.tails, p);
    forall t | t in heads ensures Head(live', m'.slabs.flags, t, heads[t]) {
      KeepsHead(live, live', m, m', t, heads[t]);
    }
    forall t | t in tails ensures Tail(live', m'.slabs.footer, t, tails[t]) {
      KeepsTail(live, live', m, m', t, tails[t]);
    }
  }

  lemma PutHolds(view: View, live: map<nat, nat>, flags: seq<Flags>, footer: seq<nat>, p: nat, i: nat, f: Flags, w: nat)
    requires Holds(view, live, flags, footer) && InBlock(live, p, i) && i / SLAB_SIZE < |flags| == |footer|
    ensures var t := i / SLAB_SIZE;
      Holds(Put(view, p, i, f, w), live, if HeadByte(t, i) then flags[t := f] else flags,
            if TailByte(t, i) then footer[t := w] else footer)
  {
    hide InBlock, HeadByte, TailByte;
  }

  // ---------- runs ----------

  lemma HeapWrites(h: Heap, regs: map<nat, Region>, end: nat, st: State, m: Image, allocs: map<nat, nat>)
    requires h.Valid() && Tiles(regs, end) && st.allocs == Allocs(regs) && StateOk(st) && m.packed == st.packed && m.large == st.large
    requires end == |m.slabs.flags| && (allocs == st.allocs || allocs == h.St().allocs)
    requires WritesOwn(allocs, st, h.St(), m, h.Contents())
    ensures Unwritten(st.live, h.live, m, h.Contents())
  {
    hide StateOk, SlabHeap.Valid, MediumBins.Valid, FreeLists.Bins.Valid, Allocs, Tiles, Wrote, InBlock, OnlyAt;
    HeapParts(h.slabs);
    forall p, p', i | InBlock(st.live, p, i) && InBlock(h.live, p', i) ensures !Wrote(m, h.Contents(), i) {
      LiveUnwritten(regs, end, st, m, h.slabs.regs, h.slabs.heapEnd, h.St(), h.Contents(), allocs, p, p', i);
    }
  }

  lemma HeapState(h: Heap)
    requires h.Valid()
    ensures Tiles(h.slabs.regs, h.slabs.heapEnd) && h.St().allocs == Allocs(h.slabs.regs) && StateOk(h.St())
    ensures |h.slabs.flags| == |h.slabs.footer| == h.slabs.heapEnd
    ensures h.Contents().packed == h.St().packed && h.Contents().large == h.St().large && h.St().live == h.live
  {
    HeapParts(h.slabs);
  }

  // one call; live are the live blocks
  method Perform(h: Heap, c: Call, results: seq<Ptr>, live: map<nat, nat>, ghost view: View)
    returns (r: Ptr, live': map<nat, nat>)
    requires h.Valid() && live == h.live && Holds(view, h.live, h.slabs.flags, h.slabs.footer)
    modifies h, h.slabs, h.slabs.bins, h.slabs.bins.skip, h.smallbins, h.medbins, h.medbins.lists, h.medbins.skip
    ensures h.Valid() && live' == h.live && Holds(Step(view, c, results, r), h.live, h.slabs.flags, h.slabs.footer)
    ensures c.Malloc? && c.size > 0 ==> r.Some? && r.value !in view.live
  {
    hide Heap.Valid, StateOk, Holds, Put, WritesOwn, Tiles, Unwritten, Without;
    r, live' := None, live;
    HeapState(h);
    assert view.live == h.live by {
      HoldsLive(view, h.live, h.slabs.flags, h.slabs.footer);
    }
    ghost var regs, end, st, m := h.slabs.regs, h.slabs.heapEnd, h.St(), h.Contents();
    if c.Malloc? {
      r := h.Malloc(c.size);
      if r.Some? {
        live' := live[r.value := c.size];
      }
      HeapWrites(h, regs, end, st, m, st.allocs);
      MallocHolds(view, st.live, h.live, m, h.Contents());
    } else if c.k < |results| && results[c.k].Some? && results[c.k].value in live {
      var p := results[c.k].value;
      if c.Free? {
        h.Free(Some(p));
        live' := live - {p};
        HeapWrites(h, regs, end, st, m, h.St().allocs);
        FreeHolds(view, st.live, m, h.Contents(), p);
      } else if c.i < live[p] {
        Store(h, p, p + c.i, c.f, c.w);
        PutHolds(view, h.live, m.slabs.flags, m.slabs.footer, p, p + c.i, c.f, c.w);
      }
    }
  }

  lemma HoldsLive(view: View, live: map<nat, nat>, flags: seq<Flags>, footer: seq<nat>)
    requires Holds(view, live, flags, footer)
    ensures view.live == live
  {
  }

  /** Any run of malloc, free and stores into live blocks from mm_init: every malloc of a positive
      size returns an address that is not live at that point.  After the run the live blocks, which
      follow from the calls and their results alone, are aligned, inside the heap, apart from each
      other and from all that the allocator keeps for itself; and where the program has stored into
      them, whatever lay beneath, what it stored last is still there. */
  method Run(calls: seq<Call>) returns (h: Heap, results: seq<Ptr>)
    ensures h.Valid() && |results| == |calls|
    ensures Holds(ViewAfter(calls, results), h.live, h.slabs.flags, h.slabs.footer)
    ensures forall i :: 0 <= i < |calls| && calls[i].Malloc? && calls[i].size > 0 ==>
      results[i].Some? && results[i].value !in ViewAfter(calls[..i], results[..i]).live
    ensures Blocks(h.live, h.slabs.heapEnd) && OwnBlocks(h.slabs.regs, h.St())
  {
    hide Heap.Valid, StateOk, Blocks, OwnBlocks, Holds, Step;
    h := new Heap();
    results := [];
    var live: map<nat, nat> := map[];
    ghost var view := View(map[], map[], map[]);
    EmptyHolds(h.slabs.flags, h.slabs.footer);
    for n := 0 to |calls|
      invariant h.Valid() && fresh(h.Repr()) && live == h.live
      invariant |results| == n && view == ViewAfter(calls[..n], results)
      invariant Holds(view, h.live, h.slabs.flags, h.slabs.footer)
      invariant forall i :: 0 <= i < n && calls[i].Malloc? && calls[i].size > 0 ==>
        results[i].Some? && results[i].value !in ViewAfter(calls[..i], results[..i]).live
    {
      var r;
      r, live := Perform(h, calls[n], results, live, view);
      ViewStep(calls, results, r, n);
      view := Step(view, calls[n], results, r);
      results := results + [r];
    }
    assert calls[..|calls|] == calls;
    ValidMeans(h);
  }

  lemma EmptyHolds(flags: seq<Flags>, footer: seq<nat>)
    ensures Holds(View(map[], map[], map[]), map[], flags, footer)
  {
  }

  lemma ViewStep(calls: seq<Call>, results: seq<Ptr>, r: Ptr, n: nat)
    requires n < |calls| && |results| == n
    ensures ViewAfter(calls[..n + 1], results + [r]) == Step(ViewAfter(calls[..n], results), calls[n], results, r)
    ensures forall i :: 0 <= i <= n ==> (results + [r])[..i] == results[..i]
  {
    hide Step;
    assert calls[..n + 1][..n] == calls[..n];
    assert (results + [r])[..n] == results;
  }
}
