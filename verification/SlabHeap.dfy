/** The slab layer: the heap is a row of 4096-byte slabs, divided into regions of contiguous
    slabs with boundary tags.  Slabs are named by their index from `heap_start`. */
module SlabHeaps {
  import opened Options
  import opened SlabBinLists
  import opened Writes

  // one region of contiguous slabs
  datatype Region = Region(size: nat, alloc: bool)

  // the flags byte of a slab
  datatype Flags = Flags(alloc: bool, prevAlloc: bool, packed: bool)

  // ---------- regions ----------

  ghost predicate In(regs: map<nat, Region>, r: nat, i: nat) {
    r in regs && r <= i < r + regs[r].size
  }

  ghost predicate Covered(regs: map<nat, Region>, i: nat) {
    exists r: nat :: In(regs, r, i)
  }

  // the regions cover the heap exactly, without overlap
  ghost predicate Tiles(regs: map<nat, Region>, end: nat) {
    && (forall r :: r in regs ==> regs[r].size >= 1 && r + regs[r].size <= end)
    && (forall r, q :: r in regs && q in regs && r < q ==> r + regs[r].size <= q)
    && (forall i: nat :: i < end ==> Covered(regs, i))
  }

  ghost predicate Adjacent(regs: map<nat, Region>, r: nat, q: nat) {
    r in regs && q in regs && r + regs[r].size == q
  }

  ghost predicate NoFreeNeighbours(regs: map<nat, Region>) {
    forall r: nat, q: nat :: Adjacent(regs, r, q) ==> regs[r].alloc || regs[q].alloc
  }

  ghost function Allocs(regs: map<nat, Region>): map<nat, nat> {
    map r | r in regs && regs[r].alloc :: regs[r].size
  }

  ghost function Frees(regs: map<nat, Region>): map<nat, nat> {
    map r | r in regs && !regs[r].alloc :: regs[r].size
  }

  // ---------- boundary tags ----------

  // PREV_ALLOC tells the state of the region before; the first region has it set
  ghost predicate PrevBits(regs: map<nat, Region>, flags: seq<Flags>) {
    && (0 in regs ==> 0 < |flags| && flags[0].prevAlloc)
    && (forall r: nat, q: nat :: Adjacent(regs, r, q) ==> q < |flags| && flags[q].prevAlloc == regs[r].alloc)
  }

  // the alloc bit of each region
  ghost predicate Heads(regs: map<nat, Region>, flags: seq<Flags>) {
    forall r :: r in regs ==> r < |flags| && flags[r].alloc == regs[r].alloc
  }

  // the last word of a free region repeats its size
  ghost predicate Foots(regs: map<nat, Region>, footer: seq<nat>) {
    forall r :: r in regs && !regs[r].alloc ==> FootAt(footer, r, regs[r].size)
  }

  ghost predicate FootAt(footer: seq<nat>, r: nat, size: nat) {
    1 <= size && r + size <= |footer| && footer[r + size - 1] == size
  }

  // LAST_SLAB_ALLOC
  ghost predicate LastBit(regs: map<nat, Region>, end: nat, lastAlloc: bool) {
    && (end == 0 ==> lastAlloc)
    && (forall r :: r in regs && r + regs[r].size == end ==> lastAlloc == regs[r].alloc)
  }

  ghost predicate HeapOk(regs: map<nat, Region>, flags: seq<Flags>, footer: seq<nat>, end: nat, lastAlloc: bool) {
    && |flags| == end && |footer| == end
    && Tiles(regs, end) && NoFreeNeighbours(regs)
    && Heads(regs, flags) && Foots(regs, footer) && PrevBits(regs, flags)
    && LastBit(regs, end, lastAlloc)
  }

  // ---------- finding neighbours ----------

  // the slab before a region belongs to a region that ends there
  lemma Before(regs: map<nat, Region>, end: nat, q: nat) returns (r: nat)
    requires Tiles(regs, end) && 0 < q && (q in regs || q == end)
    ensures Adjacent(regs, r, q) || (q == end && r in regs && r + regs[r].size == end)
  {
    assert Covered(regs, q - 1);
    r :| In(regs, r, q - 1);
  }

  // a region that does not end the heap is followed by another
  lemma After(regs: map<nat, Region>, end: nat, r: nat)
    requires Tiles(regs, end) && r in regs && r + regs[r].size < end
    ensures Adjacent(regs, r, r + regs[r].size)
  {
    assert Covered(regs, r + regs[r].size);
    var q: nat :| In(regs, q, r + regs[r].size);
  }

  // ---------- the region maps after each operation ----------

  // the first n slabs of the free region s become allocated
  ghost function Take(regs: map<nat, Region>, s: nat, n: nat): map<nat, Region>
    requires s in regs && 1 <= n <= regs[s].size
  {
    if regs[s].size == n then regs[s := Region(n, true)]
    else regs[s := Region(n, true)][s + n := Region(regs[s].size - n, false)]
  }

  lemma TakeCovers(regs: map<nat, Region>, end: nat, s: nat, n: nat)
    requires Tiles(regs, end) && s in regs && 1 <= n <= regs[s].size
    ensures forall i: nat :: i < end ==> Covered(Take(regs, s, n), i)
  {
    forall i: nat | i < end ensures Covered(Take(regs, s, n), i) {
      assert Covered(regs, i);
      var r: nat :| In(regs, r, i);
      assert In(Take(regs, s, n), if r == s && i >= s + n then s + n else r, i);
    }
  }

  lemma TakeTiles(regs: map<nat, Region>, end: nat, s: nat, n: nat)
    requires Tiles(regs, end) && s in regs && 1 <= n <= regs[s].size
    ensures Tiles(Take(regs, s, n), end)
  {
    TakeCovers(regs, end, s, n);
  }

  lemma TakeNeighbours(regs: map<nat, Region>, end: nat, s: nat, n: nat)
    requires Tiles(regs, end) && NoFreeNeighbours(regs)
    requires s in regs && !regs[s].alloc && 1 <= n <= regs[s].size
    ensures NoFreeNeighbours(Take(regs, s, n))
  {
    var regs' := Take(regs, s, n);
    var size := regs[s].size;
    forall r: nat, q: nat | Adjacent(regs', r, q) ensures regs'[r].alloc || regs'[q].alloc {
      if r == s + n && size > n {
        assert Adjacent(regs, s, q);
      } else if r != s && q != s {
        assert q != s + n;
        assert Adjacent(regs, r, q);
      }
    }
  }

  // an allocated region cut in two allocated ones
  ghost function Cut(regs: map<nat, Region>, r: nat, k: nat): map<nat, Region>
    requires r in regs && 1 <= k < regs[r].size
  {
    regs[r := Region(k, true)][r + k := Region(regs[r].size - k, true)]
  }

  lemma CutCovers(regs: map<nat, Region>, end: nat, r: nat, k: nat)
    requires Tiles(regs, end) && r in regs && 1 <= k < regs[r].size
    ensures forall i: nat :: i < end ==> Covered(Cut(regs, r, k), i)
  {
    forall i: nat | i < end ensures Covered(Cut(regs, r, k), i) {
      assert Covered(regs, i);
      var q: nat :| In(regs, q, i);
      assert In(Cut(regs, r, k), if q == r && i >= r + k then r + k else q, i);
    }
  }

  lemma CutTiles(regs: map<nat, Region>, end: nat, r: nat, k: nat)
    requires Tiles(regs, end) && r in regs && 1 <= k < regs[r].size
    ensures Tiles(Cut(regs, r, k), end)
  {
    CutCovers(regs, end, r, k);
  }

  lemma CutNeighbours(regs: map<nat, Region>, end: nat, r: nat, k: nat)
    requires Tiles(regs, end) && NoFreeNeighbours(regs)
    requires r in regs && regs[r].alloc && 1 <= k < regs[r].size
    ensures NoFreeNeighbours(Cut(regs, r, k))
  {
    var regs' := Cut(regs, r, k);
    forall p: nat, q: nat | Adjacent(regs', p, q) ensures regs'[p].alloc || regs'[q].alloc {
      if p != r && p != r + k && q != r && q != r + k {
        assert Adjacent(regs, p, q);
      }
    }
  }

  // one free region from lo to hi, in place of what was there
  ghost function Merged(regs: map<nat, Region>, lo: nat, hi: nat): map<nat, Region>
    requires lo < hi
  {
    (map r | r in regs && (r < lo || hi <= r) :: regs[r])[lo := Region(hi - lo, false)]
  }

  lemma MergedTiles(regs: map<nat, Region>, end: nat, lo: nat, hi: nat)
    requires Tiles(regs, end) && NoFreeNeighbours(regs)
    requires lo < hi && lo in regs && (hi in regs || hi == end)
    requires forall r :: r in regs && r + regs[r].size == lo ==> regs[r].alloc
    requires hi in regs ==> regs[hi].alloc
    ensures Tiles(Merged(regs, lo, hi), end) && NoFreeNeighbours(Merged(regs, lo, hi))
  {
    var regs' := Merged(regs, lo, hi);
    assert hi <= end;
    forall i: nat | i < end ensures Covered(regs', i) {
      assert Covered(regs, i);
      var r: nat :| In(regs, r, i);
      if lo <= i < hi {
        assert In(regs', lo, i);
      } else {
        assert In(regs', r, i);
      }
    }
    forall r: nat, q: nat | Adjacent(regs', r, q) ensures regs'[r].alloc || regs'[q].alloc {
      if r != lo && q != lo {
        assert Adjacent(regs, r, q);
      }
    }
  }

  // an allocated region up to the new end of the heap
  lemma GrownTiles(regs: map<nat, Region>, end: nat, s: nat, n: nat)
    requires Tiles(regs, end) && NoFreeNeighbours(regs) && n >= 1
    requires s == end || (s in regs && s + regs[s].size == end && regs[s].size < n)
    ensures Tiles(regs[s := Region(n, true)], s + n) && NoFreeNeighbours(regs[s := Region(n, true)])
  {
    var regs' := regs[s := Region(n, true)];
    forall i: nat | i < s + n ensures Covered(regs', i) {
      if s <= i {
        assert In(regs', s, i);
      } else {
        assert Covered(regs, i);
        var r: nat :| In(regs, r, i);
        assert In(regs', r, i);
      }
    }
    forall r: nat, q: nat | Adjacent(regs', r, q) ensures regs'[r].alloc || regs'[q].alloc {
      if r != s && q != s {
        assert Adjacent(regs, r, q);
      }
    }
  }

  // ---------- boundary tags after each operation ----------

  // regs' differs from regs only inside the window [a, b), whose ends are region boundaries
  ghost predicate Window(regs: map<nat, Region>, regs': map<nat, Region>, a: nat, b: nat) {
    && a < b && a in regs'
    && (forall r :: r in regs && (r < a || b <= r) ==> r in regs' && regs'[r] == regs[r])
    && (forall r :: r in regs' && (r < a || b <= r) ==> r in regs)
  }

  lemma WindowHeads(regs: map<nat, Region>, flags: seq<Flags>, regs': map<nat, Region>, flags': seq<Flags>,
                    a: nat, b: nat)
    requires Heads(regs, flags) && Window(regs, regs', a, b) && |flags| <= |flags'|
    requires forall i :: 0 <= i < |flags| && (i < a || b <= i) ==> flags'[i].alloc == flags[i].alloc
    requires forall r :: r in regs' && a <= r < b ==> r < |flags'| && flags'[r].alloc == regs'[r].alloc
    ensures Heads(regs', flags')
  {
  }

  lemma WindowFoots(regs: map<nat, Region>, footer: seq<nat>, regs': map<nat, Region>, footer': seq<nat>,
                    end: nat, a: nat, b: nat)
    requires Foots(regs, footer) && Window(regs, regs', a, b) && |footer| <= |footer'|
    requires Tiles(regs', end)
    requires forall i :: 0 <= i < |footer| && (i < a || b <= i) ==> footer'[i] == footer[i]
    requires forall r :: r in regs' && a <= r < b && !regs'[r].alloc ==> FootAt(footer', r, regs'[r].size)
    ensures Foots(regs', footer')
  {
    forall r | r in regs' && !regs'[r].alloc ensures FootAt(footer', r, regs'[r].size) {
      if r < a || b <= r {
        assert FootAt(footer, r, regs[r].size);
        if r < a {
          assert r + regs'[r].size <= a;
        }
      }
    }
  }

  lemma WindowPrevBits(regs: map<nat, Region>, flags: seq<Flags>, regs': map<nat, Region>, flags': seq<Flags>,
                       end: nat, a: nat, b: nat)
    requires PrevBits(regs, flags) && Window(regs, regs', a, b) && |flags| <= |flags'|
    requires Tiles(regs, |flags|) && Tiles(regs', |flags'|)
    requires forall i :: 0 <= i < |flags| && (i < a || b < i) ==> flags'[i].prevAlloc == flags[i].prevAlloc
    requires a == 0 ==> flags'[0].prevAlloc
    requires forall r :: r in regs && r + regs[r].size == a && a < |flags'| ==> flags'[a].prevAlloc == regs[r].alloc
    requires forall r: nat, q: nat :: Adjacent(regs', r, q) && a <= r < b ==> flags'[q].prevAlloc == regs'[r].alloc
    ensures PrevBits(regs', flags')
  {
    forall r: nat, q: nat | Adjacent(regs', r, q)
      ensures flags'[q].prevAlloc == regs'[r].alloc
    {
      if r < a {
        assert q <= a;
        if q < a {
          assert Adjacent(regs, r, q);
        }
      } else if b <= r {
        assert Adjacent(regs, r, q);
      }
    }
    if 0 in regs' && 0 < a {
      assert 0 in regs;
    }
  }

  lemma PrevBitAt(regs: map<nat, Region>, flags: seq<Flags>, s: nat)
    requires PrevBits(regs, flags) && s in regs
    ensures s == 0 ==> 0 < |flags| && flags[0].prevAlloc
    ensures forall r :: r in regs && r + regs[r].size == s ==> s < |flags| && flags[s].prevAlloc == regs[r].alloc
  {
    forall r | r in regs && r + regs[r].size == s ensures s < |flags| && flags[s].prevAlloc == regs[r].alloc {
      assert Adjacent(regs, r, s);
    }
  }

  // the headers of a region and of the one after it
  lemma HeadAt(regs: map<nat, Region>, flags: seq<Flags>, end: nat, s: nat)
    requires Heads(regs, flags) && NoFreeNeighbours(regs) && Tiles(regs, end) && s in regs
    ensures s < |flags| && flags[s].alloc == regs[s].alloc
    ensures s + regs[s].size <= end
    ensures s + regs[s].size < end ==>
      && s + regs[s].size in regs && s + regs[s].size < |flags|
      && (!regs[s].alloc ==> flags[s + regs[s].size].alloc)
  {
    if s + regs[s].size < end {
      After(regs, end, s);
    }
  }

  // flags and footers outside the window are untouched, except for the PREV_ALLOC bit at its end
  ghost predicate Framed(flags: seq<Flags>, footer: seq<nat>, flags': seq<Flags>, footer': seq<nat>, a: nat, b: nat) {
    && |flags| <= |flags'| && |footer| <= |footer'|
    && (forall i :: 0 <= i < |flags| && (i < a || b < i) ==> flags'[i] == flags[i])
    && (b < |flags| ==> flags'[b].alloc == flags[b].alloc)
    && (forall i :: 0 <= i < |footer| && (i < a || b <= i) ==> footer'[i] == footer[i])
  }

  // the tags of the regions inside the window
  ghost predicate Inside(regs: map<nat, Region>, regs': map<nat, Region>, flags': seq<Flags>, footer': seq<nat>,
                         a: nat, b: nat)
  {
    && a < |flags'| && (a == 0 ==> flags'[0].prevAlloc)
    && (forall r :: r in regs && r + regs[r].size == a ==> flags'[a].prevAlloc == regs[r].alloc)
    && (forall r :: r in regs' && a <= r < b ==>
          && r < |flags'| && flags'[r].alloc == regs'[r].alloc
          && (!regs'[r].alloc ==> FootAt(footer', r, regs'[r].size)))
    && (forall r: nat, q: nat :: Adjacent(regs', r, q) && a <= r < b ==>
          q < |flags'| && flags'[q].prevAlloc == regs'[r].alloc)
  }

  lemma WindowOk(regs: map<nat, Region>, flags: seq<Flags>, footer: seq<nat>, end: nat, lastAlloc: bool,
                 regs': map<nat, Region>, flags': seq<Flags>, footer': seq<nat>, end': nat, lastAlloc': bool,
                 a: nat, b: nat)
    requires HeapOk(regs, flags, footer, end, lastAlloc)
    requires |flags'| == end' && |footer'| == end' && Tiles(regs', end') && NoFreeNeighbours(regs')
    requires Window(regs, regs', a, b)
    requires Framed(flags, footer, flags', footer', a, b)
    requires Inside(regs, regs', flags', footer', a, b)
    requires LastBit(regs', end', lastAlloc')
    ensures HeapOk(regs', flags', footer', end', lastAlloc')
  {
    WindowHeads(regs, flags, regs', flags', a, b);
    WindowFoots(regs, footer, regs', footer', end', a, b);
    hide Heads, Foots, FootAt, Window, Tiles, NoFreeNeighbours, LastBit;
    WindowPrevBits(regs, flags, regs', flags', end, a, b);
  }

  lemma TakeWindow(regs: map<nat, Region>, end: nat, lastAlloc: bool, s: nat, n: nat)
    requires Tiles(regs, end) && LastBit(regs, end, lastAlloc) && s in regs && !regs[s].alloc
    requires 1 <= n <= regs[s].size
    ensures Window(regs, Take(regs, s, n), s, s + regs[s].size)
    ensures LastBit(Take(regs, s, n), end, lastAlloc || s + n == end)
  {
  }

  lemma TakeOnly(regs: map<nat, Region>, end: nat, s: nat, n: nat)
    requires Tiles(regs, end) && s in regs && 1 <= n <= regs[s].size
    ensures forall r :: r in Take(regs, s, n) && s <= r < s + regs[s].size ==> r == s || r == s + n
  {
  }

  lemma TakeInside(regs: map<nat, Region>, flags: seq<Flags>, end: nat, s: nat, n: nat,
                   flags': seq<Flags>, footer': seq<nat>)
    requires Tiles(regs, end) && PrevBits(regs, flags) && s in regs && !regs[s].alloc && 1 <= n <= regs[s].size
    requires |flags'| == end == |footer'| && |flags| == end
    requires flags'[s].alloc && flags'[s].prevAlloc == flags[s].prevAlloc
    requires n < regs[s].size ==>
      && flags'[s + n] == Flags(false, true, false)
      && FootAt(footer', s + n, regs[s].size - n)
      && (s + regs[s].size < end ==> flags'[s + regs[s].size].prevAlloc == flags[s + regs[s].size].prevAlloc)
    requires n == regs[s].size && s + n < end ==> flags'[s + n].prevAlloc
    ensures Inside(regs, Take(regs, s, n), flags', footer', s, s + regs[s].size)
  {
    PrevBitAt(regs, flags, s);
    PrevBitNext(regs, flags, end, s);
    TakeOnly(regs, end, s, n);
    hide Tiles, PrevBits, FootAt, Window, LastBit;
  }

  lemma PrevBitNext(regs: map<nat, Region>, flags: seq<Flags>, end: nat, s: nat)
    requires PrevBits(regs, flags) && Tiles(regs, end) && s in regs
    ensures s + regs[s].size <= end
    ensures s + regs[s].size < end ==>
      && s + regs[s].size in regs && s + regs[s].size < |flags| && flags[s + regs[s].size].prevAlloc == regs[s].alloc
  {
    if s + regs[s].size < end {
      After(regs, end, s);
    }
  }

  // a free region is preceded by an allocated one
  lemma LastPrevBit(regs: map<nat, Region>, flags: seq<Flags>, end: nat, s: nat)
    requires Tiles(regs, end) && NoFreeNeighbours(regs) && PrevBits(regs, flags) && s in regs && !regs[s].alloc
    ensures s < |flags| ==> flags[s].prevAlloc
  {
    if s > 0 {
      var r := Before(regs, end, s);
      assert Adjacent(regs, r, s);
    }
  }

  lemma TakeWholeOk(regs: map<nat, Region>, flags: seq<Flags>, footer: seq<nat>, end: nat, lastAlloc: bool, s: nat,
                    flags': seq<Flags>)
    requires HeapOk(regs, flags, footer, end, lastAlloc) && s in regs && !regs[s].alloc
    requires var f := flags[s := flags[s].(alloc := true)];
      flags' == if s + regs[s].size < end
                then f[s + regs[s].size := f[s + regs[s].size].(prevAlloc := true)] else f
    ensures HeapOk(Take(regs, s, regs[s].size), flags', footer, end, lastAlloc || s + regs[s].size == end)
  {
    var n := regs[s].size;
    PrevBitNext(regs, flags, end, s);
    assert n >= 1;
    hide Tiles, NoFreeNeighbours, PrevBits, Foots, FootAt, Heads, LastBit, Inside, Window;
    TakeTiles(regs, end, s, n);
    TakeNeighbours(regs, end, s, n);
    TakeWindow(regs, end, lastAlloc, s, n);
    TakeInside(regs, flags, end, s, n, flags', footer);
    WindowOk(regs, flags, footer, end, lastAlloc,
             Take(regs, s, n), flags', footer, end, lastAlloc || s + n == end, s, s + n);
  }

  lemma TakePartOk(regs: map<nat, Region>, flags: seq<Flags>, footer: seq<nat>, end: nat, lastAlloc: bool, s: nat,
                   n: nat, flags': seq<Flags>, footer': seq<nat>)
    requires HeapOk(regs, flags, footer, end, lastAlloc) && s in regs && !regs[s].alloc && 1 <= n < regs[s].size
    requires flags' == flags[s := flags[s].(alloc := true)][s + n := Flags(false, true, false)]
    requires footer' == footer[s + regs[s].size - 1 := regs[s].size - n]
    ensures HeapOk(Take(regs, s, n), flags', footer', end, lastAlloc)
  {
    PrevBitNext(regs, flags, end, s);
    hide Tiles, NoFreeNeighbours, PrevBits, Foots, Heads, LastBit, Inside, Window;
    TakeTiles(regs, end, s, n);
    TakeNeighbours(regs, end, s, n);
    TakeWindow(regs, end, lastAlloc, s, n);
    TakeInside(regs, flags, end, s, n, flags', footer');
    WindowOk(regs, flags, footer, end, lastAlloc,
             Take(regs, s, n), flags', footer', end, lastAlloc, s, s + regs[s].size);
  }

  lemma MergedWindow(regs: map<nat, Region>, end: nat, lastAlloc: bool, lo: nat, hi: nat)
    requires Tiles(regs, end) && LastBit(regs, end, lastAlloc)
    requires lo < hi && lo in regs && (hi in regs || hi == end)
    ensures Window(regs, Merged(regs, lo, hi), lo, hi)
    ensures LastBit(Merged(regs, lo, hi), end, lastAlloc && hi < end)
  {
  }

  lemma MergedInside(regs: map<nat, Region>, end: nat, lo: nat, hi: nat, flags': seq<Flags>, footer': seq<nat>)
    requires lo < hi && lo in regs && hi <= end
    requires forall r :: r in regs && r + regs[r].size == lo ==> regs[r].alloc
    requires |flags'| == end && |footer'| == end
    requires !flags'[lo].alloc && flags'[lo].prevAlloc
    requires hi < end ==> !flags'[hi].prevAlloc
    requires footer'[hi - 1] == hi - lo
    requires Tiles(Merged(regs, lo, hi), end)
    ensures Inside(regs, Merged(regs, lo, hi), flags', footer', lo, hi)
  {
  }

  // the tags of a merged region; only its own header, the header after it and its footer matter
  lemma MergedOk(regs: map<nat, Region>, flags: seq<Flags>, footer: seq<nat>, end: nat, lastAlloc: bool,
                 lo: nat, hi: nat, flags': seq<Flags>, footer': seq<nat>, lastAlloc': bool)
    requires HeapOk(regs, flags, footer, end, lastAlloc)
    requires lo < hi && lo in regs && (hi in regs || hi == end)
    requires forall r :: r in regs && r + regs[r].size == lo ==> regs[r].alloc
    requires hi in regs ==> regs[hi].alloc
    requires |flags'| == end && |footer'| == end
    requires forall i :: 0 <= i < end && (i < lo || hi < i) ==> flags'[i] == flags[i]
    requires !flags'[lo].alloc && flags'[lo].prevAlloc
    requires hi < end ==> flags'[hi].alloc && !flags'[hi].prevAlloc
    requires footer' == footer[hi - 1 := hi - lo]
    requires lastAlloc' == (lastAlloc && hi < end)
    ensures HeapOk(Merged(regs, lo, hi), flags', footer', end, lastAlloc')
  {
    assert hi < end ==> flags[hi].alloc;
    hide Tiles, NoFreeNeighbours, PrevBits, Foots, FootAt, Heads, LastBit, Window, Inside;
    MergedTiles(regs, end, lo, hi);
    MergedWindow(regs, end, lastAlloc, lo, hi);
    MergedInside(regs, end, lo, hi, flags', footer');
    WindowOk(regs, flags, footer, end, lastAlloc,
             Merged(regs, lo, hi), flags', footer', end, lastAlloc', lo, hi);
  }

  lemma CutWindow(regs: map<nat, Region>, end: nat, lastAlloc: bool, r: nat, k: nat)
    requires Tiles(regs, end) && LastBit(regs, end, lastAlloc) && r in regs && regs[r].alloc && 1 <= k < regs[r].size
    ensures Window(regs, Cut(regs, r, k), r, r + regs[r].size)
    ensures LastBit(Cut(regs, r, k), end, lastAlloc)
  {
  }

  lemma CutOnly(regs: map<nat, Region>, end: nat, r: nat, k: nat)
    requires Tiles(regs, end) && r in regs && 1 <= k < regs[r].size
    ensures forall p :: p in Cut(regs, r, k) && r <= p < r + regs[r].size ==> p == r || p == r + k
  {
  }

  lemma CutInside(regs: map<nat, Region>, flags: seq<Flags>, end: nat, r: nat, k: nat,
                  flags': seq<Flags>, footer: seq<nat>)
    requires Tiles(regs, end) && PrevBits(regs, flags) && r in regs && regs[r].alloc && 1 <= k < regs[r].size
    requires |flags| == end && |flags'| == end && flags[r].alloc
    requires forall i :: 0 <= i < end && i != r + k ==> flags'[i] == flags[i]
    requires flags'[r + k].alloc && flags'[r + k].prevAlloc
    ensures Inside(regs, Cut(regs, r, k), flags', footer, r, r + regs[r].size)
  {
    PrevBitAt(regs, flags, r);
    PrevBitNext(regs, flags, end, r);
    CutOnly(regs, end, r, k);
    hide Tiles, PrevBits, FootAt, Window, LastBit;
  }

  lemma CutOk(regs: map<nat, Region>, flags: seq<Flags>, footer: seq<nat>, end: nat, lastAlloc: bool, r: nat, k: nat,
              flags': seq<Flags>)
    requires HeapOk(regs, flags, footer, end, lastAlloc) && r in regs && regs[r].alloc && 1 <= k < regs[r].size
    requires |flags'| == end && (forall i :: 0 <= i < end && i != r + k ==> flags'[i] == flags[i])
    requires flags'[r + k].alloc && flags'[r + k].prevAlloc
    ensures HeapOk(Cut(regs, r, k), flags', footer, end, lastAlloc)
  {
    assert flags[r].alloc;
    PrevBitNext(regs, flags, end, r);
    hide Tiles, NoFreeNeighbours, PrevBits, Foots, FootAt, Heads, LastBit, Window;
    CutTiles(regs, end, r, k);
    CutNeighbours(regs, end, r, k);
    CutWindow(regs, end, lastAlloc, r, k);
    CutInside(regs, flags, end, r, k, flags', footer);
    hide Inside;
    WindowOk(regs, flags, footer, end, lastAlloc,
             Cut(regs, r, k), flags', footer, end, lastAlloc, r, r + regs[r].size);
  }

  lemma GrownOk(regs: map<nat, Region>, flags: seq<Flags>, footer: seq<nat>, end: nat, lastAlloc: bool, s: nat, n: nat,
                flags': seq<Flags>, footer': seq<nat>, f: Flags)
    requires HeapOk(regs, flags, footer, end, lastAlloc) && n >= 1
    requires s == end || (s in regs && s + regs[s].size == end && !regs[s].alloc && regs[s].size < n)
    requires s == end ==> lastAlloc
    requires |flags'| == s + n && |footer'| == s + n && flags <= flags' && footer <= footer'
    requires s < end ==> flags[s].prevAlloc
    requires f.alloc && f.prevAlloc
    ensures HeapOk(regs[s := Region(n, true)], flags'[s := f], footer', s + n, true)
  {
    var regs' := regs[s := Region(n, true)];
    var flags'' := flags'[s := f];
    GrownTiles(regs, end, s, n);
    GrownWindow(regs, end, s, n);
    assert Framed(flags, footer, flags'', footer', s, s + n);
    assert Inside(regs, regs', flags'', footer', s, s + n) by {
      hide PrevBits, Heads, Foots, Framed;
      forall r | r in regs && r + regs[r].size == s ensures regs[r].alloc {
        if s < end {
          assert Adjacent(regs, r, s);
        }
      }
    }
    hide Tiles, NoFreeNeighbours, Heads, PrevBits, Foots, LastBit, Inside, Window, Framed;
    WindowOk(regs, flags, footer, end, lastAlloc, regs', flags'', footer', s + n, true, s, s + n);
  }

  lemma GrownWindow(regs: map<nat, Region>, end: nat, s: nat, n: nat)
    requires Tiles(regs, end) && n >= 1
    requires s == end || (s in regs && s + regs[s].size == end && regs[s].size < n)
    ensures Window(regs, regs[s := Region(n, true)], s, s + n)
    ensures LastBit(regs[s := Region(n, true)], s + n, true)
    ensures forall r :: r in regs && s <= r < s + n ==> r == s
  {
  }

  // ---------- the heap ----------

  /** Where n slabs come from: the first n of a smallest free region that is large enough; if there
      is none, a free region at the end of the heap, which then grows by what that lacks; and if
      there is none of these either, n new slabs at the end. */
  ghost predicate BestPlace(n: nat, frees: map<nat, nat>, end: nat, s: nat, end': nat) {
    && (forall q :: q in frees && frees[q] >= n ==> end' == end && s in frees && n <= frees[s] <= frees[q])
    && ((forall q :: q in frees ==> frees[q] < n) ==>
          && end' == s + n
          && (forall r :: r in frees && r + frees[r] == end ==> s == r)
          && ((forall r :: r in frees ==> r + frees[r] != end) ==> s == end))
  }

  lemma FitPlace(n: nat, frees: map<nat, nat>, end: nat, s: nat)
    requires s in frees && frees[s] >= n && forall q :: q in frees && frees[q] >= n ==> frees[s] <= frees[q]
    ensures BestPlace(n, frees, end, s, end)
  {
  }

  // only one region ends where the heap does
  lemma LastPlace(regs: map<nat, Region>, end: nat, n: nat, s: nat)
    requires Tiles(regs, end) && s in Frees(regs) && s + Frees(regs)[s] == end
    requires forall q :: q in Frees(regs) ==> Frees(regs)[q] < n
    ensures BestPlace(n, Frees(regs), end, s, s + n) && s !in Allocs(regs)
  {
    forall r | r in Frees(regs) && r + Frees(regs)[r] == end ensures s == r {
      RegionsMeet(regs, end, r, s);
    }
  }

  lemma RegionsMeet(regs: map<nat, Region>, end: nat, r: nat, q: nat)
    requires Tiles(regs, end) && r in regs && q in regs && r + regs[r].size == q + regs[q].size
    ensures r == q
  {
  }

  // LAST_SLAB_ALLOC tells that no free region ends the heap
  lemma NewPlace(regs: map<nat, Region>, flags: seq<Flags>, footer: seq<nat>, end: nat, n: nat)
    requires HeapOk(regs, flags, footer, end, true) && forall q :: q in Frees(regs) ==> Frees(regs)[q] < n
    ensures BestPlace(n, Frees(regs), end, end, end + n) && end !in Allocs(regs)
  {
  }

  lemma TakeFresh(regs: map<nat, Region>, end: nat, s: nat, n: nat)
    requires Tiles(regs, end) && s in regs && 1 <= n < regs[s].size
    ensures s + n !in regs
  {
  }

  lemma AllocsTake(regs: map<nat, Region>, s: nat, n: nat)
    requires s in regs && !regs[s].alloc && 1 <= n <= regs[s].size && (n < regs[s].size ==> s + n !in regs)
    ensures Allocs(Take(regs, s, n)) == Allocs(regs)[s := n]
  {
    var a, b := Allocs(Take(regs, s, n)), Allocs(regs)[s := n];
    assert a.Keys == b.Keys;
    assert forall r :: r in a ==> a[r] == b[r];
  }

  lemma FreesTakeWhole(regs: map<nat, Region>, s: nat)
    requires s in regs && !regs[s].alloc && regs[s].size >= 1
    ensures Frees(Take(regs, s, regs[s].size)) == Frees(regs) - {s}
  {
  }

  lemma FreesTakePart(regs: map<nat, Region>, s: nat, n: nat)
    requires s in regs && !regs[s].alloc && 1 <= n < regs[s].size && s + n !in regs
    ensures Frees(Take(regs, s, n)) == (Frees(regs) - {s})[s + n := regs[s].size - n]
  {
    var a, b := Frees(Take(regs, s, n)), (Frees(regs) - {s})[s + n := regs[s].size - n];
    assert a.Keys == b.Keys;
    assert forall r :: r in a ==> a[r] == b[r];
  }

  // what lies between lo and hi when s is freed: its free neighbours and itself
  ghost predicate Around(regs: map<nat, Region>, lo: nat, s: nat, hi: nat) {
    && lo <= s < hi && s in regs && regs[s].alloc && lo in regs
    && (lo == s || (!regs[lo].alloc && lo + regs[lo].size == s))
    && (hi == s + regs[s].size || (Adjacent(regs, s, s + regs[s].size) && !regs[s + regs[s].size].alloc
                                   && hi == s + regs[s].size + regs[s + regs[s].size].size))
    && (forall r :: r in regs && lo <= r < hi ==> r == lo || r == s || r == s + regs[s].size)
  }

  lemma AllocsMerged(regs: map<nat, Region>, lo: nat, s: nat, hi: nat)
    requires Around(regs, lo, s, hi)
    ensures Allocs(Merged(regs, lo, hi)) == Allocs(regs) - {s}
  {
    var a, b := Allocs(Merged(regs, lo, hi)), Allocs(regs) - {s};
    assert a.Keys == b.Keys;
    assert forall r :: r in a ==> a[r] == b[r];
  }

  lemma FreesMerged(regs: map<nat, Region>, lo: nat, s: nat, hi: nat)
    requires Around(regs, lo, s, hi)
    ensures hi == s + regs[s].size ==> Frees(Merged(regs, lo, hi)) == (Frees(regs) - {lo})[lo := hi - lo]
    ensures hi > s + regs[s].size ==>
      Frees(Merged(regs, lo, hi)) == (Frees(regs) - {lo} - {s + regs[s].size})[lo := hi - lo]
  {
    var a := Frees(Merged(regs, lo, hi));
    var b := if hi == s + regs[s].size then (Frees(regs) - {lo})[lo := hi - lo]
             else (Frees(regs) - {lo} - {s + regs[s].size})[lo := hi - lo];
    assert a.Keys == b.Keys;
    assert forall r :: r in a ==> a[r] == b[r];
  }

  lemma FreesSmall(regs: map<nat, Region>, n: nat)
    requires forall q :: q in Frees(regs) ==> Frees(regs)[q] < n
    ensures forall q :: q in regs && !regs[q].alloc ==> regs[q].size < n
  {
    forall q | q in regs && !regs[q].alloc ensures regs[q].size < n {
      assert q in Frees(regs);
    }
  }

  // extending the heap adds no free region
  lemma GrownMaps(regs: map<nat, Region>, s: nat, n: nat)
    requires s in regs ==> !regs[s].alloc
    ensures Frees(regs[s := Region(n, true)]) == Frees(regs) - {s}
    ensures Allocs(regs[s := Region(n, true)]) == Allocs(regs)[s := n]
    ensures s !in regs ==> Frees(regs[s := Region(n, true)]) == Frees(regs)
  {
  }

  // where the merged region ends when the allocated region s of n slabs is freed
  lemma MergeEnd(regs: map<nat, Region>, flags: seq<Flags>, footer: seq<nat>, end: nat, lastAlloc: bool, s: nat, n: nat)
    returns (hi: nat)
    requires HeapOk(regs, flags, footer, end, lastAlloc) && s in regs && regs[s] == Region(n, true)
    ensures 1 <= n && s + n <= end
    ensures s + n == end ==> hi == s + n
    ensures s + n < end && flags[s + n].alloc ==> hi == s + n
    ensures s + n < end && !flags[s + n].alloc ==>
      && s + n in regs && !regs[s + n].alloc && hi == s + n + regs[s + n].size
      && (hi < end ==> flags[hi].alloc && !flags[hi].prevAlloc) && (hi == end ==> !lastAlloc)
    ensures s + n <= hi <= end && (hi in regs <==> hi < end) && (hi < end ==> regs[hi].alloc)
    ensures forall r :: r in regs && s <= r < hi ==> r == s || r == s + n
  {
    hi := s + n;
    PrevBitNext(regs, flags, end, s);
    if s + n < end && !flags[s + n].alloc {
      hi := s + n + regs[s + n].size;
      PrevBitNext(regs, flags, end, s + n);
      HeadAt(regs, flags, end, s + n);
    }
  }

  lemma MergeParts(regs: map<nat, Region>, s: nat, n: nat, lo: nat, hi: nat)
    requires s in regs && regs[s].alloc && regs[s].size == n >= 1
    requires lo in regs && lo <= s && (lo < s ==> !regs[lo].alloc && lo + regs[lo].size == s)
    requires hi == s + n || (s + n in regs && !regs[s + n].alloc && hi == s + n + regs[s + n].size)
    requires forall r :: r in regs && lo <= r < s ==> r == lo
    requires forall r :: r in regs && s <= r < hi ==> r == s || r == s + n
    ensures lo < hi
    ensures Allocs(Merged(regs, lo, hi)) == Allocs(regs) - {s}
    ensures hi == s + n ==> Frees(Merged(regs, lo, hi)) == (Frees(regs) - {lo})[lo := hi - lo]
    ensures hi > s + n ==> Frees(Merged(regs, lo, hi)) == (Frees(regs) - {lo} - {s + n})[lo := hi - lo]
  {
    assert Around(regs, lo, s, hi);
    AllocsMerged(regs, lo, s, hi);
    FreesMerged(regs, lo, s, hi);
  }

  lemma SizesOf(regs: map<nat, Region>, flags: seq<Flags>, footer: seq<nat>, end: nat, lastAlloc: bool)
    requires HeapOk(regs, flags, footer, end, lastAlloc)
    ensures |flags| == |footer| == end
  {
  }

  lemma FreesAt(regs: map<nat, Region>, s: nat)
    requires s in regs
    ensures s in Frees(regs) <==> !regs[s].alloc
    ensures !regs[s].alloc ==> Frees(regs)[s] == regs[s].size
  {
  }

  lemma CutMaps(regs: map<nat, Region>, flags: seq<Flags>, footer: seq<nat>, end: nat, lastAlloc: bool, r: nat, k: nat)
    requires HeapOk(regs, flags, footer, end, lastAlloc) && r in regs && regs[r].alloc && 1 <= k < regs[r].size
    ensures Frees(regs) == Frees(Cut(regs, r, k)) - {r + k}
    ensures Allocs(Cut(regs, r, k)) - {r + k} == Allocs(regs)[r := k]
    ensures forall p :: p in Cut(regs, r, k) && p + Cut(regs, r, k)[p].size == r + k ==> Cut(regs, r, k)[p].alloc
    ensures forall p :: p in Cut(regs, r, k) && r + k <= p < r + k ==> p == r + k
  {
    hide HeapOk, NoFreeNeighbours, PrevBits, Heads, Foots, LastBit;
    assert Tiles(regs, end) && r + k !in regs by {
      Unpack(regs, flags, footer, end, lastAlloc);
    }
    CutAllocs(regs, r, k);
  }

  lemma Unpack(regs: map<nat, Region>, flags: seq<Flags>, footer: seq<nat>, end: nat, lastAlloc: bool)
    requires HeapOk(regs, flags, footer, end, lastAlloc)
    ensures Tiles(regs, end) && NoFreeNeighbours(regs)
  {
  }

  lemma CutAllocs(regs: map<nat, Region>, r: nat, k: nat)
    requires r in regs && regs[r].alloc && 1 <= k < regs[r].size && r + k !in regs
    ensures Frees(regs) == Frees(Cut(regs, r, k)) - {r + k}
    ensures Allocs(Cut(regs, r, k)) - {r + k} == Allocs(regs)[r := k]
  {
  }

  // nothing depends on the flags of a slab that starts no region
  lemma ScribbleFlags(regs: map<nat, Region>, flags: seq<Flags>, footer: seq<nat>, end: nat, lastAlloc: bool,
                      i: nat, f: Flags)
    requires HeapOk(regs, flags, footer, end, lastAlloc) && i < end && i !in regs
    ensures HeapOk(regs, flags[i := f], footer, end, lastAlloc)
  {
  }

  // ... or on the footer of an allocated region
  lemma ScribbleFooter(regs: map<nat, Region>, flags: seq<Flags>, footer: seq<nat>, end: nat, lastAlloc: bool,
                       i: nat, w: nat)
    requires HeapOk(regs, flags, footer, end, lastAlloc) && i < end
    requires forall r :: r in regs && r + regs[r].size == i + 1 ==> regs[r].alloc
    ensures HeapOk(regs, flags, footer[i := w], end, lastAlloc)
  {
    hide Tiles, NoFreeNeighbours, PrevBits, Heads, LastBit;
    forall r | r in regs && !regs[r].alloc ensures FootAt(footer[i := w], r, regs[r].size) {
      assert FootAt(footer, r, regs[r].size);
    }
  }

  /** The allocated regions and the end of the heap determine the free regions: memory that is
      given back merges to what was there before. */
  lemma RegionsDetermined(regs: map<nat, Region>, regs': map<nat, Region>, end: nat)
    requires Tiles(regs, end) && NoFreeNeighbours(regs) && Tiles(regs', end) && NoFreeNeighbours(regs')
    requires Allocs(regs) == Allocs(regs')
    ensures regs == regs'
  {
    hide Tiles, NoFreeNeighbours;
    forall r | r in regs ensures r in regs' && regs'[r] == regs[r] {
      RegionAgrees(regs, regs', end, r);
    }
    forall r | r in regs' ensures r in regs {
      RegionAgrees(regs', regs, end, r);
    }
  }

  lemma RegionAgrees(regs: map<nat, Region>, regs': map<nat, Region>, end: nat, r: nat)
    requires Tiles(regs, end) && NoFreeNeighbours(regs) && Tiles(regs', end) && NoFreeNeighbours(regs')
    requires Allocs(regs) == Allocs(regs')
    ensures r in regs ==> r in regs' && regs'[r] == regs[r]
  {
    if r in regs {
      if regs[r].alloc {
        assert r in Allocs(regs);
        assert r in Allocs(regs');
      } else {
        FreeStartsToo(regs, regs', end, r);
        FreeEndsBefore(regs, regs', end, r);
        FreeEndsBefore(regs', regs, end, r);
      }
    }
  }

  lemma AllocsAgree(regs: map<nat, Region>, regs': map<nat, Region>, r: nat)
    requires Allocs(regs) == Allocs(regs') && r in regs && regs[r].alloc
    ensures r in regs' && regs'[r] == regs[r]
  {
    assert r in Allocs(regs);
    assert r in Allocs(regs');
    assert Allocs(regs)[r] == Allocs(regs')[r];
  }

  // a free region of one map starts a free region of the other
  lemma FreeStartsToo(regs: map<nat, Region>, regs': map<nat, Region>, end: nat, r: nat)
    requires Tiles(regs, end) && NoFreeNeighbours(regs) && Tiles(regs', end)
    requires Allocs(regs) == Allocs(regs') && r in regs && !regs[r].alloc
    ensures r in regs' && !regs'[r].alloc
  {
    assert Covered(regs', r);
    var q: nat :| In(regs', q, r);
    if regs'[q].alloc {
      AllocsAgree(regs', regs, q);
    } else if q < r {
      var p := Before(regs, end, r);
      AllocsAgree(regs, regs', p);
    }
  }

  // ... that is no longer
  lemma FreeEndsBefore(regs: map<nat, Region>, regs': map<nat, Region>, end: nat, r: nat)
    requires Tiles(regs, end) && NoFreeNeighbours(regs) && Tiles(regs', end)
    requires Allocs(regs) == Allocs(regs') && r in regs && !regs[r].alloc && r in regs' && !regs'[r].alloc
    ensures regs'[r].size <= regs[r].size
  {
    if r + regs[r].size < end {
      After(regs, end, r);
      AllocsAgree(regs, regs', r + regs[r].size);
    }
  }

  // the PACKED bit of every region is as it was
  ghost predicate PackedKept(regs: map<nat, Region>, flags: seq<Flags>, flags': seq<Flags>) {
    forall r :: r in regs ==> r < |flags| && r < |flags'| && flags'[r].packed == flags[r].packed
  }

  // two flag sequences that may differ at one index
  ghost predicate SameBut(f: seq<Flags>, flags: seq<Flags>, start: nat) {
    |f| == |flags| && (forall i :: 0 <= i < |f| && i != start ==> f[i] == flags[i])
  }

  // what DetachNext does to the flags
  ghost predicate Detached(flags: seq<Flags>, flags': seq<Flags>, end: nat, next: nat) {
    flags' == if next < |flags| && next < end && flags[next].alloc
              then flags[next := flags[next].(prevAlloc := false)] else flags
  }

  // the tags after the merged region has been written
  lemma SettledOk(regs: map<nat, Region>, f: seq<Flags>, footer: seq<nat>, end: nat, lastAlloc: bool,
                  s: nat, n: nat, start: nat, hi: nat, fl: Flags, flags: seq<Flags>, flags': seq<Flags>, lastAlloc': bool)
    requires HeapOk(regs, f, footer, end, lastAlloc) && SameBut(f, flags, start) && Detached(flags, flags', end, s + n)
    requires start in regs && start <= s && n >= 1 && s + n <= hi <= end && (hi in regs <==> hi < end)
    requires hi in regs ==> regs[hi].alloc
    requires forall r :: r in regs && r + regs[r].size == start ==> regs[r].alloc
    requires s + n < end && !flags[s + n].alloc && hi < end ==> !f[hi].prevAlloc
    requires hi == s + n || (s + n < end && !flags[s + n].alloc)
    requires !fl.alloc && fl.prevAlloc && start < |flags| && fl.packed == flags[start].packed
    requires lastAlloc' == (lastAlloc && hi < end)
    ensures HeapOk(Merged(regs, start, hi), flags'[start := fl], footer[hi - 1 := hi - start], end, lastAlloc')
    ensures PackedKept(regs, flags, flags'[start := fl])
  {
    HeadsInside(regs, f, footer, end, lastAlloc);
    SizesOf(regs, f, footer, end, lastAlloc);
    if hi < end {
      AllocHead(regs, f, footer, end, lastAlloc, hi);
    }
    hide HeapOk, Merged, PackedKept;
    MergedOk(regs, f, footer, end, lastAlloc, start, hi, flags'[start := fl], footer[hi - 1 := hi - start], lastAlloc');
    BitsKept(regs, flags, flags'[start := fl]);
  }

  lemma AllocHead(regs: map<nat, Region>, flags: seq<Flags>, footer: seq<nat>, end: nat, lastAlloc: bool, r: nat)
    requires HeapOk(regs, flags, footer, end, lastAlloc) && r in regs
    ensures r < |flags| && flags[r].alloc == regs[r].alloc
  {
  }

  lemma BitsKept(regs: map<nat, Region>, flags: seq<Flags>, flags': seq<Flags>)
    requires |flags| == |flags'| && (forall i :: 0 <= i < |flags| ==> flags'[i].packed == flags[i].packed)
    requires forall r :: r in regs ==> r < |flags|
    ensures PackedKept(regs, flags, flags')
  {
  }

  lemma HeadsInside(regs: map<nat, Region>, flags: seq<Flags>, footer: seq<nat>, end: nat, lastAlloc: bool)
    requires HeapOk(regs, flags, footer, end, lastAlloc)
    ensures forall r :: r in regs ==> r < |flags|
  {
  }

  // ---------- what belongs to the program ----------

  // the tags of the slabs, and what the bins keep in the free ones
  datatype Memory = Memory(flags: seq<Flags>, footer: seq<nat>, nodes: Nodes)

  // slab i lies in an allocated region
  ghost predicate Used(allocs: map<nat, nat>, i: nat) {
    exists s: nat :: s in allocs && s <= i < s + allocs[s]
  }

  // ... and does not start it
  ghost predicate Interior(allocs: map<nat, nat>, i: nat) {
    exists s: nat :: s in allocs && s < i < s + allocs[s]
  }

  /** Nothing is written in allocated regions but the headers of their first slabs. */
  ghost predicate Spared(allocs: map<nat, nat>, m: Memory, m': Memory) {
    && |m.flags| <= |m'.flags| && |m.footer| <= |m'.footer|
    && (forall i :: 0 <= i < |m.flags| && Interior(allocs, i) ==> m'.flags[i] == m.flags[i])
    && (forall i :: 0 <= i < |m.footer| && Used(allocs, i) ==> m'.footer[i] == m.footer[i])
    && (forall i: nat :: Used(allocs, i) ==> SameNode(m.nodes, m'.nodes, i))
  }

  lemma SparedNone(allocs: map<nat, nat>, m: Memory)
    ensures Spared(allocs, m, m)
  {
  }

  lemma SparedTrans(allocs: map<nat, nat>, m: Memory, m1: Memory, m2: Memory)
    requires Spared(allocs, m, m1) && Spared(allocs, m1, m2)
    ensures Spared(allocs, m, m2)
  {
    forall i: nat | Used(allocs, i) ensures SameNode(m.nodes, m2.nodes, i) {
      assert SameNode(m.nodes, m1.nodes, i) && SameNode(m1.nodes, m2.nodes, i);
    }
  }

  // fewer allocated slabs
  ghost predicate Fewer(allocs: map<nat, nat>, more: map<nat, nat>) {
    forall s: nat :: s in allocs ==> s in more && allocs[s] <= more[s]
  }

  lemma UsedFewer(allocs: map<nat, nat>, more: map<nat, nat>)
    requires Fewer(allocs, more)
    ensures forall i: nat :: Used(allocs, i) ==> Used(more, i)
    ensures forall i: nat :: Interior(allocs, i) ==> Interior(more, i)
  {
    forall i: nat | Used(allocs, i) ensures Used(more, i) {
      var s: nat :| s in allocs && s <= i < s + allocs[s];
      assert s in more;
    }
    forall i: nat | Interior(allocs, i) ensures Interior(more, i) {
      var s: nat :| s in allocs && s < i < s + allocs[s];
      assert s in more;
    }
  }

  lemma SparedFewer(allocs: map<nat, nat>, more: map<nat, nat>, m: Memory, m': Memory)
    requires Fewer(allocs, more) && Spared(more, m, m')
    ensures Spared(allocs, m, m')
  {
    UsedFewer(allocs, more);
    hide Used, Interior, SameNode;
  }

  lemma SpareFlag(allocs: map<nat, nat>, m: Memory, m': Memory, i: nat, f: Flags)
    requires Spared(allocs, m, m') && i < |m'.flags| && !Interior(allocs, i)
    ensures Spared(allocs, m, m'.(flags := m'.flags[i := f]))
  {
  }

  lemma SpareFoot(allocs: map<nat, nat>, m: Memory, m': Memory, i: nat, w: nat)
    requires Spared(allocs, m, m') && i < |m'.footer| && !Used(allocs, i)
    ensures Spared(allocs, m, m'.(footer := m'.footer[i := w]))
  {
  }

  lemma SpareNodes(allocs: map<nat, nat>, m: Memory, m': Memory, nodes: Nodes, slabs: set<nat>)
    requires Spared(allocs, m, m') && NodesOnly(m'.nodes, nodes, slabs) && forall s :: s in slabs ==> !Used(allocs, s)
    ensures Spared(allocs, m, m'.(nodes := nodes))
  {
    forall i: nat | Used(allocs, i) ensures SameNode(m.nodes, nodes, i) {
      assert SameNode(m.nodes, m'.nodes, i) && SameNode(m'.nodes, nodes, i);
    }
  }

  // the heads of regions, and all slabs of free ones, are not the program's
  lemma NotProgram(regs: map<nat, Region>, end: nat, r: nat, i: nat)
    requires Tiles(regs, end) && r in regs && r <= i < r + regs[r].size
    ensures !Interior(Allocs(regs), r)
    ensures !regs[r].alloc ==> !Used(Allocs(regs), i) && !Interior(Allocs(regs), i)
  {
  }

  lemma FreesUnused(regs: map<nat, Region>, end: nat)
    requires Tiles(regs, end)
    ensures forall s :: s in Frees(regs) ==> !Used(Allocs(regs), s)
  {
    forall s | s in Frees(regs) ensures !Used(Allocs(regs), s) {
      NotProgram(regs, end, s, s);
    }
  }

  lemma EndUnused(regs: map<nat, Region>, end: nat, i: nat)
    requires Tiles(regs, end) && i >= end
    ensures !Used(Allocs(regs), i) && !Interior(Allocs(regs), i)
  {
  }

  // taking a free region writes in that region and in the header of the next only
  lemma TakeWholeSpares(regs: map<nat, Region>, end: nat, s: nat, m: Memory, nodes: Nodes, flags': seq<Flags>,
                        f: Flags, g: Flags)
    requires Tiles(regs, end) && s in regs && !regs[s].alloc && |m.flags| == end
    requires NodesOnly(m.nodes, nodes, Frees(regs).Keys)
    requires s + regs[s].size <= end && (s + regs[s].size < end ==> s + regs[s].size in regs)
    requires flags' == if s + regs[s].size == end then m.flags[s := f] else m.flags[s := f][s + regs[s].size := g]
    ensures Spared(Allocs(regs), m, Memory(flags', m.footer, nodes))
  {
    hide Spared, Used, Interior, NodesOnly, Allocs, Frees;
    var a, next := Allocs(regs), s + regs[s].size;
    SparedNone(a, m);
    FreesUnused(regs, end);
    SpareNodes(a, m, m, nodes, Frees(regs).Keys);
    NotProgram(regs, end, s, s);
    SpareFlag(a, m, m.(nodes := nodes), s, f);
    if next < end {
      NotProgram(regs, end, next, next);
      SpareFlag(a, m, Memory(m.flags[s := f], m.footer, nodes), next, g);
    }
  }

  lemma TakenFreesUnused(regs: map<nat, Region>, end: nat, s: nat, n: nat)
    requires Tiles(regs, end) && s in regs && !regs[s].alloc && 1 <= n < regs[s].size
    ensures forall q :: q in Frees(Take(regs, s, n)) ==> !Used(Allocs(regs), q)
  {
    FreesTakePart(regs, s, n);
    FreesUnused(regs, end);
    NotProgram(regs, end, s, s + n);
    hide Used, Allocs, Take, Frees;
  }

  lemma TakePartSpares(regs: map<nat, Region>, end: nat, s: nat, n: nat, m: Memory, nodes: Nodes, nodes': Nodes,
                       f: Flags, g: Flags, w: nat)
    requires Tiles(regs, end) && s in regs && !regs[s].alloc && |m.flags| == |m.footer| == end
    requires 1 <= n < regs[s].size && s + regs[s].size <= end
    requires NodesOnly(m.nodes, nodes, Frees(regs).Keys) && NodesOnly(nodes, nodes', Frees(Take(regs, s, n)).Keys)
    ensures Spared(Allocs(regs), m, Memory(m.flags[s := f][s + n := g], m.footer[s + regs[s].size - 1 := w], nodes'))
  {
    hide Spared, Used, Interior, NodesOnly, Allocs, Frees, Take, Tiles;
    TakenFreesUnused(regs, end, s, n);
    var a := Allocs(regs);
    SparedNone(a, m);
    FreesUnused(regs, end);
    SpareNodes(a, m, m, nodes, Frees(regs).Keys);
    NotProgram(regs, end, s, s + n);
    NotProgram(regs, end, s, s + regs[s].size - 1);
    SpareNodes(a, m, m.(nodes := nodes), nodes', Frees(Take(regs, s, n)).Keys);
    SpareFlag(a, m, m.(nodes := nodes'), s, f);
    SpareFlag(a, m, Memory(m.flags[s := f], m.footer, nodes'), s + n, g);
    SpareFoot(a, m, Memory(m.flags[s := f][s + n := g], m.footer, nodes'), s + regs[s].size - 1, w);
  }

  // growing the heap writes in the new slabs and in the free region before them only
  lemma GrownSpares(regs: map<nat, Region>, end: nat, s: nat, m: Memory, nodes: Nodes,
                    flags: seq<Flags>, footer: seq<nat>, f: Flags)
    requires Tiles(regs, end) && |m.flags| == |m.footer| == end && m.flags <= flags && m.footer <= footer && s < |flags|
    requires s == end || s in regs
    requires NodesOnly(m.nodes, nodes, Frees(regs).Keys)
    ensures Spared(Allocs(regs), m, Memory(flags[s := f], footer, nodes))
  {
    FreesUnused(regs, end);
    if s == end {
      EndUnused(regs, end, s);
    } else {
      NotProgram(regs, end, s, s);
    }
    hide Used, Interior, NodesOnly, Allocs, Frees, Tiles;
    SparedNone(Allocs(regs), m);
    SpareNodes(Allocs(regs), m, m, nodes, Frees(regs).Keys);
  }

  // merging writes in the merged region and in the header of the next only
  lemma MergeSpares(regs: map<nat, Region>, regs': map<nat, Region>, end: nat, s: nat, start: nat, hi: nat,
                    m: Memory, nodes: Nodes, nodes': Nodes, flags': seq<Flags>, slabs: set<nat>, f: Flags, w: nat)
    requires Tiles(regs, end) && Tiles(regs', end) && Allocs(regs') == Allocs(regs) - {s}
    requires |m.flags| == |m.footer| == end == |flags'| && start < hi <= end
    requires start in regs' && regs'[start] == Region(hi - start, false)
    requires slabs <= Frees(regs).Keys
    requires NodesOnly(m.nodes, nodes, slabs) && NodesOnly(nodes, nodes', Frees(regs').Keys)
    requires flags' == m.flags || (hi < end && hi in regs' && flags' == m.flags[hi := flags'[hi]])
    ensures Spared(Allocs(regs'), m, Memory(flags'[start := f], m.footer[hi - 1 := w], nodes'))
  {
    var a := Allocs(regs');
    UsedFewer(a, Allocs(regs));
    hide Spared, Used, Interior, NodesOnly, Allocs, Frees;
    FreesUnused(regs, end);
    FreesUnused(regs', end);
    SparedNone(a, m);
    SpareNodes(a, m, m, nodes, slabs);
    SpareNodes(a, m, m.(nodes := nodes), nodes', Frees(regs').Keys);
    if flags' != m.flags {
      NotProgram(regs', end, hi, hi);
      SpareFlag(a, m, m.(nodes := nodes'), hi, flags'[hi]);
    }
    NotProgram(regs', end, start, hi - 1);
    SpareFlag(a, m, Memory(flags', m.footer, nodes'), start, f);
    SpareFoot(a, m, Memory(flags'[start := f], m.footer, nodes'), hi - 1, w);
  }

  lemma MergedFirst(regs: map<nat, Region>, lo: nat, hi: nat)
    requires lo < hi
    ensures lo in Merged(regs, lo, hi) && Merged(regs, lo, hi)[lo] == Region(hi - lo, false)
  {
  }

  lemma MergedRest(regs: map<nat, Region>, lo: nat, hi: nat, r: nat)
    requires lo < hi <= r
    ensures r in Merged(regs, lo, hi) <==> r in regs
  {
  }

  // ... as MergeForward does it
  lemma MergedSpares(regs: map<nat, Region>, f: seq<Flags>, footer: seq<nat>, end: nat, lastAlloc: bool,
                     s: nat, n: nat, start: nat, hi: nat, m: Memory, nodes: Nodes, nodes': Nodes, flags': seq<Flags>,
                     slabs: set<nat>, fl: Flags, lastAlloc': bool)
    requires HeapOk(regs, f, footer, end, lastAlloc) && |m.flags| == |m.footer| == end && m.footer == footer
    requires start <= s && s + n <= hi <= end && |flags'| == end
    requires start < hi && Allocs(Merged(regs, start, hi)) == Allocs(regs) - {s}
    requires HeapOk(Merged(regs, start, hi), flags'[start := fl], footer[hi - 1 := hi - start], end, lastAlloc')
    requires (hi in regs <==> hi < end) && (hi == s + n || (s + n < end && !m.flags[s + n].alloc))
    requires Detached(m.flags, flags', end, s + n) && slabs <= Frees(regs).Keys
    requires NodesOnly(m.nodes, nodes, slabs) && NodesOnly(nodes, nodes', Frees(Merged(regs, start, hi)).Keys)
    ensures Spared(Allocs(Merged(regs, start, hi)), m, Memory(flags'[start := fl], m.footer[hi - 1 := hi - start], nodes'))
  {
    hide HeapOk, Tiles, NodesOnly, Spared, Frees, Allocs, Merged, NoFreeNeighbours;
    Unpack(regs, f, footer, end, lastAlloc);
    Unpack(Merged(regs, start, hi), flags'[start := fl], footer[hi - 1 := hi - start], end, lastAlloc');
    MergedFirst(regs, start, hi);
    MergedRest(regs, start, hi, hi);
    MergeSpares(regs, Merged(regs, start, hi), end, s, start, hi, m, nodes, nodes', flags', slabs, fl, hi - start);
  }

  // taking a free region out of its bin writes in free slabs only
  lemma UnlinkSpares(regs: map<nat, Region>, end: nat, s: nat, m: Memory, nodes: Nodes, unlinked: bool)
    requires Tiles(regs, end)
    requires nodes == m.nodes || (unlinked && NodesOnly(m.nodes, nodes, Frees(regs).Keys))
    ensures Spared(Allocs(regs) - {s}, m, m.(nodes := nodes))
  {
    SparedNone(Allocs(regs), m);
    FreesUnused(regs, end);
    hide Spared, Used, NodesOnly, Frees, Tiles;
    if nodes != m.nodes {
      SpareNodes(Allocs(regs), m, m, nodes, Frees(regs).Keys);
    }
    SparedFewer(Allocs(regs) - {s}, Allocs(regs), m, m.(nodes := nodes));
  }

  lemma PackedTaken(regs: map<nat, Region>, flags: seq<Flags>, s: nat, next: nat, g: Flags)
    requires (forall r :: r in regs ==> r < |flags|) && s < |flags|
    requires next < |flags| ==> next !in regs || g.packed == flags[next].packed
    ensures PackedKept(regs, flags, flags[s := flags[s].(alloc := true)])
    ensures next < |flags| ==> PackedKept(regs, flags, flags[s := flags[s].(alloc := true)][next := g])
  {
  }

  class SlabHeap {
    const bins: SlabBins
    var flags: seq<Flags>
    var footer: seq<nat>  // the last word of each slab
    var heapEnd: nat
    var lastAlloc: bool
    ghost var regs: map<nat, Region>

    ghost predicate Valid()
      reads this, bins, bins.skip
    {
      && bins.Valid()
      && HeapOk(regs, flags, footer, heapEnd, lastAlloc)
      && bins.free == Frees(regs)
    }

    ghost function Image(): Memory
      reads this, bins
    {
      Memory(flags, footer, bins.Image())
    }

    // mm_init: an empty heap; the memory before it counts as allocated
    constructor ()
      ensures Valid() && fresh(bins) && fresh(bins.skip) && regs == map[] && heapEnd == 0
    {
      bins := new SlabBins();
      flags, footer, heapEnd, lastAlloc := [], [], 0, true;
      regs := map[];
    }

    // mem_sbrk: extends the heap by k slabs of arbitrary contents
    method Sbrk(k: nat)
      modifies this`flags, this`footer, this`heapEnd
      requires |flags| == |footer| == heapEnd
      ensures heapEnd == old(heapEnd) + k && |flags| == |footer| == heapEnd
      ensures old(flags) <= flags && old(footer) <= footer
    {
      assert |seq(k, _ => Flags(false, false, false))| == k && |seq(k, _ => 0)| == k;
      var moreFlags: seq<Flags> :| |moreFlags| == k;
      var moreFooter: seq<nat> :| |moreFooter| == k;
      flags, footer, heapEnd := flags + moreFlags, footer + moreFooter, heapEnd + k;
    }

    lemma FreeRegion(s: nat)
      requires Valid() && s in regs && !regs[s].alloc
      ensures s in bins.free && bins.free[s] == regs[s].size >= 1
      ensures s in bins.numSlabs && bins.numSlabs[s] == regs[s].size
      ensures |flags| == |footer| == heapEnd && s + regs[s].size <= heapEnd
      ensures s + regs[s].size < heapEnd ==> s + regs[s].size in regs
      ensures flags[s].prevAlloc
      ensures s in Frees(regs) && Frees(regs)[s] == regs[s].size
    {
      PrevBitNext(regs, flags, heapEnd, s);
      LastPrevBit(regs, flags, heapEnd, s);
    }

    lemma RemainderFresh(s: nat, n: nat)
      requires Valid() && s in regs && !regs[s].alloc && 1 <= n < regs[s].size
      ensures s + n !in regs && s + n !in bins.free
    {
      TakeFresh(regs, heapEnd, s, n);
    }

    // exact fit
    method TakeWhole(s: nat)
      requires Valid() && s in regs && !regs[s].alloc && regs[s].size >= 1
      modifies this, bins
      ensures Valid() && regs == Take(old(regs), s, old(regs)[s].size) && heapEnd == old(heapEnd)
      ensures PackedKept(old(regs), old(flags), flags)
      ensures Spared(Allocs(old(regs)), old(Image()), Image())
    {
      hide HeapOk, SlabBins.Valid, Frees, Take, Allocs, Spared, NodesOnly, PackedKept;
      HeadsInside(regs, flags, footer, heapEnd, lastAlloc);
      Unpack(regs, flags, footer, heapEnd, lastAlloc);
      hide Tiles;
      FreeRegion(s);
      FreesTakeWhole(regs, s);
      ghost var r, n := regs, regs[s].size;
      ghost var f, l, m := flags, lastAlloc, Image();
      bins.Unlink(s);
      var next := s + bins.numSlabs[s];
      flags := flags[s := flags[s].(alloc := true)];
      if next == heapEnd {
        lastAlloc := true;
      } else {
        flags := flags[next := flags[next].(prevAlloc := true)];
      }
      regs := Take(regs, s, n);
      TakeWholeOk(r, f, footer, heapEnd, l, s, flags);
      PackedTaken(r, f, s, next, if next < heapEnd then f[next].(prevAlloc := true) else f[s]);
      TakeWholeSpares(r, heapEnd, s, m, bins.Image(), flags, f[s].(alloc := true),
                      if next < heapEnd then f[next].(prevAlloc := true) else f[s]);
    }

    // inexact fit: the remainder stays free
    method TakePart(s: nat, n: nat)
      requires Valid() && s in regs && !regs[s].alloc && 1 <= n < regs[s].size
      modifies this, bins, bins.skip
      ensures Valid() && regs == Take(old(regs), s, n) && heapEnd == old(heapEnd)
      ensures PackedKept(old(regs), old(flags), flags)
      ensures Spared(Allocs(old(regs)), old(Image()), Image())
    {
      hide HeapOk, SlabBins.Valid, Frees, Take, Allocs, Spared, NodesOnly, PackedKept;
      HeadsInside(regs, flags, footer, heapEnd, lastAlloc);
      Unpack(regs, flags, footer, heapEnd, lastAlloc);
      hide Tiles;
      FreeRegion(s);
      RemainderFresh(s, n);
      FreesTakePart(regs, s, n);
      ghost var r := regs;
      ghost var f, g, m := flags, footer, Image();
      var size := bins.numSlabs[s];
      var rem := s + n;
      bins.Unlink(s);
      ghost var nodes := bins.Image();
      flags := flags[s := flags[s].(alloc := true)];
      flags := flags[rem := Flags(false, true, false)];
      bins.Link(rem, size - n);
      footer := footer[s + size - 1 := size - n];
      regs := Take(regs, s, n);
      TakePartOk(r, f, g, heapEnd, lastAlloc, s, n, flags, footer);
      PackedTaken(r, f, s, rem, Flags(false, true, false));
      TakePartSpares(r, heapEnd, s, n, m, nodes, bins.Image(), f[s].(alloc := true), Flags(false, true, false), size - n);
    }

    // the free region s loses its first n slabs
    method TakeFrom(s: nat, n: nat)
      requires Valid() && s in regs && !regs[s].alloc && 1 <= n <= regs[s].size
      modifies this, bins, bins.skip
      ensures Valid() && regs == Take(old(regs), s, n) && heapEnd == old(heapEnd)
      ensures PackedKept(old(regs), old(flags), flags)
      ensures Spared(Allocs(old(regs)), old(Image()), Image())
    {
      FreeRegion(s);
      hide HeapOk, SlabBins.Valid, Frees, Take, Spared;
      if bins.numSlabs[s] == n {
        TakeWhole(s);
      } else {
        TakePart(s, n);
      }
    }

    /** __int_alloc_slab.  A region of n slabs from a smallest free region that is large
        enough; only when there is none does the heap grow, and then by no more than the free
        region at its end leaves missing. */
    method AllocSlab(n: nat) returns (s: nat)
      requires Valid() && n >= 1
      modifies this, bins, bins.skip
      ensures Valid() && s !in Allocs(old(regs)) && Allocs(regs) == Allocs(old(regs))[s := n]
      ensures BestPlace(n, Frees(old(regs)), old(heapEnd), s, heapEnd)
      ensures PackedKept(old(regs), old(flags), flags)
      ensures Spared(Allocs(old(regs)), old(Image()), Image())
    {
      hide Spared, BestPlace, Frees, Allocs, HeapOk, Tiles, Take, SlabBins.Valid, SlabBins.IsBestFit;
      var fit := bins.BestFit(n);
      FitFacts(n, fit);
      match fit {
        case Some(r) =>
          s := r;
          TakeFrom(s, n);
        case None =>
          ghost var r, end := regs, heapEnd;
          if !lastAlloc {
            s := GrowLast(n);
            LastPlace(r, end, n, s);
          } else {
            NewPlace(regs, flags, footer, heapEnd, n);
            s := GrowNew(n);
          }
      }
    }

    // what the bins say about the regions
    lemma FitFacts(n: nat, fit: Option<nat>)
      requires Valid() && n >= 1 && bins.IsBestFit(n, fit)
      ensures Tiles(regs, heapEnd)
      ensures fit.Some? ==>
        && fit.value in regs && !regs[fit.value].alloc && n <= regs[fit.value].size && fit.value !in Allocs(regs)
        && Allocs(Take(regs, fit.value, n)) == Allocs(regs)[fit.value := n]
        && BestPlace(n, Frees(regs), heapEnd, fit.value, heapEnd)
      ensures fit == None ==>
        && (forall q :: q in regs && !regs[q].alloc ==> regs[q].size < n)
        && (forall q :: q in Frees(regs) ==> Frees(regs)[q] < n)
    {
      hide BestPlace, SlabBins.Valid;
      Unpack(regs, flags, footer, heapEnd, lastAlloc);
      if fit == None {
        FreesSmall(regs, n);
      } else {
        var s := fit.value;
        assert s in Frees(regs);
        FitPlace(n, Frees(regs), heapEnd, s);
        if n < regs[s].size {
          TakeFresh(regs, heapEnd, s, n);
        }
        AllocsTake(regs, s, n);
      }
    }

    // the last region is free and too small: it is extended to n slabs
    method GrowLast(n: nat) returns (s: nat)
      requires Valid() && n >= 1 && !lastAlloc
      requires forall q :: q in regs && !regs[q].alloc ==> regs[q].size < n
      modifies this, bins
      ensures Valid() && s in Frees(old(regs)) && regs == old(regs)[s := Region(n, true)]
      ensures s + Frees(old(regs))[s] == old(heapEnd) && heapEnd == s + n
      ensures Allocs(regs) == Allocs(old(regs))[s := n]
      ensures PackedKept(old(regs), old(flags), flags)
      ensures Spared(Allocs(old(regs)), old(Image()), Image())
    {
      hide HeapOk, SlabBins.Valid, Frees, Allocs, Spared, NodesOnly;
      HeadsInside(regs, flags, footer, heapEnd, lastAlloc);
      Unpack(regs, flags, footer, heapEnd, lastAlloc);
      hide Tiles;
      ghost var m := Image();
      ghost var last := LastFooter();
      s := heapEnd - footer[heapEnd - 1];
      FreeRegion(s);
      var size := bins.numSlabs[s];
      GrownMaps(regs, s, n);
      ghost var r, f, g, e, l := regs, flags, footer, heapEnd, lastAlloc;
      bins.Unlink(s);
      Sbrk(n - size);
      regs := regs[s := Region(n, true)];
      GrownOk(r, f, g, e, l, s, n, flags, footer, flags[s].(alloc := true));
      GrownSpares(r, e, s, m, bins.Image(), flags, footer, flags[s].(alloc := true));
      flags := flags[s := flags[s].(alloc := true)];
      lastAlloc := true;
    }

    lemma LastFooter() returns (last: nat)
      requires Valid() && !lastAlloc
      ensures last in regs && !regs[last].alloc && last + regs[last].size == heapEnd
      ensures |footer| == heapEnd > 0 && footer[heapEnd - 1] == regs[last].size
    {
      last := Before(regs, heapEnd, heapEnd);
      assert FootAt(footer, last, regs[last].size);
    }

    // the last region is allocated: n new slabs
    method GrowNew(n: nat) returns (s: nat)
      requires Valid() && n >= 1 && lastAlloc
      modifies this
      ensures Valid() && s == old(heapEnd) && regs == old(regs)[s := Region(n, true)] && heapEnd == s + n
      ensures s !in old(regs) && Allocs(regs) == Allocs(old(regs))[s := n]
      ensures PackedKept(old(regs), old(flags), flags)
      ensures Spared(Allocs(old(regs)), old(Image()), Image())
    {
      hide HeapOk, SlabBins.Valid, Frees, Allocs, Spared;
      HeadsInside(regs, flags, footer, heapEnd, lastAlloc);
      Unpack(regs, flags, footer, heapEnd, lastAlloc);
      hide Tiles;
      ghost var m := Image();
      SizesOf(regs, flags, footer, heapEnd, lastAlloc);
      GrownMaps(regs, heapEnd, n);
      ghost var r, f, g, e, l := regs, flags, footer, heapEnd, lastAlloc;
      s := heapEnd;
      Sbrk(n);
      regs := regs[s := Region(n, true)];
      GrownOk(r, f, g, e, l, s, n, flags, footer, Flags(true, true, false));
      GrownSpares(r, e, s, m, bins.Image(), flags, footer, Flags(true, true, false));
      flags := flags[s := Flags(true, true, false)];
      lastAlloc := true;
    }

    // flags &= ~PACKED or |= PACKED in the header of an allocated slab
    method SetPacked(s: nat, packed: bool)
      requires Valid() && s < heapEnd
      modifies this`flags
      ensures Valid() && flags == old(flags)[s := old(flags)[s].(packed := packed)]
    {
      flags := flags[s := flags[s].(packed := packed)];
    }

    // the flags of a new region are in its header
    lemma HeaderSpares(allocs: map<nat, nat>, s: nat, n: nat, m: Memory)
      requires Valid() && s in regs && Allocs(regs) == allocs[s := n] && s !in allocs && s < |flags| == |m.flags|
      requires Image() == m.(flags := m.flags[s := flags[s]])
      ensures Spared(allocs, m, Image())
    {
      assert Fewer(allocs, Allocs(regs));
      UsedFewer(allocs, Allocs(regs));
      Unpack(regs, flags, footer, heapEnd, lastAlloc);
      NotProgram(regs, heapEnd, s, s);
      hide Spared, Used, Interior, Allocs, Fewer;
      SparedNone(allocs, m);
      SpareFlag(allocs, m, m, s, flags[s]);
    }

    // where the merged region starts when the allocated region s is freed
    lemma MergeStart(s: nat) returns (lo: nat)
      requires Valid() && s in regs && regs[s].alloc
      ensures s < |flags| == |footer| == heapEnd
      ensures flags[s].prevAlloc ==> lo == s
      ensures !flags[s].prevAlloc ==>
        && s > 0 && footer[s - 1] <= s && lo == s - footer[s - 1]
        && lo in regs && !regs[lo].alloc && lo + regs[lo].size == s && !flags[lo].alloc
      ensures lo in regs && lo <= s && !(flags[lo].alloc && lo < s) && flags[lo].prevAlloc
      ensures forall r :: r in regs && r + regs[r].size == lo ==> regs[r].alloc
      ensures forall r :: r in regs && lo <= r < s ==> r == lo
    {
      PrevBitAt(regs, flags, s);
      lo := s;
      if s > 0 {
        var p := Before(regs, heapEnd, s);
        if !flags[s].prevAlloc {
          assert FootAt(footer, p, regs[p].size);
          lo := p;
          LastPrevBit(regs, flags, heapEnd, lo);
          PrevBitAt(regs, flags, lo);
        }
      }
    }

    lemma FreeEntry(s: nat)
      requires Valid() && s in regs
      ensures s in Frees(regs) <==> !regs[s].alloc
      ensures !regs[s].alloc ==>
        s in bins.free && s in bins.numSlabs && bins.numSlabs[s] == regs[s].size && Frees(regs)[s] == regs[s].size
    {
    }

    // the part of __int_free_slab and __int_free_remainder_slab that looks at the slab after
    method DetachNext(next: nat) returns (hi: nat)
      requires bins.Valid() && |flags| == heapEnd && next <= heapEnd
      requires next < heapEnd && !flags[next].alloc ==> next in bins.free
      modifies this`flags, this`lastAlloc, bins
      ensures bins.Valid() && |flags| == heapEnd && bins.numSlabs == old(bins.numSlabs)
      ensures next == heapEnd ==>
        hi == next && !lastAlloc && flags == old(flags) && bins.free == old(bins.free)
      ensures next < heapEnd && !old(flags)[next].alloc ==>
        && next in old(bins.numSlabs) && hi == next + old(bins.numSlabs)[next]
        && lastAlloc == old(lastAlloc) && flags == old(flags) && bins.free == old(bins.free) - {next}
      ensures next < heapEnd && old(flags)[next].alloc ==>
        && hi == next && lastAlloc == old(lastAlloc)
        && flags == old(flags)[next := old(flags)[next].(prevAlloc := false)] && bins.free == old(bins.free)
      ensures Detached(old(flags), flags, heapEnd, next)
      ensures NodesOnly(old(bins.Image()), bins.Image(), old(bins.free).Keys)
    {
      hi := next;
      if next == heapEnd {
        lastAlloc := false;
      } else if !flags[next].alloc {
        hi := next + bins.numSlabs[next];
        bins.Unlink(next);
      } else {
        flags := flags[next := flags[next].(prevAlloc := false)];
      }
    }

    /** The common end of __int_free_slab and __int_free_remainder_slab: the allocated region s
        becomes free together with the free region that ends at it (if start < s) and the one
        that follows.  `start` has left its bin already and gets the flags fl; `f` is what the
        flags were, up to those of start itself. */
    method MergeForward(s: nat, n: nat, start: nat, fl: Flags, ghost f: seq<Flags>)
      requires bins.Valid() && HeapOk(regs, f, footer, heapEnd, lastAlloc) && bins.free == Frees(regs) - {start}
      requires SameBut(f, flags, start)
      requires s in regs && regs[s] == Region(n, true)
      requires start in regs && start <= s && (start < s ==> !regs[start].alloc && start + regs[start].size == s)
      requires forall r :: r in regs && start <= r < s ==> r == start
      requires forall r :: r in regs && r + regs[r].size == start ==> regs[r].alloc
      requires !fl.alloc && fl.prevAlloc && start < |flags| && fl.packed == flags[start].packed
      modifies this, bins, bins.skip
      ensures Valid() && heapEnd == old(heapEnd) && Allocs(regs) == Allocs(old(regs)) - {s}
      ensures PackedKept(old(regs), old(flags), flags)
      ensures Spared(Allocs(regs), old(Image()), Image())
    {
      hide HeapOk, SlabBins.Valid, Frees, Allocs, Merged, PackedKept, Detached, Spared, NodesOnly;
      HeadsInside(regs, f, footer, heapEnd, lastAlloc);
      ghost var hi := MergeEnd(regs, f, footer, heapEnd, lastAlloc, s, n);
      MergeParts(regs, s, n, start, hi);
      assert |flags| == |footer| == heapEnd by {
        SizesOf(regs, f, footer, heapEnd, lastAlloc);
      }
      if s + n < heapEnd && !flags[s + n].alloc {
        FreesAt(regs, s + n);
        bins.SizeField(s + n);
      }
      FreesAt(regs, start);
      ghost var r, g, l, before, m, slabs := regs, footer, lastAlloc, flags, Image(), bins.free.Keys;
      var next := DetachNext(s + n);
      assert next == hi;
      ghost var nodes, detached := bins.Image(), flags;
      SettledOk(r, f, g, heapEnd, l, s, n, start, hi, fl, before, flags, lastAlloc);
      bins.Link(start, next - start);
      flags := flags[start := fl];
      footer := footer[next - 1 := next - start];
      regs := Merged(regs, start, hi);
      MergedSpares(r, f, g, heapEnd, l, s, n, start, hi, m, nodes, bins.Image(), detached, slabs, fl, lastAlloc);
    }

    /** __int_free_slab.  The region is merged with its free neighbours; the heap does not
        shrink. */
    method FreeSlab(s: nat, n: nat)
      requires Valid() && s in regs && regs[s] == Region(n, true)
      modifies this, bins, bins.skip
      ensures Valid() && heapEnd == old(heapEnd) && Allocs(regs) == Allocs(old(regs)) - {s}
      ensures PackedKept(old(regs), old(flags), flags)
      ensures Spared(Allocs(regs), old(Image()), Image())
    {
      hide HeapOk, SlabBins.Valid, Frees, Allocs, Merged, Spared, NodesOnly;
      HeadsInside(regs, flags, footer, heapEnd, lastAlloc);
      Unpack(regs, flags, footer, heapEnd, lastAlloc);
      hide Tiles;
      ghost var m, r := Image(), regs;
      ghost var lo := MergeStart(s);
      FreeEntry(lo);
      ghost var f := flags;
      var start, fl := s, flags[s].(alloc := false);
      if !flags[s].prevAlloc {
        start := s - footer[s - 1];
        fl := flags[start];
        bins.Unlink(start);
      }
      UnlinkSpares(r, heapEnd, s, m, bins.Image(), start < s);
      ghost var m1 := Image();
      MergeForward(s, n, start, fl, f);
      SparedTrans(Allocs(regs), m, m1, Image());
    }

    /** __int_free_remainder_slab(h, r + keep, n - keep), where r is an allocated region of n
        slabs, followed by its callers' `flags |= SLAB_PREV_ALLOC_BIT` on the freed part.  The
        flags byte of the freed part is whatever the block that lay there left in it. */
    method FreeTail(r: nat, n: nat, keep: nat)
      requires Valid() && r in regs && regs[r] == Region(n, true) && 1 <= keep < n
      modifies this, bins, bins.skip
      ensures Valid() && heapEnd == old(heapEnd) && Allocs(regs) == Allocs(old(regs))[r := keep]
      ensures PackedKept(old(regs), old(flags), flags)
      ensures Spared(Allocs(regs), old(Image()), Image())
    {
      hide HeapOk, SlabBins.Valid, Frees, Allocs, Merged, Spared;
      HeadsInside(regs, flags, footer, heapEnd, lastAlloc);
      var s := r + keep;
      InsideHeap(r, keep);
      ghost var f := flags[s := Flags(true, true, false)];
      CutOk(regs, flags, footer, heapEnd, lastAlloc, r, keep, f);
      CutMaps(regs, flags, footer, heapEnd, lastAlloc, r, keep);
      regs := Cut(regs, r, keep);
      var fl := flags[s].(alloc := false, prevAlloc := true);
      MergeForward(s, n - keep, s, fl, f);
    }

    lemma AllocatedRegion(s: nat)
      requires Valid() && s in Allocs(regs)
      ensures s in regs && regs[s] == Region(Allocs(regs)[s], true) && s < heapEnd == |flags| && regs[s].size >= 1
      ensures flags[s].alloc
    {
    }

    // the program writes the first bytes of a slab in which no region starts
    method ScribbleStart(i: nat, f: Flags)
      requires Valid() && i < |flags| && i !in regs
      modifies this`flags
      ensures Valid() && flags == old(flags)[i := f]
    {
      ScribbleFlags(regs, flags, footer, heapEnd, lastAlloc, i, f);
      flags := flags[i := f];
    }

    // ... or the last bytes of a slab in which no free region ends
    method ScribbleEnd(i: nat, w: nat)
      requires Valid() && i < |footer| && forall r :: r in regs && r + regs[r].size == i + 1 ==> regs[r].alloc
      modifies this`footer
      ensures Valid() && footer == old(footer)[i := w]
    {
      ScribbleFooter(regs, flags, footer, heapEnd, lastAlloc, i, w);
      footer := footer[i := w];
    }

    lemma InsideHeap(r: nat, k: nat)
      requires Valid() && r in regs && k < regs[r].size
      ensures r + k < heapEnd == |flags| == |footer|
    {
    }
  }
}
