/** The blocks of a large slab as a sequence, in units of 16 bytes: where each block starts in
    the first slab and whether it is allocated.  The last block may hang over the edge of the
    first slab into the slabs that follow. */
module MediumBlocks {

  const SLAB_UNITS := 256       // SLAB_SIZE
  const HEADER_UNITS := 1       // LARGE_SLAB_HEADER_SIZE
  const MIN_UNITS := 32         // MIN_MEDIUM_BLOCK_SZ
  const MAX_BLOCKS := 8

  // n slabs; `hang` is set while an allocated large block covers the slabs after the first
  datatype Large = Large(n: nat, offs: seq<nat>, alloc: seq<bool>, hang: bool)

  // where block i ends in the first slab
  function EndOf(offs: seq<nat>, i: nat): nat {
    if i + 1 < |offs| then offs[i + 1] else SLAB_UNITS
  }

  ghost predicate Ascending(offs: seq<nat>) {
    forall i, j :: 0 <= i < j < |offs| ==> offs[i] < offs[j]
  }

  ghost predicate NoFreePair(alloc: seq<bool>) {
    forall i :: 0 <= i < |alloc| - 1 ==> alloc[i] || alloc[i + 1]
  }

  // every block but a hanging one has at least the size of a medium block
  ghost predicate Sizes(offs: seq<nat>, hang: bool) {
    forall i :: 0 <= i < |offs| && !(hang && i == |offs| - 1) ==> EndOf(offs, i) >= offs[i] + MIN_UNITS
  }

  ghost predicate Shape(l: Large) {
    && l.n >= 1
    && |l.offs| == |l.alloc| >= 1 && l.offs[0] == HEADER_UNITS
    && Ascending(l.offs) && l.offs[|l.offs| - 1] <= SLAB_UNITS
    && (l.hang ==> l.n > 1 && l.alloc[|l.offs| - 1])
    && (l.offs[|l.offs| - 1] == SLAB_UNITS ==> l.hang)
    && Sizes(l.offs, l.hang)
    && NoFreePair(l.alloc)
  }

  // a large slab in use: a slab without allocated blocks would have been freed
  ghost predicate Ok(l: Large) {
    Shape(l) && true in l.alloc
  }

  // ---------- the packing bound ----------

  lemma {:induction false} OffsetBound(offs: seq<nat>, hang: bool, i: nat)
    requires |offs| >= 1 && offs[0] == HEADER_UNITS && Sizes(offs, hang) && i < |offs|
    ensures offs[i] >= HEADER_UNITS + MIN_UNITS * i
  {
    if i > 0 {
      OffsetBound(offs, hang, i - 1);
      assert EndOf(offs, i - 1) == offs[i];
    }
  }

  // at most eight blocks start in the first slab, and an eighth can only be a hanging one
  lemma BlockCount(l: Large)
    requires Shape(l)
    ensures |l.offs| <= MAX_BLOCKS && (|l.offs| == MAX_BLOCKS ==> l.hang)
  {
    OffsetBound(l.offs, l.hang, |l.offs| - 1);
    if !l.hang {
      assert EndOf(l.offs, |l.offs| - 1) == SLAB_UNITS;
    }
  }

  // a free block that leaves a remainder big enough to stay can be split without a ninth block
  lemma SplitCount(l: Large, pos: nat)
    requires Shape(l) && pos < |l.offs| && !l.alloc[pos] && EndOf(l.offs, pos) >= l.offs[pos] + 2 * MIN_UNITS
    ensures |l.offs| < MAX_BLOCKS && pos < MAX_BLOCKS - 1
  {
    BlockCount(l);
    if |l.offs| == MAX_BLOCKS {
      OffsetBoundFrom(l.offs, l.hang, pos + 1, |l.offs| - 1);
      OffsetBound(l.offs, l.hang, pos);
    }
  }

  lemma {:induction false} OffsetBoundFrom(offs: seq<nat>, hang: bool, j: nat, i: nat)
    requires Sizes(offs, hang) && j <= i < |offs|
    ensures offs[i] >= offs[j] + MIN_UNITS * (i - j)
  {
    if j < i {
      OffsetBoundFrom(offs, hang, j, i - 1);
      assert EndOf(offs, i - 1) == offs[i];
    }
  }

  // ---------- freeing a block ----------

  function PrevFree(l: Large, idx: nat): bool {
    0 < idx <= |l.alloc| && !l.alloc[idx - 1]
  }

  function NextFree(l: Large, idx: nat): bool {
    idx + 1 < |l.alloc| && !l.alloc[idx + 1]
  }

  // first block of the merged range, and one past its last
  function MergeLo(l: Large, idx: nat): nat {
    if PrevFree(l, idx) then idx - 1 else idx
  }

  function MergeHi(l: Large, idx: nat): nat {
    if NextFree(l, idx) then idx + 2 else idx + 1
  }

  function MergedStart(l: Large, idx: nat): nat
    requires idx < |l.offs| == |l.alloc|
  {
    l.offs[MergeLo(l, idx)]
  }

  function MergedEnd(l: Large, idx: nat): nat
    requires idx < |l.offs| == |l.alloc|
  {
    EndOf(l.offs, MergeHi(l, idx) - 1)
  }

  // the merged block is too small to be a medium block
  predicate Absorbed(l: Large, idx: nat)
    requires idx < |l.offs| == |l.alloc|
  {
    MergedEnd(l, idx) < MergedStart(l, idx) + MIN_UNITS
  }

  // the slabs after the first are given back: the last block goes, unless it is the eighth
  // and starts inside the first slab
  predicate Releases(l: Large, idx: nat)
    requires idx < |l.offs| == |l.alloc|
  {
    l.n > 1 && idx == |l.offs| - 1 && (idx < MAX_BLOCKS - 1 || l.offs[idx] == SLAB_UNITS)
  }

  // the slab after block idx is freed
  function Freed(l: Large, idx: nat): Large
    requires idx < |l.offs| == |l.alloc|
  {
    var lo, hi := MergeLo(l, idx), MergeHi(l, idx);
    Large(
      if Releases(l, idx) then 1 else l.n,
      if Absorbed(l, idx) then l.offs[..idx] else l.offs[..lo + 1] + l.offs[hi..],
      if Absorbed(l, idx) then l.alloc[..idx] else l.alloc[..lo] + [false] + l.alloc[hi..],
      l.hang && idx != |l.offs| - 1)
  }

  // only what a hanging block leaves behind in the first slab can be too small; then the block
  // before it is allocated and takes the rest
  lemma AbsorbedCase(l: Large, idx: nat)
    requires Shape(l) && idx < |l.offs| && Absorbed(l, idx)
    ensures idx > 0 && l.alloc[idx - 1] && l.hang && idx == |l.offs| - 1
    ensures MergeLo(l, idx) == idx && MergeHi(l, idx) == |l.offs|
  {
  }

  // block k of the result is block Source(k) of the input
  function Source(l: Large, idx: nat, k: nat): nat {
    if k <= MergeLo(l, idx) then k else k + (MergeHi(l, idx) - 1 - MergeLo(l, idx))
  }

  lemma FreedAt(l: Large, idx: nat, k: nat)
    requires |l.offs| == |l.alloc| && idx < |l.offs| && !Absorbed(l, idx) && k < |Freed(l, idx).offs|
    ensures |Freed(l, idx).offs| == |Freed(l, idx).alloc|
    ensures Source(l, idx, k) < |l.offs|
    ensures Freed(l, idx).offs[k] == l.offs[Source(l, idx, k)]
    ensures Freed(l, idx).alloc[k] == (k != MergeLo(l, idx) && l.alloc[Source(l, idx, k)])
  {
  }

  lemma FreedSize(l: Large, idx: nat)
    requires |l.offs| == |l.alloc| && idx < |l.offs| && !Absorbed(l, idx)
    ensures var d := MergeHi(l, idx) - 1 - MergeLo(l, idx);
      && 0 <= d && MergeHi(l, idx) <= |l.offs|
      && |Freed(l, idx).offs| == |Freed(l, idx).alloc| == |l.offs| - d
  {
  }

  lemma FreedEnd(l: Large, idx: nat, k: nat)
    requires |l.offs| == |l.alloc| && idx < |l.offs| && !Absorbed(l, idx) && k < |Freed(l, idx).offs|
    ensures EndOf(Freed(l, idx).offs, k) ==
      if k == MergeLo(l, idx) then MergedEnd(l, idx) else EndOf(l.offs, Source(l, idx, k))
  {
    FreedSize(l, idx);
    hide Freed;
    if k + 1 < |Freed(l, idx).offs| {
      FreedAt(l, idx, k + 1);
    }
  }

  // freeing keeps the shape
  lemma FreedShape(l: Large, idx: nat)
    requires Shape(l) && idx < |l.offs| && l.alloc[idx]
    ensures Shape(Freed(l, idx))
  {
    if Absorbed(l, idx) {
      FreedAbsorbedShape(l, idx);
    } else {
      hide Ascending, Sizes, NoFreePair;
      FreedSize(l, idx);
      FreedOrder(l, idx);
      FreedSizes(l, idx);
      FreedPairs(l, idx);
      FreedEnds(l, idx);
    }
  }

  lemma FreedAbsorbedShape(l: Large, idx: nat)
    requires Shape(l) && idx < |l.offs| && l.alloc[idx] && Absorbed(l, idx)
    ensures Shape(Freed(l, idx))
  {
    AbsorbedCase(l, idx);
    var f := Freed(l, idx);
    forall i | 0 <= i < |f.offs| ensures EndOf(f.offs, i) >= f.offs[i] + MIN_UNITS {
      assert EndOf(l.offs, i) >= l.offs[i] + MIN_UNITS;
    }
  }

  lemma FreedOrder(l: Large, idx: nat)
    requires |l.offs| == |l.alloc| && Ascending(l.offs) && idx < |l.offs| && !Absorbed(l, idx)
    ensures Ascending(Freed(l, idx).offs)
  {
    var f := Freed(l, idx);
    FreedSize(l, idx);
    hide Freed;
    forall i, j | 0 <= i < j < |f.offs| ensures f.offs[i] < f.offs[j] {
      FreedAt(l, idx, i);
      FreedAt(l, idx, j);
    }
  }

  lemma FreedSizes(l: Large, idx: nat)
    requires |l.offs| == |l.alloc| && Sizes(l.offs, l.hang) && idx < |l.offs| && l.alloc[idx] && !Absorbed(l, idx)
    requires l.hang ==> l.alloc[|l.offs| - 1]
    ensures Sizes(Freed(l, idx).offs, Freed(l, idx).hang)
  {
    var f := Freed(l, idx);
    FreedSize(l, idx);
    assert f.hang == (l.hang && idx != |l.offs| - 1);
    hide Freed;
    forall k | 0 <= k < |f.offs| && !(f.hang && k == |f.offs| - 1)
      ensures EndOf(f.offs, k) >= f.offs[k] + MIN_UNITS
    {
      FreedAt(l, idx, k);
      FreedEnd(l, idx, k);
    }
  }

  lemma FreedPairs(l: Large, idx: nat)
    requires |l.offs| == |l.alloc| && NoFreePair(l.alloc) && idx < |l.offs| && l.alloc[idx] && !Absorbed(l, idx)
    ensures NoFreePair(Freed(l, idx).alloc)
  {
    var f := Freed(l, idx);
    var lo := MergeLo(l, idx);
    FreedSize(l, idx);
    hide Freed;
    forall k | 0 <= k < |f.alloc| - 1 ensures f.alloc[k] || f.alloc[k + 1] {
      FreedAt(l, idx, k);
      FreedAt(l, idx, k + 1);
      var j := Source(l, idx, k);
      if k + 1 == lo {
        PairAt(l.alloc, k);
      } else if k == lo {
        var h := MergeHi(l, idx);
        PairAt(l.alloc, h - 1);
      } else {
        PairAt(l.alloc, j);
      }
    }
  }

  lemma FreedEnds(l: Large, idx: nat)
    requires Shape(l) && idx < |l.offs| && l.alloc[idx] && !Absorbed(l, idx)
    ensures var f := Freed(l, idx);
      && f.n >= 1 && |f.offs| >= 1 && |f.offs| == |f.alloc| && f.offs[0] == HEADER_UNITS
      && f.offs[|f.offs| - 1] <= SLAB_UNITS
      && (f.hang ==> f.n > 1 && f.alloc[|f.offs| - 1])
      && (f.offs[|f.offs| - 1] == SLAB_UNITS ==> f.hang)
  {
    var f := Freed(l, idx);
    FreedSize(l, idx);
    FreedAt(l, idx, 0);
    FreedAt(l, idx, |f.offs| - 1);
    assert f.hang == (l.hang && idx != |l.offs| - 1);
    assert f.n == if Releases(l, idx) then 1 else l.n;
    hide Freed, NoFreePair;
    if MergeLo(l, idx) == |f.offs| - 1 {
      assert MergedStart(l, idx) < SLAB_UNITS;
    }
  }

  lemma PairAt(alloc: seq<bool>, i: nat)
    requires NoFreePair(alloc) && i + 1 < |alloc|
    ensures alloc[i] || alloc[i + 1]
  {
  }

  // freeing a block leaves none allocated exactly when it was the only one
  lemma LastFreed(l: Large, idx: nat)
    requires Shape(l) && idx < |l.offs| && l.alloc[idx]
    ensures true !in Freed(l, idx).alloc <==> forall k :: 0 <= k < |l.alloc| && l.alloc[k] ==> k == idx
  {
    hide Freed;
    forall k | 0 <= k < |l.alloc| && l.alloc[k] && k != idx ensures true in Freed(l, idx).alloc {
      FreedLive(l, idx, l.offs[k]);
      OffsetsDiffer(l, k, idx);
      assert LiveIdx(l, k, l.offs[k], BlockEnd(l, k));
      assert LiveAt(l, l.offs[k], BlockEnd(l, k));
      var end' :| LiveAt(Freed(l, idx), l.offs[k], end');
      var i: nat :| LiveIdx(Freed(l, idx), i, l.offs[k], end');
      assert Freed(l, idx).alloc[i];
    }
    if true in Freed(l, idx).alloc {
      FreedShape(l, idx);
      var k :| 0 <= k < |Freed(l, idx).alloc| && Freed(l, idx).alloc[k];
      var j := FreedOrigin(l, idx, k);
    }
  }

  // when no allocated block is left, the first slab is one free block
  lemma {:induction false} AllFree(l: Large)
    requires Shape(l) && true !in l.alloc
    ensures l.offs == [HEADER_UNITS] && l.alloc == [false] && !l.hang
  {
    assert forall i :: 0 <= i < |l.alloc| ==> !l.alloc[i];
    if |l.alloc| > 1 {
      PairAt(l.alloc, 0);
    }
    assert l.offs == [l.offs[0]];
  }

  // ---------- allocating a block ----------

  // the whole block
  function Taken(l: Large, pos: nat): Large
    requires pos < |l.alloc|
  {
    l.(alloc := l.alloc[pos := true])
  }

  // the first `size` units; the remainder becomes a free block after it
  function Split(l: Large, pos: nat, size: nat): Large
    requires pos < |l.offs| == |l.alloc|
  {
    l.(offs := l.offs[..pos + 1] + [l.offs[pos] + size] + l.offs[pos + 1..],
       alloc := l.alloc[..pos] + [true] + l.alloc[pos..])
  }

  lemma TakenOk(l: Large, pos: nat)
    requires Shape(l) && pos < |l.offs|
    ensures Ok(Taken(l, pos))
  {
    var t := Taken(l, pos);
    assert t.alloc[pos];
    assert forall i :: 0 <= i < |l.alloc| ==> l.alloc[i] ==> t.alloc[i];
    assert forall i :: 0 <= i < |l.alloc| - 1 ==> l.alloc[i] || l.alloc[i + 1];
  }

  lemma SplitAt(l: Large, pos: nat, size: nat, k: nat)
    requires pos < |l.offs| == |l.alloc| && k <= |l.offs|
    ensures var t := Split(l, pos, size);
      && |t.offs| == |t.alloc| == |l.offs| + 1
      && t.offs[k] == (if k <= pos then l.offs[k] else if k == pos + 1 then l.offs[pos] + size else l.offs[k - 1])
      && t.alloc[k] == (if k < pos then l.alloc[k] else if k == pos then true else l.alloc[k - 1])
      && EndOf(t.offs, k) == (if k < pos then EndOf(l.offs, k) else if k == pos then l.offs[pos] + size
                              else EndOf(l.offs, k - 1))
  {
  }

  lemma SplitOk(l: Large, pos: nat, size: nat)
    requires Shape(l) && pos < |l.offs| && !l.alloc[pos] && size >= MIN_UNITS
    requires EndOf(l.offs, pos) >= l.offs[pos] + size + MIN_UNITS
    ensures Ok(Split(l, pos, size))
  {
    SplitAt(l, pos, size, 0);
    SplitAt(l, pos, size, pos);
    SplitAt(l, pos, size, |l.offs|);
    SplitFields(l, pos, size);
    SplitOrder(l, pos, size);
    SplitSizes(l, pos, size);
    SplitPairs(l, pos, size);
    hide Split, Ascending, NoFreePair, Sizes;
    assert Split(l, pos, size).alloc[pos];
  }

  lemma SplitOrder(l: Large, pos: nat, size: nat)
    requires |l.offs| == |l.alloc| && Ascending(l.offs) && pos < |l.offs| && size > 0
    requires EndOf(l.offs, pos) > l.offs[pos] + size
    ensures Ascending(Split(l, pos, size).offs)
  {
    var t := Split(l, pos, size);
    SplitAt(l, pos, size, 0);
    hide Split;
    forall i, j | 0 <= i < j < |t.offs| ensures t.offs[i] < t.offs[j] {
      SplitAt(l, pos, size, i);
      SplitAt(l, pos, size, j);
      assert i < pos ==> l.offs[i] < l.offs[pos];
    }
  }

  lemma SplitSizes(l: Large, pos: nat, size: nat)
    requires |l.offs| == |l.alloc| && Sizes(l.offs, l.hang) && pos < |l.offs| && size >= MIN_UNITS
    requires EndOf(l.offs, pos) >= l.offs[pos] + size + MIN_UNITS
    ensures Sizes(Split(l, pos, size).offs, l.hang)
  {
    var t := Split(l, pos, size);
    SplitAt(l, pos, size, 0);
    hide Split;
    forall i | 0 <= i < |t.offs| && !(l.hang && i == |t.offs| - 1) ensures EndOf(t.offs, i) >= t.offs[i] + MIN_UNITS {
      SplitAt(l, pos, size, i);
      var j := if i <= pos then i else i - 1;
      if j != pos {
        assert EndOf(l.offs, j) >= l.offs[j] + MIN_UNITS;
      }
    }
  }

  lemma SplitPairs(l: Large, pos: nat, size: nat)
    requires |l.offs| == |l.alloc| && NoFreePair(l.alloc) && pos < |l.offs| && !l.alloc[pos]
    ensures NoFreePair(Split(l, pos, size).alloc)
  {
    var t := Split(l, pos, size);
    SplitAt(l, pos, size, 0);
    hide Split;
    forall i | 0 <= i < |t.alloc| - 1 ensures t.alloc[i] || t.alloc[i + 1] {
      SplitAt(l, pos, size, i);
      SplitAt(l, pos, size, i + 1);
      if i < pos {
        PairAt(l.alloc, i);
      } else if i > pos {
        PairAt(l.alloc, i - 1);
      }
    }
  }

  lemma SplitFields(l: Large, pos: nat, size: nat)
    requires pos < |l.offs| == |l.alloc|
    ensures Split(l, pos, size).hang == l.hang && Split(l, pos, size).n == l.n
  {
  }

  // ---------- new slabs ----------

  // __int_slab_init_large_and_alloc for a medium block: the block comes first
  function NewMedium(size: nat): Large {
    if SLAB_UNITS >= size + HEADER_UNITS + MIN_UNITS
    then Large(1, [HEADER_UNITS, size + HEADER_UNITS], [true, false], false)
    else Large(1, [HEADER_UNITS], [true], false)
  }

  // ... for a large block: it is pushed back as far as possible
  function NewLarge(n: nat, size: nat): Large {
    var start := SLAB_UNITS - size % SLAB_UNITS;
    if start >= HEADER_UNITS + MIN_UNITS
    then Large(n, [HEADER_UNITS, start], [false, true], true)
    else Large(n, [HEADER_UNITS], [true], true)
  }

  lemma NewMediumOk(size: nat)
    requires MIN_UNITS <= size < SLAB_UNITS
    ensures Ok(NewMedium(size))
  {
    assert NewMedium(size).alloc[0];
  }

  lemma NewLargeOk(n: nat, size: nat)
    requires n > 1
    ensures Ok(NewLarge(n, size))
  {
    var l := NewLarge(n, size);
    assert l.alloc[|l.alloc| - 1];
  }

  // ---------- what a slab holds ----------

  // where block i ends, counted from the start of the first slab
  function BlockEnd(l: Large, i: nat): nat {
    if l.hang && i + 1 == |l.offs| then SLAB_UNITS * l.n else EndOf(l.offs, i)
  }

  ghost predicate LiveIdx(l: Large, i: nat, off: nat, end: nat) {
    i < |l.offs| && i < |l.alloc| && l.alloc[i] && l.offs[i] == off && BlockEnd(l, i) == end
  }

  ghost predicate FreeIdx(l: Large, i: nat, off: nat, size: nat) {
    i < |l.offs| && i < |l.alloc| && !l.alloc[i] && l.offs[i] == off && EndOf(l.offs, i) == off + size
  }

  // an allocated block from unit `off` to unit `end`
  ghost predicate LiveAt(l: Large, off: nat, end: nat) {
    exists i: nat :: LiveIdx(l, i, off, end)
  }

  // a free block of `size` units at unit `off`
  ghost predicate FreeAt(l: Large, off: nat, size: nat) {
    exists i: nat :: FreeIdx(l, i, off, size)
  }

  // the blocks of one slab do not overlap
  lemma BlocksApart(l: Large, i: nat, j: nat)
    requires Shape(l) && i < j < |l.offs|
    ensures BlockEnd(l, i) <= l.offs[j]
  {
    if i + 1 < j {
      assert l.offs[i + 1] < l.offs[j];
    }
  }

  lemma BlockInside(l: Large, i: nat)
    requires Shape(l) && i < |l.offs|
    ensures HEADER_UNITS <= l.offs[i] < BlockEnd(l, i) <= SLAB_UNITS * l.n
  {
    if i > 0 {
      assert l.offs[0] < l.offs[i];
    }
    if i + 1 < |l.offs| {
      assert l.offs[i] < l.offs[i + 1] <= SLAB_UNITS;
    }
  }

  /** Freeing block idx leaves every other allocated block where it is, at least as long as it
      was, and adds none. */
  lemma FreedLive(l: Large, idx: nat, off: nat)
    requires Shape(l) && idx < |l.offs| && l.alloc[idx]
    ensures forall end :: LiveAt(l, off, end) && off != l.offs[idx] ==>
      exists end' :: end <= end' && LiveAt(Freed(l, idx), off, end')
    ensures forall end :: LiveAt(Freed(l, idx), off, end) ==>
      off != l.offs[idx] && exists end' :: LiveAt(l, off, end')
  {
    forall end | LiveAt(l, off, end) && off != l.offs[idx]
      ensures exists end' :: end <= end' && LiveAt(Freed(l, idx), off, end')
    {
      var i: nat :| LiveIdx(l, i, off, end);
      FreedKeeps(l, idx, i);
    }
    forall end | LiveAt(Freed(l, idx), off, end)
      ensures off != l.offs[idx] && exists end' :: LiveAt(l, off, end')
    {
      FreedFrom(l, idx, off, end);
    }
  }

  lemma FreedKeeps(l: Large, idx: nat, i: nat)
    requires Shape(l) && idx < |l.offs| && l.alloc[idx] && i < |l.offs| && l.alloc[i] && i != idx
    ensures exists end' :: BlockEnd(l, i) <= end' && LiveAt(Freed(l, idx), l.offs[i], end')
  {
    if Absorbed(l, idx) {
      FreedKeepsAbsorbed(l, idx, i);
    } else {
      FreedKeepsMerged(l, idx, i);
    }
  }

  lemma FreedKeepsAbsorbed(l: Large, idx: nat, i: nat)
    requires Shape(l) && idx < |l.offs| && l.alloc[idx] && i < |l.offs| && l.alloc[i] && i != idx && Absorbed(l, idx)
    ensures exists end' :: BlockEnd(l, i) <= end' && LiveAt(Freed(l, idx), l.offs[i], end')
  {
    var f := Freed(l, idx);
    AbsorbedCase(l, idx);
    assert i < idx && f.offs[i] == l.offs[i] && f.alloc[i];
    BlockInside(l, idx);
    assert BlockEnd(l, i) <= BlockEnd(f, i);
    assert LiveIdx(f, i, l.offs[i], BlockEnd(f, i));
    assert LiveAt(f, l.offs[i], BlockEnd(f, i));
  }

  // where an untouched block i ends up
  lemma Target(l: Large, idx: nat, i: nat) returns (k: nat)
    requires |l.offs| == |l.alloc| && idx < |l.offs| && i < |l.offs| && i != idx && !Absorbed(l, idx)
    requires !(PrevFree(l, idx) && i == idx - 1) && !(NextFree(l, idx) && i == idx + 1)
    ensures k < |Freed(l, idx).offs| == |Freed(l, idx).alloc| && k != MergeLo(l, idx)
    ensures Freed(l, idx).offs[k] == l.offs[i] && Freed(l, idx).alloc[k] == l.alloc[i]
    ensures EndOf(Freed(l, idx).offs, k) == EndOf(l.offs, i)
    ensures k + 1 == |Freed(l, idx).offs| <==> i + 1 == |l.offs|
    ensures Freed(l, idx).hang == (l.hang && idx + 1 != |l.offs|)
  {
    var lo, hi := MergeLo(l, idx), MergeHi(l, idx);
    FreedSize(l, idx);
    assert i < lo || i >= hi;
    k := if i < lo then i else i - (hi - 1 - lo);
    FreedAt(l, idx, k);
    FreedEnd(l, idx, k);
    assert Source(l, idx, k) == i;
    assert Freed(l, idx).hang == (l.hang && idx != |l.offs| - 1);
  }

  lemma FreedKeepsMerged(l: Large, idx: nat, i: nat)
    requires Shape(l) && idx < |l.offs| && l.alloc[idx] && i < |l.offs| && l.alloc[i] && i != idx && !Absorbed(l, idx)
    ensures exists end' :: BlockEnd(l, i) <= end' && LiveAt(Freed(l, idx), l.offs[i], end')
  {
    hide Absorbed, Ascending, Sizes, NoFreePair;
    var f := Freed(l, idx);
    var k := Target(l, idx, i);
    ReleaseKeeps(l, idx);
    hide Freed;
    assert BlockEnd(f, k) == BlockEnd(l, i);
    assert LiveIdx(f, k, l.offs[i], BlockEnd(f, k));
    assert LiveAt(f, l.offs[i], BlockEnd(f, k));
  }

  // a slab keeps its tail as long as a block still hangs into it
  lemma ReleaseKeeps(l: Large, idx: nat)
    requires |l.offs| == |l.alloc| && idx < |l.offs|
    ensures Freed(l, idx).hang ==> Freed(l, idx).n == l.n
  {
  }

  lemma FreedFrom(l: Large, idx: nat, off: nat, end: nat)
    requires Shape(l) && idx < |l.offs| && l.alloc[idx] && LiveAt(Freed(l, idx), off, end)
    ensures off != l.offs[idx] && exists end' :: LiveAt(l, off, end')
  {
    var f := Freed(l, idx);
    var k: nat :| LiveIdx(f, k, off, end);
    var j := FreedOrigin(l, idx, k);
    OffsetsDiffer(l, j, idx);
    hide Shape, Freed;
    assert LiveIdx(l, j, off, BlockEnd(l, j));
    assert LiveAt(l, off, BlockEnd(l, j));
  }

  lemma FreedOrigin(l: Large, idx: nat, k: nat) returns (j: nat)
    requires Shape(l) && idx < |l.offs| && l.alloc[idx]
    requires k < |Freed(l, idx).offs| && k < |Freed(l, idx).alloc| && Freed(l, idx).alloc[k]
    ensures j < |l.offs| && j != idx && l.alloc[j] && l.offs[j] == Freed(l, idx).offs[k]
  {
    if Absorbed(l, idx) {
      AbsorbedCase(l, idx);
      j := k;
    } else {
      j := Source(l, idx, k);
      FreedSize(l, idx);
      FreedAt(l, idx, k);
    }
  }

  // the free blocks after freeing: the neighbours that merged are gone, the merged block is new
  lemma FreedFrees(l: Large, idx: nat, off: nat, size: nat)
    requires Shape(l) && idx < |l.offs| && l.alloc[idx]
    ensures FreeAt(Freed(l, idx), off, size) <==>
      || (!Absorbed(l, idx) && off == MergedStart(l, idx) && off + size == MergedEnd(l, idx))
      || OtherFree(l, idx, off, size)
  {
    var f := Freed(l, idx);
    if FreeAt(f, off, size) {
      FreedFreesFrom(l, idx, off, size);
    }
    if OtherFree(l, idx, off, size) {
      FreedFreesKeep(l, idx, off, size);
    }
    if !Absorbed(l, idx) && off == MergedStart(l, idx) && off + size == MergedEnd(l, idx) {
      FreedSize(l, idx);
      var lo := MergeLo(l, idx);
      FreedAt(l, idx, lo);
      FreedEnd(l, idx, lo);
      assert FreeIdx(f, lo, off, size);
    }
  }

  // an untouched free block
  ghost predicate OtherFree(l: Large, idx: nat, off: nat, size: nat)
    requires idx < |l.offs| == |l.alloc|
  {
    && FreeAt(l, off, size)
    && !(PrevFree(l, idx) && off == l.offs[idx - 1]) && !(NextFree(l, idx) && off == l.offs[idx + 1])
  }

  lemma FreedFreesFrom(l: Large, idx: nat, off: nat, size: nat)
    requires Shape(l) && idx < |l.offs| && l.alloc[idx] && FreeAt(Freed(l, idx), off, size)
    ensures
      || (!Absorbed(l, idx) && off == MergedStart(l, idx) && off + size == MergedEnd(l, idx))
      || OtherFree(l, idx, off, size)
  {
    hide Ascending, Sizes, NoFreePair, Freed, Absorbed, OtherFree, EndOf, MergedEnd;
    var f := Freed(l, idx);
    var k: nat :| FreeIdx(f, k, off, size);
    if Absorbed(l, idx) {
      AbsorbedFreeFrom(l, idx, k);
    } else if k != MergeLo(l, idx) {
      MergedFreeFrom(l, idx, k);
    } else {
      FreedAt(l, idx, k);
      FreedEnd(l, idx, k);
    }
  }

  lemma AbsorbedFreeFrom(l: Large, idx: nat, k: nat)
    requires Shape(l) && idx < |l.offs| && l.alloc[idx] && Absorbed(l, idx)
    requires k < |Freed(l, idx).offs| && k < |Freed(l, idx).alloc| && !Freed(l, idx).alloc[k]
    ensures Freed(l, idx).offs[k] <= EndOf(Freed(l, idx).offs, k)
    ensures OtherFree(l, idx, Freed(l, idx).offs[k], EndOf(Freed(l, idx).offs, k) - Freed(l, idx).offs[k])
  {
    AbsorbedCase(l, idx);
    assert EndOf(l.offs, k) >= l.offs[k] + MIN_UNITS;
    assert FreeIdx(l, k, l.offs[k], EndOf(l.offs, k) - l.offs[k]);
  }

  lemma MergedFreeFrom(l: Large, idx: nat, k: nat)
    requires Shape(l) && idx < |l.offs| && l.alloc[idx] && !Absorbed(l, idx)
    requires k < |Freed(l, idx).offs| && k < |Freed(l, idx).alloc| && !Freed(l, idx).alloc[k] && k != MergeLo(l, idx)
    ensures Freed(l, idx).offs[k] <= EndOf(Freed(l, idx).offs, k)
    ensures OtherFree(l, idx, Freed(l, idx).offs[k], EndOf(Freed(l, idx).offs, k) - Freed(l, idx).offs[k])
  {
    FreedSize(l, idx);
    FreedAt(l, idx, k);
    FreedEnd(l, idx, k);
    var j := Source(l, idx, k);
    assert EndOf(l.offs, j) >= l.offs[j] + MIN_UNITS;
    hide Freed, Absorbed, Sizes, NoFreePair;
    OffsetsDiffer(l, j, MergeLo(l, idx));
    if NextFree(l, idx) {
      OffsetsDiffer(l, j, idx + 1);
    }
    assert FreeIdx(l, j, l.offs[j], EndOf(l.offs, j) - l.offs[j]);
  }

  lemma OffsetsDiffer(l: Large, i: nat, j: nat)
    requires Ascending(l.offs) && i < |l.offs| && j < |l.offs| && i != j
    ensures l.offs[i] != l.offs[j]
  {
  }

  lemma FreedFreesKeep(l: Large, idx: nat, off: nat, size: nat)
    requires Shape(l) && idx < |l.offs| && l.alloc[idx] && OtherFree(l, idx, off, size)
    ensures FreeAt(Freed(l, idx), off, size)
  {
    var f := Freed(l, idx);
    var i: nat :| FreeIdx(l, i, off, size);
    if Absorbed(l, idx) {
      AbsorbedCase(l, idx);
      assert i + 1 < idx;
      assert FreeIdx(f, i, off, size);
    } else {
      hide Shape, Absorbed, OtherFree, Freed;
      var k := Target(l, idx, i);
      assert FreeIdx(f, k, off, size);
    }
  }

  // ---------- live and free blocks after allocating ----------

  lemma TakenBlock(l: Large, pos: nat, i: nat)
    requires Shape(l) && pos < |l.offs| && !l.alloc[pos] && i < |l.offs|
    ensures var t := Taken(l, pos);
      && |t.offs| == |t.alloc| == |l.offs| && t.offs[i] == l.offs[i] && t.alloc[i] == (l.alloc[i] || i == pos)
      && EndOf(t.offs, i) == EndOf(l.offs, i) && BlockEnd(t, i) == BlockEnd(l, i)
      && BlockEnd(l, pos) == EndOf(l.offs, pos)
  {
  }

  lemma TakenLive(l: Large, pos: nat, off: nat, end: nat)
    requires Shape(l) && pos < |l.offs| && !l.alloc[pos]
    ensures LiveAt(Taken(l, pos), off, end) <==>
      LiveAt(l, off, end) || (off == l.offs[pos] && end == EndOf(l.offs, pos))
  {
    var t := Taken(l, pos);
    TakenBlock(l, pos, pos);
    if LiveAt(t, off, end) {
      var i: nat :| LiveIdx(t, i, off, end);
      TakenBlock(l, pos, i);
      hide Shape, Taken, BlockEnd, EndOf;
      if i != pos {
        assert LiveIdx(l, i, off, end);
      }
    }
    if LiveAt(l, off, end) {
      var i: nat :| LiveIdx(l, i, off, end);
      TakenBlock(l, pos, i);
      assert LiveIdx(t, i, off, end);
    }
    if off == l.offs[pos] && end == EndOf(l.offs, pos) {
      assert LiveIdx(t, pos, off, end);
    }
  }

  lemma TakenFrees(l: Large, pos: nat, off: nat, size: nat)
    requires Shape(l) && pos < |l.offs| && !l.alloc[pos]
    ensures FreeAt(Taken(l, pos), off, size) <==> FreeAt(l, off, size) && off != l.offs[pos]
  {
    var t := Taken(l, pos);
    TakenBlock(l, pos, pos);
    if FreeAt(t, off, size) {
      var i: nat :| FreeIdx(t, i, off, size);
      TakenBlock(l, pos, i);
      OffsetsDiffer(l, i, pos);
      assert FreeIdx(l, i, off, size);
    }
    if FreeAt(l, off, size) && off != l.offs[pos] {
      var i: nat :| FreeIdx(l, i, off, size);
      TakenBlock(l, pos, i);
      assert FreeIdx(t, i, off, size);
    }
  }

  // where block i of the split slab comes from
  lemma SplitSource(l: Large, pos: nat, size: nat, i: nat)
    requires Shape(l) && pos < |l.offs| && !l.alloc[pos] && i <= |l.offs| && i != pos && i != pos + 1
    ensures var t := Split(l, pos, size);
      var j := if i < pos then i else i - 1;
      && |t.offs| == |t.alloc| == |l.offs| + 1 && j < |l.offs| && j != pos
      && t.alloc[i] == l.alloc[j] && t.offs[i] == l.offs[j]
      && EndOf(t.offs, i) == EndOf(l.offs, j) && BlockEnd(t, i) == BlockEnd(l, j)
  {
    SplitFields(l, pos, size);
    SplitAt(l, pos, size, i);
    hide Split, Shape;
  }

  // the two halves
  lemma SplitHalves(l: Large, pos: nat, size: nat)
    requires Shape(l) && pos < |l.offs| && !l.alloc[pos]
    ensures var t := Split(l, pos, size);
      && |t.offs| == |t.alloc| == |l.offs| + 1
      && t.alloc[pos] && t.offs[pos] == l.offs[pos] && BlockEnd(t, pos) == l.offs[pos] + size
      && !t.alloc[pos + 1] && t.offs[pos + 1] == l.offs[pos] + size && EndOf(t.offs, pos + 1) == EndOf(l.offs, pos)
  {
    SplitFields(l, pos, size);
    SplitAt(l, pos, size, pos);
    SplitAt(l, pos, size, pos + 1);
    hide Split;
  }

  lemma SplitLive(l: Large, pos: nat, size: nat, off: nat, end: nat)
    requires Shape(l) && pos < |l.offs| && !l.alloc[pos]
    ensures LiveAt(Split(l, pos, size), off, end) <==>
      LiveAt(l, off, end) || (off == l.offs[pos] && end == l.offs[pos] + size)
  {
    hide Split, LiveAt;
    if LiveAt(Split(l, pos, size), off, end) {
      SplitLiveFrom(l, pos, size, off, end);
    }
    if LiveAt(l, off, end) || (off == l.offs[pos] && end == l.offs[pos] + size) {
      SplitLiveTo(l, pos, size, off, end);
    }
  }

  lemma SplitLiveFrom(l: Large, pos: nat, size: nat, off: nat, end: nat)
    requires Shape(l) && pos < |l.offs| && !l.alloc[pos] && LiveAt(Split(l, pos, size), off, end)
    ensures LiveAt(l, off, end) || (off == l.offs[pos] && end == l.offs[pos] + size)
  {
    var t := Split(l, pos, size);
    SplitHalves(l, pos, size);
    hide Split, Shape, BlockEnd;
    var i: nat :| LiveIdx(t, i, off, end);
    if i != pos {
      SplitSource(l, pos, size, i);
      assert LiveIdx(l, if i < pos then i else i - 1, off, end);
    }
  }

  lemma SplitLiveTo(l: Large, pos: nat, size: nat, off: nat, end: nat)
    requires Shape(l) && pos < |l.offs| && !l.alloc[pos]
    requires LiveAt(l, off, end) || (off == l.offs[pos] && end == l.offs[pos] + size)
    ensures LiveAt(Split(l, pos, size), off, end)
  {
    if LiveAt(l, off, end) {
      var i: nat :| LiveIdx(l, i, off, end);
      SplitLiveMoved(l, pos, size, i, off, end);
    } else {
      SplitHalves(l, pos, size);
      hide Split, Shape, BlockEnd;
      assert LiveIdx(Split(l, pos, size), pos, off, end);
    }
  }

  lemma SplitLiveMoved(l: Large, pos: nat, size: nat, i: nat, off: nat, end: nat)
    requires Shape(l) && pos < |l.offs| && !l.alloc[pos] && LiveIdx(l, i, off, end)
    ensures LiveIdx(Split(l, pos, size), if i < pos then i else i + 1, off, end)
  {
    hide Split, BlockEnd, Ascending, Sizes, NoFreePair;
    SplitSource(l, pos, size, if i < pos then i else i + 1);
  }

  lemma SplitFrees(l: Large, pos: nat, size: nat, off: nat, sz: nat)
    requires Shape(l) && pos < |l.offs| && !l.alloc[pos]
    ensures FreeAt(Split(l, pos, size), off, sz) <==>
      || (FreeAt(l, off, sz) && off != l.offs[pos])
      || (off == l.offs[pos] + size && off + sz == EndOf(l.offs, pos))
  {
    hide Split, FreeAt;
    if FreeAt(Split(l, pos, size), off, sz) {
      SplitFreesFrom(l, pos, size, off, sz);
    }
    if (FreeAt(l, off, sz) && off != l.offs[pos]) || (off == l.offs[pos] + size && off + sz == EndOf(l.offs, pos)) {
      SplitFreesTo(l, pos, size, off, sz);
    }
  }

  lemma SplitFreesFrom(l: Large, pos: nat, size: nat, off: nat, sz: nat)
    requires Shape(l) && pos < |l.offs| && !l.alloc[pos] && FreeAt(Split(l, pos, size), off, sz)
    ensures (FreeAt(l, off, sz) && off != l.offs[pos]) || (off == l.offs[pos] + size && off + sz == EndOf(l.offs, pos))
  {
    var t := Split(l, pos, size);
    SplitHalves(l, pos, size);
    hide Split, EndOf, Sizes, NoFreePair;
    var i: nat :| FreeIdx(t, i, off, sz);
    if i != pos + 1 {
      SplitSource(l, pos, size, i);
      var j := if i < pos then i else i - 1;
      OffsetsDiffer(l, j, pos);
      assert FreeIdx(l, j, off, sz);
    }
  }

  lemma SplitFreesTo(l: Large, pos: nat, size: nat, off: nat, sz: nat)
    requires Shape(l) && pos < |l.offs| && !l.alloc[pos]
    requires (FreeAt(l, off, sz) && off != l.offs[pos]) || (off == l.offs[pos] + size && off + sz == EndOf(l.offs, pos))
    ensures FreeAt(Split(l, pos, size), off, sz)
  {
    if FreeAt(l, off, sz) && off != l.offs[pos] {
      var i: nat :| FreeIdx(l, i, off, sz);
      SplitFreeMoved(l, pos, size, i, off, sz);
    } else {
      SplitHalves(l, pos, size);
      hide Split, Shape, EndOf;
      assert FreeIdx(Split(l, pos, size), pos + 1, off, sz);
    }
  }

  lemma SplitFreeMoved(l: Large, pos: nat, size: nat, i: nat, off: nat, sz: nat)
    requires Shape(l) && pos < |l.offs| && !l.alloc[pos] && FreeIdx(l, i, off, sz) && i != pos
    ensures FreeIdx(Split(l, pos, size), if i < pos then i else i + 1, off, sz)
  {
    hide Split, EndOf, Ascending, Sizes, NoFreePair;
    SplitSource(l, pos, size, if i < pos then i else i + 1);
  }

  lemma NewMediumBlocks(size: nat, off: nat, z: nat)
    requires MIN_UNITS <= size < SLAB_UNITS
    ensures var split := SLAB_UNITS >= size + HEADER_UNITS + MIN_UNITS;
      && (LiveAt(NewMedium(size), off, z) <==>
           off == HEADER_UNITS && z == if split then size + HEADER_UNITS else SLAB_UNITS)
      && (FreeAt(NewMedium(size), off, z) <==> split && off == size + HEADER_UNITS && off + z == SLAB_UNITS)
  {
    var l := NewMedium(size);
    if off == HEADER_UNITS && z == BlockEnd(l, 0) {
      assert LiveIdx(l, 0, off, z);
    }
    if |l.offs| == 2 && off == l.offs[1] && off + z == SLAB_UNITS {
      assert FreeIdx(l, 1, off, z);
    }
  }

  lemma NewLargeBlocks(n: nat, size: nat, off: nat, z: nat)
    requires n > 1
    ensures var start := SLAB_UNITS - size % SLAB_UNITS;
      var split := start >= HEADER_UNITS + MIN_UNITS;
      && (LiveAt(NewLarge(n, size), off, z) <==>
           off == (if split then start else HEADER_UNITS) && z == SLAB_UNITS * n)
      && (FreeAt(NewLarge(n, size), off, z) <==> split && off == HEADER_UNITS && off + z == start)
  {
    var l := NewLarge(n, size);
    var last := |l.offs| - 1;
    if off == l.offs[last] && z == BlockEnd(l, last) {
      assert LiveIdx(l, last, off, z);
    }
    if last == 1 && off == HEADER_UNITS && off + z == l.offs[1] {
      assert FreeIdx(l, 0, off, z);
    }
  }

  // ---------- the tail that stays ----------

  // a large block of 4592 bytes on two new slabs, and before it k blocks of 512 bytes
  function Filled(k: nat): (l: Large)
    requires k <= 6
    ensures |l.offs| == |l.alloc| == k + 2
  {
    if k == 0 then NewLarge(2, 287) else Split(Filled(k - 1), k - 1, MIN_UNITS)
  }

  lemma FilledIs()
    ensures Filled(6)
      == Large(2, [1, 33, 65, 97, 129, 161, 193, 225], [true, true, true, true, true, true, false, true], true)
  {
    assert Filled(1) == Large(2, [1, 33, 225], [true, false, true], true);
    assert Filled(2) == Large(2, [1, 33, 65, 225], [true, true, false, true], true);
    assert Filled(3) == Large(2, [1, 33, 65, 97, 225], [true, true, true, false, true], true);
    assert Filled(4) == Large(2, [1, 33, 65, 97, 129, 225], [true, true, true, true, false, true], true);
    assert Filled(5) == Large(2, [1, 33, 65, 97, 129, 161, 225], [true, true, true, true, true, false, true], true);
  }

  /** Freeing a hanging block does not always give back the slabs it hung into: if it is the
      eighth and starts inside the first slab, they stay with the slab, which is whole otherwise. */
  lemma DeadTail()
    ensures var full := Taken(Filled(6), 6);
      && full == Large(2, [1, 33, 65, 97, 129, 161, 193, 225], [true, true, true, true, true, true, true, true], true)
      && Ok(full) && Freed(full, 7).n == 2 && !Freed(full, 7).hang && Ok(Freed(full, 7))
  {
    hide Filled, Freed, MergedStart, MergedEnd;
    FilledIs();
    var full := Taken(Filled(6), 6);
    assert full.alloc[0];
    FreedShape(full, 7);
    EighthFreed(full);
  }

  lemma EighthFreed(l: Large)
    requires |l.offs| == |l.alloc| == MAX_BLOCKS && l.offs[7] != SLAB_UNITS && l.alloc[0] && l.alloc[6]
    requires l.offs[7] + MIN_UNITS > SLAB_UNITS
    ensures Freed(l, 7).n == l.n && !Freed(l, 7).hang && true in Freed(l, 7).alloc
  {
    assert Absorbed(l, 7);
    assert Freed(l, 7).alloc[0];
  }
}
