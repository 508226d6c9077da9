/** The bins of free medium blocks: one list for each block size, and a skiplist over them.
    Blocks are named by address and sized in units of 16 bytes. */
module MediumBinLists {
  import opened Bits
  import opened Options
  import opened Skiplists
  import opened Writes
  import FreeLists
  import opened MediumBlocks

  const NUM_MEDIUMBINS := 224
  const MEDIUMBINS_SKIPLIST_SZ := 7

  // medium_bin_idx
  function BinIdx(size: nat): nat
    requires size >= MIN_UNITS
  {
    size - MIN_UNITS
  }

  ghost function BinMap(free: map<nat, nat>): map<nat, nat> {
    map a | a in free && free[a] >= MIN_UNITS :: BinIdx(free[a])
  }

  ghost function Occupied(free: map<nat, nat>): set<nat> {
    set a | a in free && free[a] >= MIN_UNITS :: BinIdx(free[a])
  }

  ghost predicate SizesOk(free: map<nat, nat>) {
    forall a :: a in free ==> MIN_UNITS <= free[a] < SLAB_UNITS
  }

  // a smallest free block of at least `size` units, or none if all are smaller
  ghost predicate IsBestFit(free: map<nat, nat>, size: nat, r: Option<nat>) {
    match r
    case Some(a) => a in free && free[a] >= size && (forall q :: q in free && free[q] >= size ==> free[a] <= free[q])
    case None => forall q :: q in free ==> free[q] < size
  }

  // no free block starts inside another
  ghost predicate Apart(free: map<nat, nat>) {
    forall a, b :: a in free && b in free && a < b ==> a + free[a] <= b
  }

  lemma OccupiedHas(free: map<nat, nat>, a: nat)
    requires SizesOk(free) && a in free
    ensures BinIdx(free[a]) in Occupied(free)
  {
  }

  // linking the remainder cannot touch the skiplist word that the search holds in a register
  lemma RemainderBin(size: nat, blkSize: nat)
    requires MIN_UNITS <= size && size + MIN_UNITS <= blkSize
    ensures BinIdx(blkSize - size) / WORD_BITS < BinIdx(blkSize) / WORD_BITS
  {
  }

  // the free blocks after a is taken for `size` units
  ghost function TakenFrom(free: map<nat, nat>, a: nat, size: nat): map<nat, nat>
    requires a in free
  {
    if free[a] >= size + MIN_UNITS then (free - {a})[a + size := free[a] - size] else free - {a}
  }

  // the word of a's bin covers its bins just as well after the block is taken
  lemma TakenCovers(word: bv64, free: map<nat, nat>, a: nat, size: nat)
    requires SizesOk(free) && a in free && MIN_UNITS <= size <= free[a]
    requires WordCovers(word, BinIdx(free[a]) / WORD_BITS, NUM_MEDIUMBINS, Occupied(free))
    ensures WordCovers(word, BinIdx(free[a]) / WORD_BITS, NUM_MEDIUMBINS, Occupied(TakenFrom(free, a, size)))
    ensures BinIdx(free[a]) + MIN_UNITS == free[a] && BinIdx(free[a]) / WORD_BITS < MEDIUMBINS_SKIPLIST_SZ
  {
    hide WordCovers;
    var k := BinIdx(free[a]) / WORD_BITS;
    forall b | b in Occupied(TakenFrom(free, a, size)) && b / WORD_BITS == k ensures b in Occupied(free) {
      if free[a] >= size + MIN_UNITS {
        RemainderBin(size, free[a]);
      }
    }
    CoversElsewhere(word, k, Occupied(free), Occupied(TakenFrom(free, a, size)));
  }

  lemma FitIs(free: map<nat, nat>, size: nat, a: nat)
    requires IsBestFit(free, size, Some(a)) && Apart(free) && size > 0
    ensures a in free && free[a] >= size && (free[a] > size ==> a + size !in free)
  {
  }

  class MediumBins {
    const lists: FreeLists.Bins
    const skip: Skiplist
    ghost var free: map<nat, nat>  // address and size of each free block

    ghost predicate Valid()
      reads this, lists, skip
    {
      && lists.Valid() && |lists.heads| == NUM_MEDIUMBINS
      && skip.Valid() && skip.limit == NUM_MEDIUMBINS && |skip.words| == MEDIUMBINS_SKIPLIST_SZ
      && SizesOk(free) && lists.bin == BinMap(free)
      && Covers(skip.words, skip.limit, Occupied(free))
    }

    constructor ()
      ensures Valid() && free == map[] && fresh(lists) && fresh(skip)
    {
      lists := new FreeLists.Bins(NUM_MEDIUMBINS);
      skip := new Skiplist(MEDIUMBINS_SKIPLIST_SZ, NUM_MEDIUMBINS);
      free := map[];
    }

    // medium_bin_link
    method Link(a: nat, size: nat)
      requires Valid() && a !in free && MIN_UNITS <= size < SLAB_UNITS
      modifies this, lists, skip
      ensures Valid() && free == old(free)[a := size]
      ensures OnlyAt(old(lists.next), lists.next, free.Keys) && OnlyAt(old(lists.prev), lists.prev, free.Keys)
    {
      assert BinMap(free[a := size]) == BinMap(free)[a := BinIdx(size)];
      assert Occupied(free[a := size]) <= Occupied(free) + {BinIdx(size)};
      lists.Link(BinIdx(size), a);
      skip.Mark(BinIdx(size));
      CoversFewer(skip.words, skip.limit, Occupied(free) + {BinIdx(size)}, Occupied(free[a := size]));
      free := free[a := size];
    }

    // medium_bin_unlink
    method Unlink(a: nat)
      requires Valid() && a in free
      modifies this, lists
      ensures Valid() && free == old(free) - {a}
      ensures OnlyAt(old(lists.next), lists.next, old(free).Keys) && OnlyAt(old(lists.prev), lists.prev, old(free).Keys)
    {
      assert BinMap(free - {a}) == BinMap(free) - {a};
      CoversFewer(skip.words, skip.limit, Occupied(free), Occupied(free - {a}));
      lists.Unlink(a);
      free := free - {a};
    }

    // the search of __int_find_medium_block; the word it stops in is not written back yet
    method Find(size: nat) returns (r: Option<nat>, bin: nat, word: bv64)
      requires Valid() && MIN_UNITS <= size < SLAB_UNITS
      modifies skip
      ensures Valid() && IsBestFit(free, size, r)
      ensures r.Some? ==>
        && bin == BinIdx(free[r.value]) && FreeLists.IsHead(lists.heads, bin, r.value)
        && WordOk(word, bin / WORD_BITS, NUM_MEDIUMBINS)
        && WordCovers(word, bin / WORD_BITS, NUM_MEDIUMBINS, Occupied(free))
    {
      var hd := lists.heads;
      var heads := (b: nat) => b < |hd| && hd[b] != FreeLists.Null;
      forall b | 0 <= b < NUM_MEDIUMBINS ensures heads(b) == (b in Occupied(free)) {
        HeadIs(b);
      }
      var hit := skip.Find(BinIdx(size), Occupied(free), heads);
      match hit {
        case Found(b, w) =>
          HeadIs(b);
          r, bin, word := Some(lists.heads[b].id), b, w;
          forall q | q in free && free[q] >= size ensures free[r.value] <= free[q] {
            OccupiedHas(free, q);
          }
        case Miss =>
          r, bin, word := None, 0, 0;
          forall q | q in free ensures free[q] < size {
            OccupiedHas(free, q);
          }
      }
    }

    lemma HeadIs(b: nat)
      requires Valid() && b < NUM_MEDIUMBINS
      ensures lists.heads[b] != FreeLists.Null <==> b in Occupied(free)
      ensures lists.heads[b].Elem? ==> lists.heads[b].id in free && BinIdx(free[lists.heads[b].id]) == b
    {
      lists.HeadOf(b);
      if b in Occupied(free) {
        var a :| a in free && free[a] >= MIN_UNITS && BinIdx(free[a]) == b;
        assert a in lists.bin && lists.bin[a] == b;
      }
    }

    // stores the word a search stopped in; it must still cover its bins
    method WriteBack(k: nat, word: bv64)
      requires Valid() && k < MEDIUMBINS_SKIPLIST_SZ && WordOk(word, k, NUM_MEDIUMBINS)
      requires WordCovers(word, k, NUM_MEDIUMBINS, Occupied(free))
      modifies skip
      ensures Valid()
    {
      skip.WriteBack(k, word);
    }

    /** __int_find_medium_block as far as the bins go: a best fit leaves its bin, what remains
        of it enters another, and the cached skiplist word is stored last without losing the
        bit that linking the remainder has set. */
    method TakeBlock(size: nat) returns (r: Option<nat>, blkSize: nat)
      requires Valid() && Apart(free) && MIN_UNITS <= size < SLAB_UNITS
      modifies this, lists, skip
      ensures Valid() && IsBestFit(old(free), size, r)
      ensures OnlyAt(old(lists.next), lists.next, old(free).Keys + free.Keys)
      ensures OnlyAt(old(lists.prev), lists.prev, old(free).Keys + free.Keys)
      ensures r.None? ==> free == old(free) && lists.next == old(lists.next) && lists.prev == old(lists.prev)
      ensures r.Some? ==> free == TakenFrom(old(free), r.value, size) && blkSize == old(free)[r.value]
      ensures r.Some? ==> FreeLists.IsHead(old(lists.heads), BinIdx(blkSize), r.value)
    {
      hide Occupied, BinMap, Skiplist.Valid, FreeLists.Bins.Valid, Covers, WordOk;
      hide WordCovers, BinIdx, OnlyAt, FreeLists.Loses, IsBestFit, Apart;
      var bin, word;
      OnlyAtNone(lists.next, free.Keys + free.Keys);
      OnlyAtNone(lists.prev, free.Keys + free.Keys);
      r, bin, word := Find(size);
      blkSize := bin + MIN_UNITS;  // medium_bin_idx_size
      if r.Some? {
        var a := r.value;
        ghost var before := free;
        FitIs(before, size, a);
        TakenCovers(word, before, a, size);
        ghost var n0, p0 := lists.next, lists.prev;
        Unlink(a);
        ghost var n1, p1 := lists.next, lists.prev;
        OnlyAtNone(n1, free.Keys);
        OnlyAtNone(p1, free.Keys);
        if blkSize - size >= MIN_UNITS {
          Link(a + size, blkSize - size);
        }
        OnlyAtTrans(n0, n1, lists.next, before.Keys, free.Keys);
        OnlyAtTrans(p0, p1, lists.prev, before.Keys, free.Keys);
        WriteBack(bin / WORD_BITS, word);
      }
    }
  }

  lemma CoversElsewhere(word: bv64, k: nat, before: set<nat>, after: set<nat>)
    requires WordCovers(word, k, NUM_MEDIUMBINS, before)
    requires forall b :: b in after && b / WORD_BITS == k ==> b in before
    ensures WordCovers(word, k, NUM_MEDIUMBINS, after)
  {
    hide Bit;
    forall i | 0 <= i < WORD_BITS && WORD_BITS * k + i < NUM_MEDIUMBINS && WORD_BITS * k + i in after
      ensures Bit(word, i)
    {
      assert (WORD_BITS * k + i) / WORD_BITS == k;
    }
  }
}
