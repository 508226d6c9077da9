/** The lazily cleaned bitmaps `slab_skiplist` and `med_skiplist`: one bit for each bin, set
    whenever a block enters the bin and only cleared when a search meets the bin empty. */
module Skiplists {
  import opened Bits

  const WORD_BITS := 32

  datatype Hit = Miss | Found(bin: nat, word: bv64)

  ghost predicate WellFormed(words: seq<bv64>, limit: nat) {
    && limit <= WORD_BITS * |words|
    && (forall k :: 0 <= k < |words| ==> WordOk(words[k], k, limit))
  }

  // a word uses only its 32 bits, and none for the bins from `limit` on
  ghost predicate WordOk(w: bv64, k: nat, limit: nat) {
    forall i :: 0 <= i < 64 && Bit(w, i) ==> i < WORD_BITS && WORD_BITS * k + i < limit
  }

  // the bits are one-way: a bin that is not empty is marked, but a marked bin may be empty
  ghost predicate Covers(words: seq<bv64>, limit: nat, occupied: set<nat>) {
    forall k :: 0 <= k < |words| ==> WordCovers(words[k], k, limit, occupied)
  }

  // the bit of bin c is set
  ghost predicate Marked(words: seq<bv64>, c: nat) {
    c / WORD_BITS < |words| && Bit(words[c / WORD_BITS], c % WORD_BITS)
  }

  ghost predicate WordCovers(w: bv64, k: nat, limit: nat, occupied: set<nat>) {
    forall i :: 0 <= i < WORD_BITS && WORD_BITS * k + i < limit && WORD_BITS * k + i in occupied ==> Bit(w, i)
  }

  lemma CoversFewer(words: seq<bv64>, limit: nat, occupied: set<nat>, fewer: set<nat>)
    requires Covers(words, limit, occupied) && (forall b :: b in fewer ==> b < limit ==> b in occupied)
    ensures Covers(words, limit, fewer)
  {
    hide Bit;
    forall k | 0 <= k < |words|
      ensures WordCovers(words[k], k, limit, fewer)
    {
      assert WordCovers(words[k], k, limit, occupied);
    }
  }

  class Skiplist {
    var words: seq<bv64>
    const limit: nat

    ghost predicate Valid()
      reads this
    {
      WellFormed(words, limit)
    }

    constructor (size: nat, limit: nat)
      requires limit <= WORD_BITS * size
      ensures Valid() && this.limit == limit && |words| == size
      ensures Covers(words, limit, {})
    {
      this.limit := limit;
      words := seq(size, _ => 0);
      new;
      hide Bit;
      forall i | 0 <= i < 64 ensures !Bit(0, i) {
        BitZeroAt(i);
      }
    }

    // marks bin b
    method Mark(b: nat)
      requires Valid() && b < limit
      modifies this
      ensures Valid() && |words| == |old(words)|
      ensures words == old(words)[b / WORD_BITS := SetBit(old(words)[b / WORD_BITS], b % WORD_BITS)]
      ensures forall f: set<nat> :: Covers(old(words), limit, f) ==> Covers(words, limit, f + {b})
    {
      hide SetBit, Bit;
      var k, i := b / WORD_BITS, b % WORD_BITS;
      SetBitBits(words[k], i);
      words := words[k := SetBit(words[k], i)];
      assert WordOk(words[k], k, limit);
      forall f: set<nat> | Covers(old(words), limit, f)
        ensures Covers(words, limit, f + {b})
      {
        forall q | 0 <= q < |words|
          ensures WordCovers(words[q], q, limit, f + {b})
        {
          assert WordCovers(old(words)[q], q, limit, f);
        }
      }
    }

    /** The bin search of `__int_alloc_slab` and `__int_find_medium_block`: the first bin from
        `req` on that is not empty.  Words that are searched to the end are written back with
        the bits of their empty bins cleared.  The word in which the search stops is returned;
        the caller decides whether to write it back. */
    method Find(req: nat, ghost occupied: set<nat>, holds: nat -> bool) returns (r: Hit)
      requires Valid() && Covers(words, limit, occupied) && req < limit
      requires forall b :: 0 <= b < limit ==> holds(b) == (b in occupied)
      modifies this
      ensures Valid() && |words| == |old(words)| && Covers(words, limit, occupied)
      ensures r.Miss? ==> forall c :: req <= c < limit ==> c !in occupied
      ensures r.Found? ==>
        && req <= r.bin < limit && r.bin in occupied
        && (forall c :: req <= c < r.bin ==> c !in occupied)
        && WordOk(r.word, r.bin / WORD_BITS, limit)
        && WordCovers(r.word, r.bin / WORD_BITS, limit, occupied)
      ensures forall c :: req <= c < (if r.Miss? then limit else r.bin / WORD_BITS * WORD_BITS) ==> !Marked(words, c)
      ensures r.Found? ==> forall i :: 0 <= i < WORD_BITS && req <= r.bin / WORD_BITS * WORD_BITS + i < r.bin ==> !Bit(r.word, i)
    {
      hide Marked, Bit, Below, ClearLow, And, Or, Xor, WordOk, WordCovers, CacheOk;
      var idx := req / WORD_BITS;
      var bit := req % WORD_BITS;
      var mask := And(Below(bit), words[idx]);
      var skiplist := Xor(words[idx], mask);
      CacheFirst(words[idx], limit, occupied, req, mask, skiplist);
      ghost var lo := 0;
      while true
        invariant Valid() && |words| == |old(words)| && Covers(words, limit, occupied)
        invariant req / WORD_BITS <= idx < |words| && lo <= 64
        invariant CacheOk(idx, limit, occupied, req, mask, skiplist)
        invariant forall i :: 0 <= i < lo ==> !Bit(skiplist, i)
        invariant forall c :: req <= c < limit && c < WORD_BITS * idx ==> c !in occupied
        invariant forall c :: req <= c < WORD_BITS * idx ==> !Marked(words, c)
        decreases |words| - idx, 64 - lo
      {
        if skiplist == 0 {
          CacheEmpty(idx, limit, occupied, req, mask, skiplist);
          CacheWord(idx, limit, occupied, req, mask, skiplist);
          ghost var before := words;
          words := words[idx := Or(mask, skiplist)];
          ClearedWord(before, words, idx, limit, occupied, req, mask);
          mask := 0;
          idx := idx + 1;
          if idx == |words| {
            return Miss;
          }
          skiplist := words[idx];
          lo := 0;
          CacheNext(words[idx], idx, limit, occupied, req);
        } else {
          bit := Ctz(skiplist);
          var bin := WORD_BITS * idx + bit;
          CacheBit(idx, limit, occupied, req, mask, skiplist);
          if holds(bin) {
            CacheWord(idx, limit, occupied, req, mask, skiplist);
            ClearedBits(idx, limit, occupied, req, mask, skiplist);
            return Found(bin, Or(mask, skiplist));
          }
          ClearLowBits(skiplist);
          CacheSkip(idx, limit, occupied, req, mask, skiplist);
          lo := bit + 1;
          skiplist := ClearLow(skiplist);
        }
      }
    }

    // stores the cached word of a search
    method WriteBack(k: nat, w: bv64)
      requires Valid() && k < |words| && WordOk(w, k, limit)
      modifies this
      ensures Valid() && words == old(words)[k := w]
    {
      words := words[k := w];
    }
  }

  /** What a search holds in registers for word `idx`: `mask` keeps the bits of bins before
      `req`, `rest` the candidates, and together they still mark every bin that is not empty. */
  ghost predicate CacheOk(idx: nat, limit: nat, occupied: set<nat>, req: nat, mask: bv64, rest: bv64) {
    && WordOk(mask, idx, limit) && WordOk(rest, idx, limit)
    && (forall i :: 0 <= i < 64 && Bit(mask, i) ==> WORD_BITS * idx + i < req)
    && (forall i :: 0 <= i < 64 && Bit(rest, i) ==> req <= WORD_BITS * idx + i)
    && (forall i :: 0 <= i < WORD_BITS && WORD_BITS * idx + i < limit && WORD_BITS * idx + i in occupied ==>
         (Bit(mask, i) || Bit(rest, i)))
  }

  lemma CacheFirst(w: bv64, limit: nat, occupied: set<nat>, req: nat, mask: bv64, rest: bv64)
    requires WordOk(w, req / WORD_BITS, limit) && WordCovers(w, req / WORD_BITS, limit, occupied)
    requires mask == And(Below(req % WORD_BITS), w) && rest == Xor(w, mask)
    ensures CacheOk(req / WORD_BITS, limit, occupied, req, mask, rest)
  {
    hide Bit, Below, And, Xor;
    var bit := req % WORD_BITS;
    forall i | 0 <= i < 64
      ensures Bit(mask, i) == (Bit(w, i) && i < bit) && Bit(rest, i) == (Bit(w, i) && i >= bit)
    {
      SplitAt(w, bit, mask, rest, i);
    }
  }

  lemma SplitAt(w: bv64, bit: nat, mask: bv64, rest: bv64, i: nat)
    requires bit < 64 && i < 64 && mask == And(Below(bit), w) && rest == Xor(w, mask)
    ensures Bit(mask, i) == (Bit(w, i) && i < bit)
    ensures Bit(rest, i) == (Bit(w, i) && i >= bit)
  {
    hide Bit, Below, And, Xor;
    BitAndAt(Below(bit), w, i);
    BitBelowAt(bit, i);
    BitXorAt(w, mask, i);
  }

  lemma CacheNext(w: bv64, idx: nat, limit: nat, occupied: set<nat>, req: nat)
    requires WordOk(w, idx, limit) && WordCovers(w, idx, limit, occupied) && req <= WORD_BITS * idx
    ensures CacheOk(idx, limit, occupied, req, 0, w)
  {
    hide Bit;
    forall i | 0 <= i < 64 ensures !Bit(0, i) {
      BitZeroAt(i);
    }
  }

  lemma CacheEmpty(idx: nat, limit: nat, occupied: set<nat>, req: nat, mask: bv64, rest: bv64)
    requires CacheOk(idx, limit, occupied, req, mask, rest) && rest == 0
    ensures forall c :: req <= c < limit && WORD_BITS * idx <= c < WORD_BITS * (idx + 1) ==> c !in occupied
  {
    hide Bit;
    forall c | req <= c < limit && WORD_BITS * idx <= c < WORD_BITS * (idx + 1)
      ensures c !in occupied
    {
      var i := c - WORD_BITS * idx;
      BitZeroAt(i);
      assert c == WORD_BITS * idx + i;
    }
  }

  lemma CacheWord(idx: nat, limit: nat, occupied: set<nat>, req: nat, mask: bv64, rest: bv64)
    requires CacheOk(idx, limit, occupied, req, mask, rest)
    ensures WordOk(Or(mask, rest), idx, limit) && WordCovers(Or(mask, rest), idx, limit, occupied)
  {
    hide Bit, Or;
    forall i | 0 <= i < 64
      ensures Bit(Or(mask, rest), i) == (Bit(mask, i) || Bit(rest, i))
    {
      BitOrAt(mask, rest, i);
    }
  }

  // the first candidate: every bin from req up to it is empty
  lemma CacheBit(idx: nat, limit: nat, occupied: set<nat>, req: nat, mask: bv64, rest: bv64)
    requires CacheOk(idx, limit, occupied, req, mask, rest) && rest != 0
    ensures Ctz(rest) < WORD_BITS && req <= WORD_BITS * idx + Ctz(rest) < limit
    ensures forall c :: req <= c < WORD_BITS * idx + Ctz(rest) && WORD_BITS * idx <= c ==> c !in occupied
  {
    hide Bit, CtzFrom;
    forall c | req <= c < WORD_BITS * idx + Ctz(rest) && WORD_BITS * idx <= c
      ensures c !in occupied
    {
      var i := c - WORD_BITS * idx;
      assert c == WORD_BITS * idx + i && !Bit(rest, i);
    }
  }

  // the bits of a word with no candidate left
  lemma ClearedWord(words: seq<bv64>, words': seq<bv64>, idx: nat, limit: nat, occupied: set<nat>, req: nat, mask: bv64)
    requires idx < |words| && CacheOk(idx, limit, occupied, req, mask, 0) && words' == words[idx := Or(mask, 0)]
    requires forall c :: req <= c < WORD_BITS * idx ==> !Marked(words, c)
    ensures forall c :: req <= c < WORD_BITS * (idx + 1) ==> !Marked(words', c)
  {
    hide Bit, Or;
    forall c | req <= c < WORD_BITS * (idx + 1) ensures !Marked(words', c) {
      if c / WORD_BITS == idx {
        BitOrAt(mask, 0, c % WORD_BITS);
        BitZeroAt(c % WORD_BITS);
      } else {
        assert !Marked(words, c);
      }
    }
  }

  // ... and of the word the search stops in, before the first candidate
  lemma ClearedBits(idx: nat, limit: nat, occupied: set<nat>, req: nat, mask: bv64, rest: bv64)
    requires CacheOk(idx, limit, occupied, req, mask, rest) && rest != 0
    ensures Ctz(rest) < WORD_BITS
    ensures forall i :: 0 <= i < Ctz(rest) && req <= WORD_BITS * idx + i ==> !Bit(Or(mask, rest), i)
  {
    hide Bit, Or, CtzFrom;
    forall i | 0 <= i < Ctz(rest) && req <= WORD_BITS * idx + i ensures !Bit(Or(mask, rest), i) {
      BitOrAt(mask, rest, i);
    }
  }

  // dropping the bit of an empty bin
  lemma CacheSkip(idx: nat, limit: nat, occupied: set<nat>, req: nat, mask: bv64, rest: bv64)
    requires CacheOk(idx, limit, occupied, req, mask, rest) && rest != 0
    requires WORD_BITS * idx + Ctz(rest) !in occupied
    ensures CacheOk(idx, limit, occupied, req, mask, ClearLow(rest))
  {
    hide Bit, CtzFrom, ClearLow;
    ClearLowBits(rest);
  }
}
