/** The segregated bins of free slab regions: 128 circular doubly linked lists threaded
    through the free slabs, the last one kept sorted, and the skiplist over the first 127. */
module SlabBinLists {
  import opened Options
  import opened Skiplists
  import opened Writes

  const NUM_SLAB_BINS := 128
  const MAX_SEG_SLAB_SZ := NUM_SLAB_BINS - 1
  const LAST_BIN := NUM_SLAB_BINS - 1

  // what a `next`/`prev` pointer designates: a bin's own head/tail pair, or a free slab
  datatype Node = Bin(bin: nat) | Slab(idx: nat)

  // slab_bin_idx: MIN(n_slabs - 1, NUM_SLAB_BINS - 1)
  function BinIdx(n: nat): nat
    requires n >= 1
  {
    if n - 1 < NUM_SLAB_BINS - 1 then n - 1 else NUM_SLAB_BINS - 1
  }

  // ---------- the linked structure ----------

  function NodeAt(l: seq<nat>, b: nat, i: nat): Node {
    if 1 <= i <= |l| then Slab(l[i - 1]) else Bin(b)
  }

  predicate Linked(next: map<Node, Node>, prev: map<Node, Node>, x: Node, y: Node) {
    x in next && next[x] == y && y in prev && prev[y] == x
  }

  // every bin is a ring through its sentinel
  ghost predicate Rings(next: map<Node, Node>, prev: map<Node, Node>, lists: seq<seq<nat>>) {
    forall b, i :: 0 <= b < |lists| && 0 <= i <= |lists[b]| ==> LinkAt(next, prev, lists[b], b, i)
  }

  ghost predicate LinkAt(next: map<Node, Node>, prev: map<Node, Node>, l: seq<nat>, b: nat, i: nat) {
    Linked(next, prev, NodeAt(l, b, i), NodeAt(l, b, i + 1))
  }

  ghost predicate Distinct(lists: seq<seq<nat>>) {
    forall b, i, c, j ::
      0 <= b < |lists| && 0 <= i < |lists[b]| && 0 <= c < |lists| && 0 <= j < |lists[c]| && (b != c || i != j) ==>
        lists[b][i] != lists[c][j]
  }

  ghost predicate Absent(lists: seq<seq<nat>>, s: nat) {
    forall b, i :: 0 <= b < |lists| && 0 <= i < |lists[b]| ==> lists[b][i] != s
  }

  function InsertAt(l: seq<nat>, k: nat, s: nat): seq<nat>
    requires k <= |l|
  {
    l[..k] + [s] + l[k..]
  }

  function RemoveAt(l: seq<nat>, k: nat): seq<nat>
    requires k < |l|
  {
    l[..k] + l[k + 1..]
  }

  lemma NodesApart(lists: seq<seq<nat>>, b: nat, i: nat, c: nat, j: nat)
    requires Distinct(lists) && b < |lists| && c < |lists|
    requires (i <= |lists[b]| && j <= |lists[c]|) || (1 <= i <= |lists[b]| + 1 && 1 <= j <= |lists[c]| + 1)
    ensures NodeAt(lists[b], b, i) == NodeAt(lists[c], c, j) ==> b == c && i == j
  {
  }

  // storing s between two neighbours inserts it there and leaves every other ring alone
  lemma RingsInsert(next: map<Node, Node>, prev: map<Node, Node>, lists: seq<seq<nat>>, b: nat, k: nat, s: nat)
    requires Rings(next, prev, lists) && Distinct(lists) && Absent(lists, s)
    requires b < |lists| && k <= |lists[b]|
    ensures var x, y := NodeAt(lists[b], b, k), NodeAt(lists[b], b, k + 1);
      var lists' := lists[b := InsertAt(lists[b], k, s)];
      Rings(next[Slab(s) := y][x := Slab(s)], prev[Slab(s) := x][y := Slab(s)], lists')
  {
    var x, y := NodeAt(lists[b], b, k), NodeAt(lists[b], b, k + 1);
    var lists' := lists[b := InsertAt(lists[b], k, s)];
    var next', prev' := next[Slab(s) := y][x := Slab(s)], prev[Slab(s) := x][y := Slab(s)];
    hide Rings, Distinct, Absent;
    forall c, i | 0 <= c < |lists'| && 0 <= i <= |lists'[c]|
      ensures LinkAt(next', prev', lists'[c], c, i)
    {
      InsertLink(next, prev, lists, b, k, s, c, i);
    }
    RingsIntro(next', prev', lists');
  }

  lemma RingsIntro(next: map<Node, Node>, prev: map<Node, Node>, lists: seq<seq<nat>>)
    requires forall b, i :: 0 <= b < |lists| && 0 <= i <= |lists[b]| ==> LinkAt(next, prev, lists[b], b, i)
    ensures Rings(next, prev, lists)
  {
  }

  lemma RingsAt(next: map<Node, Node>, prev: map<Node, Node>, lists: seq<seq<nat>>, b: nat, i: nat)
    requires Rings(next, prev, lists) && b < |lists| && i <= |lists[b]|
    ensures Linked(next, prev, NodeAt(lists[b], b, i), NodeAt(lists[b], b, i + 1))
  {
    assert LinkAt(next, prev, lists[b], b, i);
  }

  lemma InsertLink(next: map<Node, Node>, prev: map<Node, Node>, lists: seq<seq<nat>>, b: nat, k: nat, s: nat,
                   c: nat, i: nat)
    requires Rings(next, prev, lists) && Distinct(lists) && Absent(lists, s)
    requires b < |lists| && k <= |lists[b]| && c < |lists|
    requires i <= if c == b then |lists[b]| + 1 else |lists[c]|
    ensures var x, y := NodeAt(lists[b], b, k), NodeAt(lists[b], b, k + 1);
      var l := if c == b then InsertAt(lists[b], k, s) else lists[c];
      LinkAt(next[Slab(s) := y][x := Slab(s)], prev[Slab(s) := x][y := Slab(s)], l, c, i)
  {
    hide Rings, Distinct, Absent;
    var x, y := NodeAt(lists[b], b, k), NodeAt(lists[b], b, k + 1);
    if c == b && (i == k || i == k + 1) {
      var l := InsertAt(lists[b], k, s);
      assert NodeAt(l, b, k + 1) == Slab(s) && NodeAt(l, b, k) == x && NodeAt(l, b, k + 2) == y;
      NodeNot(lists, s, b, k);
      NodeNot(lists, s, b, k + 1);
    } else {
      var j := if c == b && i > k then i - 1 else i;
      RingsAt(next, prev, lists, c, j);
      NodesApart(lists, c, j, b, k);
      NodesApart(lists, c, j + 1, b, k + 1);
      NodeNot(lists, s, c, j);
      NodeNot(lists, s, c, j + 1);
    }
  }

  lemma NodeNot(lists: seq<seq<nat>>, s: nat, b: nat, i: nat)
    requires Absent(lists, s) && b < |lists|
    ensures NodeAt(lists[b], b, i) != Slab(s)
  {
  }

  lemma DistinctInsert(lists: seq<seq<nat>>, b: nat, k: nat, s: nat)
    requires Distinct(lists) && Absent(lists, s) && b < |lists| && k <= |lists[b]|
    ensures Distinct(lists[b := InsertAt(lists[b], k, s)])
  {
    var l := InsertAt(lists[b], k, s);
    assert forall i :: 0 <= i < |l| ==> l[i] == if i < k then lists[b][i] else if i == k then s else lists[b][i - 1];
  }

  lemma DistinctRemove(lists: seq<seq<nat>>, b: nat, k: nat)
    requires Distinct(lists) && b < |lists| && k < |lists[b]|
    ensures Distinct(lists[b := RemoveAt(lists[b], k)])
    ensures Absent(lists[b := RemoveAt(lists[b], k)], lists[b][k])
  {
    var l := RemoveAt(lists[b], k);
    assert forall i :: 0 <= i < |l| ==> l[i] == lists[b][if i < k then i else i + 1];
  }

  // joining the neighbours of a slab removes it from its ring
  lemma RingsRemove(next: map<Node, Node>, prev: map<Node, Node>, lists: seq<seq<nat>>, b: nat, k: nat)
    requires Rings(next, prev, lists) && Distinct(lists)
    requires b < |lists| && k < |lists[b]|
    ensures var x, y := NodeAt(lists[b], b, k), NodeAt(lists[b], b, k + 2);
      && Slab(lists[b][k]) in next && next[Slab(lists[b][k])] == y
      && Slab(lists[b][k]) in prev && prev[Slab(lists[b][k])] == x
      && Rings(next[x := y], prev[y := x], lists[b := RemoveAt(lists[b], k)])
  {
    var x, y := NodeAt(lists[b], b, k), NodeAt(lists[b], b, k + 2);
    var lists' := lists[b := RemoveAt(lists[b], k)];
    RingsAt(next, prev, lists, b, k);
    RingsAt(next, prev, lists, b, k + 1);
    var next', prev' := next[x := y], prev[y := x];
    hide Rings, Distinct;
    forall c, i | 0 <= c < |lists'| && 0 <= i <= |lists'[c]|
      ensures LinkAt(next', prev', lists'[c], c, i)
    {
      RemoveLink(next, prev, lists, b, k, c, i);
    }
    RingsIntro(next', prev', lists');
  }

  lemma RemoveLink(next: map<Node, Node>, prev: map<Node, Node>, lists: seq<seq<nat>>, b: nat, k: nat, c: nat, i: nat)
    requires Rings(next, prev, lists) && Distinct(lists)
    requires b < |lists| && k < |lists[b]| && c < |lists|
    requires i <= if c == b then |lists[b]| - 1 else |lists[c]|
    ensures var x, y := NodeAt(lists[b], b, k), NodeAt(lists[b], b, k + 2);
      var l := if c == b then RemoveAt(lists[b], k) else lists[c];
      LinkAt(next[x := y], prev[y := x], l, c, i)
  {
    hide Rings, Distinct;
    if c == b && i == k {
      var l := RemoveAt(lists[b], k);
      assert NodeAt(l, b, k) == NodeAt(lists[b], b, k) && NodeAt(l, b, k + 1) == NodeAt(lists[b], b, k + 2);
    } else {
      var j := if c == b && i > k then i + 1 else i;
      RingsAt(next, prev, lists, c, j);
      NodesApart(lists, c, j, b, k);
      NodesApart(lists, c, j + 1, b, k + 2);
      if c == b {
        RemovedNodes(lists[b], b, k, i);
      }
      hide RemoveAt, NodeAt;
    }
  }

  lemma RemovedNodes(l: seq<nat>, b: nat, k: nat, i: nat)
    requires k < |l| && i < |l| && i != k
    ensures var j := if i > k then i + 1 else i;
      && NodeAt(RemoveAt(l, k), b, i) == NodeAt(l, b, j)
      && NodeAt(RemoveAt(l, k), b, i + 1) == NodeAt(l, b, j + 1)
  {
  }

  // ---------- what the bins hold ----------

  // every free region is in the bin of its size, and the bins hold nothing else
  ghost predicate Holds(lists: seq<seq<nat>>, free: map<nat, nat>) {
    && |lists| == NUM_SLAB_BINS
    && (forall s :: s in free ==> free[s] >= 1)
    && (forall b, i :: 0 <= b < |lists| && 0 <= i < |lists[b]| ==>
          lists[b][i] in free && BinIdx(free[lists[b][i]]) == b)
    && (forall s :: s in free ==> s in lists[BinIdx(free[s])])
  }

  // the last bin is sorted by size
  ghost predicate Sorted(l: seq<nat>, free: map<nat, nat>) {
    && (forall i :: 0 <= i < |l| ==> l[i] in free)
    && (forall i, j :: 0 <= i < j < |l| ==> free[l[i]] <= free[l[j]])
  }

  ghost function Occupied(lists: seq<seq<nat>>): set<nat> {
    set b: nat | b < |lists| && lists[b] != []
  }

  lemma HoldsInsert(lists: seq<seq<nat>>, free: map<nat, nat>, s: nat, size: nat, k: nat)
    requires Holds(lists, free) && s !in free && size >= 1 && k <= |lists[BinIdx(size)]|
    ensures Absent(lists, s)
    ensures Holds(lists[BinIdx(size) := InsertAt(lists[BinIdx(size)], k, s)], free[s := size])
  {
    var b := BinIdx(size);
    var l := lists[b];
    var l' := InsertAt(l, k, s);
    var lists' := lists[b := l'];
    var free' := free[s := size];
    forall t | t in free' ensures t in lists'[BinIdx(free'[t])] {
      if t == s {
        assert l'[k] == s;
      } else {
        var i :| 0 <= i < |lists[BinIdx(free[t])]| && lists[BinIdx(free[t])][i] == t;
        if BinIdx(free[t]) == b {
          assert l'[if i < k then i else i + 1] == t;
        }
      }
    }
    forall c, i | 0 <= c < |lists'| && 0 <= i < |lists'[c]|
      ensures lists'[c][i] in free' && BinIdx(free'[lists'[c][i]]) == c
    {
      if c == b && i != k {
        assert l'[i] == l[if i < k then i else i - 1];
      }
    }
  }

  lemma HoldsRemove(lists: seq<seq<nat>>, free: map<nat, nat>, b: nat, k: nat)
    requires Holds(lists, free) && Distinct(lists) && b < |lists| && k < |lists[b]|
    ensures Holds(lists[b := RemoveAt(lists[b], k)], free - {lists[b][k]})
  {
    var l := lists[b];
    var s := l[k];
    var l' := RemoveAt(l, k);
    var lists' := lists[b := l'];
    var free' := free - {s};
    forall t | t in free' ensures t in lists'[BinIdx(free'[t])] {
      var i :| 0 <= i < |lists[BinIdx(free[t])]| && lists[BinIdx(free[t])][i] == t;
      if BinIdx(free[t]) == b {
        assert l'[if i < k then i else i - 1] == t;
      }
    }
    forall c, i | 0 <= c < |lists'| && 0 <= i < |lists'[c]|
      ensures lists'[c][i] in free' && BinIdx(free'[lists'[c][i]]) == c
    {
      var j := if c == b && i >= k then i + 1 else i;
      assert lists'[c][i] == lists[c][j];
      assert lists[c][j] != s;
    }
  }

  ghost predicate BinsOk(next: map<Node, Node>, prev: map<Node, Node>, numSlabs: map<nat, nat>,
                         lists: seq<seq<nat>>, free: map<nat, nat>)
  {
    && Holds(lists, free)
    && Rings(next, prev, lists) && Distinct(lists)
    && Sorted(lists[LAST_BIN], free)
    && (forall s :: s in free ==> s in numSlabs && numSlabs[s] == free[s])
  }

  /** A region of this size enters its bin: at the tail of a bin of one size, and after the regions
      that are not larger in the last bin. */
  ghost predicate Gains(lists: seq<seq<nat>>, lists': seq<seq<nat>>, free: map<nat, nat>, s: nat, size: nat) {
    size >= 1 && exists k: nat :: GainsAt(lists, lists', free, s, size, k)
  }

  ghost predicate GainsAt(lists: seq<seq<nat>>, lists': seq<seq<nat>>, free: map<nat, nat>, s: nat, size: nat, k: nat)
    requires size >= 1
  {
    var b := BinIdx(size);
    && b < |lists| && k <= |lists[b]| && lists' == lists[b := InsertAt(lists[b], k, s)]
    && (b != LAST_BIN ==> k == |lists[b]|)
    && (b == LAST_BIN ==> forall i :: 0 <= i < |lists[b]| && lists[b][i] in free ==> (i < k <==> free[lists[b][i]] <= size))
  }

  // a region leaves its bin, and the others stay in their order
  ghost predicate Loses(lists: seq<seq<nat>>, lists': seq<seq<nat>>, s: nat) {
    exists b: nat, k: nat :: LosesAt(lists, lists', s, b, k)
  }

  ghost predicate LosesAt(lists: seq<seq<nat>>, lists': seq<seq<nat>>, s: nat, b: nat, k: nat) {
    b < |lists| && k < |lists[b]| && lists[b][k] == s && lists' == lists[b := RemoveAt(lists[b], k)]
  }

  // s is the first of its bin that has n slabs
  ghost predicate FirstOfBin(lists: seq<seq<nat>>, free: map<nat, nat>, n: nat, s: nat) {
    exists b: nat, k: nat :: FirstAt(lists, free, n, s, b, k)
  }

  ghost predicate FirstAt(lists: seq<seq<nat>>, free: map<nat, nat>, n: nat, s: nat, b: nat, k: nat) {
    && b < |lists| && k < |lists[b]| && lists[b][k] == s
    && forall i :: 0 <= i < k ==> lists[b][i] in free && free[lists[b][i]] < n
  }

  lemma Gaining(lists: seq<seq<nat>>, free: map<nat, nat>, s: nat, size: nat, k: nat)
    requires size >= 1 && BinIdx(size) < |lists| && k <= |lists[BinIdx(size)]|
    requires BinIdx(size) != LAST_BIN ==> k == |lists[BinIdx(size)]|
    requires BinIdx(size) == LAST_BIN ==>
      (&& (forall i :: 0 <= i < |lists[LAST_BIN]| ==> lists[LAST_BIN][i] in free)
       && (forall i :: 0 <= i < k ==> free[lists[LAST_BIN][i]] <= size)
       && (forall i :: k <= i < |lists[LAST_BIN]| ==> size < free[lists[LAST_BIN][i]]))
    ensures Gains(lists, lists[BinIdx(size) := InsertAt(lists[BinIdx(size)], k, s)], free, s, size)
  {
    hide InsertAt;
    assert GainsAt(lists, lists[BinIdx(size) := InsertAt(lists[BinIdx(size)], k, s)], free, s, size, k);
  }

  lemma Losing(lists: seq<seq<nat>>, b: nat, k: nat)
    requires b < |lists| && k < |lists[b]|
    ensures Loses(lists, lists[b := RemoveAt(lists[b], k)], lists[b][k])
  {
    hide RemoveAt;
    assert LosesAt(lists, lists[b := RemoveAt(lists[b], k)], lists[b][k], b, k);
  }

  // inserting a region where the last bin stays sorted
  lemma BinsInsert(next: map<Node, Node>, prev: map<Node, Node>, numSlabs: map<nat, nat>,
                   lists: seq<seq<nat>>, free: map<nat, nat>, s: nat, size: nat, k: nat)
    requires BinsOk(next, prev, numSlabs, lists, free) && s !in free && size >= 1
    requires k <= |lists[BinIdx(size)]|
    requires BinIdx(size) == LAST_BIN ==>
      && (forall i :: 0 <= i < k ==> free[lists[LAST_BIN][i]] <= size)
      && (forall i :: k <= i < |lists[LAST_BIN]| ==> size <= free[lists[LAST_BIN][i]])
    ensures var b := BinIdx(size);
      var x, y := NodeAt(lists[b], b, k), NodeAt(lists[b], b, k + 1);
      BinsOk(next[Slab(s) := y][x := Slab(s)], prev[Slab(s) := x][y := Slab(s)], numSlabs[s := size],
             lists[b := InsertAt(lists[b], k, s)], free[s := size])
  {
    var b := BinIdx(size);
    HoldsInsert(lists, free, s, size, k);
    RingsInsert(next, prev, lists, b, k, s);
    DistinctInsert(lists, b, k, s);
    hide Rings, Distinct, Absent, Holds, NodeAt, Sorted, InsertAt;
    if b == LAST_BIN {
      SortedInsert(lists[LAST_BIN], free, s, size, k);
    } else {
      SortedStays(lists[LAST_BIN], free, free[s := size]);
    }
  }

  lemma SortedInsert(l: seq<nat>, free: map<nat, nat>, s: nat, size: nat, k: nat)
    requires Sorted(l, free) && s !in free && k <= |l|
    requires forall i :: 0 <= i < k ==> free[l[i]] <= size
    requires forall i :: k <= i < |l| ==> size <= free[l[i]]
    ensures Sorted(InsertAt(l, k, s), free[s := size])
  {
    var l' := InsertAt(l, k, s);
    assert forall i :: 0 <= i < |l'| ==> l'[i] == if i < k then l[i] else if i == k then s else l[i - 1];
  }

  lemma SortedStays(l: seq<nat>, free: map<nat, nat>, free': map<nat, nat>)
    requires Sorted(l, free)
    requires forall i :: 0 <= i < |l| ==> l[i] in free' && free'[l[i]] == free[l[i]]
    ensures Sorted(l, free')
  {
  }

  lemma SortedRemove(l: seq<nat>, free: map<nat, nat>, k: nat)
    requires Sorted(l, free) && k < |l|
    ensures Sorted(RemoveAt(l, k), free)
  {
    var l' := RemoveAt(l, k);
    assert forall i :: 0 <= i < |l'| ==> l'[i] == l[if i < k then i else i + 1];
  }

  lemma BinsRemove(next: map<Node, Node>, prev: map<Node, Node>, numSlabs: map<nat, nat>,
                   lists: seq<seq<nat>>, free: map<nat, nat>, b: nat, k: nat)
    requires BinsOk(next, prev, numSlabs, lists, free) && b < |lists| && k < |lists[b]|
    ensures var x, y := NodeAt(lists[b], b, k), NodeAt(lists[b], b, k + 2);
      && Slab(lists[b][k]) in next && next[Slab(lists[b][k])] == y
      && Slab(lists[b][k]) in prev && prev[Slab(lists[b][k])] == x
      && BinsOk(next[x := y], prev[y := x], numSlabs, lists[b := RemoveAt(lists[b], k)], free - {lists[b][k]})
  {
    HoldsRemove(lists, free, b, k);
    RingsRemove(next, prev, lists, b, k);
    DistinctRemove(lists, b, k);
    var s := lists[b][k];
    var lists' := lists[b := RemoveAt(lists[b], k)];
    if b == LAST_BIN {
      SortedRemove(lists[LAST_BIN], free, k);
    }
    assert forall i :: 0 <= i < |lists'[LAST_BIN]| ==> lists'[LAST_BIN][i] != s;
    SortedStays(lists'[LAST_BIN], free, free - {s});
  }

  // ---------- what the bins keep in the free slabs ----------

  datatype Nodes = Nodes(next: map<Node, Node>, prev: map<Node, Node>, numSlabs: map<nat, nat>)

  ghost predicate SameNode(m: Nodes, m': Nodes, s: nat) {
    SameAt(m.next, m'.next, Slab(s)) && SameAt(m.prev, m'.prev, Slab(s)) && SameAt(m.numSlabs, m'.numSlabs, s)
  }

  // links and sizes change in these slabs only
  ghost predicate NodesOnly(m: Nodes, m': Nodes, slabs: set<nat>) {
    forall s: nat :: s !in slabs ==> SameNode(m, m', s)
  }

  lemma NodeFree(lists: seq<seq<nat>>, free: map<nat, nat>, b: nat, i: nat)
    requires Holds(lists, free) && b < |lists|
    ensures NodeAt(lists[b], b, i).Slab? ==> NodeAt(lists[b], b, i).idx in free
  {
  }

  // storing next of x and prev of y
  lemma LinksOnly(m: Nodes, m': Nodes, x: Node, y: Node, slabs: set<nat>)
    requires (x.Slab? ==> x.idx in slabs) && (y.Slab? ==> y.idx in slabs)
    requires m'.next == m.next[x := y] && m'.prev == m.prev[y := x] && m'.numSlabs == m.numSlabs
    ensures NodesOnly(m, m', slabs)
  {
  }

  // ... and both links and the size of s between them
  lemma InsertOnly(m: Nodes, m': Nodes, x: Node, y: Node, s: nat, size: nat, slabs: set<nat>)
    requires (x.Slab? ==> x.idx in slabs) && (y.Slab? ==> y.idx in slabs) && s in slabs
    requires m'.next == m.next[Slab(s) := y][x := Slab(s)] && m'.prev == m.prev[Slab(s) := x][y := Slab(s)]
    requires m'.numSlabs == m.numSlabs[s := size]
    ensures NodesOnly(m, m', slabs)
  {
  }

  class SlabBins {
    var next: map<Node, Node>
    var prev: map<Node, Node>
    var numSlabs: map<nat, nat>  // the num_slabs field of the free slabs
    const skip: Skiplist
    ghost var lists: seq<seq<nat>>
    ghost var free: map<nat, nat>  // start of each free region and its size

    ghost predicate Valid()
      reads this, skip
    {
      && BinsOk(next, prev, numSlabs, lists, free)
      && skip.Valid() && skip.limit == MAX_SEG_SLAB_SZ
      && Covers(skip.words, skip.limit, Occupied(lists))
    }

    ghost function Image(): Nodes
      reads this
    {
      Nodes(next, prev, numSlabs)
    }

    // mm_init: every bin points to itself
    constructor ()
      ensures Valid() && free == map[] && fresh(skip)
    {
      next := map b: nat | b < NUM_SLAB_BINS :: Bin(b) := Bin(b);
      prev := map b: nat | b < NUM_SLAB_BINS :: Bin(b) := Bin(b);
      numSlabs := map[];
      skip := new Skiplist(4, MAX_SEG_SLAB_SZ);
      lists := seq(NUM_SLAB_BINS, _ => []);
      free := map[];
      new;
      forall b, i | 0 <= b < |lists| && 0 <= i <= |lists[b]|
        ensures LinkAt(next, prev, lists[b], b, i)
      {
        assert NodeAt(lists[b], b, i) == Bin(b) == NodeAt(lists[b], b, i + 1);
      }
      assert Occupied(lists) == {};
    }

    lemma SizeField(s: nat)
      requires Valid() && s in free
      ensures s in numSlabs && numSlabs[s] == free[s]
    {
    }

    // where s is, and what its bins are without it
    lemma Unlinking(s: nat) returns (b: nat, k: nat)
      requires Valid() && s in free
      ensures b < |lists| && k < |lists[b]| && lists[b][k] == s
      ensures Slab(s) in next && next[Slab(s)] == NodeAt(lists[b], b, k + 2)
      ensures Slab(s) in prev && prev[Slab(s)] == NodeAt(lists[b], b, k)
      ensures forall i :: i == k || i == k + 2 ==> NodeAt(lists[b], b, i).Slab? ==> NodeAt(lists[b], b, i).idx in free
      ensures BinsOk(next[prev[Slab(s)] := next[Slab(s)]], prev[next[Slab(s)] := prev[Slab(s)]], numSlabs,
                     lists[b := RemoveAt(lists[b], k)], free - {s})
      ensures Covers(skip.words, skip.limit, Occupied(lists[b := RemoveAt(lists[b], k)]))
    {
      b := BinIdx(free[s]);
      assert s in lists[b];
      k :| 0 <= k < |lists[b]| && lists[b][k] == s;
      BinsRemove(next, prev, numSlabs, lists, free, b, k);
      CoversFewer(skip.words, skip.limit, Occupied(lists), Occupied(lists[b := RemoveAt(lists[b], k)]));
      NodeFree(lists, free, b, k);
      NodeFree(lists, free, b, k + 2);
    }

    // slab_unlink
    method Unlink(s: nat)
      requires Valid() && s in free
      modifies this
      ensures Valid() && free == old(free) - {s} && numSlabs == old(numSlabs)
      ensures Loses(old(lists), lists, s)
      ensures NodesOnly(old(Image()), Image(), old(free).Keys)
    {
      hide BinsOk, NodeAt, Covers, NodesOnly, Rings, Distinct, Holds, Sorted, Occupied, Loses;
      ghost var b, k := Unlinking(s);
      Losing(lists, b, k);
      ghost var m, slabs := Image(), free.Keys;
      var nx, pv := next[Slab(s)], prev[Slab(s)];
      next := next[pv := nx];
      prev := prev[nx := pv];
      lists := lists[b := RemoveAt(lists[b], k)];
      free := free - {s};
      LinksOnly(m, Image(), pv, nx, slabs);
    }

    lemma TailOf(b: nat)
      requires Valid() && b < NUM_SLAB_BINS
      ensures Bin(b) in prev && prev[Bin(b)] == NodeAt(lists[b], b, |lists[b]|)
    {
      RingsAt(next, prev, lists, b, |lists[b]|);
    }

    lemma HeadOf(b: nat)
      requires Valid() && b < NUM_SLAB_BINS
      ensures Bin(b) in next
      ensures next[Bin(b)] == if lists[b] == [] then Bin(b) else Slab(lists[b][0])
    {
      RingsAt(next, prev, lists, b, 0);
    }

    // __slab_link: at the tail of the bin
    method LinkTail(b: nat, s: nat, size: nat)
      requires Valid() && s !in free && 1 <= size <= MAX_SEG_SLAB_SZ && b == BinIdx(size)
      modifies this, skip
      ensures Valid() && free == old(free)[s := size] && Gains(old(lists), lists, old(free), s, size)
      ensures NodesOnly(old(Image()), Image(), free.Keys)
    {
      ghost var l := lists[b];
      TailOf(b);
      BinsInsert(next, prev, numSlabs, lists, free, s, size, |l|);
      assert Occupied(lists[b := InsertAt(l, |l|, s)]) == Occupied(lists) + {b};
      assert NodeAt(l, b, |l| + 1) == Bin(b);
      NodeFree(lists, free, b, |l|);
      Gaining(lists, free, s, size, |l|);
      ghost var m := Image();
      hide BinsOk, NodeAt, Covers, NodesOnly, Gains;
      var pv := prev[Bin(b)];
      next := next[Slab(s) := Bin(b)][pv := Slab(s)];
      prev := prev[Slab(s) := pv][Bin(b) := Slab(s)];
      lists := lists[b := InsertAt(l, |l|, s)];
      free := free[s := size];
      numSlabs := numSlabs[s := size];
      InsertOnly(m, Image(), pv, Bin(b), s, size, free.Keys);
      skip.Mark(b);
    }

    // the scan of __slab_link_large: back from the tail past the larger regions
    method SortedSpot(size: nat) returns (pv: Node, nx: Node, ghost k: nat)
      requires Valid()
      ensures k <= |lists[LAST_BIN]|
      ensures pv == NodeAt(lists[LAST_BIN], LAST_BIN, k) && nx == NodeAt(lists[LAST_BIN], LAST_BIN, k + 1)
      ensures forall i :: 0 <= i < k ==> free[lists[LAST_BIN][i]] <= size
      ensures forall i :: k <= i < |lists[LAST_BIN]| ==> size < free[lists[LAST_BIN][i]]
    {
      ghost var l := lists[LAST_BIN];
      k := |l|;
      TailOf(LAST_BIN);
      nx := Bin(LAST_BIN);
      pv := prev[Bin(LAST_BIN)];
      while pv != Bin(LAST_BIN) && numSlabs[pv.idx] > size
        invariant 0 <= k <= |l|
        invariant pv == NodeAt(l, LAST_BIN, k) && nx == NodeAt(l, LAST_BIN, k + 1)
        invariant forall i :: k <= i < |l| ==> size < free[l[i]]
        decreases k
      {
        RingsAt(next, prev, lists, LAST_BIN, k - 1);
        nx := pv;
        pv := prev[pv];
        k := k - 1;
      }
    }

    // what the bins are with s at its place in the last one
    lemma Sorting(s: nat, size: nat, k: nat)
      requires Valid() && s !in free && size > MAX_SEG_SLAB_SZ && k <= |lists[LAST_BIN]|
      requires forall i :: 0 <= i < k ==> free[lists[LAST_BIN][i]] <= size
      requires forall i :: k <= i < |lists[LAST_BIN]| ==> size < free[lists[LAST_BIN][i]]
      ensures LAST_BIN < |lists|
      ensures var l := lists[LAST_BIN];
        var pv, nx, lists' := NodeAt(l, LAST_BIN, k), NodeAt(l, LAST_BIN, k + 1), lists[LAST_BIN := InsertAt(l, k, s)];
        && BinsOk(next[Slab(s) := nx][pv := Slab(s)], prev[Slab(s) := pv][nx := Slab(s)], numSlabs[s := size],
                  lists', free[s := size])
        && Covers(skip.words, skip.limit, Occupied(lists')) && Gains(lists, lists', free, s, size)
        && (pv.Slab? ==> pv.idx in free) && (nx.Slab? ==> nx.idx in free)
    {
      hide Covers, Rings, Distinct, NodeAt, InsertAt, Gains, GainsAt;
      var l := lists[LAST_BIN];
      BinsInsert(next, prev, numSlabs, lists, free, s, size, k);
      CoversFewer(skip.words, skip.limit, Occupied(lists), Occupied(lists[LAST_BIN := InsertAt(l, k, s)]));
      NodeFree(lists, free, LAST_BIN, k);
      NodeFree(lists, free, LAST_BIN, k + 1);
      assert forall i :: 0 <= i < |l| ==> l[i] in free;
      Gaining(lists, free, s, size, k);
    }

    // __slab_link_large
    method LinkSorted(s: nat, size: nat)
      requires Valid() && s !in free && size > MAX_SEG_SLAB_SZ
      modifies this
      ensures Valid() && free == old(free)[s := size] && Gains(old(lists), lists, old(free), s, size)
      ensures NodesOnly(old(Image()), Image(), free.Keys)
    {
      assert |lists| == NUM_SLAB_BINS;
      hide BinsOk, NodeAt, Covers, NodesOnly, Gains, Occupied, InsertAt;
      ghost var l := lists[LAST_BIN];
      ghost var k: nat;
      var pv, nx;
      pv, nx, k := SortedSpot(size);
      Sorting(s, size, k);
      ghost var m := Image();
      next := next[Slab(s) := nx][pv := Slab(s)];
      prev := prev[Slab(s) := pv][nx := Slab(s)];
      lists := lists[LAST_BIN := InsertAt(l, k, s)];
      free := free[s := size];
      numSlabs := numSlabs[s := size];
      InsertOnly(m, Image(), pv, nx, s, size, free.Keys);
    }

    // slab_link
    method Link(s: nat, size: nat)
      requires Valid() && s !in free && size >= 1
      modifies this, skip
      ensures Valid() && free == old(free)[s := size] && Gains(old(lists), lists, old(free), s, size)
      ensures NodesOnly(old(Image()), Image(), free.Keys)
    {
      if size <= MAX_SEG_SLAB_SZ {
        LinkTail(BinIdx(size), s, size);
      } else {
        LinkSorted(s, size);
      }
    }

    ghost predicate IsBestFit(n: nat, r: Option<nat>)
      reads this
    {
      match r
      case Some(s) => s in free && free[s] >= n && (forall q :: q in free && free[q] >= n ==> free[s] <= free[q])
      case None => forall q :: q in free ==> free[q] < n
    }

    /** The region `__int_alloc_slab` picks: a smallest free region of at least n slabs, or
        none exactly when every free region is smaller. */
    method BestFit(n: nat) returns (r: Option<nat>)
      requires Valid() && n >= 1
      modifies skip
      ensures Valid() && IsBestFit(n, r) && (r.Some? ==> FirstOfBin(lists, free, n, r.value))
    {
      if n <= MAX_SEG_SLAB_SZ {
        r := FitSmall(n);
      } else {
        r := FitLarge(n);
      }
    }

    method FitSmall(n: nat) returns (r: Option<nat>)
      requires Valid() && 1 <= n <= MAX_SEG_SLAB_SZ
      modifies skip
      ensures Valid() && IsBestFit(n, r) && (r.Some? ==> FirstOfBin(lists, free, n, r.value))
    {
      var req := BinIdx(n);
      var nx := next;
      var heads := (b: nat) => Bin(b) in nx && nx[Bin(b)] != Bin(b);
      forall b | 0 <= b < NUM_SLAB_BINS ensures heads(b) == (b in Occupied(lists)) {
        HeadOf(b);
      }
      var hit := skip.Find(req, Occupied(lists), heads);
      match hit {
        case Found(bin, word) =>
          HeadOf(bin);
          var s := next[Bin(bin)].idx;
          if bin != req {
            skip.WriteBack(bin / WORD_BITS, word);
          }
          r := Some(s);
          FirstFit(n, bin);
        case Miss =>
          HeadOf(LAST_BIN);
          var s := next[Bin(LAST_BIN)];
          r := if s != Bin(LAST_BIN) then Some(s.idx) else None;
          FirstFit(n, LAST_BIN);
      }
    }

    // the head of the first bin from n's own on that is not empty is a best fit
    lemma FirstFit(n: nat, bin: nat)
      requires Valid() && 1 <= n <= MAX_SEG_SLAB_SZ && n - 1 <= bin < NUM_SLAB_BINS
      requires forall c :: n - 1 <= c < bin ==> c !in Occupied(lists)
      ensures lists[bin] != [] ==> IsBestFit(n, Some(lists[bin][0])) && FirstOfBin(lists, free, n, lists[bin][0])
      ensures bin == LAST_BIN && lists[bin] == [] ==> IsBestFit(n, None)
    {
      forall q | q in free && free[q] >= n
        ensures BinIdx(free[q]) >= bin && lists[BinIdx(free[q])] != []
      {
        assert q in lists[BinIdx(free[q])];
        assert BinIdx(free[q]) in Occupied(lists);
      }
      if lists[bin] != [] {
        var s := lists[bin][0];
        assert FirstAt(lists, free, n, s, bin, 0);
        assert s in free && BinIdx(free[s]) == bin;
        forall q | q in free && free[q] >= n
          ensures free[s] <= free[q]
        {
          if BinIdx(free[q]) == LAST_BIN && bin == LAST_BIN {
            assert q in lists[LAST_BIN];
          }
        }
      }
    }

    method FitLarge(n: nat) returns (r: Option<nat>)
      requires Valid() && n > MAX_SEG_SLAB_SZ
      ensures IsBestFit(n, r) && (r.Some? ==> FirstOfBin(lists, free, n, r.value))
    {
      ghost var l := lists[LAST_BIN];
      ghost var i := 0;
      HeadOf(LAST_BIN);
      var s := next[Bin(LAST_BIN)];
      assert forall q :: q in free && free[q] >= n ==> q in l;
      while s != Bin(LAST_BIN)
        invariant 0 <= i <= |l| && s == NodeAt(l, LAST_BIN, i + 1)
        invariant forall j :: 0 <= j < i ==> free[l[j]] < n
        decreases |l| - i
      {
        if numSlabs[s.idx] >= n {
          assert FirstAt(lists, free, n, s.idx, LAST_BIN, i);
          return Some(s.idx);
        }
        RingsAt(next, prev, lists, LAST_BIN, i + 1);
        s := next[s];
        i := i + 1;
      }
      r := None;
    }
  }
}
