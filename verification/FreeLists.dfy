/** NULL-terminated doubly linked lists with an array of heads: the bins of partly free packed
    slabs and the bins of free medium blocks.  An element is named by a number, its slab index
    or its address. */
module FreeLists {
  import opened Writes

  // a `next` pointer
  datatype Next = Null | Elem(id: nat)

  // a `prev` pointer: another element, or the head of a bin dressed up as one
  datatype Prev = Head(bin: nat) | After(id: nat)

  function NextOf(l: seq<nat>, i: nat): Next {
    if i + 1 < |l| then Elem(l[i + 1]) else Null
  }

  function PrevOf(l: seq<nat>, b: nat, i: nat): Prev {
    if 1 <= i <= |l| then After(l[i - 1]) else Head(b)
  }

  function First(l: seq<nat>): Next {
    if l == [] then Null else Elem(l[0])
  }

  ghost predicate LinkAt(next: map<nat, Next>, prev: map<nat, Prev>, l: seq<nat>, b: nat, i: nat)
    requires i < |l|
  {
    l[i] in next && next[l[i]] == NextOf(l, i) && l[i] in prev && prev[l[i]] == PrevOf(l, b, i)
  }

  ghost predicate Chains(heads: seq<Next>, next: map<nat, Next>, prev: map<nat, Prev>, lists: seq<seq<nat>>) {
    && |heads| == |lists|
    && (forall b :: 0 <= b < |lists| ==> heads[b] == First(lists[b]))
    && (forall b, i :: 0 <= b < |lists| && 0 <= i < |lists[b]| ==> LinkAt(next, prev, lists[b], b, i))
  }

  // `bin` tells which bin each element is in, once
  ghost predicate Placed(lists: seq<seq<nat>>, bin: map<nat, nat>) {
    && (forall b, i :: 0 <= b < |lists| && 0 <= i < |lists[b]| ==> lists[b][i] in bin && bin[lists[b][i]] == b)
    && (forall b, i, j :: 0 <= b < |lists| && 0 <= i < j < |lists[b]| ==> lists[b][i] != lists[b][j])
    && (forall e :: e in bin ==> bin[e] < |lists| && e in lists[bin[e]])
  }

  function RemoveAt(l: seq<nat>, k: nat): seq<nat>
    requires k < |l|
  {
    l[..k] + l[k + 1..]
  }

  lemma PlacedApart(lists: seq<seq<nat>>, bin: map<nat, nat>, b: nat, i: nat, c: nat, j: nat)
    requires Placed(lists, bin) && b < |lists| && i < |lists[b]| && c < |lists| && j < |lists[c]| && (b != c || i != j)
    ensures lists[b][i] != lists[c][j]
  {
    if b == c {
      assert lists[b][if i < j then i else j] != lists[b][if i < j then j else i];
    } else {
      assert bin[lists[b][i]] == b && bin[lists[c][j]] == c;
    }
  }

  lemma PlacedInsert(lists: seq<seq<nat>>, bin: map<nat, nat>, b: nat, e: nat)
    requires Placed(lists, bin) && b < |lists| && e !in bin
    ensures Placed(lists[b := [e] + lists[b]], bin[e := b])
  {
    var lists', bin' := lists[b := [e] + lists[b]], bin[e := b];
    forall x | x in bin' ensures bin'[x] < |lists'| && x in lists'[bin'[x]] {
      if x == e {
        assert lists'[b][0] == e;
      } else {
        var i :| 0 <= i < |lists[bin[x]]| && lists[bin[x]][i] == x;
        assert lists'[bin[x]][if bin[x] == b then i + 1 else i] == x;
      }
    }
    forall c, i | 0 <= c < |lists'| && 0 <= i < |lists'[c]| ensures lists'[c][i] in bin' && bin'[lists'[c][i]] == c {
      if c == b && i > 0 {
        assert lists'[c][i] == lists[c][i - 1];
      }
    }
    forall c, i, j | 0 <= c < |lists'| && 0 <= i < j < |lists'[c]| ensures lists'[c][i] != lists'[c][j] {
      if c == b {
        assert lists'[c][j] == lists[c][j - 1];
        assert i > 0 ==> lists'[c][i] == lists[c][i - 1];
      }
    }
  }

  lemma PlacedRemove(lists: seq<seq<nat>>, bin: map<nat, nat>, b: nat, k: nat)
    requires Placed(lists, bin) && b < |lists| && k < |lists[b]|
    ensures Placed(lists[b := RemoveAt(lists[b], k)], bin - {lists[b][k]})
  {
    var l := RemoveAt(lists[b], k);
    var lists', bin' := lists[b := l], bin - {lists[b][k]};
    assert forall i :: 0 <= i < |l| ==> l[i] == lists[b][if i < k then i else i + 1];
    forall x | x in bin' ensures bin'[x] < |lists'| && x in lists'[bin'[x]] {
      var i :| 0 <= i < |lists[bin[x]]| && lists[bin[x]][i] == x;
      if bin[x] == b {
        assert l[if i < k then i else i - 1] == x;
      }
    }
    forall c, i | 0 <= c < |lists'| && 0 <= i < |lists'[c]| ensures lists'[c][i] in bin' && bin'[lists'[c][i]] == c {
      var j := if c == b && i >= k then i + 1 else i;
      assert lists'[c][i] == lists[c][j];
      PlacedApart(lists, bin, c, j, b, k);
    }
  }

  lemma ChainsInsert(heads: seq<Next>, next: map<nat, Next>, prev: map<nat, Prev>, lists: seq<seq<nat>>,
                     bin: map<nat, nat>, b: nat, e: nat)
    requires Chains(heads, next, prev, lists) && Placed(lists, bin) && b < |lists| && e !in bin
    ensures var second := heads[b];
      var next', prev0 := next[e := second], prev[e := Head(b)];
      var prev' := if second == Null then prev0 else prev0[second.id := After(e)];
      Chains(heads[b := Elem(e)], next', prev', lists[b := [e] + lists[b]])
  {
    var second := heads[b];
    var l := [e] + lists[b];
    var lists' := lists[b := l];
    var next', prev0 := next[e := second], prev[e := Head(b)];
    var prev' := if second == Null then prev0 else prev0[second.id := After(e)];
    forall c, i | 0 <= c < |lists'| && 0 <= i < |lists'[c]|
      ensures LinkAt(next', prev', lists'[c], c, i)
    {
      if c == b {
        if i > 0 {
          assert LinkAt(next, prev, lists[b], b, i - 1) && l[i] == lists[b][i - 1];
          assert i > 1 ==> l[i - 1] == lists[b][i - 2];
          if i > 1 {
            PlacedApart(lists, bin, b, i - 1, b, 0);
          }
        }
      } else {
        assert LinkAt(next, prev, lists[c], c, i);
        if lists[b] != [] {
          PlacedApart(lists, bin, c, i, b, 0);
        }
      }
    }
  }

  lemma ChainsRemove(heads: seq<Next>, next: map<nat, Next>, prev: map<nat, Prev>, lists: seq<seq<nat>>,
                     bin: map<nat, nat>, b: nat, k: nat)
    requires Chains(heads, next, prev, lists) && Placed(lists, bin) && b < |lists| && k < |lists[b]|
    ensures var e := lists[b][k];
      && e in next && e in prev && (prev[e].After? ==> prev[e].id in next)
      && (prev[e].Head? ==> prev[e].bin == b)
      && (var heads' := if prev[e].Head? then heads[b := next[e]] else heads;
          var next' := if prev[e].Head? then next else next[prev[e].id := next[e]];
          var prev' := if next[e] == Null then prev else prev[next[e].id := prev[e]];
          Chains(heads', next', prev', lists[b := RemoveAt(lists[b], k)]))
  {
    var e := lists[b][k];
    var l := RemoveAt(lists[b], k);
    var lists' := lists[b := l];
    assert LinkAt(next, prev, lists[b], b, k);
    if k > 0 {
      assert LinkAt(next, prev, lists[b], b, k - 1);
    }
    var heads' := if prev[e].Head? then heads[b := next[e]] else heads;
    var next' := if prev[e].Head? then next else next[prev[e].id := next[e]];
    var prev' := if next[e] == Null then prev else prev[next[e].id := prev[e]];
    forall c, i | 0 <= c < |lists'| && 0 <= i < |lists'[c]|
      ensures LinkAt(next', prev', lists'[c], c, i)
    {
      RemoveLink(next, prev, lists, bin, b, k, c, i);
    }
    assert First(l) == heads'[b];
  }

  lemma RemoveLink(next: map<nat, Next>, prev: map<nat, Prev>, lists: seq<seq<nat>>, bin: map<nat, nat>,
                   b: nat, k: nat, c: nat, i: nat)
    requires forall b, i :: 0 <= b < |lists| && 0 <= i < |lists[b]| ==> LinkAt(next, prev, lists[b], b, i)
    requires Placed(lists, bin) && b < |lists| && k < |lists[b]| && c < |lists|
    requires i < if c == b then |lists[b]| - 1 else |lists[c]|
    ensures var nx, pv := NextOf(lists[b], k), PrevOf(lists[b], b, k);
      var l := if c == b then RemoveAt(lists[b], k) else lists[c];
      var next' := if pv.Head? then next else next[pv.id := nx];
      var prev' := if nx == Null then prev else prev[nx.id := pv];
      LinkAt(next', prev', l, c, i)
  {
    hide Placed;
    var j := if c == b && i >= k then i + 1 else i;
    assert LinkAt(next, prev, lists[c], c, j);
    if c == b {
      RemoveNeighbours(lists[b], b, k, i);
    }
    hide RemoveAt;
    if k > 0 && !(c == b && j == k - 1) {
      PlacedApart(lists, bin, c, j, b, k - 1);
    }
    if k + 1 < |lists[b]| && !(c == b && j == k + 1) {
      PlacedApart(lists, bin, c, j, b, k + 1);
    }
  }

  lemma RemoveNeighbours(l: seq<nat>, b: nat, k: nat, i: nat)
    requires k < |l| && i + 1 < |l|
    ensures var j := if i >= k then i + 1 else i;
      && RemoveAt(l, k)[i] == l[j]
      && NextOf(RemoveAt(l, k), i) == (if i + 1 == k then NextOf(l, k) else NextOf(l, j))
      && PrevOf(RemoveAt(l, k), b, i) == (if i == k then PrevOf(l, b, k) else PrevOf(l, b, j))
  {
  }

  // e is the head of bin b
  predicate IsHead(heads: seq<Next>, b: nat, e: nat) {
    b < |heads| && heads[b] == Elem(e)
  }

  // e is taken out of its list, and the others stay in their order
  ghost predicate Loses(lists: seq<seq<nat>>, lists': seq<seq<nat>>, e: nat) {
    exists b: nat, k: nat :: LosesAt(lists, lists', e, b, k)
  }

  ghost predicate LosesAt(lists: seq<seq<nat>>, lists': seq<seq<nat>>, e: nat, b: nat, k: nat) {
    b < |lists| && k < |lists[b]| && lists[b][k] == e && lists' == lists[b := RemoveAt(lists[b], k)]
  }

  lemma Losing(lists: seq<seq<nat>>, b: nat, k: nat)
    requires b < |lists| && k < |lists[b]|
    ensures Loses(lists, lists[b := RemoveAt(lists[b], k)], lists[b][k])
  {
    assert LosesAt(lists, lists[b := RemoveAt(lists[b], k)], lists[b][k], b, k);
  }

  class Bins {
    var heads: seq<Next>
    var next: map<nat, Next>
    var prev: map<nat, Prev>
    ghost var lists: seq<seq<nat>>
    ghost var bin: map<nat, nat>  // the bin of each linked element

    ghost predicate Valid()
      reads this
    {
      Chains(heads, next, prev, lists) && Placed(lists, bin)
    }

    // mm_init: all heads are NULL
    constructor (n: nat)
      ensures Valid() && |heads| == n && bin == map[] && lists == seq(n, _ => [])
    {
      heads := seq(n, _ => Null);
      next, prev := map[], map[];
      lists := seq(n, _ => []);
      bin := map[];
    }

    // __small_bin_link, and the list part of medium_bin_link
    method Link(b: nat, e: nat)
      requires Valid() && b < |heads| && e !in bin
      modifies this
      ensures Valid() && |heads| == |old(heads)| && bin == old(bin)[e := b]
      ensures b < |old(lists)| && lists == old(lists)[b := [e] + old(lists)[b]]
      ensures OnlyAt(old(next), next, bin.Keys) && OnlyAt(old(prev), prev, bin.Keys)
    {
      PlacedInsert(lists, bin, b, e);
      ChainsInsert(heads, next, prev, lists, bin, b, e);
      HeadOf(b);
      assert |heads| == |lists|;
      hide Chains, Placed, OnlyAt;
      ghost var n, p, keys := next, prev, bin[e := b].Keys;
      OnlyAtNone(n, keys);
      OnlyAtNone(p, keys);
      var second := heads[b];
      OnlyAtStore(n, next, keys, e, second);
      next := next[e := second];
      OnlyAtStore(p, prev, keys, e, Head(b));
      prev := prev[e := Head(b)];
      if second != Null {
        OnlyAtStore(p, prev, keys, second.id, After(e));
        prev := prev[second.id := After(e)];
      }
      heads := heads[b := Elem(e)];
      lists := lists[b := [e] + lists[b]];
      bin := bin[e := b];
    }

    // where e is, and what the lists are without it
    lemma Unlinking(e: nat) returns (b: nat, k: nat)
      requires Valid() && e in bin
      ensures b < |lists| == |heads| && k < |lists[b]| && lists[b][k] == e && Placed(lists[b := RemoveAt(lists[b], k)], bin - {e})
      ensures e in next && e in prev && (prev[e].After? ==> prev[e].id in next && prev[e].id in bin)
      ensures (prev[e].Head? ==> prev[e].bin == b) && (next[e].Elem? ==> next[e].id in bin)
      ensures Chains(if prev[e].Head? then heads[b := next[e]] else heads,
                     if prev[e].Head? then next else next[prev[e].id := next[e]],
                     if next[e] == Null then prev else prev[next[e].id := prev[e]], lists[b := RemoveAt(lists[b], k)])
    {
      b := bin[e];
      assert e in lists[b];
      k :| 0 <= k < |lists[b]| && lists[b][k] == e;
      PlacedRemove(lists, bin, b, k);
      ChainsRemove(heads, next, prev, lists, bin, b, k);
      assert LinkAt(next, prev, lists[b], b, k);
    }

    // small_bin_unlink and medium_bin_unlink
    method Unlink(e: nat)
      requires Valid() && e in bin
      modifies this
      ensures Valid() && |heads| == |old(heads)| && bin == old(bin) - {e}
      ensures Loses(old(lists), lists, e)
      ensures OnlyAt(old(next), next, old(bin).Keys) && OnlyAt(old(prev), prev, old(bin).Keys)
    {
      hide Chains, Placed, OnlyAt, Loses;
      ghost var b, k := Unlinking(e);
      Losing(lists, b, k);
      ghost var n, p, keys := next, prev, bin.Keys;
      OnlyAtNone(n, keys);
      OnlyAtNone(p, keys);
      var nx, pv := next[e], prev[e];
      if pv.Head? {
        heads := heads[pv.bin := nx];
      } else {
        OnlyAtStore(n, next, keys, pv.id, nx);
        next := next[pv.id := nx];
      }
      if nx != Null {
        OnlyAtStore(p, prev, keys, nx.id, pv);
        prev := prev[nx.id := pv];
      }
      lists := lists[b := RemoveAt(lists[b], k)];
      bin := bin - {e};
    }

    // the head of a bin is one of its elements, and NULL only when it has none
    lemma HeadOf(b: nat)
      requires Valid() && b < |heads|
      ensures heads[b].Elem? ==> heads[b].id in bin && bin[heads[b].id] == b
      ensures heads[b] == Null ==> forall e :: e in bin ==> bin[e] != b
    {
      if heads[b].Elem? {
        assert lists[b][0] == heads[b].id;
      }
    }
  }
}
