/** What the trace of a log is: which entries make its lines, which ids these have, where it ends,
    and what is reported with it.  This is told by the log alone, without the parser's books. */
module LogTraces {
  import opened Batches
  import opened LogParsers
  import opened LogProcesses
  import opened LogTheorems
  import opened Options
  import opened Traces

  // ---------- the ids of the pointers in use ----------

  // the lowest number that is not used
  ghost function Lowest(used: set<nat>): (id: nat)
    ensures id !in used && forall k: nat :: k < id ==> k in used
  {
    LowestFrom(used, 0)
  }

  ghost function LowestFrom(used: set<nat>, k: nat): (id: nat)
    requires forall j: nat :: j < k ==> j in used
    ensures id !in used && forall j: nat :: j < id ==> j in used
    decreases used - Below(k)
  {
    if k in used then LowestFrom(used, k + 1) else k
  }

  lemma LowestIs(used: set<nat>, id: nat)
    requires id !in used && forall k: nat :: k < id ==> k in used
    ensures Lowest(used) == id
  {
    var low := Lowest(used);
    assert low < id ==> low in used;
    assert id < low ==> id in used;
  }

  ghost function Without(ids: map<nat, nat>, e: Entry): map<nat, nat> {
    if Gone(e).Some? then ids - {Gone(e).value} else ids
  }

  // an entry takes away the pointer it releases, and gives the pointer it obtains the lowest id
  // that no pointer has then
  ghost function Change(ids: map<nat, nat>, e: Entry): map<nat, nat> {
    if Came(e).Some? then Without(ids, e)[Came(e).value := Lowest(Without(ids, e).Values)] else Without(ids, e)
  }

  // the pointers in use after i entries, with their ids
  ghost function Held(log: seq<Entry>, i: nat): map<nat, nat>
    requires i <= |log|
  {
    if i == 0 then map[] else Change(Held(log, i - 1), log[i - 1])
  }

  // the pointer released is in use, and the one obtained is not
  predicate Legal(ids: map<nat, nat>, e: Entry) {
    && (Gone(e).Some? ==> Gone(e).value in ids)
    && (Came(e).Some? ==> Came(e).value !in ids || Gone(e) == Came(e))
  }

  // ---------- lines ----------

  function IdOf(ids: map<nat, nat>, ptr: Option<nat>): Option<nat> {
    if ptr.Some? && ptr.value in ids then Some(ids[ptr.value]) else None
  }

  // the operation of a line, with its sizes, and with an input unless the pointer is NULL
  function CallShape(c: Call): Line {
    match c
    case FreeCall(ptr) => Free(if ptr == 0 then None else Some(0))
    case MallocCall(size, _) => Malloc(Some(0), size)
    case CallocCall(nmemb, size, _) => Calloc(Some(0), nmemb, size)
    case ReallocCall(input, size, _) => Realloc(if input == 0 then None else Some(0), 0, size)
    case Unknown => NotSet
  }

  /** The line of entry i: its operation, with the id of the pointer released before the entry, and
      the id of the pointer obtained after it. */
  ghost predicate IsLineOf(log: seq<Entry>, i: nat, l: Line)
    requires i < |log|
  {
    IsLine(Held(log, i), log[i], l)
  }

  ghost predicate IsLine(ids: map<nat, nat>, e: Entry, l: Line) {
    && Shape(l) == CallShape(e.call)
    && Input(l) == IdOf(ids, Gone(e)) && Result(l) == IdOf(Change(ids, e), Came(e))
  }

  // the first entry that is an operation
  ghost predicate IsFirst(log: seq<Entry>, k: nat) {
    k < |log| && log[k].call != Unknown && forall h :: 0 <= h < k ==> log[h].call == Unknown
  }

  // an operation of the process that makes the first one
  ghost predicate IsKept(log: seq<Entry>, i: nat)
    requires i < |log|
  {
    log[i].call != Unknown && exists k: nat :: k <= i && IsFirst(log, k) && log[k].pid == log[i].pid
  }

  // the entries that are kept, in order
  ghost function Kept(log: seq<Entry>, i: nat): (r: seq<nat>)
    requires i <= |log|
    ensures forall j :: 0 <= j < |r| ==> r[j] < i
  {
    if i == 0 then [] else if IsKept(log, i - 1) then Kept(log, i - 1) + [i - 1] else Kept(log, i - 1)
  }

  ghost predicate LinesOf(log: seq<Entry>, i: nat, lines: seq<Line>)
    requires i <= |log|
  {
    |lines| == |Kept(log, i)| && forall j :: 0 <= j < |lines| ==> IsLineOf(log, Kept(log, i)[j], lines[j])
  }

  // ---------- where the trace ends ----------

  // entry i is read: up to it there is room for freeing what is in use
  ghost predicate Reached(log: seq<Entry>, maxOps: nat, i: nat)
    requires i <= |log|
  {
    forall k: nat :: k <= i ==> k + |Held(log, k)| < maxOps
  }

  // n entries are read
  ghost predicate IsEnd(log: seq<Entry>, maxOps: nat, n: nat) {
    && n <= |log| && (n == |log| || n + |Held(log, n)| >= maxOps)
    && (forall k: nat :: k < n ==> k + |Held(log, k)| < maxOps)
  }

  // no entry that is read frees what is not in use, or obtains what is
  ghost predicate Accepted(log: seq<Entry>, maxOps: nat) {
    forall i: nat :: i < |log| && Reached(log, maxOps, i) ==> Legal(Held(log, i), log[i])
  }

  // the largest number of pointers in use after a kept entry
  ghost predicate IsMost(log: seq<Entry>, i: nat, most: nat)
    requires i <= |log|
  {
    && (forall k :: k in Kept(log, i) ==> InUseAfter(log, k) <= most)
    && (most == 0 || exists k :: k in Kept(log, i) && InUseAfter(log, k) == most)
  }

  ghost function InUseAfter(log: seq<Entry>, k: nat): nat
    requires k < |log|
  {
    |Held(log, k + 1)|
  }

  /** The trace of the first n entries: the lines of those that are kept, and a free of each
      pointer that is in use then. */
  ghost predicate IsTrace(log: seq<Entry>, n: nat, trace: seq<Line>, most: nat)
    requires n <= |log|
  {
    var k := |Kept(log, n)|;
    && k <= |trace| && LinesOf(log, n, trace[..k])
    && FinalFrees(Held(log, n), trace[k..]) && |trace| == k + |Held(log, n)|
    && IsMost(log, n, most)
  }

  // ---------- the parser's state ----------

  // the pid that is followed is that of the first operation
  ghost predicate PidIs(log: seq<Entry>, i: nat, pid: Option<int>)
    requires i <= |log|
  {
    match pid
    case None => forall h :: 0 <= h < i ==> log[h].call == Unknown
    case Some(p) => exists k: nat :: k < i && IsFirst(log, k) && log[k].pid == p
  }

  // after i entries
  ghost predicate AtEntry(log: seq<Entry>, i: nat, st: Parse)
    requires i <= |log|
  {
    && Coloured(st) && st.idMap == Held(log, i) && PidIs(log, i, st.pid)
    && LinesOf(log, i, st.lines) && IsMost(log, i, st.most)
  }

  lemma AtStart(log: seq<Entry>)
    ensures AtEntry(log, 0, START)
  {
  }

  // the lowest available id, or a new one, is the lowest that no pointer has
  lemma GivesLowest(st: Parse, ptr: nat)
    requires Coloured(st) && Give(st, ptr).Some?
    ensures Give(st, ptr).value.0.idMap == st.idMap[ptr := Lowest(st.idMap.Values)]
    ensures Give(st, ptr).value.1 == Lowest(st.idMap.Values)
  {
    LowestIs(st.idMap.Values, Give(st, ptr).value.1);
  }

  lemma EntryMoves(st: Parse, e: Entry)
    requires Coloured(st)
    ensures Moved(st, e).Some? <==> Legal(st.idMap, e)
    ensures Moved(st, e).Some? ==> Moved(st, e).value.idMap == Change(st.idMap, e)
    ensures Moved(st, e).Some? ==> ReleasedId(st, e) == IdOf(st.idMap, Gone(e))
    ensures Moved(st, e).Some? ==> TakenId(st, e) == IdOf(Change(st.idMap, e), Came(e))
  {
    hide Coloured, Lowest;
    var d := st;
    if Gone(e).Some? && Drop(st, Gone(e).value).Some? {
      DropColoured(st, Gone(e).value);
      d := Drop(st, Gone(e).value).value.0;
    }
    if Came(e).Some? && Give(d, Came(e).value).Some? {
      GivesLowest(d, Came(e).value);
    }
  }

  // the line that is added has the operation and the sizes of the entry
  lemma EntryShape(st: Parse, e: Entry)
    requires ParseEntry(st, e).Some? && Followed(st, e)
    ensures |ParseEntry(st, e).value.lines| == |st.lines| + 1
    ensures Shape(ParseEntry(st, e).value.lines[|st.lines|]) == CallShape(e.call)
    ensures var st' := ParseEntry(st, e).value;
      st'.most == if st.most < |st'.idMap| then |st'.idMap| else st.most
  {
    hide Min;
  }

  lemma EntrySkipped(st: Parse, e: Entry)
    requires ParseEntry(st, e).Some? && !Followed(st, e)
    ensures ParseEntry(st, e).value.most == st.most
  {
    hide Min;
  }

  /** One entry: it is read exactly if it is legal, and then the ids of the pointers in use, and
      the line that is added, are those that the log tells. */
  lemma EntryRefines(st: Parse, e: Entry)
    requires Coloured(st)
    ensures ParseEntry(st, e).Some? <==> Legal(st.idMap, e)
    ensures ParseEntry(st, e).Some? ==>
      var st' := ParseEntry(st, e).value;
      && Coloured(st') && st'.idMap == Change(st.idMap, e)
      && (!Followed(st, e) ==> st'.lines == st.lines && st'.pid == st.pid && st'.most == st.most)
      && (Followed(st, e) ==>
            && st'.pid == Some(e.pid) && |st'.lines| == |st.lines| + 1 && st.lines == st'.lines[..|st.lines|]
            && IsLine(st.idMap, e, st'.lines[|st.lines|])
            && st'.most == if st.most < |st'.idMap| then |st'.idMap| else st.most)
  {
    hide Coloured, ParseEntry, Moved, Change, Legal, Shape, CallShape;
    EntryMoves(st, e);
    EntryIs(st, e);
    if ParseEntry(st, e).Some? {
      EntryColoured(st, e);
      if Followed(st, e) {
        EntryShape(st, e);
      } else {
        EntrySkipped(st, e);
      }
    }
  }

  lemma FollowedIs(log: seq<Entry>, i: nat, st: Parse)
    requires i < |log| && PidIs(log, i, st.pid)
    ensures Followed(st, log[i]) <==> IsKept(log, i)
    ensures log[i].call == Unknown ==> PidIs(log, i + 1, st.pid)
    ensures Followed(st, log[i]) ==> PidIs(log, i + 1, Some(log[i].pid))
    ensures st.pid.Some? ==> PidIs(log, i + 1, st.pid)
  {
    if st.pid == None && log[i].call != Unknown {
      assert IsFirst(log, i);
    }
    if st.pid.Some? {
      var k: nat :| k < i && IsFirst(log, k) && log[k].pid == st.pid.value;
      forall h: nat | h <= i && IsFirst(log, h) ensures h == k {
        OneFirst(log, h, k);
      }
    }
  }

  lemma OneFirst(log: seq<Entry>, h: nat, k: nat)
    ensures IsFirst(log, h) && IsFirst(log, k) ==> h == k
  {
  }

  lemma MostNext(log: seq<Entry>, i: nat, most: nat)
    requires i < |log| && IsMost(log, i, most)
    ensures IsMost(log, i + 1, if IsKept(log, i) && most < |Held(log, i + 1)| then |Held(log, i + 1)| else most)
  {
    assert InUseAfter(log, i) == |Held(log, i + 1)|;
    hide IsKept, InUseAfter;
    if IsKept(log, i) {
      assert forall k :: k in Kept(log, i + 1) <==> k in Kept(log, i) || k == i;
    }
  }

  lemma LinesNext(log: seq<Entry>, i: nat, lines: seq<Line>, lines': seq<Line>)
    requires i < |log| && LinesOf(log, i, lines)
    requires IsKept(log, i) ==> |lines'| == |lines| + 1 && lines == lines'[..|lines|] && IsLineOf(log, i, lines'[|lines|])
    requires !IsKept(log, i) ==> lines' == lines
    ensures LinesOf(log, i + 1, lines')
  {
    hide IsKept, IsLineOf;
    var k, k' := Kept(log, i), Kept(log, i + 1);
    if IsKept(log, i) {
      forall j | 0 <= j < |lines'| ensures IsLineOf(log, k'[j], lines'[j]) {
        if j < |lines| {
          assert k'[j] == k[j] && lines'[j] == lines[j];
        }
      }
    }
  }

  lemma AtNext(log: seq<Entry>, i: nat, st: Parse)
    requires i < |log| && AtEntry(log, i, st)
    ensures ParseEntry(st, log[i]).Some? <==> Legal(Held(log, i), log[i])
    ensures ParseEntry(st, log[i]).Some? ==> AtEntry(log, i + 1, ParseEntry(st, log[i]).value)
  {
    hide Coloured, ParseEntry, Change, Legal, PidIs, IsKept, IsMost, LinesOf, IsLine, Followed;
    var e := log[i];
    EntryRefines(st, e);
    FollowedIs(log, i, st);
    if ParseEntry(st, e).Some? {
      var st' := ParseEntry(st, e).value;
      MostNext(log, i, st.most);
      LinesNext(log, i, st.lines, st'.lines);
      PidNext(log, i, st, e);
    }
  }

  lemma PidNext(log: seq<Entry>, i: nat, st: Parse, e: Entry)
    requires i < |log| && e == log[i] && PidIs(log, i, st.pid)
    requires st.pid.Some? ==> PidIs(log, i + 1, st.pid)
    requires log[i].call == Unknown ==> PidIs(log, i + 1, st.pid)
    ensures !Followed(st, e) ==> PidIs(log, i + 1, st.pid)
  {
    hide PidIs;
  }

  // ---------- ids of different pointers differ ----------

  lemma {:induction false} HeldApart(log: seq<Entry>, i: nat)
    requires i <= |log|
    ensures forall p, q :: p in Held(log, i) && q in Held(log, i) && p != q ==> Held(log, i)[p] != Held(log, i)[q]
  {
    if i > 0 {
      HeldApart(log, i - 1);
      ChangeApart(Held(log, i - 1), log[i - 1]);
    }
  }

  lemma ChangeApart(ids: map<nat, nat>, e: Entry)
    requires forall p, q :: p in ids && q in ids && p != q ==> ids[p] != ids[q]
    ensures forall p, q :: p in Change(ids, e) && q in Change(ids, e) && p != q ==> Change(ids, e)[p] != Change(ids, e)[q]
  {
    hide Lowest, Gone, Came;
    var rest := Without(ids, e);
    forall p | p in rest ensures rest[p] in rest.Values {
    }
  }

  ghost predicate Injective(ids: map<nat, nat>) {
    forall p, q :: p in ids && q in ids && p != q ==> ids[p] != ids[q]
  }

  // ---------- definitions and uses ----------

  /** Entry b releases the pointer that entry a obtained: none in between releases or obtains it. */
  ghost predicate LogUses(log: seq<Entry>, a: nat, b: nat) {
    a < b < |log| && Came(log[a]).Some? && Gone(log[b]) == Came(log[a]) && Keeps(log, a, b, Came(log[a]).value)
  }

  ghost predicate Keeps(log: seq<Entry>, a: nat, b: nat, ptr: nat) {
    forall k :: a < k < b && k < |log| ==> Gone(log[k]) != Some(ptr) && Came(log[k]) != Some(ptr)
  }

  // the first n entries are legal
  ghost predicate LegalUpTo(log: seq<Entry>, n: nat) {
    n <= |log| && forall i: nat :: i < n ==> Legal(Held(log, i), log[i])
  }

  // as long as an entry neither releases nor obtains it, a pointer keeps its id
  lemma {:induction false} KeepsId(log: seq<Entry>, a: nat, b: nat, ptr: nat)
    requires a < b <= |log| && Keeps(log, a, b, ptr) && ptr in Held(log, a + 1)
    ensures ptr in Held(log, b) && Held(log, b)[ptr] == Held(log, a + 1)[ptr]
  {
    hide Gone, Came, Lowest;
    if b > a + 1 {
      KeepsId(log, a, b - 1, ptr);
    }
  }

  lemma ObtainsId(log: seq<Entry>, a: nat, l: Line)
    requires a < |log| && IsLineOf(log, a, l)
    ensures Came(log[a]).Some? ==> Came(log[a]).value in Held(log, a + 1) && Result(l) == Some(Held(log, a + 1)[Came(log[a]).value])
    ensures Came(log[a]) == None ==> Result(l) == None
  {
    hide Gone, Came, Lowest, Shape, CallShape;
  }

  lemma ReleasesId(log: seq<Entry>, b: nat, l: Line)
    requires b < |log| && IsLineOf(log, b, l) && Legal(Held(log, b), log[b])
    ensures Gone(log[b]).Some? ==> Gone(log[b]).value in Held(log, b) && Input(l) == Some(Held(log, b)[Gone(log[b]).value])
    ensures Gone(log[b]) == None ==> Input(l) == None
  {
    hide Gone, Came, Lowest, Shape, CallShape, Change;
  }

  lemma StaysOne(log: seq<Entry>, k: nat, ptr: nat)
    requires k < |log| && ptr in Held(log, k) && Gone(log[k]) != Some(ptr) && Came(log[k]) != Some(ptr)
    ensures ptr in Held(log, k + 1) && Held(log, k + 1)[ptr] == Held(log, k)[ptr]
  {
    hide Gone, Came, Lowest;
  }

  // an entry that leaves a pointer alone does not mention its id
  lemma OthersIds(log: seq<Entry>, k: nat, l: Line, ptr: nat)
    requires k < |log| && IsLineOf(log, k, l) && Legal(Held(log, k), log[k]) && ptr in Held(log, k)
    requires Gone(log[k]) != Some(ptr) && Came(log[k]) != Some(ptr)
    ensures !Mentions(l, Held(log, k)[ptr])
  {
    hide Gone, Came, IsLineOf, Held;
    ReleasesId(log, k, l);
    ObtainsId(log, k, l);
    StaysOne(log, k, ptr);
    HeldApart(log, k);
    HeldApart(log, k + 1);
  }

  lemma {:induction false} KeptOrder(log: seq<Entry>, n: nat, j: nat, i: nat)
    requires n <= |log| && j < |Kept(log, n)| && i < |Kept(log, n)|
    ensures IsKept(log, Kept(log, n)[j]) && (j < i <==> Kept(log, n)[j] < Kept(log, n)[i])
  {
    hide IsKept;
    var before := Kept(log, n - 1);
    if j < |before| {
      KeptOrder(log, n - 1, j, if i < |before| then i else j);
    } else if i < |before| {
      KeptOrder(log, n - 1, i, i);
    }
  }

  lemma {:induction false} KeptAt(log: seq<Entry>, n: nat, k: nat) returns (j: nat)
    requires k < n <= |log| && IsKept(log, k)
    ensures j < |Kept(log, n)| && Kept(log, n)[j] == k
  {
    hide IsKept;
    if k == n - 1 {
      j := |Kept(log, n - 1)|;
    } else {
      j := KeptAt(log, n - 1, k);
    }
  }

  // the pointer that a kept entry obtains is released by kept entries only, until entry b
  ghost predicate ReleasedByKept(log: seq<Entry>, a: nat, b: nat) {
    a < |log| && forall c: nat :: a < c < b && c < |log| && Gone(log[c]).Some? && Gone(log[c]) == Came(log[a]) ==> IsKept(log, c)
  }

  lemma LogUsesTrace(log: seq<Entry>, n: nat, lines: seq<Line>, j: nat, i: nat)
    requires LegalUpTo(log, n) && LinesOf(log, n, lines) && j < |lines| && i < |lines|
    requires LogUses(log, Kept(log, n)[j], Kept(log, n)[i])
    ensures Uses(lines, j, i)
  {
    hide IsLineOf, Held, Kept, Gone, Came, IsKept, Legal, Mentions;
    var kept := Kept(log, n);
    var a, b, ptr := kept[j], kept[i], Came(log[kept[j]]).value;
    KeptOrder(log, n, j, i);
    ObtainsId(log, a, lines[j]);
    var id := Result(lines[j]).value;
    forall k | j < k < i ensures !Mentions(lines[k], id) {
      KeptOrder(log, n, j, k);
      KeptOrder(log, n, k, i);
      KeepsId(log, a, kept[k], ptr);
      OthersIds(log, kept[k], lines[k], ptr);
    }
    KeepsId(log, a, b, ptr);
    ReleasesId(log, b, lines[i]);
  }

  lemma {:induction false} StillKept(log: seq<Entry>, n: nat, lines: seq<Line>, j: nat, i: nat, c: nat)
    requires LegalUpTo(log, n) && LinesOf(log, n, lines) && Uses(lines, j, i)
    requires j < |lines| && ReleasedByKept(log, Kept(log, n)[j], Kept(log, n)[i]) && Kept(log, n)[j] < c <= Kept(log, n)[i]
    ensures Came(log[Kept(log, n)[j]]).Some? && Keeps(log, Kept(log, n)[j], c, Came(log[Kept(log, n)[j]]).value)
  {
    hide IsLineOf, Held, Kept, Gone, Came, IsKept;
    var a := Kept(log, n)[j];
    ObtainsId(log, a, lines[j]);
    if c > a + 1 {
      StillKept(log, n, lines, j, i, c - 1);
      var ptr := Came(log[a]).value;
      KeepsId(log, a, c - 1, ptr);
      if Gone(log[c - 1]) == Some(ptr) {
        ReleaseMentions(log, n, lines, j, i, c - 1, ptr);
        assert false;
      }
      assert Legal(Held(log, c - 1), log[c - 1]);
    }
  }

  // a kept entry in between that released the pointer would mention its id
  lemma ReleaseMentions(log: seq<Entry>, n: nat, lines: seq<Line>, j: nat, i: nat, c: nat, ptr: nat)
    requires LegalUpTo(log, n) && LinesOf(log, n, lines) && j < |lines| && i < |lines| && Kept(log, n)[j] < c < Kept(log, n)[i]
    requires IsKept(log, c) && ptr in Held(log, c) && Result(lines[j]) == Some(Held(log, c)[ptr])
    ensures Gone(log[c]) == Some(ptr) ==> !Uses(lines, j, i)
  {
    hide IsLineOf, Held, Kept, Gone, Came, IsKept;
    var k := KeptAt(log, n, c);
    KeptOrder(log, n, j, k);
    KeptOrder(log, n, k, i);
    ReleasesId(log, c, lines[k]);
    if Gone(log[c]) == Some(ptr) {
      assert Mentions(lines[k], Held(log, c)[ptr]);
    }
  }

  /** A line of the trace uses what another one defines if and only if its entry releases the
      pointer that the other one's entry obtained. */
  lemma TraceUses(log: seq<Entry>, n: nat, lines: seq<Line>, j: nat, i: nat)
    requires LegalUpTo(log, n) && LinesOf(log, n, lines) && j < |lines| && i < |lines|
    requires ReleasedByKept(log, Kept(log, n)[j], Kept(log, n)[i])
    ensures Uses(lines, j, i) <==> LogUses(log, Kept(log, n)[j], Kept(log, n)[i])
  {
    hide IsLineOf, Held, Kept, Gone, Came, IsKept, ReleasedByKept;
    var a, b := Kept(log, n)[j], Kept(log, n)[i];
    if LogUses(log, a, b) {
      LogUsesTrace(log, n, lines, j, i);
    }
    if Uses(lines, j, i) {
      KeptOrder(log, n, j, i);
      StillKept(log, n, lines, j, i, b);
      ObtainsId(log, a, lines[j]);
      KeepsId(log, a, b, Came(log[a]).value);
      ReleasesId(log, b, lines[i]);
      HeldApart(log, b);
    }
  }

  /** In the log of one process these are all. */
  lemma OneProcess(log: seq<Entry>, a: nat, b: nat)
    requires (forall e, e' :: e in log && e' in log ==> e.pid == e'.pid) && a < |log|
    ensures ReleasedByKept(log, a, b)
  {
    forall c: nat | a < c < b && c < |log| && Gone(log[c]).Some? ensures IsKept(log, c) {
      var k := FirstOf(log, c);
      assert log[k] in log && log[c] in log;
    }
  }

  lemma {:induction false} FirstOf(log: seq<Entry>, c: nat) returns (k: nat)
    requires c < |log| && log[c].call != Unknown
    ensures k <= c && IsFirst(log, k)
  {
    if h: nat :| h < c && log[h].call != Unknown {
      k := FirstOf(log, h);
    } else {
      k := c;
    }
  }
}
