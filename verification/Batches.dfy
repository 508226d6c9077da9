/** Batches: the operations of a batch have their unique ids renamed to slots of a small array,
    which are reused like registers, and are then executed on that array. */
module Batches {
  import opened Options
  import opened Programs
  import opened Traces

  const BATCH_SIZE := 512  // kBatchSize

  // a trace line in one iteration
  datatype Op = Op(line: Line, iteration: nat)

  // the unique ids of an operation in a trace of n lines
  function InputId(op: Op, n: nat): Option<nat> {
    AtIteration(Input(op.line), op.iteration, n)
  }

  function ResultId(op: Op, n: nat): Option<nat> {
    AtIteration(Result(op.line), op.iteration, n)
  }

  // ---------- slots ----------

  ghost predicate IsMin(s: set<nat>, m: nat) {
    m in s && forall x :: x in s ==> m <= x
  }

  lemma {:induction false} MinExists(s: set<nat>)
    requires s != {}
    ensures exists m :: IsMin(s, m)
    decreases s
  {
    var x :| x in s;
    if s == {x} {
      assert forall y :: y in s ==> y == x;
      assert IsMin(s, x);
    } else {
      MinExists(s - {x});
      var m :| IsMin(s - {x}, m);
      assert forall y :: y in s ==> y == x || y in s - {x};
      assert IsMin(s, if x < m then x else m);
    }
  }

  ghost function Min(s: set<nat>): (m: nat)
    requires s != {}
    ensures IsMin(s, m)
  {
    MinExists(s);
    var m :| IsMin(s, m);
    m
  }

  lemma MinIs(s: set<nat>, m: nat)
    requires IsMin(s, m)
    ensures Min(s) == m
  {
  }

  // the numbers below n
  function Below(n: nat): (s: set<nat>)
    ensures |s| == n && forall k: nat :: k in s <==> k < n
  {
    if n == 0 then {} else Below(n - 1) + {n - 1}
  }

  /** UniqueTemporalIdGenerator: numbers from 0 up, of which freed ones are handed out again,
      lowest first.  So the number handed out is always the lowest one that nobody has. */
  class TemporalIds {
    var nextId: nat
    var available: set<nat>

    constructor ()
      ensures nextId == 0 && available == {} && Valid() && InUse() == {}
    {
      nextId, available := 0, {};
    }

    // only numbers that were handed out can be available again
    ghost predicate Valid()
      reads this
    {
      available <= Issued()
    }

    // the numbers that were ever handed out
    ghost function Issued(): set<nat>
      reads this
    {
      Below(nextId)
    }

    // ... and are not freed since
    ghost function InUse(): set<nat>
      reads this
    {
      Issued() - available
    }

    // a number that was never handed out
    method NextUnusedId() returns (id: nat)
      modifies this
      ensures id == old(nextId) && nextId == old(nextId) + 1 && available == old(available)
      ensures id !in old(Issued()) && Issued() == old(Issued()) + {id}
      ensures old(Valid()) ==> Valid() && id !in old(InUse()) && InUse() == old(InUse()) + {id}
    {
      id := nextId;
      nextId := nextId + 1;
    }

    // the lowest number that is not in use
    method NextId() returns (id: nat)
      modifies this
      ensures old(available) != {} ==>
        id == Min(old(available)) && available == old(available) - {id} && nextId == old(nextId)
      ensures old(available) == {} ==> id == old(nextId) && available == {} && nextId == old(nextId) + 1
      ensures old(Valid()) ==>
        && Valid() && id !in old(InUse()) && InUse() == old(InUse()) + {id}
        && forall k :: 0 <= k < id ==> k in old(InUse())
    {
      hide Below, Min;
      if available != {} {
        MinExists(available);
        id :| id in available && forall x :: x in available ==> id <= x;
        MinIs(available, id);
        available := available - {id};
      } else {
        id := NextUnusedId();
      }
    }

    // the number is not in use any more
    method FreeId(id: nat)
      modifies this
      ensures available == old(available) + {id} && nextId == old(nextId)
      ensures InUse() == old(InUse()) - {id} && Issued() == old(Issued())
      ensures old(Valid()) && id in old(Issued()) ==> Valid()
    {
      available := available + {id};
    }
  }

  // ---------- renaming, as a function ----------

  /** What preparing operations has come to: the slot generator, the slot of each id produced and
      not consumed so far, what is left in the global map, the pointers imported into slots, and
      the renamed lines. */
  datatype Prep = Prep(next: nat, avail: set<nat>, idx: map<nat, nat>, glob: map<nat, nat>,
                       imports: map<nat, nat>, out: seq<Line>)

  ghost function PrepInput(st: Prep, id: nat): Option<(Prep, nat)> {
    if id in st.idx then
      var k := st.idx[id];
      Some((st.(idx := st.idx - {id}, avail := st.avail + {k}), k))
    else if id in st.glob then
      Some((st.(next := st.next + 1, avail := st.avail + {st.next}, glob := st.glob - {id},
                imports := st.imports[st.next := st.glob[id]]), st.next))
    else None
  }

  ghost function PrepResult(st: Prep, id: nat): Option<(Prep, nat)> {
    if id in st.idx then None
    else if st.avail != {} then
      var k := Min(st.avail);
      Some((st.(avail := st.avail - {k}, idx := st.idx[id := k]), k))
    else Some((st.(next := st.next + 1, idx := st.idx[id := st.next]), st.next))
  }

  ghost function PrepOp(st: Prep, op: Op, n: nat): Option<Prep> {
    var inp := InputId(op, n);
    var a := if inp.Some? then PrepInput(st, inp.value) else Some((st, 0));
    if a == None then None
    else
      var line := if inp.Some? then SetInput(op.line, a.value.1) else op.line;
      var res := ResultId(op, n);
      var b := if res.Some? then PrepResult(a.value.0, res.value) else Some((a.value.0, 0));
      if b == None then None
      else Some(b.value.0.(out := st.out + [if res.Some? then SetResult(line, b.value.1) else line]))
  }

  // the first i operations
  ghost function PrepOps(ops: seq<Op>, n: nat, glob: map<nat, nat>, i: nat): Option<Prep>
    requires i <= |ops|
  {
    if i == 0 then Some(Prep(0, {}, map[], glob, map[], []))
    else
      var st := PrepOps(ops, n, glob, i - 1);
      if st == None then None else PrepOp(st.value, ops[i - 1], n)
  }

  // ---------- execution on the slots, and on the ids themselves ----------

  // DoMalloc and DoCalloc store no pointer for a request of no bytes
  predicate Stores(l: Line) {
    match l
    case Malloc(r, size) => r.Some? && size != 0
    case Calloc(r, nmemb, size) => r.Some? && nmemb != 0 && size != 0
    case Realloc(_, _, _) => true
    case Free(_) => false
    case NotSet => false
  }

  // one operation, on the slots and by id
  function SlotStep(slots: map<nat, nat>, l: Line, r: nat): map<nat, nat> {
    if Stores(l) && Result(l).Some? then slots[Result(l).value := r] else slots
  }

  function IdStep(ids: map<nat, nat>, op: Op, n: nat, r: nat): map<nat, nat> {
    var inp, res := InputId(op, n), ResultId(op, n);
    var released := if inp.Some? then ids - {inp.value} else ids;
    if res.Some? then released[res.value := r] else released
  }

  // the slots after i operations; results[k] is the pointer that the allocator returns to operation k
  ghost function Slots(imports: map<nat, nat>, out: seq<Line>, results: seq<nat>, i: nat): map<nat, nat>
    requires i <= |out| && i <= |results|
  {
    if i == 0 then imports else SlotStep(Slots(imports, out, results, i - 1), out[i - 1], results[i - 1])
  }

  // the pointers by unique id after i operations
  ghost function ById(ops: seq<Op>, n: nat, glob: map<nat, nat>, results: seq<nat>, i: nat): map<nat, nat>
    requires i <= |ops| && i <= |results|
  {
    if i == 0 then glob else IdStep(ById(ops, n, glob, results, i - 1), ops[i - 1], n, results[i - 1])
  }

  // ---------- the slots are assigned soundly ----------

  // no two ids share a slot, and no used slot is free
  ghost predicate Assigned(st: Prep) {
    && (forall k :: k in st.avail ==> k < st.next)
    && (forall id :: id in st.idx ==> st.idx[id] < st.next && st.idx[id] !in st.avail)
    && (forall id, id' :: id in st.idx && id' in st.idx && id != id' ==> st.idx[id] != st.idx[id'])
    && (forall k :: k in st.imports ==> k < st.next)
  }

  lemma InputAssigned(st: Prep, id: nat)
    requires Assigned(st) && PrepInput(st, id).Some?
    ensures Assigned(PrepInput(st, id).value.0) && PrepInput(st, id).value.1 in PrepInput(st, id).value.0.avail
    ensures PrepInput(st, id).value.0.next <= st.next + 1
    ensures id !in PrepInput(st, id).value.0.idx
  {
  }

  lemma ResultAssigned(st: Prep, id: nat)
    requires Assigned(st) && PrepResult(st, id).Some?
    ensures Assigned(PrepResult(st, id).value.0) && PrepResult(st, id).value.1 < PrepResult(st, id).value.0.next
    ensures st.next <= PrepResult(st, id).value.0.next <= st.next + if st.avail == {} then 1 else 0
  {
  }

  // one operation takes at most one new slot: a realloc that imports a pointer reuses its slot
  lemma OpAssigned(st: Prep, op: Op, n: nat)
    requires Assigned(st) && PrepOp(st, op, n).Some?
    ensures Assigned(PrepOp(st, op, n).value) && PrepOp(st, op, n).value.next <= st.next + 1
    ensures |PrepOp(st, op, n).value.out| == |st.out| + 1 && st.out == PrepOp(st, op, n).value.out[..|st.out|]
    ensures var l := PrepOp(st, op, n).value.out[|st.out|];
      && (Input(l).Some? ==> Input(l).value < PrepOp(st, op, n).value.next)
      && (Result(l).Some? ==> Result(l).value < PrepOp(st, op, n).value.next)
  {
    hide Assigned, PrepInput, PrepResult;
    var inp, res := InputId(op, n), ResultId(op, n);
    var a := if inp.Some? then PrepInput(st, inp.value) else Some((st, 0));
    if inp.Some? {
      InputAssigned(st, inp.value);
      InputBelow(st, inp.value);
    }
    if res.Some? {
      ResultAssigned(a.value.0, res.value);
    }
    OutKept(st, op, n);
    var b := if res.Some? then PrepResult(a.value.0, res.value) else Some((a.value.0, 0));
    AssignedOut(b.value.0, PrepOp(st, op, n).value.out);
  }

  lemma AssignedOut(st: Prep, out: seq<Line>)
    requires Assigned(st)
    ensures Assigned(st.(out := out))
  {
  }

  lemma InputBelow(st: Prep, id: nat)
    requires Assigned(st) && PrepInput(st, id).Some?
    ensures PrepInput(st, id).value.1 < PrepInput(st, id).value.0.next
  {
  }

  lemma OutKept(st: Prep, op: Op, n: nat)
    requires PrepOp(st, op, n).Some?
    ensures |PrepOp(st, op, n).value.out| == |st.out| + 1 && st.out == PrepOp(st, op, n).value.out[..|st.out|]
  {
    hide PrepInput, PrepResult;
  }

  // ---------- only ids are renamed ----------

  /** The lines are those of the operations, of the same kinds, with the same sizes, and with an
      input and a result where they had one. */
  ghost predicate KeepsLines(ops: seq<Op>, out: seq<Line>) {
    |out| <= |ops| && forall k :: 0 <= k < |out| ==> Shape(out[k]) == Shape(ops[k].line)
  }

  lemma SetShapes(l: Line, id: nat)
    ensures Input(l).Some? ==> Shape(SetInput(l, id)) == Shape(l)
    ensures Result(l).Some? ==> Shape(SetResult(l, id)) == Shape(l)
    ensures Result(SetInput(l, id)) == Result(l)
  {
  }

  lemma OpShape(st: Prep, op: Op, n: nat)
    requires PrepOp(st, op, n).Some?
    ensures PrepOp(st, op, n).value.out == st.out + [PrepOp(st, op, n).value.out[|st.out|]]
    ensures Shape(PrepOp(st, op, n).value.out[|st.out|]) == Shape(op.line)
  {
    hide PrepInput, PrepResult, SetInput, SetResult, Shape;
    OutKept(st, op, n);
    var inp, res := InputId(op, n), ResultId(op, n);
    var k := if inp.Some? then PrepInput(st, inp.value).value.1 else 0;
    var a := if inp.Some? then PrepInput(st, inp.value).value.0 else st;
    var line := if inp.Some? then SetInput(op.line, k) else op.line;
    SetShapes(op.line, k);
    SetShapes(line, if res.Some? then PrepResult(a, res.value).value.1 else 0);
  }

  lemma {:induction false} PreparedShapes(ops: seq<Op>, n: nat, glob: map<nat, nat>, i: nat, st: Prep)
    requires i <= |ops| && Prepared(ops, n, glob, i, st)
    ensures |st.out| == i && KeepsLines(ops, st.out)
  {
    if i > 0 {
      hide PrepOp, Shape;
      var before := PrepOps(ops, n, glob, i - 1).value;
      PreparedShapes(ops, n, glob, i - 1, before);
      OpShape(before, ops[i - 1], n);
    } else {
      assert st == Prep(0, {}, map[], glob, map[], []);
    }
  }

  // ---------- when preparing succeeds ----------

  lemma InputKeys(st: Prep, id: nat)
    ensures PrepInput(st, id).Some? <==> id in st.idx || id in st.glob
    ensures PrepInput(st, id).Some? ==> PrepInput(st, id).value.0.idx.Keys == st.idx.Keys - {id}
  {
  }

  lemma ResultKeys(st: Prep, id: nat)
    ensures PrepResult(st, id).Some? <==> id !in st.idx
    ensures PrepResult(st, id).Some? ==> PrepResult(st, id).value.0.idx.Keys == st.idx.Keys + {id}
  {
  }

  /** An operation can be prepared exactly when its input is produced in the batch or has a
      pointer in the global map, and its result is not in use in the batch; then the ids in use
      lose the input and gain the result. */
  lemma OpPrepares(st: Prep, op: Op, n: nat)
    ensures var inp, res := InputId(op, n), ResultId(op, n);
      var gone := if inp.Some? then {inp.value} else {};
      && (PrepOp(st, op, n).Some? <==>
            && (inp.Some? ==> inp.value in st.idx || inp.value in st.glob)
            && (res.Some? ==> res.value !in st.idx.Keys - gone))
      && (PrepOp(st, op, n).Some? ==>
            PrepOp(st, op, n).value.idx.Keys == st.idx.Keys - gone + if res.Some? then {res.value} else {})
  {
    hide PrepInput, PrepResult, InputId, ResultId, SetInput, SetResult;
    var inp, res := InputId(op, n), ResultId(op, n);
    var a := if inp.Some? then PrepInput(st, inp.value) else Some((st, 0));
    if inp.Some? {
      InputKeys(st, inp.value);
    }
    if a.Some? && res.Some? {
      ResultKeys(a.value.0, res.value);
    }
  }

  // ---------- renaming preserves meaning ----------

  /** Before an operation, the slots and the map by id agree: ids produced in the batch are in
      their slots, the others are as the global map has them, and the slots not handed out yet
      hold what will be imported into them. */
  ghost predicate Agree(st: Prep, slots: map<nat, nat>, ids: map<nat, nat>, imports: map<nat, nat>) {
    && st.idx.Keys !! st.glob.Keys && ids.Keys == st.idx.Keys + st.glob.Keys
    && (forall id :: id in st.idx ==> st.idx[id] in slots && slots[st.idx[id]] == ids[id])
    && (forall id :: id in st.glob ==> ids[id] == st.glob[id])
    && (forall k :: k >= st.next && k in imports ==> k in slots && slots[k] == imports[k])
  }

  ghost predicate Within(a: map<nat, nat>, b: map<nat, nat>) {
    forall k :: k in a ==> k in b && b[k] == a[k]
  }

  // the pointer in the slot is the one of the id
  lemma AgreeInput(st: Prep, id: nat, slots: map<nat, nat>, ids: map<nat, nat>, imports: map<nat, nat>)
    requires Agree(st, slots, ids, imports) && PrepInput(st, id).Some?
    requires Within(PrepInput(st, id).value.0.imports, imports)
    ensures id in ids && PrepInput(st, id).value.1 in slots && slots[PrepInput(st, id).value.1] == ids[id]
    ensures Agree(PrepInput(st, id).value.0, slots, ids - {id}, imports)
  {
    var st', k := PrepInput(st, id).value.0, PrepInput(st, id).value.1;
    if id !in st.idx {
      assert k in st'.imports;
    }
    assert (ids - {id}).Keys == ids.Keys - {id};
  }

  lemma AgreeResult(st: Prep, id: nat, slots: map<nat, nat>, ids: map<nat, nat>, imports: map<nat, nat>, r: nat)
    requires Agree(st, slots, ids, imports) && Assigned(st) && PrepResult(st, id).Some? && id !in st.glob
    ensures Agree(PrepResult(st, id).value.0, slots[PrepResult(st, id).value.1 := r], ids[id := r], imports)
  {
  }

  // the trace guarantees it: an id is produced once
  ghost predicate NewResult(op: Op, n: nat, glob: map<nat, nat>) {
    ResultId(op, n).Some? ==> ResultId(op, n).value !in glob
  }

  ghost predicate NonZero(l: Line) {
    Result(l).Some? ==> Stores(l)
  }

  // the renamed line
  lemma RenamedLine(st: Prep, op: Op, n: nat) returns (a: Prep, k: nat, m: nat)
    requires PrepOp(st, op, n).Some?
    ensures var l := PrepOp(st, op, n).value.out[|PrepOp(st, op, n).value.out| - 1];
      var inp, res := InputId(op, n), ResultId(op, n);
      && (inp.Some? ==> PrepInput(st, inp.value) == Some((a, k)) && Input(l) == Some(k))
      && (inp == None ==> a == st && Input(l) == None)
      && (res.Some? ==> PrepResult(a, res.value).Some? && PrepResult(a, res.value).value.1 == m && Result(l) == Some(m))
      && (res == None ==> Result(l) == None)
      && Stores(l) == Stores(op.line)
      && PrepOp(st, op, n).value ==
           (if res.Some? then PrepResult(a, res.value).value.0 else a).(out := PrepOp(st, op, n).value.out)
      && (res.Some? ==> PrepResult(a, res.value).value.0.imports == a.imports)
  {
    hide PrepInput;
    var inp, res := InputId(op, n), ResultId(op, n);
    a := if inp.Some? then PrepInput(st, inp.value).value.0 else st;
    k := if inp.Some? then PrepInput(st, inp.value).value.1 else 0;
    m := if res.Some? then PrepResult(a, res.value).value.1 else 0;
  }

  lemma AgreeStep(st: Prep, op: Op, n: nat, slots: map<nat, nat>, ids: map<nat, nat>, imports: map<nat, nat>, r: nat)
    requires Agree(st, slots, ids, imports) && Assigned(st) && PrepOp(st, op, n).Some?
    requires NewResult(op, n, st.glob) && NonZero(op.line) && Within(PrepOp(st, op, n).value.imports, imports)
    ensures var st' := PrepOp(st, op, n).value;
      var l := st'.out[|st.out|];
      && |st'.out| == |st.out| + 1
      && Agree(st', SlotStep(slots, l, r), IdStep(ids, op, n, r), imports)
      && (Input(l).Some? == InputId(op, n).Some?)
      && (Input(l).Some? ==>
           Input(l).value in slots && InputId(op, n).value in ids && slots[Input(l).value] == ids[InputId(op, n).value])
  {
    hide Agree, Assigned, PrepInput, PrepResult, PrepOp, Within;
    OutKept(st, op, n);
    var a, k, m := RenamedLine(st, op, n);
    var inp, res := InputId(op, n), ResultId(op, n);
    if inp.Some? {
      InputAssigned(st, inp.value);
      GlobLess(st, inp.value);
      AgreeInput(st, inp.value, slots, ids, imports);
    }
    var released := if inp.Some? then ids - {inp.value} else ids;
    if res.Some? {
      AgreeResult(a, res.value, slots, released, imports, r);
      AgreeOut(PrepResult(a, res.value).value.0, slots[m := r], released[res.value := r], imports, PrepOp(st, op, n).value.out);
    } else {
      AgreeOut(a, slots, released, imports, PrepOp(st, op, n).value.out);
    }
  }

  lemma GlobLess(st: Prep, id: nat)
    requires PrepInput(st, id).Some?
    ensures PrepInput(st, id).value.0.glob.Keys <= st.glob.Keys
  {
  }

  lemma AgreeOut(st: Prep, slots: map<nat, nat>, ids: map<nat, nat>, imports: map<nat, nat>, out: seq<Line>)
    requires Agree(st, slots, ids, imports)
    ensures Agree(st.(out := out), slots, ids, imports)
  {
  }

  // ---------- whole batches ----------

  ghost predicate Prepared(ops: seq<Op>, n: nat, glob: map<nat, nat>, i: nat, st: Prep)
    requires i <= |ops|
  {
    PrepOps(ops, n, glob, i) == Some(st)
  }

  // after i operations: slots are assigned soundly, and fewer than i + 1 of them
  lemma {:induction false} PreparedOk(ops: seq<Op>, n: nat, glob: map<nat, nat>, i: nat, st: Prep)
    requires i <= |ops| && Prepared(ops, n, glob, i, st)
    ensures Assigned(st) && st.next <= i && |st.out| == i && st.glob.Keys <= glob.Keys
    ensures forall k :: 0 <= k < i && Input(st.out[k]).Some? ==> Input(st.out[k]).value < i
    ensures forall k :: 0 <= k < i && Result(st.out[k]).Some? ==> Result(st.out[k]).value < i
  {
    if i > 0 {
      hide PrepOp, Assigned;
      var before := PrepOps(ops, n, glob, i - 1).value;
      PreparedOk(ops, n, glob, i - 1, before);
      OpAssigned(before, ops[i - 1], n);
      OpKeeps(before, ops[i - 1], n);
    } else {
      assert st == Prep(0, {}, map[], glob, map[], []);
    }
  }

  lemma OpKeeps(st: Prep, op: Op, n: nat)
    requires PrepOp(st, op, n).Some? && Assigned(st)
    ensures PrepOp(st, op, n).value.glob.Keys <= st.glob.Keys
    ensures Within(st.imports, PrepOp(st, op, n).value.imports)
  {
    hide PrepOp;
    var a, k, m := RenamedLine(st, op, n);
    var inp, res := InputId(op, n), ResultId(op, n);
    if res.Some? {
      assert PrepResult(a, res.value).value.0.glob == a.glob;
    }
  }

  // what has been prepared stays
  lemma {:induction false} PreparedBefore(ops: seq<Op>, n: nat, glob: map<nat, nat>, i: nat, j: nat, st: Prep)
    returns (before: Prep)
    requires i <= j <= |ops| && Prepared(ops, n, glob, j, st)
    ensures Prepared(ops, n, glob, i, before) && Within(before.imports, st.imports) && |st.out| == j
    ensures before.out == st.out[..i]
  {
    PreparedOk(ops, n, glob, j, st);
    before := st;
    if i < j {
      hide PrepOp, Assigned;
      var last := PrepOps(ops, n, glob, j - 1).value;
      PreparedOk(ops, n, glob, j - 1, last);
      OpKeeps(last, ops[j - 1], n);
      OutKept(last, ops[j - 1], n);
      before := PreparedBefore(ops, n, glob, i, j - 1, last);
      assert st.out[..i] == st.out[..j - 1][..i];
    }
  }

  ghost predicate Sound(ops: seq<Op>, n: nat, glob: map<nat, nat>) {
    forall i :: 0 <= i < |ops| ==> NewResult(ops[i], n, glob) && NonZero(ops[i].line)
  }

  lemma {:induction false} AgreeAfter(ops: seq<Op>, n: nat, glob: map<nat, nat>, results: seq<nat>, st: Prep, i: nat, cur: Prep)
    requires |results| == |ops| && Sound(ops, n, glob) && Prepared(ops, n, glob, |ops|, st)
    requires i <= |ops| && Prepared(ops, n, glob, i, cur) && |st.out| == |ops|
    ensures Agree(cur, Slots(st.imports, st.out, results, i), ById(ops, n, glob, results, i), st.imports)
  {
    if i > 0 {
      hide Sound, Agree;
      var before := PrepOps(ops, n, glob, i - 1).value;
      AgreeAfter(ops, n, glob, results, st, i - 1, before);
      AgreeNext(ops, n, glob, results, st, i - 1, before, cur);
    }
  }

  lemma SameAfter(ops: seq<Op>, n: nat, glob: map<nat, nat>, results: seq<nat>, st: Prep, i: nat)
    requires |results| == |ops| && Sound(ops, n, glob) && Prepared(ops, n, glob, |ops|, st)
    requires i < |ops| == |st.out|
    ensures SamePointer(ops, n, glob, results, st, i)
  {
    hide Sound, Agree, SamePointer;
    var cur := PreparedBefore(ops, n, glob, i, |ops|, st);
    var next := PreparedBefore(ops, n, glob, i + 1, |ops|, st);
    AgreeAfter(ops, n, glob, results, st, i, cur);
    AgreeNext(ops, n, glob, results, st, i, cur, next);
  }

  // operation i gets the same pointer from its slot as from its id
  ghost predicate SamePointer(ops: seq<Op>, n: nat, glob: map<nat, nat>, results: seq<nat>, st: Prep, i: nat)
    requires i < |ops| == |results| == |st.out|
  {
    var slots, ids := Slots(st.imports, st.out, results, i), ById(ops, n, glob, results, i);
    var inp := Input(st.out[i]);
    && inp.Some? == InputId(ops[i], n).Some?
    && (inp.Some? ==> inp.value in slots && InputId(ops[i], n).value in ids
                      && slots[inp.value] == ids[InputId(ops[i], n).value])
  }

  lemma AgreeNext(ops: seq<Op>, n: nat, glob: map<nat, nat>, results: seq<nat>, st: Prep, i: nat, cur: Prep, next: Prep)
    requires |results| == |ops| == |st.out| && Sound(ops, n, glob) && Prepared(ops, n, glob, |ops|, st)
    requires i < |ops| && Prepared(ops, n, glob, i, cur) && Prepared(ops, n, glob, i + 1, next)
    requires Agree(cur, Slots(st.imports, st.out, results, i), ById(ops, n, glob, results, i), st.imports)
    ensures Agree(next, Slots(st.imports, st.out, results, i + 1), ById(ops, n, glob, results, i + 1), st.imports)
    ensures SamePointer(ops, n, glob, results, st, i)
  {
    hide Agree, Assigned, PrepOp, Within, NonZero;
    PreparedOk(ops, n, glob, i, cur);
    var b := PreparedBefore(ops, n, glob, i + 1, |ops|, st);
    assert next.out[i] == st.out[i];
    AgreeStep(cur, ops[i], n, Slots(st.imports, st.out, results, i), ById(ops, n, glob, results, i), st.imports, results[i]);
  }

  // after the batch, AllocationsToRecord yields the pointers of the ids that are left
  ghost predicate Records(ops: seq<Op>, n: nat, glob: map<nat, nat>, results: seq<nat>, st: Prep)
    requires |results| == |ops| == |st.out|
  {
    var slots, ids := Slots(st.imports, st.out, results, |ops|), ById(ops, n, glob, results, |ops|);
    && ids.Keys == st.idx.Keys + st.glob.Keys && st.idx.Keys !! st.glob.Keys
    && (forall id :: id in st.idx ==> st.idx[id] in slots && slots[st.idx[id]] == ids[id])
    && (forall id :: id in st.glob ==> ids[id] == st.glob[id])
  }

  // the renamed batch does on the slots what the batch does by id
  ghost predicate Faithful(ops: seq<Op>, n: nat, glob: map<nat, nat>, results: seq<nat>, st: Prep)
    requires |results| == |ops| == |st.out|
  {
    (forall i :: 0 <= i < |ops| ==> SamePointer(ops, n, glob, results, st, i)) && Records(ops, n, glob, results, st)
  }

  /** Executing the renamed operations on the slots gives every realloc and free the pointer that
      executing the original ones by unique id gives it, for any allocator, and afterwards the
      slots hold the pointers of exactly the ids produced in the batch and not consumed in it. */
  lemma RenamingPreservesMeaning(ops: seq<Op>, n: nat, glob: map<nat, nat>, results: seq<nat>, st: Prep)
    requires |results| == |ops| && Sound(ops, n, glob) && Prepared(ops, n, glob, |ops|, st)
    ensures |st.out| == |ops| && Faithful(ops, n, glob, results, st)
  {
    PreparedOk(ops, n, glob, |ops|, st);
    AgreeAfter(ops, n, glob, results, st, |ops|, st);
    hide SamePointer;
    forall i | 0 <= i < |ops| ensures SamePointer(ops, n, glob, results, st, i) {
      SameAfter(ops, n, glob, results, st, i);
    }
  }

  // ---------- requests of no bytes ----------

  // where the id that operation k produces is consumed in the batch, or |ops|
  lemma {:induction false} NextUse(ops: seq<Op>, n: nat, glob: map<nat, nat>, k: nat, j: nat, cur: Prep, id: nat, st: Prep)
    returns (c: nat)
    requires Prepared(ops, n, glob, |ops|, st) && k < j <= |ops| && Prepared(ops, n, glob, j, cur) && id in cur.idx
    ensures j <= c <= |ops| && (c < |ops| ==> InputId(ops[c], n) == Some(id)) && (c == |ops| ==> id in st.idx)
    ensures forall i :: j <= i < c ==> InputId(ops[i], n) != Some(id) && ResultId(ops[i], n) != Some(id)
    decreases |ops| - j
  {
    if j == |ops| || InputId(ops[j], n) == Some(id) {
      c := j;
    } else {
      hide PrepOp;
      var next := PreparedBefore(ops, n, glob, j + 1, |ops|, st);
      IdStays(cur, ops[j], n, id);
      c := NextUse(ops, n, glob, k, j + 1, next, id, st);
    }
  }

  lemma IdStays(st: Prep, op: Op, n: nat, id: nat)
    requires id in st.idx && PrepOp(st, op, n).Some? && InputId(op, n) != Some(id)
    ensures id in PrepOp(st, op, n).value.idx && ResultId(op, n) != Some(id)
  {
    hide PrepOp;
    var a, k, m := RenamedLine(st, op, n);
  }

  lemma ResultIn(st: Prep, op: Op, n: nat)
    requires PrepOp(st, op, n).Some? && ResultId(op, n).Some?
    ensures ResultId(op, n).value in PrepOp(st, op, n).value.idx
  {
    hide PrepOp;
    var a, k, m := RenamedLine(st, op, n);
  }

  // until then it stands for the pointer that operation k returned
  lemma {:induction false} StillThere(ops: seq<Op>, n: nat, glob: map<nat, nat>, results: seq<nat>, k: nat, i: nat, id: nat)
    requires |results| == |ops| && k < i <= |ops| && ResultId(ops[k], n) == Some(id)
    requires forall j :: k < j < i ==> InputId(ops[j], n) != Some(id) && ResultId(ops[j], n) != Some(id)
    ensures id in ById(ops, n, glob, results, i) && ById(ops, n, glob, results, i)[id] == results[k]
  {
    hide InputId, ResultId;
    if i > k + 1 {
      StillThere(ops, n, glob, results, k, i - 1, id);
    }
  }

  // an operation that stores nothing leaves no trace of its result in the slots
  lemma {:induction false} SlotsBlind(imports: map<nat, nat>, out: seq<Line>, r: seq<nat>, k: nat, v: nat, i: nat)
    requires i <= |out| == |r| && k < |r| && !(Stores(out[k]) && Result(out[k]).Some?)
    ensures Slots(imports, out, r, i) == Slots(imports, out, r[k := v], i)
  {
    if i > 0 {
      SlotsBlind(imports, out, r, k, v, i - 1);
    }
  }

  lemma OutStores(ops: seq<Op>, n: nat, glob: map<nat, nat>, st: Prep, k: nat)
    requires Prepared(ops, n, glob, |ops|, st) && k < |ops| == |st.out|
    ensures Stores(st.out[k]) == Stores(ops[k].line)
  {
    hide PrepOp;
    var cur := PreparedBefore(ops, n, glob, k, |ops|, st);
    var next := PreparedBefore(ops, n, glob, k + 1, |ops|, st);
    PreparedOk(ops, n, glob, k + 1, next);
    var a, i, m := RenamedLine(cur, ops[k], n);
    assert next.out[k] == st.out[k];
  }

  // a result that is not stored makes the batch go wrong for some allocator
  lemma UnstoredIsUnfaithful(ops: seq<Op>, n: nat, glob: map<nat, nat>, st: Prep, k: nat, r: seq<nat>)
    requires Prepared(ops, n, glob, |ops|, st) && |st.out| == |ops| == |r| && k < |ops| && !NonZero(ops[k].line)
    ensures !Faithful(ops, n, glob, r, st) || !Faithful(ops, n, glob, r[k := r[k] + 1], st)
  {
    hide PrepOp;
    var id := ResultId(ops[k], n).value;
    var cur := PreparedBefore(ops, n, glob, k, |ops|, st);
    var next := PreparedBefore(ops, n, glob, k + 1, |ops|, st);
    ResultIn(cur, ops[k], n);
    var c := NextUse(ops, n, glob, k, k + 1, next, id, st);
    var r' := r[k := r[k] + 1];
    OutStores(ops, n, glob, st, k);
    SlotsBlind(st.imports, st.out, r, k, r[k] + 1, c);
    StillThere(ops, n, glob, r, k, c, id);
    StillThere(ops, n, glob, r', k, c, id);
    hide Slots, ById;
    if c < |ops| {
      assert !SamePointer(ops, n, glob, r, st, c) || !SamePointer(ops, n, glob, r', st, c);
    }
  }

  /** For a batch that can be prepared, renaming is faithful to every allocator exactly when no
      operation of it produces an id for a request of no bytes. */
  lemma FaithfulIff(ops: seq<Op>, n: nat, glob: map<nat, nat>, st: Prep)
    requires Prepared(ops, n, glob, |ops|, st) && |st.out| == |ops|
    requires forall i :: 0 <= i < |ops| ==> NewResult(ops[i], n, glob)
    ensures (forall results: seq<nat> | |results| == |ops| :: Faithful(ops, n, glob, results, st)) <==>
      (forall i :: 0 <= i < |ops| ==> NonZero(ops[i].line))
  {
    hide Faithful, NonZero, PrepOps, NewResult;
    if forall i :: 0 <= i < |ops| ==> NonZero(ops[i].line) {
      forall results: seq<nat> | |results| == |ops| ensures Faithful(ops, n, glob, results, st) {
        RenamingPreservesMeaning(ops, n, glob, results, st);
      }
    }
    if k: nat :| k < |ops| && !NonZero(ops[k].line) {
      var r: seq<nat> := seq(|ops|, _ => 0);
      UnstoredIsUnfaithful(ops, n, glob, st, k, r);
      var r' := r[k := r[k] + 1];
      assert |r| == |ops| && |r'| == |ops|;
    }
  }

  // a first operation without input gets slot 0
  lemma FirstResult(op: Op, n: nat, id: nat)
    requires InputId(op, n) == None && ResultId(op, n) == Some(id)
    ensures PrepOp(Prep(0, {}, map[], map[], map[], []), op, n)
      == Some(Prep(1, {}, map[id := 0], map[], map[], [SetResult(op.line, 0)]))
  {
    hide InputId, ResultId, SetResult, SetInput;
    var st := Prep(0, {}, map[], map[], map[], []);
    assert st.idx[id := 0] == map[id := 0];
    assert st.out + [SetResult(op.line, 0)] == [SetResult(op.line, 0)];
  }

  // a batch that goes wrong: malloc(0) alone, whose slot nothing writes, is recorded all the same
  lemma ZeroSizeGoesWrong()
    ensures var ops, st := [Op(Malloc(Some(1), 0), 0)], Prep(1, {}, map[1 := 0], map[], map[], [Malloc(Some(0), 0)]);
      Prepared(ops, 4, map[], 1, st) && !Faithful(ops, 4, map[], [100], st)
  {
    var ops, st := [Op(Malloc(Some(1), 0), 0)], Prep(1, {}, map[1 := 0], map[], map[], [Malloc(Some(0), 0)]);
    FirstResult(ops[0], 4, 1);
    hide PrepOp;
    assert PrepOps(ops, 4, map[], 0) == Some(Prep(0, {}, map[], map[], map[], []));
    assert Slots(map[], st.out, [100], 0) == map[];
    assert Slots(map[], st.out, [100], 1) == map[];
    assert 1 in st.idx;
  }
}
