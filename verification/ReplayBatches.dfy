/** The batches that the replay forms are prepared and executed as `Batches` has it, and every
    operation is passed the pointer that the operation before it returned. */
module ReplayBatches {
  import opened Batches
  import opened Options
  import opened Programs
  import opened ReplayInvariants
  import opened Replays
  import opened ReplaySteps
  import opened ReplayTheorems
  import opened Traces
  import opened TraceRewrites

  // ---------- a batch by itself ----------

  // the lines and iterations of the operations in a batch
  function Ops(lines: seq<Line>, batch: seq<nat>): seq<Op>
    requires |lines| > 0
  {
    seq(|batch|, k requires 0 <= k < |batch| => Op(lines[LineOf(batch[k], |lines|)], IterationOf(batch[k], |lines|)))
  }

  // what the allocator returns to them, if it returns ret[g] to operation g
  function Returned(batch: seq<nat>, ret: seq<nat>): seq<nat>
    requires forall k :: 0 <= k < |batch| ==> batch[k] < |ret|
  {
    seq(|batch|, k requires 0 <= k < |batch| => ret[batch[k]])
  }

  ghost predicate Stands(prog: Program, n: nat, batch: seq<nat>, ops: seq<Op>) {
    |ops| == |batch| && |prog.inp| == |prog.out| && forall k :: 0 <= k < |batch| ==> StandsAt(prog, n, batch[k], ops[k])
  }

  ghost predicate StandsAt(prog: Program, n: nat, g: nat, op: Op) {
    g < |prog.inp| && g < |prog.out| && InputId(op, n) == prog.inp[g] && ResultId(op, n) == prog.out[g]
  }

  ghost predicate Consumes(prog: Program, batch: seq<nat>, n: nat, u: nat) {
    exists j: nat :: ConsumesAt(prog, batch, n, u, j)
  }

  ghost predicate ConsumesAt(prog: Program, batch: seq<nat>, n: nat, u: nat, j: nat) {
    j < n && j < |batch| && batch[j] < |prog.inp| && prog.inp[batch[j]] == Some(u)
  }

  /** A batch can start with pointers for some ids: each input has one, or is produced earlier in
      the batch, and no result has one. */
  ghost predicate Startable(prog: Program, batch: seq<nat>, keys: set<nat>) {
    && (forall j, k :: 0 <= j < k < |batch| ==> batch[j] != batch[k])
    && (forall k, u :: 0 <= k < |batch| && HasInputAt(prog, batch[k], u) ==> u in keys || Produces(prog, batch, k, u))
    && (forall k, u :: 0 <= k < |batch| && HasResultAt(prog, batch[k], u) ==> u !in keys)
  }

  ghost predicate HasInputAt(prog: Program, g: nat, u: nat) {
    g < |prog.inp| && prog.inp[g] == Some(u)
  }

  ghost predicate HasResultAt(prog: Program, g: nat, u: nat) {
    g < |prog.out| && prog.out[g] == Some(u)
  }

  // ids and pointers after i operations
  ghost predicate InUse(prog: Program, batch: seq<nat>, keys: set<nat>, i: nat, u: nat) {
    (u in keys || Produces(prog, batch, i, u)) && !Consumes(prog, batch, i, u)
  }

  lemma ProducesNext(prog: Program, batch: seq<nat>, i: nat, u: nat)
    requires i < |batch|
    ensures Produces(prog, batch, i + 1, u) <==> Produces(prog, batch, i, u) || HasResultAt(prog, batch[i], u)
  {
    if Produces(prog, batch, i, u) {
      var j: nat :| ProducesAt(prog, batch, i, u, j);
      assert ProducesAt(prog, batch, i + 1, u, j);
    }
    if HasResultAt(prog, batch[i], u) {
      assert ProducesAt(prog, batch, i + 1, u, i);
    }
    if Produces(prog, batch, i + 1, u) {
      var j: nat :| ProducesAt(prog, batch, i + 1, u, j);
      assert j == i || ProducesAt(prog, batch, i, u, j);
    }
  }

  lemma ConsumesNext(prog: Program, batch: seq<nat>, i: nat, u: nat)
    requires i < |batch|
    ensures Consumes(prog, batch, i + 1, u) <==> Consumes(prog, batch, i, u) || HasInputAt(prog, batch[i], u)
  {
    if Consumes(prog, batch, i, u) {
      var j: nat :| ConsumesAt(prog, batch, i, u, j);
      assert ConsumesAt(prog, batch, i + 1, u, j);
    }
    if HasInputAt(prog, batch[i], u) {
      assert ConsumesAt(prog, batch, i + 1, u, i);
    }
    if Consumes(prog, batch, i + 1, u) {
      var j: nat :| ConsumesAt(prog, batch, i + 1, u, j);
      assert j == i || ConsumesAt(prog, batch, i, u, j);
    }
  }

  lemma ConsumersApart(prog: Program, g: nat, h: nat)
    requires Ssa(prog)
    ensures g < h < |prog.inp| && prog.inp[g].Some? ==> prog.inp[g] != prog.inp[h]
    ensures g < h < |prog.out| && prog.out[g].Some? ==> prog.out[g] != prog.out[h]
  {
  }

  lemma OneConsumer(prog: Program, g: nat, h: nat, u: nat)
    requires Ssa(prog) && HasInputAt(prog, g, u) && HasInputAt(prog, h, u)
    ensures g == h
  {
    hide Ssa;
    ConsumersApart(prog, g, h);
    ConsumersApart(prog, h, g);
  }

  lemma OneProducer(prog: Program, g: nat, h: nat, u: nat)
    requires Ssa(prog) && HasResultAt(prog, g, u) && HasResultAt(prog, h, u)
    ensures g == h
  {
    hide Ssa;
    ConsumersApart(prog, g, h);
    ConsumersApart(prog, h, g);
  }

  lemma StartAt(prog: Program, batch: seq<nat>, keys: set<nat>, k: nat, u: nat)
    requires Startable(prog, batch, keys) && k < |batch|
    ensures HasInputAt(prog, batch[k], u) ==> u in keys || Produces(prog, batch, k, u)
    ensures HasResultAt(prog, batch[k], u) ==> u !in keys
    ensures forall j :: 0 <= j < k ==> batch[j] != batch[k]
  {
    hide Produces;
  }

  lemma ProducedAt(prog: Program, batch: seq<nat>, n: nat, u: nat) returns (j: nat)
    requires Produces(prog, batch, n, u)
    ensures j < n && j < |batch| && HasResultAt(prog, batch[j], u)
  {
    j :| ProducesAt(prog, batch, n, u, j);
  }

  lemma ConsumedAt(prog: Program, batch: seq<nat>, n: nat, u: nat) returns (j: nat)
    requires Consumes(prog, batch, n, u)
    ensures j < n && j < |batch| && HasInputAt(prog, batch[j], u)
  {
    j :| ConsumesAt(prog, batch, n, u, j);
  }

  // each id has one consumer, so the input of the next operation is still in use
  lemma InputInUse(prog: Program, batch: seq<nat>, keys: set<nat>, i: nat, u: nat)
    requires Ssa(prog) && Startable(prog, batch, keys) && i < |batch| && HasInputAt(prog, batch[i], u)
    ensures InUse(prog, batch, keys, i, u)
  {
    hide Ssa, Startable, Produces, Consumes, HasInputAt;
    StartAt(prog, batch, keys, i, u);
    if Consumes(prog, batch, i, u) {
      var j := ConsumedAt(prog, batch, i, u);
      OneConsumer(prog, batch[j], batch[i], u);
    }
  }

  // ... and one producer, so its result is new
  lemma ResultUnused(prog: Program, batch: seq<nat>, keys: set<nat>, i: nat, u: nat)
    requires Ssa(prog) && Startable(prog, batch, keys) && i < |batch| && HasResultAt(prog, batch[i], u)
    ensures u !in keys && !Produces(prog, batch, i, u) && !Consumes(prog, batch, i + 1, u)
  {
    hide Ssa, Startable, Produces, Consumes, HasInputAt, HasResultAt;
    StartAt(prog, batch, keys, i, u);
    if Produces(prog, batch, i, u) {
      var j := ProducedAt(prog, batch, i, u);
      OneProducer(prog, batch[j], batch[i], u);
    }
    if Consumes(prog, batch, i + 1, u) {
      var j := ConsumedAt(prog, batch, i + 1, u);
      StartAt(prog, batch, keys, j, u);
      var k := ProducedAt(prog, batch, j, u);
      OneProducer(prog, batch[k], batch[i], u);
    }
  }

  lemma ProducedIsNew(prog: Program, batch: seq<nat>, keys: set<nat>, i: nat, u: nat)
    requires Startable(prog, batch, keys) && Produces(prog, batch, i, u)
    ensures u !in keys
  {
    hide Startable, HasInputAt;
    var j := ProducedAt(prog, batch, i, u);
    StartAt(prog, batch, keys, j, u);
  }

  // what the next operation does to the ids in use
  lemma NextInUse(prog: Program, batch: seq<nat>, keys: set<nat>, i: nat)
    requires Ssa(prog) && Startable(prog, batch, keys) && i < |batch|
    ensures forall u :: HasInputAt(prog, batch[i], u) ==> InUse(prog, batch, keys, i, u)
    ensures forall u :: HasResultAt(prog, batch[i], u) ==>
      u !in keys && !Produces(prog, batch, i, u) && !Consumes(prog, batch, i + 1, u)
    ensures forall u :: Produces(prog, batch, i, u) ==> u !in keys
    ensures forall u :: Produces(prog, batch, i + 1, u) <==> Produces(prog, batch, i, u) || HasResultAt(prog, batch[i], u)
    ensures forall u :: Consumes(prog, batch, i + 1, u) <==> Consumes(prog, batch, i, u) || HasInputAt(prog, batch[i], u)
  {
    hide Ssa, Startable, Produces, Consumes, HasInputAt, HasResultAt, InUse;
    forall u | HasInputAt(prog, batch[i], u) ensures InUse(prog, batch, keys, i, u) {
      InputInUse(prog, batch, keys, i, u);
    }
    forall u | HasResultAt(prog, batch[i], u)
      ensures u !in keys && !Produces(prog, batch, i, u) && !Consumes(prog, batch, i + 1, u)
    {
      ResultUnused(prog, batch, keys, i, u);
    }
    forall u | Produces(prog, batch, i, u) ensures u !in keys {
      ProducedIsNew(prog, batch, keys, i, u);
    }
    forall u ensures Produces(prog, batch, i + 1, u) <==> Produces(prog, batch, i, u) || HasResultAt(prog, batch[i], u) {
      ProducesNext(prog, batch, i, u);
    }
    forall u ensures Consumes(prog, batch, i + 1, u) <==> Consumes(prog, batch, i, u) || HasInputAt(prog, batch[i], u) {
      ConsumesNext(prog, batch, i, u);
    }
  }

  // ---------- preparing it ----------

  ghost predicate Midway(prog: Program, batch: seq<nat>, keys: set<nat>, i: nat, st: Prep) {
    && (forall u :: u in st.idx <==> Produces(prog, batch, i, u) && !Consumes(prog, batch, i, u))
    && (forall u :: u in st.glob <==> u in keys && !Consumes(prog, batch, i, u))
  }

  lemma OpGlob(st: Prep, op: Op, n: nat)
    requires PrepOp(st, op, n).Some?
    ensures PrepOp(st, op, n).value.glob.Keys ==
      if InputId(op, n).Some? && InputId(op, n).value !in st.idx then st.glob.Keys - {InputId(op, n).value} else st.glob.Keys
  {
    hide InputId, ResultId;
  }

  lemma MidwayNext(prog: Program, n: nat, batch: seq<nat>, op: Op, keys: set<nat>, i: nat, st: Prep)
    requires Ssa(prog) && Startable(prog, batch, keys) && i < |batch| && StandsAt(prog, n, batch[i], op)
    requires Midway(prog, batch, keys, i, st)
    ensures PrepOp(st, op, n).Some? && Midway(prog, batch, keys, i + 1, PrepOp(st, op, n).value)
  {
    hide Ssa, Startable, PrepOp, InputId, ResultId, Produces, Consumes;
    NextInUse(prog, batch, keys, i);
    OpPrepares(st, op, n);
    assert InputId(op, n).Some? ==> HasInputAt(prog, batch[i], InputId(op, n).value);
    assert ResultId(op, n).Some? ==> HasResultAt(prog, batch[i], ResultId(op, n).value);
    assert PrepOp(st, op, n).Some?;
    OpGlob(st, op, n);
  }

  lemma {:induction false} Prepares(prog: Program, n: nat, batch: seq<nat>, ops: seq<Op>, glob: map<nat, nat>, i: nat)
    returns (st: Prep)
    requires Ssa(prog) && Startable(prog, batch, glob.Keys) && Stands(prog, n, batch, ops) && i <= |batch|
    ensures Prepared(ops, n, glob, i, st) && Midway(prog, batch, glob.Keys, i, st)
  {
    hide Ssa, Startable, Midway, StandsAt;
    if i == 0 {
      st := Prep(0, {}, map[], glob, map[], []);
      StartMidway(prog, batch, glob);
    } else {
      var before := Prepares(prog, n, batch, ops, glob, i - 1);
      assert StandsAt(prog, n, batch[i - 1], ops[i - 1]);
      MidwayNext(prog, n, batch, ops[i - 1], glob.Keys, i - 1, before);
      st := PrepOp(before, ops[i - 1], n).value;
    }
  }

  lemma StartMidway(prog: Program, batch: seq<nat>, glob: map<nat, nat>)
    ensures Midway(prog, batch, glob.Keys, 0, Prep(0, {}, map[], glob, map[], []))
  {
  }

  // ---------- executing it ----------

  // every pointer is the one that the producer of its id returned
  ghost predicate OfProducers(prog: Program, ids: map<nat, nat>, ret: seq<nat>) {
    forall u, p: nat :: u in ids && HasResultAt(prog, p, u) && p < |ret| ==> ids[u] == ret[p]
  }

  ghost predicate Holding(prog: Program, batch: seq<nat>, keys: set<nat>, i: nat, ids: map<nat, nat>) {
    forall u :: u in ids <==> InUse(prog, batch, keys, i, u)
  }

  lemma HoldingNext(prog: Program, n: nat, batch: seq<nat>, op: Op, keys: set<nat>, i: nat, ids: map<nat, nat>, ret: seq<nat>)
    requires Ssa(prog) && Startable(prog, batch, keys) && i < |batch| && StandsAt(prog, n, batch[i], op)
    requires Holding(prog, batch, keys, i, ids) && OfProducers(prog, ids, ret) && batch[i] < |ret|
    ensures Holding(prog, batch, keys, i + 1, IdStep(ids, op, n, ret[batch[i]]))
    ensures OfProducers(prog, IdStep(ids, op, n, ret[batch[i]]), ret)
  {
    hide Ssa, Startable, InputId, ResultId, Produces, Consumes;
    NextInUse(prog, batch, keys, i);
    var ids' := IdStep(ids, op, n, ret[batch[i]]);
    assert forall u: nat :: InputId(op, n) == Some(u) <==> HasInputAt(prog, batch[i], u);
    assert forall u: nat :: ResultId(op, n) == Some(u) <==> HasResultAt(prog, batch[i], u);
    forall u ensures u in ids' <==> InUse(prog, batch, keys, i + 1, u) {
      assert u in ids <==> InUse(prog, batch, keys, i, u);
    }
    forall u, p: nat | u in ids' && HasResultAt(prog, p, u) && p < |ret| ensures ids'[u] == ret[p] {
      if HasResultAt(prog, batch[i], u) {
        OneProducer(prog, p, batch[i], u);
      }
    }
  }

  lemma {:induction false} Holds(prog: Program, n: nat, batch: seq<nat>, ops: seq<Op>, glob: map<nat, nat>, ret: seq<nat>, i: nat)
    requires Ssa(prog) && Startable(prog, batch, glob.Keys) && Stands(prog, n, batch, ops) && i <= |batch|
    requires OfProducers(prog, glob, ret) && |ret| == |prog.out| && forall k :: 0 <= k < |batch| ==> batch[k] < |ret|
    ensures Holding(prog, batch, glob.Keys, i, ById(ops, n, glob, Returned(batch, ret), i))
    ensures OfProducers(prog, ById(ops, n, glob, Returned(batch, ret), i), ret)
  {
    hide Ssa, Startable, Holding, OfProducers, IdStep;
    if i == 0 {
      StartHolding(prog, batch, glob);
    } else {
      Holds(prog, n, batch, ops, glob, ret, i - 1);
      assert StandsAt(prog, n, batch[i - 1], ops[i - 1]);
      HoldingNext(prog, n, batch, ops[i - 1], glob.Keys, i - 1, ById(ops, n, glob, Returned(batch, ret), i - 1), ret);
    }
  }

  lemma StartHolding(prog: Program, batch: seq<nat>, glob: map<nat, nat>)
    ensures Holding(prog, batch, glob.Keys, 0, glob)
  {
  }

  // operation k of the batch is passed the pointer that the producer of its input returned
  ghost predicate PassedItsPointer(prog: Program, g: nat, l: Line, slots: map<nat, nat>, ret: seq<nat>) {
    && (Input(l).Some? <==> g < |prog.inp| && prog.inp[g].Some?)
    && (Input(l).Some? ==>
          Input(l).value in slots && forall p: nat :: Edge(prog, p, g) && p < |ret| ==> slots[Input(l).value] == ret[p])
  }

  lemma BatchPasses(prog: Program, n: nat, batch: seq<nat>, ops: seq<Op>, glob: map<nat, nat>, ret: seq<nat>)
    returns (st: Prep)
    requires Ssa(prog) && Startable(prog, batch, glob.Keys) && Stands(prog, n, batch, ops)
    requires OfProducers(prog, glob, ret) && |ret| == |prog.out| && forall k :: 0 <= k < |ops| ==> NonZero(ops[k].line)
    requires forall k :: 0 <= k < |batch| ==> batch[k] < |ret|
    ensures Sound(ops, n, glob) && Prepared(ops, n, glob, |ops|, st) && |st.out| == |ops| && KeepsLines(ops, st.out)
    ensures forall k :: 0 <= k < |batch| ==>
      PassedItsPointer(prog, batch[k], st.out[k], Slots(st.imports, st.out, Returned(batch, ret), k), ret)
    ensures forall u :: u in st.idx <==> Produces(prog, batch, |batch|, u) && !Consumes(prog, batch, |batch|, u)
    ensures Batches.Records(ops, n, glob, Returned(batch, ret), st)
    ensures OfProducers(prog, ById(ops, n, glob, Returned(batch, ret), |ops|), ret)
  {
    hide Ssa, Startable, OfProducers, Holding, Batches.Records, SamePointer, NonZero, NewResult, StandsAt, Slots, ById, Produces, Consumes;
    st := Prepares(prog, n, batch, ops, glob, |batch|);
    NewResults(prog, n, batch, ops, glob);
    PreparedShapes(ops, n, glob, |ops|, st);
    hide KeepsLines;
    RenamingPreservesMeaning(ops, n, glob, Returned(batch, ret), st);
    forall k | 0 <= k < |batch|
      ensures PassedItsPointer(prog, batch[k], st.out[k], Slots(st.imports, st.out, Returned(batch, ret), k), ret)
    {
      Holds(prog, n, batch, ops, glob, ret, k);
      assert SamePointer(ops, n, glob, Returned(batch, ret), st, k);
      assert StandsAt(prog, n, batch[k], ops[k]);
      PassedIs(prog, n, batch[k], ops, k, glob, ret, Returned(batch, ret), st);
    }
    Holds(prog, n, batch, ops, glob, ret, |ops|);
  }

  lemma NewResults(prog: Program, n: nat, batch: seq<nat>, ops: seq<Op>, glob: map<nat, nat>)
    requires Startable(prog, batch, glob.Keys) && Stands(prog, n, batch, ops)
    ensures forall k :: 0 <= k < |ops| ==> NewResult(ops[k], n, glob)
  {
    hide ResultId, InputId;
    forall k | 0 <= k < |ops| ensures NewResult(ops[k], n, glob) {
      assert StandsAt(prog, n, batch[k], ops[k]);
      assert ResultId(ops[k], n).Some? ==> HasResultAt(prog, batch[k], ResultId(ops[k], n).value);
    }
  }

  lemma PassedIs(prog: Program, n: nat, g: nat, ops: seq<Op>, k: nat, glob: map<nat, nat>, ret: seq<nat>, results: seq<nat>, st: Prep)
    requires k < |ops| == |results| == |st.out| && SamePointer(ops, n, glob, results, st, k) && StandsAt(prog, n, g, ops[k])
    requires OfProducers(prog, ById(ops, n, glob, results, k), ret)
    ensures PassedItsPointer(prog, g, st.out[k], Slots(st.imports, st.out, results, k), ret)
  {
    hide Slots, ById, InputId, ResultId;
    forall p: nat | Edge(prog, p, g) && p < |ret| && InputId(ops[k], n).Some? ensures HasResultAt(prog, p, InputId(ops[k], n).value) {
    }
  }

  // ---------- the batches of a replay ----------

  // the pointers in the id map, if operation g was returned ret[g]
  function Pointers(ids: map<nat, Val>, ret: seq<nat>): map<nat, nat> {
    map u | u in ids && ids[u].Ptr? && ids[u].op < |ret| :: ret[ids[u].op]
  }

  // a worker is about to prepare its batch
  ghost predicate Starting(s: State, t: nat) {
    t < |s.threads| && s.threads[t].pc == Make && s.threads[t].cursor == 0
  }

  lemma BatchLoc(prog: Program, s: State, t: nat, k: nat)
    requires BatchesOk(prog, s) && t < |s.threads| && k < |s.threads[t].batch|
    ensures HasLoc(s.loc, s.threads[t].batch[k], InBatch(t, k))
  {
  }

  lemma BatchAt(prog: Program, s: State, g: nat)
    requires BatchesOk(prog, s) && g < |s.loc| && s.loc[g].InBatch?
    ensures s.loc[g].t < |s.threads| && s.loc[g].k < |s.threads[s.loc[g].t].batch|
      && s.threads[s.loc[g].t].batch[s.loc[g].k] == g
  {
  }

  lemma InvParts(prog: Program, s: State)
    requires Inv(prog, s)
    ensures |s.loc| == |prog.inp| == |prog.out| && BatchesOk(prog, s)
  {
  }

  lemma InputStarts(prog: Program, s: State, t: nat, k: nat, u: nat)
    requires Ssa(prog) && Inv(prog, s) && Starting(s, t) && k < |s.threads[t].batch| && HasInputAt(prog, s.threads[t].batch[k], u)
    ensures (u in s.ids && s.ids[u].Ptr?) || Produces(prog, s.threads[t].batch, k, u)
    ensures u in s.ids ==> s.ids[u].Ptr? && HasResultAt(prog, s.ids[u].op, u)
  {
    hide BatchesOk, QueueOk, KeysOk, ParkedOk, Served, WokenOk, ClaimedOk, AllSetsOk, ThreadsOk, Ssa, EdgesOk;
    BatchLoc(prog, s, t, k);
    var g := s.threads[t].batch[k];
    var p := InputEdge(prog, s, g);
    if u !in s.ids {
      BatchAt(prog, s, p);
      assert ProducesAt(prog, s.threads[t].batch, k, u, s.loc[p].k);
    }
  }

  lemma ResultStarts(prog: Program, s: State, t: nat, k: nat, u: nat)
    requires Ssa(prog) && Inv(prog, s) && Starting(s, t) && k < |s.threads[t].batch| && HasResultAt(prog, s.threads[t].batch[k], u)
    ensures !(u in s.ids && s.ids[u].Ptr?)
  {
    hide BatchesOk, QueueOk, KeysOk, ParkedOk, Served, WokenOk, ClaimedOk, AllSetsOk, ThreadsOk, Ssa, EdgesOk;
    BatchLoc(prog, s, t, k);
    var h := ConsumerOf(prog, s, s.threads[t].batch[k]);
  }

  lemma PointerOf(prog: Program, s: State, u: nat, p: nat)
    requires Ssa(prog) && Inv(prog, s) && u in s.ids && s.ids[u].Ptr? && HasResultAt(prog, p, u)
    ensures s.ids[u].op == p
  {
    hide BatchesOk, QueueOk, KeysOk, ParkedOk, Served, WokenOk, ClaimedOk, AllSetsOk, ThreadsOk, Ssa, EdgesOk;
    var h := ConsumerOf(prog, s, p);
  }

  lemma BatchStarts(prog: Program, s: State, t: nat, ret: seq<nat>)
    requires Ssa(prog) && Inv(prog, s) && Starting(s, t) && |ret| == |prog.out|
    ensures Startable(prog, s.threads[t].batch, Pointers(s.ids, ret).Keys) && OfProducers(prog, Pointers(s.ids, ret), ret)
  {
    hide Inv, Ssa, Produces;
    var batch, glob := s.threads[t].batch, Pointers(s.ids, ret);
    InvParts(prog, s);
    forall j, k | 0 <= j < k < |batch| ensures batch[j] != batch[k] {
      BatchLoc(prog, s, t, j);
      BatchLoc(prog, s, t, k);
    }
    hide BatchesOk;
    forall k, u | 0 <= k < |batch| && HasInputAt(prog, batch[k], u) ensures u in glob || Produces(prog, batch, k, u) {
      InputStarts(prog, s, t, k, u);
    }
    forall k, u | 0 <= k < |batch| && HasResultAt(prog, batch[k], u) ensures u !in glob {
      ResultStarts(prog, s, t, k, u);
    }
    forall u, p: nat | u in glob && HasResultAt(prog, p, u) && p < |ret| ensures glob[u] == ret[p] {
      PointerOf(prog, s, u, p);
    }
  }

  lemma OpsStand(lines: seq<Line>, repetitions: nat, batch: seq<nat>)
    requires |lines| > 0 && forall k :: 0 <= k < |batch| ==> batch[k] < repetitions * |lines|
    ensures Stands(Replayed(lines, repetitions), |lines|, batch, Ops(lines, batch))
  {
    hide Replayed, LineOf, IterationOf, AtIteration;
    var prog := Replayed(lines, repetitions);
    ReplayedSizes(lines, repetitions);
    forall k | 0 <= k < |batch| ensures StandsAt(prog, |lines|, batch[k], Ops(lines, batch)[k]) {
      ReplayedAt(lines, repetitions, batch[k]);
    }
  }

  lemma ReplayedSizes(lines: seq<Line>, repetitions: nat)
    ensures |Replayed(lines, repetitions).inp| == |Replayed(lines, repetitions).out| == repetitions * |lines|
  {
  }

  lemma OpsNonZero(lines: seq<Line>, batch: seq<nat>)
    requires |lines| > 0 && forall l :: l in lines ==> NonZero(l)
    ensures forall k :: 0 <= k < |batch| ==> NonZero(Ops(lines, batch)[k].line)
  {
    hide NonZero, LineOf, IterationOf;
    forall k | 0 <= k < |batch| ensures NonZero(Ops(lines, batch)[k].line) {
      LineBound(batch[k], |lines|);
    }
  }

  lemma LineBound(g: nat, n: nat)
    requires n > 0
    ensures LineOf(g, n) < n
  {
  }

  // the batch has the operations of these lines, of the same kinds, with the same sizes
  ghost predicate IsOfTrace(lines: seq<Line>, batch: seq<nat>, out: seq<Line>)
    requires |lines| > 0
  {
    |out| == |batch| && forall k :: 0 <= k < |batch| ==> Shape(out[k]) == Shape(lines[batch[k] % |lines|])
  }

  /** When a worker prepares its batch with the id map as it is then: every input that has an entry
      has a pointer; preparing succeeds; executing the renamed operations on the slots passes every
      realloc and free the pointer that the operation which produced its input returned; the renamed
      operations are of the kinds and sizes of their lines of the trace; and what is left to record
      are the ids that the batch produces and does not consume. */
  ghost predicate GetsItsPointers(lines: seq<Line>, repetitions: nat, s: State, t: nat, ret: seq<nat>, st: Prep)
    requires |lines| > 0 && t < |s.threads| && |ret| == repetitions * |lines|
  {
    var batch, n, prog := s.threads[t].batch, |lines|, Replayed(lines, repetitions);
    var ops, glob := Ops(lines, batch), Pointers(s.ids, ret);
    && (forall k :: 0 <= k < |batch| ==> batch[k] < |ret|)
    && (forall k :: 0 <= k < |ops| && InputId(ops[k], n).Some? && InputId(ops[k], n).value in s.ids ==>
          s.ids[InputId(ops[k], n).value].Ptr?)
    && Sound(ops, n, glob) && Prepared(ops, n, glob, |ops|, st) && |st.out| == |ops|
    && (forall k :: 0 <= k < |batch| ==>
          PassedItsPointer(prog, batch[k], st.out[k], Slots(st.imports, st.out, Returned(batch, ret), k), ret))
    && IsOfTrace(lines, batch, st.out)
    && (forall u :: u in st.idx <==> Produces(prog, batch, |batch|, u) && !Consumes(prog, batch, |batch|, u))
  }

  lemma BatchGetsItsPointers(lines: seq<Line>, repetitions: nat, s: State, t: nat, ret: seq<nat>) returns (st: Prep)
    requires SingleAssignment(lines) && |lines| > 0 && Inv(Replayed(lines, repetitions), s) && Starting(s, t)
    requires |ret| == repetitions * |lines| && forall l :: l in lines ==> NonZero(l)
    ensures GetsItsPointers(lines, repetitions, s, t, ret, st)
  {
    hide SingleAssignment, Inv, Ssa, Replayed, NonZero, Startable, OfProducers, Pointers, PassedItsPointer, Slots, Produces, Consumes;
    hide InputId, ResultId, Stands, Sound, Shape, Ops;
    var prog, batch, n := Replayed(lines, repetitions), s.threads[t].batch, |lines|;
    ReplayedIsSsa(lines, repetitions);
    ReplayedSizes(lines, repetitions);
    BatchOps(prog, s, t);
    OpsStand(lines, repetitions, batch);
    OpsNonZero(lines, batch);
    BatchStarts(prog, s, t, ret);
    var ops := Ops(lines, batch);
    OpLines(lines, batch);
    st := BatchPasses(prog, n, batch, ops, Pointers(s.ids, ret), ret);
    LinesShapes(lines, batch, ops, st.out);
    forall k | 0 <= k < |ops| && InputId(ops[k], n).Some? && InputId(ops[k], n).value in s.ids
      ensures s.ids[InputId(ops[k], n).value].Ptr?
    {
      StandsInput(prog, n, batch, ops, k);
      InputStarts(prog, s, t, k, InputId(ops[k], n).value);
    }
  }

  lemma OpLines(lines: seq<Line>, batch: seq<nat>)
    requires |lines| > 0
    ensures |Ops(lines, batch)| == |batch|
    ensures forall k :: 0 <= k < |batch| ==> Ops(lines, batch)[k].line == lines[batch[k] % |lines|]
  {
  }

  lemma LinesShapes(lines: seq<Line>, batch: seq<nat>, ops: seq<Op>, out: seq<Line>)
    requires |lines| > 0 && |ops| == |batch| == |out| && KeepsLines(ops, out)
    requires forall k :: 0 <= k < |batch| ==> ops[k].line == lines[batch[k] % |lines|]
    ensures IsOfTrace(lines, batch, out)
  {
    hide Shape;
  }

  lemma StandsInput(prog: Program, n: nat, batch: seq<nat>, ops: seq<Op>, k: nat)
    requires Stands(prog, n, batch, ops) && k < |batch| && InputId(ops[k], n).Some?
    ensures HasInputAt(prog, batch[k], InputId(ops[k], n).value)
  {
    hide InputId, ResultId;
    assert StandsAt(prog, n, batch[k], ops[k]);
  }

  lemma OriginalShapes(lines: seq<Line>, rewritten: seq<Line>, batch: seq<nat>, out: seq<Line>)
    requires |rewritten| == |lines| > 0 && Renamed(lines, rewritten, |lines|) && IsOfTrace(rewritten, batch, out)
    ensures IsOfTrace(lines, batch, out)
  {
    hide Shape, Defs, Uses;
    forall k | 0 <= k < |batch| ensures Shape(out[k]) == Shape(lines[batch[k] % |lines|]) {
      var i := batch[k] % |lines|;
      assert Shape(rewritten[i]) == Shape(lines[i]);
    }
  }

  /** In every run of a rewritten trace without results of no bytes, for any number of repetitions
      and workers, any interleaving, and any allocator, the operations executed are those of the
      trace, with their sizes, and each is passed the pointer that the operation which produced its
      input returned. */
  lemma EveryOperationGetsItsPointer(lines: seq<Line>, rewritten: seq<Line>, repetitions: nat, workers: nat,
                                     states: seq<State>, i: nat, t: nat, ret: seq<nat>)
    requires WellFormed(lines) && |rewritten| == |lines| > 0 && Renamed(lines, rewritten, |lines|)
    requires Run(Replayed(rewritten, repetitions), workers, states) && i < |states| && Starting(states[i], t)
    requires |ret| == repetitions * |lines| && forall l :: l in rewritten ==> NonZero(l)
    ensures exists st ::
      GetsItsPointers(rewritten, repetitions, states[i], t, ret, st) && IsOfTrace(lines, states[i].threads[t].batch, st.out)
  {
    hide WellFormed, Renamed, Run, Inv, Ssa, NonZero, SingleAssignment, Replayed, IsOfTrace, PassedItsPointer, Slots, Sound;
    RewrittenIsSingleAssignment(lines, rewritten);
    ReplayedIsSsa(rewritten, repetitions);
    RunOk(Replayed(rewritten, repetitions), workers, states, i);
    var st := BatchGetsItsPointers(rewritten, repetitions, states[i], t, ret);
    OriginalShapes(lines, rewritten, states[i].threads[t].batch, st.out);
  }
}
