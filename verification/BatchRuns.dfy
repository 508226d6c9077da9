/** The batch context of a worker: built from operations, executed, and recorded. */
module BatchRuns {
  import opened Batches
  import opened ConcurrentIdMaps
  import opened Options
  import opened Programs
  import opened Traces

  class BatchContext {
    var ops: seq<Line>
    var idToIdx: map<nat, nat>
    const idMap: array<nat>

    constructor ()
      ensures ops == [] && idToIdx == map[] && fresh(idMap) && idMap.Length == BATCH_SIZE
    {
      ops, idToIdx := [], map[];
      idMap := new nat[BATCH_SIZE];
    }

    // the context holds a prepared batch
    ghost predicate Holds(st: Prep)
      reads this, idMap
    {
      && ops == st.out && idToIdx == st.idx && idMap.Length == BATCH_SIZE
      && (forall k :: k in st.imports ==> k < BATCH_SIZE && idMap[k] == st.imports[k])
    }

    // halfway through MakeFromOps
    ghost predicate Tracks<T>(ids: TemporalIds, global: ConcurrentIdMap<T>, st: Prep)
      reads this, idMap, ids, global
    {
      && Holds(st) && ids.nextId == st.next && ids.available == st.avail && Pointers(global.idMap) == st.glob
    }

    // the input of an operation: the slot of an id produced in the batch, or an imported pointer
    method TakeInput<T>(id: nat, ids: TemporalIds, global: ConcurrentIdMap<T>, ghost st: Prep) returns (idx: Option<nat>)
      requires Tracks(ids, global, st) && st.next < BATCH_SIZE && Assigned(st)
      requires id in global.idMap ==> global.idMap[id].Allocated?
      modifies this`idToIdx, idMap, ids, global
      ensures idx.Some? == PrepInput(st, id).Some?
      ensures idx.Some? ==> Tracks(ids, global, PrepInput(st, id).value.0) && idx.value == PrepInput(st, id).value.1
      ensures Fewer(global.idMap, old(global.idMap)) && global.queuedOps == old(global.queuedOps)
    {
      hide TemporalIds.InUse, TemporalIds.Issued, TemporalIds.Valid;
      PointersAt(global.idMap, id);
      if id in idToIdx {
        idx := Some(idToIdx[id]);
        idToIdx := idToIdx - {id};
      } else {
        var k := ids.NextUnusedId();
        var allocation := global.LookupAllocation(id);
        if allocation == None {
          return None;
        }
        var found := global.AddFree(id);
        assert found;
        idMap[k] := allocation.value;
        idx := Some(k);
      }
      ids.FreeId(idx.value);
    }

    // the result of an operation
    method GiveResult<T>(id: nat, ids: TemporalIds, global: ConcurrentIdMap<T>, ghost st: Prep) returns (idx: Option<nat>)
      requires Tracks(ids, global, st)
      modifies this`idToIdx, ids
      ensures idx.Some? == PrepResult(st, id).Some?
      ensures idx.Some? ==> Tracks(ids, global, PrepResult(st, id).value.0) && idx.value == PrepResult(st, id).value.1
    {
      var k := ids.NextId();
      if id in idToIdx {
        return None;
      }
      idToIdx := idToIdx[id := k];
      idx := Some(k);
    }

    // one operation
    method AddOp<T>(op: Op, n: nat, ids: TemporalIds, global: ConcurrentIdMap<T>, ghost st: Prep) returns (ok: bool)
      requires Tracks(ids, global, st) && st.next < BATCH_SIZE && Assigned(st)
      requires Readable(op, n, global.idMap)
      modifies this, idMap, ids, global
      ensures ok == PrepOp(st, op, n).Some? && (ok ==> Tracks(ids, global, PrepOp(st, op, n).value))
      ensures ok ==> |ops| == |old(ops)| + 1 && ops[..|old(ops)|] == old(ops) && Shape(ops[|old(ops)|]) == Shape(op.line)
      ensures Fewer(global.idMap, old(global.idMap)) && global.queuedOps == old(global.queuedOps)
    {
      hide Assigned, PrepInput, PrepResult, Shape;
      var line := op.line;
      var inp, res := InputId(op, n), ResultId(op, n);
      ghost var a := st;
      if inp.Some? {
        var idx := TakeInput(inp.value, ids, global, st);
        if idx == None {
          return false;
        }
        line := SetInput(line, idx.value);
        a := PrepInput(st, inp.value).value.0;
      }
      if res.Some? {
        var idx := GiveResult(res.value, ids, global, a);
        if idx == None {
          return false;
        }
        line := SetResult(line, idx.value);
      }
      OutFields(st, op, n);
      OpShape(st, op, n);
      ops := ops + [line];
      return true;
    }

    // ProcessLine for every line; results[i] is what the allocator returns to line i, and
    // calls[i] the call that it gets: the line, with the pointer that is passed in place of the input
    method Execute(results: seq<nat>, ghost imports: map<nat, nat>) returns (calls: seq<Line>)
      requires |results| == |ops| && idMap.Length == BATCH_SIZE
      requires forall k :: k in imports ==> k < BATCH_SIZE && idMap[k] == imports[k]
      requires forall i :: 0 <= i < |ops| && Input(ops[i]).Some? ==> Input(ops[i]).value < BATCH_SIZE
      requires forall i :: 0 <= i < |ops| && Result(ops[i]).Some? ==> Result(ops[i]).value < BATCH_SIZE
      modifies idMap
      ensures |calls| == |ops|
      ensures forall i :: 0 <= i < |ops| ==> Shape(calls[i]) == Shape(ops[i])
      ensures forall i :: 0 <= i < |ops| ==> Input(calls[i]).Some? == Input(ops[i]).Some?
      ensures forall i :: 0 <= i < |ops| && Input(ops[i]).Some? && Input(ops[i]).value in Slots(imports, ops, results, i) ==>
        Input(calls[i]) == Some(Slots(imports, ops, results, i)[Input(ops[i]).value])
      ensures forall k :: k in Slots(imports, ops, results, |ops|) ==>
        k < BATCH_SIZE && idMap[k] == Slots(imports, ops, results, |ops|)[k]
    {
      hide Slots, SlotStep;
      SlotsFirst(imports, ops, results);
      calls := [];
      for i := 0 to |ops|
        invariant |calls| == i
        invariant forall j :: 0 <= j < i ==> Shape(calls[j]) == Shape(ops[j])
        invariant forall j :: 0 <= j < i ==> Input(calls[j]).Some? == Input(ops[j]).Some?
        invariant forall j :: 0 <= j < i && Input(ops[j]).Some? && Input(ops[j]).value in Slots(imports, ops, results, j) ==>
          Input(calls[j]) == Some(Slots(imports, ops, results, j)[Input(ops[j]).value])
        invariant forall k :: k in Slots(imports, ops, results, i) ==>
          k < BATCH_SIZE && idMap[k] == Slots(imports, ops, results, i)[k]
      {
        var l := ops[i];
        calls := calls + [if Input(l).Some? then SetInput(l, idMap[Input(l).value]) else l];
        if Stores(l) && Result(l).Some? {
          idMap[Result(l).value] := results[i];
        }
        SlotsNext(imports, ops, results, i);
      }
    }

    method AllocationsToRecord() returns (r: map<nat, nat>)
      requires forall id :: id in idToIdx ==> idToIdx[id] < idMap.Length
      ensures r.Keys == idToIdx.Keys && forall id :: id in r ==> r[id] == idMap[idToIdx[id]]
    {
      r := map id | id in idToIdx :: idMap[idToIdx[id]];
    }
  }

  lemma SlotsNext(imports: map<nat, nat>, ops: seq<Line>, results: seq<nat>, i: nat)
    requires i < |ops| == |results|
    ensures Slots(imports, ops, results, i + 1)
      == if Stores(ops[i]) && Result(ops[i]).Some? then Slots(imports, ops, results, i)[Result(ops[i]).value := results[i]]
         else Slots(imports, ops, results, i)
  {
  }

  lemma SlotsFirst(imports: map<nat, nat>, ops: seq<Line>, results: seq<nat>)
    ensures Slots(imports, ops, results, 0) == imports
  {
  }

  lemma PointersAt<T>(m: map<nat, MapVal<T>>, id: nat)
    ensures id in Pointers(m) <==> id in m && m[id].Allocated?
    ensures id in m && m[id].Allocated? ==> Pointers(m)[id] == m[id].ptr && Pointers(m - {id}) == Pointers(m) - {id}
  {
  }

  // fewer entries, the same otherwise
  ghost predicate Fewer<T>(m: map<nat, MapVal<T>>, m': map<nat, MapVal<T>>) {
    forall u :: u in m ==> u in m' && m[u] == m'[u]
  }

  // the entry that the operation would read as a pointer is one
  ghost predicate Readable<T>(op: Op, n: nat, m: map<nat, MapVal<T>>) {
    InputId(op, n).Some? && InputId(op, n).value in m ==> m[InputId(op, n).value].Allocated?
  }

  // preparing the input and the result leaves the lines alone, and the result the imports
  lemma OutFields(st: Prep, op: Op, n: nat)
    requires PrepOp(st, op, n).Some?
    ensures var inp, res := InputId(op, n), ResultId(op, n);
      var a := if inp.Some? then PrepInput(st, inp.value).value.0 else st;
      && a.out == st.out && (res.Some? ==> PrepResult(a, res.value).value.0.out == st.out)
  {
  }

  /** LocalIdMap::BatchContext::MakeFromOps.  It fails exactly when preparing the operations by
      the function of the same steps does. */
  method MakeFromOps<T>(ops: seq<Op>, n: nat, global: ConcurrentIdMap<T>) returns (r: Option<BatchContext>)
    requires |ops| <= BATCH_SIZE && forall i :: 0 <= i < |ops| ==> Readable(ops[i], n, global.idMap)
    modifies global
    ensures global.queuedOps == old(global.queuedOps)
    ensures r.Some? == PrepOps(ops, n, Pointers(old(global.idMap)), |ops|).Some?
    ensures r.Some? ==> fresh(r.value) && fresh(r.value.idMap)
    ensures r.Some? ==>
      var st := PrepOps(ops, n, Pointers(old(global.idMap)), |ops|).value;
      r.value.Holds(st) && Pointers(global.idMap) == st.glob
    ensures r.Some? ==> |r.value.ops| == |ops| && KeepsLines(ops, r.value.ops)
  {
    hide PrepOp, Assigned, Shape;
    ghost var glob := Pointers(global.idMap);
    var context := new BatchContext();
    var ids := new TemporalIds();
    for i := 0 to |ops|
      invariant PrepOps(ops, n, glob, i).Some?
      invariant context.Tracks(ids, global, PrepOps(ops, n, glob, i).value)
      invariant Fewer(global.idMap, old(global.idMap)) && global.queuedOps == old(global.queuedOps)
      invariant fresh(context) && fresh(context.idMap) && fresh(ids)
      invariant |context.ops| == i && KeepsLines(ops, context.ops)
    {
      ghost var st := PrepOps(ops, n, glob, i).value;
      PreparedOk(ops, n, glob, i, st);
      var ok := context.AddOp(ops[i], n, ids, global, st);
      if !ok {
        NoneAfter(ops, n, glob, i + 1, |ops|);
        return None;
      }
    }
    return Some(context);
  }

  lemma {:induction false} NoneAfter(ops: seq<Op>, n: nat, glob: map<nat, nat>, i: nat, j: nat)
    requires i <= j <= |ops| && PrepOps(ops, n, glob, i) == None
    ensures PrepOps(ops, n, glob, j) == None
  {
    if i < j {
      NoneAfter(ops, n, glob, i, j - 1);
    }
  }

  /** One batch, prepared, executed and read out.  It succeeds exactly when it can be prepared.
      Then, whatever the allocator returns, its calls are those of the operations, with the same
      sizes and in the same order, every operation is passed the pointer of its id, and what is
      recorded together with what is left in the shared map is what executing by id leaves. */
  method RunBatch<T>(ops: seq<Op>, n: nat, global: ConcurrentIdMap<T>, results: seq<nat>)
    returns (ok: bool, calls: seq<Line>, recorded: map<nat, nat>)
    requires |ops| == |results| <= BATCH_SIZE && forall i :: 0 <= i < |ops| ==> Readable(ops[i], n, global.idMap)
    requires Sound(ops, n, Pointers(global.idMap))
    modifies global
    ensures ok <==> PrepOps(ops, n, Pointers(old(global.idMap)), |ops|).Some?
    ensures ok ==> |calls| == |ops| && KeepsLines(ops, calls) && forall i :: 0 <= i < |ops| ==>
      PassedById(ops, n, Pointers(old(global.idMap)), results, i, Input(calls[i]))
    ensures ok ==>
      && recorded.Keys !! Pointers(global.idMap).Keys
      && recorded + Pointers(global.idMap) == ById(ops, n, Pointers(old(global.idMap)), results, |ops|)
  {
    ghost var glob := Pointers(global.idMap);
    var context := MakeFromOps(ops, n, global);
    if context == None {
      return false, [], map[];
    }
    ghost var st := PrepOps(ops, n, glob, |ops|).value;
    PreparedOk(ops, n, glob, |ops|, st);
    RenamingPreservesMeaning(ops, n, glob, results, st);
    hide SamePointer, Records, Assigned, PrepOps, Slots, ById, PassedById, Shape;
    IdxBelow(st, |ops|);
    calls := context.value.Execute(results, st.imports);
    recorded := context.value.AllocationsToRecord();
    forall i | 0 <= i < |ops| ensures PassedById(ops, n, glob, results, i, Input(calls[i])) {
      PassedIs(ops, n, glob, results, st, i, Input(calls[i]));
    }
    RecordedIs(ops, n, glob, results, st, recorded);
    ok := true;
  }

  lemma IdxBelow(st: Prep, n: nat)
    requires Assigned(st) && st.next <= n
    ensures forall id :: id in st.idx ==> st.idx[id] < n
    ensures forall k :: k in st.imports ==> k < n
  {
  }

  lemma PassedIs(ops: seq<Op>, n: nat, glob: map<nat, nat>, results: seq<nat>, st: Prep, i: nat, p: Option<nat>)
    requires |results| == |ops| == |st.out| && i < |ops| && SamePointer(ops, n, glob, results, st, i)
    requires p.Some? == Input(st.out[i]).Some?
    requires Input(st.out[i]).Some? && Input(st.out[i]).value in Slots(st.imports, st.out, results, i) ==>
      p == Some(Slots(st.imports, st.out, results, i)[Input(st.out[i]).value])
    ensures PassedById(ops, n, glob, results, i, p)
  {
    hide Slots, ById;
  }

  lemma RecordedIs(ops: seq<Op>, n: nat, glob: map<nat, nat>, results: seq<nat>, st: Prep, recorded: map<nat, nat>)
    requires |results| == |ops| == |st.out| && Records(ops, n, glob, results, st)
    requires recorded.Keys == st.idx.Keys
    requires forall id :: id in recorded && st.idx[id] in Slots(st.imports, st.out, results, |ops|) ==>
      recorded[id] == Slots(st.imports, st.out, results, |ops|)[st.idx[id]]
    ensures recorded.Keys !! st.glob.Keys && recorded + st.glob == ById(ops, n, glob, results, |ops|)
  {
    hide Slots, ById;
    var ids := ById(ops, n, glob, results, |ops|);
    assert (recorded + st.glob).Keys == ids.Keys;
  }

  ghost predicate PassedById(ops: seq<Op>, n: nat, glob: map<nat, nat>, results: seq<nat>, i: nat, p: Option<nat>)
    requires i < |ops| == |results|
  {
    var ids := ById(ops, n, glob, results, i);
    if InputId(ops[i], n) == None then p == None
    else InputId(ops[i], n).value in ids && p == Some(ids[InputId(ops[i], n).value])
  }
}
