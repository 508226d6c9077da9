/** The parser of allocation logs. */
module LogReaders {
  import opened Batches
  import opened LogParsers
  import opened LogTheorems
  import opened LogTraces
  import opened Options
  import opened Traces

  class Reader {
    var idMap: map<nat, nat>
    const ids: TemporalIds
    var most: nat
    var pid: Option<int>
    var lines: seq<Line>

    constructor ()
      ensures Holds(START) && fresh(ids)
    {
      idMap, most, pid, lines := map[], 0, None, [];
      ids := new TemporalIds();
    }

    ghost predicate Holds(st: Parse)
      reads this, ids
    {
      && idMap == st.idMap && ids.available == st.available && ids.nextId == st.nextId
      && most == st.most && pid == st.pid && lines == st.lines
    }

    method FindAndEraseId(ptr: nat, ghost st: Parse) returns (id: Option<nat>)
      requires Holds(st)
      modifies this`idMap, ids
      ensures id.Some? == Drop(st, ptr).Some?
      ensures id.Some? ==> Drop(st, ptr).value.1 == id.value && Holds(Drop(st, ptr).value.0)
    {
      if ptr !in idMap {
        return None;
      }
      id := Some(idMap[ptr]);
      idMap := idMap - {ptr};
      ids.FreeId(id.value);
    }

    method GetNextId(ptr: nat, ghost st: Parse) returns (id: Option<nat>)
      requires Holds(st)
      modifies this`idMap, ids
      ensures id.Some? == Give(st, ptr).Some?
      ensures id.Some? ==> Give(st, ptr).value.1 == id.value && Holds(Give(st, ptr).value.0)
    {
      var k := ids.NextId();
      if ptr in idMap {
        return None;
      }
      idMap := idMap[ptr := k];
      id := Some(k);
    }

    method Keep(p: int, l: Line, ghost st: Parse)
      requires Holds(st)
      modifies this`lines, this`most, this`pid
      ensures Holds(Emit(st, p, l))
    {
      if pid == None {
        pid := Some(p);
      } else if pid.value != p {
        return;
      }
      lines := lines + [l];
      most := if most < |idMap| then |idMap| else most;
    }

    /** One entry of the log.  It is refused exactly if it releases a pointer that is not in use, or
        obtains one that is.  Otherwise the ids of the pointers in use change as the log tells, and
        a line is added for the entry unless it is of another process, or no operation. */
    method ReadEntry(e: Entry, ghost st: Parse) returns (ok: bool)
      requires Holds(st) && Coloured(st)
      modifies this, ids
      ensures ok == ParseEntry(st, e).Some? && (ok ==> Holds(ParseEntry(st, e).value))
      ensures ok <==> Legal(old(idMap), e)
      ensures ok ==> idMap == Change(old(idMap), e)
      ensures ok && !(e.call != Unknown && (old(pid) == None || old(pid) == Some(e.pid))) ==>
        lines == old(lines) && pid == old(pid) && most == old(most)
      ensures ok && e.call != Unknown && (old(pid) == None || old(pid) == Some(e.pid)) ==>
        && |lines| == |old(lines)| + 1 && lines[..|old(lines)|] == old(lines) && IsLine(old(idMap), e, lines[|old(lines)|])
        && pid == Some(e.pid) && most == if old(most) < |idMap| then |idMap| else old(most)
    {
      hide Give, Drop, Emit, Coloured, Legal, Change, IsLine;
      EntryRefines(st, e);
      if e.call.FreeCall? {
        if e.call.ptr == 0 {
          Keep(e.pid, Free(None), st);
        } else {
          var id := FindAndEraseId(e.call.ptr, st);
          if id == None {
            return false;
          }
          Keep(e.pid, Free(id), Drop(st, e.call.ptr).value.0);
        }
      } else if e.call.MallocCall? {
        var id := GetNextId(e.call.ptr, st);
        if id == None {
          return false;
        }
        Keep(e.pid, Malloc(id, e.call.size), Give(st, e.call.ptr).value.0);
      } else if e.call.CallocCall? {
        var id := GetNextId(e.call.ptr, st);
        if id == None {
          return false;
        }
        Keep(e.pid, Calloc(id, e.call.nmemb, e.call.size), Give(st, e.call.ptr).value.0);
      } else if e.call.ReallocCall? {
        var input: Option<nat> := None;
        ghost var mid := st;
        if e.call.input != 0 {
          input := FindAndEraseId(e.call.input, st);
          if input == None {
            return false;
          }
          mid := Drop(st, e.call.input).value.0;
        }
        var id := GetNextId(e.call.ptr, mid);
        if id == None {
          return false;
        }
        Keep(e.pid, Realloc(input, id.value, e.call.size), Give(mid, e.call.ptr).value.0);
      }
      return true;
    }

    /** DirtyTracefileReader::Open: the trace, and the largest number of pointers in use at a time.
        It fails exactly if an entry that is read is not legal.  Otherwise the trace and the number
        are those that the log tells, up to the entry where the limit is reached. */
    method Open(log: seq<Entry>, maxOps: nat) returns (trace: Option<seq<Line>>)
      requires Holds(START)
      modifies this, ids
      ensures trace.Some? <==> Accepted(log, maxOps)
      ensures trace.Some? ==> exists n: nat :: IsEnd(log, maxOps, n) && LegalUpTo(log, n) && IsTrace(log, n, trace.value, most)
      ensures trace.Some? == ParseLog(log, maxOps, START, 0).Some?
      ensures trace.Some? ==>
        var st := ParseLog(log, maxOps, START, 0).value;
        && most == st.most && st.lines <= trace.value && FinalFrees(st.idMap, trace.value[|st.lines|..])
    {
      hide ParseEntry, Reading, Accepted, Coloured, IsEnd, LegalUpTo, IsTrace, Legal, Change, IsLine, FinalFrees;
      ghost var st := START;
      var iter := 0;
      ReadingStart(log, maxOps);
      while iter < |log| && iter + |idMap| < maxOps
        invariant iter <= |log| && Holds(st) && Reading(log, maxOps, iter, st)
        invariant ParseLog(log, maxOps, START, 0) == ParseLog(log, maxOps, st, iter)
      {
        ReadingNext(log, maxOps, iter, st);
        var ok := ReadEntry(log[iter], st);
        if !ok {
          return None;
        }
        st := ParseEntry(st, log[iter]).value;
        iter := iter + 1;
      }
      var frees := FreeAll(idMap);
      ReadingEnd(log, maxOps, iter, st, frees);
      trace := Some(lines + frees);
    }
  }

  // frees of all unfreed memory
  method FreeAll(idMap: map<nat, nat>) returns (frees: seq<Line>)
    ensures FinalFrees(idMap, frees)
  {
    frees := [];
    var left := idMap.Keys;
    ghost var ptrs: seq<nat> := [];
    while left != {}
      invariant left <= idMap.Keys && |ptrs| == |frees|
      invariant forall i :: 0 <= i < |ptrs| ==>
        ptrs[i] in idMap && ptrs[i] !in left && frees[i] == Free(Some(idMap[ptrs[i]]))
      invariant forall i, j :: 0 <= i < j < |ptrs| ==> ptrs[i] != ptrs[j]
      invariant forall ptr :: ptr in idMap ==> ptr in left || ptr in ptrs
      decreases left
    {
      var ptr :| ptr in left;
      frees := frees + [Free(Some(idMap[ptr]))];
      ptrs := ptrs + [ptr];
      left := left - {ptr};
    }
    assert Lists(idMap, ptrs, frees);
  }

  // the first i entries are legal, there is room before each of them, and st is the state after them
  ghost predicate Reading(log: seq<Entry>, maxOps: nat, i: nat, st: Parse) {
    && i <= |log| && AtEntry(log, i, st) && LegalUpTo(log, i)
    && forall k: nat :: k < i ==> k + |Held(log, k)| < maxOps
  }

  lemma ReadingStart(log: seq<Entry>, maxOps: nat)
    ensures Reading(log, maxOps, 0, START)
  {
    hide AtEntry;
    AtStart(log);
  }

  lemma ReadingNext(log: seq<Entry>, maxOps: nat, i: nat, st: Parse)
    requires Reading(log, maxOps, i, st) && i < |log| && i + |st.idMap| < maxOps
    ensures Coloured(st)
    ensures ParseEntry(st, log[i]) == None ==> !Accepted(log, maxOps)
    ensures ParseEntry(st, log[i]).Some? ==> Reading(log, maxOps, i + 1, ParseEntry(st, log[i]).value)
  {
    hide AtEntry, Held, Legal, ParseEntry, Coloured;
    AtEntryIs(log, i, st);
    AtNext(log, i, st);
    assert Reached(log, maxOps, i);
  }

  lemma AtEntryIs(log: seq<Entry>, i: nat, st: Parse)
    requires i <= |log| && AtEntry(log, i, st)
    ensures Coloured(st) && st.idMap == Held(log, i)
    ensures LinesOf(log, i, st.lines) && IsMost(log, i, st.most)
  {
    hide Coloured, Held, LinesOf, IsMost;
  }

  lemma ReadingEnd(log: seq<Entry>, maxOps: nat, n: nat, st: Parse, frees: seq<Line>)
    requires Reading(log, maxOps, n, st) && FinalFrees(st.idMap, frees) && (n == |log| || n + |st.idMap| >= maxOps)
    ensures Accepted(log, maxOps) && IsEnd(log, maxOps, n) && LegalUpTo(log, n) && IsTrace(log, n, st.lines + frees, st.most)
    ensures (st.lines + frees)[|st.lines|..] == frees
  {
    hide AtEntry, Held, Legal, IsMost, IsLineOf, Kept, FinalFrees, Coloured;
    AtEntryIs(log, n, st);
    forall i: nat | i < |log| && Reached(log, maxOps, i) ensures Legal(Held(log, i), log[i]) {
      NotPast(log, maxOps, n, i);
    }
    var trace := st.lines + frees;
    assert trace[..|st.lines|] == st.lines && trace[|st.lines|..] == frees;
    FreesCount(st.idMap, frees);
  }

  lemma NotPast(log: seq<Entry>, maxOps: nat, n: nat, i: nat)
    requires n <= |log| && (n == |log| || n + |Held(log, n)| >= maxOps)
    ensures i < |log| && Reached(log, maxOps, i) ==> i < n
  {
    hide Held;
  }

  ghost function Elements(s: seq<nat>): set<nat> {
    set p | p in s
  }

  lemma FreesCount(idMap: map<nat, nat>, frees: seq<Line>)
    requires FinalFrees(idMap, frees)
    ensures |frees| == |idMap|
  {
    var ptrs :| Lists(idMap, ptrs, frees);
    DistinctCount(ptrs);
    ListsAll(idMap, ptrs, frees);
  }

  lemma ListsAll(idMap: map<nat, nat>, ptrs: seq<nat>, frees: seq<Line>)
    requires Lists(idMap, ptrs, frees)
    ensures Elements(ptrs) == idMap.Keys && |idMap.Keys| == |idMap|
  {
    assert forall p :: p in ptrs ==> p in idMap;
  }

  lemma {:induction false} DistinctCount(s: seq<nat>)
    requires forall i, j :: 0 <= i < j < |s| ==> s[i] != s[j]
    ensures |Elements(s)| == |s|
  {
    if s != [] {
      DistinctCount(s[1..]);
      assert Elements(s) == {s[0]} + Elements(s[1..]);
    }
  }
}
