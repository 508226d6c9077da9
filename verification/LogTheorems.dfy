/** What the parser makes of the log of one process: a trace that can be replayed, with no more
    ids than pointers are ever in use at a time. */
module LogTheorems {
  import opened Arithmetic
  import opened Batches
  import opened LogParsers
  import opened Options
  import opened Traces
  import opened TraceRewrites

  // ---------- how many ids are in use ----------

  // number of inputs of the first i lines
  function Inputs(lines: seq<Line>, i: nat): nat
    requires i <= |lines|
  {
    if i == 0 then 0 else Inputs(lines, i - 1) + if Input(lines[i - 1]).Some? then 1 else 0
  }

  // number of allocations in use after i lines; it does not depend on the ids
  function Level(lines: seq<Line>, i: nat): int
    requires i <= |lines|
  {
    Defs(lines, i) - Inputs(lines, i)
  }

  // the largest number in use within the first i lines
  function Peak(lines: seq<Line>, i: nat): int
    requires i <= |lines|
  {
    if i == 0 then 0
    else if Peak(lines, i - 1) < Level(lines, i) then Level(lines, i) else Peak(lines, i - 1)
  }

  function UsedIds(lines: seq<Line>): set<nat> {
    set i | 0 <= i < |lines| && Result(lines[i]).Some? :: Result(lines[i]).value
  }

  lemma {:induction false} LevelOfShape(a: seq<Line>, b: seq<Line>, i: nat)
    requires SameShape(a, b) && i <= |a|
    ensures Level(a, i) == Level(b, i) && Peak(a, i) == Peak(b, i)
  {
    if i > 0 {
      LevelOfShape(a, b, i - 1);
      assert Shape(a[i - 1]) == Shape(b[i - 1]);
      ShapeIs(a[i - 1], b[i - 1]);
      CountsOfShape(a, b, i - 1);
    }
  }

  lemma {:induction false} CountsOfShape(a: seq<Line>, b: seq<Line>, i: nat)
    requires SameShape(a, b) && i <= |a|
    ensures Defs(a, i) == Defs(b, i) && Inputs(a, i) == Inputs(b, i)
  {
    if i > 0 {
      CountsOfShape(a, b, i - 1);
      ShapeIs(a[i - 1], b[i - 1]);
    }
  }

  // the names in use after i lines of a well-formed trace are as many as allocations are in use
  lemma {:induction false} NamesExist(lines: seq<Line>, i: nat) returns (names: map<nat, nat>)
    requires WellFormed(lines) && i <= |lines|
    ensures Names(lines, i, names) && |names| == Level(lines, i) && names.Keys <= UsedIds(lines)
  {
    hide WellFormed, Names;
    if i == 0 {
      names := map[];
      NoNames(lines);
    } else {
      var before := NamesExist(lines, i - 1);
      var l := lines[i - 1];
      if Input(l).Some? && Input(l).value !in before {
        UnknownIsIllFormed(lines, i - 1, before);
      }
      if Result(l).Some? && Result(l).value in Released(before, l) {
        DuplicateIsIllFormed(lines, i - 1, before);
      }
      NamesStep(lines, i - 1, before);
      names := Defined(Released(before, l), l, Defs(lines, i - 1));
      StepCount(before, l, Defs(lines, i - 1));
      assert Result(l).Some? ==> Result(l).value in UsedIds(lines);
    }
  }

  lemma NoNames(lines: seq<Line>)
    ensures Names(lines, 0, map[])
  {
  }

  lemma StepCount(names: map<nat, nat>, l: Line, next: nat)
    requires Input(l).Some? ==> Input(l).value in names
    requires Result(l).Some? ==> Result(l).value !in Released(names, l)
    ensures var names' := Defined(Released(names, l), l, next);
      |names'| == |names| - (if Input(l).Some? then 1 else 0) + (if Result(l).Some? then 1 else 0)
  {
    var r := Released(names, l);
    if Input(l).Some? {
      assert r.Keys == names.Keys - {Input(l).value};
      assert |names.Keys| == |names| && |r.Keys| == |r|;
    }
    var d := Defined(r, l, next);
    if Result(l).Some? {
      assert d.Keys == r.Keys + {Result(l).value};
      assert |d.Keys| == |d| && |r.Keys| == |r|;
    }
  }

  lemma {:induction false} NoFewerThanLevels(lines: seq<Line>, i: nat)
    requires WellFormed(lines) && i <= |lines|
    ensures Peak(lines, i) <= |UsedIds(lines)|
  {
    hide WellFormed;
    if i > 0 {
      NoFewerThanLevels(lines, i - 1);
      var names := NamesExist(lines, i);
      Subset(names.Keys, UsedIds(lines));
      assert |names.Keys| == |names|;
    }
  }

  /** No well-formed trace that does the same, whatever its ids, has fewer ids than its largest
      number of allocations in use. */
  lemma NoFewerIds(lines: seq<Line>, other: seq<Line>)
    requires WellFormed(other) && SameShape(lines, other)
    ensures Peak(lines, |lines|) <= |UsedIds(other)|
  {
    hide WellFormed;
    LevelOfShape(lines, other, |lines|);
    NoFewerThanLevels(other, |other|);
  }

  // ---------- appending lines ----------

  lemma {:induction false} DefsAppend(lines: seq<Line>, l: Line, i: nat)
    requires i <= |lines|
    ensures Defs(lines + [l], i) == Defs(lines, i) && Inputs(lines + [l], i) == Inputs(lines, i)
    ensures Peak(lines + [l], i) == Peak(lines, i)
  {
    if i > 0 {
      DefsAppend(lines, l, i - 1);
    }
  }

  lemma OpenAppend(lines: seq<Line>, l: Line, j: nat, i: nat)
    requires i <= |lines|
    ensures Open(lines + [l], j, i) <==> Open(lines, j, i)
    ensures Uses(lines, j, i) ==> Uses(lines + [l], j, i)
  {
    var lines' := lines + [l];
    assert forall k :: 0 <= k < |lines| ==> lines'[k] == lines[k];
    if j < i && Result(lines[j]).Some? {
      var id := Result(lines[j]).value;
      assert Untouched(lines', id, j, i) <==> Untouched(lines, id, j, i) by {
        assert forall k :: j < k < i ==> lines'[k] == lines[k];
      }
    }
  }

  lemma NamesAppend(lines: seq<Line>, l: Line, names: map<nat, nat>)
    requires Names(lines, |lines|, names)
    ensures Names(lines + [l], |lines|, names)
  {
    hide Untouched;
    var n, lines' := |lines|, lines + [l];
    assert forall k :: 0 <= k < n ==> lines'[k] == lines[k];
    forall id | id in names ensures Named(lines', n, names, id) {
      assert Named(lines, n, names, id);
      var j: nat :| NamedBy(lines, n, names, id, j);
      OpenAppend(lines, l, j, n);
      DefsAppend(lines, l, j);
      assert NamedBy(lines', n, names, id, j);
    }
    forall j: nat | Open(lines', j, n) ensures Result(lines'[j]).value in names {
      OpenAppend(lines, l, j, n);
    }
  }

  lemma FineAppend(lines: seq<Line>, l: Line)
    requires FineUpTo(lines, |lines|)
    ensures FineUpTo(lines + [l], |lines|)
  {
    hide Open, Uses;
    var n := |lines|;
    forall k | 0 <= k < n
      ensures (lines + [l])[k] != NotSet && (Input((lines + [l])[k]).Some? ==> HasDef(lines + [l], k))
    {
      if Input(lines[k]).Some? {
        assert HasDef(lines, k);
        var j: nat :| Uses(lines, j, k);
        OpenAppend(lines, l, j, k);
      }
    }
    forall j | 0 <= j < n && Result((lines + [l])[j]).Some? ensures Open(lines + [l], j, n) || HasUse(lines + [l], j) {
      if Open(lines, j, n) {
        OpenAppend(lines, l, j, n);
      } else {
        assert HasUse(lines, j);
        var i: nat :| Uses(lines, j, i);
        UsesBound(lines, j, i);
        OpenAppend(lines, l, j, i);
      }
    }
  }

  lemma UsesBound(lines: seq<Line>, j: nat, i: nat)
    requires Uses(lines, j, i)
    ensures i < |lines|
  {
  }

  // ---------- the parser's ids ----------

  /** The ids of the pointers in use and the available ones are the numbers below nextId, each
      once. */
  ghost predicate Coloured(st: Parse) {
    && (forall ptr :: ptr in st.idMap ==> st.idMap[ptr] < st.nextId && st.idMap[ptr] !in st.available)
    && (forall ptr, ptr' :: ptr in st.idMap && ptr' in st.idMap && ptr != ptr' ==> st.idMap[ptr] != st.idMap[ptr'])
    && (forall k :: k in st.available ==> k < st.nextId)
    && (forall k: nat :: k < st.nextId ==> k in st.available || k in st.idMap.Values)
  }

  lemma {:induction false} ValuesCount(m: map<nat, nat>)
    requires forall a, b :: a in m && b in m && a != b ==> m[a] != m[b]
    ensures |m.Values| == |m|
    decreases |m|
  {
    if m != map[] {
      var a :| a in m;
      var rest := m - {a};
      assert rest.Keys == m.Keys - {a} && |rest.Keys| == |rest| && |m.Keys| == |m|;
      ValuesCount(rest);
      assert m.Values == rest.Values + {m[a]} by {
        forall k | k in m.Values && k != m[a] ensures k in rest.Values {
          var q :| q in m && m[q] == k;
          assert rest[q] == k;
        }
      }
      assert m[a] !in rest.Values;
    }
  }

  // pointers in use and available ids are nextId together
  lemma ColouredCount(st: Parse)
    requires Coloured(st)
    ensures |st.idMap| + |st.available| == st.nextId
  {
    ValuesCount(st.idMap);
    assert st.idMap.Values + st.available == Below(st.nextId);
    assert st.idMap.Values !! st.available;
  }

  lemma DropColoured(st: Parse, ptr: nat)
    requires Coloured(st) && Drop(st, ptr).Some?
    ensures Coloured(Drop(st, ptr).value.0) && Drop(st, ptr).value.1 in st.idMap.Values
    ensures Drop(st, ptr).value.0.idMap.Values == st.idMap.Values - {Drop(st, ptr).value.1}
    ensures Drop(st, ptr).value.0.available != {}
  {
    var m := st.idMap - {ptr};
    forall k: nat | k < st.nextId ensures k in st.available + {st.idMap[ptr]} || k in m.Values {
      if k in st.idMap.Values && k != st.idMap[ptr] {
        var q :| q in st.idMap && st.idMap[q] == k;
        assert m[q] == k;
      }
    }
    assert m.Values == st.idMap.Values - {st.idMap[ptr]} by {
      forall k | k in st.idMap.Values && k != st.idMap[ptr] ensures k in m.Values {
        var q :| q in st.idMap && st.idMap[q] == k;
        assert m[q] == k;
      }
    }
  }

  lemma GiveColoured(st: Parse, ptr: nat)
    requires Coloured(st) && Give(st, ptr).Some?
    ensures Coloured(Give(st, ptr).value.0) && Give(st, ptr).value.1 !in st.idMap.Values
    ensures Give(st, ptr).value.0.idMap.Values == st.idMap.Values + {Give(st, ptr).value.1}
    ensures Give(st, ptr).value.0.nextId == st.nextId + if st.available == {} then 1 else 0
    ensures Give(st, ptr).value.1 < Give(st, ptr).value.0.nextId
    ensures st.available == {} ==> Give(st, ptr).value.1 == st.nextId
  {
    var st', id := Give(st, ptr).value.0, Give(st, ptr).value.1;
    assert st'.idMap[ptr] == id;
    forall k | k in st.idMap.Values ensures k in st'.idMap.Values {
      var q :| q in st.idMap && st.idMap[q] == k;
      assert st'.idMap[q] == k;
    }
  }

  // ---------- the trace so far ----------

  /** The trace so far can be continued to a well-formed one; the ids in use are its open
      definitions; its ids are the numbers below nextId, which is the largest number of
      allocations that were in use. */
  ghost predicate Good(st: Parse, names: map<nat, nat>) {
    && Coloured(st)
    && Names(st.lines, |st.lines|, names) && FineUpTo(st.lines, |st.lines|) && names.Keys == st.idMap.Values
    && |st.idMap| == Level(st.lines, |st.lines|) && st.most == Peak(st.lines, |st.lines|) == st.nextId
    && UsedIds(st.lines) == Below(st.nextId)
  }

  predicate OfProcess(st: Parse, pid: int) {
    st.pid == None || st.pid == Some(pid)
  }

  lemma StartGood()
    ensures Good(START, map[])
  {
    hide Names, Below, Coloured, FineUpTo;
    StartColoured();
    NoNames([]);
    assert UsedIds([]) == {} == Below(0);
  }

  lemma StartColoured()
    ensures Coloured(START) && START.idMap.Values == {} && FineUpTo([], 0)
  {
  }

  function After(names: map<nat, nat>, lines: seq<Line>, l: Line): map<nat, nat> {
    Defined(Released(names, l), l, Defs(lines, |lines|))
  }

  lemma LineFine(lines: seq<Line>, names: map<nat, nat>, l: Line)
    requires Names(lines, |lines|, names) && FineUpTo(lines, |lines|) && l != NotSet
    requires Input(l).Some? ==> Input(l).value in names
    requires Result(l).Some? ==> Result(l).value !in Released(names, l)
    ensures var lines' := lines + [l];
      Names(lines', |lines'|, After(names, lines, l)) && FineUpTo(lines', |lines'|)
  {
    hide Names, FineUpTo;
    NamesAppend(lines, l, names);
    FineAppend(lines, l);
    DefsAppend(lines, l, |lines|);
    assert (lines + [l])[|lines|] == l;
    NamesStep(lines + [l], |lines|, names);
    FineStep(lines + [l], |lines|, names);
  }

  lemma LineLevels(lines: seq<Line>, l: Line)
    ensures var lines' := lines + [l];
      var level := Level(lines, |lines|) - (if Input(l).Some? then 1 else 0) + (if Result(l).Some? then 1 else 0);
      && Level(lines', |lines'|) == level
      && Peak(lines', |lines'|) == (if Peak(lines, |lines|) < level then level else Peak(lines, |lines|))
      && UsedIds(lines') == UsedIds(lines) + (if Result(l).Some? then {Result(l).value} else {})
  {
    var lines' := lines + [l];
    DefsAppend(lines, l, |lines|);
    assert lines'[|lines|] == l;
    UsedAppend(lines, l);
  }

  lemma UsedAppend(lines: seq<Line>, l: Line)
    ensures UsedIds(lines + [l]) == UsedIds(lines) + (if Result(l).Some? then {Result(l).value} else {})
  {
    var lines' := lines + [l];
    assert forall i :: 0 <= i < |lines| ==> lines'[i] == lines[i];
    assert lines'[|lines|] == l;
    forall id | id in UsedIds(lines) ensures id in UsedIds(lines') {
      var i :| 0 <= i < |lines| && Result(lines[i]).Some? && Result(lines[i]).value == id;
      assert lines'[i] == lines[i];
    }
    if Result(l).Some? {
      assert Result(lines'[|lines|]).value in UsedIds(lines');
    }
  }

  // mid is the state before the line is emitted
  lemma LineGood(st: Parse, names: map<nat, nat>, mid: Parse, pid: int, l: Line)
    requires Good(st, names) && Coloured(mid) && mid.lines == st.lines && mid.most == st.most && OfProcess(mid, pid)
    requires l != NotSet && (Input(l).Some? ==> Input(l).value in names)
    requires Result(l).Some? ==> Result(l).value !in Released(names, l) && Result(l).value < mid.nextId
    requires mid.idMap.Values == After(names, st.lines, l).Keys
    requires mid.nextId == st.nextId ||
      (mid.nextId == st.nextId + 1 && Result(l) == Some(st.nextId) && |mid.idMap| == mid.nextId)
    ensures Good(Emit(mid, pid, l), After(names, st.lines, l)) && OfProcess(Emit(mid, pid, l), pid)
  {
    hide Names, FineUpTo, Coloured, Level, Peak, UsedIds, After, Below;
    LineFine(st.lines, names, l);
    LineNumbers(st, names, mid, l);
    UsedBelow(st, mid, l);
    EmitColoured(mid, pid, l);
    EmitMost(mid, pid, l);
  }

  lemma LineNumbers(st: Parse, names: map<nat, nat>, mid: Parse, l: Line)
    requires Good(st, names) && Coloured(mid) && mid.lines == st.lines
    requires Input(l).Some? ==> Input(l).value in names
    requires Result(l).Some? ==> Result(l).value !in Released(names, l)
    requires mid.idMap.Values == After(names, st.lines, l).Keys
    ensures var lines := st.lines + [l];
      && |mid.idMap| == Level(lines, |lines|) && |mid.idMap| <= mid.nextId
      && Peak(lines, |lines|) == if st.nextId < |mid.idMap| then |mid.idMap| else st.nextId
  {
    hide Names, FineUpTo, Coloured, Level, Peak, UsedIds, Below;
    LineLevels(st.lines, l);
    StepCount(names, l, Defs(st.lines, |st.lines|));
    Injective(st);
    Injective(mid);
    ColouredCount(mid);
    var names' := After(names, st.lines, l);
    assert |names.Keys| == |names| && |names'.Keys| == |names'|;
  }

  lemma UsedBelow(st: Parse, mid: Parse, l: Line)
    requires UsedIds(st.lines) == Below(st.nextId) && mid.lines == st.lines
    requires Result(l).Some? ==> Result(l).value < mid.nextId
    requires mid.nextId == st.nextId || (mid.nextId == st.nextId + 1 && Result(l) == Some(st.nextId))
    ensures UsedIds(st.lines + [l]) == Below(mid.nextId)
  {
    UsedAppend(st.lines, l);
    hide UsedIds;
  }

  lemma EmitMost(st: Parse, pid: int, l: Line)
    requires OfProcess(st, pid)
    ensures Emit(st, pid, l).most == (if st.most < |st.idMap| then |st.idMap| else st.most)
    ensures OfProcess(Emit(st, pid, l), pid)
  {
  }

  lemma Injective(st: Parse)
    requires Coloured(st)
    ensures |st.idMap.Values| == |st.idMap|
  {
    ValuesCount(st.idMap);
  }

  lemma EmitColoured(st: Parse, pid: int, l: Line)
    requires Coloured(st) && OfProcess(st, pid)
    ensures Coloured(Emit(st, pid, l)) && Emit(st, pid, l).lines == st.lines + [l]
    ensures Emit(st, pid, l).idMap == st.idMap && Emit(st, pid, l).nextId == st.nextId
  {
  }

  // ---------- entries ----------

  lemma FreeGood(st: Parse, names: map<nat, nat>, pid: int, ptr: nat) returns (names': map<nat, nat>)
    requires Good(st, names) && OfProcess(st, pid) && ParseEntry(st, Entry(pid, FreeCall(ptr))).Some?
    ensures Good(ParseEntry(st, Entry(pid, FreeCall(ptr))).value, names')
    ensures OfProcess(ParseEntry(st, Entry(pid, FreeCall(ptr))).value, pid)
  {
    hide Names, FineUpTo, Coloured, Level, Peak, UsedIds, Emit;
    if ptr == 0 {
      names' := After(names, st.lines, Free(None));
      LineGood(st, names, st, pid, Free(None));
    } else {
      DropColoured(st, ptr);
      var d, id := Drop(st, ptr).value.0, Drop(st, ptr).value.1;
      names' := After(names, st.lines, Free(Some(id)));
      assert names'.Keys == names.Keys - {id};
      LineGood(st, names, d, pid, Free(Some(id)));
    }
  }

  // an allocation without input
  lemma NewGood(st: Parse, names: map<nat, nat>, pid: int, ptr: nat, l: Line) returns (names': map<nat, nat>)
    requires Good(st, names) && OfProcess(st, pid) && Give(st, ptr).Some?
    requires Input(l) == None && Result(l) == Some(Give(st, ptr).value.1)
    ensures Good(Emit(Give(st, ptr).value.0, pid, l), names') && OfProcess(Emit(Give(st, ptr).value.0, pid, l), pid)
  {
    hide Names, FineUpTo, Level, Peak, UsedIds, Emit, Coloured, Below;
    GiveColoured(st, ptr);
    var mid, id := Give(st, ptr).value.0, Give(st, ptr).value.1;
    names' := After(names, st.lines, l);
    assert names'.Keys == names.Keys + {id};
    if st.available == {} {
      ColouredCount(mid);
    }
    hide Give;
    LineGood(st, names, mid, pid, l);
  }

  // a realloc of a pointer: its id is available when the result gets one
  lemma ReallocGood(st: Parse, names: map<nat, nat>, pid: int, input: nat, ptr: nat, size: nat) returns (names': map<nat, nat>)
    requires Good(st, names) && OfProcess(st, pid) && Drop(st, input).Some? && Give(Drop(st, input).value.0, ptr).Some?
    ensures var d := Drop(st, input).value;
      var g := Give(d.0, ptr).value;
      var st' := Emit(g.0, pid, Realloc(Some(d.1), g.1, size));
      Good(st', names') && OfProcess(st', pid)
  {
    hide Names, FineUpTo, Level, Peak, UsedIds, Emit;
    DropColoured(st, input);
    var d, id := Drop(st, input).value.0, Drop(st, input).value.1;
    GiveColoured(d, ptr);
    var g, id' := Give(d, ptr).value.0, Give(d, ptr).value.1;
    var l := Realloc(Some(id), id', size);
    names' := After(names, st.lines, l);
    assert Released(names, l).Keys == names.Keys - {id};
    assert names'.Keys == names.Keys - {id} + {id'};
    hide Coloured;
    LineGood(st, names, g, pid, l);
  }

  lemma EntryGood(st: Parse, names: map<nat, nat>, e: Entry) returns (names': map<nat, nat>)
    requires Good(st, names) && OfProcess(st, e.pid) && ParseEntry(st, e).Some?
    ensures Good(ParseEntry(st, e).value, names') && OfProcess(ParseEntry(st, e).value, e.pid)
  {
    hide Good, Emit, Give, Drop;
    match e.call
    case FreeCall(ptr) => names' := FreeGood(st, names, e.pid, ptr);
    case MallocCall(size, ptr) =>
      names' := NewGood(st, names, e.pid, ptr, Malloc(Some(Give(st, ptr).value.1), size));
    case CallocCall(nmemb, size, ptr) =>
      names' := NewGood(st, names, e.pid, ptr, Calloc(Some(Give(st, ptr).value.1), nmemb, size));
    case ReallocCall(input, size, ptr) =>
      if input == 0 {
        names' := NewGood(st, names, e.pid, ptr, Realloc(None, Give(st, ptr).value.1, size));
      } else {
        names' := ReallocGood(st, names, e.pid, input, ptr, size);
      }
    case Unknown => names' := names;
  }

  // ---------- whole logs ----------

  lemma {:induction false} ParseGood(log: seq<Entry>, maxOps: nat, pid: int, st: Parse, i: nat, names: map<nat, nat>)
    returns (names': map<nat, nat>)
    requires i <= |log| && Good(st, names) && OfProcess(st, pid) && (forall e :: e in log ==> e.pid == pid)
    requires ParseLog(log, maxOps, st, i).Some?
    ensures Good(ParseLog(log, maxOps, st, i).value, names')
    decreases |log| - i
  {
    hide Good, ParseEntry;
    if i == |log| || i + |st.idMap| >= maxOps {
      names' := names;
    } else {
      assert log[i] in log;
      var next := EntryGood(st, names, log[i]);
      names' := ParseGood(log, maxOps, pid, ParseEntry(st, log[i]).value, i + 1, next);
    }
  }

  // the frees at the end, of each id in use
  ghost predicate FreesOf(ids: set<nat>, frees: seq<Line>) {
    && (forall i :: 0 <= i < |frees| ==> frees[i].Free? && frees[i].input.Some? && frees[i].input.value in ids)
    && (forall i, j :: 0 <= i < j < |frees| ==> frees[i] != frees[j])
    && (forall id :: id in ids ==> Free(Some(id)) in frees)
  }

  lemma FreesTail(ids: set<nat>, frees: seq<Line>)
    requires FreesOf(ids, frees) && frees != []
    ensures FreesOf(ids - {frees[0].input.value}, frees[1..])
  {
    var id0 := frees[0].input.value;
    forall i | 0 <= i < |frees[1..]| ensures frees[1..][i].input.value in ids - {id0} {
      assert frees[1..][i] == frees[i + 1] && frees[0] != frees[i + 1];
    }
    forall id | id in ids - {id0} ensures Free(Some(id)) in frees[1..] {
      var k :| 0 <= k < |frees| && frees[k] == Free(Some(id));
      assert frees[1..][k - 1] == frees[k];
    }
  }

  lemma {:induction false} FreesFinish(lines: seq<Line>, names: map<nat, nat>, frees: seq<Line>)
    requires Names(lines, |lines|, names) && FineUpTo(lines, |lines|) && FreesOf(names.Keys, frees)
    requires Level(lines, |lines|) == |names| <= Peak(lines, |lines|)
    ensures WellFormed(lines + frees) && UsedIds(lines + frees) == UsedIds(lines)
    ensures Peak(lines + frees, |lines + frees|) == Peak(lines, |lines|)
    decreases |frees|
  {
    hide Names, FineUpTo, FreesOf, WellFormed, UsedIds, Peak, Level;
    if frees == [] {
      NothingLeft(names);
      FineIsWellFormed(lines, names);
      assert lines + [] == lines;
    } else {
      hide After;
      FirstFree(names.Keys, frees);
      FreesStep(lines, names, frees);
      FreesFinish(lines + [frees[0]], After(names, lines, frees[0]), frees[1..]);
      assert lines + [frees[0]] + frees[1..] == lines + frees;
    }
  }

  lemma FreesStep(lines: seq<Line>, names: map<nat, nat>, frees: seq<Line>)
    requires Names(lines, |lines|, names) && FineUpTo(lines, |lines|) && FreesOf(names.Keys, frees) && frees != []
    requires Level(lines, |lines|) == |names| <= Peak(lines, |lines|)
    ensures var lines', names' := lines + [frees[0]], After(names, lines, frees[0]);
      && Names(lines', |lines'|, names') && FineUpTo(lines', |lines'|) && FreesOf(names'.Keys, frees[1..])
      && Level(lines', |lines'|) == |names'| <= Peak(lines', |lines'|) == Peak(lines, |lines|)
      && UsedIds(lines') == UsedIds(lines)
  {
    hide Names, FineUpTo, FreesOf, UsedIds, Peak, Level;
    var l := frees[0];
    FirstFree(names.Keys, frees);
    LineFine(lines, names, l);
    LineLevels(lines, l);
    StepCount(names, l, Defs(lines, |lines|));
    FreesTail(names.Keys, frees);
    assert After(names, lines, l).Keys == names.Keys - {l.input.value};
  }

  lemma NothingLeft(names: map<nat, nat>)
    requires FreesOf(names.Keys, [])
    ensures names == map[]
  {
    forall id ensures id !in names {
      assert id in names.Keys ==> Free(Some(id)) in [];
    }
  }

  lemma FirstFree(ids: set<nat>, frees: seq<Line>)
    requires FreesOf(ids, frees) && frees != []
    ensures frees[0].Free? && frees[0].input.Some? && frees[0].input.value in ids
  {
  }

  // each pointer has its own id, so each id is freed once
  lemma FinalFreesOf(st: Parse, frees: seq<Line>)
    requires Coloured(st) && FinalFrees(st.idMap, frees)
    ensures FreesOf(st.idMap.Values, frees)
  {
    var ptrs: seq<nat> :| Lists(st.idMap, ptrs, frees);
    forall id | id in st.idMap.Values ensures Free(Some(id)) in frees {
      var ptr :| ptr in st.idMap && st.idMap[ptr] == id;
      var i :| 0 <= i < |ptrs| && ptrs[i] == ptr;
      assert frees[i] == Free(Some(id));
    }
    forall i, j | 0 <= i < j < |frees| ensures frees[i] != frees[j] {
      assert ptrs[i] != ptrs[j];
    }
  }

  lemma LevelBelowPeak(lines: seq<Line>)
    ensures |lines| > 0 ==> Level(lines, |lines|) <= Peak(lines, |lines|)
    ensures |lines| == 0 ==> Level(lines, 0) == 0 == Peak(lines, 0)
  {
  }

  /** For the log of one process, the trace can be replayed, and its ids are the numbers below the
      largest number of allocations in use at a time, which is the one that is reported. */
  lemma LogBecomesTrace(log: seq<Entry>, maxOps: nat, pid: int, st: Parse, trace: seq<Line>)
    requires forall e :: e in log ==> e.pid == pid
    requires ParseLog(log, maxOps, START, 0) == Some(st)
    requires st.lines <= trace && FinalFrees(st.idMap, trace[|st.lines|..])
    ensures WellFormed(trace)
    ensures UsedIds(trace) == Below(st.most) && st.most == Peak(trace, |trace|)
  {
    hide Names, FineUpTo, UsedIds, WellFormed, Peak, Level, Below, FinalFrees, Coloured, ParseLog;
    StartGood();
    var names := ParseGood(log, maxOps, pid, START, 0, map[]);
    var frees := trace[|st.lines|..];
    FinalFreesOf(st, frees);
    Injective(st);
    assert |names.Keys| == |names|;
    LevelBelowPeak(st.lines);
    FreesFinish(st.lines, names, frees);
    assert st.lines + frees == trace;
  }

  /** ... and no well-formed trace of the same operations has fewer. */
  lemma ColouringIsOptimal(log: seq<Entry>, maxOps: nat, pid: int, st: Parse, trace: seq<Line>, other: seq<Line>)
    requires forall e :: e in log ==> e.pid == pid
    requires ParseLog(log, maxOps, START, 0) == Some(st)
    requires st.lines <= trace && FinalFrees(st.idMap, trace[|st.lines|..])
    requires WellFormed(other) && SameShape(trace, other)
    ensures |UsedIds(trace)| <= |UsedIds(other)|
  {
    hide WellFormed, Peak, FinalFrees, ParseLog;
    LogBecomesTrace(log, maxOps, pid, st, trace);
    NoFewerIds(trace, other);
  }
}
