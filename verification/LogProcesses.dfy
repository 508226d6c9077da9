/** Logs of several processes.  The parser gives ids to the pointers of all of them, but keeps only
    the lines of the first.  Which of the traces can be replayed is decided by two books: the ids
    in use, and the ids in use as far as the kept lines tell. */
module LogProcesses {
  import opened Batches
  import opened LogParsers
  import opened LogTheorems
  import opened Options
  import opened Traces
  import opened TraceRewrites

  // ---------- reading a trace with a book ----------

  function Ids(id: Option<nat>): set<nat> {
    if id.Some? then {id.value} else {}
  }

  // a line that releases and takes these ids fits the book
  predicate Fits(book: set<nat>, released: Option<nat>, taken: Option<nat>) {
    (released.Some? ==> released.value in book) && (taken.Some? ==> taken.value !in book - Ids(released))
  }

  function Book(book: set<nat>, released: Option<nat>, taken: Option<nat>): set<nat> {
    book - Ids(released) + Ids(taken)
  }

  // from line i on, every line fits, and nothing is left in the end
  predicate Accepts(lines: seq<Line>, i: nat, book: set<nat>)
    requires i <= |lines|
    decreases |lines| - i
  {
    if i == |lines| then book == {}
    else
      && lines[i] != NotSet && Fits(book, Input(lines[i]), Result(lines[i]))
      && Accepts(lines, i + 1, Book(book, Input(lines[i]), Result(lines[i])))
  }

  lemma {:induction false} AcceptsIff(lines: seq<Line>, i: nat, names: map<nat, nat>)
    requires i <= |lines| && Names(lines, i, names) && FineUpTo(lines, i)
    ensures WellFormed(lines) <==> Accepts(lines, i, names.Keys)
    decreases |lines| - i
  {
    hide Names, FineUpTo, WellFormed;
    if i == |lines| {
      if id :| id in names {
        LeftoverIsIllFormed(lines, names, id);
      } else {
        FineIsWellFormed(lines, names);
      }
    } else {
      var l := lines[i];
      assert Released(names, l).Keys == names.Keys - Ids(Input(l));
      if l == NotSet {
        NotSetIsIllFormed(lines, i);
      } else if Input(l).Some? && Input(l).value !in names {
        UnknownIsIllFormed(lines, i, names);
      } else if Result(l).Some? && Result(l).value in Released(names, l) {
        DuplicateIsIllFormed(lines, i, names);
      } else {
        NamesStep(lines, i, names);
        FineStep(lines, i, names);
        var next := Defined(Released(names, l), l, Defs(lines, i));
        assert next.Keys == Book(names.Keys, Input(l), Result(l));
        AcceptsIff(lines, i + 1, next);
      }
    }
  }

  // frees of some ids, each once, fit exactly the book of these ids
  lemma {:induction false} FreesAccepted(lines: seq<Line>, i: nat, ids: set<nat>, book: set<nat>)
    requires i <= |lines| && FreesOf(ids, lines[i..])
    ensures Accepts(lines, i, book) <==> book == ids
    decreases |lines| - i
  {
    hide FreesOf;
    var frees := lines[i..];
    if frees == [] {
      NoFrees(ids);
    } else {
      FirstFree(ids, frees);
      FreesTail(ids, frees);
      var id := frees[0].input.value;
      assert frees[0] == lines[i] && frees[1..] == lines[i + 1..];
      FreesAccepted(lines, i + 1, ids - {id}, book - {id});
      assert Book(book, Some(id), None) == book - {id};
      assert id in book && book - {id} == ids - {id} ==> book == ids by {
        assert id in book ==> book == book - {id} + {id};
        assert ids == ids - {id} + {id};
      }
    }
  }

  lemma NoFrees(ids: set<nat>)
    requires FreesOf(ids, [])
    ensures ids == {}
  {
    forall id ensures id !in ids {
      assert id in ids ==> Free(Some(id)) in [];
    }
  }

  // ---------- reading a log with a book ----------

  // the line is kept
  predicate Followed(st: Parse, e: Entry) {
    e.call != Unknown && (st.pid == None || st.pid == Some(e.pid))
  }

  // the state after an entry that releases and obtains pointers, before the line is kept or not
  ghost function Moved(st: Parse, e: Entry): Option<Parse> {
    var d := if Gone(e).Some? then Drop(st, Gone(e).value) else Some((st, 0));
    if d == None then None
    else if Came(e) == None then Some(d.value.0)
    else
      var g := Give(d.value.0, Came(e).value);
      if g == None then None else Some(g.value.0)
  }

  // the id that an entry releases
  function ReleasedId(st: Parse, e: Entry): Option<nat> {
    if Gone(e).Some? && Gone(e).value in st.idMap then Some(st.idMap[Gone(e).value]) else None
  }

  // ... and the one it takes
  ghost function TakenId(st: Parse, e: Entry): Option<nat> {
    if Came(e).Some? && Moved(st, e).Some? && Came(e).value in Moved(st, e).value.idMap
    then Some(Moved(st, e).value.idMap[Came(e).value]) else None
  }

  lemma DropIs(st: Parse, ptr: nat)
    ensures Drop(st, ptr).Some? <==> ptr in st.idMap
    ensures Drop(st, ptr).Some? ==>
      Drop(st, ptr).value.1 == st.idMap[ptr] && Drop(st, ptr).value.0.lines == st.lines && Drop(st, ptr).value.0.pid == st.pid
  {
  }

  lemma GiveIs(st: Parse, ptr: nat)
    ensures Give(st, ptr).Some? ==>
      var g := Give(st, ptr).value;
      ptr in g.0.idMap && g.0.idMap[ptr] == g.1 && g.0.lines == st.lines && g.0.pid == st.pid
  {
    hide Min;
  }

  // st has the lines of a state before; a line is added, or is not kept
  ghost predicate Emitted(st: Parse, pid: int, l: Line, st': Parse) {
    && st'.idMap == st.idMap && st'.available == st.available && st'.nextId == st.nextId
    && (if st.pid == None || st.pid == Some(pid) then st'.pid == Some(pid) && st'.lines == st.lines + [l]
        else st'.lines == st.lines && st'.pid == st.pid)
  }

  lemma EmitIs(st: Parse, pid: int, l: Line)
    ensures Emitted(st, pid, l, Emit(st, pid, l))
  {
  }

  lemma EntryIs(st: Parse, e: Entry)
    ensures ParseEntry(st, e).Some? <==> Moved(st, e).Some?
    ensures ParseEntry(st, e).Some? ==>
      var st' := ParseEntry(st, e).value;
      && st'.idMap == Moved(st, e).value.idMap && st'.available == Moved(st, e).value.available
      && st'.nextId == Moved(st, e).value.nextId
      && (!Followed(st, e) ==> st'.lines == st.lines && st'.pid == st.pid)
      && (Followed(st, e) ==>
            && st'.pid == Some(e.pid) && |st'.lines| == |st.lines| + 1 && st.lines == st'.lines[..|st.lines|]
            && st'.lines[|st.lines|] != NotSet
            && Input(st'.lines[|st.lines|]) == ReleasedId(st, e) && Result(st'.lines[|st.lines|]) == TakenId(st, e))
  {
    hide Emit, Give, Drop;
    var d := st;
    if Gone(e).Some? {
      DropIs(st, Gone(e).value);
      if Drop(st, Gone(e).value).Some? {
        d := Drop(st, Gone(e).value).value.0;
      }
    }
    if Came(e).Some? {
      GiveIs(d, Came(e).value);
    }
    if Moved(st, e).Some? {
      var mid := Moved(st, e).value;
      match e.call
      case FreeCall(_) => EmitIs(mid, e.pid, Free(ReleasedId(st, e)));
      case MallocCall(size, _) => EmitIs(mid, e.pid, Malloc(TakenId(st, e), size));
      case CallocCall(n, size, _) => EmitIs(mid, e.pid, Calloc(TakenId(st, e), n, size));
      case ReallocCall(_, size, _) => EmitIs(mid, e.pid, Realloc(ReleasedId(st, e), TakenId(st, e).value, size));
      case Unknown =>
    }
  }

  /** The kept lines fit the book of the kept lines, and in the end that is the book of all ids in
      use.  This can be read off the log. */
  ghost predicate Balanced(log: seq<Entry>, maxOps: nat, st: Parse, i: nat, book: set<nat>)
    requires i <= |log|
    decreases |log| - i
  {
    if i == |log| || i + |st.idMap| >= maxOps then book == st.idMap.Values
    else
      var e := log[i];
      ParseEntry(st, e).Some? &&
      if Followed(st, e) then
        && Fits(book, ReleasedId(st, e), TakenId(st, e))
        && Balanced(log, maxOps, ParseEntry(st, e).value, i + 1, Book(book, ReleasedId(st, e), TakenId(st, e)))
      else Balanced(log, maxOps, ParseEntry(st, e).value, i + 1, book)
  }

  lemma SameColours(st: Parse, st': Parse)
    requires Coloured(st) && st'.idMap == st.idMap && st'.available == st.available && st'.nextId == st.nextId
    ensures Coloured(st')
  {
  }

  lemma EntryColoured(st: Parse, e: Entry)
    requires Coloured(st) && ParseEntry(st, e).Some?
    ensures Coloured(ParseEntry(st, e).value)
  {
    hide Coloured, Give, Drop, ParseEntry;
    EntryIs(st, e);
    var d := st;
    if Gone(e).Some? {
      DropColoured(st, Gone(e).value);
      d := Drop(st, Gone(e).value).value.0;
    }
    if Came(e).Some? {
      GiveColoured(d, Came(e).value);
    }
    SameColours(Moved(st, e).value, ParseEntry(st, e).value);
  }

  lemma {:induction false} LinesGrow(log: seq<Entry>, maxOps: nat, st: Parse, i: nat)
    requires i <= |log| && ParseLog(log, maxOps, st, i).Some?
    ensures st.lines <= ParseLog(log, maxOps, st, i).value.lines
    decreases |log| - i
  {
    hide ParseEntry;
    if i < |log| && i + |st.idMap| < maxOps {
      EntryIs(st, log[i]);
      LinesGrow(log, maxOps, ParseEntry(st, log[i]).value, i + 1);
    }
  }

  lemma {:induction false} ScanIff(log: seq<Entry>, maxOps: nat, st: Parse, i: nat, book: set<nat>, trace: seq<Line>)
    requires i <= |log| && Coloured(st) && ParseLog(log, maxOps, st, i).Some?
    requires var last := ParseLog(log, maxOps, st, i).value;
      last.lines <= trace && FinalFrees(last.idMap, trace[|last.lines|..])
    ensures |st.lines| <= |trace| && (Accepts(trace, |st.lines|, book) <==> Balanced(log, maxOps, st, i, book))
    decreases |log| - i
  {
    hide ParseEntry, Coloured, FinalFrees, Fits, Book;
    LinesGrow(log, maxOps, st, i);
    if i == |log| || i + |st.idMap| >= maxOps {
      FinalFreesOf(st, trace[|st.lines|..]);
      FreesAccepted(trace, |st.lines|, st.idMap.Values, book);
    } else {
      var e := log[i];
      EntryIs(st, e);
      EntryColoured(st, e);
      var next := ParseEntry(st, e).value;
      LinesGrow(log, maxOps, next, i + 1);
      if Followed(st, e) {
        ScanIff(log, maxOps, next, i + 1, Book(book, ReleasedId(st, e), TakenId(st, e)), trace);
        assert trace[|st.lines|] == next.lines[|st.lines|];
      } else {
        ScanIff(log, maxOps, next, i + 1, book, trace);
      }
    }
  }

  /** For a log of any processes, the trace can be replayed if and only if its kept lines balance:
      each releases an id in the book, takes one that is not, and the book ends as the ids in use. */
  lemma LogAccepted(log: seq<Entry>, maxOps: nat, st: Parse, trace: seq<Line>)
    requires ParseLog(log, maxOps, START, 0) == Some(st)
    requires st.lines <= trace && FinalFrees(st.idMap, trace[|st.lines|..])
    ensures WellFormed(trace) <==> Balanced(log, maxOps, START, 0, {})
  {
    hide Names, FineUpTo, WellFormed, Coloured, FinalFrees, ParseLog, Balanced, Accepts;
    StartColoured();
    NoNames(trace);
    NothingYet(trace);
    var names: map<nat, nat> := map[];
    AcceptsIff(trace, 0, names);
    ScanIff(log, maxOps, START, 0, {}, trace);
    assert names.Keys == {};
  }

  lemma NothingYet(lines: seq<Line>)
    ensures FineUpTo(lines, 0)
  {
  }

  // ---------- processes that keep to themselves ----------

  function Owner(own: map<nat, int>, e: Entry): map<nat, int> {
    var rest := if Gone(e).Some? then own - {Gone(e).value} else own;
    if Came(e).Some? then rest[Came(e).value := e.pid] else rest
  }

  /** Every pointer is released by the process that obtained it, and what is in use in the end is
      of the process that is followed. */
  ghost predicate SelfContained(log: seq<Entry>, maxOps: nat, st: Parse, i: nat, own: map<nat, int>)
    requires i <= |log|
    decreases |log| - i
  {
    if i == |log| || i + |st.idMap| >= maxOps then forall ptr :: ptr in own ==> st.pid == Some(own[ptr])
    else
      var e := log[i];
      && ParseEntry(st, e).Some?
      && (Gone(e).Some? ==> Gone(e).value in own && own[Gone(e).value] == e.pid)
      && SelfContained(log, maxOps, ParseEntry(st, e).value, i + 1, Owner(own, e))
  }

  // the book has the ids of the pointers that the process that is followed owns
  ghost predicate Owned(st: Parse, own: map<nat, int>, book: set<nat>) {
    && own.Keys == st.idMap.Keys && (st.pid == None ==> own == map[])
    && (forall ptr :: ptr in own ==> (st.idMap[ptr] in book <==> st.pid == Some(own[ptr])))
    && (forall id :: id in book ==> id in st.idMap.Values)
  }

  lemma MovedIs(st: Parse, e: Entry)
    requires Coloured(st) && Moved(st, e).Some?
    ensures var st', rel, tak := Moved(st, e).value, ReleasedId(st, e), TakenId(st, e);
      && rel.Some? == Gone(e).Some? && tak.Some? == Came(e).Some?
      && (Gone(e).Some? ==> Gone(e).value in st.idMap && rel == Some(st.idMap[Gone(e).value]))
      && (tak.Some? ==> tak.value !in st.idMap.Values - Ids(rel))
      && st'.idMap == (var rest := if Gone(e).Some? then st.idMap - {Gone(e).value} else st.idMap;
                       if Came(e).Some? then rest[Came(e).value := tak.value] else rest)
      && (Came(e).Some? ==> Came(e).value !in (if Gone(e).Some? then st.idMap - {Gone(e).value} else st.idMap))
  {
    hide Coloured;
    if Gone(e).Some? {
      DropColoured(st, Gone(e).value);
    }
    if Came(e).Some? {
      GiveColoured(if Gone(e).Some? then Drop(st, Gone(e).value).value.0 else st, Came(e).value);
    }
  }

  lemma OwnedStep(st: Parse, own: map<nat, int>, book: set<nat>, e: Entry)
    requires Coloured(st) && Owned(st, own, book) && ParseEntry(st, e).Some?
    requires Gone(e).Some? ==> Gone(e).value in own && own[Gone(e).value] == e.pid
    ensures Followed(st, e) ==> Fits(book, ReleasedId(st, e), TakenId(st, e))
    ensures Owned(ParseEntry(st, e).value, Owner(own, e),
                  if Followed(st, e) then Book(book, ReleasedId(st, e), TakenId(st, e)) else book)
  {
    hide ParseEntry, Moved, ReleasedId, TakenId, Coloured;
    EntryIs(st, e);
    MovedIs(st, e);
    var st', own', rel, tak := ParseEntry(st, e).value, Owner(own, e), ReleasedId(st, e), TakenId(st, e);
    var book' := if Followed(st, e) then Book(book, rel, tak) else book;
    forall ptr | ptr in own' ensures st'.idMap[ptr] in book' <==> st'.pid == Some(own'[ptr]) {
      if Came(e) != Some(ptr) {
        OtherId(st, e, ptr);
      }
    }
    forall id | id in book' ensures id in st'.idMap.Values {
      if tak == Some(id) {
        assert st'.idMap[Came(e).value] == id;
      } else {
        var ptr :| ptr in st.idMap && st.idMap[ptr] == id;
        assert Gone(e) != Some(ptr);
        assert st'.idMap[ptr] == id;
      }
    }
  }

  // a pointer that the entry leaves alone has an id of its own
  lemma OtherId(st: Parse, e: Entry, ptr: nat)
    requires Coloured(st) && Moved(st, e).Some? && ptr in st.idMap && Gone(e) != Some(ptr) && Came(e) != Some(ptr)
    ensures Moved(st, e).value.idMap[ptr] == st.idMap[ptr]
    ensures ReleasedId(st, e) != Some(st.idMap[ptr]) && TakenId(st, e) != Some(st.idMap[ptr])
  {
    hide Moved, ReleasedId, TakenId;
    MovedIs(st, e);
    assert st.idMap[ptr] in st.idMap.Values;
  }

  lemma {:induction false} OwnedBalances(log: seq<Entry>, maxOps: nat, st: Parse, i: nat, own: map<nat, int>, book: set<nat>)
    requires i <= |log| && Coloured(st) && Owned(st, own, book) && SelfContained(log, maxOps, st, i, own)
    ensures Balanced(log, maxOps, st, i, book)
    decreases |log| - i
  {
    hide ParseEntry, Coloured, Fits, Book, ReleasedId, TakenId, Followed, Owner, Gone;
    if i == |log| || i + |st.idMap| >= maxOps {
      assert book == st.idMap.Values;
    } else {
      hide Owned;
      OwnedStep(st, own, book, log[i]);
      EntryColoured(st, log[i]);
      OwnedBalances(log, maxOps, ParseEntry(st, log[i]).value, i + 1, Owner(own, log[i]),
                    if Followed(st, log[i]) then Book(book, ReleasedId(st, log[i]), TakenId(st, log[i])) else book);
    }
  }

  /** If every process releases only its own pointers, and the others have released all of theirs
      in the end, the trace can be replayed. */
  lemma OwnPointersSuffice(log: seq<Entry>, maxOps: nat, st: Parse, trace: seq<Line>)
    requires ParseLog(log, maxOps, START, 0) == Some(st)
    requires st.lines <= trace && FinalFrees(st.idMap, trace[|st.lines|..])
    requires SelfContained(log, maxOps, START, 0, map[])
    ensures WellFormed(trace)
  {
    hide WellFormed, FinalFrees, ParseLog, Balanced, SelfContained, Coloured;
    StartColoured();
    LogAccepted(log, maxOps, st, trace);
    OwnedBalances(log, maxOps, START, 0, map[], {});
  }

  // ---------- examples ----------

  const FIRST := Malloc(Some(0), 16)
  const ONE := Parse(map[100 := 0], {}, 1, 1, Some(1), [FIRST])
  const NONE := Parse(map[], {0}, 1, 1, Some(1), [FIRST])

  // process 1 obtains a pointer, and process 2 releases it
  lemma TakenAway()
    ensures ParseEntry(START, Entry(1, MallocCall(16, 100))) == Some(ONE)
    ensures ParseEntry(ONE, Entry(2, FreeCall(100))) == Some(NONE)
  {
    assert START.idMap[100 := 0] == map[100 := 0] && START.lines + [FIRST] == [FIRST];
    assert Give(START, 100) == Some((Parse(map[100 := 0], {}, 1, 0, None, []), 0));
    assert ONE.idMap - {100} == map[];
  }

  // a log of two processes can become a trace that is refused: the free of the other process
  // takes the pointer but is not kept
  lemma TwoProcesses()
    ensures var log := [Entry(1, MallocCall(16, 100)), Entry(2, FreeCall(100))];
      && ParseLog(log, 10, START, 0) == Some(NONE) && FinalFrees(NONE.idMap, []) && !WellFormed(NONE.lines)
  {
    hide ParseEntry;
    var log := [Entry(1, MallocCall(16, 100)), Entry(2, FreeCall(100))];
    TakenAway();
    assert ParseLog(log, 10, NONE, 2) == Some(NONE);
    assert ParseLog(log, 10, ONE, 1) == Some(NONE);
    assert Lists(map[], [], []);
    assert !HasUse([FIRST], 0);
    assert Result([FIRST][0]).Some?;
  }

  // ... but need not: here the other process hands the id back under another pointer
  const BACK := Parse(map[200 := 0], {}, 1, 1, Some(1), [FIRST])
  const DONE := Parse(map[], {0}, 1, 1, Some(1), [FIRST, Free(Some(0))])

  lemma HandedBack()
    ensures ParseEntry(NONE, Entry(2, MallocCall(16, 200))) == Some(BACK)
    ensures ParseEntry(BACK, Entry(1, FreeCall(200))) == Some(DONE)
  {
    MinIs({0}, 0);
    assert NONE.idMap[200 := 0] == map[200 := 0] && NONE.available - {0} == {};
    assert BACK.idMap - {200} == map[] && BACK.lines + [Free(Some(0))] == DONE.lines;
  }

  lemma HandOver()
    ensures var log := [Entry(1, MallocCall(16, 100)), Entry(2, FreeCall(100)),
                        Entry(2, MallocCall(16, 200)), Entry(1, FreeCall(200))];
      && ParseLog(log, 10, START, 0) == Some(DONE) && FinalFrees(DONE.idMap, []) && WellFormed(DONE.lines)
      && !SelfContained(log, 10, START, 0, map[])
  {
    hide ParseEntry;
    var log := [Entry(1, MallocCall(16, 100)), Entry(2, FreeCall(100)), Entry(2, MallocCall(16, 200)), Entry(1, FreeCall(200))];
    TakenAway();
    HandedBack();
    assert ParseLog(log, 10, DONE, 4) == Some(DONE);
    assert ParseLog(log, 10, BACK, 3) == Some(DONE);
    assert ParseLog(log, 10, NONE, 2) == Some(DONE);
    assert ParseLog(log, 10, ONE, 1) == Some(DONE);
    assert Lists(map[], [], []);
    assert Uses(DONE.lines, 0, 1);
    assert !SelfContained(log, 10, ONE, 1, Owner(map[], log[0]));
  }
}
