/** The rewrite that gives every allocation of a trace its own id, ahead of a replay. */
module TraceRewrites {
  import opened Options
  import opened Traces

  datatype Error = OpNotSet | UnknownInput(id: nat) | DuplicateResult(id: nat) | NotAllFreed

  // the ids in use before line i, with the number of the definition each one stands for
  ghost predicate Names(lines: seq<Line>, i: nat, newId: map<nat, nat>) {
    && (forall id :: id in newId ==> Named(lines, i, newId, id))
    && (forall j: nat :: Open(lines, j, i) ==> Result(lines[j]).value in newId)
  }

  ghost predicate Named(lines: seq<Line>, i: nat, newId: map<nat, nat>, id: nat)
    requires id in newId
  {
    exists j: nat :: NamedBy(lines, i, newId, id, j)
  }

  ghost predicate NamedBy(lines: seq<Line>, i: nat, newId: map<nat, nat>, id: nat, j: nat)
    requires id in newId
  {
    Open(lines, j, i) && Result(lines[j]).value == id && newId[id] == Defs(lines, j)
  }

  // so far every line is set, every input has its definition, and every definition is still
  // open or has been consumed
  ghost predicate FineUpTo(lines: seq<Line>, i: nat)
    requires i <= |lines|
  {
    && (forall k :: 0 <= k < i ==> lines[k] != NotSet && (Input(lines[k]).Some? ==> HasDef(lines, k)))
    && (forall j :: 0 <= j < i && Result(lines[j]).Some? ==> Open(lines, j, i) || HasUse(lines, j))
  }

  // the rewritten trace: results are numbered in order, and inputs follow their definitions
  ghost predicate Renamed(lines: seq<Line>, lines': seq<Line>, i: nat)
    requires i <= |lines| == |lines'|
  {
    && (forall k :: 0 <= k < i ==> Shape(lines'[k]) == Shape(lines[k]))
    && (forall k :: 0 <= k < i && Result(lines[k]).Some? ==> Result(lines'[k]) == Some(Defs(lines, k)))
    && (forall j: nat, k: nat :: k < i && Uses(lines, j, k) ==> Input(lines'[k]) == Some(Defs(lines, j)))
  }

  lemma OpenStep(lines: seq<Line>, j: nat, i: nat)
    requires i < |lines|
    ensures Open(lines, j, i + 1) <==>
      || (Open(lines, j, i) && !Mentions(lines[i], Result(lines[j]).value))
      || (j == i && Result(lines[i]).Some?)
  {
  }

  // what one line does to the names
  function Released(newId: map<nat, nat>, l: Line): map<nat, nat> {
    if Input(l).Some? then newId - {Input(l).value} else newId
  }

  function Defined(newId: map<nat, nat>, l: Line, next: nat): map<nat, nat> {
    if Result(l).Some? then newId[Result(l).value := next] else newId
  }

  lemma NamesStep(lines: seq<Line>, i: nat, newId: map<nat, nat>)
    requires i < |lines| && Names(lines, i, newId)
    requires Result(lines[i]).Some? ==> Result(lines[i]).value !in Released(newId, lines[i])
    ensures Names(lines, i + 1, Defined(Released(newId, lines[i]), lines[i], Defs(lines, i)))
  {
    var l := lines[i];
    var newId' := Defined(Released(newId, l), l, Defs(lines, i));
    forall id | id in newId' ensures Named(lines, i + 1, newId', id) {
      if Result(l) == Some(id) {
        OpenStep(lines, i, i);
        assert NamedBy(lines, i + 1, newId', id, i);
      } else {
        assert Named(lines, i, newId, id);
        var j: nat :| NamedBy(lines, i, newId, id, j);
        OpenStep(lines, j, i);
        assert NamedBy(lines, i + 1, newId', id, j);
      }
    }
    forall j: nat | Open(lines, j, i + 1) ensures Result(lines[j]).value in newId' {
      OpenStep(lines, j, i);
    }
  }

  // a named input is the use of its definition
  lemma NamedInput(lines: seq<Line>, i: nat, newId: map<nat, nat>) returns (j: nat)
    requires i < |lines| && Names(lines, i, newId) && Input(lines[i]).Some? && Input(lines[i]).value in newId
    ensures Uses(lines, j, i) && newId[Input(lines[i]).value] == Defs(lines, j)
    ensures HasDef(lines, i) && HasUse(lines, j)
  {
    assert Named(lines, i, newId, Input(lines[i]).value);
    j :| NamedBy(lines, i, newId, Input(lines[i]).value, j);
    assert Uses(lines, j, i);
  }

  lemma FineStep(lines: seq<Line>, i: nat, newId: map<nat, nat>)
    requires i < |lines| && FineUpTo(lines, i) && Names(lines, i, newId) && lines[i] != NotSet
    requires Input(lines[i]).Some? ==> Input(lines[i]).value in newId
    requires Result(lines[i]).Some? ==> Result(lines[i]).value !in Released(newId, lines[i])
    ensures FineUpTo(lines, i + 1)
  {
    if Input(lines[i]).Some? {
      var d := NamedInput(lines, i, newId);
    }
    forall j | 0 <= j < i + 1 && Result(lines[j]).Some? ensures Open(lines, j, i + 1) || HasUse(lines, j) {
      OpenStep(lines, j, i);
      if Open(lines, j, i) && Input(lines[i]) == Result(lines[j]) {
        assert Uses(lines, j, i);
      }
    }
  }

  // ---------- the refusals ----------

  /** What the first line that cannot be rewritten, or the end of the trace, is refused for. */
  ghost predicate Diagnosed(lines: seq<Line>, i: nat, error: Error) {
    && i <= |lines| && FineUpTo(lines, i)
    && match error
       case OpNotSet => i < |lines| && lines[i] == NotSet
       case UnknownInput(id) => i < |lines| && Input(lines[i]) == Some(id) && !HasDef(lines, i)
       case DuplicateResult(id) =>
         && i < |lines| && (Input(lines[i]).Some? ==> HasDef(lines, i))
         && Result(lines[i]) == Some(id) && Input(lines[i]) != Some(id) && InUse(lines, i, id)
       case NotAllFreed => i == |lines| && exists id :: InUse(lines, i, id)
  }

  // line i starts with an open definition of the id
  ghost predicate InUse(lines: seq<Line>, i: nat, id: nat) {
    exists j: nat :: Open(lines, j, i) && Result(lines[j]) == Some(id)
  }

  lemma UnknownIsIllFormed(lines: seq<Line>, i: nat, newId: map<nat, nat>)
    requires i < |lines| && Names(lines, i, newId) && Input(lines[i]).Some? && Input(lines[i]).value !in newId
    ensures !WellFormed(lines)
    ensures FineUpTo(lines, i) ==> Diagnosed(lines, i, UnknownInput(Input(lines[i]).value))
  {
    assert forall j: nat :: Open(lines, j, i) ==> Result(lines[j]) != Input(lines[i]);
    assert !HasDef(lines, i);
  }

  // a definition that another one follows, or nothing, has no use
  lemma DuplicateIsIllFormed(lines: seq<Line>, i: nat, newId: map<nat, nat>)
    requires i < |lines| && Names(lines, i, newId)
    requires Result(lines[i]).Some? && Result(lines[i]).value in Released(newId, lines[i])
    ensures !WellFormed(lines)
    ensures FineUpTo(lines, i) && (Input(lines[i]).Some? ==> Input(lines[i]).value in newId) ==>
      Diagnosed(lines, i, DuplicateResult(Result(lines[i]).value))
  {
    var id := Result(lines[i]).value;
    assert Named(lines, i, newId, id);
    var j: nat :| NamedBy(lines, i, newId, id, j);
    if Input(lines[i]).Some? && Input(lines[i]).value in newId {
      var d := NamedInput(lines, i, newId);
    }
    assert Mentions(lines[i], id);
    assert !HasUse(lines, j) by {
      forall k: nat ensures !Uses(lines, j, k) {
        if j < k < i {
          assert !Mentions(lines[k], id);
        }
      }
    }
  }

  lemma LeftoverIsIllFormed(lines: seq<Line>, newId: map<nat, nat>, id: nat)
    requires Names(lines, |lines|, newId) && id in newId
    ensures !WellFormed(lines)
    ensures FineUpTo(lines, |lines|) ==> Diagnosed(lines, |lines|, NotAllFreed)
  {
    assert Named(lines, |lines|, newId, id);
    var j: nat :| NamedBy(lines, |lines|, newId, id, j);
    assert InUse(lines, |lines|, id);
    assert !HasUse(lines, j) by {
      forall k: nat ensures !Uses(lines, j, k) {
        if j < k < |lines| {
          assert !Mentions(lines[k], id);
        }
      }
    }
  }

  lemma FineIsWellFormed(lines: seq<Line>, newId: map<nat, nat>)
    requires FineUpTo(lines, |lines|) && Names(lines, |lines|, newId) && newId == map[]
    ensures WellFormed(lines)
  {
    assert forall j: nat :: !Open(lines, j, |lines|);
  }

  // ---------- the rewrite ----------

  // the line with its input and its result renamed, as far as it has them
  function Relabel(l: Line, input: nat, result: nat): Line {
    var l1 := if Input(l).Some? then SetInput(l, input) else l;
    if Result(l).Some? then SetResult(l1, result) else l1
  }

  lemma RelabelIs(l: Line, input: nat, result: nat)
    ensures var l' := Relabel(l, input, result);
      && Shape(l') == Shape(l)
      && Input(l') == (if Input(l).Some? then Some(input) else None)
      && Result(l') == (if Result(l).Some? then Some(result) else None)
  {
  }

  lemma RenamedStep(lines: seq<Line>, lines': seq<Line>, i: nat, newId: map<nat, nat>, input: nat)
    requires i < |lines| == |lines'| && Renamed(lines, lines', i) && Names(lines, i, newId)
    requires Input(lines[i]).Some? ==> Input(lines[i]).value in newId && newId[Input(lines[i]).value] == input
    ensures Renamed(lines, lines'[i := Relabel(lines[i], input, Defs(lines, i))], i + 1)
  {
    hide Defs, Relabel, Shape;
    var l := Relabel(lines[i], input, Defs(lines, i));
    RelabelIs(lines[i], input, Defs(lines, i));
    forall j: nat | Uses(lines, j, i) ensures Input(l) == Some(Defs(lines, j)) {
      var d := NamedInput(lines, i, newId);
      UsesUnique(lines, j, i, d, i);
    }
  }

  // ---------- what the rewrite achieves ----------

  // every id is defined by one line and consumed by one later line
  ghost predicate SingleAssignment(lines: seq<Line>) {
    && (forall i :: 0 <= i < |lines| && Result(lines[i]).Some? ==> Result(lines[i]).value < |lines|)
    && (forall i, j :: 0 <= i < j < |lines| && Result(lines[i]).Some? ==> Result(lines[i]) != Result(lines[j]))
    && (forall i, j :: 0 <= i < j < |lines| && Input(lines[i]).Some? ==> Input(lines[i]) != Input(lines[j]))
    && (forall i :: 0 <= i < |lines| && Input(lines[i]).Some? ==> exists j :: Feeds(lines, j, i))
    && (forall j :: 0 <= j < |lines| && Result(lines[j]).Some? ==> exists i :: Feeds(lines, j, i))
  }

  ghost predicate Feeds(lines: seq<Line>, j: int, i: int) {
    0 <= j < i < |lines| && Result(lines[j]).Some? && Input(lines[i]) == Result(lines[j])
  }

  lemma {:induction false} DefsBound(lines: seq<Line>, i: nat)
    requires i <= |lines|
    ensures Defs(lines, i) <= i
  {
    if i > 0 {
      DefsBound(lines, i - 1);
    }
  }

  lemma ShapeIs(l: Line, l': Line)
    requires Shape(l') == Shape(l)
    ensures Input(l').Some? == Input(l).Some? && Result(l').Some? == Result(l).Some?
    ensures l' == NotSet <==> l == NotSet
  {
  }

  lemma RenamedAt(lines: seq<Line>, lines': seq<Line>, i: nat)
    requires |lines'| == |lines| && Renamed(lines, lines', |lines|) && i < |lines|
    ensures Input(lines'[i]).Some? == Input(lines[i]).Some? && Result(lines'[i]).Some? == Result(lines[i]).Some?
    ensures Result(lines[i]).Some? ==> Result(lines'[i]) == Some(Defs(lines, i)) && Defs(lines, i) < |lines|
  {
    hide Defs, Shape, Uses;
    ShapeIs(lines[i], lines'[i]);
    DefsBound(lines, i);
  }

  // different definitions have different numbers
  lemma DefsApart(lines: seq<Line>, i: nat, j: nat)
    requires i < |lines| && j < |lines| && Result(lines[i]).Some? && Result(lines[j]).Some?
    ensures Defs(lines, i) == Defs(lines, j) <==> i == j
  {
    if i < j {
      DefsOrder(lines, i, j);
    } else if j < i {
      DefsOrder(lines, j, i);
    }
  }

  // the rewritten trace has the definition-use pairs of the original, in single assignment form
  lemma RewrittenFeeds(lines: seq<Line>, lines': seq<Line>, j: nat, i: nat)
    requires WellFormed(lines) && |lines'| == |lines| && Renamed(lines, lines', |lines|)
    ensures Feeds(lines', j, i) <==> Uses(lines, j, i)
  {
    hide Defs, Shape, Open;
    if Uses(lines, j, i) {
      UsesParts(lines, j, i);
    }
    if i < |lines| && j < |lines| {
      RenamedAt(lines, lines', i);
      RenamedAt(lines, lines', j);
      if Input(lines[i]).Some? && Result(lines[j]).Some? {
        assert HasDef(lines, i);
        var d: nat :| Uses(lines, d, i);
        UsesParts(lines, d, i);
        DefsApart(lines, d, j);
      }
    }
  }

  lemma UsesParts(lines: seq<Line>, j: nat, i: nat)
    requires Uses(lines, j, i)
    ensures j < i < |lines| && Result(lines[j]).Some? && Input(lines[i]) == Result(lines[j])
  {
  }

  lemma InputsApart(lines: seq<Line>, lines': seq<Line>, i: nat, j: nat)
    requires WellFormed(lines) && |lines'| == |lines| && Renamed(lines, lines', |lines|)
    requires i < j < |lines| && Input(lines'[i]).Some?
    ensures Input(lines'[i]) != Input(lines'[j])
  {
    hide Defs, Shape, Open;
    RenamedAt(lines, lines', i);
    RenamedAt(lines, lines', j);
    assert HasDef(lines, i);
    var d: nat :| Uses(lines, d, i);
    if Input(lines[j]).Some? {
      assert HasDef(lines, j);
      var e: nat :| Uses(lines, e, j);
      UsesParts(lines, d, i);
      UsesParts(lines, e, j);
      DefsApart(lines, d, e);
      if d == e {
        UsesUnique(lines, d, i, e, j);
      }
    }
  }

  lemma RewrittenResults(lines: seq<Line>, lines': seq<Line>)
    requires |lines'| == |lines| && Renamed(lines, lines', |lines|)
    ensures forall i :: 0 <= i < |lines| && Result(lines'[i]).Some? ==> Result(lines'[i]).value < |lines|
    ensures forall i, j :: 0 <= i < j < |lines| && Result(lines'[i]).Some? ==> Result(lines'[i]) != Result(lines'[j])
  {
    hide Defs, Shape, Uses;
    forall i | 0 <= i < |lines| && Result(lines'[i]).Some? ensures Result(lines'[i]).value < |lines| {
      RenamedAt(lines, lines', i);
    }
    forall i, j | 0 <= i < j < |lines| && Result(lines'[i]).Some? ensures Result(lines'[i]) != Result(lines'[j]) {
      RenamedAt(lines, lines', i);
      RenamedAt(lines, lines', j);
      if Result(lines[j]).Some? {
        DefsApart(lines, i, j);
      }
    }
  }

  /** The rewritten trace is in single assignment form. */
  lemma RewrittenIsSingleAssignment(lines: seq<Line>, lines': seq<Line>)
    requires WellFormed(lines) && |lines'| == |lines| && Renamed(lines, lines', |lines|)
    ensures SingleAssignment(lines')
  {
    hide Defs, Shape, Open, Uses;
    RewrittenResults(lines, lines');
    forall i, j | 0 <= i < j < |lines| && Input(lines'[i]).Some? ensures Input(lines'[i]) != Input(lines'[j]) {
      InputsApart(lines, lines', i, j);
    }
    forall i | 0 <= i < |lines| && Input(lines'[i]).Some? ensures exists j :: Feeds(lines', j, i) {
      RenamedAt(lines, lines', i);
      assert HasDef(lines, i);
      var d: nat :| Uses(lines, d, i);
      RewrittenFeeds(lines, lines', d, i);
    }
    forall j | 0 <= j < |lines| && Result(lines'[j]).Some? ensures exists i :: Feeds(lines', j, i) {
      RenamedAt(lines, lines', j);
      assert HasUse(lines, j);
      var u: nat :| Uses(lines, j, u);
      RewrittenFeeds(lines, lines', j, u);
    }
  }

  // the ids are the numbers below the count of definitions, without gaps
  lemma {:induction false} RewrittenIds(lines: seq<Line>, lines': seq<Line>, n: nat, id: nat)
    requires |lines'| == |lines| && Renamed(lines, lines', |lines|) && n <= |lines|
    ensures Defs(lines, n) <= n
    ensures id < Defs(lines, n) <==> exists i :: 0 <= i < n && Result(lines'[i]) == Some(id)
  {
    hide Renamed, WellFormed, Shape;
    DefsBound(lines, n);
    if n > 0 {
      RewrittenIds(lines, lines', n - 1, id);
      RenamedAt(lines, lines', n - 1);
      DefsStep(lines, n - 1);
    }
  }

  class Tracefile {
    var lines: seq<Line>

    constructor (lines: seq<Line>)
      ensures this.lines == lines
    {
      this.lines := lines;
    }

    /** RewriteIdsToUnique.  The four kinds of line release their input, if they have one, and
        define their result, if they have one, in this order. */
    method RewriteIdsToUnique() returns (error: Option<Error>)
      modifies this
      ensures error == None <==> WellFormed(old(lines))
      ensures error.Some? ==> exists i :: Diagnosed(old(lines), i, error.value)
      ensures error == None ==> |lines| == |old(lines)| && Renamed(old(lines), lines, |lines|)
    {
      hide Diagnosed;
      ghost var was := lines;
      var nextId := 0;
      var newId: map<nat, nat> := map[];
      var i := 0;
      while i < |lines|
        invariant i <= |lines| == |was| && lines[i..] == was[i..]
        invariant nextId == Defs(was, i) && Names(was, i, newId) && FineUpTo(was, i) && Renamed(was, lines, i)
      {
        hide Names, FineUpTo, Renamed, WellFormed, Defs;
        var l := lines[i];
        assert l == was[i] by {
          assert lines[i..][0] == was[i..][0];
        }
        ghost var names, input := newId, 0;
        if l == NotSet {
          NotSetIsIllFormed(was, i);
          return Some(OpNotSet);
        }
        if Input(lines[i]).Some? {
          var id := Input(lines[i]).value;
          if id !in newId {
            UnknownIsIllFormed(was, i, newId);
            return Some(UnknownInput(id));
          }
          input := newId[id];
          l := SetInput(l, newId[id]);
          newId := newId - {id};
        }
        if Result(lines[i]).Some? {
          var id := Result(lines[i]).value;
          if id in newId {
            DuplicateIsIllFormed(was, i, names);
            return Some(DuplicateResult(id));
          }
          newId := newId[id := nextId];
          l := SetResult(l, nextId);
          nextId := nextId + 1;
        }
        assert l == Relabel(was[i], input, Defs(was, i));
        NamesStep(was, i, names);
        FineStep(was, i, names);
        RenamedStep(was, lines, i, names, input);
        DefsStep(was, i);
        assert lines[i := l][i + 1..] == lines[i..][1..];
        assert was[i + 1..] == was[i..][1..];
        lines := lines[i := l];
        i := i + 1;
      }
      if newId != map[] {
        ghost var id :| id in newId;
        LeftoverIsIllFormed(was, newId, id);
        return Some(NotAllFreed);
      }
      FineIsWellFormed(was, newId);
      return None;
    }
  }

  lemma NotSetIsIllFormed(lines: seq<Line>, i: nat)
    requires i < |lines| && lines[i] == NotSet
    ensures !WellFormed(lines)
    ensures FineUpTo(lines, i) ==> Diagnosed(lines, i, OpNotSet)
  {
  }

  lemma DefsStep(lines: seq<Line>, i: nat)
    requires i < |lines|
    ensures Defs(lines, i + 1) == Defs(lines, i) + if Result(lines[i]).Some? then 1 else 0
  {
  }
}
