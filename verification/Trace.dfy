/** Trace lines and the ids they mention.  Alignments and size hints are not part of this model. */
module Traces {
  import opened Options

  datatype Line =
    | Malloc(result: Option<nat>, size: nat)
    | Calloc(result: Option<nat>, nmemb: nat, size: nat)
    | Realloc(input: Option<nat>, id: nat, size: nat)
    | Free(input: Option<nat>)
    | NotSet

  // LocalIdMap::InputAndResultIds
  function Input(l: Line): Option<nat> {
    if l.Realloc? || l.Free? then l.input else None
  }

  function Result(l: Line): Option<nat> {
    match l
    case Malloc(r, _) => r
    case Calloc(r, _, _) => r
    case Realloc(_, id, _) => Some(id)
    case Free(_) => None
    case NotSet => None
  }

  // LocalIdMap::SetInputId
  function SetInput(l: Line, id: nat): Line {
    if l.Realloc? || l.Free? then l.(input := Some(id)) else l
  }

  // LocalIdMap::SetResultId
  function SetResult(l: Line, id: nat): Line {
    if l.Malloc? || l.Calloc? then l.(result := Some(id))
    else if l.Realloc? then l.(id := id) else l
  }

  // the line mentions the id
  predicate Mentions(l: Line, id: nat) {
    Input(l) == Some(id) || Result(l) == Some(id)
  }

  // no line strictly between j and i mentions the id
  ghost predicate Untouched(lines: seq<Line>, id: nat, j: nat, i: nat) {
    forall k :: j < k < i && k < |lines| ==> !Mentions(lines[k], id)
  }

  // what line j defined is still there when line i starts
  ghost predicate Open(lines: seq<Line>, j: nat, i: nat) {
    j < i <= |lines| && Result(lines[j]).Some? && Untouched(lines, Result(lines[j]).value, j, i)
  }

  // line i consumes what line j defined
  ghost predicate Uses(lines: seq<Line>, j: nat, i: nat) {
    i < |lines| && Open(lines, j, i) && Input(lines[i]) == Result(lines[j])
  }

  ghost predicate HasDef(lines: seq<Line>, i: nat) {
    exists j: nat :: Uses(lines, j, i)
  }

  ghost predicate HasUse(lines: seq<Line>, j: nat) {
    exists i: nat :: Uses(lines, j, i)
  }

  /** A trace that can be replayed: every id that a line consumes was defined before, and every
      id that is defined is consumed before it is defined again. */
  ghost predicate WellFormed(lines: seq<Line>) {
    && (forall i :: 0 <= i < |lines| ==> lines[i] != NotSet)
    && (forall i :: 0 <= i < |lines| && Input(lines[i]).Some? ==> HasDef(lines, i))
    && (forall j :: 0 <= j < |lines| && Result(lines[j]).Some? ==> HasUse(lines, j))
  }

  // the line with its ids taken out
  function Shape(l: Line): Line {
    match l
    case Malloc(r, s) => Malloc(if r.Some? then Some(0) else None, s)
    case Calloc(r, n, s) => Calloc(if r.Some? then Some(0) else None, n, s)
    case Realloc(i, _, s) => Realloc(if i.Some? then Some(0) else None, 0, s)
    case Free(i) => Free(if i.Some? then Some(0) else None)
    case NotSet => NotSet
  }

  ghost predicate SameShape(a: seq<Line>, b: seq<Line>) {
    |a| == |b| && forall i :: 0 <= i < |a| ==> Shape(a[i]) == Shape(b[i])
  }

  // number of results that the first i lines define
  function Defs(lines: seq<Line>, i: nat): nat
    requires i <= |lines|
  {
    if i == 0 then 0 else Defs(lines, i - 1) + if Result(lines[i - 1]).Some? then 1 else 0
  }

  lemma {:induction false} DefsOrder(lines: seq<Line>, i: nat, j: nat)
    requires i < j <= |lines|
    ensures Defs(lines, i) <= Defs(lines, j) && Defs(lines, j) <= Defs(lines, i) + (j - i)
    ensures Result(lines[i]).Some? ==> Defs(lines, i) < Defs(lines, j)
  {
    if j > i + 1 {
      DefsOrder(lines, i, j - 1);
    }
  }

  // the definition that a line consumes is the only one, and so is the consumer
  lemma UsesUnique(lines: seq<Line>, j: nat, i: nat, j': nat, i': nat)
    requires Uses(lines, j, i) && Uses(lines, j', i')
    ensures i == i' ==> j == j'
    ensures j == j' ==> i == i'
  {
    if i == i' && j < j' {
      assert Mentions(lines[j'], Result(lines[j]).value);
    } else if i == i' && j' < j {
      assert Mentions(lines[j], Result(lines[j']).value);
    }
    if j == j' && i < i' {
      assert Mentions(lines[i], Result(lines[j]).value);
    } else if j == j' && i' < i {
      assert Mentions(lines[i'], Result(lines[j]).value);
    }
  }
}
