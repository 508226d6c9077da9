/** A replay as a program: operation g is line g % n of the trace in its iteration g / n.  The
    ids that it consumes and defines are unique across all iterations. */
module Programs {
  import opened Arithmetic
  import opened Options
  import opened Traces
  import opened TraceRewrites

  // ConcurrentIdMap::UniqueId
  function UniqueId(id: nat, iteration: nat, n: nat): nat {
    id + iteration * n
  }

  // the line and the iteration of operation g
  function LineOf(g: nat, n: nat): nat
    requires n > 0
  {
    g % n
  }

  function IterationOf(g: nat, n: nat): nat
    requires n > 0
  {
    g / n
  }

  lemma UniqueIdParts(id: nat, iteration: nat, n: nat)
    requires id < n
    ensures IterationOf(UniqueId(id, iteration, n), n) == iteration && LineOf(UniqueId(id, iteration, n), n) == id
  {
    var u := UniqueId(id, iteration, n);
    Quotient(u, n, iteration, iteration);
    assert u == u / n * n + u % n;
  }

  // UniqueId is injective on the ids of a trace
  lemma UniqueIdInjective(id: nat, iteration: nat, id': nat, iteration': nat, n: nat)
    requires id < n && id' < n
    ensures UniqueId(id, iteration, n) == UniqueId(id', iteration', n) <==> id == id' && iteration == iteration'
  {
    hide UniqueId, LineOf, IterationOf;
    UniqueIdParts(id, iteration, n);
    UniqueIdParts(id', iteration', n);
  }

  // operation g consumes inp[g] and defines out[g]
  datatype Program = Program(inp: seq<Option<nat>>, out: seq<Option<nat>>)

  // operation p defines what operation g consumes
  ghost predicate Edge(prog: Program, p: int, g: int) {
    && 0 <= p < |prog.out| && 0 <= g < |prog.inp|
    && prog.out[p].Some? && prog.inp[g] == prog.out[p]
  }

  /** Single assignment: each id is defined once and consumed once, later. */
  ghost predicate Ssa(prog: Program) {
    && |prog.inp| == |prog.out|
    && (forall p, q :: 0 <= p < q < |prog.out| && prog.out[p].Some? ==> prog.out[p] != prog.out[q])
    && (forall g, h :: 0 <= g < h < |prog.inp| && prog.inp[g].Some? ==> prog.inp[g] != prog.inp[h])
    && (forall g :: 0 <= g < |prog.inp| && prog.inp[g].Some? ==> exists p :: Edge(prog, p, g))
    && (forall p :: 0 <= p < |prog.out| && prog.out[p].Some? ==> exists g :: Edge(prog, p, g))
    && (forall p, g :: Edge(prog, p, g) ==> p < g)
  }

  function AtIteration(id: Option<nat>, iteration: nat, n: nat): Option<nat> {
    if id == None then None else Some(UniqueId(id.value, iteration, n))
  }

  function InputAt(lines: seq<Line>, g: nat): Option<nat> {
    if lines == [] then None
    else AtIteration(Input(lines[LineOf(g, |lines|)]), IterationOf(g, |lines|), |lines|)
  }

  function ResultAt(lines: seq<Line>, g: nat): Option<nat> {
    if lines == [] then None
    else AtIteration(Result(lines[LineOf(g, |lines|)]), IterationOf(g, |lines|), |lines|)
  }

  // the whole replay
  function Replayed(lines: seq<Line>, repetitions: nat): Program {
    Program(seq(repetitions * |lines|, g requires g >= 0 => InputAt(lines, g)),
            seq(repetitions * |lines|, g requires g >= 0 => ResultAt(lines, g)))
  }

  lemma InputBound(lines: seq<Line>, i: nat)
    requires SingleAssignment(lines) && i < |lines| && Input(lines[i]).Some?
    ensures Input(lines[i]).value < |lines|
  {
    var j :| Feeds(lines, j, i);
  }

  // an operation is its line and its iteration
  lemma Parts(g: nat, n: nat)
    requires n > 0
    ensures LineOf(g, n) < n && g == UniqueId(LineOf(g, n), IterationOf(g, n), n)
  {
  }

  // the results, and the inputs, of different operations differ
  lemma ResultsApart(lines: seq<Line>, g: nat, h: nat)
    requires SingleAssignment(lines) && ResultAt(lines, g).Some? && g != h
    ensures ResultAt(lines, g) != ResultAt(lines, h)
  {
    hide UniqueId, LineOf, IterationOf, SingleAssignment;
    var n := |lines|;
    Parts(g, n);
    Parts(h, n);
    var i, j := LineOf(g, n), LineOf(h, n);
    ResultsOfLines(lines, i, j);
    if Result(lines[j]).Some? {
      UniqueIdInjective(Result(lines[i]).value, IterationOf(g, n), Result(lines[j]).value, IterationOf(h, n), n);
    }
  }

  lemma ResultsOfLines(lines: seq<Line>, i: nat, j: nat)
    requires SingleAssignment(lines) && i < |lines| && j < |lines| && Result(lines[i]).Some?
    ensures Result(lines[i]) == Result(lines[j]) <==> i == j
    ensures Result(lines[i]).value < |lines| && (Result(lines[j]).Some? ==> Result(lines[j]).value < |lines|)
  {
  }

  lemma InputsOfLines(lines: seq<Line>, i: nat, j: nat)
    requires SingleAssignment(lines) && i < |lines| && j < |lines| && Input(lines[i]).Some?
    ensures Input(lines[i]) == Input(lines[j]) <==> i == j
  {
  }

  lemma InputsDiffer(lines: seq<Line>, g: nat, h: nat)
    requires SingleAssignment(lines) && InputAt(lines, g).Some? && g != h
    ensures InputAt(lines, g) != InputAt(lines, h)
  {
    hide UniqueId, LineOf, IterationOf, SingleAssignment;
    var n := |lines|;
    Parts(g, n);
    Parts(h, n);
    var i, j := LineOf(g, n), LineOf(h, n);
    InputBound(lines, i);
    InputsOfLines(lines, i, j);
    if Input(lines[j]).Some? {
      InputBound(lines, j);
      UniqueIdInjective(Input(lines[i]).value, IterationOf(g, n), Input(lines[j]).value, IterationOf(h, n), n);
    }
  }

  // an edge joins two lines of the same iteration
  lemma EdgeIs(lines: seq<Line>, p: nat, g: nat)
    requires SingleAssignment(lines) && |lines| > 0
    ensures var n := |lines|;
      ResultAt(lines, p).Some? && InputAt(lines, g) == ResultAt(lines, p) <==>
        IterationOf(p, n) == IterationOf(g, n) && Feeds(lines, LineOf(p, n), LineOf(g, n))
  {
    hide UniqueId, LineOf, IterationOf;
    var n := |lines|;
    Parts(p, n);
    Parts(g, n);
    var j, i := LineOf(p, n), LineOf(g, n);
    if Result(lines[j]).Some? && Input(lines[i]).Some? {
      InputBound(lines, i);
      UniqueIdInjective(Result(lines[j]).value, IterationOf(p, n), Input(lines[i]).value, IterationOf(g, n), n);
      var d :| Feeds(lines, d, i);
    }
  }

  // line i in the iteration of an operation of the replay is one, too
  lemma SameIteration(g: nat, i: nat, n: nat, repetitions: nat)
    requires i < n && g < repetitions * n
    ensures UniqueId(i, IterationOf(g, n), n) < repetitions * n
    ensures i < LineOf(g, n) ==> UniqueId(i, IterationOf(g, n), n) < g
  {
    assert g == g / n * n + g % n;
    if g / n >= repetitions {
      MulMonotone(repetitions, g / n, n);
    }
    MulBounds(g / n, repetitions, n);
  }

  lemma ReplayedAt(lines: seq<Line>, repetitions: nat, g: nat)
    requires g < repetitions * |lines|
    ensures var prog := Replayed(lines, repetitions);
      && |prog.inp| == |prog.out| == repetitions * |lines|
      && prog.inp[g] == InputAt(lines, g) && prog.out[g] == ResultAt(lines, g)
  {
  }

  lemma Definition(lines: seq<Line>, repetitions: nat, g: nat) returns (p: nat)
    requires SingleAssignment(lines) && g < repetitions * |lines| && InputAt(lines, g).Some?
    ensures Edge(Replayed(lines, repetitions), p, g)
  {
    var n := |lines|;
    Parts(g, n);
    hide UniqueId, LineOf, IterationOf, Replayed;
    var j: nat :| Feeds(lines, j, LineOf(g, n));
    p := UniqueId(j, IterationOf(g, n), n);
    UniqueIdParts(j, IterationOf(g, n), n);
    SameIteration(g, j, n, repetitions);
    EdgeIs(lines, p, g);
    ReplayedAt(lines, repetitions, p);
    ReplayedAt(lines, repetitions, g);
  }

  lemma Consumption(lines: seq<Line>, repetitions: nat, p: nat) returns (g: nat)
    requires SingleAssignment(lines) && p < repetitions * |lines| && ResultAt(lines, p).Some?
    ensures Edge(Replayed(lines, repetitions), p, g)
  {
    var n := |lines|;
    Parts(p, n);
    hide UniqueId, LineOf, IterationOf, Replayed;
    var i: nat :| Feeds(lines, LineOf(p, n), i);
    g := UniqueId(i, IterationOf(p, n), n);
    UniqueIdParts(i, IterationOf(p, n), n);
    SameIteration(p, i, n, repetitions);
    EdgeIs(lines, p, g);
    ReplayedAt(lines, repetitions, p);
    ReplayedAt(lines, repetitions, g);
  }

  lemma EdgeForward(lines: seq<Line>, repetitions: nat, p: nat, g: nat)
    requires SingleAssignment(lines) && |lines| > 0 && g < repetitions * |lines|
    requires ResultAt(lines, p).Some? && InputAt(lines, g) == ResultAt(lines, p)
    ensures p < g
  {
    var n := |lines|;
    hide UniqueId, LineOf, IterationOf, InputAt, ResultAt;
    EdgeIs(lines, p, g);
    Parts(p, n);
    SameIteration(g, LineOf(p, n), n, repetitions);
  }

  /** A replay of a rewritten trace is a single assignment program, however often the trace is
      repeated. */
  lemma ReplayedIsSsa(lines: seq<Line>, repetitions: nat)
    requires SingleAssignment(lines)
    ensures Ssa(Replayed(lines, repetitions))
  {
    hide SingleAssignment, InputAt, ResultAt;
    var prog := Replayed(lines, repetitions);
    forall p, q | 0 <= p < q < |prog.out| && prog.out[p].Some? ensures prog.out[p] != prog.out[q] {
      ResultsApart(lines, p, q);
    }
    forall g, h | 0 <= g < h < |prog.inp| && prog.inp[g].Some? ensures prog.inp[g] != prog.inp[h] {
      InputsDiffer(lines, g, h);
    }
    forall g | 0 <= g < |prog.inp| && prog.inp[g].Some? ensures exists p :: Edge(prog, p, g) {
      var p := Definition(lines, repetitions, g);
    }
    forall p | 0 <= p < |prog.out| && prog.out[p].Some? ensures exists g :: Edge(prog, p, g) {
      var g := Consumption(lines, repetitions, p);
    }
    forall p, g | Edge(prog, p, g) ensures p < g {
      ReplayedAt(lines, repetitions, p);
      EdgeForward(lines, repetitions, p, g);
    }
  }
}
