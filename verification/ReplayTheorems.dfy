/** Runs of a replay: every interleaving of the workers' steps from the start. */
module ReplayTheorems {
  import opened Batches
  import opened Options
  import opened Programs
  import opened ReplayInvariants
  import opened Replays
  import opened ReplaySteps
  import opened Traces
  import opened TraceRewrites

  datatype Action =
    | TakeQueue(t: nat) | FetchAdd(t: nat) | Store(t: nat) | CheckNext(t: nat)
    | MakeNext(t: nat) | EraseInput(t: nat) | Barrier
    | Insert(t: nat, u: nat) | AssignPtr(t: nat) | PushWoken(t: nat) | EndFlush(t: nat) | NextBarrier

  // the step functions are defined where the invariant holds, and so wherever a run gets
  ghost predicate Step(prog: Program, s: State, a: Action, s': State) {
    match a
    case TakeQueue(t) => At(prog, s, t, Start) && s' == Take(prog, s, t)
    case FetchAdd(t) => At(prog, s, t, Claim) && |s.threads[t].batch| <= BATCH_SIZE && s' == ClaimStep(prog, s, t)
    case Store(t) => At(prog, s, t, Clamp) && s' == ClampStep(prog, s, t)
    case CheckNext(t) => At(prog, s, t, Check) && s.threads[t].end <= Total(prog) && s' == CheckStep(prog, s, t)
    case MakeNext(t) => At(prog, s, t, Make) && OpsOf(prog, s.threads[t]) && s' == MakeStep(prog, s, t)
    case EraseInput(t) => At(prog, s, t, Erase) && HasInput(prog, s.threads[t]) && s' == EraseStep(prog, s, t)
    case Barrier => AllReady(s) && s' == BarrierStep(s)
    case Insert(t, u) => At(prog, s, t, Flush) && u in s.threads[t].live && s' == FlushStep(prog, s, t, u)
    case AssignPtr(t) => At(prog, s, t, Assign) && s.threads[t].woken < |s.loc| && s' == AssignStep(prog, s, t)
    case PushWoken(t) => At(prog, s, t, Push) && s.threads[t].woken < |s.loc| && s' == PushStep(prog, s, t)
    case EndFlush(t) => At(prog, s, t, Flush) && s.threads[t].live == {} && s' == FlushEnd(prog, s, t)
    case NextBarrier => AllFlushed(s) && s' == NextRound(s)
  }

  predicate OpsOf(prog: Program, th: Thread) {
    forall k :: 0 <= k < |th.batch| ==> th.batch[k] < Total(prog)
  }

  predicate HasInput(prog: Program, th: Thread) {
    th.cursor < |th.batch| && th.batch[th.cursor] < Total(prog) && prog.inp[th.batch[th.cursor]].Some?
  }

  lemma StepOk(prog: Program, s: State, a: Action, s': State)
    requires Ssa(prog) && Inv(prog, s) && Step(prog, s, a, s')
    ensures Inv(prog, s')
  {
    hide Ssa, Inv;
    match a
    case TakeQueue(t) => TakeOk(prog, s, t);
    case FetchAdd(t) => ClaimOk(prog, s, t);
    case Store(t) => ClampOk(prog, s, t);
    case CheckNext(t) => CheckOk(prog, s, t);
    case MakeNext(t) => MakeOk(prog, s, t);
    case EraseInput(t) => EraseOk(prog, s, t);
    case Barrier => BarrierOk(prog, s);
    case Insert(t, u) => FlushOk(prog, s, t, u);
    case AssignPtr(t) => AssignOk(prog, s, t);
    case PushWoken(t) => PushOk(prog, s, t);
    case EndFlush(t) => FlushEndOk(prog, s, t);
    case NextBarrier => NextRoundOk(prog, s);
  }

  // a run of any number of workers, step by step
  ghost predicate Run(prog: Program, workers: nat, states: seq<State>) {
    && states != [] && states[0] == Init(prog, workers)
    && forall i :: 0 < i < |states| ==> Follows(prog, states, i)
  }

  ghost predicate Follows(prog: Program, states: seq<State>, i: nat)
    requires 0 < i < |states|
  {
    var before, after := states[i - 1], states[i];
    exists a :: Step(prog, before, a, after)
  }

  lemma {:induction false} RunOk(prog: Program, workers: nat, states: seq<State>, i: nat)
    requires Ssa(prog) && Run(prog, workers, states) && i < |states|
    ensures Inv(prog, states[i])
  {
    hide Ssa, Inv, Step, Init;
    if i == 0 {
      InitOk(prog, workers);
    } else {
      RunOk(prog, workers, states, i - 1);
      assert Follows(prog, states, i);
      var a :| Step(prog, states[i - 1], a, states[i]);
      StepOk(prog, states[i - 1], a, states[i]);
    }
  }

  // ---------- nothing goes wrong ----------

  /** What the workers would report, or read wrongly: a lookup that finds nothing or a parked
      operation, an id produced twice in a batch, an erasure that finds nothing, a recorded id that
      has a pointer already, an assignment that finds nothing. */
  ghost predicate GoesWrong(prog: Program, s: State, t: nat) {
    t < |s.threads| && var th := s.threads[t];
    match th.pc
    case Make =>
      th.cursor < |th.batch| && th.batch[th.cursor] < |prog.inp| == |prog.out| &&
      var g := th.batch[th.cursor];
      || (prog.inp[g].Some? && prog.inp[g].value !in th.live
          && (prog.inp[g].value !in s.ids || s.ids[prog.inp[g].value].Marker?))
      || (prog.out[g].Some? && prog.out[g].value in th.live && prog.out[g] != prog.inp[g])
    case Erase => HasInput(prog, th) && prog.inp[th.batch[th.cursor]].value !in s.ids
    case Flush => exists u :: u in th.live && u in s.ids && s.ids[u].Ptr?
    case Assign => th.wokenId !in s.ids
    case _ => false
  }

  // the input that is looked up is the pointer that its producer returned
  lemma LookupFinds(prog: Program, s: State, t: nat, g: nat) returns (p: nat)
    requires Ssa(prog) && Inv(prog, s) && Current(prog, s, t, g)
    requires prog.inp[g].Some? && prog.inp[g].value !in s.threads[t].live
    ensures prog.inp[g].value in s.ids && s.ids[prog.inp[g].value] == Ptr(p) && Edge(prog, p, g) && s.loc[p] == Done
  {
    hide BatchesOk, QueueOk, KeysOk, ParkedOk, Served, WokenOk, ClaimedOk, AllSetsOk, ThreadsOk, Ssa, EdgesOk;
    p := InputEdge(prog, s, g);
    hide Inv;
    CurrentInput(prog, s, t, g, p);
  }

  // ... and the input that is not looked up was produced earlier in the batch
  lemma LocalComesFrom(prog: Program, s: State, t: nat, g: nat) returns (p: nat)
    requires Ssa(prog) && Inv(prog, s) && Current(prog, s, t, g)
    requires prog.inp[g].Some? && prog.inp[g].value in s.threads[t].live
    ensures Edge(prog, p, g) && s.loc[p].InBatch? && s.loc[p].t == t && s.loc[p].k < s.threads[t].cursor
  {
    hide BatchesOk, QueueOk, KeysOk, ParkedOk, Served, WokenOk, ClaimedOk, AllSetsOk, ThreadsOk, Ssa, EdgesOk;
    p := InputEdge(prog, s, g);
    hide Inv;
    CurrentInput(prog, s, t, g, p);
  }

  lemma ResultIsNew(prog: Program, s: State, t: nat, g: nat)
    requires Ssa(prog) && Inv(prog, s) && Current(prog, s, t, g) && prog.out[g].Some?
    ensures prog.out[g].value !in s.threads[t].live
  {
    hide Inv, Ssa;
    if prog.out[g].value in s.threads[t].live {
      var p := LiveProducer(prog, s, t, prog.out[g].value);
    }
  }

  lemma NothingGoesWrong(prog: Program, s: State, t: nat)
    requires Ssa(prog) && Inv(prog, s)
    ensures !GoesWrong(prog, s, t)
  {
    hide Inv, Ssa, Current;
    if t < |s.threads| {
      var th := s.threads[t];
      BatchBound(prog, s, t);
      Locations(prog, s);
      if (th.pc == Make || th.pc == Erase) && th.cursor < |th.batch| {
        CurrentOk(prog, s, t);
        var g := th.batch[th.cursor];
        BatchOps(prog, s, t);
        if prog.inp[g].Some? && prog.inp[g].value !in th.live {
          var p := LookupFinds(prog, s, t, g);
        }
        if prog.out[g].Some? {
          ResultIsNew(prog, s, t, g);
        }
      }
      if th.pc == Flush {
        forall u | u in th.live && u in s.ids ensures s.ids[u].Marker? {
          var q := FlushFinds(prog, s, t, u);
        }
      }
      if th.pc == Assign {
        var q := AssignFinds(prog, s, t);
      }
    }
  }

  lemma Locations(prog: Program, s: State)
    requires Inv(prog, s)
    ensures |s.loc| == Total(prog) == |prog.out|
  {
  }

  // ---------- where operations are ----------

  /** Each operation is in exactly one place: which one it is can be read off the counter, the
      claimed ranges, the entries of the id map, the queue, and the batches. */
  lemma OnePlace(prog: Program, s: State, g: nat)
    requires Ssa(prog) && Inv(prog, s) && g < Total(prog)
    ensures s.loc[g] == Unclaimed <==> g >= s.idx
    ensures forall t :: 0 <= t < |s.threads| ==> (s.loc[g] == Claimed(t) <==> InRange(s.threads[t], g))
    ensures s.loc[g] == Parked <==> exists u :: u in s.ids && s.ids[u] == Marker(g)
    ensures forall t :: 0 <= t < |s.threads| ==> (s.loc[g] == Waking(t) <==> s.threads[t].pc == Push && s.threads[t].woken == g)
    ensures s.loc[g] == Queued <==> g in s.queue
    ensures forall t :: 0 <= t < |s.threads| ==> ((s.loc[g].InBatch? && s.loc[g].t == t) <==> g in s.threads[t].batch)
  {
    PlaceClaimed(prog, s, g);
    PlaceQueue(prog, s, g);
    PlaceBatch(prog, s, g);
    PlaceParked(prog, s, g);
    hide Inv, Ssa;
  }

  lemma PlaceClaimed(prog: Program, s: State, g: nat)
    requires ClaimedOk(prog, s) && g < |s.loc|
    ensures s.loc[g] == Unclaimed <==> g >= s.idx
    ensures forall t :: 0 <= t < |s.threads| ==> (s.loc[g] == Claimed(t) <==> InRange(s.threads[t], g))
  {
  }

  lemma PlaceQueue(prog: Program, s: State, g: nat)
    requires QueueOk(prog, s) && WokenOk(prog, s) && g < |s.loc|
    ensures s.loc[g] == Queued <==> g in s.queue
    ensures forall t :: 0 <= t < |s.threads| ==> (s.loc[g] == Waking(t) <==> s.threads[t].pc == Push && s.threads[t].woken == g)
  {
    if g in s.queue {
      var i :| 0 <= i < |s.queue| && s.queue[i] == g;
      assert HasLoc(s.loc, s.queue[i], Queued);
    }
  }

  lemma PlaceBatch(prog: Program, s: State, g: nat)
    requires BatchesOk(prog, s) && g < |s.loc|
    ensures forall t :: 0 <= t < |s.threads| ==> ((s.loc[g].InBatch? && s.loc[g].t == t) <==> g in s.threads[t].batch)
  {
    forall t | 0 <= t < |s.threads| && g in s.threads[t].batch ensures s.loc[g].InBatch? && s.loc[g].t == t {
      var k :| 0 <= k < |s.threads[t].batch| && s.threads[t].batch[k] == g;
      assert HasLoc(s.loc, s.threads[t].batch[k], InBatch(t, k));
    }
  }

  lemma PlaceParked(prog: Program, s: State, g: nat)
    requires Ssa(prog) && Inv(prog, s) && g < Total(prog)
    ensures s.loc[g] == Parked <==> exists u :: u in s.ids && s.ids[u] == Marker(g)
  {
    hide BatchesOk, QueueOk, ParkedOk, Served, WokenOk, ClaimedOk, AllSetsOk, ThreadsOk, Ssa, EdgesOk, KeysOk;
    if s.loc[g] == Parked {
      ParkedInput(prog, s, g);
      var p := InputEdge(prog, s, g);
      assert s.ids[prog.inp[g].value] == Marker(g);
    }
    forall u | u in s.ids && s.ids[u] == Marker(g) ensures s.loc[g] == Parked {
      var p := KeyProducer(prog, s, u);
      var h := ConsumerOf(prog, s, p);
    }
  }

  lemma ParkedInput(prog: Program, s: State, g: nat)
    requires ParkedOk(prog, s) && g < |s.loc| == |prog.inp| && s.loc[g] == Parked
    ensures prog.inp[g].Some?
  {
  }

  lemma KeyProducer(prog: Program, s: State, u: nat) returns (p: nat)
    requires KeysOk(prog, s) && u in s.ids
    ensures p < |prog.out| && prog.out[p] == Some(u)
  {
    assert HasProducer(prog, u);
    p :| p < |prog.out| && prog.out[p] == Some(u);
  }

  // ---------- the end ----------

  ghost predicate AllExited(s: State) {
    s.threads != [] && forall t :: 0 <= t < |s.threads| ==> s.threads[t].pc == Exited
  }

  // when all workers have left, the queue is empty, and an operation is done or parked
  lemma AllLeft(prog: Program, s: State)
    requires Inv(prog, s) && AllExited(s)
    ensures s.queue == [] && s.idx >= Total(prog)
    ensures forall t :: 0 <= t < |s.threads| ==> s.threads[t].batch == [] && s.threads[t].pc == Exited
  {
    hide Inv, ThreadOk, Serves;
    forall t | 0 <= t < |s.threads| ensures s.threads[t].batch == [] && s.idx >= Total(prog) && !Serves(s.threads[t]) {
      BatchBound(prog, s, t);
      Left(prog, s, s.threads[t]);
    }
    assert s.threads[0].batch == [];
    QueueServed(prog, s);
  }

  lemma DoneOrParked(prog: Program, s: State, g: nat)
    requires Ssa(prog) && Inv(prog, s) && AllExited(s) && g < Total(prog)
    ensures s.loc[g] == Done || s.loc[g] == Parked
  {
    hide Inv, Ssa, AllExited;
    AllLeft(prog, s);
    Locations(prog, s);
    OnePlace(prog, s, g);
    LocBounds(prog, s, g);
    assert !s.loc[g].Claimed? && !s.loc[g].InBatch? && !s.loc[g].Waking?;
  }

  lemma Left(prog: Program, s: State, th: Thread)
    requires ThreadOk(prog, s, th) && th.pc == Exited
    ensures th.batch == [] && s.idx >= Total(prog) && !Serves(th)
  {
  }

  lemma QueueServed(prog: Program, s: State)
    requires Inv(prog, s)
    ensures s.queue != [] ==> exists t :: 0 <= t < |s.threads| && Serves(s.threads[t])
  {
    hide BatchesOk, QueueOk, ParkedOk, WokenOk, ClaimedOk, AllSetsOk, ThreadsOk, EdgesOk, KeysOk;
  }

  lemma LocBounds(prog: Program, s: State, g: nat)
    requires Inv(prog, s) && g < Total(prog)
    ensures s.loc[g].Claimed? ==> s.loc[g].t < |s.threads| && InRange(s.threads[s.loc[g].t], g)
    ensures s.loc[g].InBatch? ==> s.loc[g].t < |s.threads| && s.threads[s.loc[g].t].batch != []
    ensures s.loc[g].Waking? ==> s.loc[g].t < |s.threads| && s.threads[s.loc[g].t].pc == Push
  {
    hide ParkedOk, WokenOk, AllSetsOk, ThreadsOk, EdgesOk, KeysOk, Served;
  }

  // nothing stays parked: the first parked operation would wait for one that is done
  lemma {:induction false} NoneParked(prog: Program, s: State, g: nat)
    requires Ssa(prog) && Inv(prog, s) && AllExited(s) && g < Total(prog)
    ensures s.loc[g] == Done
  {
    hide BatchesOk, QueueOk, ParkedOk, Served, WokenOk, ClaimedOk, AllSetsOk, ThreadsOk, Ssa, EdgesOk, KeysOk, AllExited;
    DoneOrParked(prog, s, g);
    if s.loc[g] == Parked {
      ParkedInput(prog, s, g);
      var p := InputEdge(prog, s, g);
      NoneParked(prog, s, p);
    }
  }

  /** When all workers have left, every operation has been executed, no entry is left in the id
      map, and the queue is empty: no wakeup is lost. */
  lemma AllDone(prog: Program, s: State)
    requires Ssa(prog) && Inv(prog, s) && AllExited(s)
    ensures forall g :: 0 <= g < Total(prog) ==> s.loc[g] == Done
    ensures s.ids == map[] && s.queue == []
  {
    hide BatchesOk, QueueOk, ParkedOk, Served, WokenOk, ClaimedOk, AllSetsOk, ThreadsOk, Ssa, EdgesOk, KeysOk, AllExited;
    forall g | 0 <= g < Total(prog) ensures s.loc[g] == Done {
      NoneParked(prog, s, g);
    }
    forall u ensures u !in s.ids {
      if u in s.ids {
        var p := KeyProducer(prog, s, u);
        var g := ConsumerOf(prog, s, p);
      }
    }
    AllLeft(prog, s);
  }

  // ---------- nobody is stuck ----------

  /** As long as a worker has not left, some step is possible. */
  lemma NoDeadlock(prog: Program, s: State)
    requires Ssa(prog) && Inv(prog, s) && exists t :: 0 <= t < |s.threads| && s.threads[t].pc != Exited
    ensures exists a, s' :: Step(prog, s, a, s')
  {
    hide Ssa, Inv;
    if t :| 0 <= t < |s.threads| && CanMove(s.threads[t].pc) {
      WorkerMoves(prog, s, t);
    } else {
      AllWait(prog, s);
      if AllReady(s) {
        assert Step(prog, s, Barrier, BarrierStep(s));
      } else {
        assert Step(prog, s, NextBarrier, NextRound(s));
      }
    }
  }

  predicate CanMove(pc: Pc) {
    pc != Exited && pc != Ready && pc != Flushed
  }

  lemma AllWait(prog: Program, s: State)
    requires Inv(prog, s) && forall t :: 0 <= t < |s.threads| ==> !CanMove(s.threads[t].pc)
    requires exists t :: 0 <= t < |s.threads| && s.threads[t].pc != Exited
    ensures AllReady(s) || AllFlushed(s)
  {
    hide Inv;
    forall t | 0 <= t < |s.threads|
      ensures s.threads[t].pc == Ready ==> s.stage == Preparing
      ensures s.threads[t].pc == Flushed ==> s.stage == Flushing
    {
      BatchBound(prog, s, t);
    }
  }

  lemma WorkerMoves(prog: Program, s: State, t: nat)
    requires Ssa(prog) && Inv(prog, s) && t < |s.threads| && CanMove(s.threads[t].pc)
    ensures exists a, s' :: Step(prog, s, a, s')
  {
    hide Ssa, Inv;
    Locations(prog, s);
    BatchBound(prog, s, t);
    BatchOps(prog, s, t);
    var th := s.threads[t];
    match th.pc
    case Start => assert Step(prog, s, TakeQueue(t), Take(prog, s, t));
    case Claim => assert Step(prog, s, FetchAdd(t), ClaimStep(prog, s, t));
    case Clamp => assert Step(prog, s, Store(t), ClampStep(prog, s, t));
    case Check => assert Step(prog, s, CheckNext(t), CheckStep(prog, s, t));
    case Make => assert Step(prog, s, MakeNext(t), MakeStep(prog, s, t));
    case Erase =>
      EraseOk(prog, s, t);
      assert Step(prog, s, EraseInput(t), EraseStep(prog, s, t));
    case Flush =>
      if u :| u in th.live {
        assert Step(prog, s, Insert(t, u), FlushStep(prog, s, t, u));
      } else {
        assert Step(prog, s, EndFlush(t), FlushEnd(prog, s, t));
      }
    case Assign =>
      AssignOk(prog, s, t);
      assert Step(prog, s, AssignPtr(t), AssignStep(prog, s, t));
    case Push =>
      PushOk(prog, s, t);
      assert Step(prog, s, PushWoken(t), PushStep(prog, s, t));
    case _ =>
  }

  // ---------- the batch and the trace ----------

  /** Preparing the next operation of a batch as `Batches` has it succeeds, with any global map
      that holds the pointer of an input from outside the batch, and leaves the same live ids as
      the step here. */
  lemma PrepareSucceeds(prog: Program, s: State, t: nat, g: nat, st: Prep, op: Op, n: nat)
    requires Ssa(prog) && Inv(prog, s) && Current(prog, s, t, g)
    requires InputId(op, n) == prog.inp[g] && ResultId(op, n) == prog.out[g]
    requires st.idx.Keys == s.threads[t].live
    requires prog.inp[g].Some? && prog.inp[g].value !in s.threads[t].live ==> prog.inp[g].value in st.glob
    ensures PrepOp(st, op, n).Some?
    ensures PrepOp(st, op, n).value.idx.Keys
      == s.threads[t].live - (if prog.inp[g].Some? then {prog.inp[g].value} else {}) + OutSet(prog, g)
  {
    hide Inv, Ssa, PrepOp, InputId, ResultId;
    if prog.out[g].Some? {
      ResultIsNew(prog, s, t, g);
    }
    OpPrepares(st, op, n);
  }

  /** For a trace that the rewrite accepts, any number of repetitions and workers, and any
      interleaving: nothing ever goes wrong, and when all workers have left, every operation has
      been executed and nothing is left behind. */
  lemma TraceReplays(lines: seq<Line>, rewritten: seq<Line>, repetitions: nat, workers: nat, states: seq<State>, i: nat)
    requires WellFormed(lines) && |rewritten| == |lines| && Renamed(lines, rewritten, |lines|)
    requires Run(Replayed(rewritten, repetitions), workers, states) && i < |states|
    ensures forall t: nat :: !GoesWrong(Replayed(rewritten, repetitions), states[i], t)
    ensures AllExited(states[i]) ==>
      && (forall g :: 0 <= g < |states[i].loc| ==> states[i].loc[g] == Done)
      && |states[i].loc| == repetitions * |lines| && states[i].ids == map[] && states[i].queue == []
  {
    hide WellFormed, Renamed, Run, Inv, Ssa, GoesWrong, AllExited;
    var prog := Replayed(rewritten, repetitions);
    RewrittenIsSingleAssignment(lines, rewritten);
    ReplayedIsSsa(rewritten, repetitions);
    RunOk(prog, workers, states, i);
    Locations(prog, states[i]);
    forall t: nat ensures !GoesWrong(prog, states[i], t) {
      NothingGoesWrong(prog, states[i], t);
    }
    if AllExited(states[i]) {
      AllDone(prog, states[i]);
    }
  }
}
