/** A replay ends: every step makes operations advance towards done, or brings its worker closer
    to the end of its round. */
module ReplayTermination {
  import opened Arithmetic
  import opened Batches
  import opened Options
  import opened Programs
  import opened ReplayInvariants
  import opened Replays
  import opened ReplaySteps
  import opened ReplayTheorems

  // ---------- sums ----------

  function Sum(s: seq<nat>): nat {
    if s == [] then 0 else s[0] + Sum(s[1..])
  }

  lemma {:induction false} SumLess(a: seq<nat>, b: seq<nat>)
    requires |a| == |b| && forall i :: 0 <= i < |a| ==> a[i] <= b[i]
    ensures Sum(a) <= Sum(b)
    ensures (exists i :: 0 <= i < |a| && a[i] < b[i]) ==> Sum(a) < Sum(b)
  {
    if a != [] {
      SumLess(a[1..], b[1..]);
      if i :| 0 < i < |a| && a[i] < b[i] {
        assert a[1..][i - 1] < b[1..][i - 1];
      }
    }
  }

  // ---------- the measure ----------

  // how far an operation is from done
  function Rank(l: Loc): nat {
    match l
    case Unclaimed => 6
    case Claimed(_) => 5
    case Parked => 4
    case Waking(_) => 3
    case Queued => 2
    case InBatch(_, _) => 1
    case Done => 0
  }

  // how far a worker is from the end of its round, as long as no operation advances
  function Distance(th: Thread): nat {
    var toMake := if th.cursor <= |th.batch| then 4 * (|th.batch| - th.cursor) else 0;
    match th.pc
    case Flushed => 9
    case Start => 8
    case Check => 4 * |th.batch| + 8
    case Claim => 4 * |th.batch| + 7
    case Clamp => 4 * |th.batch| + 6
    case Make => toMake + 2 * |th.live| + 5
    case Erase => toMake + 2 * |th.live| + 4
    case Ready => 2 * |th.live| + 4
    case Flush => 2 * |th.live| + 2
    case Assign => 2 * |th.live| + 1
    case Push => 2 * |th.live| + 1
    case Exited => 0
  }

  function Ranks(loc: seq<Loc>): seq<nat> {
    seq(|loc|, g requires 0 <= g < |loc| => Rank(loc[g]))
  }

  function Distances(threads: seq<Thread>): seq<nat> {
    seq(|threads|, t requires 0 <= t < |threads| => Distance(threads[t]))
  }

  // operations advance or stay where they are; if all stay, the workers get closer
  ghost predicate Progress(s: State, s': State) {
    && Advances(s.loc, s'.loc)
    && Less(s, s')
  }

  ghost predicate Advances(loc: seq<Loc>, loc': seq<Loc>) {
    |loc'| == |loc| && forall g :: 0 <= g < |loc| ==> loc'[g] == loc[g] || Rank(loc'[g]) < Rank(loc[g])
  }

  ghost predicate Less(s: State, s': State) {
    || Sum(Ranks(s'.loc)) < Sum(Ranks(s.loc))
    || (Sum(Ranks(s'.loc)) == Sum(Ranks(s.loc)) && Sum(Distances(s'.threads)) < Sum(Distances(s.threads)))
  }

  lemma LocProgress(s: State, s': State, g: nat)
    requires |s'.loc| == |s.loc| && g < |s.loc| && Rank(s'.loc[g]) < Rank(s.loc[g])
    requires Advances(s.loc, s'.loc)
    ensures Progress(s, s')
  {
    SumLess(Ranks(s'.loc), Ranks(s.loc));
    assert Ranks(s'.loc)[g] < Ranks(s.loc)[g];
  }

  lemma WorkerProgress(s: State, s': State, t: nat)
    requires s'.loc == s.loc && |s'.threads| == |s.threads| && t < |s.threads|
    requires Distance(s'.threads[t]) < Distance(s.threads[t])
    requires forall t1 :: 0 <= t1 < |s.threads| ==> Distance(s'.threads[t1]) <= Distance(s.threads[t1])
    ensures Progress(s, s')
  {
    SumLess(Distances(s'.threads), Distances(s.threads));
    assert Distances(s'.threads)[t] < Distances(s.threads)[t];
  }

  // ---------- steps ----------

  lemma TakeProgress(prog: Program, s: State, t: nat)
    requires QueueOk(prog, s) && At(prog, s, t, Start) && ThreadOk(prog, s, s.threads[t])
    ensures Progress(s, Take(prog, s, t))
  {
    hide Progress, Place;
    var s' := Take(prog, s, t);
    var k := Least(|s.queue|, MAX_QUEUED_TAKEN);
    PlaceIs(prog, s, t, k);
    if s.queue != [] {
      assert HasLoc(s'.loc, s.queue[..k][0], InBatch(t, 0));
      LocProgress(s, s', s.queue[0]);
    } else {
      assert s'.loc == s.loc;
      WorkerProgress(s, s', t);
    }
  }

  lemma ClaimProgress(prog: Program, s: State, t: nat)
    requires ClaimedOk(prog, s) && At(prog, s, t, Claim) && ThreadOk(prog, s, s.threads[t]) && SetsOk(prog, s.threads[t])
    ensures Progress(s, ClaimStep(prog, s, t))
  {
    hide Progress;
    var s' := ClaimStep(prog, s, t);
    var th := s.threads[t];
    NoLive(prog, th);
    if |th.batch| < BATCH_SIZE && s.idx < Total(prog) {
      RangeUnclaimed(prog, s, Least(s.idx + (BATCH_SIZE - |th.batch|), Total(prog)));
      LocProgress(s, s', s.idx);
    } else {
      WorkerProgress(s, s', t);
    }
  }

  lemma ClampProgress(prog: Program, s: State, t: nat)
    requires At(prog, s, t, Clamp) && ThreadOk(prog, s, s.threads[t]) && SetsOk(prog, s.threads[t])
    ensures Progress(s, ClampStep(prog, s, t))
  {
    hide Progress;
    NoLive(prog, s.threads[t]);
    WorkerProgress(s, ClampStep(prog, s, t), t);
  }

  lemma CheckProgress(prog: Program, s: State, t: nat)
    requires Inv(prog, s) && At(prog, s, t, Check) && s.threads[t].end <= Total(prog)
    ensures Progress(s, CheckStep(prog, s, t))
  {
    hide Progress, Inv;
    var s' := CheckStep(prog, s, t);
    var th := s.threads[t];
    if th.pos < th.end {
      NextOk(prog, s, t);
      LocProgress(s, s', th.pos);
    } else {
      WorkerProgress(s, s', t);
    }
  }

  // one more operation is prepared: at most one more id is live
  lemma AdvanceProgress(prog: Program, s: State, s': State, t: nat, live: set<nat>)
    requires t < |s.threads| == |s'.threads| && s'.loc == s.loc && s'.threads == s.threads[t := s'.threads[t]]
    requires (s.threads[t].pc == Make || s.threads[t].pc == Erase) && s.threads[t].cursor < |s.threads[t].batch|
    requires s'.threads[t] == s.threads[t].(pc := Make, cursor := s.threads[t].cursor + 1, live := live)
    requires |live| <= |s.threads[t].live| + 1
    ensures Progress(s, s')
  {
    hide Progress;
    WorkerProgress(s, s', t);
  }

  lemma OutCount(prog: Program, live: set<nat>, g: nat)
    requires g < |prog.out|
    ensures |live + OutSet(prog, g)| <= |live| + 1
  {
    if prog.out[g].Some? {
      var w := prog.out[g].value;
      assert w in live ==> live + {w} == live;
    } else {
      assert live + {} == live;
    }
  }

  lemma LessCount(live: set<nat>, u: nat)
    ensures |live - {u}| <= |live| && (u in live ==> |live - {u}| == |live| - 1)
  {
    assert u !in live ==> live - {u} == live;
  }

  lemma AdvanceMakes(prog: Program, s: State, t: nat)
    requires At(prog, s, t, Make) && OpsOf(prog, s.threads[t]) && s.threads[t].cursor < |s.threads[t].batch|
    requires MakeStep(prog, s, t).threads[t].pc == Make
    ensures Progress(s, MakeStep(prog, s, t))
  {
    hide Progress, Distance, OutSet;
    var th, s' := s.threads[t], MakeStep(prog, s, t);
    var g := th.batch[th.cursor];
    if prog.inp[g] == None {
      OutCount(prog, th.live, g);
      AdvanceProgress(prog, s, s', t, th.live + OutSet(prog, g));
    } else {
      var u := prog.inp[g].value;
      LessCount(th.live, u);
      OutCount(prog, th.live - {u}, g);
      AdvanceProgress(prog, s, s', t, th.live - {u} + OutSet(prog, g));
    }
  }

  lemma MakeProgress(prog: Program, s: State, t: nat)
    requires At(prog, s, t, Make) && OpsOf(prog, s.threads[t]) && ThreadOk(prog, s, s.threads[t])
    ensures Progress(s, MakeStep(prog, s, t))
  {
    hide Progress, OutSet;
    if MakeStep(prog, s, t).threads[t].pc == Make {
      AdvanceMakes(prog, s, t);
    } else {
      WorkerProgress(s, MakeStep(prog, s, t), t);
    }
  }

  lemma EraseProgress(prog: Program, s: State, t: nat)
    requires At(prog, s, t, Erase) && HasInput(prog, s.threads[t])
    ensures Progress(s, EraseStep(prog, s, t))
  {
    hide Progress;
    var th, s' := s.threads[t], EraseStep(prog, s, t);
    var g := th.batch[th.cursor];
    OutCount(prog, th.live, g);
    AdvanceProgress(prog, s, s', t, th.live + OutSet(prog, g));
  }

  lemma PassProgress(s: State, s': State)
    requires (AllReady(s) && s' == BarrierStep(s)) || (AllFlushed(s) && s' == NextRound(s))
    ensures Progress(s, s')
  {
    hide Progress;
    var t :| 0 <= t < |s.threads| && (s.threads[t].pc == if s.stage == Preparing then Ready else Flushed);
    WorkerProgress(s, s', t);
  }

  lemma FlushProgress(prog: Program, s: State, t: nat, u: nat)
    requires At(prog, s, t, Flush) && u in s.threads[t].live
    ensures Progress(s, FlushStep(prog, s, t, u))
  {
    hide Progress;
    LessCount(s.threads[t].live, u);
    WorkerProgress(s, FlushStep(prog, s, t, u), t);
  }

  lemma WakeProgress(prog: Program, s: State, t: nat)
    requires WokenOk(prog, s) && t < |s.threads|
    ensures At(prog, s, t, Assign) && s.threads[t].woken < |s.loc| ==> Progress(s, AssignStep(prog, s, t))
    ensures At(prog, s, t, Push) && s.threads[t].woken < |s.loc| ==> Progress(s, PushStep(prog, s, t))
  {
    hide Progress;
    var g := s.threads[t].woken;
    if At(prog, s, t, Assign) && g < |s.loc| {
      LocProgress(s, AssignStep(prog, s, t), g);
    }
    if At(prog, s, t, Push) && g < |s.loc| {
      LocProgress(s, PushStep(prog, s, t), g);
    }
  }

  lemma EndProgress(prog: Program, s: State, t: nat)
    requires BatchesOk(prog, s) && At(prog, s, t, Flush) && ThreadOk(prog, s, s.threads[t])
    ensures Progress(s, FlushEnd(prog, s, t))
  {
    hide Progress;
    assert HasLoc(s.loc, s.threads[t].batch[0], InBatch(t, 0));
    LocProgress(s, FlushEnd(prog, s, t), s.threads[t].batch[0]);
  }

  /** Every step makes progress, so no interleaving goes on for ever; with NoDeadlock, every run
      that is not cut short ends with all workers gone, and so with every operation executed. */
  lemma StepProgress(prog: Program, s: State, a: Action, s': State)
    requires Inv(prog, s) && Step(prog, s, a, s')
    ensures Progress(s, s')
  {
    hide EdgesOk, BatchesOk, QueueOk, KeysOk, ParkedOk, Served, WokenOk, ClaimedOk, AllSetsOk, ThreadsOk, ThreadOk, SetsOk;
    hide Progress;
    if !a.Barrier? && !a.NextBarrier? {
      BatchBound(prog, s, a.t);
    }
    match a
    case TakeQueue(t) => TakeProgress(prog, s, t);
    case FetchAdd(t) => ClaimProgress(prog, s, t);
    case Store(t) => ClampProgress(prog, s, t);
    case CheckNext(t) => CheckProgress(prog, s, t);
    case MakeNext(t) => MakeProgress(prog, s, t);
    case EraseInput(t) => EraseProgress(prog, s, t);
    case Barrier => PassProgress(s, s');
    case Insert(t, u) => FlushProgress(prog, s, t, u);
    case AssignPtr(t) => WakeProgress(prog, s, t);
    case PushWoken(t) => WakeProgress(prog, s, t);
    case EndFlush(t) => EndProgress(prog, s, t);
    case NextBarrier => PassProgress(s, s');
  }

  // ---------- how long a run can be ----------

  const FARTHEST := 6 * BATCH_SIZE + 9

  // what the first n operations of the batch produce
  function OutsOf(prog: Program, batch: seq<nat>, n: nat): (r: set<nat>)
    requires n <= |batch|
    ensures |r| <= n
    ensures forall j :: 0 <= j < n && batch[j] < |prog.out| && prog.out[batch[j]].Some? ==> prog.out[batch[j]].value in r
  {
    if n == 0 then {}
    else
      var r := OutsOf(prog, batch, n - 1);
      if batch[n - 1] < |prog.out| && prog.out[batch[n - 1]].Some? then r + {prog.out[batch[n - 1]].value} else r
  }

  lemma LiveCount(prog: Program, th: Thread)
    requires SetsOk(prog, th) && th.cursor <= |th.batch|
    ensures |th.live| <= th.cursor
  {
    var outs := OutsOf(prog, th.batch, th.cursor);
    forall u | u in th.live ensures u in outs {
      assert Produces(prog, th.batch, th.cursor, u);
      var j: nat :| ProducesAt(prog, th.batch, th.cursor, u, j);
    }
    Subset(th.live, outs);
  }

  lemma DistanceBound(prog: Program, s: State, th: Thread)
    requires ThreadOk(prog, s, th) && SetsOk(prog, th)
    ensures Distance(th) <= FARTHEST
  {
    LiveCount(prog, th);
  }

  lemma {:induction false} SumBound(s: seq<nat>, most: nat)
    requires forall i :: 0 <= i < |s| ==> s[i] <= most
    ensures Sum(s) <= |s| * most
  {
    if s != [] {
      SumBound(s[1..], most);
    }
  }

  // operations first, then workers, in one number
  function Weight(s: State, workers: nat): int {
    Sum(Ranks(s.loc)) * (workers * FARTHEST + 1) + Sum(Distances(s.threads))
  }

  lemma DistancesBound(prog: Program, s: State, workers: nat)
    requires Inv(prog, s) && |s.threads| == workers
    ensures Sum(Distances(s.threads)) <= workers * FARTHEST
  {
    hide Inv, Distance, ThreadOk, SetsOk;
    forall t | 0 <= t < |s.threads| ensures Distance(s.threads[t]) <= FARTHEST {
      BatchBound(prog, s, t);
      DistanceBound(prog, s, s.threads[t]);
    }
    SumBound(Distances(s.threads), FARTHEST);
  }

  lemma StepsWeigh(prog: Program, s: State, a: Action, s': State, workers: nat)
    requires Inv(prog, s) && Inv(prog, s') && Step(prog, s, a, s') && |s.threads| == workers == |s'.threads|
    ensures Weight(s', workers) < Weight(s, workers)
  {
    hide Inv, Step, Ranks, Distances, Sum;
    StepProgress(prog, s, a, s');
    DistancesBound(prog, s', workers);
    if Sum(Ranks(s'.loc)) < Sum(Ranks(s.loc)) {
      MulBounds(Sum(Ranks(s'.loc)), Sum(Ranks(s.loc)), workers * FARTHEST + 1);
    }
  }

  lemma SameWorkers(prog: Program, s: State, a: Action, s': State)
    requires Step(prog, s, a, s')
    ensures |s'.threads| == |s.threads|
  {
  }

  lemma {:induction false} RunsWeigh(prog: Program, workers: nat, states: seq<State>, i: nat)
    requires Ssa(prog) && Run(prog, workers, states) && i < |states|
    ensures |states[i].threads| == workers
    ensures Weight(states[i], workers) + i <= Weight(states[0], workers)
  {
    hide Ssa, Inv, Step, Weight;
    if i > 0 {
      RunsWeigh(prog, workers, states, i - 1);
      RunOk(prog, workers, states, i - 1);
      RunOk(prog, workers, states, i);
      assert Follows(prog, states, i);
      var a :| Step(prog, states[i - 1], a, states[i]);
      SameWorkers(prog, states[i - 1], a, states[i]);
      StepsWeigh(prog, states[i - 1], a, states[i], workers);
    }
  }

  lemma AdvancesTrans(a: seq<Loc>, b: seq<Loc>, c: seq<Loc>)
    requires Advances(a, b) && Advances(b, c)
    ensures Advances(a, c)
  {
  }

  lemma {:induction false} RunAdvances(prog: Program, workers: nat, states: seq<State>, i: nat, j: nat)
    requires Ssa(prog) && Run(prog, workers, states) && i <= j < |states|
    ensures Advances(states[i].loc, states[j].loc)
  {
    hide Ssa, Inv, Step, Less, Rank;
    if i < j {
      RunAdvances(prog, workers, states, i, j - 1);
      RunOk(prog, workers, states, j - 1);
      assert Follows(prog, states, j);
      var a :| Step(prog, states[j - 1], a, states[j]);
      StepProgress(prog, states[j - 1], a, states[j]);
      AdvancesTrans(states[i].loc, states[j - 1].loc, states[j].loc);
    }
  }

  /** No operation is executed twice: it enters one batch of one worker, at one place, and once it
      is done it stays so. */
  lemma ExecutedOnce(prog: Program, workers: nat, states: seq<State>, i: nat, j: nat, g: nat)
    requires Ssa(prog) && Run(prog, workers, states) && i <= j < |states| && g < Total(prog)
    ensures |states[i].loc| == |states[j].loc| == Total(prog)
    ensures states[i].loc[g].InBatch? ==> states[j].loc[g] == states[i].loc[g] || states[j].loc[g] == Done
    ensures states[i].loc[g] == Done ==> states[j].loc[g] == Done
  {
    hide Ssa, Inv, Step;
    RunOk(prog, workers, states, i);
    RunOk(prog, workers, states, j);
    Locations(prog, states[i]);
    Locations(prog, states[j]);
    RunAdvances(prog, workers, states, i, j);
  }

  /** No run is longer than this, however the workers are interleaved: nobody waits, retries or
      hands work around for ever. */
  lemma RunsEnd(prog: Program, workers: nat, states: seq<State>)
    requires Ssa(prog) && Run(prog, workers, states)
    ensures |states| <= (6 * Total(prog) + 1) * (workers * FARTHEST + 1)
  {
    hide Ssa, Inv, Step, Sum;
    var first, last := states[0], |states| - 1;
    MulMonotone(0, Sum(Ranks(states[last].loc)), workers * FARTHEST + 1);
    RunsWeigh(prog, workers, states, last);
    InitOk(prog, workers);
    DistancesBound(prog, first, workers);
    SumBound(Ranks(first.loc), 6);
    MulMonotone(Sum(Ranks(first.loc)), 6 * Total(prog), workers * FARTHEST + 1);
  }

  predicate AllExecuted(prog: Program, s: State) {
    && |s.loc| == Total(prog) && (forall g :: 0 <= g < Total(prog) ==> s.loc[g] == Done)
    && s.ids == map[] && s.queue == []
  }

  ghost predicate Stuck(prog: Program, s: State) {
    forall a, s' :: !Step(prog, s, a, s')
  }

  /** ... and a run that cannot be continued has executed every operation. */
  lemma LongestRunsFinish(prog: Program, workers: nat, states: seq<State>)
    requires Ssa(prog) && Run(prog, workers, states) && workers > 0
    requires Stuck(prog, states[|states| - 1])
    ensures AllExecuted(prog, states[|states| - 1])
  {
    hide Ssa, Inv, Step, Weight;
    var last := states[|states| - 1];
    RunOk(prog, workers, states, |states| - 1);
    RunsWeigh(prog, workers, states, |states| - 1);
    if exists t :: 0 <= t < |last.threads| && last.threads[t].pc != Exited {
      NoDeadlock(prog, last);
    }
    assert AllExited(last);
    AllDone(prog, last);
    Locations(prog, last);
  }
}
