/** When a worker parks an operation that it has claimed, and when it stops claiming. */
module ReplayParking {
  import opened Batches
  import opened Options
  import opened Programs
  import opened ReplayInvariants
  import opened Replays
  import opened ReplaySteps
  import opened ReplayTheorems

  // the worker has accepted an operation from the trace into its batch that produces u
  ghost predicate AcceptedProducer(prog: Program, th: Thread, u: nat) {
    exists k: nat :: ProducesPast(prog, th, u, k)
  }

  ghost predicate ProducesPast(prog: Program, th: Thread, u: nat, k: nat) {
    th.taken <= k < |th.batch| && th.batch[k] < |prog.out| && prog.out[th.batch[k]] == Some(u)
  }

  // an operation of the batch consumes u
  ghost predicate ConsumedIn(prog: Program, th: Thread, u: nat) {
    exists k: nat :: ConsumesAt(prog, th, u, k)
  }

  ghost predicate ConsumesAt(prog: Program, th: Thread, u: nat, k: nat) {
    k < |th.batch| && th.batch[k] < |prog.inp| && prog.inp[th.batch[k]] == Some(u)
  }

  predicate Collects(th: Thread) {
    th.pc == Claim || th.pc == Clamp || th.pc == Check
  }

  predicate Collected(th: Thread) {
    th.pc == Make || th.pc == Erase || th.pc == Ready || th.pc == Exited || Flushes(th)
  }

  /** The local ids are those produced by what the worker has accepted from the trace and not
      consumed in the batch; and a worker goes on with a full batch, or when all is claimed. */
  ghost predicate LocalOk(prog: Program, s: State, th: Thread) {
    && (Collects(th) ==> th.taken <= |th.batch|)
    && (Collects(th) ==> forall u: nat :: u in th.local ==> AcceptedProducer(prog, th, u))
    && (Collects(th) ==> forall u: nat :: AcceptedProducer(prog, th, u) ==> u in th.local || ConsumedIn(prog, th, u))
    && (Collected(th) ==> |th.batch| == BATCH_SIZE || s.idx >= Total(prog))
  }

  ghost predicate LocalsOk(prog: Program, s: State) {
    forall t :: 0 <= t < |s.threads| ==> LocalOk(prog, s, s.threads[t])
  }

  // a worker that does not collect, or has collected the same as before
  lemma SameLocal(prog: Program, s: State, s': State, th: Thread, th': Thread)
    requires LocalOk(prog, s, th) && (s'.idx >= s.idx || s'.idx >= Total(prog))
    requires Collects(th') ==> Collects(th) && th'.batch == th.batch && th'.local == th.local && th'.taken == th.taken
    requires Collected(th') ==> Collected(th) && th'.batch == th.batch
    ensures LocalOk(prog, s', th')
  {
    if Collects(th') {
      forall u: nat ensures AcceptedProducer(prog, th', u) <==> AcceptedProducer(prog, th, u) {
        assert forall k: nat :: ProducesPast(prog, th', u, k) <==> ProducesPast(prog, th, u, k);
      }
      forall u: nat ensures ConsumedIn(prog, th', u) <==> ConsumedIn(prog, th, u) {
        assert forall k: nat :: ConsumesAt(prog, th', u, k) <==> ConsumesAt(prog, th, u, k);
      }
    }
  }

  lemma OneWorker(prog: Program, s: State, s': State, t: nat)
    requires LocalsOk(prog, s) && t < |s.threads| == |s'.threads| && (s'.idx >= s.idx || s'.idx >= Total(prog))
    requires forall t1 :: 0 <= t1 < |s.threads| && t1 != t ==> s'.threads[t1] == s.threads[t1]
    requires LocalOk(prog, s', s'.threads[t])
    ensures LocalsOk(prog, s')
  {
    hide LocalOk;
    forall t1 | 0 <= t1 < |s'.threads| ensures LocalOk(prog, s', s'.threads[t1]) {
      if t1 != t {
        SameLocal(prog, s, s', s.threads[t1], s.threads[t1]);
      }
    }
  }

  // a worker starts with what it has taken
  lemma TakenLocal(prog: Program, s: State, th: Thread)
    requires th.pc == Claim && th.local == {} && th.taken == |th.batch|
    ensures LocalOk(prog, s, th)
  {
  }

  // operation g is accepted
  lemma AcceptLocal(prog: Program, s: State, s': State, th: Thread, th': Thread, g: nat, local: set<nat>)
    requires LocalOk(prog, s, th) && th.pc == Check && g < |prog.out| == |prog.inp|
    requires th' == th.(pos := g + 1, batch := th.batch + [g], local := local + OutSet(prog, g))
    requires local == th.local || (prog.inp[g].Some? && local == th.local - {prog.inp[g].value})
    ensures LocalOk(prog, s', th')
  {
    forall u: nat | u in th'.local ensures AcceptedProducer(prog, th', u) {
      if u in th.local {
        var k: nat :| ProducesPast(prog, th, u, k);
        assert ProducesPast(prog, th', u, k);
      } else {
        assert ProducesPast(prog, th', u, |th.batch|);
      }
    }
    forall u: nat | AcceptedProducer(prog, th', u) ensures u in th'.local || ConsumedIn(prog, th', u) {
      var k: nat :| ProducesPast(prog, th', u, k);
      if k < |th.batch| {
        assert ProducesPast(prog, th, u, k);
        if u !in th.local {
          var j: nat :| ConsumesAt(prog, th, u, j);
          assert ConsumesAt(prog, th', u, j);
        } else if u !in local {
          assert ConsumesAt(prog, th', u, |th.batch|);
        }
      }
    }
  }

  lemma CheckLocal(prog: Program, s: State, t: nat)
    requires LocalsOk(prog, s) && At(prog, s, t, Check) && s.threads[t].end <= Total(prog)
    ensures LocalsOk(prog, CheckStep(prog, s, t))
  {
    hide LocalOk, LocalsOk;
    var th, s' := s.threads[t], CheckStep(prog, s, t);
    WorkerLocal(prog, s, t);
    var g := th.pos;
    if g >= th.end {
      SameLocal(prog, s, s', th, s'.threads[t]);
    } else if prog.inp[g] == None {
      AcceptLocal(prog, s, s', th, s'.threads[t], g, th.local);
    } else if prog.inp[g].value in th.local {
      AcceptLocal(prog, s, s', th, s'.threads[t], g, th.local - {prog.inp[g].value});
    } else if prog.inp[g].value in s.ids {
      AcceptLocal(prog, s, s', th, s'.threads[t], g, th.local);
    } else {
      SameLocal(prog, s, s', th, s'.threads[t]);
    }
    OneWorker(prog, s, s', t);
  }

  lemma WorkerLocal(prog: Program, s: State, t: nat)
    requires LocalsOk(prog, s) && t < |s.threads|
    ensures LocalOk(prog, s, s.threads[t])
  {
    hide LocalOk;
  }

  lemma ClaimLocal(prog: Program, s: State, t: nat)
    requires LocalsOk(prog, s) && At(prog, s, t, Claim) && |s.threads[t].batch| <= BATCH_SIZE
    ensures LocalsOk(prog, ClaimStep(prog, s, t))
  {
    hide LocalsOk;
    var s' := ClaimStep(prog, s, t);
    WorkerLocal(prog, s, t);
    if |s.threads[t].batch| < BATCH_SIZE {
      hide LocalOk;
      SameLocal(prog, s, s', s.threads[t], s'.threads[t]);
    }
    OneWorker(prog, s, s', t);
  }

  // a step by which no worker collects or has collected more
  lemma RestLocal(prog: Program, s: State, s': State)
    requires LocalsOk(prog, s) && |s'.threads| == |s.threads| && s'.idx == s.idx
    requires forall t :: 0 <= t < |s.threads| ==> Stays(s.threads[t], s'.threads[t])
    ensures LocalsOk(prog, s')
  {
    hide LocalOk;
    forall t | 0 <= t < |s'.threads| ensures LocalOk(prog, s', s'.threads[t]) {
      assert Stays(s.threads[t], s'.threads[t]);
      SameLocal(prog, s, s', s.threads[t], s'.threads[t]);
    }
  }

  predicate Stays(th: Thread, th': Thread) {
    th' == th || (!Collects(th') && (Collected(th') ==> Collected(th) && th'.batch == th.batch))
  }

  lemma OneStays(prog: Program, s: State, s': State, t: nat)
    requires LocalsOk(prog, s) && t < |s.threads| == |s'.threads| && s'.idx == s.idx
    requires forall t1 :: 0 <= t1 < |s.threads| && t1 != t ==> s'.threads[t1] == s.threads[t1]
    requires Stays(s.threads[t], s'.threads[t])
    ensures LocalsOk(prog, s')
  {
    hide LocalOk, LocalsOk;
    WorkerLocal(prog, s, t);
    SameLocal(prog, s, s', s.threads[t], s'.threads[t]);
    OneWorker(prog, s, s', t);
  }

  lemma LocalStep(prog: Program, s: State, a: Action, s': State)
    requires Inv(prog, s) && LocalsOk(prog, s) && Step(prog, s, a, s')
    ensures LocalsOk(prog, s')
  {
    hide Inv, LocalsOk, LocalOk, Place, Finish, ProducerIn, CheckStep, ClaimStep;
    match a
    case TakeQueue(t) =>
      TakenLocal(prog, s', s'.threads[t]);
      OneWorker(prog, s, s', t);
    case FetchAdd(t) => ClaimLocal(prog, s, t);
    case Store(t) =>
      StoreLocal(prog, s', s'.threads[t]);
      OneWorker(prog, s, s', t);
    case CheckNext(t) => CheckLocal(prog, s, t);
    case _ => StayStep(prog, s, a, s');
  }

  // the other steps
  lemma StayStep(prog: Program, s: State, a: Action, s': State)
    requires LocalsOk(prog, s) && Step(prog, s, a, s')
    requires !a.TakeQueue? && !a.FetchAdd? && !a.Store? && !a.CheckNext?
    ensures LocalsOk(prog, s')
  {
    hide LocalsOk, LocalOk, Finish, ProducerIn, CheckStep, ClaimStep, Take;
    match a
    case Barrier => RestLocal(prog, s, s');
    case NextBarrier => RestLocal(prog, s, s');
    case MakeNext(t) => OneStays(prog, s, s', t);
    case EraseInput(t) => OneStays(prog, s, s', t);
    case Insert(t, u) => OneStays(prog, s, s', t);
    case AssignPtr(t) => OneStays(prog, s, s', t);
    case PushWoken(t) => OneStays(prog, s, s', t);
    case EndFlush(t) => OneStays(prog, s, s', t);
  }

  lemma StoreLocal(prog: Program, s: State, th: Thread)
    requires th.pc == Make && s.idx >= Total(prog)
    ensures LocalOk(prog, s, th)
  {
  }

  lemma {:induction false} RunLocals(prog: Program, workers: nat, states: seq<State>, i: nat)
    requires Ssa(prog) && Run(prog, workers, states) && i < |states|
    ensures Inv(prog, states[i]) && LocalsOk(prog, states[i])
  {
    hide Ssa, Inv, Step, LocalOk, LocalsOk;
    RunOk(prog, workers, states, i);
    if i == 0 {
      InitLocals(prog, workers);
    } else {
      RunLocals(prog, workers, states, i - 1);
      assert Follows(prog, states, i);
      var a :| Step(prog, states[i - 1], a, states[i]);
      LocalStep(prog, states[i - 1], a, states[i]);
    }
  }

  lemma InitLocals(prog: Program, workers: nat)
    ensures LocalsOk(prog, Init(prog, workers))
  {
  }

  // ---------- when an operation is parked ----------

  // no pointer has been recorded for u, and what the worker has accepted does not produce u
  ghost predicate Missing(prog: Program, s: State, t: nat, u: nat)
    requires t < |s.threads|
  {
    u !in s.ids && !AcceptedProducer(prog, s.threads[t], u)
  }

  lemma LocalIs(prog: Program, s: State, t: nat, g: nat, u: nat)
    requires Ssa(prog) && Inv(prog, s) && LocalsOk(prog, s) && Next(prog, s, t, g) && g < |prog.inp| && prog.inp[g] == Some(u)
    ensures u in s.threads[t].local <==> AcceptedProducer(prog, s.threads[t], u)
  {
    hide ClaimedOk, QueueOk, ParkedOk, ThreadsOk, AllSetsOk, WokenOk, Served, EdgesOk, KeysOk, LocalsOk;
    var th := s.threads[t];
    WorkerLocal(prog, s, t);
    if AcceptedProducer(prog, th, u) && u !in th.local {
      ConsumerIs(prog, s, t, g, u);
      assert false;
    }
  }

  // an operation of the batch that consumes u is the only one that does
  lemma ConsumerIs(prog: Program, s: State, t: nat, g: nat, u: nat)
    requires Ssa(prog) && Inv(prog, s) && t < |s.threads| && g < |prog.inp| && prog.inp[g] == Some(u)
    ensures ConsumedIn(prog, s.threads[t], u) ==> g < |s.loc| && s.loc[g].InBatch?
  {
    hide ClaimedOk, QueueOk, ParkedOk, ThreadsOk, AllSetsOk, WokenOk, Served, EdgesOk, KeysOk;
    var th := s.threads[t];
    if ConsumedIn(prog, th, u) {
      var k: nat :| ConsumesAt(prog, th, u, k);
      assert HasLoc(s.loc, th.batch[k], InBatch(t, k));
      assert th.batch[k] == g;
    }
  }

  /** In every run, a step that goes on to the claimed operation g parks it if and only if its
      input is in nobody's reach: no pointer has been recorded for it, and no operation that the
      worker has accepted from the trace into this batch produces it.  Otherwise g is the next
      operation of the batch, and the id map is left alone. */
  lemma ParkedExactly(prog: Program, workers: nat, states: seq<State>, i: nat, t: nat)
    requires Ssa(prog) && Run(prog, workers, states) && i + 1 < |states| && Step(prog, states[i], CheckNext(t), states[i + 1])
    requires states[i].threads[t].pos < states[i].threads[t].end
    ensures var s, s', th := states[i], states[i + 1], states[i].threads[t];
      var g := th.pos;
      && g < |prog.inp| && g < |s.loc| == |s'.loc| && t < |s'.threads| && s'.queue == s.queue && s'.threads[t].pos == g + 1
      && s.loc[g] == Claimed(t)
      && (s'.loc[g] == Parked <==> prog.inp[g].Some? && Missing(prog, s, t, prog.inp[g].value))
      && (s'.loc[g] == Parked ==> s'.ids == s.ids[prog.inp[g].value := Marker(g)] && s'.threads[t].batch == th.batch)
      && (s'.loc[g] != Parked ==>
           s'.ids == s.ids && s'.threads[t].batch == th.batch + [g] && s'.loc[g] == InBatch(t, |th.batch|))
  {
    hide Ssa, Run, Inv, LocalsOk, AcceptedProducer;
    var s := states[i];
    RunLocals(prog, workers, states, i);
    NextOk(prog, s, t);
    var g := s.threads[t].pos;
    if prog.inp[g].Some? {
      LocalIs(prog, s, t, g, prog.inp[g].value);
    }
  }

  /** ... which is to say: if and only if its producer is not done, and has not been accepted from
      the trace into the same batch. */
  lemma ParkedBeforeProducer(prog: Program, workers: nat, states: seq<State>, i: nat, t: nat, p: nat)
    requires Ssa(prog) && Run(prog, workers, states) && i + 1 < |states| && Step(prog, states[i], CheckNext(t), states[i + 1])
    requires states[i].threads[t].pos < states[i].threads[t].end && Edge(prog, p, states[i].threads[t].pos)
    ensures var s, th := states[i], states[i].threads[t];
      && p < |s.loc| && th.pos < |states[i + 1].loc|
      && (states[i + 1].loc[th.pos] == Parked <==>
           s.loc[p] != Done && !(s.loc[p].InBatch? && s.loc[p].t == t && s.loc[p].k >= th.taken))
  {
    hide Ssa, Run, Inv, CheckStep, LocalsOk, EdgeOk, AcceptedProducer;
    var s := states[i];
    var g := s.threads[t].pos;
    ParkedExactly(prog, workers, states, i, t);
    RunOk(prog, workers, states, i);
    ProducerPlace(prog, s, t, p, g, prog.out[p].value);
  }

  lemma ProducerPlace(prog: Program, s: State, t: nat, p: nat, g: nat, u: nat)
    requires Ssa(prog) && Inv(prog, s) && t < |s.threads| && g < |s.loc| && s.loc[g] == Claimed(t)
    requires Edge(prog, p, g) && prog.out[p] == Some(u)
    requires s.threads[t].pc == Check
    ensures p < |s.loc| && (u in s.ids <==> s.loc[p] == Done)
    ensures AcceptedProducer(prog, s.threads[t], u) <==> s.loc[p].InBatch? && s.loc[p].t == t && s.loc[p].k >= s.threads[t].taken
  {
    hide Ssa, ClaimedOk, QueueOk, ParkedOk, ThreadsOk, AllSetsOk, WokenOk, Served, EdgesOk, KeysOk;
    var th := s.threads[t];
    if AcceptedProducer(prog, th, u) {
      var k: nat :| ProducesPast(prog, th, u, k);
      assert HasLoc(s.loc, th.batch[k], InBatch(t, k));
      SameResult(prog, th.batch[k], p);
    }
    if s.loc[p].InBatch? && s.loc[p].t == t && s.loc[p].k >= th.taken {
      assert ProducesPast(prog, th, u, s.loc[p].k);
    }
    hide Inv, BatchesOk, AcceptedProducer;
    RecordedIs(prog, s, t, p, g, u);
  }

  lemma RecordedIs(prog: Program, s: State, t: nat, p: nat, g: nat, u: nat)
    requires Inv(prog, s) && t < |s.threads| && g < |s.loc| && s.loc[g] == Claimed(t)
    requires Edge(prog, p, g) && prog.out[p] == Some(u) && s.threads[t].pc == Check
    ensures p < |s.loc| && (u in s.ids <==> s.loc[p] == Done)
  {
    hide ClaimedOk, BatchesOk, QueueOk, ParkedOk, AllSetsOk, WokenOk, Served, KeysOk;
    EdgeAt(prog, s, p, g);
    assert ThreadOk(prog, s, s.threads[t]);
    if s.loc[p].InBatch? && s.loc[p].t < |s.threads| {
      assert ThreadOk(prog, s, s.threads[s.loc[p].t]);
    }
  }

  // ---------- how much a worker collects ----------

  /** In every run, a worker that has stopped claiming has a full batch, or all operations are
      claimed. */
  lemma BatchesAreFull(prog: Program, workers: nat, states: seq<State>, i: nat, t: nat)
    requires Ssa(prog) && Run(prog, workers, states) && i < |states| && t < |states[i].threads|
    requires Collected(states[i].threads[t]) && |states[i].threads[t].batch| < BATCH_SIZE
    ensures forall g :: 0 <= g < |states[i].loc| ==> states[i].loc[g] != Unclaimed
  {
    RunLocals(prog, workers, states, i);
    hide Ssa, Run, BatchesOk, QueueOk, ParkedOk, ThreadsOk, AllSetsOk, WokenOk, Served, EdgesOk, KeysOk;
    assert LocalOk(prog, states[i], states[i].threads[t]);
  }

  /** A worker takes the oldest woken operations, as many as there are up to the limit. */
  lemma OldestTaken(prog: Program, s: State, t: nat)
    requires At(prog, s, t, Start)
    ensures var s' := Take(prog, s, t);
      && s.queue == s'.threads[t].batch + s'.queue && s'.threads[t].taken == |s'.threads[t].batch| <= MAX_QUEUED_TAKEN
      && (s'.queue == [] || |s'.threads[t].batch| == MAX_QUEUED_TAKEN)
  {
    var k := Least(|s.queue|, MAX_QUEUED_TAKEN);
    assert s.queue == s.queue[..k] + s.queue[k..];
  }

  /** ... and claims the next operations that nobody has claimed, as many as its batch has room for
      or as there are. */
  lemma RoomClaimed(prog: Program, s: State, t: nat)
    requires Inv(prog, s) && At(prog, s, t, Claim)
    ensures |s.threads[t].batch| <= BATCH_SIZE
    ensures var s' := ClaimStep(prog, s, t);
      var th := s'.threads[t];
      && (th.pc == Check <==> |th.batch| < BATCH_SIZE && s.idx < Total(prog))
      && (th.pc == Check ==> |th.batch| + (th.end - th.pos) == BATCH_SIZE || th.end == Total(prog))
      && (forall g: nat :: g < |s.loc| && s'.loc[g] != s.loc[g] <==> g < |s.loc| && InRange(th, g))
      && (th.pc == Check ==> forall g :: 0 <= g < |s.loc| ==> (s'.loc[g] == Unclaimed <==> s.loc[g] == Unclaimed && !InRange(th, g)))
  {
    hide BatchesOk, QueueOk, ParkedOk, AllSetsOk, WokenOk, Served, EdgesOk, KeysOk;
    BatchBound(prog, s, t);
  }
}
