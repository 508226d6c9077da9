/** Every step of a replay keeps the invariant. */
module ReplaySteps {
  import opened Batches
  import opened Options
  import opened Programs
  import opened ReplayInvariants
  import opened Replays

  // ---------- steps that only move a worker on ----------

  // the worker at t keeps its batch, and what it has prepared and recorded of it
  ghost predicate Moves(th: Thread, th': Thread) {
    && th'.batch == th.batch && th'.cursor == th.cursor && th'.live == th.live
    && Flushes(th') == Flushes(th)
  }

  lemma MoveEdges(prog: Program, s: State, t: nat, th: Thread, idx: nat)
    requires t < |s.threads| && Moves(s.threads[t], th) && EdgesOk(prog, s)
    ensures EdgesOk(prog, Set(s, t, th).(idx := idx))
  {
    var s' := Set(s, t, th).(idx := idx);
    hide EdgesOk;
    forall p: nat, g: nat | Edge(prog, p, g) ensures EdgeOk(prog, s', p, g) {
      EdgeAt(prog, s, p, g);
      hide Edge;
    }
    EdgesIntro(prog, s');
  }

  lemma EdgeAt(prog: Program, s: State, p: nat, g: nat)
    requires EdgesOk(prog, s) && Edge(prog, p, g)
    ensures EdgeOk(prog, s, p, g)
  {
    hide EdgeOk;
  }

  lemma EdgesIntro(prog: Program, s: State)
    requires forall p: nat, g: nat :: Edge(prog, p, g) ==> EdgeOk(prog, s, p, g)
    ensures EdgesOk(prog, s)
  {
    hide EdgeOk;
  }

  lemma MoveRest(prog: Program, s: State, t: nat, th: Thread, idx: nat)
    requires t < |s.threads| && Moves(s.threads[t], th) && BatchesOk(prog, s) && KeysOk(prog, s) && ParkedOk(prog, s)
    requires Served(s) && (Serves(s.threads[t]) ==> Serves(th))
    ensures var s' := Set(s, t, th).(idx := idx);
      BatchesOk(prog, s') && KeysOk(prog, s') && ParkedOk(prog, s') && Served(s')
  {
    var s' := Set(s, t, th).(idx := idx);
    if s.queue != [] {
      var t1 :| 0 <= t1 < |s.threads| && Serves(s.threads[t1]);
      assert Serves(s'.threads[t1]);
    }
  }

  // a step that leaves the map, the queue and the locations alone
  lemma MoveOk(prog: Program, s: State, t: nat, th: Thread, idx: nat)
    requires Inv(prog, s) && t < |s.threads| && Moves(s.threads[t], th) && !Flushes(th)
    requires Serves(s.threads[t]) ==> Serves(th)
    requires ClaimedOk(prog, Set(s, t, th).(idx := idx))
    requires ThreadOk(prog, Set(s, t, th).(idx := idx), th) && SetsOk(prog, th)
    requires idx == s.idx || (s.idx >= Total(prog) && idx >= Total(prog))
    ensures Inv(prog, Set(s, t, th).(idx := idx))
  {
    hide EdgesOk, BatchesOk, KeysOk, ParkedOk, Served, ClaimedOk, SetsOk;
    MoveEdges(prog, s, t, th, idx);
    MoveRest(prog, s, t, th, idx);
    MoveQueue(prog, s, t, th, idx);
    MoveThreads(prog, s, t, th, idx);
    hide ThreadsOk, QueueOk, WokenOk, Moves;
    MoveSets(prog, s, t, th, idx);
  }

  lemma MoveQueue(prog: Program, s: State, t: nat, th: Thread, idx: nat)
    requires t < |s.threads| && QueueOk(prog, s) && WokenOk(prog, s) && !Flushes(th) && Moves(s.threads[t], th)
    ensures QueueOk(prog, Set(s, t, th).(idx := idx)) && WokenOk(prog, Set(s, t, th).(idx := idx))
  {
  }

  lemma MoveThreads(prog: Program, s: State, t: nat, th: Thread, idx: nat)
    requires t < |s.threads| && ThreadsOk(prog, s) && ThreadOk(prog, Set(s, t, th).(idx := idx), th)
    requires idx == s.idx || (s.idx >= Total(prog) && idx >= Total(prog))
    ensures ThreadsOk(prog, Set(s, t, th).(idx := idx))
  {
    var s' := Set(s, t, th).(idx := idx);
    forall t1 | 0 <= t1 < |s'.threads| ensures ThreadOk(prog, s', s'.threads[t1]) {
      assert ThreadOk(prog, s, s.threads[t1]);
    }
  }

  lemma MoveSets(prog: Program, s: State, t: nat, th: Thread, idx: nat)
    requires t < |s.threads| && AllSetsOk(prog, s) && SetsOk(prog, th)
    ensures AllSetsOk(prog, Set(s, t, th).(idx := idx))
  {
    hide SetsOk;
  }

  lemma ClampOk(prog: Program, s: State, t: nat)
    requires Ssa(prog) && Inv(prog, s) && At(prog, s, t, Clamp)
    ensures Inv(prog, ClampStep(prog, s, t))
  {
    hide EdgesOk, BatchesOk, QueueOk, KeysOk, ParkedOk, Served, WokenOk;
    var th := s.threads[t].(pc := Make);
    assert ThreadOk(prog, s, s.threads[t]) && SetsOk(prog, s.threads[t]);
    assert ClaimedOk(prog, ClampStep(prog, s, t)) by {
      hide AllSetsOk, SetsOk;
    }
    MoveOk(prog, s, t, th, Total(prog));
    assert Set(s, t, th).(idx := Total(prog)) == ClampStep(prog, s, t);
  }

  // ---------- claiming ----------

  lemma ClaimEdges(prog: Program, s: State, t: nat, lo: nat, hi: nat, th: Thread, idx: nat)
    requires EdgesOk(prog, s) && t < |s.threads| && Moves(s.threads[t], th)
    requires forall g :: lo <= g < hi && g < |s.loc| ==> s.loc[g] == Unclaimed
    ensures EdgesOk(prog, Set(s, t, th).(idx := idx, loc := ClaimRange(s.loc, lo, hi, t)))
  {
    var s' := Set(s, t, th).(idx := idx, loc := ClaimRange(s.loc, lo, hi, t));
    hide EdgesOk;
    forall p: nat, g: nat | Edge(prog, p, g) ensures EdgeOk(prog, s', p, g) {
      EdgeAt(prog, s, p, g);
      hide Edge;
    }
    EdgesIntro(prog, s');
  }

  // the claimed range was unclaimed
  lemma RangeUnclaimed(prog: Program, s: State, hi: nat)
    requires ClaimedOk(prog, s)
    ensures forall g :: s.idx <= g < hi && g < |s.loc| ==> s.loc[g] == Unclaimed
  {
  }

  lemma ClaimClaimed(prog: Program, s: State, t: nat, th: Thread, hi: nat, idx: nat)
    requires ClaimedOk(prog, s) && t < |s.threads| && s.threads[t].pc == Claim && th.pc == Check
    requires th.pos == s.idx && th.end == hi && s.idx <= hi <= |s.loc| && (idx == hi || (idx >= hi && hi == |s.loc|))
    ensures ClaimedOk(prog, Set(s, t, th).(idx := idx, loc := ClaimRange(s.loc, s.idx, hi, t)))
  {
  }

  lemma ClaimBatches(prog: Program, s: State, t: nat, th: Thread, lo: nat, hi: nat, idx: nat)
    requires BatchesOk(prog, s) && t < |s.threads| && th.batch == s.threads[t].batch
    requires forall g :: lo <= g < hi && g < |s.loc| ==> s.loc[g] == Unclaimed
    ensures BatchesOk(prog, Set(s, t, th).(idx := idx, loc := ClaimRange(s.loc, lo, hi, t)))
  {
  }

  lemma ClaimQueue(prog: Program, s: State, t: nat, th: Thread, lo: nat, hi: nat, idx: nat)
    requires QueueOk(prog, s) && ParkedOk(prog, s) && WokenOk(prog, s) && t < |s.threads|
    requires !Flushes(s.threads[t]) && !Flushes(th)
    requires forall g :: lo <= g < hi && g < |s.loc| ==> s.loc[g] == Unclaimed
    ensures var s' := Set(s, t, th).(idx := idx, loc := ClaimRange(s.loc, lo, hi, t));
      QueueOk(prog, s') && ParkedOk(prog, s') && WokenOk(prog, s')
  {
  }

  // the worker, with its new range
  lemma ClaimThread(prog: Program, s: State, t: nat, th: Thread)
    requires t < |s.threads| && s.threads[t].pc == Claim && s.idx < Total(prog)
    requires ThreadOk(prog, s, s.threads[t]) && SetsOk(prog, s.threads[t]) && |s.threads[t].batch| < BATCH_SIZE
    requires th == s.threads[t].(pc := Check, pos := s.idx, end := Least(s.idx + (BATCH_SIZE - |s.threads[t].batch|), Total(prog)))
    ensures ThreadOk(prog, s, th) && SetsOk(prog, th) && Moves(s.threads[t], th)
    ensures !Flushes(th) && !Flushes(s.threads[t]) && (Serves(s.threads[t]) ==> Serves(th))
    ensures th.pos == s.idx <= th.end <= Total(prog) && th.batch == s.threads[t].batch && th.pc == Check
  {
    hide SetsOk;
    SameSets(prog, s.threads[t], th);
  }

  lemma ClaimRangeOk(prog: Program, s: State, t: nat)
    requires Ssa(prog) && Inv(prog, s) && At(prog, s, t, Claim)
    requires |s.threads[t].batch| < BATCH_SIZE && s.idx < Total(prog)
    ensures Inv(prog, ClaimStep(prog, s, t))
  {
    hide EdgesOk, BatchesOk, QueueOk, KeysOk, ParkedOk, Served, WokenOk, ClaimedOk, SetsOk, Ssa, ThreadsOk, AllSetsOk, ClaimRange;
    hide ThreadOk, Moves, Flushes, Serves;
    var th0 := s.threads[t];
    var next := s.idx + (BATCH_SIZE - |th0.batch|);
    var hi := Least(next, Total(prog));
    var th := th0.(pc := Check, pos := s.idx, end := hi);
    BatchBound(prog, s, t);
    ClaimThread(prog, s, t, th);
    RangeUnclaimed(prog, s, hi);
    ClaimClaimed(prog, s, t, th, hi, next);
    ClaimBatches(prog, s, t, th, s.idx, hi, next);
    ClaimQueue(prog, s, t, th, s.idx, hi, next);
    ClaimEdges(prog, s, t, s.idx, hi, th, next);
    ClaimWorkers(prog, s, t, th, next, ClaimRange(s.loc, s.idx, hi, t));
  }

  lemma ClaimWorkers(prog: Program, s: State, t: nat, th: Thread, idx: nat, loc: seq<Loc>)
    requires t < |s.threads| && ThreadsOk(prog, s) && AllSetsOk(prog, s) && Served(s) && KeysOk(prog, s)
    requires idx >= s.idx && SetsOk(prog, th) && ThreadOk(prog, s, th) && (Serves(s.threads[t]) ==> Serves(th))
    ensures var s' := Set(s, t, th).(idx := idx, loc := loc);
      ThreadsOk(prog, s') && AllSetsOk(prog, s') && Served(s') && KeysOk(prog, s')
  {
    hide SetsOk, KeysOk;
    var s' := Set(s, t, th).(idx := idx, loc := loc);
    forall t1 | 0 <= t1 < |s'.threads| ensures ThreadOk(prog, s', s'.threads[t1]) && SetsOk(prog, s'.threads[t1]) {
      assert ThreadOk(prog, s, s.threads[t1]) && SetsOk(prog, s.threads[t1]);
    }
    if s.queue != [] {
      var t1 :| 0 <= t1 < |s.threads| && Serves(s.threads[t1]);
      assert Serves(s'.threads[t1]);
    }
    SameKeys(prog, s, s');
  }

  lemma SameSets(prog: Program, th: Thread, th': Thread)
    requires SetsOk(prog, th) && th'.batch == th.batch && th'.cursor == th.cursor && th'.live == th.live
    requires th'.local == th.local && (th'.pc == Claim || th'.pc == Clamp || th'.pc == Check ==> th.pc == Claim || th.pc == Check)
    requires th'.pc != Erase
    ensures SetsOk(prog, th')
  {
  }

  lemma ClaimMoveOk(prog: Program, s: State, t: nat, th: Thread, idx: nat)
    requires Inv(prog, s) && At(prog, s, t, Claim)
    requires th == s.threads[t].(pc := Make) || th == s.threads[t].(pc := Clamp)
    requires th.pc == Make ==> |th.batch| == BATCH_SIZE && idx == s.idx
    requires th.pc == Clamp ==> s.idx >= Total(prog) && idx >= s.idx
    ensures Inv(prog, Set(s, t, th).(idx := idx))
  {
    hide EdgesOk, BatchesOk, QueueOk, KeysOk, ParkedOk, Served, WokenOk, SetsOk;
    assert ThreadOk(prog, s, s.threads[t]) && SetsOk(prog, s.threads[t]);
    SameSets(prog, s.threads[t], th);
    MoveClaimed(prog, s, t, th, idx);
    hide ClaimedOk;
    MoveOk(prog, s, t, th, idx);
  }

  lemma MoveClaimed(prog: Program, s: State, t: nat, th: Thread, idx: nat)
    requires ClaimedOk(prog, s) && t < |s.threads| && th.pc != Check
    requires s.threads[t].pc == Check ==> s.threads[t].pos >= s.threads[t].end
    requires idx == s.idx || (s.idx >= |s.loc| && idx >= |s.loc|)
    ensures ClaimedOk(prog, Set(s, t, th).(idx := idx))
  {
  }

  lemma BatchBound(prog: Program, s: State, t: nat)
    requires Inv(prog, s) && t < |s.threads|
    ensures ThreadOk(prog, s, s.threads[t]) && SetsOk(prog, s.threads[t])
  {
    hide EdgesOk, BatchesOk, QueueOk, KeysOk, ParkedOk, Served, WokenOk, ClaimedOk, SetsOk, ThreadOk;
  }

  lemma ClaimOk(prog: Program, s: State, t: nat)
    requires Ssa(prog) && Inv(prog, s) && At(prog, s, t, Claim)
    ensures |s.threads[t].batch| <= BATCH_SIZE
    ensures Inv(prog, ClaimStep(prog, s, t))
  {
    hide Inv, Ssa;
    var th := s.threads[t];
    BatchBound(prog, s, t);
    if |th.batch| == BATCH_SIZE {
      ClaimMoveOk(prog, s, t, th.(pc := Make), s.idx);
      assert Set(s, t, th.(pc := Make)).(idx := s.idx) == ClaimStep(prog, s, t);
    } else if s.idx >= Total(prog) {
      ClaimMoveOk(prog, s, t, th.(pc := Clamp), s.idx + (BATCH_SIZE - |th.batch|));
    } else {
      ClaimRangeOk(prog, s, t);
    }
  }

  // ---------- going through the claimed range ----------

  // the next operation of the range
  ghost predicate Next(prog: Program, s: State, t: nat, g: nat) {
    && At(prog, s, t, Check) && s.threads[t].pos == g < s.threads[t].end
    && g < |s.loc| && s.loc[g] == Claimed(t)
  }

  lemma NextOk(prog: Program, s: State, t: nat)
    requires Inv(prog, s) && At(prog, s, t, Check) && s.threads[t].pos < s.threads[t].end
    ensures Next(prog, s, t, s.threads[t].pos)
  {
    hide EdgesOk, BatchesOk, QueueOk, KeysOk, ParkedOk, Served, WokenOk, AllSetsOk;
    assert ThreadOk(prog, s, s.threads[t]);
    assert InRange(s.threads[t], s.threads[t].pos);
  }

  lemma AcceptClaimed(prog: Program, s: State, t: nat, g: nat, local: set<nat>)
    requires ClaimedOk(prog, s) && Next(prog, s, t, g)
    ensures ClaimedOk(prog, Accept(prog, s, t, g, local))
  {
  }

  lemma AcceptBatches(prog: Program, s: State, t: nat, g: nat, local: set<nat>)
    requires BatchesOk(prog, s) && Next(prog, s, t, g)
    ensures BatchesOk(prog, Accept(prog, s, t, g, local))
  {
  }

  lemma AcceptQueue(prog: Program, s: State, t: nat, g: nat, local: set<nat>)
    requires QueueOk(prog, s) && ParkedOk(prog, s) && WokenOk(prog, s) && Next(prog, s, t, g)
    ensures var s' := Accept(prog, s, t, g, local);
      QueueOk(prog, s') && ParkedOk(prog, s') && WokenOk(prog, s')
  {
  }

  lemma AcceptThreads(prog: Program, s: State, t: nat, g: nat, local: set<nat>)
    requires ThreadsOk(prog, s) && Next(prog, s, t, g)
    ensures ThreadsOk(prog, Accept(prog, s, t, g, local)) && Served(Accept(prog, s, t, g, local))
  {
    var s' := Accept(prog, s, t, g, local);
    forall t1 | 0 <= t1 < |s'.threads| ensures ThreadOk(prog, s', s'.threads[t1]) {
      assert ThreadOk(prog, s, s.threads[t1]);
    }
    assert Serves(s'.threads[t]);
  }

  lemma AcceptSets(prog: Program, s: State, t: nat, g: nat, local: set<nat>)
    requires AllSetsOk(prog, s) && ThreadsOk(prog, s) && Next(prog, s, t, g) && local <= s.threads[t].local
    ensures AllSetsOk(prog, Accept(prog, s, t, g, local))
  {
    var s' := Accept(prog, s, t, g, local);
    var th, th' := s.threads[t], s'.threads[t];
    assert SetsOk(prog, th) && ThreadOk(prog, s, th);
    hide AllSetsOk, ThreadsOk;
    NoLive(prog, th);
    forall u | u in th'.local ensures Produces(prog, th'.batch, |th'.batch|, u) {
      if u in local {
        var j: nat :| ProducesAt(prog, th.batch, |th.batch|, u, j);
        assert ProducesAt(prog, th'.batch, |th'.batch|, u, j);
      } else {
        assert ProducesAt(prog, th'.batch, |th'.batch|, u, |th.batch|);
      }
    }
    MoveSets(prog, s, t, th', s.idx);
    SameThreads(prog, Set(s, t, th').(idx := s.idx), s');
  }

  lemma SameThreads(prog: Program, a: State, b: State)
    requires a.threads == b.threads && AllSetsOk(prog, a)
    ensures AllSetsOk(prog, b)
  {
    hide SetsOk;
  }

  // the input of the operation is recorded, or comes earlier in the batch
  ghost predicate InputReady(prog: Program, s: State, t: nat, g: nat) {
    g < |prog.inp| && t < |s.threads|
    && (prog.inp[g].Some? ==>
         prog.inp[g].value in s.ids || Produces(prog, s.threads[t].batch, |s.threads[t].batch|, prog.inp[g].value))
  }

  lemma NoLive(prog: Program, th: Thread)
    requires SetsOk(prog, th) && th.cursor == 0
    ensures th.live == {}
  {
    assert forall u :: u in th.live ==> !Produces(prog, th.batch, th.cursor, u);
  }

  // an edge looks at nothing else
  ghost predicate SameView(s: State, s': State, p: nat, g: nat) {
    && p < |s.loc| && g < |s.loc| == |s'.loc| && s'.loc[p] == s.loc[p] && s'.loc[g] == s.loc[g]
    && SameWorker(s, s', s.loc[p]) && SameWorker(s, s', s.loc[g])
  }

  ghost predicate SameWorker(s: State, s': State, l: Loc) {
    && |s'.threads| == |s.threads|
    && (l.InBatch? && l.t < |s.threads| ==>
         && s'.threads[l.t].cursor == s.threads[l.t].cursor && s'.threads[l.t].live == s.threads[l.t].live
         && Flushes(s'.threads[l.t]) == Flushes(s.threads[l.t]))
  }

  ghost predicate SameEntry(s: State, s': State, u: nat) {
    (u in s'.ids <==> u in s.ids) && (u in s.ids ==> s'.ids[u] == s.ids[u])
  }

  lemma ViewEdge(prog: Program, s: State, s': State, p: nat, g: nat)
    requires EdgeOk(prog, s, p, g) && SameView(s, s', p, g) && SameEntry(s, s', prog.out[p].value)
    ensures EdgeOk(prog, s', p, g)
  {
  }

  lemma AcceptInput(prog: Program, s: State, t: nat, g: nat, local: set<nat>, p: nat)
    requires Ssa(prog) && Next(prog, s, t, g) && BatchesOk(prog, s) && ThreadOk(prog, s, s.threads[t])
    requires InputReady(prog, s, t, g) && s.threads[t].live == {} && Edge(prog, p, g) && EdgeOk(prog, s, p, g)
    ensures EdgeOk(prog, Accept(prog, s, t, g, local), p, g)
  {
    assert p != g;
    if prog.out[p].value !in s.ids {
      InThisBatch(prog, s, t, p);
    }
    hide Ssa, BatchesOk, InputReady;
  }

  // what the batch produces, it produces from this operation
  lemma InThisBatch(prog: Program, s: State, t: nat, p: nat)
    requires Ssa(prog) && BatchesOk(prog, s) && t < |s.threads| && p < |prog.out| && prog.out[p].Some?
    requires Produces(prog, s.threads[t].batch, |s.threads[t].batch|, prog.out[p].value)
    ensures p < |s.loc| && s.loc[p].InBatch? && s.loc[p].t == t && s.loc[p].k < |s.threads[t].batch|
  {
    var u := prog.out[p].value;
    var j: nat :| ProducesAt(prog, s.threads[t].batch, |s.threads[t].batch|, u, j);
    assert HasLoc(s.loc, s.threads[t].batch[j], InBatch(t, j));
  }

  lemma AcceptOutput(prog: Program, s: State, t: nat, g: nat, local: set<nat>, h: nat)
    requires Next(prog, s, t, g) && ThreadOk(prog, s, s.threads[t]) && s.threads[t].live == {}
    requires h != g && g < |prog.out| && prog.out[g].Some? && EdgeOk(prog, s, g, h)
    ensures EdgeOk(prog, Accept(prog, s, t, g, local), g, h)
  {
    hide OutSet;
  }

  lemma AcceptEdges(prog: Program, s: State, t: nat, g: nat, local: set<nat>)
    requires Ssa(prog) && Next(prog, s, t, g) && BatchesOk(prog, s) && ThreadOk(prog, s, s.threads[t])
    requires InputReady(prog, s, t, g) && s.threads[t].live == {} && EdgesOk(prog, s)
    ensures EdgesOk(prog, Accept(prog, s, t, g, local))
  {
    hide EdgesOk, EdgeOk, InputReady, BatchesOk, Ssa;
    var s' := Accept(prog, s, t, g, local);
    forall p: nat, h: nat | Edge(prog, p, h) ensures EdgeOk(prog, s', p, h) {
      EdgeAt(prog, s, p, h);
      EdgeBounds(prog, s, p, h);
      if h == g {
        AcceptInput(prog, s, t, g, local, p);
      } else if p == g {
        AcceptOutput(prog, s, t, g, local, h);
      } else {
        ViewEdge(prog, s, s', p, h);
      }
    }
    EdgesIntro(prog, s');
  }

  lemma EdgeBounds(prog: Program, s: State, p: nat, g: nat)
    requires EdgeOk(prog, s, p, g)
    ensures p < |s.loc| && g < |s.loc| && p < |prog.out| && prog.out[p].Some?
  {
  }

  lemma AcceptOk(prog: Program, s: State, t: nat, g: nat, local: set<nat>)
    requires Ssa(prog) && Inv(prog, s) && Next(prog, s, t, g) && InputReady(prog, s, t, g)
    requires local <= s.threads[t].local
    ensures Inv(prog, Accept(prog, s, t, g, local))
  {
    hide EdgesOk, BatchesOk, QueueOk, KeysOk, ParkedOk, Served, WokenOk, ClaimedOk, SetsOk, AllSetsOk, ThreadsOk, Ssa;
    hide InputReady;
    BatchBound(prog, s, t);
    NoLive(prog, s.threads[t]);
    AcceptClaimed(prog, s, t, g, local);
    AcceptBatches(prog, s, t, g, local);
    AcceptQueue(prog, s, t, g, local);
    AcceptThreads(prog, s, t, g, local);
    AcceptSets(prog, s, t, g, local);
    AcceptEdges(prog, s, t, g, local);
    SameKeys(prog, s, Accept(prog, s, t, g, local));
  }

  lemma SameKeys(prog: Program, s: State, s': State)
    requires KeysOk(prog, s) && s'.ids.Keys <= s.ids.Keys
    ensures KeysOk(prog, s')
  {
    hide HasProducer;
  }

  // ---------- parking ----------

  function Park(s: State, t: nat, g: nat, u: nat): State
    requires t < |s.threads| && g < |s.loc|
  {
    Set(s, t, s.threads[t].(pos := g + 1)).(ids := s.ids[u := Marker(g)], loc := s.loc[g := Parked])
  }

  lemma ParkLocs(prog: Program, s: State, t: nat, g: nat, u: nat)
    requires ClaimedOk(prog, s) && BatchesOk(prog, s) && Next(prog, s, t, g)
    ensures ClaimedOk(prog, Park(s, t, g, u)) && BatchesOk(prog, Park(s, t, g, u))
  {
    assert ClaimedOk(prog, Park(s, t, g, u)) by {
      hide BatchesOk;
    }
    assert BatchesOk(prog, Park(s, t, g, u)) by {
      hide ClaimedOk;
    }
  }

  lemma ParkQueue(prog: Program, s: State, t: nat, g: nat, u: nat)
    requires QueueOk(prog, s) && ParkedOk(prog, s) && WokenOk(prog, s) && Next(prog, s, t, g) && prog.inp[g] == Some(u)
    ensures var s' := Park(s, t, g, u);
      QueueOk(prog, s') && ParkedOk(prog, s') && WokenOk(prog, s')
  {
  }

  lemma ParkThreads(prog: Program, s: State, t: nat, g: nat, u: nat)
    requires ThreadsOk(prog, s) && AllSetsOk(prog, s) && Served(s) && Next(prog, s, t, g)
    ensures ThreadsOk(prog, Park(s, t, g, u)) && AllSetsOk(prog, Park(s, t, g, u)) && Served(Park(s, t, g, u))
  {
    hide SetsOk;
    var s' := Park(s, t, g, u);
    forall t1 | 0 <= t1 < |s'.threads| ensures ThreadOk(prog, s', s'.threads[t1]) && SetsOk(prog, s'.threads[t1]) {
      assert ThreadOk(prog, s, s.threads[t1]) && SetsOk(prog, s.threads[t1]);
      SameSets(prog, s.threads[t], s'.threads[t]);
    }
    if s.queue != [] {
      var t1 :| 0 <= t1 < |s.threads| && Serves(s.threads[t1]);
      assert Serves(s'.threads[t1]);
    }
  }

  lemma ParkInput(prog: Program, s: State, t: nat, g: nat, u: nat, p: nat)
    requires Next(prog, s, t, g) && u !in s.ids && EdgeOk(prog, s, p, g) && prog.out[p] == Some(u) && p != g
    ensures EdgeOk(prog, Park(s, t, g, u), p, g)
  {
  }

  lemma ParkOutput(prog: Program, s: State, t: nat, g: nat, u: nat, h: nat)
    requires Next(prog, s, t, g) && EdgeOk(prog, s, g, h) && prog.out[g] != Some(u) && h != g
    ensures EdgeOk(prog, Park(s, t, g, u), g, h)
  {
  }

  // the consumer of an id is determined, and so is the producer
  lemma OneEdge(prog: Program, p: nat, g: nat, p': nat, g': nat)
    requires Ssa(prog) && Edge(prog, p, g) && Edge(prog, p', g')
    ensures p < g && (prog.out[p] == prog.out[p'] <==> p == p') && (prog.inp[g] == prog.inp[g'] <==> g == g')
    ensures p == p' <==> g == g'
  {
  }

  lemma ParkEdges(prog: Program, s: State, t: nat, g: nat, u: nat)
    requires Ssa(prog) && Next(prog, s, t, g) && EdgesOk(prog, s) && u !in s.ids && prog.inp[g] == Some(u)
    ensures EdgesOk(prog, Park(s, t, g, u))
  {
    hide EdgesOk, EdgeOk, Ssa;
    var s' := Park(s, t, g, u);
    forall p: nat, h: nat | Edge(prog, p, h) ensures EdgeOk(prog, s', p, h) {
      EdgeAt(prog, s, p, h);
      EdgeBounds(prog, s, p, h);
      OneEdge(prog, p, h, p, h);
      if prog.out[p] == Some(u) {
        assert Edge(prog, p, g);
        OneEdge(prog, p, h, p, g);
        ParkInput(prog, s, t, g, u, p);
      } else if p == g {
        ParkOutput(prog, s, t, g, u, h);
      } else {
        ViewEdge(prog, s, s', p, h);
      }
    }
    EdgesIntro(prog, s');
  }

  lemma ParkKeys(prog: Program, s: State, g: nat, u: nat, s': State)
    requires Ssa(prog) && KeysOk(prog, s) && g < |prog.inp| && prog.inp[g] == Some(u) && s'.ids.Keys == s.ids.Keys + {u}
    ensures KeysOk(prog, s')
  {
    var p: nat :| Edge(prog, p, g);
    assert HasProducer(prog, u);
  }

  lemma ParkOk(prog: Program, s: State, t: nat, g: nat, u: nat)
    requires Ssa(prog) && Inv(prog, s) && Next(prog, s, t, g) && prog.inp[g] == Some(u) && u !in s.ids
    ensures Inv(prog, Park(s, t, g, u))
  {
    hide EdgesOk, BatchesOk, QueueOk, KeysOk, ParkedOk, Served, WokenOk, ClaimedOk, AllSetsOk, ThreadsOk, Ssa;
    ParkLocs(prog, s, t, g, u);
    ParkQueue(prog, s, t, g, u);
    ParkThreads(prog, s, t, g, u);
    ParkEdges(prog, s, t, g, u);
    ParkKeys(prog, s, g, u, Park(s, t, g, u));
  }

  lemma CheckOk(prog: Program, s: State, t: nat)
    requires Ssa(prog) && Inv(prog, s) && At(prog, s, t, Check)
    ensures s.threads[t].end <= Total(prog) && Inv(prog, CheckStep(prog, s, t))
  {
    hide Inv, Ssa;
    var th := s.threads[t];
    BatchBound(prog, s, t);
    var g := th.pos;
    if g >= th.end {
      CheckDone(prog, s, t);
      assert Set(s, t, th.(pc := Claim)).(idx := s.idx) == CheckStep(prog, s, t);
    } else {
      NextOk(prog, s, t);
      if prog.inp[g] == None {
        AcceptOk(prog, s, t, g, th.local);
      } else {
        var u := prog.inp[g].value;
        if u in th.local {
          AcceptOk(prog, s, t, g, th.local - {u});
        } else if u in s.ids {
          AcceptOk(prog, s, t, g, th.local);
        } else {
          ParkOk(prog, s, t, g, u);
        }
      }
    }
  }

  lemma CheckDone(prog: Program, s: State, t: nat)
    requires Inv(prog, s) && At(prog, s, t, Check) && s.threads[t].pos >= s.threads[t].end
    ensures Inv(prog, Set(s, t, s.threads[t].(pc := Claim)).(idx := s.idx))
  {
    hide EdgesOk, BatchesOk, QueueOk, KeysOk, ParkedOk, Served, WokenOk, SetsOk, AllSetsOk, ThreadsOk;
    BatchBound(prog, s, t);
    var th := s.threads[t].(pc := Claim);
    SameSets(prog, s.threads[t], th);
    MoveClaimed(prog, s, t, th, s.idx);
    hide ClaimedOk;
    MoveOk(prog, s, t, th, s.idx);
  }

  // ---------- taking from the queue ----------

  lemma IndexIs(q: seq<nat>, i: nat)
    requires i < |q| && forall a, b :: 0 <= a < b < |q| ==> q[a] != q[b]
    ensures IndexOf(q, q[i]) == i
  {
    var j := IndexOf(q, q[i]);
  }

  ghost predicate Taken(s: State, loc: seq<Loc>, taken: seq<nat>, t: nat) {
    && |loc| == |s.loc|
    && (forall i :: 0 <= i < |taken| ==> HasLoc(s.loc, taken[i], Queued) && HasLoc(loc, taken[i], InBatch(t, i)))
    && (forall g :: 0 <= g < |loc| && g !in taken ==> loc[g] == s.loc[g])
    && (forall g :: 0 <= g < |loc| && g in taken ==>
          s.loc[g] == Queued && loc[g].InBatch? && loc[g].t == t && loc[g].k < |taken| && taken[loc[g].k] == g)
  }

  lemma PlaceIs(prog: Program, s: State, t: nat, k: nat)
    requires QueueOk(prog, s) && k <= |s.queue|
    ensures Taken(s, Place(s.loc, s.queue[..k], t), s.queue[..k], t)
  {
    var taken := s.queue[..k];
    var loc := Place(s.loc, taken, t);
    forall i | 0 <= i < |taken| ensures HasLoc(s.loc, taken[i], Queued) && HasLoc(loc, taken[i], InBatch(t, i)) {
      assert HasLoc(s.loc, s.queue[i], Queued);
      IndexIs(taken, i);
      assert taken[i] in taken;
    }
    forall g | 0 <= g < |loc| && g in taken
      ensures s.loc[g] == Queued && loc[g].InBatch? && loc[g].t == t && loc[g].k < |taken| && taken[loc[g].k] == g
    {
      var i := IndexOf(taken, g);
      assert HasLoc(s.loc, s.queue[i], Queued);
    }
  }

  // the worker at t starts with the batch `taken`, and rest is left in the queue
  function Started(s: State, t: nat, taken: seq<nat>, rest: seq<nat>, loc: seq<Loc>): State
    requires t < |s.threads|
  {
    Set(s, t, s.threads[t].(pc := Claim, batch := taken, taken := |taken|, local := {})).(queue := rest, loc := loc)
  }

  lemma TakeClaimed(prog: Program, s: State, t: nat, taken: seq<nat>, rest: seq<nat>, loc: seq<Loc>)
    requires ClaimedOk(prog, s) && At(prog, s, t, Start) && Taken(s, loc, taken, t)
    ensures ClaimedOk(prog, Started(s, t, taken, rest, loc))
  {
  }

  lemma TakeBatches(prog: Program, s: State, t: nat, taken: seq<nat>, rest: seq<nat>, loc: seq<Loc>)
    requires BatchesOk(prog, s) && At(prog, s, t, Start) && Taken(s, loc, taken, t) && s.threads[t].batch == []
    ensures BatchesOk(prog, Started(s, t, taken, rest, loc))
  {
  }

  lemma TakeQueue(prog: Program, s: State, t: nat, taken: seq<nat>, rest: seq<nat>, loc: seq<Loc>)
    requires QueueOk(prog, s) && At(prog, s, t, Start) && Taken(s, loc, taken, t) && s.queue == taken + rest
    ensures QueueOk(prog, Started(s, t, taken, rest, loc))
  {
    var s' := Started(s, t, taken, rest, loc);
    assert forall i :: 0 <= i < |rest| ==> rest[i] == s.queue[|taken| + i];
    forall i | 0 <= i < |rest| ensures HasLoc(loc, rest[i], Queued) {
      assert HasLoc(s.loc, s.queue[|taken| + i], Queued);
      assert rest[i] !in taken by {
        assert forall j :: 0 <= j < |taken| ==> s.queue[j] == taken[j];
      }
    }
  }

  lemma TakeParked(prog: Program, s: State, t: nat, taken: seq<nat>, rest: seq<nat>, loc: seq<Loc>)
    requires ParkedOk(prog, s) && WokenOk(prog, s) && At(prog, s, t, Start) && Taken(s, loc, taken, t)
    ensures ParkedOk(prog, Started(s, t, taken, rest, loc)) && WokenOk(prog, Started(s, t, taken, rest, loc))
  {
  }

  lemma TakeThreads(prog: Program, s: State, t: nat, taken: seq<nat>, rest: seq<nat>, loc: seq<Loc>)
    requires ThreadsOk(prog, s) && AllSetsOk(prog, s) && At(prog, s, t, Start)
    requires |taken| <= MAX_QUEUED_TAKEN && (rest != [] ==> taken != [])
    ensures var s' := Started(s, t, taken, rest, loc);
      ThreadsOk(prog, s') && AllSetsOk(prog, s') && Served(s')
  {
    var s' := Started(s, t, taken, rest, loc);
    assert ThreadOk(prog, s, s.threads[t]) && SetsOk(prog, s.threads[t]);
    NoLive(prog, s.threads[t]);
    forall t1 | 0 <= t1 < |s'.threads| ensures ThreadOk(prog, s', s'.threads[t1]) && SetsOk(prog, s'.threads[t1]) {
      assert ThreadOk(prog, s, s.threads[t1]) && SetsOk(prog, s.threads[t1]);
    }
    assert taken != [] ==> Serves(s'.threads[t]);
  }

  lemma TakeInput(prog: Program, s: State, s': State, t: nat, p: nat, g: nat)
    requires EdgeOk(prog, s, p, g) && g < |s'.loc| && p != g && t < |s.threads| && |s'.loc| == |s.loc|
    requires s.loc[g] == Queued && s'.loc[g].InBatch? && s'.loc[g].t == t && s'.ids == s.ids
    requires s'.loc[p] == s.loc[p] || (s.loc[p] == Queued && s'.loc[p].InBatch? && s'.loc[p].t == t)
    requires |s'.threads| == |s.threads| && s'.threads[t].cursor == 0 && s'.threads[t].live == {}
    requires !Flushes(s'.threads[t]) && !Flushes(s.threads[t]) && s.threads[t].live == {}
    requires forall t1 :: 0 <= t1 < |s.threads| && t1 != t ==> s'.threads[t1] == s.threads[t1]
    requires s.threads[t].cursor == 0
    ensures EdgeOk(prog, s', p, g)
  {
  }

  lemma TakeOutput(prog: Program, s: State, s': State, t: nat, p: nat, g: nat)
    requires EdgeOk(prog, s, p, g) && p < |s'.loc| && p != g && t < |s.threads| && |s'.loc| == |s.loc|
    requires s.loc[p] == Queued && s'.loc[p].InBatch? && s'.loc[p].t == t && s'.ids == s.ids && s'.loc[g] == s.loc[g]
    requires |s'.threads| == |s.threads| && s'.threads[t].cursor == 0 && s'.threads[t].live == {}
    requires !Flushes(s'.threads[t]) && !Flushes(s.threads[t]) && s.threads[t].live == {}
    requires forall t1 :: 0 <= t1 < |s.threads| && t1 != t ==> s'.threads[t1] == s.threads[t1]
    requires s.threads[t].cursor == 0
    ensures EdgeOk(prog, s', p, g)
  {
  }

  lemma TakeEdges(prog: Program, s: State, t: nat, taken: seq<nat>, rest: seq<nat>, loc: seq<Loc>)
    requires Ssa(prog) && EdgesOk(prog, s) && At(prog, s, t, Start) && Taken(s, loc, taken, t)
    requires s.threads[t].live == {} && s.threads[t].cursor == 0
    ensures EdgesOk(prog, Started(s, t, taken, rest, loc))
  {
    hide EdgesOk, EdgeOk, Ssa;
    var s' := Started(s, t, taken, rest, loc);
    forall p: nat, g: nat | Edge(prog, p, g) ensures EdgeOk(prog, s', p, g) {
      EdgeAt(prog, s, p, g);
      EdgeBounds(prog, s, p, g);
      OneEdge(prog, p, g, p, g);
      if g in taken {
        TakeInput(prog, s, s', t, p, g);
      } else if p in taken {
        TakeOutput(prog, s, s', t, p, g);
      } else {
        ViewEdge(prog, s, s', p, g);
      }
    }
    EdgesIntro(prog, s');
  }

  lemma TakeOk(prog: Program, s: State, t: nat)
    requires Ssa(prog) && Inv(prog, s) && At(prog, s, t, Start)
    ensures Inv(prog, Take(prog, s, t))
  {
    hide EdgesOk, BatchesOk, QueueOk, KeysOk, ParkedOk, Served, WokenOk, ClaimedOk, AllSetsOk, ThreadsOk, Ssa, SetsOk, Place;
    hide Taken;
    BatchBound(prog, s, t);
    NoLive(prog, s.threads[t]);
    var k := Least(|s.queue|, MAX_QUEUED_TAKEN);
    var taken, rest := s.queue[..k], s.queue[k..];
    var loc := Place(s.loc, taken, t);
    PlaceIs(prog, s, t, k);
    assert s.queue == taken + rest;
    TakeClaimed(prog, s, t, taken, rest, loc);
    TakeBatches(prog, s, t, taken, rest, loc);
    TakeQueue(prog, s, t, taken, rest, loc);
    TakeParked(prog, s, t, taken, rest, loc);
    TakeThreads(prog, s, t, taken, rest, loc);
    TakeEdges(prog, s, t, taken, rest, loc);
    SameKeys(prog, s, Take(prog, s, t));
  }

  // ---------- going through the batch ----------

  // the worker at t has prepared one more operation
  function Advance(s: State, t: nat, live: set<nat>, ids: map<nat, Val>): State
    requires t < |s.threads|
  {
    Set(s, t, s.threads[t].(pc := Make, cursor := s.threads[t].cursor + 1, live := live)).(ids := ids)
  }

  // operation g is the next to be prepared
  ghost predicate Current(prog: Program, s: State, t: nat, g: nat) {
    && t < |s.threads| && |s.loc| == Total(prog) == |prog.out| && g < |s.loc|
    && (s.threads[t].pc == Make || s.threads[t].pc == Erase) && s.stage == Preparing
    && s.threads[t].cursor < |s.threads[t].batch| && s.threads[t].batch[s.threads[t].cursor] == g
    && s.loc[g] == InBatch(t, s.threads[t].cursor)
  }

  lemma CurrentOk(prog: Program, s: State, t: nat)
    requires Inv(prog, s) && t < |s.threads| && (s.threads[t].pc == Make || s.threads[t].pc == Erase)
    requires s.threads[t].cursor < |s.threads[t].batch|
    ensures Current(prog, s, t, s.threads[t].batch[s.threads[t].cursor])
  {
    hide EdgesOk, QueueOk, KeysOk, ParkedOk, Served, WokenOk, ClaimedOk, AllSetsOk;
    assert ThreadOk(prog, s, s.threads[t]);
    assert HasLoc(s.loc, s.threads[t].batch[s.threads[t].cursor], InBatch(t, s.threads[t].cursor));
  }

  lemma AdvanceLocs(prog: Program, s: State, t: nat, g: nat, live: set<nat>, ids: map<nat, Val>)
    requires Current(prog, s, t, g) && ClaimedOk(prog, s) && BatchesOk(prog, s)
    ensures ClaimedOk(prog, Advance(s, t, live, ids)) && BatchesOk(prog, Advance(s, t, live, ids))
  {
    assert ClaimedOk(prog, Advance(s, t, live, ids)) by {
      hide BatchesOk;
    }
    assert BatchesOk(prog, Advance(s, t, live, ids)) by {
      hide ClaimedOk;
    }
  }

  lemma AdvanceQueue(prog: Program, s: State, t: nat, g: nat, live: set<nat>, ids: map<nat, Val>)
    requires Current(prog, s, t, g) && QueueOk(prog, s) && ParkedOk(prog, s) && WokenOk(prog, s)
    ensures var s' := Advance(s, t, live, ids);
      QueueOk(prog, s') && ParkedOk(prog, s') && WokenOk(prog, s')
  {
  }

  lemma AdvanceThreads(prog: Program, s: State, t: nat, g: nat, live: set<nat>, ids: map<nat, Val>)
    requires Current(prog, s, t, g) && ThreadsOk(prog, s) && AllSetsOk(prog, s) && Served(s)
    requires live <= s.threads[t].live + OutSet(prog, g)
    ensures var s' := Advance(s, t, live, ids);
      ThreadsOk(prog, s') && AllSetsOk(prog, s') && Served(s')
  {
    var s' := Advance(s, t, live, ids);
    var th, th' := s.threads[t], s'.threads[t];
    assert SetsOk(prog, th) && ThreadOk(prog, s, th);
    forall u | u in th'.live ensures Produces(prog, th'.batch, th'.cursor, u) {
      if u in th.live {
        var j: nat :| ProducesAt(prog, th.batch, th.cursor, u, j);
        assert ProducesAt(prog, th'.batch, th'.cursor, u, j);
      } else {
        assert ProducesAt(prog, th'.batch, th'.cursor, u, th.cursor);
      }
    }
    hide SetsOk;
    assert SetsOk(prog, th') by {
      MakeSets(prog, th');
    }
    forall t1 | 0 <= t1 < |s'.threads| ensures ThreadOk(prog, s', s'.threads[t1]) && SetsOk(prog, s'.threads[t1]) {
      assert ThreadOk(prog, s, s.threads[t1]) && SetsOk(prog, s.threads[t1]);
    }
    assert Serves(s'.threads[t]);
  }

  lemma MakeSets(prog: Program, th: Thread)
    requires th.pc == Make && forall u :: u in th.live ==> Produces(prog, th.batch, th.cursor, u)
    ensures SetsOk(prog, th)
  {
  }

  // no worker flushes while others prepare
  lemma NoFlush(prog: Program, s: State, t: nat)
    requires ThreadsOk(prog, s) && s.stage == Preparing && t < |s.threads|
    ensures !Flushes(s.threads[t])
  {
    assert ThreadOk(prog, s, s.threads[t]);
  }

  // the input of the operation is where it must be
  lemma CurrentInput(prog: Program, s: State, t: nat, g: nat, p: nat)
    requires Ssa(prog) && Inv(prog, s) && Current(prog, s, t, g) && Edge(prog, p, g) && EdgeOk(prog, s, p, g)
    ensures prog.out[p].value in s.threads[t].live ==>
      prog.out[p].value !in s.ids && s.loc[p].InBatch? && s.loc[p].t == t && s.loc[p].k < s.threads[t].cursor
    ensures prog.out[p].value !in s.threads[t].live ==>
      prog.out[p].value in s.ids && s.ids[prog.out[p].value] == Ptr(p) && s.loc[p] == Done
  {
    hide EdgesOk, BatchesOk, QueueOk, KeysOk, ParkedOk, Served, WokenOk, ClaimedOk, AllSetsOk, ThreadsOk, Ssa;
    if s.loc[p].InBatch? && s.loc[p].t < |s.threads| {
      NoFlush(prog, s, s.loc[p].t);
    }
    NoFlush(prog, s, t);
    if prog.out[p].value in s.threads[t].live {
      var q := LiveProducer(prog, s, t, prog.out[p].value);
    }
  }

  lemma AdvanceInput(prog: Program, s: State, t: nat, g: nat, p: nat, live: set<nat>, ids: map<nat, Val>)
    requires Ssa(prog) && Inv(prog, s) && Current(prog, s, t, g) && Edge(prog, p, g) && EdgeOk(prog, s, p, g)
    requires p != g && prog.out[p].value !in live && prog.out[p].value !in ids
    ensures EdgeOk(prog, Advance(s, t, live, ids), p, g)
  {
    hide Ssa, Inv;
    CurrentInput(prog, s, t, g, p);
  }

  lemma AdvanceOutput(prog: Program, s: State, t: nat, g: nat, h: nat, live: set<nat>, ids: map<nat, Val>)
    requires BatchesOk(prog, s) && Current(prog, s, t, g) && g != h && prog.out[g].Some? && EdgeOk(prog, s, g, h)
    requires prog.out[g].value in live
    requires (prog.out[g].value in ids <==> prog.out[g].value in s.ids)
    requires prog.out[g].value in ids ==> ids[prog.out[g].value] == s.ids[prog.out[g].value]
    ensures EdgeOk(prog, Advance(s, t, live, ids), g, h)
  {
    var s' := Advance(s, t, live, ids);
    assert Consumed(s', h) == Consumed(s, h);
    hide BatchesOk;
  }

  lemma AdvanceOther(prog: Program, s: State, t: nat, g: nat, p: nat, h: nat, live: set<nat>, ids: map<nat, Val>)
    requires BatchesOk(prog, s) && Current(prog, s, t, g) && p != g && h != g && EdgeOk(prog, s, p, h)
    requires prog.out[p].value in live <==> prog.out[p].value in s.threads[t].live
    requires (prog.out[p].value in ids <==> prog.out[p].value in s.ids)
    requires prog.out[p].value in ids ==> ids[prog.out[p].value] == s.ids[prog.out[p].value]
    ensures EdgeOk(prog, Advance(s, t, live, ids), p, h)
  {
    var s' := Advance(s, t, live, ids);
    assert Consumed(s', h) == Consumed(s, h);
    assert s.loc[p].InBatch? && s.loc[p].t == t ==> s.loc[p].k != s.threads[t].cursor;
    hide BatchesOk;
    assert Published(prog, s', p) == Published(prog, s, p);
  }

  // the live ids lose the input and gain the result, and the entry of the input is gone
  ghost predicate Prepares(prog: Program, s: State, t: nat, g: nat, live: set<nat>, ids: map<nat, Val>)
    requires t < |s.threads| && g < |prog.out| == |prog.inp|
  {
    var gone := if prog.inp[g].Some? then {prog.inp[g].value} else {};
    && live == s.threads[t].live - gone + OutSet(prog, g)
    && ids == s.ids - gone
  }

  lemma AdvanceEdges(prog: Program, s: State, t: nat, g: nat, live: set<nat>, ids: map<nat, Val>)
    requires Ssa(prog) && Inv(prog, s) && Current(prog, s, t, g) && Prepares(prog, s, t, g, live, ids)
    ensures EdgesOk(prog, Advance(s, t, live, ids))
  {
    hide EdgesOk, EdgeOk, Ssa, BatchesOk, QueueOk, KeysOk, ParkedOk, Served, WokenOk, ClaimedOk, AllSetsOk, ThreadsOk;
    var s' := Advance(s, t, live, ids);
    forall p: nat, h: nat | Edge(prog, p, h) ensures EdgeOk(prog, s', p, h) {
      EdgeAt(prog, s, p, h);
      EdgeBounds(prog, s, p, h);
      OneEdge(prog, p, h, p, h);
      if h == g {
        ResultNew(prog, p, g);
        AdvanceInput(prog, s, t, g, p, live, ids);
      } else if p == g {
        InputOther(prog, p, h, g);
        AdvanceOutput(prog, s, t, g, h, live, ids);
      } else {
        InputOther(prog, p, h, g);
        ResultNew(prog, p, g);
        AdvanceOther(prog, s, t, g, p, h, live, ids);
      }
    }
    EdgesIntro(prog, s');
  }

  // different operations have different results
  lemma ResultNew(prog: Program, p: nat, g: nat)
    requires Ssa(prog) && p < |prog.out| && g < |prog.out| && p != g && prog.out[p].Some?
    ensures prog.out[p] != prog.out[g]
  {
  }

  // only its consumer has the id as input
  lemma InputOther(prog: Program, p: nat, h: nat, g: nat)
    requires Ssa(prog) && Edge(prog, p, h) && g < |prog.inp| && g != h
    ensures prog.inp[g] != prog.out[p]
  {
  }

  lemma AdvanceOk(prog: Program, s: State, t: nat, g: nat, live: set<nat>, ids: map<nat, Val>)
    requires Ssa(prog) && Inv(prog, s) && Current(prog, s, t, g) && Prepares(prog, s, t, g, live, ids)
    ensures Inv(prog, Advance(s, t, live, ids))
  {
    hide EdgesOk, BatchesOk, QueueOk, KeysOk, ParkedOk, Served, WokenOk, ClaimedOk, AllSetsOk, ThreadsOk, Ssa;
    AdvanceLocs(prog, s, t, g, live, ids);
    AdvanceQueue(prog, s, t, g, live, ids);
    AdvanceThreads(prog, s, t, g, live, ids);
    AdvanceEdges(prog, s, t, g, live, ids);
    SameKeys(prog, s, Advance(s, t, live, ids));
  }

  lemma MakeOk(prog: Program, s: State, t: nat)
    requires Ssa(prog) && Inv(prog, s) && At(prog, s, t, Make)
    ensures (forall k :: 0 <= k < |s.threads[t].batch| ==> s.threads[t].batch[k] < Total(prog))
    ensures Inv(prog, MakeStep(prog, s, t))
  {
    hide Inv, Ssa;
    var th := s.threads[t];
    BatchOps(prog, s, t);
    if th.cursor >= |th.batch| {
      MakeDone(prog, s, t);
      assert Set(s, t, th.(pc := if th.batch == [] then Exited else Ready)).(idx := s.idx) == MakeStep(prog, s, t);
    } else {
      var g := th.batch[th.cursor];
      CurrentOk(prog, s, t);
      MakeAdvance(prog, s, t, g);
    }
  }

  lemma BatchOps(prog: Program, s: State, t: nat)
    requires Inv(prog, s) && t < |s.threads|
    ensures forall k :: 0 <= k < |s.threads[t].batch| ==> s.threads[t].batch[k] < Total(prog)
  {
    hide EdgesOk, QueueOk, KeysOk, ParkedOk, Served, WokenOk, ClaimedOk, AllSetsOk, ThreadsOk;
    assert forall k :: 0 <= k < |s.threads[t].batch| ==> HasLoc(s.loc, s.threads[t].batch[k], InBatch(t, k));
  }

  lemma MakeDone(prog: Program, s: State, t: nat)
    requires Inv(prog, s) && At(prog, s, t, Make) && s.threads[t].cursor >= |s.threads[t].batch|
    ensures Inv(prog, Set(s, t, s.threads[t].(pc := if s.threads[t].batch == [] then Exited else Ready)).(idx := s.idx))
  {
    hide EdgesOk, BatchesOk, QueueOk, KeysOk, ParkedOk, Served, WokenOk, SetsOk, AllSetsOk, ThreadsOk;
    BatchBound(prog, s, t);
    var th := s.threads[t].(pc := if s.threads[t].batch == [] then Exited else Ready);
    SameSets(prog, s.threads[t], th);
    MoveClaimed(prog, s, t, th, s.idx);
    hide ClaimedOk;
    MoveOk(prog, s, t, th, s.idx);
  }

  lemma MakeAdvance(prog: Program, s: State, t: nat, g: nat)
    requires Ssa(prog) && Inv(prog, s) && At(prog, s, t, Make) && Current(prog, s, t, g)
    requires forall k :: 0 <= k < |s.threads[t].batch| ==> s.threads[t].batch[k] < Total(prog)
    ensures Inv(prog, MakeStep(prog, s, t))
  {
    hide Inv, Ssa;
    var th := s.threads[t];
    if prog.inp[g] == None {
      assert s.ids - {} == s.ids && th.live - {} == th.live;
      AdvanceOk(prog, s, t, g, th.live + OutSet(prog, g), s.ids);
      assert Advance(s, t, th.live + OutSet(prog, g), s.ids) == MakeStep(prog, s, t);
    } else {
      var u := prog.inp[g].value;
      if u in th.live {
        LocalInput(prog, s, t, g);
        assert s.ids - {u} == s.ids;
        AdvanceOk(prog, s, t, g, th.live - {u} + OutSet(prog, g), s.ids);
        assert Advance(s, t, th.live - {u} + OutSet(prog, g), s.ids) == MakeStep(prog, s, t);
      } else {
        LookupOk(prog, s, t, g);
        assert Set(s, t, th.(pc := Erase)).(idx := s.idx) == MakeStep(prog, s, t);
      }
    }
  }

  // an input from the batch itself has no entry
  lemma LocalInput(prog: Program, s: State, t: nat, g: nat)
    requires Ssa(prog) && Inv(prog, s) && Current(prog, s, t, g)
    requires prog.inp[g].Some? && prog.inp[g].value in s.threads[t].live
    ensures prog.inp[g].value !in s.ids
  {
    var p := InputEdge(prog, s, g);
    hide Inv, Ssa;
    CurrentInput(prog, s, t, g, p);
  }

  lemma InputEdge(prog: Program, s: State, g: nat) returns (p: nat)
    requires Ssa(prog) && EdgesOk(prog, s) && g < |prog.inp| && prog.inp[g].Some?
    ensures Edge(prog, p, g) && EdgeOk(prog, s, p, g) && p < g
  {
    p :| Edge(prog, p, g);
  }

  lemma LookupOk(prog: Program, s: State, t: nat, g: nat)
    requires Inv(prog, s) && At(prog, s, t, Make) && Current(prog, s, t, g)
    requires prog.inp[g].Some? && prog.inp[g].value !in s.threads[t].live
    ensures Inv(prog, Set(s, t, s.threads[t].(pc := Erase)).(idx := s.idx))
  {
    hide EdgesOk, BatchesOk, QueueOk, KeysOk, ParkedOk, Served, WokenOk, AllSetsOk, ThreadsOk;
    BatchBound(prog, s, t);
    var th := s.threads[t].(pc := Erase);
    MoveClaimed(prog, s, t, th, s.idx);
    hide ClaimedOk;
    MoveOk(prog, s, t, th, s.idx);
  }

  lemma EraseOk(prog: Program, s: State, t: nat)
    requires Ssa(prog) && Inv(prog, s) && At(prog, s, t, Erase)
    ensures s.threads[t].cursor < |s.threads[t].batch| && s.threads[t].batch[s.threads[t].cursor] < Total(prog)
    ensures prog.inp[s.threads[t].batch[s.threads[t].cursor]].Some?
    ensures Inv(prog, EraseStep(prog, s, t))
  {
    hide Inv, Ssa;
    var th := s.threads[t];
    BatchBound(prog, s, t);
    CurrentOk(prog, s, t);
    var g := th.batch[th.cursor];
    var u := prog.inp[g].value;
    assert th.live - {u} == th.live;
    AdvanceOk(prog, s, t, g, th.live + OutSet(prog, g), s.ids - {u});
    assert Advance(s, t, th.live + OutSet(prog, g), s.ids - {u}) == EraseStep(prog, s, t);
  }

  // ---------- the barrier before execution ----------

  lemma BarrierThread(prog: Program, s: State, t: nat)
    requires Inv(prog, s) && AllReady(s) && t < |s.threads|
    ensures var th := BarrierStep(s).threads[t];
      ThreadOk(prog, BarrierStep(s), th) && SetsOk(prog, th) && Moved(s.threads[t], th)
  {
    hide EdgesOk, BatchesOk, QueueOk, KeysOk, ParkedOk, Served, WokenOk, ClaimedOk, AllSetsOk, ThreadsOk;
    BatchBound(prog, s, t);
  }

  // a worker passes a barrier
  ghost predicate Moved(th: Thread, th': Thread) {
    && th'.batch == th.batch && th'.cursor == th.cursor && th'.live == th.live
    && th.pc != Check && th'.pc != Check && th.pc != Push && th'.pc != Push && th'.pc != Assign && th.pc != Assign
    && (Serves(th) ==> Serves(th'))
  }

  ghost predicate AllMoved(s: State, s': State) {
    && |s'.threads| == |s.threads| && s'.idx == s.idx && s'.ids == s.ids && s'.queue == s.queue && s'.loc == s.loc
    && forall t :: 0 <= t < |s.threads| ==> Moved(s.threads[t], s'.threads[t])
  }

  lemma AllMovedOk(prog: Program, s: State, s': State)
    requires ClaimedOk(prog, s) && BatchesOk(prog, s) && QueueOk(prog, s) && ParkedOk(prog, s) && WokenOk(prog, s)
    requires Served(s) && AllMoved(s, s')
    ensures ClaimedOk(prog, s') && BatchesOk(prog, s') && QueueOk(prog, s') && ParkedOk(prog, s') && WokenOk(prog, s')
    ensures Served(s')
  {
    assert ClaimedOk(prog, s') by {
      hide BatchesOk, QueueOk, ParkedOk, WokenOk, Served;
    }
    assert BatchesOk(prog, s') by {
      hide ClaimedOk, QueueOk, ParkedOk, WokenOk, Served;
    }
    assert QueueOk(prog, s') && ParkedOk(prog, s') && WokenOk(prog, s') by {
      hide ClaimedOk, BatchesOk, Served;
    }
    hide ClaimedOk, BatchesOk, QueueOk, ParkedOk, WokenOk;
    if s.queue != [] {
      var t1 :| 0 <= t1 < |s.threads| && Serves(s.threads[t1]);
      assert Moved(s.threads[t1], s'.threads[t1]);
    }
  }

  lemma BarrierEdge(prog: Program, s: State, p: nat, g: nat)
    requires ThreadsOk(prog, s) && BatchesOk(prog, s) && AllReady(s) && EdgeOk(prog, s, p, g)
    ensures EdgeOk(prog, BarrierStep(s), p, g)
  {
    var s' := BarrierStep(s);
    if s.loc[p].InBatch? {
      var t := s.loc[p].t;
      assert t < |s.threads| && s.loc[p].k < |s.threads[t].batch|;
      assert ThreadOk(prog, s, s.threads[t]);
      assert s'.threads[t].cursor == s.threads[t].cursor && s'.threads[t].live == s.threads[t].live;
    }
    if s.loc[g].InBatch? {
      var t := s.loc[g].t;
      assert t < |s.threads|;
      assert s'.threads[t].cursor == s.threads[t].cursor;
    }
    hide ThreadsOk, BatchesOk, Pass, ThreadOk, AllReady;
  }

  lemma BarrierOk(prog: Program, s: State)
    requires Ssa(prog) && Inv(prog, s) && AllReady(s)
    ensures Inv(prog, BarrierStep(s))
  {
    hide EdgesOk, EdgeOk, BatchesOk, QueueOk, KeysOk, ParkedOk, Served, WokenOk, ClaimedOk, SetsOk, ThreadOk, Ssa, Pass;
    var s' := BarrierStep(s);
    forall t | 0 <= t < |s'.threads|
      ensures ThreadOk(prog, s', s'.threads[t]) && SetsOk(prog, s'.threads[t]) && Moved(s.threads[t], s'.threads[t])
    {
      BarrierThread(prog, s, t);
    }
    hide Moved;
    AllMovedOk(prog, s, s');
    forall p: nat, g: nat | Edge(prog, p, g) ensures EdgeOk(prog, s', p, g) {
      EdgeAt(prog, s, p, g);
      BarrierEdge(prog, s, p, g);
    }
    EdgesIntro(prog, s');
    SameKeys(prog, s, s');
  }

  lemma NextRoundOk(prog: Program, s: State)
    requires Ssa(prog) && Inv(prog, s) && AllFlushed(s)
    ensures Inv(prog, NextRound(s))
  {
    hide EdgesOk, EdgeOk, BatchesOk, QueueOk, KeysOk, ParkedOk, Served, WokenOk, ClaimedOk, SetsOk, ThreadOk, Ssa, Pass;
    var s' := NextRound(s);
    forall t | 0 <= t < |s'.threads|
      ensures ThreadOk(prog, s', s'.threads[t]) && SetsOk(prog, s'.threads[t]) && Moved(s.threads[t], s'.threads[t])
      ensures Flushes(s'.threads[t]) == Flushes(s.threads[t])
    {
      RoundThread(prog, s, t);
    }
    AllMovedOk(prog, s, s') by {
      hide Moved;
    }
    forall p: nat, g: nat | Edge(prog, p, g) ensures EdgeOk(prog, s', p, g) {
      EdgeAt(prog, s, p, g);
      EdgeBounds(prog, s, p, g);
      ViewEdge(prog, s, s', p, g);
    }
    EdgesIntro(prog, s');
    SameKeys(prog, s, s');
  }

  lemma RoundThread(prog: Program, s: State, t: nat)
    requires Inv(prog, s) && AllFlushed(s) && t < |s.threads|
    ensures var th := NextRound(s).threads[t];
      && ThreadOk(prog, NextRound(s), th) && SetsOk(prog, th) && Moved(s.threads[t], th)
      && Flushes(th) == Flushes(s.threads[t])
  {
    hide EdgesOk, BatchesOk, QueueOk, KeysOk, ParkedOk, Served, WokenOk, ClaimedOk, AllSetsOk, ThreadsOk;
    BatchBound(prog, s, t);
  }

  // ---------- recording ----------

  // the worker at t has recorded u, produced by operation q
  function Record(s: State, t: nat, u: nat, q: nat, pc: Pc, loc: seq<Loc>): State
    requires t < |s.threads|
  {
    Set(s, t, s.threads[t].(pc := pc, live := s.threads[t].live - {u})).(ids := s.ids[u := Ptr(q)], loc := loc)
  }

  // either nothing was parked under u, or operation g was, and is being woken
  ghost predicate Records(prog: Program, s: State, t: nat, u: nat, q: nat, pc: Pc, loc: seq<Loc>) {
    && t < |s.threads| && |s.loc| == Total(prog) == |prog.out| && s.stage == Flushing
    && u in s.threads[t].live && q < |s.loc| && prog.out[q] == Some(u)
    && s.loc[q].InBatch? && s.loc[q].t == t && s.loc[q].k < s.threads[t].cursor
    && ((s.threads[t].pc == Flush && pc == Flush && loc == s.loc && u !in s.ids)
        || (s.threads[t].pc == Assign && pc == Push && s.threads[t].wokenId == u
            && Wakes(prog, s, s.threads[t].woken, u) && loc == s.loc[s.threads[t].woken := Waking(t)]))
  }

  ghost predicate Wakes(prog: Program, s: State, g: nat, u: nat) {
    g < |s.loc| && g < |prog.inp| && prog.inp[g] == Some(u) && s.loc[g] == Parked
  }

  lemma RecordLocs(prog: Program, s: State, t: nat, u: nat, q: nat, pc: Pc, loc: seq<Loc>)
    requires Records(prog, s, t, u, q, pc, loc) && ClaimedOk(prog, s) && BatchesOk(prog, s)
    ensures ClaimedOk(prog, Record(s, t, u, q, pc, loc)) && BatchesOk(prog, Record(s, t, u, q, pc, loc))
  {
    var s' := Record(s, t, u, q, pc, loc);
    assert ClaimedOk(prog, s') by {
      hide BatchesOk;
    }
    assert BatchesOk(prog, s') by {
      hide ClaimedOk;
    }
  }

  lemma RecordQueue(prog: Program, s: State, t: nat, u: nat, q: nat, pc: Pc, loc: seq<Loc>)
    requires Records(prog, s, t, u, q, pc, loc) && QueueOk(prog, s) && ParkedOk(prog, s)
    ensures QueueOk(prog, Record(s, t, u, q, pc, loc)) && ParkedOk(prog, Record(s, t, u, q, pc, loc))
  {
  }

  // what the others are waking is something else
  lemma RecordWoken(prog: Program, s: State, t: nat, u: nat, q: nat, pc: Pc, loc: seq<Loc>)
    requires Ssa(prog) && Inv(prog, s) && Records(prog, s, t, u, q, pc, loc)
    ensures WokenOk(prog, Record(s, t, u, q, pc, loc))
  {
    hide EdgesOk, BatchesOk, QueueOk, KeysOk, ParkedOk, Served, ClaimedOk, AllSetsOk, ThreadsOk, Ssa;
    var s' := Record(s, t, u, q, pc, loc);
    forall t1 | 0 <= t1 < |s'.threads| && s'.threads[t1].pc == Assign
      ensures s'.threads[t1].wokenId in s'.threads[t1].live && HasLoc(s'.loc, s'.threads[t1].woken, Parked)
      ensures s'.threads[t1].woken < |prog.inp| && prog.inp[s'.threads[t1].woken] == Some(s'.threads[t1].wokenId)
    {
      assert t1 != t;
      if s.threads[t1].wokenId == u {
        LiveApart(prog, s, t, t1, u);
      }
    }
  }

  lemma RecordThreads(prog: Program, s: State, t: nat, u: nat, q: nat, pc: Pc, loc: seq<Loc>)
    requires Records(prog, s, t, u, q, pc, loc) && ThreadsOk(prog, s) && AllSetsOk(prog, s)
    ensures var s' := Record(s, t, u, q, pc, loc);
      ThreadsOk(prog, s') && AllSetsOk(prog, s') && Served(s')
  {
    var s' := Record(s, t, u, q, pc, loc);
    assert ThreadOk(prog, s, s.threads[t]) && SetsOk(prog, s.threads[t]);
    forall t1 | 0 <= t1 < |s'.threads| ensures ThreadOk(prog, s', s'.threads[t1]) && SetsOk(prog, s'.threads[t1]) {
      assert ThreadOk(prog, s, s.threads[t1]) && SetsOk(prog, s.threads[t1]);
    }
    assert Serves(s'.threads[t]);
  }

  lemma RecordInput(prog: Program, s: State, t: nat, u: nat, q: nat, pc: Pc, loc: seq<Loc>, g: nat)
    requires Records(prog, s, t, u, q, pc, loc) && EdgeOk(prog, s, q, g) && q != g
    requires pc == Push ==> s.threads[t].woken == g
    ensures EdgeOk(prog, Record(s, t, u, q, pc, loc), q, g)
  {
  }

  // edges of other ids; the woken operation may be their producer
  lemma RecordOther(prog: Program, s: State, t: nat, u: nat, q: nat, pc: Pc, loc: seq<Loc>, p: nat, g: nat)
    requires Records(prog, s, t, u, q, pc, loc) && EdgeOk(prog, s, p, g) && prog.out[p] != Some(u)
    requires pc == Push ==> s.threads[t].woken != g
    ensures EdgeOk(prog, Record(s, t, u, q, pc, loc), p, g)
  {
  }

  lemma RecordEdges(prog: Program, s: State, t: nat, u: nat, q: nat, pc: Pc, loc: seq<Loc>)
    requires Ssa(prog) && EdgesOk(prog, s) && Records(prog, s, t, u, q, pc, loc)
    ensures EdgesOk(prog, Record(s, t, u, q, pc, loc))
  {
    hide EdgesOk, EdgeOk, Ssa;
    var s' := Record(s, t, u, q, pc, loc);
    forall p: nat, g: nat | Edge(prog, p, g) ensures EdgeOk(prog, s', p, g) {
      EdgeAt(prog, s, p, g);
      EdgeBounds(prog, s, p, g);
      OneEdge(prog, p, g, p, g);
      if prog.out[p] == Some(u) {
        SameResult(prog, p, q);
        if pc == Push {
          assert Edge(prog, p, s.threads[t].woken);
          OneEdge(prog, p, g, p, s.threads[t].woken);
        }
        RecordInput(prog, s, t, u, q, pc, loc, g);
      } else {
        RecordOther(prog, s, t, u, q, pc, loc, p, g);
      }
    }
    EdgesIntro(prog, s');
  }

  lemma RecordOk(prog: Program, s: State, t: nat, u: nat, q: nat, pc: Pc, loc: seq<Loc>)
    requires Ssa(prog) && Inv(prog, s) && Records(prog, s, t, u, q, pc, loc)
    ensures Inv(prog, Record(s, t, u, q, pc, loc))
  {
    hide EdgesOk, BatchesOk, QueueOk, KeysOk, ParkedOk, Served, WokenOk, ClaimedOk, AllSetsOk, ThreadsOk, Ssa;
    RecordLocs(prog, s, t, u, q, pc, loc);
    RecordQueue(prog, s, t, u, q, pc, loc);
    RecordWoken(prog, s, t, u, q, pc, loc);
    RecordThreads(prog, s, t, u, q, pc, loc);
    RecordEdges(prog, s, t, u, q, pc, loc);
    RecordKeys(prog, s, u, q, Record(s, t, u, q, pc, loc));
  }

  lemma RecordKeys(prog: Program, s: State, u: nat, q: nat, s': State)
    requires KeysOk(prog, s) && q < |prog.out| && prog.out[q] == Some(u) && s'.ids.Keys == s.ids.Keys + {u}
    ensures KeysOk(prog, s')
  {
    assert HasProducer(prog, u);
  }

  // the entry that a worker finds when it records an id is a parked operation: its consumer
  lemma FlushFinds(prog: Program, s: State, t: nat, u: nat) returns (q: nat)
    requires Ssa(prog) && Inv(prog, s) && At(prog, s, t, Flush) && u in s.threads[t].live
    ensures q < |s.loc| && prog.out[q] == Some(u) && ProducerIn(prog, s.threads[t].batch, u) == q
    ensures s.loc[q].InBatch? && s.loc[q].t == t && s.loc[q].k < s.threads[t].cursor && s.stage == Flushing
    ensures u in s.ids ==> s.ids[u].Marker? && Wakes(prog, s, s.ids[u].op, u)
  {
    hide EdgesOk, BatchesOk, QueueOk, KeysOk, ParkedOk, Served, WokenOk, ClaimedOk, AllSetsOk, ThreadsOk, Ssa;
    BatchBound(prog, s, t);
    q := LiveProducer(prog, s, t, u);
    var g := ConsumerOf(prog, s, q);
  }

  lemma ConsumerOf(prog: Program, s: State, p: nat) returns (g: nat)
    requires Ssa(prog) && EdgesOk(prog, s) && p < |prog.out| && prog.out[p].Some?
    ensures Edge(prog, p, g) && EdgeOk(prog, s, p, g)
  {
    g :| Edge(prog, p, g);
  }

  lemma FoundOk(prog: Program, s: State, t: nat, u: nat, g: nat)
    requires Inv(prog, s) && At(prog, s, t, Flush) && u in s.threads[t].live && Wakes(prog, s, g, u)
    ensures Inv(prog, Set(s, t, s.threads[t].(pc := Assign, wokenId := u, woken := g)))
  {
    hide EdgesOk, BatchesOk, QueueOk, KeysOk, ParkedOk, Served, WokenOk, ClaimedOk, SetsOk, AllSetsOk, ThreadsOk;
    var th := s.threads[t].(pc := Assign, wokenId := u, woken := g);
    var s' := Set(s, t, th);
    BatchBound(prog, s, t);
    MoveEdges(prog, s, t, th, s.idx);
    MoveRest(prog, s, t, th, s.idx);
    MoveClaimed(prog, s, t, th, s.idx);
    MoveThreads(prog, s, t, th, s.idx);
    SameSets(prog, s.threads[t], th);
    MoveSets(prog, s, t, th, s.idx);
    FoundQueue(prog, s, t, u, g);
    assert Set(s, t, th).(idx := s.idx) == s';
  }

  lemma FoundQueue(prog: Program, s: State, t: nat, u: nat, g: nat)
    requires QueueOk(prog, s) && WokenOk(prog, s) && At(prog, s, t, Flush) && u in s.threads[t].live && Wakes(prog, s, g, u)
    ensures var s' := Set(s, t, s.threads[t].(pc := Assign, wokenId := u, woken := g));
      QueueOk(prog, s') && WokenOk(prog, s')
  {
  }

  lemma FlushOk(prog: Program, s: State, t: nat, u: nat)
    requires Ssa(prog) && Inv(prog, s) && At(prog, s, t, Flush) && u in s.threads[t].live
    ensures Inv(prog, FlushStep(prog, s, t, u))
  {
    hide Inv, Ssa, ProducerIn;
    var q := FlushFinds(prog, s, t, u);
    if u !in s.ids {
      RecordOk(prog, s, t, u, q, Flush, s.loc);
      assert Record(s, t, u, q, Flush, s.loc) == FlushStep(prog, s, t, u);
    } else {
      FoundOk(prog, s, t, u, s.ids[u].op);
    }
  }

  lemma AssignFinds(prog: Program, s: State, t: nat) returns (q: nat)
    requires Ssa(prog) && Inv(prog, s) && At(prog, s, t, Assign)
    ensures var th := s.threads[t];
      && th.wokenId in th.live && q < |s.loc| && prog.out[q] == Some(th.wokenId)
      && ProducerIn(prog, th.batch, th.wokenId) == q
      && s.loc[q].InBatch? && s.loc[q].t == t && s.loc[q].k < th.cursor && s.stage == Flushing
      && Wakes(prog, s, th.woken, th.wokenId)
      && th.wokenId in s.ids && s.ids[th.wokenId] == Marker(th.woken)
  {
    hide EdgesOk, BatchesOk, QueueOk, KeysOk, ParkedOk, Served, ClaimedOk, AllSetsOk, ThreadsOk, Ssa;
    BatchBound(prog, s, t);
    var th := s.threads[t];
    q := LiveProducer(prog, s, t, th.wokenId);
    assert Edge(prog, q, th.woken);
    EdgeAt(prog, s, q, th.woken);
  }

  lemma AssignOk(prog: Program, s: State, t: nat)
    requires Ssa(prog) && Inv(prog, s) && At(prog, s, t, Assign)
    ensures s.threads[t].woken < |s.loc| && Inv(prog, AssignStep(prog, s, t))
  {
    hide Inv, Ssa, ProducerIn;
    var th := s.threads[t];
    var q := AssignFinds(prog, s, t);
    var loc := s.loc[th.woken := Waking(t)];
    RecordOk(prog, s, t, th.wokenId, q, Push, loc);
    assert Record(s, t, th.wokenId, q, Push, loc) == AssignStep(prog, s, t);
  }

  // ---------- the push ----------

  lemma PushLocs(prog: Program, s: State, t: nat)
    requires ClaimedOk(prog, s) && BatchesOk(prog, s) && At(prog, s, t, Push) && HasLoc(s.loc, s.threads[t].woken, Waking(t))
    ensures ClaimedOk(prog, PushStep(prog, s, t)) && BatchesOk(prog, PushStep(prog, s, t))
  {
    assert ClaimedOk(prog, PushStep(prog, s, t)) by {
      hide BatchesOk;
    }
    assert BatchesOk(prog, PushStep(prog, s, t)) by {
      hide ClaimedOk;
    }
  }

  lemma PushQueue(prog: Program, s: State, t: nat)
    requires QueueOk(prog, s) && ParkedOk(prog, s) && At(prog, s, t, Push)
    requires HasLoc(s.loc, s.threads[t].woken, Waking(t))
    ensures QueueOk(prog, PushStep(prog, s, t)) && ParkedOk(prog, PushStep(prog, s, t))
  {
    var g := s.threads[t].woken;
    var s' := PushStep(prog, s, t);
    assert forall i :: 0 <= i < |s.queue| ==> s'.queue[i] == s.queue[i] && HasLoc(s.loc, s.queue[i], Queued);
    assert s'.queue[|s.queue|] == g;
  }

  lemma PushWoken(prog: Program, s: State, t: nat)
    requires WokenOk(prog, s) && At(prog, s, t, Push) && HasLoc(s.loc, s.threads[t].woken, Waking(t))
    ensures WokenOk(prog, PushStep(prog, s, t))
  {
  }

  lemma PushThreads(prog: Program, s: State, t: nat)
    requires ThreadsOk(prog, s) && AllSetsOk(prog, s) && At(prog, s, t, Push) && s.threads[t].woken < |s.loc|
    ensures ThreadsOk(prog, PushStep(prog, s, t)) && AllSetsOk(prog, PushStep(prog, s, t)) && Served(PushStep(prog, s, t))
  {
    hide SetsOk;
    var s' := PushStep(prog, s, t);
    forall t1 | 0 <= t1 < |s'.threads| ensures ThreadOk(prog, s', s'.threads[t1]) && SetsOk(prog, s'.threads[t1]) {
      assert ThreadOk(prog, s, s.threads[t1]) && SetsOk(prog, s.threads[t1]);
      SameSets(prog, s.threads[t], s'.threads[t]);
    }
    assert ThreadOk(prog, s, s.threads[t]);
    assert Serves(s'.threads[t]);
  }

  lemma PushInput(prog: Program, s: State, t: nat, p: nat, g: nat)
    requires At(prog, s, t, Push) && HasLoc(s.loc, s.threads[t].woken, Waking(t)) && EdgeOk(prog, s, p, g) && p != g
    ensures EdgeOk(prog, PushStep(prog, s, t), p, g)
  {
  }

  lemma PushEdges(prog: Program, s: State, t: nat)
    requires Ssa(prog) && EdgesOk(prog, s) && At(prog, s, t, Push) && HasLoc(s.loc, s.threads[t].woken, Waking(t))
    ensures EdgesOk(prog, PushStep(prog, s, t))
  {
    hide EdgesOk, EdgeOk, Ssa;
    var s' := PushStep(prog, s, t);
    forall p: nat, g: nat | Edge(prog, p, g) ensures EdgeOk(prog, s', p, g) {
      EdgeAt(prog, s, p, g);
      OneEdge(prog, p, g, p, g);
      PushInput(prog, s, t, p, g);
    }
    EdgesIntro(prog, s');
  }

  lemma PushOk(prog: Program, s: State, t: nat)
    requires Ssa(prog) && Inv(prog, s) && At(prog, s, t, Push)
    ensures s.threads[t].woken < |s.loc| && Inv(prog, PushStep(prog, s, t))
  {
    hide EdgesOk, BatchesOk, QueueOk, KeysOk, ParkedOk, Served, ClaimedOk, AllSetsOk, ThreadsOk, Ssa;
    assert HasLoc(s.loc, s.threads[t].woken, Waking(t));
    hide WokenOk;
    PushLocs(prog, s, t);
    PushQueue(prog, s, t);
    PushWoken(prog, s, t);
    PushThreads(prog, s, t);
    PushEdges(prog, s, t);
    SameKeys(prog, s, PushStep(prog, s, t));
  }

  // ---------- the end of recording ----------

  ghost predicate Finishes(prog: Program, s: State, t: nat) {
    At(prog, s, t, Flush) && s.threads[t].live == {} && s.threads[t].cursor == |s.threads[t].batch|
  }

  lemma EndLocs(prog: Program, s: State, t: nat)
    requires ClaimedOk(prog, s) && BatchesOk(prog, s) && Finishes(prog, s, t)
    ensures ClaimedOk(prog, FlushEnd(prog, s, t)) && BatchesOk(prog, FlushEnd(prog, s, t))
  {
    assert ClaimedOk(prog, FlushEnd(prog, s, t)) by {
      hide BatchesOk;
    }
    assert BatchesOk(prog, FlushEnd(prog, s, t)) by {
      hide ClaimedOk;
    }
  }

  lemma EndQueue(prog: Program, s: State, t: nat)
    requires QueueOk(prog, s) && ParkedOk(prog, s) && WokenOk(prog, s) && Finishes(prog, s, t)
    ensures var s' := FlushEnd(prog, s, t);
      QueueOk(prog, s') && ParkedOk(prog, s') && WokenOk(prog, s')
  {
  }

  lemma EndThreads(prog: Program, s: State, t: nat)
    requires ThreadsOk(prog, s) && AllSetsOk(prog, s) && Served(s) && Finishes(prog, s, t)
    ensures var s' := FlushEnd(prog, s, t);
      ThreadsOk(prog, s') && AllSetsOk(prog, s') && Served(s')
  {
    var s' := FlushEnd(prog, s, t);
    forall t1 | 0 <= t1 < |s'.threads| ensures ThreadOk(prog, s', s'.threads[t1]) && SetsOk(prog, s'.threads[t1]) {
      assert ThreadOk(prog, s, s.threads[t1]) && SetsOk(prog, s.threads[t1]);
    }
    assert Serves(s'.threads[t]);
  }

  lemma EndEdge(prog: Program, s: State, t: nat, p: nat, g: nat)
    requires BatchesOk(prog, s) && Finishes(prog, s, t) && s.stage == Flushing && EdgeOk(prog, s, p, g)
    ensures EdgeOk(prog, FlushEnd(prog, s, t), p, g)
  {
    var s' := FlushEnd(prog, s, t);
    assert Published(prog, s', p) == Published(prog, s, p);
    assert Consumed(s', g) == Consumed(s, g);
    hide BatchesOk;
  }

  lemma FlushEndOk(prog: Program, s: State, t: nat)
    requires Ssa(prog) && Inv(prog, s) && At(prog, s, t, Flush) && s.threads[t].live == {}
    ensures Inv(prog, FlushEnd(prog, s, t))
  {
    hide EdgesOk, EdgeOk, BatchesOk, QueueOk, KeysOk, ParkedOk, Served, WokenOk, ClaimedOk, SetsOk, AllSetsOk, ThreadsOk, Ssa;
    var s' := FlushEnd(prog, s, t);
    BatchBound(prog, s, t);
    EndLocs(prog, s, t);
    EndQueue(prog, s, t);
    EndThreads(prog, s, t);
    forall p: nat, g: nat | Edge(prog, p, g) ensures EdgeOk(prog, s', p, g) {
      EdgeAt(prog, s, p, g);
      EndEdge(prog, s, t, p, g);
    }
    EdgesIntro(prog, s');
    SameKeys(prog, s, s');
  }
}
