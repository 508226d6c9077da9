/** What every step of a replay keeps, and what follows: no step goes wrong, and when all workers
    have left, every operation is done. */
module ReplayInvariants {
  import opened Batches
  import opened Options
  import opened Programs
  import opened Replays

  predicate Flushes(th: Thread) {
    th.pc == Flush || th.pc == Assign || th.pc == Push
  }

  // ---------- locations ----------

  ghost predicate ClaimedOk(prog: Program, s: State) {
    && (forall g :: 0 <= g < |s.loc| ==> (s.loc[g] == Unclaimed <==> g >= s.idx))
    && (forall g :: 0 <= g < |s.loc| && s.loc[g].Claimed? ==>
          s.loc[g].t < |s.threads| && InRange(s.threads[s.loc[g].t], g))
    && (forall t, g :: 0 <= t < |s.threads| && 0 <= g < |s.loc| && InRange(s.threads[t], g) ==> s.loc[g] == Claimed(t))
  }

  predicate InRange(th: Thread, g: int) {
    th.pc == Check && th.pos <= g < th.end
  }

  ghost predicate BatchesOk(prog: Program, s: State) {
    && (forall t, k :: 0 <= t < |s.threads| && 0 <= k < |s.threads[t].batch| ==> HasLoc(s.loc, s.threads[t].batch[k], InBatch(t, k)))
    && (forall g :: 0 <= g < |s.loc| && s.loc[g].InBatch? ==>
          s.loc[g].t < |s.threads| && s.loc[g].k < |s.threads[s.loc[g].t].batch|
          && s.threads[s.loc[g].t].batch[s.loc[g].k] == g)
  }

  predicate HasLoc(loc: seq<Loc>, g: nat, l: Loc) {
    g < |loc| && loc[g] == l
  }

  ghost predicate QueueOk(prog: Program, s: State) {
    && (forall i :: 0 <= i < |s.queue| ==> HasLoc(s.loc, s.queue[i], Queued))
    && (forall i, j :: 0 <= i < j < |s.queue| ==> s.queue[i] != s.queue[j])
    && (forall g :: 0 <= g < |s.loc| && s.loc[g] == Queued ==> g in s.queue)
    && (forall g :: 0 <= g < |s.loc| && s.loc[g].Waking? ==>
          s.loc[g].t < |s.threads| && s.threads[s.loc[g].t].pc == Push && s.threads[s.loc[g].t].woken == g)
  }

  // only operations with an input are ever parked
  ghost predicate ParkedOk(prog: Program, s: State) {
    forall g :: 0 <= g < |s.loc| == |prog.inp| && (s.loc[g] == Parked || s.loc[g] == Queued || s.loc[g].Waking?) ==>
      prog.inp[g].Some?
  }

  // ---------- workers ----------

  ghost predicate ThreadOk(prog: Program, s: State, th: Thread) {
    && |th.batch| <= BATCH_SIZE && th.cursor <= |th.batch|
    && (Flushes(th) || th.pc == Flushed ==> s.stage == Flushing)
    && (th.pc != Exited && !Flushes(th) && th.pc != Flushed ==> s.stage == Preparing)
    && (th.pc == Start || th.pc == Flushed || th.pc == Exited ==> th.batch == [])
    && (th.pc == Ready || Flushes(th) ==> th.batch != [] && th.cursor == |th.batch|)
    && (th.pc == Claim || th.pc == Clamp || th.pc == Check ==> th.cursor == 0)
    && (th.pc == Check ==> th.pos <= th.end <= Total(prog) && |th.batch| + (th.end - th.pos) <= BATCH_SIZE)
    && (th.pc == Erase ==> th.cursor < |th.batch|)
    && (th.pc == Clamp || th.pc == Exited || (th.pc == Make && th.batch == []) ==> s.idx >= Total(prog))
  }

  ghost predicate ThreadsOk(prog: Program, s: State) {
    forall t :: 0 <= t < |s.threads| ==> ThreadOk(prog, s, s.threads[t])
  }

  ghost predicate Produces(prog: Program, batch: seq<nat>, n: nat, u: nat) {
    exists j: nat :: ProducesAt(prog, batch, n, u, j)
  }

  ghost predicate ProducesAt(prog: Program, batch: seq<nat>, n: nat, u: nat, j: nat) {
    j < n && j < |batch| && batch[j] < |prog.out| && prog.out[batch[j]] == Some(u)
  }

  // live ids come from the operations already prepared, local ones from the batch
  ghost predicate SetsOk(prog: Program, th: Thread) {
    && (forall u :: u in th.live ==> Produces(prog, th.batch, th.cursor, u))
    && (th.pc == Claim || th.pc == Clamp || th.pc == Check ==>
          forall u :: u in th.local ==> Produces(prog, th.batch, |th.batch|, u))
    && (th.pc == Erase ==>
          th.cursor < |th.batch| && th.batch[th.cursor] < |prog.inp| && prog.inp[th.batch[th.cursor]].Some?
          && prog.inp[th.batch[th.cursor]].value !in th.live)
  }

  ghost predicate AllSetsOk(prog: Program, s: State) {
    forall t :: 0 <= t < |s.threads| ==> SetsOk(prog, s.threads[t])
  }

  // the operations that are being woken
  ghost predicate WokenOk(prog: Program, s: State) {
    && (forall t :: 0 <= t < |s.threads| && s.threads[t].pc == Assign ==>
          && s.threads[t].wokenId in s.threads[t].live && HasLoc(s.loc, s.threads[t].woken, Parked)
          && s.threads[t].woken < |prog.inp| && prog.inp[s.threads[t].woken] == Some(s.threads[t].wokenId))
    && (forall t :: 0 <= t < |s.threads| && s.threads[t].pc == Push ==> HasLoc(s.loc, s.threads[t].woken, Waking(t)))
  }

  // somebody is left to take what is in the queue
  ghost predicate Served(s: State) {
    s.queue != [] ==> exists t :: 0 <= t < |s.threads| && Serves(s.threads[t])
  }

  predicate Serves(th: Thread) {
    th.pc == Start || th.pc == Flushed || th.batch != []
  }

  // ---------- producers and consumers ----------

  // what operation p produced has been recorded, or consumed in its own batch
  ghost predicate Published(prog: Program, s: State, p: nat)
    requires p < |s.loc| && p < |prog.out| && prog.out[p].Some?
  {
    || s.loc[p] == Done
    || (s.loc[p].InBatch? && s.loc[p].t < |s.threads| && Flushes(s.threads[s.loc[p].t])
        && prog.out[p].value !in s.threads[s.loc[p].t].live)
  }

  // operation g has been prepared: its input is imported
  ghost predicate Consumed(s: State, g: nat)
    requires g < |s.loc|
  {
    s.loc[g] == Done || (s.loc[g].InBatch? && s.loc[g].t < |s.threads| && s.loc[g].k < s.threads[s.loc[g].t].cursor)
  }

  // the entry of what p produces and g consumes
  ghost predicate EntryOk(prog: Program, s: State, p: nat, g: nat)
    requires p < |s.loc| && g < |s.loc| && p < |prog.out| && prog.out[p].Some?
  {
    var u := prog.out[p].value;
    if u in s.ids then
      match s.ids[u]
      case Marker(h) => h == g && s.loc[g] == Parked && !Published(prog, s, p)
      case Ptr(q) => q == p && Published(prog, s, p) && !Consumed(s, g) && s.loc[g] != Parked
    else
      && s.loc[g] != Parked && s.loc[g] != Queued && !s.loc[g].Waking?
      && (Published(prog, s, p) ==> Consumed(s, g))
      && (s.loc[g].InBatch? && !Consumed(s, g) ==>
            s.loc[p].InBatch? && s.loc[p].t == s.loc[g].t && s.loc[p].k < s.loc[g].k)
  }

  ghost predicate LiveOk(prog: Program, s: State, p: nat, g: nat)
    requires p < |s.loc| && g < |s.loc| && p < |prog.out| && prog.out[p].Some?
  {
    && (s.loc[p].InBatch? && s.loc[p].t < |s.threads| ==>
          var th := s.threads[s.loc[p].t];
          && (prog.out[p].value in th.live ==> s.loc[p].k < th.cursor && !Consumed(s, g))
          && (s.loc[p].k < th.cursor && !Flushes(th) && prog.out[p].value !in th.live ==> Consumed(s, g)))
    && (Consumed(s, g) ==>
          || s.loc[p] == Done
          || (s.loc[p].InBatch? && s.loc[p].t < |s.threads| && s.loc[p].k < s.threads[s.loc[p].t].cursor))
  }

  ghost predicate EdgeOk(prog: Program, s: State, p: nat, g: nat) {
    p < |s.loc| && g < |s.loc| && p < |prog.out| && prog.out[p].Some? && EntryOk(prog, s, p, g) && LiveOk(prog, s, p, g)
  }

  ghost predicate EdgesOk(prog: Program, s: State) {
    forall p: nat, g: nat :: Edge(prog, p, g) ==> EdgeOk(prog, s, p, g)
  }

  ghost predicate KeysOk(prog: Program, s: State) {
    forall u :: u in s.ids ==> HasProducer(prog, u)
  }

  ghost predicate HasProducer(prog: Program, u: nat) {
    exists p: nat :: p < |prog.out| && prog.out[p] == Some(u)
  }

  ghost predicate Inv(prog: Program, s: State) {
    && |s.loc| == Total(prog) == |prog.out|
    && ClaimedOk(prog, s) && BatchesOk(prog, s) && QueueOk(prog, s) && ParkedOk(prog, s)
    && ThreadsOk(prog, s) && AllSetsOk(prog, s) && WokenOk(prog, s) && Served(s)
    && EdgesOk(prog, s) && KeysOk(prog, s)
  }

  // ---------- facts ----------

  lemma InitOk(prog: Program, workers: nat)
    requires Ssa(prog)
    ensures Inv(prog, Init(prog, workers))
  {
    hide Ssa, EdgesOk, ThreadOk, SetsOk;
    Sizes(prog);
    var s := Init(prog, workers);
    forall t | 0 <= t < |s.threads| ensures ThreadOk(prog, s, s.threads[t]) && SetsOk(prog, s.threads[t]) {
      IdleOk(prog, s);
    }
    InitEdges(prog, workers);
  }

  lemma Sizes(prog: Program)
    requires Ssa(prog)
    ensures |prog.inp| == |prog.out|
  {
  }

  lemma IdleOk(prog: Program, s: State)
    requires s.stage == Preparing
    ensures ThreadOk(prog, s, IDLE) && SetsOk(prog, IDLE)
  {
  }

  lemma InitEdges(prog: Program, workers: nat)
    requires Ssa(prog)
    ensures EdgesOk(prog, Init(prog, workers))
  {
    Sizes(prog);
    hide Ssa;
    var s := Init(prog, workers);
    assert |s.loc| == Total(prog) && forall g :: 0 <= g < |s.loc| ==> s.loc[g] == Unclaimed;
    hide Init;
  }

  // what two workers hold to be live differs
  lemma LiveApart(prog: Program, s: State, t: nat, t': nat, u: nat)
    requires Ssa(prog) && Inv(prog, s) && t < |s.threads| && t' < |s.threads|
    requires u in s.threads[t].live && u in s.threads[t'].live
    ensures t == t'
  {
    hide EdgesOk, ThreadsOk, ClaimedOk, QueueOk, WokenOk;
    var p := LiveProducer(prog, s, t, u);
    var p' := LiveProducer(prog, s, t', u);
  }

  // the operation that produced a live id
  lemma LiveProducer(prog: Program, s: State, t: nat, u: nat) returns (p: nat)
    requires Ssa(prog) && Inv(prog, s) && t < |s.threads| && u in s.threads[t].live
    ensures p < |prog.out| && prog.out[p] == Some(u) && s.loc[p].InBatch? && s.loc[p].t == t
    ensures s.loc[p].k < s.threads[t].cursor && s.threads[t].batch[s.loc[p].k] == p
    ensures ProducerIn(prog, s.threads[t].batch, u) == p
    ensures forall q: nat :: q < |prog.out| && prog.out[q] == Some(u) ==> q == p
  {
    hide EdgesOk, ThreadsOk, ClaimedOk, QueueOk, WokenOk;
    var th := s.threads[t];
    assert SetsOk(prog, th);
    var j: nat :| ProducesAt(prog, th.batch, th.cursor, u, j);
    p := th.batch[j];
    assert HasLoc(s.loc, th.batch[j], InBatch(t, j));
    Producer(prog, th.batch, u, j);
  }

  lemma {:induction false} Producer(prog: Program, batch: seq<nat>, u: nat, j: nat)
    requires Ssa(prog) && j < |batch| && batch[j] < |prog.out| && prog.out[batch[j]] == Some(u)
    ensures ProducerIn(prog, batch, u) == batch[j]
  {
    if batch[0] < |prog.out| && prog.out[batch[0]] == Some(u) {
      SameResult(prog, batch[0], batch[j]);
    } else {
      hide Ssa;
      Producer(prog, batch[1..], u, j - 1);
    }
  }

  lemma SameResult(prog: Program, p: nat, q: nat)
    requires Ssa(prog) && p < |prog.out| && q < |prog.out| && prog.out[p].Some? && prog.out[p] == prog.out[q]
    ensures p == q
  {
  }
}
