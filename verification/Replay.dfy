/** The replay of a program by several workers, as a step system.  Each step is one atomic
    operation on shared state: on the counter, the id map, the queue, or the barrier.

    Workers prepare a batch (take woken operations from the queue, claim ranges of operations
    with the counter, park those whose input is not there, import the inputs of the others),
    meet at a barrier, execute, flush what the batch leaves, and meet again. */
module Replays {
  import opened Batches
  import opened Options
  import opened Programs

  const MAX_QUEUED_TAKEN := 128  // kMaxQueuedOpsTaken

  // an entry of the id map: a parked operation, or the pointer that an operation returned
  datatype Val = Marker(op: nat) | Ptr(op: nat)

  datatype Pc =
    | Start      // about to take from the queue
    | Claim      // about to claim a range
    | Clamp      // the counter was at its end, and is about to be set to it
    | Check      // going through the claimed range
    | Make       // going through the batch
    | Erase      // a pointer has been looked up, and is about to be erased
    | Ready      // at the barrier before execution
    | Flush      // recording what is left
    | Assign     // a parked operation was found, and its entry is about to become a pointer
    | Push       // ... and the operation is about to enter the queue
    | Flushed    // at the barrier after recording
    | Exited

  /** cursor counts the operations of the batch that have been prepared; live are the ids
      produced in the batch and not consumed in it, and later those that are still to be recorded;
      local are the ids produced by the operations accepted from the trace.  taken is how many
      operations of the batch came from the queue; this is history, no step depends on it. */
  datatype Thread = Thread(pc: Pc, batch: seq<nat>, taken: nat, local: set<nat>, pos: nat, end: nat,
                           cursor: nat, live: set<nat>, woken: nat, wokenId: nat)

  datatype Stage = Preparing | Flushing

  // where an operation is; this is history, no step depends on it
  datatype Loc = Unclaimed | Claimed(t: nat) | Parked | Waking(t: nat) | Queued | InBatch(t: nat, k: nat) | Done

  datatype State = State(idx: nat, ids: map<nat, Val>, queue: seq<nat>, threads: seq<Thread>, stage: Stage,
                         loc: seq<Loc>)

  function Total(prog: Program): nat {
    |prog.inp|
  }

  const IDLE := Thread(Start, [], 0, {}, 0, 0, 0, {}, 0, 0)

  function Init(prog: Program, workers: nat): State {
    State(0, map[], [], seq(workers, _ => IDLE), Preparing, seq(Total(prog), _ => Unclaimed))
  }

  // ---------- steps ----------

  function Set(s: State, t: nat, th: Thread): State
    requires t < |s.threads|
  {
    s.(threads := s.threads[t := th])
  }

  function IndexOf(q: seq<nat>, g: nat): (i: nat)
    requires g in q
    ensures i < |q| && q[i] == g
  {
    if q[0] == g then 0 else 1 + IndexOf(q[1..], g)
  }

  function Least(a: nat, b: nat): nat {
    if a < b then a else b
  }

  function At(prog: Program, s: State, t: nat, pc: Pc): bool {
    t < |s.threads| && s.threads[t].pc == pc && |s.loc| == Total(prog) == |prog.out|
  }

  function Place(loc: seq<Loc>, taken: seq<nat>, t: nat): (r: seq<Loc>)
    ensures |r| == |loc|
  {
    seq(|loc|, g requires 0 <= g < |loc| => if g in taken then InBatch(t, IndexOf(taken, g)) else loc[g])
  }

  // TakeFromQueue
  function Take(prog: Program, s: State, t: nat): State
    requires At(prog, s, t, Start)
  {
    var k := Least(|s.queue|, MAX_QUEUED_TAKEN);
    var taken := s.queue[..k];
    Set(s, t, s.threads[t].(pc := Claim, batch := taken, taken := k, local := {}))
      .(queue := s.queue[k..], loc := Place(s.loc, taken, t))
  }

  function ClaimRange(loc: seq<Loc>, lo: nat, hi: nat, t: nat): (r: seq<Loc>)
    ensures |r| == |loc|
  {
    seq(|loc|, g requires 0 <= g < |loc| => if lo <= g < hi then Claimed(t) else loc[g])
  }

  // one fetch_add on the counter, unless the batch is full
  function ClaimStep(prog: Program, s: State, t: nat): State
    requires At(prog, s, t, Claim) && |s.threads[t].batch| <= BATCH_SIZE
  {
    var th := s.threads[t];
    var want := BATCH_SIZE - |th.batch|;
    var hi := Least(s.idx + want, Total(prog));
    if want == 0 then Set(s, t, th.(pc := Make))
    else if s.idx >= Total(prog) then Set(s, t, th.(pc := Clamp)).(idx := s.idx + want)
    else Set(s, t, th.(pc := Check, pos := s.idx, end := hi))
           .(idx := s.idx + want, loc := ClaimRange(s.loc, s.idx, hi, t))
  }

  // the store that brings the counter back to the end
  function ClampStep(prog: Program, s: State, t: nat): State
    requires At(prog, s, t, Clamp)
  {
    Set(s, t, s.threads[t].(pc := Make)).(idx := Total(prog))
  }

  function OutSet(prog: Program, g: nat): set<nat>
    requires g < |prog.out|
  {
    if prog.out[g].Some? then {prog.out[g].value} else {}
  }

  function Accept(prog: Program, s: State, t: nat, g: nat, local: set<nat>): State
    requires t < |s.threads| && g < |s.loc| == |prog.out|
  {
    var th := s.threads[t];
    Set(s, t, th.(pos := g + 1, batch := th.batch + [g], local := local + OutSet(prog, g)))
      .(loc := s.loc[g := InBatch(t, |th.batch|)])
  }

  // CanDoOpOrQueue for the next operation of the claimed range
  function CheckStep(prog: Program, s: State, t: nat): State
    requires At(prog, s, t, Check) && s.threads[t].end <= Total(prog)
  {
    var th := s.threads[t];
    var g := th.pos;
    if g >= th.end then Set(s, t, th.(pc := Claim))
    else if prog.inp[g] == None then Accept(prog, s, t, g, th.local)
    else
      var u := prog.inp[g].value;
      if u in th.local then Accept(prog, s, t, g, th.local - {u})
      else if u in s.ids then Accept(prog, s, t, g, th.local)
      else Set(s, t, th.(pos := g + 1)).(ids := s.ids[u := Marker(g)], loc := s.loc[g := Parked])
  }

  // MakeFromOps, as far as it is local, or up to a lookup in the id map; past the last operation
  // the worker goes to the barrier, or leaves if its batch is empty
  function MakeStep(prog: Program, s: State, t: nat): State
    requires At(prog, s, t, Make) && (forall k :: 0 <= k < |s.threads[t].batch| ==> s.threads[t].batch[k] < Total(prog))
  {
    var th := s.threads[t];
    if th.cursor >= |th.batch| then Set(s, t, th.(pc := if th.batch == [] then Exited else Ready))
    else
      var g := th.batch[th.cursor];
      if prog.inp[g] == None then Set(s, t, th.(cursor := th.cursor + 1, live := th.live + OutSet(prog, g)))
      else
        var u := prog.inp[g].value;
        if u in th.live then
          Set(s, t, th.(cursor := th.cursor + 1, live := th.live - {u} + OutSet(prog, g)))
        else Set(s, t, th.(pc := Erase))
  }

  // AddFree of the id that was looked up
  function EraseStep(prog: Program, s: State, t: nat): State
    requires At(prog, s, t, Erase) && s.threads[t].cursor < |s.threads[t].batch|
    requires s.threads[t].batch[s.threads[t].cursor] < Total(prog)
    requires prog.inp[s.threads[t].batch[s.threads[t].cursor]].Some?
  {
    var th := s.threads[t];
    var g := th.batch[th.cursor];
    Set(s, t, th.(pc := Make, cursor := th.cursor + 1, live := th.live + OutSet(prog, g)))
      .(ids := s.ids - {prog.inp[g].value})
  }

  // all live workers are at the first barrier
  predicate AllReady(s: State) {
    && s.stage == Preparing
    && (forall t :: 0 <= t < |s.threads| ==> s.threads[t].pc == Ready || s.threads[t].pc == Exited)
    && (exists t :: 0 <= t < |s.threads| && s.threads[t].pc == Ready)
  }

  function Pass(threads: seq<Thread>, from: Pc, to: Pc): (r: seq<Thread>)
    ensures |r| == |threads|
  {
    seq(|threads|, t requires 0 <= t < |threads| =>
      if threads[t].pc == from then threads[t].(pc := to) else threads[t])
  }

  function BarrierStep(s: State): State {
    s.(stage := Flushing, threads := Pass(s.threads, Ready, Flush))
  }

  // the operation of the batch that produces u
  function ProducerIn(prog: Program, batch: seq<nat>, u: nat): nat {
    if batch == [] then 0
    else if batch[0] < |prog.out| && prog.out[batch[0]] == Some(u) then batch[0]
    else ProducerIn(prog, batch[1..], u)
  }

  // AddAllocation(u): the insertion, which fails if an operation is parked under u
  function FlushStep(prog: Program, s: State, t: nat, u: nat): State
    requires At(prog, s, t, Flush) && u in s.threads[t].live
  {
    var th := s.threads[t];
    if u !in s.ids then
      Set(s, t, th.(live := th.live - {u})).(ids := s.ids[u := Ptr(ProducerIn(prog, th.batch, u))])
    else Set(s, t, th.(pc := Assign, wokenId := u, woken := s.ids[u].op))
  }

  // ... then the assignment
  function AssignStep(prog: Program, s: State, t: nat): State
    requires At(prog, s, t, Assign) && s.threads[t].woken < |s.loc|
  {
    var th := s.threads[t];
    Set(s, t, th.(pc := Push, live := th.live - {th.wokenId}))
      .(ids := s.ids[th.wokenId := Ptr(ProducerIn(prog, th.batch, th.wokenId))], loc := s.loc[th.woken := Waking(t)])
  }

  // ... then the push
  function PushStep(prog: Program, s: State, t: nat): State
    requires At(prog, s, t, Push) && s.threads[t].woken < |s.loc|
  {
    var th := s.threads[t];
    Set(s, t, th.(pc := Flush)).(queue := s.queue + [th.woken], loc := s.loc[th.woken := Queued])
  }

  function Finish(loc: seq<Loc>, t: nat): (r: seq<Loc>)
    ensures |r| == |loc|
  {
    seq(|loc|, g requires 0 <= g < |loc| => if loc[g].InBatch? && loc[g].t == t then Done else loc[g])
  }

  // everything is recorded
  function FlushEnd(prog: Program, s: State, t: nat): State
    requires At(prog, s, t, Flush)
  {
    Set(s, t, s.threads[t].(pc := Flushed, batch := [], cursor := 0)).(loc := Finish(s.loc, t))
  }

  predicate AllFlushed(s: State) {
    && s.stage == Flushing
    && (forall t :: 0 <= t < |s.threads| ==> s.threads[t].pc == Flushed || s.threads[t].pc == Exited)
    && (exists t :: 0 <= t < |s.threads| && s.threads[t].pc == Flushed)
  }

  function NextRound(s: State): State {
    s.(stage := Preparing, threads := Pass(s.threads, Flushed, Start))
  }
}
