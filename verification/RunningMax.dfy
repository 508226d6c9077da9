/** The lock-free running maximum: each caller exchanges its value with the stored one, and as
    long as it gets a larger one back, it goes on with that. */
module RunningMaxima {
  import opened Options

  /** The stored maximum, and the value that each call holds until it returns.  `best` is history:
      the largest of the initial value and all that was ever offered. */
  datatype State = State(stored: nat, held: seq<Option<nat>>, best: nat)

  datatype Step = Offer(value: nat) | Exchange(i: nat)

  predicate Enabled(s: State, step: Step) {
    step.Exchange? ==> step.i < |s.held| && s.held[step.i].Some?
  }

  function Larger(a: nat, b: nat): nat {
    if a < b then b else a
  }

  function Do(s: State, step: Step): State
    requires Enabled(s, step)
  {
    match step
    case Offer(v) => s.(held := s.held + [Some(v)], best := Larger(s.best, v))
    case Exchange(i) =>
      var mine := s.held[i].value;
      s.(stored := mine, held := s.held[i := if s.stored > mine then Some(s.stored) else None])
  }

  // the largest value is stored or held
  ghost predicate Kept(s: State) {
    && s.stored <= s.best && (forall i :: 0 <= i < |s.held| && s.held[i].Some? ==> s.held[i].value <= s.best)
    && (s.stored == s.best || exists i :: 0 <= i < |s.held| && s.held[i] == Some(s.best))
  }

  lemma StepKeeps(s: State, step: Step)
    requires Kept(s) && Enabled(s, step)
    ensures Kept(Do(s, step))
  {
    var s' := Do(s, step);
    if s.stored == s.best {
      if step.Exchange? && s.held[step.i].value < s.best {
        assert s'.held[step.i] == Some(s.best);
      }
      if step.Offer? && step.value > s.best {
        assert s'.held[|s.held|] == Some(s'.best);
      }
    } else {
      var i :| 0 <= i < |s.held| && s.held[i] == Some(s.best);
      if step.Offer? {
        assert s'.held[i] == Some(s.best);
        assert s'.held[|s.held|] == Some(step.value);
      } else if step.i != i {
        assert s'.held[i] == Some(s.best);
      }
    }
  }

  // the states after each prefix of an interleaving, if all its steps are possible
  ghost predicate Possible(s: State, steps: seq<Step>)
    decreases |steps|
  {
    steps == [] || (Enabled(s, steps[0]) && Possible(Do(s, steps[0]), steps[1..]))
  }

  function Final(s: State, steps: seq<Step>): State
    requires Possible(s, steps)
    decreases |steps|
  {
    if steps == [] then s else Final(Do(s, steps[0]), steps[1..])
  }

  // the largest value that an interleaving offers, or `best` before it
  function Best(best: nat, steps: seq<Step>): nat
    decreases |steps|
  {
    if steps == [] then best
    else Best(if steps[0].Offer? then Larger(best, steps[0].value) else best, steps[1..])
  }

  lemma {:induction false} RunKeeps(s: State, steps: seq<Step>)
    requires Kept(s) && Possible(s, steps)
    ensures Kept(Final(s, steps)) && Final(s, steps).best == Best(s.best, steps)
    decreases |steps|
  {
    if steps != [] {
      StepKeeps(s, steps[0]);
      RunKeeps(Do(s, steps[0]), steps[1..]);
    }
  }

  /** Under any interleaving, once every call has returned, the stored value is the largest that
      was ever offered. */
  lemma QuiescentIsMaximum(steps: seq<Step>)
    requires Possible(State(0, [], 0), steps)
    requires forall i :: 0 <= i < |Final(State(0, [], 0), steps).held| ==> Final(State(0, [], 0), steps).held[i] == None
    ensures Final(State(0, [], 0), steps).stored == Best(0, steps)
  {
    RunKeeps(State(0, [], 0), steps);
  }

  // Best is an upper bound that is attained
  lemma {:induction false} BestIs(best: nat, steps: seq<Step>)
    ensures best <= Best(best, steps)
    ensures forall i :: 0 <= i < |steps| && steps[i].Offer? ==> steps[i].value <= Best(best, steps)
    ensures Best(best, steps) == best || exists i :: 0 <= i < |steps| && steps[i] == Offer(Best(best, steps))
    decreases |steps|
  {
    if steps != [] {
      var first := if steps[0].Offer? then Larger(best, steps[0].value) else best;
      BestIs(first, steps[1..]);
      forall i | 0 <= i < |steps| && steps[i].Offer? ensures steps[i].value <= Best(best, steps) {
        if i > 0 {
          assert steps[1..][i - 1] == steps[i];
        }
      }
      if Best(first, steps[1..]) != first {
        var i :| 0 <= i < |steps[1..]| && steps[1..][i] == Offer(Best(first, steps[1..]));
        assert steps[i + 1] == Offer(Best(best, steps));
      } else if first != best {
        assert steps[0] == Offer(first);
      }
    }
  }

  // ---------- every call returns ----------

  // how often the calls can still exchange: a held value grows with every retry
  function Left(held: seq<Option<nat>>, best: nat): nat {
    if held == [] then 0
    else Left(held[1..], best) + if held[0].Some? && held[0].value <= best then best - held[0].value + 1 else 0
  }

  lemma {:induction false} LeftUpdate(held: seq<Option<nat>>, best: nat, i: nat, v: Option<nat>)
    requires i < |held| && held[i].Some? && held[i].value <= best && (v.Some? ==> held[i].value < v.value)
    ensures Left(held[i := v], best) < Left(held, best)
  {
    if i == 0 {
      assert held[0 := v][1..] == held[1..];
    } else {
      LeftUpdate(held[1..], best, i - 1, v);
      assert held[i := v][1..] == held[1..][i - 1 := v];
    }
  }

  /** An interleaving of the calls under way is finite, however they are scheduled: it has at most
      Left steps. */
  lemma {:induction false} ExchangesEnd(s: State, steps: seq<Step>)
    requires Kept(s) && Possible(s, steps) && forall i :: 0 <= i < |steps| ==> steps[i].Exchange?
    ensures |steps| <= Left(s.held, s.best)
    decreases |steps|
  {
    if steps != [] {
      var i := steps[0].i;
      StepKeeps(s, steps[0]);
      LeftUpdate(s.held, s.best, i, Do(s, steps[0]).held[i]);
      ExchangesEnd(Do(s, steps[0]), steps[1..]);
    }
  }
}
