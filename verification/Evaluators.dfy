/**
  The evaluators of one pod over time. A call looks the pod's evaluator up, or starts one if there is none, and records
  in it later; an evaluator that fires is taken out of the map, and whoever looks the pod up after that starts another.
 */
module Evaluators {
  import opened Wrappers
  import R = ScoreRound

  /**
    `rounds` are all evaluators there have been, `current` is the one in the map, and `calls` are the evaluators that
    calls have looked up and not recorded in yet.
   */
  datatype State = State(rounds: seq<R.State>, current: Option<nat>, calls: seq<nat>)

  datatype Step =
    | Look(limit: nat)                               // a call looks the evaluator up; a new one has this limit
    | Record(call: nat, score: R.Score, pick: nat)   // a call records, and fires if it completes the count
    | TimeUp(round: nat, pick: nat)
    | Return(round: nat, caller: nat)

  function Init(): State { State([], None, []) }

  /** The round that a step is about, and what it does there. */
  function Inside(s: State, step: Step): Option<(nat, R.Step)> {
    match step
    case Look(_) => None
    case Record(c, score, pick) => if c < |s.calls| then Some((s.calls[c], R.Record(score, pick))) else None
    case TimeUp(i, pick) => Some((i, R.TimeUp(pick)))
    case Return(i, c) => Some((i, R.Return(c)))
  }

  /** A step in a round that does not panic. */
  predicate CanStep(s: State, i: nat, step: R.Step) {
    i < |s.rounds| && R.Enabled(s.rounds[i], step) && R.Next(s.rounds[i], step).Some?
  }

  predicate Enabled(s: State, step: Step) {
    step.Look? || (Inside(s, step).Some? && CanStep(s, Inside(s, step).value.0, Inside(s, step).value.1))
  }

  /** The round after the step; if it has picked a winner the pod's evaluator leaves the map. */
  function StepIn(s: State, i: nat, step: R.Step): State
    requires CanStep(s, i, step)
  {
    var r := R.Next(s.rounds[i], step).value;
    s.(rounds := s.rounds[i := r], current := if |r.picks| > |s.rounds[i].picks| then None else s.current)
  }

  function Next(s: State, step: Step): State
    requires Enabled(s, step)
  {
    match step
    case Look(limit) =>
      if s.current.Some? then s.(calls := s.calls + [s.current.value])
      else State(s.rounds + [R.Init(limit)], Some(|s.rounds|), s.calls + [|s.rounds|])
    case Record(c, score, pick) =>
      StepIn(s, s.calls[c], R.Record(score, pick)).(calls := s.calls[..c] + s.calls[c + 1..])
    case TimeUp(i, pick) => StepIn(s, i, R.TimeUp(pick))
    case Return(i, c) => StepIn(s, i, R.Return(c))
  }

  // ---------------------------------------------------------------- every round is a round

  /** The round is in a state that the steps lead to. */
  ghost predicate Ran(r: R.State, limit: nat, steps: seq<R.Step>) {
    R.Feasible(R.Init(limit), steps) && R.After(R.Init(limit), steps) == r
  }

  ghost predicate Reached(r: R.State) { exists limit, steps :: Ran(r, limit, steps) }

  lemma {:induction false} OneMoreStep(r: R.State, steps: seq<R.Step>, step: R.Step)
    requires R.Feasible(r, steps) && R.Enabled(R.After(r, steps), step) && R.Next(R.After(r, steps), step).Some?
    ensures R.Feasible(r, steps + [step])
    ensures R.After(r, steps + [step]) == R.Next(R.After(r, steps), step).value
    decreases |steps|
  {
    if steps == [] {
      assert R.Feasible(R.Next(r, step).value, ([] + [step])[1..]);
    } else {
      OneMoreStep(R.Next(r, steps[0]).value, steps[1..], step);
      assert (steps + [step])[1..] == steps[1..] + [step];
    }
  }

  lemma ReachedStep(r: R.State, step: R.Step)
    requires Reached(r) && R.Enabled(r, step) && R.Next(r, step).Some?
    ensures Reached(R.Next(r, step).value)
  {
    var limit: nat, steps :| Ran(r, limit, steps);
    OneMoreStep(R.Init(limit), steps, step);
    assert Ran(R.Next(r, step).value, limit, steps + [step]);
  }

  lemma ReachedInit(limit: nat)
    ensures Reached(R.Init(limit))
  {
    assert Ran(R.Init(limit), limit, []);
  }

  /** The evaluator in the map is the last one and has not fired; without one, all have fired. */
  ghost predicate Inv(s: State) {
    && (forall i {:trigger s.rounds[i]} :: 0 <= i < |s.rounds| ==> Reached(s.rounds[i]))
    && (s.current.Some? ==> s.current.value == |s.rounds| - 1 && s.rounds[s.current.value].picks == [])
    && (s.current.None? && s.rounds != [] ==> exists i :: 0 <= i < |s.rounds| && s.rounds[i].picks != [])
    && (forall c :: 0 <= c < |s.calls| ==> s.calls[c] < |s.rounds|)
  }

  lemma PicksGrow(r: R.State, step: R.Step)
    requires R.Enabled(r, step) && R.Next(r, step).Some?
    ensures r.picks <= R.Next(r, step).value.picks
  {
  }

  lemma StepInKeeps(s: State, i: nat, step: R.Step)
    requires Inv(s) && CanStep(s, i, step)
    ensures Inv(StepIn(s, i, step))
  {
    ReachedStep(s.rounds[i], step);
    PicksGrow(s.rounds[i], step);
    var s' := StepIn(s, i, step);
    if s'.current.None? {
      if |s'.rounds[i].picks| > |s.rounds[i].picks| {
        assert s'.rounds[i].picks != [];
      } else {
        var j :| 0 <= j < |s.rounds| && s.rounds[j].picks != [];
        assert s'.rounds[j].picks != [];
      }
    }
  }

  lemma StepKeeps(s: State, step: Step)
    requires Inv(s) && Enabled(s, step)
    ensures Inv(Next(s, step))
  {
    match step
    case Look(limit) => ReachedInit(limit);
    case Record(c, score, pick) => StepInKeeps(s, s.calls[c], R.Record(score, pick));
    case TimeUp(i, pick) => StepInKeeps(s, i, R.TimeUp(pick));
    case Return(i, c) => StepInKeeps(s, i, R.Return(c));
  }

  // ---------------------------------------------------------------- every run

  ghost predicate Run(states: seq<State>, steps: seq<Step>) {
    && |states| == |steps| + 1 && states[0] == Init()
    && forall k :: 0 <= k < |steps| ==> Enabled(states[k], steps[k]) && states[k + 1] == Next(states[k], steps[k])
  }

  lemma {:induction false} RunInv(states: seq<State>, steps: seq<Step>)
    requires Run(states, steps)
    ensures Inv(states[|steps|])
    decreases |steps|
  {
    var n := |steps|;
    if n > 0 {
      RunInv(states[..n], steps[..n - 1]);
      StepKeeps(states[n - 1], steps[n - 1]);
    }
  }

  /** A call looks the pod up when an earlier evaluator is gone. */
  predicate LooksLate(s: State, step: Step) { step.Look? && s.current.None? && s.rounds != [] }

  ghost predicate SomeLooksLate(states: seq<State>, steps: seq<Step>)
    requires |states| == |steps| + 1
  {
    exists k :: 0 <= k < |steps| && LooksLate(states[k], steps[k])
  }

  lemma OneMoreLook(states: seq<State>, steps: seq<Step>)
    requires |states| == |steps| + 1 && steps != []
    ensures var n := |steps|;
            SomeLooksLate(states, steps) <==>
              SomeLooksLate(states[..n], steps[..n - 1]) || LooksLate(states[n - 1], steps[n - 1])
  {
    var n := |steps|;
    if k :| 0 <= k < n && LooksLate(states[k], steps[k]) {
      assert k < n - 1 ==> LooksLate(states[..n][k], steps[..n - 1][k]);
    }
    if k :| 0 <= k < n - 1 && LooksLate(states[..n][k], steps[..n - 1][k]) {
      assert LooksLate(states[k], steps[k]);
    }
  }

  /** There is a second round if and only if a call looks the pod up after a round has fired. */
  lemma {:induction false} OneRoundIff(states: seq<State>, steps: seq<Step>)
    requires Run(states, steps)
    ensures |states[|steps|].rounds| <= 1 <==> !SomeLooksLate(states, steps)
    decreases |steps|
  {
    var n := |steps|;
    if n > 0 {
      OneRoundIff(states[..n], steps[..n - 1]);
      RunInv(states[..n], steps[..n - 1]);
      OneMoreLook(states, steps);
    }
  }

  /** The caller is permitted in that round. */
  predicate Permitted(s: State, i: nat, c: nat) {
    i < |s.rounds| && c < |s.rounds[i].callers| && R.Permitted(s.rounds[i].callers[c])
  }

  /** The round has no two callers for one node, and its first pick, if any, is above minus one. */
  ghost predicate Fair(r: R.State) { R.DistinctNodes(r.callers) && (r.picks != [] ==> R.WonAboveMinusOne(r)) }

  lemma OneInRound(r: R.State, c: nat, d: nat)
    requires Reached(r) && Fair(r) && c < |r.callers| && d < |r.callers|
    requires R.Permitted(r.callers[c]) && R.Permitted(r.callers[d])
    ensures c == d
  {
    var limit: nat, steps :| Ran(r, limit, steps);
    R.StepsKeep(R.Init(limit), steps);
    assert r.picks != [];
    R.AtMostOnePermitted(limit, steps, c, d);
  }

  /**
    In every run each round permits at most one caller; if no call looks the pod up after a round has fired, at most one
    caller is permitted at all.
   */
  lemma AtMostOnePermitted(states: seq<State>, steps: seq<Step>, i: nat, c: nat, j: nat, d: nat)
    requires Run(states, steps)
    requires Permitted(states[|steps|], i, c) && Permitted(states[|steps|], j, d)
    requires Fair(states[|steps|].rounds[i])
    ensures i == j ==> c == d
    ensures !SomeLooksLate(states, steps) ==> i == j && c == d
  {
    RunInv(states, steps);
    OneRoundIff(states, steps);
    if i == j {
      OneInRound(states[|steps|].rounds[i], c, d);
    }
  }

  // ---------------------------------------------------------------- a late caller

  /** The round of a late caller, alone: it records, the time is up, and it returns with its own score. */
  lemma AloneWins(limit: nat, y: R.Score) returns (r1: R.State, r2: R.State, r3: R.State)
    requires y.score >= -1 && limit > 1
    ensures R.Next(R.Init(limit), R.Record(y, 0)) == Some(r1) && r1.picks == []
    ensures R.Enabled(r1, R.TimeUp(0)) && R.Next(r1, R.TimeUp(0)) == Some(r2) && |r2.picks| == 1
    ensures R.Enabled(r2, R.Return(0)) && R.Next(r2, R.Return(0)) == Some(r3) && r3.picks == r2.picks
    ensures |r3.callers| == 1 && r3.callers[0].score == y && R.Permitted(r3.callers[0])
  {
    R.OneCandidate(y);
    r1 := R.Recorded(R.Init(limit), y);
    assert r1.round.scores == [y];
    r2 := R.AfterFire(r1.(ticked := true), 0).value;
    r3 := R.Returns(r2, 0);
  }

  /** A step of the last round. */
  lemma StepInLast(rounds: seq<R.State>, r: R.State, r': R.State, step: R.Step, current: Option<nat>, calls: seq<nat>)
    requires R.Enabled(r, step) && R.Next(r, step) == Some(r')
    ensures var s := State(rounds + [r], current, calls);
            && CanStep(s, |rounds|, step)
            && StepIn(s, |rounds|, step) ==
               State(rounds + [r'], if |r'.picks| > |r.picks| then None else current, calls)
  {
    assert (rounds + [r])[|rounds| := r'] == rounds + [r'];
  }

  /** The last call records in the last round. */
  lemma RecordInLast(rounds: seq<R.State>, limit: nat, r: R.State, y: R.Score, calls: seq<nat>)
    requires R.Next(R.Init(limit), R.Record(y, 0)) == Some(r) && r.picks == []
    ensures var s := State(rounds + [R.Init(limit)], Some(|rounds|), calls + [|rounds|]);
            && Enabled(s, Record(|calls|, y, 0))
            && Next(s, Record(|calls|, y, 0)) == State(rounds + [r], Some(|rounds|), calls)
  {
    var all := calls + [|rounds|];
    StepInLast(rounds, R.Init(limit), r, R.Record(y, 0), Some(|rounds|), all);
    assert all[..|calls|] + all[|calls| + 1..] == calls;
  }

  lemma FireInLast(rounds: seq<R.State>, r: R.State, r': R.State, calls: seq<nat>)
    requires R.Enabled(r, R.TimeUp(0)) && R.Next(r, R.TimeUp(0)) == Some(r') && |r'.picks| > |r.picks|
    ensures var s := State(rounds + [r], Some(|rounds|), calls);
            Enabled(s, TimeUp(|rounds|, 0)) && Next(s, TimeUp(|rounds|, 0)) == State(rounds + [r'], None, calls)
  {
    StepInLast(rounds, r, r', R.TimeUp(0), Some(|rounds|), calls);
  }

  lemma ReturnInLast(rounds: seq<R.State>, r: R.State, r': R.State, calls: seq<nat>)
    requires R.Enabled(r, R.Return(0)) && R.Next(r, R.Return(0)) == Some(r')
    ensures var s := State(rounds + [r], None, calls);
            Enabled(s, Return(|rounds|, 0)) && Next(s, Return(|rounds|, 0)) == State(rounds + [r'], None, calls)
  {
    StepInLast(rounds, r, r', R.Return(0), None, calls);
  }

  /**
    Once the pod's evaluator is gone, whatever was picked, a caller that looks the pod up with any score from minus one
    on can still be permitted: it starts a round of its own, and no other round changes.
   */
  lemma LateCallerIsPermitted(s: State, limit: nat, y: R.Score) returns (s1: State, s2: State, s3: State, s4: State)
    requires s.current.None? && y.score >= -1 && limit > 1
    ensures Next(s, Look(limit)) == s1
    ensures var c := |s.calls|; Enabled(s1, Record(c, y, 0)) && Next(s1, Record(c, y, 0)) == s2
    ensures var i := |s.rounds|;
            && Enabled(s2, TimeUp(i, 0)) && Next(s2, TimeUp(i, 0)) == s3
            && Enabled(s3, Return(i, 0)) && Next(s3, Return(i, 0)) == s4
            && Permitted(s4, i, 0) && s4.rounds[i].callers[0].score == y && s4.rounds[..i] == s.rounds
  {
    var r1, r2, r3 := AloneWins(limit, y);
    var i := |s.rounds|;
    s1 := State(s.rounds + [R.Init(limit)], Some(i), s.calls + [i]);
    s2 := State(s.rounds + [r1], Some(i), s.calls);
    s3 := State(s.rounds + [r2], None, s.calls);
    s4 := State(s.rounds + [r3], None, s.calls);
    RecordInLast(s.rounds, limit, r1, y, s.calls);
    FireInLast(s.rounds, r1, r2, s.calls);
    ReturnInLast(s.rounds, r2, r3, s.calls);
  }
}
