/**
  One round of collecting the schedulers' scores for a pod: callers record a score and wait, and when all have recorded
  or the time is up one of the best is picked. A caller may place the pod if the pick is its own node.
 */
module ScoreRound {
  import opened Wrappers
  import opened Integers
  import opened Pods

  datatype Score = Score(node: Name, score: int)

  /** No more than this many of the best are kept to pick from. */
  const CAP := 100

  const NOT_FIRED := Score([], -1)

  // ---------------------------------------------------------------- picking the best

  /** The best score, and minus one if there is none above it. */
  function Best(scores: seq<Score>): int {
    if scores == [] then -1 else Max(Best(scores[..|scores| - 1]), scores[|scores| - 1].score)
  }

  function WithScore(scores: seq<Score>, best: int): seq<Score> {
    if scores == [] then []
    else
      WithScore(scores[..|scores| - 1], best)
      + if scores[|scores| - 1].score == best then [scores[|scores| - 1]] else []
  }

  function Capped(scores: seq<Score>): seq<Score> { if |scores| <= CAP then scores else scores[..CAP] }

  /** The first of those with the best score. */
  function Candidates(scores: seq<Score>): seq<Score> { Capped(WithScore(scores, Best(scores))) }

  lemma {:induction false} BestBounds(scores: seq<Score>)
    ensures Best(scores) >= -1 && forall i :: 0 <= i < |scores| ==> scores[i].score <= Best(scores)
  {
    if scores != [] {
      BestBounds(scores[..|scores| - 1]);
    }
  }

  lemma {:induction false} WithScoreMembers(scores: seq<Score>, best: int)
    ensures forall c :: c in WithScore(scores, best) <==> c in scores && c.score == best
  {
    if scores != [] {
      WithScoreMembers(scores[..|scores| - 1], best);
      assert scores == scores[..|scores| - 1] + [scores[|scores| - 1]];
    }
  }

  lemma {:induction false} BestIsReached(scores: seq<Score>)
    requires Best(scores) > -1
    ensures WithScore(scores, Best(scores)) != []
  {
    var n := |scores| - 1;
    if Best(scores) != scores[n].score {
      BestIsReached(scores[..n]);
    }
  }

  /** There is something to pick if and only if some score is not below minus one, and only the best are picked from. */
  lemma CandidatesAreBest(scores: seq<Score>)
    ensures Candidates(scores) != [] <==> exists i :: 0 <= i < |scores| && scores[i].score >= -1
    ensures forall c :: c in Candidates(scores) ==>
                          c in scores && forall i :: 0 <= i < |scores| ==> scores[i].score <= c.score
  {
    var best := Best(scores);
    BestBounds(scores);
    WithScoreMembers(scores, best);
    if Candidates(scores) != [] {
      var c := Candidates(scores)[0];
      assert c in WithScore(scores, best);
      var i :| 0 <= i < |scores| && scores[i] == c;
    }
    if i :| 0 <= i < |scores| && scores[i].score >= -1 {
      if best > -1 {
        BestIsReached(scores);
      } else {
        assert scores[i] in WithScore(scores, best);
      }
    }
  }

  /** Who of the first `n` has that score. */
  function Holders(scores: seq<Score>, best: int, n: nat): set<nat>
    requires n <= |scores|
  {
    set i | 0 <= i < n && scores[i].score == best
  }

  lemma {:induction false} WithScoreCount(scores: seq<Score>, best: int)
    ensures |WithScore(scores, best)| == |Holders(scores, best, |scores|)|
  {
    if scores != [] {
      var n := |scores| - 1;
      WithScoreCount(scores[..n], best);
      assert Holders(scores, best, n) == Holders(scores[..n], best, n);
      assert Holders(scores, best, n + 1) == Holders(scores, best, n) + if scores[n].score == best then {n} else {};
    }
  }

  lemma {:induction false} WithScoreAt(scores: seq<Score>, best: int, i: nat)
    requires i < |scores| && scores[i].score == best
    ensures |Holders(scores, best, i)| < |WithScore(scores, best)|
    ensures WithScore(scores, best)[|Holders(scores, best, i)|] == scores[i]
  {
    var n := |scores| - 1;
    assert Holders(scores, best, i) == Holders(scores[..n], best, i);
    if i < n {
      WithScoreAt(scores[..n], best, i);
    } else {
      WithScoreCount(scores[..n], best);
    }
  }

  /** The candidates are the first hundred of those with the best score, in the order in which they recorded. */
  lemma CandidatesAreFirst(scores: seq<Score>, m: nat, i: nat)
    requires m < |scores| && scores[m].score >= -1
    requires forall j :: 0 <= j < |scores| ==> scores[j].score <= scores[m].score
    requires i < |scores| && scores[i].score == scores[m].score
    ensures var best, candidates := scores[m].score, Candidates(scores);
            var n := |set j | 0 <= j < |scores| && scores[j].score == best|;
            var before := |set j | 0 <= j < i && scores[j].score == best|;
            && |candidates| == (if n <= 100 then n else 100)
            && (before < 100 ==> before < |candidates| && candidates[before] == scores[i])
  {
    var best := scores[m].score;
    BestIs(scores, m);
    WithScoreCount(scores, best);
    WithScoreAt(scores, best, i);
    assert Holders(scores, best, |scores|) == set j | 0 <= j < |scores| && scores[j].score == best;
    assert Holders(scores, best, i) == set j | 0 <= j < i && scores[j].score == best;
  }

  lemma {:induction false} BestIs(scores: seq<Score>, m: nat)
    requires m < |scores| && scores[m].score >= -1
    requires forall j :: 0 <= j < |scores| ==> scores[j].score <= scores[m].score
    ensures Best(scores) == scores[m].score
  {
    BestBounds(scores);
    if Best(scores) > -1 {
      BestIsReached(scores);
      WithScoreMembers(scores, Best(scores));
      assert WithScore(scores, Best(scores))[0] in WithScore(scores, Best(scores));
    }
  }

  lemma {:induction false} NoneAbove(scores: seq<Score>, best: int)
    requires Best(scores) < best
    ensures WithScore(scores, best) == []
  {
    BestBounds(scores);
    if scores != [] {
      NoneAbove(scores[..|scores| - 1], best);
    }
  }

  /** One more score starts the list anew, is added to it, or does not matter. */
  lemma OneMoreScore(scores: seq<Score>, s: Score, next: seq<Score>)
    requires next == scores + [s]
    ensures Best(next) == Max(Best(scores), s.score)
    ensures Candidates(next) ==
            if s.score > Best(scores) then [s]
            else if s.score == Best(scores) && |Candidates(scores)| < CAP then Candidates(scores) + [s]
            else Candidates(scores)
  {
    assert next[..|scores|] == scores;
    if s.score > Best(scores) {
      NoneAbove(scores, s.score);
    }
  }

  lemma TakeOneMore(scores: seq<Score>, i: nat)
    requires i < |scores|
    ensures scores[..i + 1] == scores[..i] + [scores[i]]
  {
  }

  /** Collects the best in one pass, starting anew whenever a better one is found. */
  method PickFrom(scores: seq<Score>) returns (candidates: seq<Score>)
    ensures candidates == Candidates(scores)
  {
    var maxScore := -1;
    candidates := [];
    for i := 0 to |scores|
      invariant maxScore == Best(scores[..i]) && candidates == Candidates(scores[..i])
    {
      var sc := scores[i];
      TakeOneMore(scores, i);
      OneMoreScore(scores[..i], sc, scores[..i + 1]);
      if sc.score > maxScore {
        maxScore := sc.score;
        candidates := [sc];
      } else if sc.score == maxScore {
        if |candidates| < CAP {
          candidates := candidates + [sc];
        }
      }
    }
    assert scores[..|scores|] == scores;
  }

  // ---------------------------------------------------------------- firing

  datatype Round = Round(limit: nat, scores: seq<Score>, highest: Score)

  datatype Outcome = Panic | Kept | Fired(round: Round)

  /** A random number below `n`. */
  function Below(pick: nat, n: nat): (i: nat)
    requires n > 0
    ensures i < n && (pick < n ==> i == pick)
  {
    if pick < n then pick else Below(pick - n, n)
  }

  /** A random draw from the candidates. */
  function Draw(candidates: seq<Score>, pick: nat): (winner: Score)
    requires candidates != []
    ensures winner in candidates
    ensures pick < |candidates| ==> winner == candidates[pick]
  {
    candidates[Below(pick, |candidates|)]
  }

  /** Firing picks at random, with `pick` as the random draw; a round that has a pick above minus one keeps it. */
  function Fire(r: Round, pick: nat): Outcome {
    if r.highest.score != -1 then Kept
    else
      var candidates := Candidates(r.scores);
      if candidates == [] then Panic
      else Fired(r.(highest := Draw(candidates, pick)))
  }

  /** The pick is a recorded score and no recorded score is better; there is none only if there is nothing to pick. */
  lemma FirePicksBest(r: Round, pick: nat)
    requires r.highest.score == -1
    ensures Fire(r, pick).Panic? <==> forall i :: 0 <= i < |r.scores| ==> r.scores[i].score < -1
    ensures Fire(r, pick).Fired? ==>
              var winner := Fire(r, pick).round.highest;
              winner in r.scores && forall i :: 0 <= i < |r.scores| ==> r.scores[i].score <= winner.score
  {
    CandidatesAreBest(r.scores);
  }

  // ---------------------------------------------------------------- a round with its callers

  datatype Status = Waiting | Woken | Returned(winner: Score)

  datatype Caller = Caller(score: Score, status: Status)

  /** A winner, and how many had recorded when it was picked. */
  datatype Pick = Pick(count: nat, winner: Score)

  /** `callers` have recorded, `picks` are the winners so far, and `ticked` tells that the ticker has fired. */
  datatype State = State(round: Round, callers: seq<Caller>, picks: seq<Pick>, ticked: bool)

  datatype Step =
    | Record(score: Score, pick: nat)   // a caller records, and fires if it completes the count
    | TimeUp(pick: nat)                 // the ticker fires, once
    | Return(caller: nat)               // a woken caller returns

  function Init(limit: nat): State { State(Round(limit, [], NOT_FIRED), [], [], false) }

  function WakeAll(callers: seq<Caller>): (woken: seq<Caller>)
    ensures |woken| == |callers|
    ensures forall i {:trigger woken[i]} {:trigger callers[i]} :: 0 <= i < |callers| ==>
              woken[i] == if callers[i].status.Waiting? then callers[i].(status := Woken) else callers[i]
  {
    seq(|callers|, i requires 0 <= i < |callers| =>
          if callers[i].status.Waiting? then callers[i].(status := Woken) else callers[i])
  }

  /** The state after firing; None when there is nothing to pick. */
  function AfterFire(s: State, pick: nat): (r: Option<State>)
    ensures r.Some? ==> |r.value.callers| == |s.callers|
  {
    match Fire(s.round, pick)
    case Panic => None
    case Kept => Some(s)
    case Fired(r) => Some(State(r, WakeAll(s.callers), s.picks + [Pick(|r.scores|, r.highest)], s.ticked))
  }

  function Recorded(s: State, score: Score): State {
    s.(round := s.round.(scores := s.round.scores + [score]), callers := s.callers + [Caller(score, Waiting)])
  }

  /** The caller returns with the pick. */
  function Returns(s: State, c: nat): State
    requires c < |s.callers|
  {
    s.(callers := s.callers[c := s.callers[c].(status := Returned(s.round.highest))])
  }

  predicate Enabled(s: State, step: Step) {
    match step
    case Record(_, _) => true
    case TimeUp(_) => !s.ticked
    case Return(c) => c < |s.callers| && s.callers[c].status.Woken?
  }

  /** The state after a step; None when it panics. */
  function Next(s: State, step: Step): Option<State>
    requires Enabled(s, step)
  {
    match step
    case Record(score, pick) =>
      var s' := Recorded(s, score);
      if |s'.round.scores| >= s'.round.limit then
        match AfterFire(s', pick)
        case None => None
        case Some(s'') => Some(Returns(s'', |s''.callers| - 1))
      else Some(s')
    case TimeUp(pick) => AfterFire(s.(ticked := true), pick)
    case Return(c) => Some(Returns(s, c))
  }

  /** The scores that a step fires on, if it fires. */
  function FiresOn(s: State, step: Step): Option<seq<Score>> {
    match step
    case Record(score, _) =>
      if |s.round.scores| + 1 >= s.round.limit then Some(s.round.scores + [score]) else None
    case TimeUp(_) => Some(s.round.scores)
    case Return(_) => None
  }

  lemma FirePanicsIff(r: Round, pick: nat)
    ensures Fire(r, pick).Panic? <==> r.highest.score == -1 && forall x :: x in r.scores ==> x.score < -1
  {
    if r.highest.score == -1 {
      FirePicksBest(r, pick);
      assert forall i :: 0 <= i < |r.scores| ==> r.scores[i] in r.scores;
    }
  }

  /** A step panics if and only if it fires, no pick is above minus one yet, and all scores are below minus one. */
  lemma PanicsIff(s: State, step: Step)
    requires Enabled(s, step)
    ensures Next(s, step).None? <==>
              && FiresOn(s, step).Some? && s.round.highest.score == -1
              && forall x :: x in FiresOn(s, step).value ==> x.score < -1
  {
    match step
    case Record(score, pick) => FirePanicsIff(Recorded(s, score).round, pick);
    case TimeUp(pick) => FirePanicsIff(s.round, pick);
    case Return(_) =>
  }

  // ---------------------------------------------------------------- what every step keeps

  ghost predicate Matched(s: State) {
    && |s.callers| == |s.round.scores|
    && forall i {:trigger s.callers[i]} :: 0 <= i < |s.callers| ==> s.callers[i].score == s.round.scores[i]
  }

  /** The winner is one of the best that had recorded when it was picked. */
  ghost predicate IsBest(scores: seq<Score>, p: Pick) {
    p.count <= |scores| && p.winner in scores[..p.count] && p.winner.score == Best(scores[..p.count])
  }

  /** Every pick was a best one, only a pick of minus one is followed by another, and the last one counts. */
  ghost predicate Picked(scores: seq<Score>, picks: seq<Pick>, highest: Score) {
    && highest == (if picks == [] then NOT_FIRED else picks[|picks| - 1].winner)
    && (forall k {:trigger picks[k]} :: 0 <= k < |picks| ==> IsBest(scores, picks[k]))
    && (forall k {:trigger picks[k]} :: 0 <= k < |picks| - 1 ==> picks[k].winner.score == -1)
  }

  ghost predicate AmongPicks(picks: seq<Pick>, winner: Score) {
    exists k {:trigger picks[k]} :: 0 <= k < |picks| && picks[k].winner == winner
  }

  /** Before the first pick everyone waits; whoever has returned has seen a pick. */
  ghost predicate Told(callers: seq<Caller>, picks: seq<Pick>) {
    && (picks == [] ==> forall i {:trigger callers[i]} :: 0 <= i < |callers| ==> callers[i].status.Waiting?)
    && (forall i {:trigger callers[i]} :: 0 <= i < |callers| && callers[i].status.Returned? ==>
          AmongPicks(picks, callers[i].status.winner))
  }

  ghost predicate Inv(s: State) {
    Matched(s) && Picked(s.round.scores, s.picks, s.round.highest) && Told(s.callers, s.picks)
  }

  /** A pick stays a best one when more scores come in. */
  lemma MorePicked(scores: seq<Score>, score: Score, picks: seq<Pick>, highest: Score)
    requires Picked(scores, picks, highest)
    ensures Picked(scores + [score], picks, highest)
  {
    forall k | 0 <= k < |picks| ensures IsBest(scores + [score], picks[k]) {
      assert (scores + [score])[..picks[k].count] == scores[..picks[k].count];
    }
  }

  lemma DrawIsBest(scores: seq<Score>, pick: nat)
    requires Candidates(scores) != []
    ensures IsBest(scores, Pick(|scores|, Draw(Candidates(scores), pick)))
  {
    WithScoreMembers(scores, Best(scores));
    var winner := Draw(Candidates(scores), pick);
    assert winner in WithScore(scores, Best(scores));
    assert scores[..|scores|] == scores;
  }

  lemma OneMorePick(scores: seq<Score>, picks: seq<Pick>, highest: Score, p: Pick)
    requires Picked(scores, picks, highest) && highest.score == -1 && IsBest(scores, p)
    ensures Picked(scores, picks + [p], p.winner)
  {
  }

  lemma ToldAfterFire(callers: seq<Caller>, picks: seq<Pick>, p: Pick)
    requires Told(callers, picks)
    ensures Told(WakeAll(callers), picks + [p])
  {
    var woken, picks' := WakeAll(callers), picks + [p];
    forall i | 0 <= i < |woken| && woken[i].status.Returned? ensures AmongPicks(picks', woken[i].status.winner) {
      var k :| 0 <= k < |picks| && picks[k].winner == callers[i].status.winner;
      assert picks'[k] == picks[k];
    }
  }

  lemma FireKeeps(s: State, pick: nat)
    requires Inv(s) && AfterFire(s, pick).Some?
    ensures Inv(AfterFire(s, pick).value) && AfterFire(s, pick).value.picks != []
  {
    if s.round.highest.score == -1 {
      var p := Pick(|s.round.scores|, Draw(Candidates(s.round.scores), pick));
      DrawIsBest(s.round.scores, pick);
      OneMorePick(s.round.scores, s.picks, s.round.highest, p);
      ToldAfterFire(s.callers, s.picks, p);
    }
  }

  lemma RecordedKeeps(s: State, score: Score)
    requires Inv(s)
    ensures Inv(Recorded(s, score))
  {
    MorePicked(s.round.scores, score, s.picks, s.round.highest);
  }

  lemma ReturnsKeeps(s: State, c: nat)
    requires Inv(s) && c < |s.callers| && s.picks != []
    ensures Inv(Returns(s, c))
  {
    assert s.picks[|s.picks| - 1].winner == s.round.highest;
    assert AmongPicks(s.picks, s.round.highest);
  }

  lemma RecordKeeps(s: State, score: Score, pick: nat)
    requires Inv(s) && Next(s, Record(score, pick)).Some?
    ensures Inv(Next(s, Record(score, pick)).value)
  {
    RecordedKeeps(s, score);
    var s' := Recorded(s, score);
    if |s'.round.scores| >= s'.round.limit {
      FireKeeps(s', pick);
      ReturnsKeeps(AfterFire(s', pick).value, |s'.callers| - 1);
    }
  }

  /** Every step of every caller and of the ticker keeps the invariant, whatever the scores. */
  lemma StepKeeps(s: State, step: Step)
    requires Inv(s) && Enabled(s, step) && Next(s, step).Some?
    ensures Inv(Next(s, step).value)
  {
    match step
    case Record(score, pick) =>
      RecordKeeps(s, score, pick);
    case TimeUp(pick) =>
      FireKeeps(s.(ticked := true), pick);
    case Return(c) =>
      ReturnsKeeps(s, c);
  }

  // ---------------------------------------------------------------- every run

  predicate Feasible(s: State, steps: seq<Step>)
    decreases |steps|
  {
    steps == [] ||
    (Enabled(s, steps[0]) && Next(s, steps[0]).Some? && Feasible(Next(s, steps[0]).value, steps[1..]))
  }

  function After(s: State, steps: seq<Step>): State
    requires Feasible(s, steps)
    decreases |steps|
  {
    if steps == [] then s else After(Next(s, steps[0]).value, steps[1..])
  }

  lemma {:induction false} StepsKeep(s: State, steps: seq<Step>)
    requires Inv(s) && Feasible(s, steps)
    ensures Inv(After(s, steps))
    decreases |steps|
  {
    if steps != [] {
      StepKeeps(s, steps[0]);
      StepsKeep(Next(s, steps[0]).value, steps[1..]);
    }
  }

  /** The round has fired, and the best score at its first pick was above minus one. */
  predicate WonAboveMinusOne(s: State) { s.picks != [] && s.picks[0].winner.score > -1 }

  /** Whether the caller may place the pod. */
  predicate Permitted(c: Caller) { c.status.Returned? && c.status.winner.node == c.score.node }

  /**
    In every run whose first pick is above minus one, that pick is the only one, it is one of the best scores recorded
    by then, and every caller that returns sees it.
   */
  lemma OneWinner(limit: nat, steps: seq<Step>)
    requires Feasible(Init(limit), steps) && WonAboveMinusOne(After(Init(limit), steps))
    ensures var s := After(Init(limit), steps);
            && |s.picks| == 1 && s.round.highest == s.picks[0].winner && IsBest(s.round.scores, s.picks[0])
            && forall i :: 0 <= i < |s.callers| && s.callers[i].status.Returned? ==>
                 s.callers[i].status.winner == s.round.highest
  {
    StepsKeep(Init(limit), steps);
  }

  /** One score above minus one among those that the round first fires on is enough. */
  lemma WonWith(limit: nat, steps: seq<Step>, i: nat)
    requires Feasible(Init(limit), steps)
    requires var s := After(Init(limit), steps);
             s.picks != [] && i < |s.round.scores| && i < s.picks[0].count && s.round.scores[i].score > -1
    ensures WonAboveMinusOne(After(Init(limit), steps))
  {
    StepsKeep(Init(limit), steps);
    var s := After(Init(limit), steps);
    BestIsAbove(s.round.scores, s.picks[0], i);
  }

  lemma BestIsAbove(scores: seq<Score>, p: Pick, i: nat)
    requires IsBest(scores, p) && i < p.count && scores[i].score > -1
    ensures p.winner.score > -1
  {
    BestBounds(scores[..p.count]);
  }

  ghost predicate DistinctNodes(callers: seq<Caller>) {
    forall i, j :: 0 <= i < j < |callers| ==> callers[i].score.node != callers[j].score.node
  }

  /** In every run whose first pick is above minus one, with distinct nodes at most one caller is permitted. */
  lemma AtMostOnePermitted(limit: nat, steps: seq<Step>, i: nat, j: nat)
    requires Feasible(Init(limit), steps) && WonAboveMinusOne(After(Init(limit), steps))
    requires var s := After(Init(limit), steps);
             && i < |s.callers| && j < |s.callers| && Permitted(s.callers[i]) && Permitted(s.callers[j])
             && DistinctNodes(s.callers)
    ensures i == j
  {
    OneWinner(limit, steps);
  }

  // ---------------------------------------------------------------- when the first winner is final

  lemma {:induction false} WinnerStays(s: State, steps: seq<Step>)
    requires s.round.highest.score != -1 && Feasible(s, steps)
    ensures After(s, steps).round.highest == s.round.highest
    decreases |steps|
  {
    if steps != [] {
      WinnerStays(Next(s, steps[0]).value, steps[1..]);
    }
  }

  /** A score above minus one is always picked. */
  lemma PicksAbove(scores: seq<Score>, x: Score, pick: nat)
    requires x.score > -1
    ensures Candidates(scores + [x]) != [] && Draw(Candidates(scores + [x]), pick).score > -1
  {
    var all := scores + [x];
    assert all[|scores|] == x;
    CandidatesAreBest(all);
  }

  /** As long as the winner has minus one, callers that still record can replace it. */
  lemma {:induction false} WinnerCanChange(s: State) returns (steps: seq<Step>)
    requires s.round.highest.score == -1
    ensures Feasible(s, steps) && After(s, steps).round.highest != s.round.highest
    decreases s.round.limit - |s.round.scores|
  {
    var better := Score([], 0);
    var s' := Recorded(s, better);
    if |s'.round.scores| >= s'.round.limit {
      PicksAbove(s.round.scores, better, 0);
      steps := [Record(better, 0)];
      assert Feasible(Next(s, steps[0]).value, steps[1..]);
    } else {
      var rest := WinnerCanChange(s');
      steps := [Record(better, 0)] + rest;
      assert steps[1..] == rest && Next(s, steps[0]) == Some(s');
    }
  }

  /** Once a round has fired, no continuation changes the winner if and only if the best score was above minus one. */
  lemma WinnerIsFinalIff(s: State, pick: nat)
    requires Fire(s.round, pick).Fired?
    ensures var s' := AfterFire(s, pick).value;
            (forall steps :: Feasible(s', steps) ==> After(s', steps).round.highest == s'.round.highest)
            <==> Best(s.round.scores) > -1
  {
    var s' := AfterFire(s, pick).value;
    DrawIsBest(s.round.scores, pick);
    assert s.round.scores[..|s.round.scores|] == s.round.scores;
    BestBounds(s.round.scores);
    if Best(s.round.scores) > -1 {
      forall steps | Feasible(s', steps) ensures After(s', steps).round.highest == s'.round.highest {
        WinnerStays(s', steps);
      }
    } else {
      var steps := WinnerCanChange(s');
    }
  }

  // ---------------------------------------------------------------- when a caller waits for ever

  predicate IsWaiting(s: State, i: nat) { i < |s.callers| && s.callers[i].status.Waiting? }

  lemma {:induction false} WaitingStays(s: State, steps: seq<Step>, i: nat)
    requires s.round.highest.score != -1 && Feasible(s, steps) && IsWaiting(s, i)
    ensures IsWaiting(After(s, steps), i)
    decreases |steps|
  {
    if steps != [] {
      WaitingStays(Next(s, steps[0]).value, steps[1..], i);
    }
  }

  /** As long as the winner has minus one, callers that still record can complete the count and wake the others. */
  lemma {:induction false} CanBeWoken(s: State, i: nat) returns (steps: seq<Step>)
    requires s.round.highest.score == -1 && IsWaiting(s, i)
    ensures Feasible(s, steps) && !IsWaiting(After(s, steps), i)
    decreases s.round.limit - |s.round.scores|
  {
    var better := Score([], 0);
    var s' := Recorded(s, better);
    if |s'.round.scores| >= s'.round.limit {
      PicksAbove(s.round.scores, better, 0);
      steps := [Record(better, 0)];
      assert Feasible(Next(s, steps[0]).value, steps[1..]);
    } else {
      assert IsWaiting(s', i);
      var rest := CanBeWoken(s', i);
      steps := [Record(better, 0)] + rest;
      assert steps[1..] == rest && Next(s, steps[0]) == Some(s');
    }
  }

  /** A waiting caller waits in all continuations if and only if a winner other than minus one is picked already. */
  lemma WaitsForEverIff(s: State, i: nat)
    requires IsWaiting(s, i)
    ensures (forall steps :: Feasible(s, steps) ==> IsWaiting(After(s, steps), i)) <==> s.round.highest.score != -1
  {
    if s.round.highest.score != -1 {
      forall steps | Feasible(s, steps) ensures IsWaiting(After(s, steps), i) {
        WaitingStays(s, steps, i);
      }
    } else {
      var steps := CanBeWoken(s, i);
    }
  }

  /** A caller that records waits for ever if and only if the round is won already and the count is not complete. */
  lemma RecordsInVainIff(s: State, score: Score, pick: nat)
    requires |s.callers| == |s.round.scores| && Next(s, Record(score, pick)).Some?
    ensures var s' := Next(s, Record(score, pick)).value;
            (forall steps :: Feasible(s', steps) ==> IsWaiting(After(s', steps), |s.callers|))
            <==> s.round.highest.score != -1 && |s.round.scores| + 1 < s.round.limit
  {
    var s' := Next(s, Record(score, pick)).value;
    if |s.round.scores| + 1 < s.round.limit {
      WaitsForEverIff(s', |s.callers|);
    } else {
      assert Feasible(s', []) && !IsWaiting(After(s', []), |s.callers|);
    }
  }

  lemma OneCandidate(x: Score)
    requires x.score >= -1
    ensures Candidates([x]) == [x]
  {
    OneMoreScore([], x, [x]);
  }

  /** The ticker fires on the only score there is, and a later one that does not complete the count waits for ever. */
  lemma LateScoreWaits(x: Score, y: Score) returns (s1: State, s2: State, s3: State)
    requires x.score > -1
    ensures Next(Init(3), Record(x, 0)) == Some(s1)
    ensures Enabled(s1, TimeUp(0)) && Next(s1, TimeUp(0)) == Some(s2)
    ensures Next(s2, Record(y, 0)) == Some(s3)
    ensures forall steps :: Feasible(s3, steps) ==> IsWaiting(After(s3, steps), 1)
  {
    OneCandidate(x);
    s1 := Recorded(Init(3), x);
    assert s1.round.scores == [x];
    s2 := AfterFire(s1.(ticked := true), 0).value;
    s3 := Recorded(s2, y);
    WaitsForEverIff(s3, 1);
  }

  lemma TwoCandidates(x: Score, y: Score)
    requires x.score == y.score == -1
    ensures Candidates([x]) == [x] && Candidates([x, y]) == [x, y]
  {
    OneMoreScore([], x, [x]);
    OneMoreScore([x], y, [x, y]);
  }

  /** With scores of minus one the ticker fires after the last caller has, and then two callers can be permitted. */
  lemma BothPermitted(x: Score, y: Score) returns (s1: State, s2: State, s3: State, s4: State)
    requires x.score == y.score == -1 && x.node != y.node
    ensures Next(Init(2), Record(x, 0)) == Some(s1) && Next(s1, Record(y, 1)) == Some(s2)
    ensures Enabled(s2, TimeUp(0)) && Next(s2, TimeUp(0)) == Some(s3)
    ensures Enabled(s3, Return(0)) && Next(s3, Return(0)) == Some(s4)
    ensures |s4.callers| == 2 && DistinctNodes(s4.callers) && Permitted(s4.callers[0]) && Permitted(s4.callers[1])
  {
    TwoCandidates(x, y);
    s1 := Recorded(Init(2), x);
    var both := Recorded(s1, y);
    assert both.round.scores == [x, y];
    s2 := Returns(AfterFire(both, 1).value, 1);
    assert s2.round.scores == [x, y] && s2.callers[1] == Caller(y, Returned(y));
    s3 := AfterFire(s2.(ticked := true), 0).value;
    s4 := Returns(s3, 0);
  }

  /** The other way round: the ticker fires on the only score there is, and a late score fires again. */
  lemma LateScorePermitted(x: Score, y: Score) returns (s1: State, s2: State, s3: State, s4: State)
    requires x.score == y.score == -1 && x.node != y.node
    ensures Next(Init(2), Record(x, 0)) == Some(s1)
    ensures Enabled(s1, TimeUp(0)) && Next(s1, TimeUp(0)) == Some(s2)
    ensures Enabled(s2, Return(0)) && Next(s2, Return(0)) == Some(s3)
    ensures Next(s3, Record(y, 1)) == Some(s4)
    ensures |s4.callers| == 2 && DistinctNodes(s4.callers) && Permitted(s4.callers[0]) && Permitted(s4.callers[1])
  {
    TwoCandidates(x, y);
    s1 := Recorded(Init(2), x);
    assert s1.round.scores == [x];
    s2 := AfterFire(s1.(ticked := true), 0).value;
    s3 := Returns(s2, 0);
    assert s3.callers[0] == Caller(x, Returned(x));
    var both := Recorded(s3, y);
    assert both.round.scores == [x, y];
    s4 := Returns(AfterFire(both, 1).value, 1);
  }

  // ---------------------------------------------------------------- the object

  /** The evaluator of one pod's scores, with its lock held. */
  class OneEvaluator {
    const limit: nat
    var scores: seq<Score>
    var highestScore: Score

    function AsRound(): Round
      reads this
    {
      Round(limit, scores, highestScore)
    }

    constructor (limit: nat)
      ensures AsRound() == Init(limit).round
    {
      this.limit := limit;
      scores := [];
      highestScore := NOT_FIRED;
    }

    /** Picks among the best unless that has been done, and tells whether the callers are woken; None is a panic. */
    method FireOnce(pick: nat) returns (broadcast: Option<bool>)
      modifies this`highestScore
      ensures match Fire(old(AsRound()), pick)
              case Panic => broadcast == None && AsRound() == old(AsRound())
              case Kept => broadcast == Some(false) && AsRound() == old(AsRound())
              case Fired(r) => broadcast == Some(true) && AsRound() == r
    {
      if highestScore.score != -1 {
        return Some(false);
      }
      var candidates := PickFrom(scores);
      if |candidates| == 0 {
        return None;
      }
      highestScore := Draw(candidates, pick);
      return Some(true);
    }

    /** Records a score: the caller panics, returns with the winner, or has to wait. */
    method RecordScore(score: Score, pick: nat) returns (answer: Answer)
      modifies this`scores, this`highestScore
      ensures var r := old(AsRound().(scores := scores + [score]));
              if |old(scores)| + 1 < limit then answer == MustWait && AsRound() == r
              else
                match Fire(r, pick)
                case Panic => answer == Panicked && AsRound() == r
                case Kept => answer == Winner(highestScore) && AsRound() == r
                case Fired(r') => answer == Winner(highestScore) && AsRound() == r'
    {
      scores := scores + [score];
      if |scores| < limit {
        return MustWait;
      }
      var broadcast := FireOnce(pick);
      return if broadcast.None? then Panicked else Winner(highestScore);
    }
  }

  datatype Answer = Panicked | MustWait | Winner(score: Score)
}
