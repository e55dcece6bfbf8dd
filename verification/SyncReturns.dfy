/** When the writer of a revision gets back in the synchronous mode: what can still happen from any state of a run. */
module SyncReturns {
  import opened Wrappers
  import opened Bytes
  import opened Integers
  import opened KeyIndex
  import opened WalCodec
  import opened Durability
  import Wal = WalHandoff
  import WalProgress

  /** The run so far, and one more step. */
  lemma Then(cfg: Wal.Config, threads: nat, states: seq<State>, steps: seq<Step>, step: Step)
    returns (states': seq<State>, steps': seq<Step>)
    requires Run(cfg, threads, states, steps) && Enabled(states[|steps|], step)
    ensures Run(cfg, threads, states', steps') && states <= states' && steps <= steps'
    ensures states'[|steps'|] == Next(cfg, states[|steps|], step)
  {
    states', steps' := states + [Next(cfg, states[|steps|], step)], steps + [step];
  }

  /** Whatever has not arrived yet can arrive, and then everything can be sent out. */
  lemma {:induction false} SendAll(cfg: Wal.Config, threads: nat, states: seq<State>, steps: seq<Step>)
    returns (states': seq<State>, steps': seq<Step>)
    requires Run(cfg, threads, states, steps) && Bounded(states[|steps|])
    ensures Run(cfg, threads, states', steps') && states <= states' && steps <= steps'
    ensures var s, s' := states[|steps|], states'[|steps'|];
            s'.history == s.history && s'.nextRev == |s.history| + 1
    decreases |states[|steps|].history| - states[|steps|].nextRev
  {
    var s := states[|steps|];
    states', steps' := states, steps;
    if s.nextRev <= |s.history| {
      if s.nextRev !in s.arrived {
        states', steps' := Then(cfg, threads, states', steps', Arrive(s.nextRev));
      }
      states', steps' := Then(cfg, threads, states', steps', Send);
      states', steps' := SendAll(cfg, threads, states', steps');
    }
  }

  /** Steps of the log, one after the other. */
  lemma {:induction false} LogSteps(cfg: Wal.Config, threads: nat, states: seq<State>, steps: seq<Step>,
                                    logSteps: seq<Wal.Step>)
    returns (states': seq<State>, steps': seq<Step>)
    requires Run(cfg, threads, states, steps) && Bounded(states[|steps|])
    requires Wal.Feasible(cfg, states[|steps|].wal, logSteps)
    requires WalProgress.AllDiligent(cfg, states[|steps|].wal, logSteps)
    ensures Run(cfg, threads, states', steps') && states <= states' && steps <= steps'
    ensures var s := states[|steps|];
            states'[|steps'|] == s.(wal := Wal.After(cfg, s.wal, logSteps))
    decreases |logSteps|
  {
    states', steps' := states, steps;
    if logSteps != [] {
      states', steps' := Then(cfg, threads, states', steps', Log(logSteps[0]));
      states', steps' := LogSteps(cfg, threads, states', steps', logSteps[1..]);
    }
  }

  /** From every state of every run, with at least one writer thread, all can come to rest. */
  lemma CanComeToRest(cfg: Wal.Config, threads: nat, states: seq<State>, steps: seq<Step>)
    returns (states': seq<State>, steps': seq<Step>)
    requires Run(cfg, threads, states, steps) && threads > 0
    ensures Run(cfg, threads, states', steps') && states <= states' && steps <= steps'
    ensures AtRest(states'[|steps'|]) && states'[|steps'|].history == states[|steps|].history
  {
    RunInv(cfg, threads, states, steps);
    states', steps' := SendAll(cfg, threads, states, steps);
    RunInv(cfg, threads, states', steps');
    var wal := states'[|steps'|].wal;
    var keys := WalProgress.Enumerate(wal.writers.Keys);
    var logSteps := WalProgress.ComesToRest(cfg, threads, wal, keys);
    states', steps' := LogSteps(cfg, threads, states', steps', logSteps);
  }

  /** The revision is released at the end of some continuation of the run. */
  ghost predicate CanReturn(cfg: Wal.Config, threads: nat, states: seq<State>, steps: seq<Step>, r: nat) {
    exists states': seq<State>, steps': seq<Step> ::
      && Run(cfg, threads, states', steps') && states <= states' && steps <= steps'
      && r in states'[|steps'|].wal.released
  }

  /**
    In the synchronous mode, in any state of any run, the writer of a revision that has been given out can still get
    back if and only if the prefix of its key is persisted: otherwise it waits for ever.
   */
  lemma CanReturnIff(cfg: Wal.Config, threads: nat, states: seq<State>, steps: seq<Step>, r: nat)
    requires Run(cfg, threads, states, steps) && cfg.mode.Sync? && threads > 0
    requires 0 < r <= |states[|steps|].history|
    ensures CanReturn(cfg, threads, states, steps, r)
            <==> PrefixOf(states[|steps|].history[r - 1].key) !in cfg.noPersist
  {
    var h := states[|steps|].history;
    if CanReturn(cfg, threads, states, steps, r) {
      var states': seq<State>, steps': seq<Step> :|
        Run(cfg, threads, states', steps') && states <= states' && steps <= steps' &&
        r in states'[|steps'|].wal.released;
      ReleasedIsPersisted(cfg, threads, states', steps', r);
      HistoryGrows(cfg, threads, states', steps', |steps|);
    }
    if Wal.Persists(cfg, PrefixOf(h[r - 1].key)) {
      var states', steps' := CanComeToRest(cfg, threads, states, steps);
      ReturnsIff(cfg, threads, states', steps', r);
    }
  }

  /** Revisions keep their writes. */
  lemma {:induction false} HistoryGrows(cfg: Wal.Config, threads: nat, states: seq<State>, steps: seq<Step>, i: nat)
    requires Run(cfg, threads, states, steps) && i <= |steps|
    ensures states[i].history <= states[|steps|].history
    decreases |steps|
  {
    var n := |steps|;
    if i < n {
      HistoryGrows(cfg, threads, states[..n], steps[..n - 1], i);
      assert states[n] == Next(cfg, states[n - 1], steps[n - 1]);
    }
  }
}
