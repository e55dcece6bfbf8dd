/** What watch streams are promised, in every run of writers, notification thread and streams. */
module WatchRuns {
  import opened Wrappers
  import opened Bytes
  import opened Integers
  import opened KeyIndex
  import opened WatchSystem
  import History

  // ---------------------------------------------------------------- every run

  ghost predicate Inv(s: State) {
    Placed(s) && Piped(s) && Listed(s) && Fresh(s) && GapFree(s) && Channels(s) && AllReported(s)
  }

  lemma KeepsInv(s: State, step: Step)
    requires Inv(s) && Enabled(s, step)
    ensures Inv(Next(s, step))
  {
    KeepsPlaced(s, step);
    KeepsPiped(s, step);
    KeepsListed(s, step);
    KeepsFresh(s, step);
    KeepsGapFree(s, step);
    KeepsChannels(s, step);
    KeepsReported(s, step);
  }

  ghost predicate Run(states: seq<State>, steps: seq<Step>) {
    && |states| == |steps| + 1 && states[0] == Initial()
    && forall i {:trigger steps[i]} :: 0 <= i < |steps| ==>
         Enabled(states[i], steps[i]) && states[i + 1] == Next(states[i], steps[i])
  }

  lemma {:induction false} RunInv(states: seq<State>, steps: seq<Step>)
    requires Run(states, steps)
    ensures Inv(states[|steps|])
    decreases |steps|
  {
    var n := |steps|;
    if n == 0 {
      InitialInv();
    } else {
      RunInv(states[..n], steps[..n - 1]);
      KeepsInv(states[n - 1], steps[n - 1]);
    }
  }

  lemma InitialInv()
    ensures Inv(Initial())
  {
  }

  /**
    The write comes to the watch: it reads the list of watchers when the watch is there, or the scan of its key finds it
    before it is compacted.
   */
  predicate Reaches(s: State, w: Watch, r: int)
    requires 0 < r <= |s.log|
  {
    r !in w.before || ScannedInTime(s, w, r)
  }

  /**
    Exactly which writes a watch gets, in every run and whatever its range and start: one that it asks for and that has
    read the list of watchers is among the past changes, or its job is for this watch, if and only if it reaches the
    watch. Of those that read the list earlier, the scan comes to exactly the keys in the window of the range.
   */
  lemma ReachesIff(states: seq<State>, steps: seq<Step>, id: nat, r: int)
    requires Run(states, steps) && id in states[|steps|].watches && states[|steps|].watches[id].phase.Streaming?
    requires var s := states[|steps|]; r in s.jobs && 0 < r <= |s.log| && Wants(s.watches[id], KeyAt(s, r), r)
    ensures var s := states[|steps|];
            var w := s.watches[id];
            && (r in w.past || id in s.jobs[r] <==> Reaches(s, w, r))
            && (id in s.jobs[r] <==> r !in w.before)
            && (r in w.before ==> (KeyAt(s, r) in w.scannedAt <==> Scans(w, KeyAt(s, r))))
  {
    RunInv(states, steps);
    var s := states[|steps|];
    assert NoGap(s, id, s.watches[id]);
    assert JobCaught(s, id, s.watches[id], r);
  }

  /**
    Nothing else comes to a watch: its past changes are exactly the writes that it asks for and whose keys were scanned
    after they had their revision and before they were compacted, and every event is a write that it asks for.
   */
  lemma OnlyWanted(states: seq<State>, steps: seq<Step>, id: nat, r: int)
    requires Run(states, steps) && id in states[|steps|].watches
    ensures var s := states[|steps|];
            var w := s.watches[id];
            && (r in w.past <==>
                  && 0 < r <= |s.log| && Wants(w, KeyAt(s, r), r) && KeyAt(s, r) in w.scannedAt
                  && w.scannedAt[KeyAt(s, r)].compacted < r <= w.scannedAt[KeyAt(s, r)].revision)
            && (r in Events(w) ==> 0 < r <= |s.log| && Wants(w, KeyAt(s, r), r) && r !in w.before)
  {
    RunInv(states, steps);
    var s := states[|steps|];
    var w := s.watches[id];
    assert NoGap(s, id, w);
    assert r in w.past <==> InPast(s, w, r);
    if r in Events(w) {
      ChannelOf(s, id);
      var i :| 0 <= i < |Events(w)| && Events(w)[i] == r;
      assert SentTo(s, id, r);
      JobIsKnown(s, r);
      assert JobCaught(s, id, w, r);
    }
  }

  /**
    A write comes to a watch twice, as past change and as event, if and only if it reads the list of watchers when the
    watch is there and still has its revision when its key is scanned.
   */
  lemma TwiceIff(states: seq<State>, steps: seq<Step>, id: nat, r: int)
    requires Run(states, steps) && id in states[|steps|].watches && states[|steps|].watches[id].phase.Streaming?
    requires var s := states[|steps|]; r in s.jobs && 0 < r <= |s.log| && Wants(s.watches[id], KeyAt(s, r), r)
    ensures var s := states[|steps|];
            var w := s.watches[id];
            r in w.past && id in s.jobs[r] <==>
              && r !in w.before && KeyAt(s, r) in w.scannedAt
              && w.scannedAt[KeyAt(s, r)].compacted < r <= w.scannedAt[KeyAt(s, r)].revision
  {
    ReachesIff(states, steps, id, r);
    OnlyWanted(states, steps, id, r);
  }

  /** The watch is streaming from a given revision a range that the index covers, and compaction did not overtake it. */
  ghost predicate Sound(w: Watch) { w.phase.Streaming? && w.replay && !w.overtaken && Covers(w.start, w.end) }

  lemma SoundReaches(s: State, id: nat, r: int)
    requires Inv(s) && id in s.watches && Sound(s.watches[id])
    requires r in s.jobs && 0 < r <= |s.log| && Wants(s.watches[id], KeyAt(s, r), r)
    ensures Reaches(s, s.watches[id], r)
  {
    var w := s.watches[id];
    assert NoGap(s, id, w);
    assert JobCaught(s, id, w, r);
    CoveredIsVisited(w.start, w.end, KeyAt(s, r));
  }

  /**
    No gaps: in every run, each revision that a sound watch asks for and that has read the list of watchers is among the
    past changes, or its job is for this watch. (One that has not read the list yet will find the watch there:
    `Captured`.)
   */
  lemma WatchHasNoGaps(states: seq<State>, steps: seq<Step>, id: nat, r: int)
    requires Run(states, steps)
    ensures var s := states[|steps|];
            id in s.watches && Sound(s.watches[id]) && r in s.jobs && 0 < r <= |s.log| &&
            Wants(s.watches[id], KeyAt(s, r), r) ==>
              r in s.watches[id].past || id in s.jobs[r]
  {
    var s := states[|steps|];
    if id in s.watches && Sound(s.watches[id]) && r in s.jobs && 0 < r <= |s.log| &&
       Wants(s.watches[id], KeyAt(s, r), r)
    {
      RunInv(states, steps);
      SoundReaches(s, id, r);
      ReachesIff(states, steps, id, r);
    }
  }

  /**
    Resequencing: in every run, jobs are sent out as exactly 1, 2, 3, ... up to nextRev - 1, whatever the order in
    which they arrive, and each channel carries its jobs in strictly increasing order, none lost and none repeated.
   */
  lemma ChannelsAreInOrder(states: seq<State>, steps: seq<Step>, id: nat)
    requires Run(states, steps) && id in states[|steps|].watches
    ensures var s := states[|steps|];
            var w := s.watches[id];
            && Increasing(Events(w))
            && (forall r :: r in Events(w) <==> SentTo(s, id, r))
            && (forall r :: 0 < r < s.nextRev ==> r in s.jobs && r !in s.sent && r !in s.spool)
            && s.progressRev < s.nextRev
  {
    RunInv(states, steps);
    var s := states[|steps|];
    assert Channel(s, id, s.watches[id]);
    forall r | 0 < r < s.nextRev ensures r in s.jobs && r !in s.sent && r !in s.spool {
      assert InPipe(s, r);
    }
  }

  /**
    What a progress response promises, in every run: every write at or below the revision it names that the watch
    asks for has been delivered before it, as past change or as event, and no event delivered after it is at or
    below that revision.
   */
  lemma ProgressIsComplete(states: seq<State>, steps: seq<Step>, id: nat, i: nat, r: int)
    requires Run(states, steps) && id in states[|steps|].watches && i < |states[|steps|].watches[id].reports|
    ensures var s := states[|steps|];
            var w := s.watches[id];
            var report := w.reports[i];
            && report.after <= |w.delivered| && AllAbove(w.delivered, report.after, report.rev)
            && (0 < r <= report.rev ==> r <= |s.log|)
            && (w.phase.Streaming? && 0 < r <= report.rev && Wants(w, KeyAt(s, r), r) ==>
                  && (r in w.past || r in w.delivered[..report.after] <==> Reaches(s, w, r))
                  && (Sound(w) ==> Reaches(s, w, r)))
  {
    RunInv(states, steps);
    var s := states[|steps|];
    var w := s.watches[id];
    var report := w.reports[i];
    HonestReport(s, id, i);
    if 0 < r <= report.rev {
      JobIsKnown(s, r);
      if w.phase.Streaming? && Wants(w, KeyAt(s, r), r) {
        ReachesIff(states, steps, id, r);
        SentIsDelivered(s, id, i, r);
        if Sound(w) {
          SoundReaches(s, id, r);
        }
      }
    }
  }

  lemma HonestReport(s: State, id: nat, i: nat)
    requires Inv(s) && id in s.watches && i < |s.watches[id].reports|
    ensures var w := s.watches[id];
            var report := w.reports[i];
            Honest(s, w, report) && AllAbove(w.delivered, report.after, report.rev)
  {
    var w := s.watches[id];
    assert Channel(s, id, w);
    assert Honest(s, w, w.reports[i]);
    assert forall j :: 0 <= j < |w.delivered| ==> Events(w)[j] == w.delivered[j];
  }

  lemma JobIsKnown(s: State, r: int)
    requires Placed(s) && Piped(s) && 0 < r < s.nextRev
    ensures r in s.jobs && r <= |s.log|
  {
    assert Visible(s, r);
  }

  /** Of the jobs at or below a report, exactly those for the watch were delivered before it. */
  lemma SentIsDelivered(s: State, id: nat, i: nat, r: int)
    requires Inv(s) && id in s.watches && i < |s.watches[id].reports| && r in s.jobs
    requires 0 < r <= s.watches[id].reports[i].rev
    ensures var w := s.watches[id]; w.reports[i].after <= |w.delivered|
    ensures var w := s.watches[id]; r in w.delivered[..w.reports[i].after] <==> id in s.jobs[r]
  {
    HonestReport(s, id, i);
    var w := s.watches[id];
    var report := w.reports[i];
    assert Channel(s, id, w);
    if id in s.jobs[r] {
      assert SentTo(s, id, r);
      var j :| 0 <= j < |Events(w)| && Events(w)[j] == r;
      assert j < report.after;
      assert w.delivered[..report.after][j] == r;
    }
    if r in w.delivered[..report.after] {
      var j :| 0 <= j < report.after && w.delivered[j] == r;
      assert Events(w)[j] == r;
    }
  }

  /**
    What a progress response names, in every run: no less than any event delivered before and any earlier response, no
    less than the stored progress, and no more than that and the events; when the notification thread is at rest, the
    last revision that it has sent out.
   */
  lemma ProgressReports(states: seq<State>, steps: seq<Step>, id: nat)
    requires Run(states, steps) && Enabled(states[|steps|], Progress(id))
    ensures var s, s' := states[|steps|], Next(states[|steps|], Progress(id));
            var w, w' := s.watches[id], s'.watches[id];
            && |w'.reports| == |w.reports| + 1 && w'.reports[..|w.reports|] == w.reports
            && s' == s.(watches := s.watches[id := w.(reports := w'.reports)])
            && var report := w'.reports[|w.reports|];
               && report.after == |w.delivered|
               && (forall i :: 0 <= i < |w.delivered| ==> w.delivered[i] <= report.rev)
               && (forall i :: 0 <= i < |w.reports| ==> w.reports[i].rev <= report.rev)
               && s.progressRev <= report.rev && (report.rev == s.progressRev || report.rev in w.delivered)
               && (!s.draining ==> report.rev == s.nextRev - 1)
  {
    RunInv(states, steps);
    var s := states[|steps|];
    ChannelOf(s, id);
    assert Reported(s, s.watches[id]);
    ProgressIs(s, id);
  }

  lemma ProgressIs(s: State, id: nat)
    requires Enabled(s, Progress(id)) && Piped(s) && Reported(s, s.watches[id]) && s.watches[id].maxEvent < s.nextRev
    ensures var s' := Next(s, Progress(id));
            var w, w' := s.watches[id], s'.watches[id];
            var rev := Max(s.progressRev, w.maxEvent);
            && w' == w.(reports := w.reports + [Report(rev, |w.delivered|)])
            && s' == s.(watches := s.watches[id := w'])
            && (rev == s.progressRev || rev in w.delivered)
            && (!s.draining ==> rev == s.nextRev - 1)
  {
  }

  /** The stored progress is the last revision that was sent out when the notification thread was last at rest. */
  lemma {:induction false} ProgressWasReached(states: seq<State>, steps: seq<Step>) returns (i: nat)
    requires Run(states, steps)
    ensures i <= |steps| && !states[i].draining && states[|steps|].progressRev == states[i].nextRev - 1
    ensures forall j :: i < j <= |steps| ==> states[j].draining
    decreases |steps|
  {
    var n := |steps|;
    i := n;
    if states[n].draining {
      RunFront(states, steps);
      i := ProgressWasReached(states[..n], steps[..n - 1]);
      StoredByRest(states[n - 1], steps[n - 1]);
    } else {
      RestIsStored(states, steps);
    }
  }

  lemma RestIsStored(states: seq<State>, steps: seq<Step>)
    requires Run(states, steps) && !states[|steps|].draining
    ensures states[|steps|].progressRev == states[|steps|].nextRev - 1
  {
    RunInv(states, steps);
  }

  lemma RunFront(states: seq<State>, steps: seq<Step>)
    requires Run(states, steps) && steps != []
    ensures var n := |steps|;
            && Run(states[..n], steps[..n - 1])
            && Enabled(states[n - 1], steps[n - 1]) && states[n] == Next(states[n - 1], steps[n - 1])
  {
  }

  lemma StoredByRest(s: State, step: Step)
    requires Enabled(s, step) && Next(s, step).draining
    ensures Next(s, step).progressRev == s.progressRev
  {
  }

  /** Writes and compactions are those of the store: the log grows and the compaction point moves as it says. */
  lemma CompactsLikeTheStore(s: State, st: History.State, c: int)
    requires |st.history| == |s.log| && st.compacted == s.compacted
    ensures var st' := History.Step(st, History.Compact(c));
            if Enabled(s, Compact(c)) then
              st'.compacted == Next(s, Compact(c)).compacted && |st'.history| == |Next(s, Compact(c)).log|
            else st' == st
  {
  }

  // ---------------------------------------------------------------- what a watch is asked for stays

  /** No step changes what a watch asks for. */
  lemma AskedStays(s: State, step: Step, id: nat)
    requires Enabled(s, step) && Fresh(s) && id in s.watches && id in Next(s, step).watches
    ensures var w, w' := s.watches[id], Next(s, step).watches[id];
            w'.start == w.start && w'.end == w.end && w'.replay == w.replay && w'.from == w.from
  {
    if Looks(step, id) {
      if step.Notify? {
        assert Next(s, step).watches == s.watches;
      }
    } else {
      OtherStep(s, step, id);
    }
  }

  /** A call begins with a watch of its range from its start revision on, or without one from the latest one on. */
  lemma CallAsks(s: State, rev: int, start: Key, end: Key)
    requires Enabled(s, Check(rev, start, end))
    ensures var s' := Next(s, Check(rev, start, end));
            && s.nextId in s'.watches && s' == s.(watches := s'.watches, nextId := s.nextId + 1)
            && var w := s'.watches[s.nextId];
               && w.start == start && w.end == end && w.replay == (rev > 0) && w.phase.Checked?
               && w.from == (if rev > 0 then rev else |s.log|)
               && w.past == {} && w.delivered == w.queue == [] && w.reports == []
  {
  }

  // ---------------------------------------------------------------- why the check and the read must be one step

  /** The revision that a progress response would name now. */
  function ProgressNow(s: State, id: nat): int
    requires id in s.watches
  {
    Max(s.progressRev, s.watches[id].maxEvent)
  }

  /** A continuation from `s` during which the watch is there. */
  ghost predicate Continues(s: State, id: nat, states: seq<State>, steps: seq<Step>) {
    && |states| == |steps| + 1 && states[0] == s
    && (forall k :: 0 <= k < |states| ==> id in states[k].watches)
    && (forall k :: 0 <= k < |steps| ==> Enabled(states[k], steps[k]) && states[k + 1] == Next(states[k], steps[k]))
  }

  /** Jobs keep their watchers, and a channel only grows. */
  ghost predicate Later(s: State, s': State, id: nat)
    requires id in s.watches && id in s'.watches
  {
    && s.nextRev <= s'.nextRev
    && (forall r {:trigger r in s.jobs} :: r in s.jobs ==> r in s'.jobs && s'.jobs[r] == s.jobs[r])
    && s.watches[id].delivered <= s'.watches[id].delivered
    && Events(s.watches[id]) <= Events(s'.watches[id])
  }

  lemma JobsStay(s: State, step: Step, r: int)
    requires Placed(s) && Enabled(s, step) && r in s.jobs
    ensures r in Next(s, step).jobs && Next(s, step).jobs[r] == s.jobs[r]
  {
    assert r !in s.applied;
  }

  lemma DispatchGrows(s: State, r: int, id: nat)
    requires r in s.jobs && id in s.watches
    ensures var s' := Dispatch(s, r);
            && id in s'.watches && s'.watches[id].delivered == s.watches[id].delivered
            && s.watches[id].queue <= s'.watches[id].queue && s'.nextRev == s.nextRev + 1
  {
  }

  lemma DeliverGrows(s: State, id: nat, m: nat)
    requires Enabled(s, Deliver(id, m))
    ensures var w' := Next(s, Deliver(id, m)).watches[id];
            s.watches[id].delivered <= w'.delivered && Events(w') == Events(s.watches[id])
  {
  }

  lemma TouchedGrows(s: State, step: Step, id: nat)
    requires Enabled(s, step) && id in s.watches && Touches(s, step, id)
    ensures id in Next(s, step).watches
    ensures var w, w' := s.watches[id], Next(s, step).watches[id];
            s.nextRev <= Next(s, step).nextRev && w.delivered <= w'.delivered && Events(w) <= Events(w')
  {
    match step
    case Receive(r) => DispatchGrows(s.(sent := s.sent - {r}), r, id);
    case Drain => DispatchGrows(s, s.nextRev, id);
    case Deliver(_, m) => DeliverGrows(s, id, m);
    case Progress(_) =>
  }

  /** Sending out adds to a channel, and delivering moves from its one end to the other. */
  lemma ChannelGrows(s: State, step: Step, id: nat)
    requires Piped(s) && Placed(s) && Fresh(s) && Enabled(s, step) && id in s.watches && id in Next(s, step).watches
    ensures var w, w' := s.watches[id], Next(s, step).watches[id];
            s.nextRev <= Next(s, step).nextRev && w.delivered <= w'.delivered && Events(w) <= Events(w')
  {
    if !Touches(s, step, id) {
      UntouchedChannel(s, step, id);
      UntouchedSent(s, step, id, 0);
    } else {
      TouchedGrows(s, step, id);
    }
  }

  lemma StepLater(s: State, step: Step, id: nat)
    requires Inv(s) && Enabled(s, step) && id in s.watches && id in Next(s, step).watches
    ensures Later(s, Next(s, step), id)
  {
    ChannelGrows(s, step, id);
    forall r | r in s.jobs ensures r in Next(s, step).jobs && Next(s, step).jobs[r] == s.jobs[r] {
      JobsStay(s, step, r);
    }
  }

  lemma LaterTransitive(a: State, b: State, c: State, id: nat)
    requires id in a.watches && id in b.watches && id in c.watches && Later(a, b, id) && Later(b, c, id)
    ensures Later(a, c, id)
  {
  }

  lemma ContinuesFront(s: State, id: nat, states: seq<State>, steps: seq<Step>)
    requires Continues(s, id, states, steps) && steps != []
    ensures var n := |steps|;
            && Continues(s, id, states[..n], steps[..n - 1]) && id in states[n - 1].watches && id in states[n].watches
            && Enabled(states[n - 1], steps[n - 1]) && states[n] == Next(states[n - 1], steps[n - 1])
  {
  }

  lemma {:induction false} ContinuesLater(s: State, id: nat, states: seq<State>, steps: seq<Step>)
    requires Inv(s) && Continues(s, id, states, steps)
    ensures Inv(states[|steps|]) && Later(s, states[|steps|], id)
    decreases |steps|
  {
    var n := |steps|;
    if n > 0 {
      ContinuesFront(s, id, states, steps);
      ContinuesLater(s, id, states[..n], steps[..n - 1]);
      LaterStep(s, states[n - 1], steps[n - 1], id);
    }
  }

  lemma LaterStep(s: State, s': State, step: Step, id: nat)
    requires Inv(s') && Enabled(s', step) && id in s.watches && id in s'.watches && id in Next(s', step).watches
    requires Later(s, s', id)
    ensures Inv(Next(s', step)) && Later(s, Next(s', step), id)
  {
    KeepsInv(s', step);
    StepLater(s', step, id);
    LaterTransitive(s, s', Next(s', step), id);
  }

  /** What comes into a channel from now on is not yet sent out. */
  lemma NewEventsAreLater(s: State, s': State, id: nat, m: nat)
    requires id in s.watches && id in s'.watches && Later(s, s', id) && Piped(s)
    requires Channel(s, id, s.watches[id]) && Channel(s', id, s'.watches[id])
    requires |Events(s.watches[id])| <= m < |Events(s'.watches[id])|
    ensures Events(s'.watches[id])[m] >= s.nextRev
  {
    var before, after := Events(s.watches[id]), Events(s'.watches[id]);
    var r := after[m];
    assert SentTo(s', id, r);
    assert forall i :: 0 <= i < |before| ==> before[i] == after[i] < r;
    assert !SentTo(s, id, r);
    assert r < s.nextRev ==> r in s.jobs;
  }

  /** A report of `p` made now comes true: no continuation delivers anything at or below it. */
  ghost predicate ComesTrue(s: State, id: nat, p: int)
    requires id in s.watches
  {
    forall states: seq<State>, steps: seq<Step> :: Continues(s, id, states, steps) ==>
      AllAbove(states[|steps|].watches[id].delivered, |s.watches[id].delivered|, p)
  }

  lemma DeliveredAbove(s: State, s': State, id: nat, p: int)
    requires id in s.watches && id in s'.watches && Later(s, s', id) && Piped(s) && p < s.nextRev
    requires Channel(s, id, s.watches[id]) && Channel(s', id, s'.watches[id])
    requires forall j :: 0 <= j < |s.watches[id].queue| ==> s.watches[id].queue[j] > p
    ensures AllAbove(s'.watches[id].delivered, |s.watches[id].delivered|, p)
  {
    var w, w' := s.watches[id], s'.watches[id];
    forall m | |w.delivered| <= m < |w'.delivered| ensures w'.delivered[m] > p {
      assert w'.delivered[m] == Events(w')[m];
      if m < |Events(w)| {
        assert Events(w')[m] == Events(w)[m] == w.queue[m - |w.delivered|];
      } else {
        NewEventsAreLater(s, s', id, m);
      }
    }
  }

  lemma ChannelOf(s: State, id: nat)
    requires Inv(s) && id in s.watches
    ensures Channel(s, id, s.watches[id]) && Piped(s)
  {
  }

  lemma QueueAboveIsEnough(s: State, id: nat, p: int, states: seq<State>, steps: seq<Step>)
    requires Inv(s) && id in s.watches && p < s.nextRev && Continues(s, id, states, steps)
    requires forall j :: 0 <= j < |s.watches[id].queue| ==> s.watches[id].queue[j] > p
    ensures AllAbove(states[|steps|].watches[id].delivered, |s.watches[id].delivered|, p)
  {
    ContinuesLater(s, id, states, steps);
    ChannelOf(s, id);
    ChannelOf(states[|steps|], id);
    DeliveredAbove(s, states[|steps|], id, p);
  }

  /** The report comes true if and only if nothing at or below it waits in the channel. */
  lemma ComesTrueIff(s: State, id: nat, p: int)
    requires Inv(s) && id in s.watches && s.watches[id].phase.Streaming? && p < s.nextRev
    ensures ComesTrue(s, id, p) <==> forall j :: 0 <= j < |s.watches[id].queue| ==> s.watches[id].queue[j] > p
  {
    var w := s.watches[id];
    if forall j :: 0 <= j < |w.queue| ==> w.queue[j] > p {
      forall states: seq<State>, steps: seq<Step> | Continues(s, id, states, steps)
        ensures AllAbove(states[|steps|].watches[id].delivered, |w.delivered|, p)
      {
        QueueAboveIsEnough(s, id, p, states, steps);
      }
    } else {
      ChannelOf(s, id);
      FirstIsDelivered(s, id, p);
    }
  }

  lemma FirstIsDelivered(s: State, id: nat, p: int)
    requires id in s.watches && s.watches[id].phase.Streaming? && Channel(s, id, s.watches[id])
    requires exists j :: 0 <= j < |s.watches[id].queue| && s.watches[id].queue[j] <= p
    ensures !ComesTrue(s, id, p)
  {
    var w := s.watches[id];
    assert w.queue[0] <= p by {
      var j :| 0 <= j < |w.queue| && w.queue[j] <= p;
      assert Events(w)[|w.delivered|] == w.queue[0] && Events(w)[|w.delivered| + j] == w.queue[j];
    }
    var states, steps := [s, Next(s, Deliver(id, 1))], [Deliver(id, 1)];
    assert Continues(s, id, states, steps);
    assert states[1].watches[id].delivered[|w.delivered|] == w.queue[0];
  }

  /** No job for the watch at or below `p` was sent out between the two states. */
  ghost predicate NoneBetween(s: State, s': State, id: nat, p: int) {
    forall r {:trigger SentTo(s', id, r)} :: SentTo(s', id, r) && r <= p ==> SentTo(s, id, r)
  }

  /**
    Finding the channel empty and reading the progress revision as two steps, in states i and j of a run, between which
    the stream itself does nothing: the report comes true if and only if no job for this watch at or below it was sent
    out in between.
   */
  lemma UncheckedProgressIff(states: seq<State>, steps: seq<Step>, i: nat, id: nat)
    requires Run(states, steps) && i <= |steps| && id in states[i].watches && id in states[|steps|].watches
    requires states[i].watches[id].queue == [] && states[|steps|].watches[id].phase.Streaming?
    requires states[|steps|].watches[id].delivered == states[i].watches[id].delivered
    ensures var s := states[|steps|];
            ComesTrue(s, id, ProgressNow(s, id)) <==> NoneBetween(states[i], s, id, ProgressNow(s, id))
  {
    var s0, s := states[i], states[|steps|];
    var p := ProgressNow(s, id);
    RunInv(states, steps);
    RunInv(states[..i + 1], steps[..i]);
    ChannelOf(s0, id);
    ChannelOf(s, id);
    ComesTrueIff(s, id, p);
    WaitingIsBetween(s0, s, id, p);
  }

  lemma WaitingIsBetween(s0: State, s: State, id: nat, p: int)
    requires id in s0.watches && id in s.watches
    requires Channel(s0, id, s0.watches[id]) && Channel(s, id, s.watches[id])
    requires s0.watches[id].queue == [] && s.watches[id].delivered == s0.watches[id].delivered
    ensures NoneBetween(s0, s, id, p) <==> forall j :: 0 <= j < |s.watches[id].queue| ==> s.watches[id].queue[j] > p
  {
    var w0, w := s0.watches[id], s.watches[id];
    assert Events(w0) == w.delivered;
    if NoneBetween(s0, s, id, p) {
      forall j | 0 <= j < |w.queue| ensures w.queue[j] > p {
        QueuedIsNotSentBefore(s0, s, id, j);
      }
    } else {
      var r :| SentTo(s, id, r) && r <= p && !SentTo(s0, id, r);
      assert r in Events(w) && r !in w.delivered;
      var j :| 0 <= j < |w.queue| && w.queue[j] == r;
    }
  }

  lemma QueuedIsNotSentBefore(s0: State, s: State, id: nat, j: nat)
    requires id in s0.watches && id in s.watches
    requires Channel(s0, id, s0.watches[id]) && Channel(s, id, s.watches[id])
    requires s0.watches[id].queue == [] && s.watches[id].delivered == s0.watches[id].delivered
    requires j < |s.watches[id].queue|
    ensures SentTo(s, id, s.watches[id].queue[j]) && !SentTo(s0, id, s.watches[id].queue[j])
  {
    var w0, w := s0.watches[id], s.watches[id];
    var m := |w.delivered| + j;
    assert Events(w)[m] == w.queue[j];
    assert Events(w0) == w.delivered;
    assert forall i :: 0 <= i < |w.delivered| ==> Events(w)[i] == w.delivered[i] < Events(w)[m];
  }

  /** The run so far, and one more step, to `s`. */
  lemma Then(states: seq<State>, steps: seq<Step>, step: Step, s: State)
    returns (states': seq<State>, steps': seq<Step>)
    requires Run(states, steps) && Enabled(states[|steps|], step) && s == Next(states[|steps|], step)
    ensures Run(states', steps') && states < states' && states'[|steps'|] == s
  {
    states', steps' := states + [s], steps + [step];
  }

  /** A watch of the key `k` from revision 1 on, with `queue` waiting in its channel. */
  function Waiting(k: Key, queue: seq<int>): Watch {
    Watch(1, k, [], true, Streaming, {}, map[], {}, queue, [], 0, [], false)
  }

  function Idle(k: Key): State {
    State([], map[], {}, {}, map[], 0, {}, map[], {}, 1, {}, false, 0, map[0 := Waiting(k, [])], 1)
  }

  function OneWritten(k: Key): State {
    State([k], map[], {k}, {k}, map[k := {1}], 0, {}, map[1 := {0}], {}, 2, {}, false, 1, map[0 := Waiting(k, [1])], 1)
  }

  function TwoWritten(k: Key): State {
    State([k, k], map[], {k}, {k}, map[k := {1, 2}], 0, {}, map[1 := {0}, 2 := {0}], {}, 3, {}, false, 2,
          map[0 := Waiting(k, [1, 2])], 1)
  }

  /** Nothing is written yet, and the watch is in that phase of its call. */
  function AtPhase(k: Key, phase: Phase): State {
    Idle(k).(watches := map[0 := Waiting(k, []).(phase := phase)])
  }

  lemma CallSteps(k: Key)
    ensures Enabled(Initial(), Check(1, k, [])) && Next(Initial(), Check(1, k, [])) == AtPhase(k, Checked)
    ensures Enabled(AtPhase(k, Checked), Register(0))
    ensures Next(AtPhase(k, Checked), Register(0)) == AtPhase(k, Registered)
  {
    assert AtPhase(k, Checked).jobs.Keys == {};
  }

  lemma ScanSteps(k: Key)
    ensures Enabled(AtPhase(k, Registered), ScanStart(0))
    ensures Next(AtPhase(k, Registered), ScanStart(0)) == AtPhase(k, Scanning({}))
    ensures Enabled(AtPhase(k, Scanning({})), ScanEnd(0)) && Next(AtPhase(k, Scanning({})), ScanEnd(0)) == Idle(k)
  {
    var s := Next(AtPhase(k, Registered), ScanStart(0));
    assert s.watches[0].phase == Scanning({});
  }

  lemma RunToIdle(k: Key) returns (states: seq<State>, steps: seq<Step>)
    ensures Run(states, steps) && states[|steps|] == Idle(k)
  {
    CallSteps(k);
    ScanSteps(k);
    states, steps := [Initial()], [];
    states, steps := Then(states, steps, Check(1, k, []), AtPhase(k, Checked));
    states, steps := Then(states, steps, Register(0), AtPhase(k, Registered));
    states, steps := Then(states, steps, ScanStart(0), AtPhase(k, Scanning({})));
    states, steps := Then(states, steps, ScanEnd(0), Idle(k));
  }

  /** The first write of `k` is visible but has not read the list of watchers. */
  function OneApplied(k: Key): State {
    Idle(k).(log := [k], index := {k}, tree := {k}, listed := map[k := {1}], applied := {1})
  }

  function TwoApplied(k: Key): State {
    OneWritten(k).(log := [k, k], listed := map[k := {1, 2}], applied := {2})
  }

  lemma CreateKey(k: Key, states: seq<State>, steps: seq<Step>) returns (states': seq<State>, steps': seq<Step>)
    requires Run(states, steps) && states[|steps|] == Idle(k)
    ensures Run(states', steps') && states < states' && states'[|steps'|] == OneApplied(k)
  {
    var s1 := Next(Idle(k), BeginCreate(k));
    states', steps' := Then(states, steps, BeginCreate(k), s1);
    var s2 := Next(s1, EnterIndex(k));
    states', steps' := Then(states', steps', EnterIndex(k), s2);
    var s3 := Next(s2, EnterTree(k));
    states', steps' := Then(states', steps', EnterTree(k), s3);
    assert s3.creating == map[];
  }

  lemma UpdateKey(k: Key, states: seq<State>, steps: seq<Step>) returns (states': seq<State>, steps': seq<Step>)
    requires Run(states, steps) && states[|steps|] == OneWritten(k)
    ensures Run(states', steps') && states < states' && states'[|steps'|] == TwoApplied(k)
  {
    var s1 := Next(OneWritten(k), Update(k));
    states', steps' := Then(states, steps, Update(k), s1);
    assert s1.listed[k] == {1, 2};
  }

  /** Revision `r` has read the list of watchers and its job is on its way. */
  function Notified(k: Key, r: int): State {
    if r == 1 then OneApplied(k).(applied := {}, jobs := map[1 := {0}], sent := {1})
    else TwoApplied(k).(applied := {}, jobs := map[1 := {0}, 2 := {0}], sent := {2})
  }

  lemma NotifyOne(k: Key, r: int)
    requires 1 <= r <= 2
    ensures var s := if r == 1 then OneApplied(k) else TwoApplied(k);
            Enabled(s, Notify(r)) && Next(s, Notify(r)) == Notified(k, r)
  {
    var s := if r == 1 then OneApplied(k) else TwoApplied(k);
    assert Captured(s, KeyAt(s, r), r) == {0};
  }

  lemma ReceiveOne(k: Key, r: int)
    requires 1 <= r <= 2
    ensures var s := Notified(k, r);
            && Enabled(s, Receive(r)) && Enabled(Next(s, Receive(r)), StoreProgress)
            && Next(Next(s, Receive(r)), StoreProgress) == if r == 1 then OneWritten(k) else TwoWritten(k)
  {
    var s := Notified(k, r);
    assert s.watches == map[0 := Waiting(k, if r == 1 then [] else [1])];
    assert (if r == 1 then [] else [1]) + [r] == if r == 1 then [1] else [1, 2];
    assert Enqueue(s.watches, {0}, r)[0] == Waiting(k, if r == 1 then [1] else [1, 2]);
  }

  /** Revision `r` reads the list of watchers, its job is sent out at once, and progress is stored. */
  lemma SendOut(k: Key, r: int, states: seq<State>, steps: seq<Step>) returns (states': seq<State>, steps': seq<Step>)
    requires Run(states, steps) && states[|steps|] == (if r == 1 then OneApplied(k) else TwoApplied(k)) && 1 <= r <= 2
    ensures Run(states', steps') && states < states'
    ensures states'[|steps'|] == if r == 1 then OneWritten(k) else TwoWritten(k)
  {
    NotifyOne(k, r);
    ReceiveOne(k, r);
    var s1 := Notified(k, r);
    var s2 := Next(s1, Receive(r));
    states', steps' := Then(states, steps, Notify(r), s1);
    states', steps' := Then(states', steps', Receive(r), s2);
    states', steps' := Then(states', steps', StoreProgress, Next(s2, StoreProgress));
  }

  /**
    The finer interleaving that breaks the promise: the channel is found empty, two writes are sent out, and only
    then the progress revision is read. The response names revision 2 while revision 1 is yet to be delivered.
   */
  lemma SplitProgressBreaks(k: Key) returns (states: seq<State>, steps: seq<Step>, i: nat)
    ensures Run(states, steps) && i < |steps|
    ensures 0 in states[i].watches && states[i].watches[0].phase.Streaming? && states[i].watches[0].queue == []
    ensures var s := states[|steps|];
            0 in s.watches && ProgressNow(s, 0) == 2 && s.watches[0].queue == [1, 2]
  {
    states, steps := RunToIdle(k);
    i := |steps|;
    states, steps := CreateKey(k, states, steps);
    states, steps := SendOut(k, 1, states, steps);
    states, steps := UpdateKey(k, states, steps);
    states, steps := SendOut(k, 2, states, steps);
  }
}
