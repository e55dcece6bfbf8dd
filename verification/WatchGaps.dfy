/** Runs in which a watch misses a write that it asks for, and one in which compaction overtakes a watch in vain. */
module WatchGaps {
  import opened Wrappers
  import opened Bytes
  import opened KeyIndex
  import opened WatchSystem
  import opened WatchRuns

  ghost predicate AllChecked(watches: map<nat, Watch>) { forall id :: id in watches ==> watches[id].phase.Checked? }

  /** Nothing is written yet. */
  function Empty(watches: map<nat, Watch>, n: nat): State { Initial().(watches := watches, nextId := n) }

  /** The first write of `k` is visible and has not read the list of watchers. */
  function Created(k: Key, watches: map<nat, Watch>, n: nat): State {
    Empty(watches, n).(log := [k], index := {k}, tree := {k}, listed := map[k := {1}], applied := {1})
  }

  /** It has read the list and found none there. */
  function Told(k: Key, watches: map<nat, Watch>, n: nat): State {
    Created(k, watches, n).(applied := {}, jobs := map[1 := {}], sent := {1})
  }

  /** A second write has read the list as well. */
  function ToldTwice(k: Key, watches: map<nat, Watch>, n: nat): State {
    Told(k, watches, n).(log := [k, k], listed := map[k := {1, 2}], jobs := map[1 := {}, 2 := {}], sent := {1, 2})
  }

  lemma Create(k: Key, watches: map<nat, Watch>, n: nat, states: seq<State>, steps: seq<Step>)
    returns (states': seq<State>, steps': seq<Step>)
    requires Run(states, steps) && states[|steps|] == Empty(watches, n)
    ensures Run(states', steps') && states'[|steps'|] == Created(k, watches, n)
  {
    var s1 := Next(Empty(watches, n), BeginCreate(k));
    states', steps' := Then(states, steps, BeginCreate(k), s1);
    var s2 := Next(s1, EnterIndex(k));
    states', steps' := Then(states', steps', EnterIndex(k), s2);
    var s3 := Next(s2, EnterTree(k));
    states', steps' := Then(states', steps', EnterTree(k), s3);
    assert s3.creating == map[];
  }

  lemma ToldStep(k: Key, watches: map<nat, Watch>, n: nat)
    requires AllChecked(watches)
    ensures var s := Created(k, watches, n); Enabled(s, Notify(1)) && Next(s, Notify(1)) == Told(k, watches, n)
  {
    var s := Created(k, watches, n);
    assert Captured(s, k, 1) == {};
  }

  lemma Tell(k: Key, watches: map<nat, Watch>, n: nat, states: seq<State>, steps: seq<Step>)
    returns (states': seq<State>, steps': seq<Step>)
    requires Run(states, steps) && states[|steps|] == Created(k, watches, n) && AllChecked(watches)
    ensures Run(states', steps') && states'[|steps'|] == Told(k, watches, n)
  {
    ToldStep(k, watches, n);
    states', steps' := Then(states, steps, Notify(1), Told(k, watches, n));
  }

  lemma ToldTwiceSteps(k: Key, watches: map<nat, Watch>, n: nat) returns (s1: State)
    requires AllChecked(watches)
    ensures Enabled(Told(k, watches, n), Update(k)) && Next(Told(k, watches, n), Update(k)) == s1
    ensures Enabled(s1, Notify(2)) && Next(s1, Notify(2)) == ToldTwice(k, watches, n)
  {
    s1 := Next(Told(k, watches, n), Update(k));
    assert s1.listed[k] == {1, 2};
    assert Captured(s1, k, 2) == {};
  }

  lemma TellTwice(k: Key, watches: map<nat, Watch>, n: nat, states: seq<State>, steps: seq<Step>)
    returns (states': seq<State>, steps': seq<Step>)
    requires Run(states, steps) && states[|steps|] == Told(k, watches, n) && AllChecked(watches)
    ensures Run(states', steps') && states'[|steps'|] == ToldTwice(k, watches, n)
  {
    var s1 := ToldTwiceSteps(k, watches, n);
    states', steps' := Then(states, steps, Update(k), s1);
    states', steps' := Then(states', steps', Notify(2), ToldTwice(k, watches, n));
  }

  // ---------------------------------------------------------------- a watch of the past

  /** A watch of `k` from revision 1 on that enters the list after both writes. */
  function Call(k: Key, phase: Phase, overtaken: bool): Watch {
    Watch(1, k, [], true, phase, if phase.Checked? then {} else {1, 2}, map[], {}, [], [], 0, [], overtaken)
  }

  /** The same after the scan of `k` at compaction point `c`. */
  function Done(k: Key, phase: Phase, overtaken: bool, c: int): Watch {
    Call(k, phase, overtaken).(scannedAt := map[k := Scan(c, 2)], past := if c < 1 then {1, 2} else {2})
  }

  /** Both writes are there, and the only watch is `w`. */
  function With(k: Key, compacted: int, w: Watch): State {
    ToldTwice(k, map[0 := w], 1).(compacted := compacted)
  }

  lemma CheckStep(k: Key)
    ensures var s := ToldTwice(k, map[], 0);
            Enabled(s, Check(1, k, [])) && Next(s, Check(1, k, [])) == With(k, 0, Call(k, Checked, false))
  {
  }

  lemma CompactStep(k: Key, w: Watch)
    requires w.from == 1 && !w.phase.Streaming?
    ensures Enabled(With(k, 0, w), Compact(2)) && Next(With(k, 0, w), Compact(2)) == With(k, 1, w.(overtaken := true))
  {
  }

  lemma RegisterStep(k: Key, c: int, o: bool)
    ensures Enabled(With(k, c, Call(k, Checked, o)), Register(0))
    ensures Next(With(k, c, Call(k, Checked, o)), Register(0)) == With(k, c, Call(k, Registered, o))
  {
    assert With(k, c, Call(k, Checked, o)).jobs.Keys == {1, 2};
  }

  lemma ScanStartStep(k: Key, c: int, o: bool)
    ensures Enabled(With(k, c, Call(k, Registered, o)), ScanStart(0))
    ensures Next(With(k, c, Call(k, Registered, o)), ScanStart(0)) == With(k, c, Call(k, Scanning({k}), o))
  {
    var s := With(k, c, Call(k, Registered, o));
    assert Visited(k, [], k);
    assert (set key | key in s.index && Visited(k, [], key)) == {k};
  }

  lemma ScanKeyStep(k: Key, c: int, o: bool)
    requires 0 <= c <= 1
    ensures Enabled(With(k, c, Call(k, Scanning({k}), o)), ScanKey(0, k))
    ensures Next(With(k, c, Call(k, Scanning({k}), o)), ScanKey(0, k)) == With(k, c, Done(k, Scanning({}), o, c))
  {
    var s := With(k, c, Call(k, Scanning({k}), o));
    assert Found(s, s.watches[0], k) == if c < 1 then {1, 2} else {2};
    assert {k} - {k} == {};
    assert {} + Found(s, s.watches[0], k) == Found(s, s.watches[0], k);
  }

  lemma EndStep(k: Key, o: bool, c: int, c': int)
    ensures Enabled(With(k, c', Done(k, Scanning({}), o, c)), ScanEnd(0))
    ensures Next(With(k, c', Done(k, Scanning({}), o, c)), ScanEnd(0)) == With(k, c', Done(k, Streaming, o, c))
  {
  }

  lemma RunToCheck(k: Key) returns (states: seq<State>, steps: seq<Step>)
    ensures Run(states, steps) && states[|steps|] == With(k, 0, Call(k, Checked, false))
  {
    states, steps := [Initial()], [];
    states, steps := Create(k, map[], 0, states, steps);
    states, steps := Tell(k, map[], 0, states, steps);
    states, steps := TellTwice(k, map[], 0, states, steps);
    CheckStep(k);
    states, steps := Then(states, steps, Check(1, k, []), With(k, 0, Call(k, Checked, false)));
  }

  lemma RunScan(k: Key, c: int, o: bool, states: seq<State>, steps: seq<Step>)
    returns (states': seq<State>, steps': seq<Step>)
    requires Run(states, steps) && states[|steps|] == With(k, c, Call(k, Checked, o)) && 0 <= c <= 1
    ensures Run(states', steps') && states'[|steps'|] == With(k, c, Done(k, Scanning({}), o, c))
  {
    RegisterStep(k, c, o);
    ScanStartStep(k, c, o);
    ScanKeyStep(k, c, o);
    states', steps' := Then(states, steps, Register(0), With(k, c, Call(k, Registered, o)));
    states', steps' := Then(states', steps', ScanStart(0), With(k, c, Call(k, Scanning({k}), o)));
    states', steps' := Then(states', steps', ScanKey(0, k), With(k, c, Done(k, Scanning({}), o, c)));
  }

  /**
    A watch from revision 1 on passes the compaction check, then revision 1 is compacted, then the key is scanned: the
    watch is accepted and streams without revision 1.
   */
  lemma CompactionMakesGap(k: Key) returns (states: seq<State>, steps: seq<Step>)
    ensures Run(states, steps)
    ensures var s := states[|steps|];
            && 0 in s.watches && s.watches[0].phase.Streaming? && s.watches[0].replay
            && Covers(s.watches[0].start, s.watches[0].end)
            && 1 in s.jobs && 1 <= |s.log| && Wants(s.watches[0], KeyAt(s, 1), 1)
            && 1 !in s.watches[0].past && 0 !in s.jobs[1]
  {
    states, steps := RunToCheck(k);
    CompactStep(k, Call(k, Checked, false));
    states, steps := Then(states, steps, Compact(2), With(k, 1, Call(k, Checked, true)));
    states, steps := RunScan(k, 1, true, states, steps);
    EndStep(k, true, 1, 1);
    states, steps := Then(states, steps, ScanEnd(0), With(k, 1, Done(k, Streaming, true, 1)));
  }

  /** With the key scanned before the same compaction, the watch is overtaken as well, and misses nothing. */
  lemma OvertakenInVain(k: Key) returns (states: seq<State>, steps: seq<Step>)
    ensures Run(states, steps)
    ensures var s := states[|steps|];
            && 0 in s.watches && s.watches[0].phase.Streaming? && s.watches[0].overtaken && |s.log| == 2
            && forall r :: 1 <= r <= 2 ==> Wants(s.watches[0], KeyAt(s, r), r) && r in s.watches[0].past
  {
    states, steps := RunToCheck(k);
    states, steps := RunScan(k, 0, false, states, steps);
    CompactStep(k, Done(k, Scanning({}), false, 0));
    states, steps := Then(states, steps, Compact(2), With(k, 1, Done(k, Scanning({}), true, 0)));
    EndStep(k, true, 0, 1);
    states, steps := Then(states, steps, ScanEnd(0), With(k, 1, Done(k, Streaming, true, 0)));
  }

  // ---------------------------------------------------------------- a range that the index does not cover

  /** A watch of a range from revision 1 on that enters the list after the write, and finds nothing to scan. */
  function Blind(start: Key, end: Key, phase: Phase): Watch {
    Watch(1, start, end, true, phase, if phase.Checked? then {} else {1}, map[], {}, [], [], 0, [], false)
  }

  function BlindTo(k: Key, start: Key, end: Key, phase: Phase): State { Told(k, map[0 := Blind(start, end, phase)], 1) }

  lemma BlindCall(k: Key, start: Key, end: Key)
    requires WindowOf(start, end).Ok?
    ensures var s := Told(k, map[], 0);
            Enabled(s, Check(1, start, end)) && Next(s, Check(1, start, end)) == BlindTo(k, start, end, Checked)
    ensures var s := BlindTo(k, start, end, Checked);
            Enabled(s, Register(0)) && Next(s, Register(0)) == BlindTo(k, start, end, Registered)
  {
    assert BlindTo(k, start, end, Checked).jobs.Keys == {1};
  }

  lemma BlindScan(k: Key, start: Key, end: Key)
    requires WindowOf(start, end).Ok? && !Visited(start, end, k)
    ensures var s := BlindTo(k, start, end, Registered);
            Enabled(s, ScanStart(0)) && Next(s, ScanStart(0)) == BlindTo(k, start, end, Scanning({}))
    ensures var s := BlindTo(k, start, end, Scanning({}));
            Enabled(s, ScanEnd(0)) && Next(s, ScanEnd(0)) == BlindTo(k, start, end, Streaming)
  {
    var s := BlindTo(k, start, end, Registered);
    assert (set key | key in s.index && Visited(start, end, key)) == {};
  }

  /** For every accepted range that the index does not cover, a watch of it that streams without a write in it. */
  lemma UncoveredMakesGap(start: Key, end: Key) returns (states: seq<State>, steps: seq<Step>)
    requires WindowOf(start, end).Ok? && !Covers(start, end)
    ensures Run(states, steps)
    ensures var s := states[|steps|];
            && 0 in s.watches && s.watches[0].phase.Streaming? && s.watches[0].replay && !s.watches[0].overtaken
            && s.watches[0].start == start && s.watches[0].end == end
            && 1 in s.jobs && 1 <= |s.log| && Wants(s.watches[0], KeyAt(s, 1), 1)
            && 1 !in s.watches[0].past && 0 !in s.jobs[1]
  {
    var k := MissedKey(start, end);
    BlindCall(k, start, end);
    BlindScan(k, start, end);
    states, steps := [Initial()], [];
    states, steps := Create(k, map[], 0, states, steps);
    states, steps := Tell(k, map[], 0, states, steps);
    states, steps := Then(states, steps, Check(1, start, end), BlindTo(k, start, end, Checked));
    states, steps := Then(states, steps, Register(0), BlindTo(k, start, end, Registered));
    states, steps := Then(states, steps, ScanStart(0), BlindTo(k, start, end, Scanning({})));
    states, steps := Then(states, steps, ScanEnd(0), BlindTo(k, start, end, Streaming));
  }

  // ---------------------------------------------------------------- a watch from now on

  /** A watch of `k` without a start revision, before anything is written. */
  function Live(k: Key): Watch { Watch(0, k, [], false, Checked, {}, map[], {}, [], [], 0, [], false) }

  lemma LiveSteps(k: Key)
    ensures Enabled(Initial(), Check(0, k, [])) && Next(Initial(), Check(0, k, [])) == Empty(map[0 := Live(k)], 1)
    ensures var s := Told(k, map[0 := Live(k)], 1);
            && Enabled(s, Register(0))
            && Next(s, Register(0)) == s.(watches := map[0 := Live(k).(phase := Streaming, before := {1})])
  {
    var s := Told(k, map[0 := Live(k)], 1);
    assert s.jobs.Keys == {1};
  }

  /** A watch from now on reads the current revision, and enters the list only after a later write has read it. */
  lemma LateEntryMakesGap(k: Key) returns (states: seq<State>, steps: seq<Step>)
    ensures Run(states, steps)
    ensures var s := states[|steps|];
            && 0 in s.watches && s.watches[0].phase.Streaming? && !s.watches[0].replay
            && 1 in s.jobs && 1 <= |s.log| && Wants(s.watches[0], KeyAt(s, 1), 1)
            && 1 !in s.watches[0].past && 0 !in s.jobs[1]
  {
    LiveSteps(k);
    var watches := map[0 := Live(k)];
    states, steps := [Initial()], [];
    states, steps := Then(states, steps, Check(0, k, []), Empty(watches, 1));
    states, steps := Create(k, watches, 1, states, steps);
    states, steps := Tell(k, watches, 1, states, steps);
    var s := Told(k, watches, 1);
    states, steps := Then(states, steps, Register(0), Next(s, Register(0)));
  }

  // ---------------------------------------------------------------- a write that comes twice

  /** A watch of `k` from revision 1 on that is in the list before anything is written. */
  function Early(k: Key, phase: Phase, past: set<int>): Watch {
    Watch(1, k, [], true, phase, {}, if past == {} then map[] else map[k := Scan(0, 1)], past, [], [], 0, [], false)
  }

  /** The first write of `k` has found the watch in the list. */
  function ToldTo(k: Key, w: Watch): State {
    Created(k, map[0 := w], 1).(applied := {}, jobs := map[1 := {0}], sent := {1})
  }

  lemma EarlySteps(k: Key)
    ensures var s := Empty(map[0 := Early(k, Checked, {})], 1);
            && Enabled(Initial(), Check(1, k, [])) && Next(Initial(), Check(1, k, [])) == s
            && Enabled(s, Register(0)) && Next(s, Register(0)) == Empty(map[0 := Early(k, Registered, {})], 1)
  {
    assert Empty(map[0 := Early(k, Checked, {})], 1).jobs.Keys == {};
  }

  lemma ToldToStep(k: Key)
    ensures var s := Created(k, map[0 := Early(k, Registered, {})], 1);
            Enabled(s, Notify(1)) && Next(s, Notify(1)) == ToldTo(k, Early(k, Registered, {}))
  {
    var s := Created(k, map[0 := Early(k, Registered, {})], 1);
    assert Captured(s, k, 1) == {0};
  }

  lemma EarlyScan(k: Key)
    ensures var s := ToldTo(k, Early(k, Registered, {}));
            Enabled(s, ScanStart(0)) && Next(s, ScanStart(0)) == ToldTo(k, Early(k, Scanning({k}), {}))
  {
    var s := ToldTo(k, Early(k, Registered, {}));
    assert Visited(k, [], k);
    assert (set key | key in s.index && Visited(k, [], key)) == {k};
  }

  lemma EarlyFind(k: Key)
    ensures var s := ToldTo(k, Early(k, Scanning({k}), {}));
            Enabled(s, ScanKey(0, k)) && Next(s, ScanKey(0, k)) == ToldTo(k, Early(k, Scanning({}), {1}))
    ensures var s := ToldTo(k, Early(k, Scanning({}), {1}));
            Enabled(s, ScanEnd(0)) && Next(s, ScanEnd(0)) == ToldTo(k, Early(k, Streaming, {1}))
  {
    var s := ToldTo(k, Early(k, Scanning({k}), {}));
    assert Found(s, s.watches[0], k) == {1};
    assert {k} - {k} == {} && {} + Found(s, s.watches[0], k) == {1};
  }

  /** A write finds the watch in the list, and the scan finds the write: it comes as past change and as event. */
  lemma WriteComesTwice(k: Key) returns (states: seq<State>, steps: seq<Step>)
    ensures Run(states, steps)
    ensures var s := states[|steps|];
            && 0 in s.watches && s.watches[0].phase.Streaming? && !s.watches[0].overtaken
            && 1 in s.jobs && 1 in s.watches[0].past && 0 in s.jobs[1]
  {
    EarlySteps(k);
    states, steps := [Initial()], [];
    states, steps := Then(states, steps, Check(1, k, []), Empty(map[0 := Early(k, Checked, {})], 1));
    states, steps := Then(states, steps, Register(0), Empty(map[0 := Early(k, Registered, {})], 1));
    states, steps := Create(k, map[0 := Early(k, Registered, {})], 1, states, steps);
    ToldToStep(k);
    states, steps := Then(states, steps, Notify(1), ToldTo(k, Early(k, Registered, {})));
    EarlyScan(k);
    states, steps := Then(states, steps, ScanStart(0), ToldTo(k, Early(k, Scanning({k}), {})));
    EarlyFind(k);
    states, steps := Then(states, steps, ScanKey(0, k), ToldTo(k, Early(k, Scanning({}), {1})));
    states, steps := Then(states, steps, ScanEnd(0), ToldTo(k, Early(k, Streaming, {1})));
  }
}
