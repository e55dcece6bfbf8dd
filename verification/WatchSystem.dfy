/**
  Writers, the notification thread and watch streams, interleaved step by step. A write gets its revision, becomes
  visible in the key's item, and only then reads the list of watchers; a watch enters that list and only then scans
  the items for the past. Jobs reach the notification thread in any order.
 */
module WatchSystem {
  import opened Wrappers
  import opened Integers
  import opened Bytes
  import opened KeyIndex

  /** A call of watch: past the compaction check, in the list of watchers, scanning, with keys left, or streaming. */
  datatype Phase = Checked | Registered | Scanning(todo: set<Key>) | Streaming

  /** A progress response: the revision it names, and how many events had been delivered before it. */
  datatype Report = Report(rev: int, after: nat)

  datatype Scan = Scan(compacted: int, revision: int)

  datatype Watch = Watch(
    from: int,
    start: Key,
    end: Key,
    /** Whether the past is asked for. */
    replay: bool,
    phase: Phase,
    /** The revisions that had read the list of watchers when the watch entered it. */
    before: set<int>,
    /** The keys scanned so far, each with the compaction point and the latest revision at that moment. */
    scannedAt: map<Key, Scan>,
    past: set<int>,
    queue: seq<int>,
    delivered: seq<int>,
    maxEvent: int,
    reports: seq<Report>,
    /** A compaction has passed the start revision while the call was under way. */
    overtaken: bool)

  datatype State = State(
    /** The key written by each revision, from revision 1 on. */
    log: seq<Key>,
    /** Keys whose first write is under way, with its revision. */
    creating: map<Key, int>,
    index: set<Key>,
    tree: set<Key>,
    /** The revisions listed in each item. */
    listed: map<Key, set<int>>,
    compacted: int,
    /** Revisions that are visible but have not read the list of watchers yet. */
    applied: set<int>,
    /** For each other revision, the watchers it is for. */
    jobs: map<int, set<nat>>,
    /** Jobs on their way to the notification thread. */
    sent: set<int>,
    nextRev: int,
    spool: set<int>,
    draining: bool,
    progressRev: int,
    watches: map<nat, Watch>,
    nextId: nat)

  datatype Step =
    | BeginCreate(key: Key)
    | EnterIndex(key: Key)
    | EnterTree(key: Key)
    | Update(key: Key)
    | Notify(rev: int)
    | Receive(rev: int)
    | Drain
    | StoreProgress
    | Compact(rev: int)
    | Check(rev: int, start: Key, end: Key)
    | Register(id: nat)
    | ScanStart(id: nat)
    | ScanKey(id: nat, key: Key)
    | ScanEnd(id: nat)
    | Deliver(id: nat, count: nat)
    | Progress(id: nat)
    | Unwatch(id: nat)

  function KeyAt(s: State, r: int): Key
    requires 0 < r <= |s.log|
  {
    s.log[r - 1]
  }

  /** The job at the top of the spool is the next one. */
  predicate NextIsSpooled(s: State) {
    s.nextRev in s.spool && forall r :: r in s.spool ==> s.nextRev <= r
  }

  ghost predicate Enabled(s: State, step: Step) {
    match step
    case BeginCreate(k) => k !in s.tree && k !in s.creating
    case EnterIndex(k) => k in s.creating && k !in s.index
    case EnterTree(k) => k in s.creating && k in s.index
    case Update(k) => k in s.tree && k in s.listed
    case Notify(r) => r in s.applied && 0 < r <= |s.log|
    case Receive(r) => r in s.sent && !s.draining && r in s.jobs
    case Drain => s.draining && NextIsSpooled(s) && s.nextRev in s.jobs
    case StoreProgress => s.draining && !NextIsSpooled(s)
    case Compact(c) => 1 <= c <= |s.log| && c - 1 >= s.compacted
    case Check(rev, start, end) => rev > 0 ==> s.compacted < rev && WindowOf(start, end).Ok?
    case Register(id) => id in s.watches && s.watches[id].phase.Checked?
    case ScanStart(id) =>
      id in s.watches && s.watches[id].phase.Registered? && WindowOf(s.watches[id].start, s.watches[id].end).Ok?
    case ScanKey(id, k) =>
      id in s.watches && s.watches[id].phase.Scanning? && k in s.watches[id].phase.todo && k in s.listed
    case ScanEnd(id) => id in s.watches && s.watches[id].phase == Scanning({})
    case Deliver(id, n) =>
      id in s.watches && s.watches[id].phase.Streaming? && 0 < n <= 1000 && n <= |s.watches[id].queue|
    case Progress(id) => id in s.watches && s.watches[id].phase.Streaming? && s.watches[id].queue == []
    case Unwatch(id) => id in s.watches
  }

  /** The watch is in the list of watchers, and the write is for it. */
  predicate Matches(w: Watch, k: Key, r: int) {
    !w.phase.Checked? && w.from <= r && InRange(w.start, w.end, k)
  }

  /** The watchers that a write of `k` at revision `r` is for. */
  function Captured(s: State, k: Key, r: int): set<nat> {
    set id | id in s.watches && Matches(s.watches[id], k, r)
  }

  function Enqueue(watches: map<nat, Watch>, ids: set<nat>, r: int): map<nat, Watch> {
    map id | id in watches :: if id in ids then watches[id].(queue := watches[id].queue + [r]) else watches[id]
  }

  /** The notification thread sends out a job and counts up. */
  function Dispatch(s: State, r: int): State
    requires r in s.jobs
  {
    s.(watches := Enqueue(s.watches, s.jobs[r], r), nextRev := s.nextRev + 1, spool := s.spool - {r}, draining := true)
  }

  function Overtake(watches: map<nat, Watch>, c: int): map<nat, Watch> {
    map id | id in watches ::
      if !watches[id].phase.Streaming? && watches[id].from <= c then watches[id].(overtaken := true) else watches[id]
  }

  function Found(s: State, w: Watch, k: Key): set<int>
    requires k in s.listed
  {
    set r | r in s.listed[k] && w.from <= r && s.compacted < r
  }

  /** A watch without a start revision begins at the latest one. */
  function NewWatch(s: State, rev: int, start: Key, end: Key): Watch {
    Watch(if rev > 0 then rev else |s.log|, start, end, rev > 0, Checked, {}, map[], {}, [], [], 0, [], false)
  }

  /** The watch is now in the list of watchers; if the past is not asked for, that is all. */
  function Entered(w: Watch, before: set<int>): Watch {
    w.(phase := if w.replay then Registered else Streaming, before := before)
  }

  ghost function Next(s: State, step: Step): State
    requires Enabled(s, step)
  {
    var n := |s.log| + 1;
    match step
    case BeginCreate(k) => s.(log := s.log + [k], creating := s.creating[k := n])
    case EnterIndex(k) => s.(index := s.index + {k}, listed := s.listed[k := {s.creating[k]}])
    case EnterTree(k) =>
      s.(tree := s.tree + {k}, creating := s.creating - {k}, applied := s.applied + {s.creating[k]})
    case Update(k) =>
      s.(log := s.log + [k], applied := s.applied + {n},
         listed := s.listed[k := (set r | r in s.listed[k] && s.compacted <= r) + {n}])
    case Notify(r) =>
      s.(applied := s.applied - {r}, jobs := s.jobs[r := Captured(s, KeyAt(s, r), r)], sent := s.sent + {r})
    case Receive(r) =>
      var s1 := s.(sent := s.sent - {r});
      if r > s.nextRev then s1.(spool := s.spool + {r}) else Dispatch(s1, r)
    case Drain => Dispatch(s, s.nextRev)
    case StoreProgress => s.(progressRev := s.nextRev - 1, draining := false)
    case Compact(c) => s.(compacted := c - 1, watches := Overtake(s.watches, c - 1))
    case Check(rev, start, end) =>
      s.(watches := s.watches[s.nextId := NewWatch(s, rev, start, end)], nextId := s.nextId + 1)
    case Register(id) => s.(watches := s.watches[id := Entered(s.watches[id], s.jobs.Keys)])
    case ScanStart(id) =>
      var w := s.watches[id];
      s.(watches := s.watches[id := w.(phase := Scanning(set k | k in s.index && Visited(w.start, w.end, k)))])
    case ScanKey(id, k) =>
      var w := s.watches[id];
      s.(watches := s.watches[id := w.(phase := Scanning(w.phase.todo - {k}), past := w.past + Found(s, w, k),
                                       scannedAt := w.scannedAt[k := Scan(s.compacted, |s.log|)])])
    case ScanEnd(id) => s.(watches := s.watches[id := s.watches[id].(phase := Streaming)])
    case Deliver(id, m) =>
      var w := s.watches[id];
      s.(watches := s.watches[id := w.(queue := w.queue[m..], delivered := w.delivered + w.queue[..m],
                                       maxEvent := Max(w.queue[m - 1], w.maxEvent))])
    case Progress(id) =>
      var w := s.watches[id];
      s.(watches := s.watches[id := w.(reports := w.reports + [Report(Max(s.progressRev, w.maxEvent), |w.delivered|)])])
    case Unwatch(id) => s.(watches := s.watches - {id})
  }

  function Initial(): State {
    State([], map[], {}, {}, map[], 0, {}, map[], {}, 1, {}, false, 0, map[], 0)
  }

  // ---------------------------------------------------------------- where each revision is

  /** The revision is the first write of its key and still under way. */
  predicate Making(s: State, r: int) {
    0 < r <= |s.log| && KeyAt(s, r) in s.creating && s.creating[KeyAt(s, r)] == r
  }

  /** The revision is visible in the items. */
  predicate Visible(s: State, r: int) { r in s.applied || r in s.jobs }

  /** Every revision is in exactly one place: under way, applied, or a job. */
  ghost predicate Placed(s: State) {
    && (forall r {:trigger Visible(s, r)} :: Visible(s, r) ==> 0 < r <= |s.log| && !Making(s, r))
    && (forall r {:trigger Visible(s, r)} :: 0 < r <= |s.log| ==> Visible(s, r) || Making(s, r))
    && (forall r :: r in s.applied ==> r !in s.jobs)
    && (forall k :: k in s.creating ==> 0 < s.creating[k] <= |s.log| && KeyAt(s, s.creating[k]) == k)
  }

  /** The job is on its way, spooled, or already sent out. */
  ghost predicate InPipe(s: State, r: int) {
    if r < s.nextRev then r !in s.sent && r !in s.spool else (r in s.sent) != (r in s.spool)
  }

  /** Every job is in exactly one stage of the pipe, and everything before `nextRev` has been sent out. */
  ghost predicate Piped(s: State) {
    && 0 < s.nextRev && 0 <= s.progressRev < s.nextRev
    && (forall r :: r in s.jobs ==> InPipe(s, r))
    && (forall r :: r in s.sent || r in s.spool || 0 < r < s.nextRev ==> r in s.jobs)
    && (!s.draining ==> s.nextRev !in s.spool && s.progressRev == s.nextRev - 1)
  }

  /** Every visible revision is in the index under its key, and listed unless it lies below the compaction point. */
  ghost predicate VisibleListed(s: State) {
    forall r {:trigger Visible(s, r)} :: Visible(s, r) && 0 < r <= |s.log| ==>
      var k := KeyAt(s, r); k in s.tree && k in s.listed && (s.compacted <= r ==> r in s.listed[k])
  }

  /** The maps of keys agree with each other and with the log. */
  ghost predicate Listed(s: State) {
    && VisibleListed(s)
    && (forall k :: k in s.tree ==> k in s.index && k !in s.creating)
    && (forall k :: k in s.index <==> k in s.listed)
    && (forall k, r {:trigger r in s.listed[k]} ::
          k in s.listed && r in s.listed[k] ==> 0 < r <= |s.log| && KeyAt(s, r) == k)
    && (forall k :: k in s.index ==> k in s.tree || k in s.creating)
    && (forall k :: k in s.index && k in s.creating ==> s.listed[k] == {s.creating[k]})
  }

  /** The steps that move a revision from one place to the next. */
  predicate Moves(step: Step) {
    step.BeginCreate? || step.EnterIndex? || step.EnterTree? || step.Update? || step.Notify?
  }

  lemma KeepsPlaced(s: State, step: Step)
    requires Placed(s) && Listed(s) && Enabled(s, step)
    ensures Placed(Next(s, step))
  {
    var s' := Next(s, step);
    if Moves(step) {
      MoveKeepsPlaced(s, step);
    } else {
      SamePlaced(s, s');
    }
  }

  lemma SamePlaced(s: State, s': State)
    requires Placed(s) && s'.log == s.log && s'.creating == s.creating && s'.applied == s.applied && s'.jobs == s.jobs
    ensures Placed(s')
  {
    assert forall r :: Visible(s', r) == Visible(s, r);
  }

  lemma MoveKeepsPlaced(s: State, step: Step)
    requires Placed(s) && Listed(s) && Enabled(s, step) && Moves(step)
    ensures Placed(Next(s, step))
  {
    match step
    case BeginCreate(k) => BeginKeepsPlaced(s, k);
    case EnterIndex(k) => SamePlaced(s, Next(s, EnterIndex(k)));
    case EnterTree(k) => EnterKeepsPlaced(s, k);
    case Update(k) => UpdateKeepsPlaced(s, k);
    case Notify(r) => NotifyKeepsPlaced(s, r);
  }

  lemma BeginKeepsPlaced(s: State, k: Key)
    requires Placed(s) && Enabled(s, BeginCreate(k))
    ensures Placed(Next(s, BeginCreate(k)))
  {
    var s' := Next(s, BeginCreate(k));
    assert !Visible(s, |s.log| + 1);
    forall r
      ensures Visible(s', r) ==> 0 < r <= |s'.log| && !Making(s', r)
      ensures 0 < r <= |s'.log| ==> Visible(s', r) || Making(s', r)
    {
      assert Visible(s', r) == Visible(s, r);
    }
  }

  lemma EnterKeepsPlaced(s: State, k: Key)
    requires Placed(s) && Enabled(s, EnterTree(k))
    ensures Placed(Next(s, EnterTree(k)))
  {
    var s', n := Next(s, EnterTree(k)), s.creating[k];
    assert Making(s, n) && !Visible(s, n);
    forall r
      ensures Visible(s', r) ==> 0 < r <= |s'.log| && !Making(s', r)
      ensures 0 < r <= |s'.log| ==> Visible(s', r) || Making(s', r)
    {
      assert Visible(s', r) == (Visible(s, r) || r == n);
    }
  }

  lemma UpdateKeepsPlaced(s: State, k: Key)
    requires Placed(s) && Listed(s) && Enabled(s, Update(k))
    ensures Placed(Next(s, Update(k)))
  {
    var s', n := Next(s, Update(k)), |s.log| + 1;
    assert !Visible(s, n) && k !in s.creating;
    forall r
      ensures Visible(s', r) ==> 0 < r <= |s'.log| && !Making(s', r)
      ensures 0 < r <= |s'.log| ==> Visible(s', r) || Making(s', r)
    {
      assert Visible(s', r) == (Visible(s, r) || r == n);
    }
  }

  lemma NotifyKeepsPlaced(s: State, n: int)
    requires Placed(s) && Enabled(s, Notify(n))
    ensures Placed(Next(s, Notify(n)))
  {
    var s' := Next(s, Notify(n));
    forall r
      ensures Visible(s', r) ==> 0 < r <= |s'.log| && !Making(s', r)
      ensures 0 < r <= |s'.log| ==> Visible(s', r) || Making(s', r)
    {
      assert Visible(s', r) == Visible(s, r);
    }
  }

  lemma KeepsPiped(s: State, step: Step)
    requires Piped(s) && Placed(s) && Enabled(s, step)
    ensures Piped(Next(s, step))
  {
    if step.Notify? {
      NotifyKeepsPiped(s, step.rev);
    } else if step.Receive? {
      ReceiveKeepsPiped(s, step.rev);
    }
  }

  lemma NotifyKeepsPiped(s: State, r: int)
    requires Piped(s) && Placed(s) && Enabled(s, Notify(r))
    ensures Piped(Next(s, Notify(r)))
  {
    assert Visible(s, r) && s.nextRev <= r;
    assert r !in s.sent && r !in s.spool;
  }

  lemma ReceiveKeepsPiped(s: State, r: int)
    requires Piped(s) && Placed(s) && Enabled(s, Receive(r))
    ensures Piped(Next(s, Receive(r)))
  {
    assert InPipe(s, r) && s.nextRev <= r && r !in s.spool;
  }

  lemma KeepsListed(s: State, step: Step)
    requires Listed(s) && Placed(s) && Enabled(s, step)
    ensures Listed(Next(s, step))
  {
    var s' := Next(s, step);
    if Moves(step) {
      MoveKeepsListed(s, step);
    } else {
      SameListed(s, s');
    }
  }

  lemma SameListed(s: State, s': State)
    requires Listed(s) && s'.log == s.log && s'.creating == s.creating && s'.applied == s.applied && s'.jobs == s.jobs
    requires s'.index == s.index && s'.tree == s.tree && s'.listed == s.listed && s.compacted <= s'.compacted
    ensures Listed(s')
  {
    assert forall r :: Visible(s', r) == Visible(s, r);
  }

  lemma MoveKeepsListed(s: State, step: Step)
    requires Listed(s) && Placed(s) && Enabled(s, step) && Moves(step)
    ensures Listed(Next(s, step))
  {
    match step
    case BeginCreate(k) => BeginKeepsListed(s, k);
    case EnterIndex(k) => IndexKeepsListed(s, k);
    case EnterTree(k) => EnterKeepsListed(s, k);
    case Update(k) => UpdateKeepsListed(s, k);
    case Notify(r) => NotifyKeepsListed(s, r);
  }

  lemma BeginKeepsListed(s: State, k: Key)
    requires Listed(s) && Placed(s) && Enabled(s, BeginCreate(k))
    ensures Listed(Next(s, BeginCreate(k)))
  {
    var s' := Next(s, BeginCreate(k));
    assert forall r :: Visible(s', r) == Visible(s, r);
    assert forall r :: Visible(s, r) ==> r <= |s.log|;
  }

  lemma IndexKeepsListed(s: State, k: Key)
    requires Listed(s) && Placed(s) && Enabled(s, EnterIndex(k))
    ensures Listed(Next(s, EnterIndex(k)))
  {
    var s' := Next(s, EnterIndex(k));
    assert forall r :: Visible(s', r) == Visible(s, r);
  }

  lemma EnterKeepsListed(s: State, k: Key)
    requires Listed(s) && Placed(s) && Enabled(s, EnterTree(k))
    ensures Listed(Next(s, EnterTree(k)))
  {
    var s', n := Next(s, EnterTree(k)), s.creating[k];
    assert s.listed[k] == {n};
    assert forall r :: Visible(s', r) == (Visible(s, r) || r == n);
  }

  lemma UpdateKeepsVisible(s: State, k: Key)
    requires VisibleListed(s) && Placed(s) && Enabled(s, Update(k))
    ensures VisibleListed(Next(s, Update(k)))
  {
    var s', n := Next(s, Update(k)), |s.log| + 1;
    assert forall r :: Visible(s', r) == (Visible(s, r) || r == n);
    assert forall r :: Visible(s, r) ==> r <= |s.log|;
  }

  lemma UpdateKeepsListed(s: State, k: Key)
    requires Listed(s) && Placed(s) && Enabled(s, Update(k))
    ensures Listed(Next(s, Update(k)))
  {
    UpdateKeepsVisible(s, k);
  }

  lemma NotifyKeepsListed(s: State, n: int)
    requires Listed(s) && Placed(s) && Enabled(s, Notify(n))
    ensures Listed(Next(s, Notify(n)))
  {
    var s' := Next(s, Notify(n));
    assert forall r :: Visible(s', r) == Visible(s, r);
  }

  // ---------------------------------------------------------------- no gaps

  /** The watch asks for a write of `k` at revision `r`. */
  predicate Wants(w: Watch, k: Key, r: int) { w.from <= r && InRange(w.start, w.end, k) }

  /** The key of the write was scanned after the write had its revision and before it was compacted. */
  predicate ScannedInTime(s: State, w: Watch, r: int)
    requires 0 < r <= |s.log|
  {
    KeyAt(s, r) in w.scannedAt && w.scannedAt[KeyAt(s, r)].compacted < r <= w.scannedAt[KeyAt(s, r)].revision
  }

  /** The scan of the key is yet to come or done. */
  predicate Scheduled(w: Watch, k: Key) {
    match w.phase
    case Checked => true
    case Registered => true
    case Scanning(todo) => k in todo || k in w.scannedAt
    case Streaming => k in w.scannedAt
  }

  /** The past is asked for and the scan comes to this key. */
  predicate Scans(w: Watch, k: Key) { w.replay && WindowOf(w.start, w.end).Ok? && Visited(w.start, w.end, k) }

  /** A job is for the watch if it is asked for, unless it was made before, and then the scan comes to its key. */
  ghost predicate JobCaught(s: State, id: nat, w: Watch, r: int)
    requires r in s.jobs && 0 < r <= |s.log|
  {
    var k := KeyAt(s, r);
    && (id in s.jobs[r] <==> Wants(w, k, r) && !w.phase.Checked? && r !in w.before)
    && (Wants(w, k, r) && r in w.before && Scans(w, k) ==> Scheduled(w, k))
  }

  ghost predicate JobsCaught(s: State, id: nat, w: Watch) {
    forall r {:trigger r in s.jobs} :: r in s.jobs && 0 < r <= |s.log| ==> JobCaught(s, id, w, r)
  }

  /** Nothing is scanned before the scan begins, and no key twice. */
  ghost predicate ScanInOrder(w: Watch) {
    && (w.replay ==> WindowOf(w.start, w.end).Ok?)
    && (w.phase.Checked? || w.phase.Registered? || !w.replay ==> w.scannedAt == map[] && w.past == {})
    && (forall k :: k in w.scannedAt ==> Scans(w, k))
    && (w.phase.Registered? || w.phase.Scanning? ==> w.replay)
    && (w.phase.Scanning? ==> forall k :: k in w.phase.todo ==> Scans(w, k) && k !in w.scannedAt)
  }

  /** Without a compaction beyond the start revision during the call every key is scanned in time. */
  ghost predicate NotOvertaken(s: State, w: Watch) {
    w.replay && !w.overtaken ==>
      && (!w.phase.Streaming? ==> s.compacted < w.from)
      && (forall k :: k in w.scannedAt ==> w.scannedAt[k].compacted < w.from)
  }

  /** The write is asked for, and the scan came in time. */
  predicate InPast(s: State, w: Watch, r: int) {
    0 < r <= |s.log| && ScannedInTime(s, w, r) && Wants(w, KeyAt(s, r), r)
  }

  /** The past changes are exactly these writes, and every job made before has its revision when a key is scanned. */
  ghost predicate PastScanned(s: State, w: Watch) {
    && (forall r {:trigger r in w.past} {:trigger InPast(s, w, r)} :: r in w.past <==> InPast(s, w, r))
    && (forall k :: k in w.scannedAt ==> w.scannedAt[k].revision <= |s.log|)
    && (forall k, r :: k in w.scannedAt && r in w.before ==> r <= w.scannedAt[k].revision)
  }

  ghost predicate NoGap(s: State, id: nat, w: Watch) {
    && (forall r :: r in w.before ==> r in s.jobs)
    && ScanInOrder(w) && NotOvertaken(s, w) && PastScanned(s, w) && JobsCaught(s, id, w)
  }

  ghost predicate GapFree(s: State) {
    forall id :: id in s.watches ==> NoGap(s, id, s.watches[id])
  }

  /** The part of a watch that is about the past. */
  predicate SamePast(w: Watch, w': Watch) {
    && w'.from == w.from && w'.start == w.start && w'.end == w.end && w'.replay == w.replay
    && w'.phase == w.phase && w'.before == w.before && w'.scannedAt == w.scannedAt && w'.past == w.past
    && w'.overtaken == w.overtaken
  }

  lemma SameGap(s: State, s': State, id: nat, w: Watch, w': Watch)
    requires NoGap(s, id, w) && SamePast(w, w') && Placed(s)
    requires s.log <= s'.log && s'.jobs == s.jobs && s'.compacted == s.compacted
    ensures NoGap(s', id, w')
  {
    forall r | r in s'.jobs && 0 < r <= |s'.log| ensures JobCaught(s', id, w', r) {
      assert Visible(s, r);
      assert JobCaught(s, id, w, r);
    }
  }

  lemma NotifyNoGap(s: State, r: int, id: nat)
    requires GapFree(s) && Placed(s) && Enabled(s, Notify(r)) && id in s.watches
    ensures NoGap(Next(s, Notify(r)), id, s.watches[id])
  {
    var s', w := Next(s, Notify(r)), s.watches[id];
    assert NoGap(s, id, w);
    forall q | q in s'.jobs && 0 < q <= |s'.log| ensures JobCaught(s', id, w, q) {
      if q != r {
        assert JobCaught(s, id, w, q);
      } else {
        assert r !in w.before;
      }
    }
  }

  /** What is known of the jobs depends on the watch's past alone. */
  lemma SameJobs(s: State, s': State, id: nat, w: Watch, w': Watch)
    requires JobsCaught(s, id, w) && PastScanned(s, w) && SamePast(w.(overtaken := w'.overtaken), w')
    requires s'.log == s.log && s'.jobs == s.jobs
    ensures JobsCaught(s', id, w') && PastScanned(s', w')
  {
    forall r | r in s'.jobs && 0 < r <= |s'.log| ensures JobCaught(s', id, w', r) {
      assert JobCaught(s, id, w, r);
    }
  }

  lemma CompactNoGap(s: State, c: int, id: nat)
    requires GapFree(s) && Enabled(s, Compact(c)) && id in s.watches
    ensures var s' := Next(s, Compact(c)); id in s'.watches && NoGap(s', id, s'.watches[id])
  {
    var s' := Next(s, Compact(c));
    assert NoGap(s, id, s.watches[id]);
    CompactedNoGap(s, s', id, s.watches[id], s'.watches[id]);
  }

  lemma CompactedNoGap(s: State, s': State, id: nat, w: Watch, w': Watch)
    requires NoGap(s, id, w) && w' == w.(overtaken := w'.overtaken) && s'.log == s.log && s'.jobs == s.jobs
    requires !w'.overtaken ==> !w.overtaken && (w.phase.Streaming? || s'.compacted < w.from)
    ensures NoGap(s', id, w')
  {
    SameJobs(s, s', id, w, w');
  }

  lemma RegisterNoGap(s: State, id: nat)
    requires GapFree(s) && Enabled(s, Register(id))
    ensures var s' := Next(s, Register(id)); NoGap(s', id, s'.watches[id])
  {
    var s' := Next(s, Register(id));
    var w, w' := s.watches[id], s'.watches[id];
    assert NoGap(s, id, w);
    forall r | r in s'.jobs && 0 < r <= |s'.log| ensures JobCaught(s', id, w', r) {
      assert JobCaught(s, id, w, r);
    }
  }

  lemma ScanStartJobs(s: State, s': State, id: nat, w: Watch, w': Watch)
    requires JobsCaught(s, id, w) && Placed(s) && Listed(s) && w.phase.Registered? && w.scannedAt == map[]
    requires WindowOf(w.start, w.end).Ok?
    requires w' == w.(phase := Scanning(set k | k in s.index && Visited(w.start, w.end, k)))
    requires s'.log == s.log && s'.jobs == s.jobs
    ensures JobsCaught(s', id, w')
  {
    forall r | r in s'.jobs && 0 < r <= |s'.log| ensures JobCaught(s', id, w', r) {
      assert Visible(s, r);
      assert JobCaught(s, id, w, r);
    }
  }

  lemma ScanStartNoGap(s: State, id: nat)
    requires GapFree(s) && Placed(s) && Listed(s) && Enabled(s, ScanStart(id))
    ensures var s' := Next(s, ScanStart(id)); NoGap(s', id, s'.watches[id])
  {
    var s' := Next(s, ScanStart(id));
    assert NoGap(s, id, s.watches[id]);
    ScanStartJobs(s, s', id, s.watches[id], s'.watches[id]);
  }

  lemma ScanKeyJobs(s: State, s': State, id: nat, w: Watch, w': Watch, k: Key)
    requires JobsCaught(s, id, w) && Placed(s) && Listed(s) && w.phase.Scanning? && k in s.listed
    requires k !in w.scannedAt
    requires w' == w.(phase := Scanning(w.phase.todo - {k}), past := w.past + Found(s, w, k),
                      scannedAt := w.scannedAt[k := Scan(s.compacted, |s.log|)])
    requires s'.log == s.log && s'.jobs == s.jobs
    ensures JobsCaught(s', id, w')
  {
    forall r | r in s'.jobs && 0 < r <= |s'.log| ensures JobCaught(s', id, w', r) {
      assert Visible(s, r);
      assert JobCaught(s, id, w, r);
    }
  }

  /** All writes of a key that is in the index are listed, unless they are compacted. */
  lemma WritesAreListed(s: State, k: Key, r: int)
    requires Placed(s) && Listed(s) && k in s.listed && s.compacted < r
    ensures r in s.listed[k] <==> 0 < r <= |s.log| && KeyAt(s, r) == k
  {
    if 0 < r <= |s.log| && KeyAt(s, r) == k {
      assert Visible(s, r) || Making(s, r);
    }
  }

  /** What the scan of a key finds. */
  lemma ScanKeyPast(s: State, s': State, w: Watch, w': Watch, k: Key)
    requires PastScanned(s, w) && Placed(s) && Listed(s) && k in s.listed && k !in w.scannedAt && Scans(w, k)
    requires forall r :: r in w.before ==> r in s.jobs
    requires w' == w.(phase := w'.phase, past := w.past + Found(s, w, k),
                      scannedAt := w.scannedAt[k := Scan(s.compacted, |s.log|)])
    requires s'.log == s.log
    ensures PastScanned(s', w')
  {
    VisitedIsInRange(w.start, w.end, k);
    forall r ensures r in w'.past <==> InPast(s', w', r) {
      FoundIsPast(s, w, k, r);
      assert r in w.past <==> InPast(s, w, r);
    }
    forall r | r in w.before ensures r <= |s.log| {
      assert Visible(s, r);
    }
  }

  lemma FoundIsPast(s: State, w: Watch, k: Key, r: int)
    requires Placed(s) && Listed(s) && k in s.listed
    ensures r in Found(s, w, k) <==> 0 < r <= |s.log| && KeyAt(s, r) == k && s.compacted < r && w.from <= r
  {
    if s.compacted < r {
      WritesAreListed(s, k, r);
    }
  }

  lemma ScanKeyNoGap(s: State, id: nat, k: Key)
    requires GapFree(s) && Placed(s) && Listed(s) && Enabled(s, ScanKey(id, k))
    ensures var s' := Next(s, ScanKey(id, k)); NoGap(s', id, s'.watches[id])
  {
    var s' := Next(s, ScanKey(id, k));
    assert NoGap(s, id, s.watches[id]);
    ScanKeyJobs(s, s', id, s.watches[id], s'.watches[id], k);
    ScanKeyPast(s, s', s.watches[id], s'.watches[id], k);
  }

  lemma ScanEndJobs(s: State, s': State, id: nat, w: Watch, w': Watch)
    requires JobsCaught(s, id, w) && w.phase == Scanning({}) && w' == w.(phase := Streaming)
    requires s'.log == s.log && s'.jobs == s.jobs
    ensures JobsCaught(s', id, w')
  {
    forall r | r in s'.jobs && 0 < r <= |s'.log| ensures JobCaught(s', id, w', r) {
      assert JobCaught(s, id, w, r);
    }
  }

  lemma ScanEndNoGap(s: State, id: nat)
    requires GapFree(s) && Enabled(s, ScanEnd(id))
    ensures var s' := Next(s, ScanEnd(id)); NoGap(s', id, s'.watches[id])
  {
    var s' := Next(s, ScanEnd(id));
    assert NoGap(s, id, s.watches[id]);
    ScanEndJobs(s, s', id, s.watches[id], s'.watches[id]);
  }

  /** The steps that change what a watch knows about the past, or what there is to know. */
  predicate Looks(step: Step, id: nat) {
    || step.Notify? || step.Compact? || step == Register(id) || step == ScanStart(id)
    || (step.ScanKey? && step.id == id) || step == ScanEnd(id)
  }

  lemma ScanNoGap(s: State, step: Step, id: nat)
    requires GapFree(s) && Placed(s) && Listed(s) && Enabled(s, step) && id in s.watches && Looks(step, id)
    ensures var s' := Next(s, step); id in s'.watches && NoGap(s', id, s'.watches[id])
  {
    match step
    case Notify(r) => NotifyNoGap(s, r, id);
    case Compact(c) => CompactNoGap(s, c, id);
    case Register(_) => RegisterNoGap(s, id);
    case ScanStart(_) => ScanStartNoGap(s, id);
    case ScanKey(_, k) => ScanKeyNoGap(s, id, k);
    case ScanEnd(_) => ScanEndNoGap(s, id);
  }

  /** All other steps leave both alone. */
  lemma OtherStep(s: State, step: Step, id: nat)
    requires Enabled(s, step) && Fresh(s) && id in s.watches && !Looks(step, id) && id in Next(s, step).watches
    ensures SamePast(s.watches[id], Next(s, step).watches[id])
  {
    if Moves(step) {
      assert Next(s, step).watches == s.watches;
    }
  }

  lemma OtherStepSame(s: State, step: Step)
    requires Enabled(s, step) && !step.Notify? && !step.Compact?
    ensures var s' := Next(s, step); s.log <= s'.log && s'.jobs == s.jobs && s'.compacted == s.compacted
  {
  }

  /** Only a call that passes the compaction check adds a watch. */
  lemma OnlyCheckAdds(s: State, step: Step, id: nat)
    requires Enabled(s, step) && id !in s.watches && id in Next(s, step).watches
    ensures step.Check? && id == s.nextId
  {
  }

  lemma NewNoGap(s: State, rev: int, start: Key, end: Key)
    requires Fresh(s) && Enabled(s, Check(rev, start, end))
    ensures var s' := Next(s, Check(rev, start, end)); NoGap(s', s.nextId, s'.watches[s.nextId])
  {
  }

  lemma KeepsNoGap(s: State, step: Step, id: nat)
    requires GapFree(s) && Placed(s) && Listed(s) && Enabled(s, step) && Fresh(s) && id in Next(s, step).watches
    ensures var s' := Next(s, step); NoGap(s', id, s'.watches[id])
  {
    if id !in s.watches {
      OnlyCheckAdds(s, step, id);
      NewNoGap(s, step.rev, step.start, step.end);
    } else if Looks(step, id) {
      ScanNoGap(s, step, id);
    } else {
      OtherStep(s, step, id);
      OtherStepSame(s, step);
      var s' := Next(s, step);
      SameGap(s, s', id, s.watches[id], s'.watches[id]);
    }
  }

  lemma KeepsGapFree(s: State, step: Step)
    requires GapFree(s) && Placed(s) && Listed(s) && Enabled(s, step) && Fresh(s)
    ensures GapFree(Next(s, step))
  {
    var s' := Next(s, step);
    forall id | id in s'.watches ensures NoGap(s', id, s'.watches[id]) {
      KeepsNoGap(s, step, id);
    }
  }

  lemma KeepsFresh(s: State, step: Step)
    requires Fresh(s) && Enabled(s, step)
    ensures Fresh(Next(s, step))
  {
  }

  /** Identifiers are never used twice. */
  ghost predicate Fresh(s: State) {
    && (forall id :: id in s.watches ==> id < s.nextId)
    && (forall r, id {:trigger id in s.jobs[r]} :: r in s.jobs && id in s.jobs[r] ==> id < s.nextId)
  }

  // ---------------------------------------------------------------- the channel of a watch

  /** Everything sent to a watch so far. */
  function Events(w: Watch): seq<int> { w.delivered + w.queue }

  ghost predicate Increasing(xs: seq<int>) { forall i, j :: 0 <= i < j < |xs| ==> xs[i] < xs[j] }

  ghost predicate AllAbove(xs: seq<int>, from: nat, p: int) { forall j :: from <= j < |xs| ==> xs[j] > p }

  /** The job has been sent out to this watch. */
  predicate SentTo(s: State, id: nat, r: int) { 0 < r < s.nextRev && r in s.jobs && id in s.jobs[r] }

  /** Nothing delivered after the response is at or below the revision it names. */
  ghost predicate Honest(s: State, w: Watch, report: Report) {
    report.rev < s.nextRev && report.after <= |w.delivered| && AllAbove(Events(w), report.after, report.rev)
  }

  /** The events are the dispatched jobs for the watch, each once, in increasing order; reports are honest. */
  ghost predicate Channel(s: State, id: nat, w: Watch) {
    && Increasing(Events(w)) && w.maxEvent < s.nextRev
    && (forall i :: 0 <= i < |Events(w)| ==> SentTo(s, id, Events(w)[i]))
    && (forall r {:trigger SentTo(s, id, r)} :: SentTo(s, id, r) ==> r in Events(w))
    && (forall i :: 0 <= i < |w.reports| ==> Honest(s, w, w.reports[i]))
  }

  /** The largest delivered event is known, and no report is beyond it and the stored progress. */
  ghost predicate Reported(s: State, w: Watch) {
    && (forall i :: 0 <= i < |w.delivered| ==> w.delivered[i] <= w.maxEvent)
    && (w.maxEvent == 0 || w.maxEvent in w.delivered)
    && (forall i :: 0 <= i < |w.reports| ==> w.reports[i].rev <= Max(s.progressRev, w.maxEvent))
  }

  ghost predicate AllReported(s: State) {
    forall id :: id in s.watches ==> Reported(s, s.watches[id])
  }

  ghost predicate Channels(s: State) {
    forall id :: id in s.watches ==> Channel(s, id, s.watches[id])
  }

  predicate SameChannel(w: Watch, w': Watch) {
    w'.queue == w.queue && w'.delivered == w.delivered && w'.maxEvent == w.maxEvent && w'.reports == w.reports
  }

  /** Whatever changes neither the watch's channel nor which jobs are sent out to it keeps the channel in order. */
  lemma QuietChannel(s: State, s': State, id: nat, w: Watch, w': Watch)
    requires Channel(s, id, w) && SameChannel(w, w') && s.nextRev <= s'.nextRev
    requires forall r :: SentTo(s', id, r) == SentTo(s, id, r)
    ensures Channel(s', id, w')
  {
    assert forall i :: 0 <= i < |w'.reports| ==> Honest(s, w, w'.reports[i]);
  }

  lemma DispatchChannel(s: State, r: int, id: nat)
    requires Channels(s) && id in s.watches && r == s.nextRev && r in s.jobs && r > 0
    ensures var s' := Dispatch(s, r); id in s'.watches && Channel(s', id, s'.watches[id])
  {
    var s' := Dispatch(s, r);
    var w, w' := s.watches[id], s'.watches[id];
    assert Channel(s, id, w);
    forall q ensures SentTo(s', id, q) == (SentTo(s, id, q) || (q == r && id in s.jobs[r])) {
    }
    if id in s.jobs[r] {
      assert Events(w') == Events(w) + [r];
      forall i | 0 <= i < |w'.reports| ensures Honest(s', w', w'.reports[i]) {
        assert Honest(s, w, w.reports[i]);
      }
    } else {
      QuietChannel(s, s', id, w, w');
    }
  }

  lemma DeliverChannel(s: State, id: nat, m: nat)
    requires Channels(s) && Enabled(s, Deliver(id, m))
    ensures var s' := Next(s, Deliver(id, m)); Channel(s', id, s'.watches[id])
  {
    var s' := Next(s, Deliver(id, m));
    var w, w' := s.watches[id], s'.watches[id];
    assert Channel(s, id, w);
    assert Events(w') == Events(w);
    assert forall r :: SentTo(s', id, r) == SentTo(s, id, r);
    assert Events(w)[|w.delivered| + m - 1] == w.queue[m - 1];
    assert w'.maxEvent < s'.nextRev;
    MovedChannel(s, s', id, w, w');
  }

  /** Moving from one end of the channel to the other keeps it in order. */
  lemma MovedChannel(s: State, s': State, id: nat, w: Watch, w': Watch)
    requires Channel(s, id, w) && s'.nextRev == s.nextRev && w'.maxEvent < s'.nextRev
    requires Events(w') == Events(w) && |w.delivered| <= |w'.delivered| && w'.reports == w.reports
    requires forall r :: SentTo(s', id, r) == SentTo(s, id, r)
    ensures Channel(s', id, w')
  {
    forall i | 0 <= i < |w'.reports| ensures Honest(s', w', w'.reports[i]) {
      assert Honest(s, w, w.reports[i]);
    }
  }

  lemma ProgressChannel(s: State, id: nat)
    requires Channels(s) && Piped(s) && Enabled(s, Progress(id))
    ensures var s' := Next(s, Progress(id)); Channel(s', id, s'.watches[id])
  {
    var s' := Next(s, Progress(id));
    var w, w' := s.watches[id], s'.watches[id];
    assert Channel(s, id, w);
    assert Events(w') == Events(w) == w.delivered;
    assert forall r :: SentTo(s', id, r) == SentTo(s, id, r);
    forall i | 0 <= i < |w'.reports| ensures Honest(s', w', w'.reports[i]) {
      assert i < |w.reports| ==> Honest(s, w, w.reports[i]);
    }
  }

  /** The steps that send to, or read from, the channel of a watch. */
  predicate Touches(s: State, step: Step, id: nat) {
    || (step.Receive? && step.rev <= s.nextRev) || step.Drain?
    || (step.Deliver? && step.id == id) || step == Progress(id)
  }

  lemma TouchedChannel(s: State, step: Step, id: nat)
    requires Channels(s) && Piped(s) && Enabled(s, step) && id in s.watches && Touches(s, step, id)
    ensures var s' := Next(s, step); id in s'.watches && Channel(s', id, s'.watches[id])
  {
    match step
    case Receive(r) =>
      assert InPipe(s, r);
      ReceiveChannel(s, r, id);
    case Drain => DispatchChannel(s, s.nextRev, id);
    case Deliver(_, m) => DeliverChannel(s, id, m);
    case Progress(_) => ProgressChannel(s, id);
  }

  lemma ReceiveChannel(s: State, r: int, id: nat)
    requires Channels(s) && Enabled(s, Receive(r)) && id in s.watches && r == s.nextRev && r > 0
    ensures var s' := Next(s, Receive(r)); id in s'.watches && Channel(s', id, s'.watches[id])
  {
    var s1 := s.(sent := s.sent - {r});
    forall i | i in s1.watches ensures Channel(s1, i, s1.watches[i]) {
      assert forall q :: SentTo(s1, i, q) == SentTo(s, i, q);
      QuietChannel(s, s1, i, s.watches[i], s1.watches[i]);
    }
    DispatchChannel(s1, r, id);
  }

  /** The steps that leave all watches as they are. */
  predicate LeavesWatches(s: State, step: Step) {
    Moves(step) || step.StoreProgress? || (step.Receive? && step.rev > s.nextRev)
  }

  lemma WatchesLeft(s: State, step: Step)
    requires Enabled(s, step) && LeavesWatches(s, step)
    ensures Next(s, step).watches == s.watches
  {
  }

  lemma UntouchedChannel(s: State, step: Step, id: nat)
    requires Enabled(s, step) && id in s.watches && id in Next(s, step).watches && !Touches(s, step, id) && Fresh(s)
    ensures SameChannel(s.watches[id], Next(s, step).watches[id])
  {
    if LeavesWatches(s, step) {
      WatchesLeft(s, step);
    }
  }

  lemma UntouchedSent(s: State, step: Step, id: nat, r: int)
    requires Piped(s) && Placed(s) && Enabled(s, step) && !Touches(s, step, id)
    ensures SentTo(Next(s, step), id, r) == SentTo(s, id, r)
    ensures Next(s, step).nextRev == s.nextRev
  {
    assert r in s.applied ==> r !in s.jobs;
  }

  lemma NewChannel(s: State, rev: int, start: Key, end: Key)
    requires Piped(s) && Fresh(s) && Enabled(s, Check(rev, start, end))
    ensures var s' := Next(s, Check(rev, start, end)); Channel(s', s.nextId, s'.watches[s.nextId])
  {
    var s' := Next(s, Check(rev, start, end));
    assert s'.jobs == s.jobs;
    assert forall r :: !SentTo(s', s.nextId, r);
  }

  lemma KeepsChannel(s: State, step: Step, id: nat)
    requires Channels(s) && Piped(s) && Placed(s) && Fresh(s) && Enabled(s, step) && id in Next(s, step).watches
    ensures var s' := Next(s, step); Channel(s', id, s'.watches[id])
  {
    if id !in s.watches {
      OnlyCheckAdds(s, step, id);
      NewChannel(s, step.rev, step.start, step.end);
    } else if Touches(s, step, id) {
      TouchedChannel(s, step, id);
    } else {
      var s' := Next(s, step);
      UntouchedChannel(s, step, id);
      UntouchedSent(s, step, id, 0);
      forall r ensures SentTo(s', id, r) == SentTo(s, id, r) {
        UntouchedSent(s, step, id, r);
      }
      QuietChannel(s, s', id, s.watches[id], s'.watches[id]);
    }
  }

  lemma KeepsChannels(s: State, step: Step)
    requires Channels(s) && Piped(s) && Placed(s) && Fresh(s) && Enabled(s, step)
    ensures Channels(Next(s, step))
  {
    var s' := Next(s, step);
    forall id | id in s'.watches ensures Channel(s', id, s'.watches[id]) {
      KeepsChannel(s, step, id);
    }
  }

  lemma SameReported(s: State, s': State, w: Watch, w': Watch)
    requires Reported(s, w) && s.progressRev <= s'.progressRev
    requires w'.delivered == w.delivered && w'.maxEvent == w.maxEvent && w'.reports == w.reports
    ensures Reported(s', w')
  {
  }

  lemma DeliverReported(s: State, id: nat, m: nat)
    requires AllReported(s) && Channels(s) && Enabled(s, Deliver(id, m))
    ensures var s' := Next(s, Deliver(id, m)); Reported(s', s'.watches[id])
  {
    var s' := Next(s, Deliver(id, m));
    var w, w' := s.watches[id], s'.watches[id];
    assert Reported(s, w) && Channel(s, id, w);
    forall i | 0 <= i < |w'.delivered| ensures w'.delivered[i] <= w'.maxEvent {
      if i >= |w.delivered| {
        assert w'.delivered[i] == Events(w)[i] && w.queue[m - 1] == Events(w)[|w.delivered| + m - 1];
      }
    }
    assert w'.delivered[|w.delivered| + m - 1] == w.queue[m - 1];
    assert w.maxEvent in w.delivered ==> w.maxEvent in w'.delivered;
  }

  lemma ProgressReported(s: State, id: nat)
    requires AllReported(s) && Enabled(s, Progress(id))
    ensures var s' := Next(s, Progress(id)); Reported(s', s'.watches[id])
  {
    assert Reported(s, s.watches[id]);
  }

  /** The stored progress only grows. */
  lemma ProgressGrows(s: State, step: Step)
    requires Piped(s) && Enabled(s, step)
    ensures s.progressRev <= Next(s, step).progressRev
  {
  }

  lemma DispatchReported(s: State, s1: State, r: int, id: nat)
    requires AllReported(s) && id in s.watches && s1.watches == s.watches && s1.progressRev == s.progressRev
    requires r in s1.jobs
    ensures var s' := Dispatch(s1, r); id in s'.watches && Reported(s', s'.watches[id])
  {
    SameReported(s, Dispatch(s1, r), s.watches[id], Dispatch(s1, r).watches[id]);
  }

  lemma ReceiveReported(s: State, r: int, id: nat)
    requires AllReported(s) && Enabled(s, Receive(r)) && id in s.watches && r <= s.nextRev
    ensures var s' := Next(s, Receive(r)); id in s'.watches && Reported(s', s'.watches[id])
  {
    DispatchReported(s, s.(sent := s.sent - {r}), r, id);
  }

  lemma TouchedReported(s: State, step: Step, id: nat)
    requires AllReported(s) && Channels(s) && Enabled(s, step) && id in s.watches && Touches(s, step, id)
    ensures var s' := Next(s, step); id in s'.watches && Reported(s', s'.watches[id])
  {
    match step
    case Receive(r) => ReceiveReported(s, r, id);
    case Drain => DispatchReported(s, s, s.nextRev, id);
    case Deliver(_, m) => DeliverReported(s, id, m);
    case Progress(_) => ProgressReported(s, id);
  }

  lemma KeepsReportedOf(s: State, step: Step, id: nat)
    requires AllReported(s) && Channels(s) && Piped(s) && Fresh(s) && Enabled(s, step) && id in Next(s, step).watches
    ensures Reported(Next(s, step), Next(s, step).watches[id])
  {
    if id !in s.watches {
      OnlyCheckAdds(s, step, id);
    } else if Touches(s, step, id) {
      TouchedReported(s, step, id);
    } else {
      UntouchedChannel(s, step, id);
      ProgressGrows(s, step);
      SameReported(s, Next(s, step), s.watches[id], Next(s, step).watches[id]);
    }
  }

  lemma KeepsReported(s: State, step: Step)
    requires AllReported(s) && Channels(s) && Piped(s) && Fresh(s) && Enabled(s, step)
    ensures AllReported(Next(s, step))
  {
    var s' := Next(s, step);
    forall id | id in s'.watches ensures Reported(s', s'.watches[id]) {
      KeepsReportedOf(s, step, id);
    }
  }
}
