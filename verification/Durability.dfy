/**
  From writes to files. Writes get their revisions in any interleaving, their jobs reach the notification thread in any
  order, the thread appends them to the log in the order of the revisions, and the writer threads bring them to the
  files.
 */
module Durability {
  import opened Wrappers
  import opened Bytes
  import opened Integers
  import opened KeyIndex
  import opened WalCodec
  import History
  import Wal = WalHandoff
  import WalMerge

  /** `arrived` are the jobs that have reached the notification thread, and `nextRev` the one that it sends out next. */
  datatype State = State(history: History.Log, arrived: set<nat>, nextRev: nat, wal: Wal.State)

  datatype Step =
    | Write(write: History.Write)
    | Arrive(rev: nat)
    | Send
    | Log(step: Wal.Step)

  /** The record that is logged for a write; an empty value is logged as a delete. */
  function RecordOf(w: History.Write, rev: nat): Record
    requires rev < TWO_63
  {
    Record(rev, w.key, if w.value.Some? && w.value.value != [] then w.value else None)
  }

  /** In the synchronous mode the writer of each revision waits for its own record. */
  function EntryOf(cfg: Wal.Config, w: History.Write, rev: nat): Wal.Entry
    requires rev < TWO_63
  {
    Wal.Entry(RecordOf(w, rev), if cfg.mode.Sync? then Some(rev) else None)
  }

  predicate Bounded(s: State) { |s.history| < TWO_63 && 0 < s.nextRev <= |s.history| + 1 }

  function SendStep(cfg: Wal.Config, s: State): Wal.Step
    requires Bounded(s) && s.nextRev <= |s.history|
  {
    var w := s.history[s.nextRev - 1];
    Wal.Enqueue(PrefixOf(w.key), EntryOf(cfg, w, s.nextRev))
  }

  predicate Enabled(s: State, step: Step) {
    Bounded(s) &&
    match step
    case Write(_) => |s.history| + 1 < TWO_63
    case Arrive(r) => 0 < r <= |s.history| && r !in s.arrived
    case Send => s.nextRev <= |s.history| && s.nextRev in s.arrived
    case Log(step) => !step.Enqueue? && Wal.Enabled(s.wal, step)
  }

  function Next(cfg: Wal.Config, s: State, step: Step): State
    requires Enabled(s, step)
  {
    match step
    case Write(w) => s.(history := s.history + [w])
    case Arrive(r) => s.(arrived := s.arrived + {r})
    case Send => s.(nextRev := s.nextRev + 1, wal := Wal.Next(cfg, s.wal, SendStep(cfg, s)))
    case Log(step) => s.(wal := Wal.Next(cfg, s.wal, step))
  }

  function Init(threads: nat): State { State([], {}, 1, Wal.Init(threads)) }

  // ---------------------------------------------------------------- what belongs into a file

  /** The entries of the first `n` revisions that belong into the file of `p`, in order. */
  function Expected(cfg: Wal.Config, h: History.Log, p: Key, n: nat): seq<Wal.Entry>
    requires n <= |h| < TWO_63
  {
    if n == 0 then []
    else
      Expected(cfg, h, p, n - 1)
      + if Wal.Persists(cfg, p) && PrefixOf(h[n - 1].key) == p then [EntryOf(cfg, h[n - 1], n)] else []
  }

  lemma {:induction false} ExpectedExtended(cfg: Wal.Config, h: History.Log, h': History.Log, p: Key, n: nat)
    requires n <= |h| && h <= h' && |h'| < TWO_63
    ensures Expected(cfg, h', p, n) == Expected(cfg, h, p, n)
  {
    if n > 0 {
      ExpectedExtended(cfg, h, h', p, n - 1);
    }
  }

  /** The revision of the entry is one of these, of a key with that prefix, and the entry is that of the write. */
  ghost predicate Right(cfg: Wal.Config, h: History.Log, p: Key, n: nat, e: Wal.Entry)
    requires n <= |h| < TWO_63
  {
    var r := e.rec.rev;
    0 < r <= n && PrefixOf(h[r - 1].key) == p && e == EntryOf(cfg, h[r - 1], r)
  }

  /** Such entries, in strictly increasing order of revision. */
  ghost predicate AllRight(cfg: Wal.Config, h: History.Log, p: Key, n: nat, es: seq<Wal.Entry>)
    requires n <= |h| < TWO_63
  {
    && (forall i {:trigger Right(cfg, h, p, n, es[i])} :: 0 <= i < |es| ==> Right(cfg, h, p, n, es[i]))
    && (forall i, j :: 0 <= i < j < |es| ==> es[i].rec.rev < es[j].rec.rev)
  }

  lemma OneMoreRight(cfg: Wal.Config, h: History.Log, p: Key, n: nat, es: seq<Wal.Entry>)
    requires 0 < n <= |h| < TWO_63 && AllRight(cfg, h, p, n - 1, es)
    ensures AllRight(cfg, h, p, n, es)
    ensures PrefixOf(h[n - 1].key) == p ==> AllRight(cfg, h, p, n, es + [EntryOf(cfg, h[n - 1], n)])
  {
    forall i | 0 <= i < |es| ensures Right(cfg, h, p, n, es[i]) && es[i].rec.rev < n {
      assert Right(cfg, h, p, n - 1, es[i]);
    }
  }

  /** The expected entries are writes of keys with that prefix, in strictly increasing order of revision, ... */
  lemma {:induction false} ExpectedAreWrites(cfg: Wal.Config, h: History.Log, p: Key, n: nat)
    requires n <= |h| < TWO_63
    ensures AllRight(cfg, h, p, n, Expected(cfg, h, p, n))
  {
    if n > 0 {
      ExpectedAreWrites(cfg, h, p, n - 1);
      OneMoreRight(cfg, h, p, n, Expected(cfg, h, p, n - 1));
    }
  }

  lemma ExpectedGrows(cfg: Wal.Config, h: History.Log, p: Key, n: nat)
    requires 0 < n <= |h| < TWO_63
    ensures Expected(cfg, h, p, n - 1) <= Expected(cfg, h, p, n)
  {
  }

  lemma LastIsExpected(cfg: Wal.Config, h: History.Log, p: Key, n: nat)
    requires 0 < n <= |h| < TWO_63 && Wal.Persists(cfg, p) && PrefixOf(h[n - 1].key) == p
    ensures EntryOf(cfg, h[n - 1], n) in Expected(cfg, h, p, n)
  {
    var front := Expected(cfg, h, p, n - 1);
    assert Expected(cfg, h, p, n)[|front|] == EntryOf(cfg, h[n - 1], n);
  }

  /** ... and all of them. */
  lemma {:induction false} WritesAreExpected(cfg: Wal.Config, h: History.Log, p: Key, n: nat, r: nat)
    requires 0 < r <= n <= |h| < TWO_63 && Wal.Persists(cfg, p) && PrefixOf(h[r - 1].key) == p
    ensures EntryOf(cfg, h[r - 1], r) in Expected(cfg, h, p, n)
  {
    if r < n {
      WritesAreExpected(cfg, h, p, n - 1, r);
      ExpectedGrows(cfg, h, p, n);
    } else {
      LastIsExpected(cfg, h, p, n);
    }
  }

  // ---------------------------------------------------------------- every run

  /** What has been appended to the log of `p` is what has been sent out for it. */
  ghost predicate Appended(cfg: Wal.Config, s: State, p: Key)
    requires Bounded(s)
  {
    Wal.AppendedOf(s.wal, p) == Expected(cfg, s.history, p, s.nextRev - 1)
  }

  ghost predicate Inv(cfg: Wal.Config, threads: nat, s: State) {
    && Bounded(s) && Wal.Reachable(cfg, threads, s.wal)
    && forall p {:trigger Appended(cfg, s, p)} :: Appended(cfg, s, p)
  }

  lemma InitInv(cfg: Wal.Config, threads: nat)
    ensures Inv(cfg, threads, Init(threads))
  {
    Wal.InitIsReachable(cfg, threads);
  }

  lemma WriteAppends(cfg: Wal.Config, s: State, w: History.Write, p: Key)
    requires Enabled(s, Write(w)) && Appended(cfg, s, p)
    ensures Bounded(Next(cfg, s, Write(w))) && Appended(cfg, Next(cfg, s, Write(w)), p)
  {
    ExpectedExtended(cfg, s.history, s.history + [w], p, s.nextRev - 1);
  }

  lemma SendAppends(cfg: Wal.Config, s: State, p: Key)
    requires Enabled(s, Send) && Appended(cfg, s, p)
    ensures Bounded(Next(cfg, s, Send)) && Appended(cfg, Next(cfg, s, Send), p)
  {
    ExpectedOneMore(cfg, s, p);
    Wal.StepAppends(cfg, s.wal, SendStep(cfg, s), p);
  }

  lemma ExpectedOneMore(cfg: Wal.Config, s: State, p: Key)
    requires Bounded(s) && s.nextRev <= |s.history|
    ensures var step := SendStep(cfg, s);
            Expected(cfg, s.history, p, s.nextRev) == Expected(cfg, s.history, p, s.nextRev - 1)
                                                      + if step.p == p && Wal.Persists(cfg, p) then [step.e] else []
  {
  }

  lemma LogAppends(cfg: Wal.Config, s: State, step: Wal.Step, p: Key)
    requires Enabled(s, Log(step)) && Appended(cfg, s, p)
    ensures Appended(cfg, Next(cfg, s, Log(step)), p)
  {
    Wal.StepAppends(cfg, s.wal, step, p);
  }

  lemma StepAppends(cfg: Wal.Config, s: State, step: Step, p: Key)
    requires Enabled(s, step) && Appended(cfg, s, p)
    ensures Bounded(Next(cfg, s, step)) && Appended(cfg, Next(cfg, s, step), p)
  {
    match step
    case Write(w) => WriteAppends(cfg, s, w, p);
    case Arrive(_) =>
    case Send => SendAppends(cfg, s, p);
    case Log(step) => LogAppends(cfg, s, step, p);
  }

  lemma StepReaches(cfg: Wal.Config, threads: nat, s: State, step: Step)
    requires Enabled(s, step) && Wal.Reachable(cfg, threads, s.wal)
    ensures Wal.Reachable(cfg, threads, Next(cfg, s, step).wal)
  {
    match step
    case Send => Wal.ReachableStep(cfg, threads, s.wal, SendStep(cfg, s));
    case Log(step) => Wal.ReachableStep(cfg, threads, s.wal, step);
    case _ =>
  }

  lemma StepKeeps(cfg: Wal.Config, threads: nat, s: State, step: Step)
    requires Inv(cfg, threads, s) && Enabled(s, step)
    ensures Inv(cfg, threads, Next(cfg, s, step))
  {
    StepReaches(cfg, threads, s, step);
    assert Appended(cfg, s, []);
    StepAppends(cfg, s, step, []);
    forall p ensures Appended(cfg, Next(cfg, s, step), p) {
      assert Appended(cfg, s, p);
      StepAppends(cfg, s, step, p);
    }
  }

  ghost predicate Run(cfg: Wal.Config, threads: nat, states: seq<State>, steps: seq<Step>) {
    && |states| == |steps| + 1 && states[0] == Init(threads)
    && forall k :: 0 <= k < |steps| ==> Enabled(states[k], steps[k]) && states[k + 1] == Next(cfg, states[k], steps[k])
  }

  lemma {:induction false} RunInv(cfg: Wal.Config, threads: nat, states: seq<State>, steps: seq<Step>)
    requires Run(cfg, threads, states, steps)
    ensures Inv(cfg, threads, states[|steps|])
    decreases |steps|
  {
    var n := |steps|;
    if n == 0 {
      InitInv(cfg, threads);
    } else {
      RunInv(cfg, threads, states[..n], steps[..n - 1]);
      StepKeeps(cfg, threads, states[n - 1], steps[n - 1]);
    }
  }

  /** Every write has been sent out, and the log has come to rest. */
  ghost predicate AtRest(s: State) { s.nextRev == |s.history| + 1 && Wal.Quiet(s.wal) }

  /** In every run, a file holds at any time the first of the writes of its prefix, in the order of the revisions. */
  lemma FileHoldsFirstWrites(cfg: Wal.Config, threads: nat, states: seq<State>, steps: seq<Step>, p: Key)
    requires Run(cfg, threads, states, steps) && p in states[|steps|].wal.writers
    ensures var s := states[|steps|];
            && Bounded(s)
            && var w, es := s.wal.writers[p], Expected(cfg, s.history, p, s.nextRev - 1);
               w.written <= |es| && w.file == Wal.Before(cfg, p) + Wal.Records(es[..w.written])
  {
    RunInv(cfg, threads, states, steps);
    var s := states[|steps|];
    Wal.FileIsAPrefix(cfg, threads, s.wal, p);
    assert Appended(cfg, s, p);
  }

  /** At rest, every file holds exactly the writes of its prefix, in strictly increasing order of revision. */
  lemma FileHoldsAllWrites(cfg: Wal.Config, threads: nat, states: seq<State>, steps: seq<Step>, p: Key)
    requires Run(cfg, threads, states, steps) && AtRest(states[|steps|])
    ensures var s := states[|steps|];
            && |s.history| < TWO_63
            && var es := Expected(cfg, s.history, p, |s.history|);
               if p in s.wal.writers then s.wal.writers[p].file == Wal.Before(cfg, p) + Wal.Records(es) else es == []
  {
    RunInv(cfg, threads, states, steps);
    var s := states[|steps|];
    assert Appended(cfg, s, p);
    if p in s.wal.writers {
      Wal.QuietIsComplete(cfg, threads, s.wal, p);
    }
  }

  /** The entry of revision `r` is in the synced part of the log. */
  ghost predicate SyncedEntry(w: Wal.Writer, e: Wal.Entry) {
    exists i :: 0 <= i < |w.appended| && i < w.synced <= w.written && w.appended[i] == e
  }

  /** Whose waiter is `r` is the entry of revision `r`. */
  lemma WaiterIsOwn(cfg: Wal.Config, h: History.Log, p: Key, n: nat, i: nat, r: nat)
    requires n <= |h| < TWO_63 && i < |Expected(cfg, h, p, n)| && Expected(cfg, h, p, n)[i].waiter == Some(r)
    ensures 0 < r <= n && PrefixOf(h[r - 1].key) == p && Expected(cfg, h, p, n)[i] == EntryOf(cfg, h[r - 1], r)
  {
    ExpectedAreWrites(cfg, h, p, n);
    assert Right(cfg, h, p, n, Expected(cfg, h, p, n)[i]);
  }

  lemma SyncedIsWritten(cfg: Wal.Config, threads: nat, s: Wal.State, p: Key)
    requires Wal.Reachable(cfg, threads, s) && p in s.writers
    ensures s.writers[p].synced <= s.writers[p].written <= |s.writers[p].appended|
  {
    Wal.ReachableInv(cfg, threads, s);
    assert Wal.PrefixInv(cfg, s, p);
  }

  lemma ReleasedBy(cfg: Wal.Config, threads: nat, s: Wal.State, r: nat) returns (p: Key, i: nat)
    requires Wal.Reachable(cfg, threads, s) && r in s.released
    ensures p in s.writers && Wal.Durable(cfg.mode, s.writers[p], i, r)
  {
    Wal.ReachableInv(cfg, threads, s);
    var q: Key, j: nat :| q in s.writers && Wal.Durable(cfg.mode, s.writers[q], j, r);
    p, i := q, j;
  }

  /** In the synchronous mode the write of a revision returns only when its record is in its file and synced. */
  lemma SyncWriteIsDurable(cfg: Wal.Config, threads: nat, states: seq<State>, steps: seq<Step>, r: nat)
    requires Run(cfg, threads, states, steps) && cfg.mode.Sync? && r in states[|steps|].wal.released
    ensures var s := states[|steps|];
            && 0 < r <= |s.history| < TWO_63
            && var p := PrefixOf(s.history[r - 1].key);
               p in s.wal.writers && SyncedEntry(s.wal.writers[p], EntryOf(cfg, s.history[r - 1], r))
  {
    RunInv(cfg, threads, states, steps);
    var s := states[|steps|];
    var p, i := ReleasedBy(cfg, threads, s.wal, r);
    assert Appended(cfg, s, p);
    WaiterIsOwn(cfg, s.history, p, s.nextRev - 1, i, r);
    SyncedIsWritten(cfg, threads, s.wal, p);
  }

  /**
    At rest, in terms of the history and the settings alone: unless logging is off or its prefix is excluded, every
    write is in the file of its prefix, with its revision, its key and its value, an empty one as a delete; otherwise
    the file, if there is one, is as it was before.
   */
  lemma LoggedAtRest(cfg: Wal.Config, threads: nat, states: seq<State>, steps: seq<Step>, r: nat)
    requires Run(cfg, threads, states, steps) && AtRest(states[|steps|]) && 0 < r <= |states[|steps|].history| < TWO_63
    ensures var s := states[|steps|];
            var w := s.history[r - 1];
            var p := PrefixOf(w.key);
            if cfg.mode != Wal.NoLog && p !in cfg.noPersist then
              && p in s.wal.writers
              && Record(r, w.key, if w.value == Some([]) then None else w.value) in s.wal.writers[p].file
            else p in s.wal.writers ==> s.wal.writers[p].file == if p in cfg.disk then cfg.disk[p] else []
  {
    var s := states[|steps|];
    var p := PrefixOf(s.history[r - 1].key);
    FileHoldsAllWrites(cfg, threads, states, steps, p);
    if Wal.Persists(cfg, p) {
      EntryIsInFile(cfg, s.history, p, r, Wal.Before(cfg, p));
    } else {
      NothingExpected(cfg, s.history, p, |s.history|);
      assert Wal.Before(cfg, p) + [] == Wal.Before(cfg, p);
    }
  }

  lemma EntryIsInFile(cfg: Wal.Config, h: History.Log, p: Key, r: nat, before: seq<Record>)
    requires 0 < r <= |h| < TWO_63 && Wal.Persists(cfg, p) && PrefixOf(h[r - 1].key) == p
    ensures Expected(cfg, h, p, |h|) != []
    ensures RecordOf(h[r - 1], r) in before + Wal.Records(Expected(cfg, h, p, |h|))
  {
    WritesAreExpected(cfg, h, p, |h|, r);
    var es := Expected(cfg, h, p, |h|);
    var i :| 0 <= i < |es| && es[i] == EntryOf(cfg, h[r - 1], r);
    assert (before + Wal.Records(es))[|before| + i] == RecordOf(h[r - 1], r);
  }

  // ---------------------------------------------------------------- which writes return

  lemma {:induction false} NothingExpected(cfg: Wal.Config, h: History.Log, p: Key, n: nat)
    requires n <= |h| < TWO_63 && !Wal.Persists(cfg, p)
    ensures Expected(cfg, h, p, n) == []
  {
    if n > 0 {
      NothingExpected(cfg, h, p, n - 1);
    }
  }

  /** In every run in the synchronous mode only writes of persisted prefixes are released. */
  lemma ReleasedIsPersisted(cfg: Wal.Config, threads: nat, states: seq<State>, steps: seq<Step>, r: nat)
    requires Run(cfg, threads, states, steps) && cfg.mode.Sync? && r in states[|steps|].wal.released
    ensures var s := states[|steps|];
            0 < r <= |s.history| && PrefixOf(s.history[r - 1].key) !in cfg.noPersist
  {
    SyncWriteIsDurable(cfg, threads, states, steps, r);
    RunInv(cfg, threads, states, steps);
    var s := states[|steps|];
    var p := PrefixOf(s.history[r - 1].key);
    assert Appended(cfg, s, p);
    if !Wal.Persists(cfg, p) {
      NothingExpected(cfg, s.history, p, s.nextRev - 1);
    }
  }

  /** At rest the waiter of every entry that belongs into a file is released. */
  lemma ExpectedIsReleased(cfg: Wal.Config, threads: nat, s: State, p: Key, i: nat, r: nat)
    requires Inv(cfg, threads, s) && AtRest(s)
    requires i < |Expected(cfg, s.history, p, |s.history|)|
    requires Expected(cfg, s.history, p, |s.history|)[i].waiter == Some(r)
    ensures r in s.wal.released
  {
    assert Appended(cfg, s, p);
    Wal.QuietIsComplete(cfg, threads, s.wal, p);
  }

  /**
    In the synchronous mode, with every write sent out and the log at rest, the write of a revision has returned if and
    only if the prefix of its key is persisted.
   */
  lemma ReturnsIff(cfg: Wal.Config, threads: nat, states: seq<State>, steps: seq<Step>, r: nat)
    requires Run(cfg, threads, states, steps) && cfg.mode.Sync? && AtRest(states[|steps|])
    requires 0 < r <= |states[|steps|].history|
    ensures var s := states[|steps|];
            r in s.wal.released <==> PrefixOf(s.history[r - 1].key) !in cfg.noPersist
  {
    var s := states[|steps|];
    var p := PrefixOf(s.history[r - 1].key);
    if r in s.wal.released {
      ReleasedIsPersisted(cfg, threads, states, steps, r);
    } else if Wal.Persists(cfg, p) {
      RunInv(cfg, threads, states, steps);
      WritesAreExpected(cfg, s.history, p, |s.history|, r);
      var i :| 0 <= i < |Expected(cfg, s.history, p, |s.history|)|
               && Expected(cfg, s.history, p, |s.history|)[i] == EntryOf(cfg, s.history[r - 1], r);
      ExpectedIsReleased(cfg, threads, s, p, i, r);
    }
  }

  /** One write of a key whose prefix is not persisted: all is at rest, and its writer waits. */
  lemma NotPersistedWaits(cfg: Wal.Config, threads: nat, w: History.Write)
    returns (states: seq<State>, steps: seq<Step>)
    requires cfg.mode.Sync? && PrefixOf(w.key) in cfg.noPersist
    ensures Run(cfg, threads, states, steps) && AtRest(states[|steps|])
    ensures |states[|steps|].history| == 1 && 1 !in states[|steps|].wal.released
  {
    var wal := Wal.Init(threads);
    steps := [Write(w), Arrive(1), Send];
    states := [Init(threads), State([w], {}, 1, wal), State([w], {1}, 1, wal), State([w], {1}, 2, wal)];
    assert Next(cfg, states[0], steps[0]) == states[1];
    assert Next(cfg, states[1], steps[1]) == states[2];
    assert Next(cfg, states[2], steps[2]) == states[3];
  }

  // ---------------------------------------------------------------- loading the files again

  /** The records of a log that began empty. */
  function Contents(cfg: Wal.Config, h: History.Log, p: Key): seq<Record>
    requires |h| < TWO_63
  {
    Wal.Records(Expected(cfg, h, p, |h|))
  }

  lemma ContentsSorted(cfg: Wal.Config, h: History.Log, p: Key)
    requires |h| < TWO_63
    ensures WalMerge.Sorted(Contents(cfg, h, p))
  {
    ExpectedAreWrites(cfg, h, p, |h|);
  }

  /**
    At rest, and if the files began empty and the records fit, the files are such that the merge delivers every
    persisted write once and in the order of the revisions.
   */
  lemma FilesAreMergeable(cfg: Wal.Config, threads: nat, states: seq<State>, steps: seq<Step>, prefixes: seq<Key>)
    requires Run(cfg, threads, states, steps) && AtRest(states[|steps|]) && cfg.disk == map[]
    requires forall i :: 0 <= i < |prefixes| ==> prefixes[i] in states[|steps|].wal.writers
    requires |states[|steps|].history| < TWO_63 && forall i :: 0 <= i < |prefixes| ==>
               forall r :: r in Contents(cfg, states[|steps|].history, prefixes[i]) ==> Fits(r)
    ensures var s := states[|steps|];
            var files := seq(|prefixes|, i requires 0 <= i < |prefixes| => EncodeAll(s.wal.writers[prefixes[i]].file));
            var parts := seq(|prefixes|, i requires 0 <= i < |prefixes| => Contents(cfg, s.history, prefixes[i]));
            WalMerge.Contents(files, parts) && WalMerge.AllSorted(files)
  {
    var s := states[|steps|];
    forall i | 0 <= i < |prefixes|
      ensures ReadAll(EncodeAll(s.wal.writers[prefixes[i]].file)) == (Contents(cfg, s.history, prefixes[i]), true)
      ensures WalMerge.Sorted(Contents(cfg, s.history, prefixes[i]))
    {
      FileIsReadable(cfg, threads, states, steps, prefixes[i]);
    }
  }

  lemma FileIsReadable(cfg: Wal.Config, threads: nat, states: seq<State>, steps: seq<Step>, p: Key)
    requires Run(cfg, threads, states, steps) && AtRest(states[|steps|]) && cfg.disk == map[]
    requires p in states[|steps|].wal.writers && |states[|steps|].history| < TWO_63
    requires forall r :: r in Contents(cfg, states[|steps|].history, p) ==> Fits(r)
    ensures var s := states[|steps|];
            ReadAll(EncodeAll(s.wal.writers[p].file)) == (Contents(cfg, s.history, p), true)
    ensures WalMerge.Sorted(Contents(cfg, states[|steps|].history, p))
  {
    var s := states[|steps|];
    FileHoldsAllWrites(cfg, threads, states, steps, p);
    ContentsSorted(cfg, s.history, p);
    assert s.wal.writers[p].file == Contents(cfg, s.history, p);
    LogRoundTrip(Contents(cfg, s.history, p));
  }
}
