/**
  The log comes to rest. As long as nothing more is appended and no batch is closed empty while records wait, every
  schedule of appenders and threads ends, however unfair, and it ends with everything written.
 */
module WalProgress {
  import opened Wrappers
  import opened Bytes
  import opened WalCodec
  import opened WalHandoff

  // ---------------------------------------------------------------- sums

  function Sum(ns: seq<nat>): nat { if ns == [] then 0 else Sum(ns[..|ns| - 1]) + ns[|ns| - 1] }

  lemma {:induction false} SumUpdate(ns: seq<nat>, i: nat, v: nat)
    requires i < |ns|
    ensures Sum(ns[i := v]) + ns[i] == Sum(ns) + v
  {
    var n := |ns| - 1;
    if i == n {
      assert ns[i := v][..n] == ns[..n];
    } else {
      SumUpdate(ns[..n], i, v);
      assert ns[i := v][..n] == ns[..n][i := v];
    }
  }

  lemma {:induction false} SumAtMost(ns: seq<nat>, ms: seq<nat>)
    requires |ns| == |ms| && forall i :: 0 <= i < |ns| ==> ns[i] <= ms[i]
    ensures Sum(ns) <= Sum(ms)
  {
    if ns != [] {
      SumAtMost(ns[..|ns| - 1], ms[..|ms| - 1]);
    }
  }

  /** One entry changes, and the others do not grow. */
  lemma SumChange(ns: seq<nat>, ms: seq<nat>, i: nat)
    requires |ns| == |ms| && i < |ns| && forall j :: 0 <= j < |ns| && j != i ==> ms[j] <= ns[j]
    ensures Sum(ms) + ns[i] <= Sum(ns) + ms[i]
  {
    SumAtMost(ms, ns[i := ms[i]]);
    SumUpdate(ns, i, ms[i]);
  }

  // ---------------------------------------------------------------- how much is left to do

  predicate IsBusy(s: State, p: Key) { p in s.writers && s.writers[p].queue != [] }

  /** How many steps a thread is away from waiting for a token, up to taking the next record. */
  function Rank(th: Thread, busy: bool): nat {
    match th
    case Waiting => 0
    case Received(_) => 8
    case Claiming(_) => 7
    case Batching(_, batch) => |batch| + if !busy then 6 else if batch != [] then 16 else 1
    case Writing(_, batch) => |batch| + if busy then 15 else 5
    case Syncing(_, batch) => |batch| + if busy then 14 else 4
    case Notifying(_, batch) => |batch| + if busy then 13 else 3
    case Unlocking(_) => if busy then 12 else 2
    case Rechecking(_) => if busy then 11 else 1
    case Resending(_) => 10
  }

  function RankIn(s: State, th: Thread): nat { Rank(th, !th.Waiting? && IsBusy(s, th.p)) }

  function Ranks(s: State): seq<nat> { seq(|s.threads|, t requires 0 <= t < |s.threads| => RankIn(s, s.threads[t])) }

  function Queues(s: State, keys: seq<Key>): seq<nat> {
    seq(|keys|, i requires 0 <= i < |keys| => if keys[i] in s.writers then |s.writers[keys[i]].queue| else 0)
  }

  function Pendings(s: State, keys: seq<Key>): seq<nat> {
    seq(|keys|, i requires 0 <= i < |keys| => if keys[i] in s.writers then s.writers[keys[i]].pending else 0)
  }

  function Work(s: State, keys: seq<Key>): nat {
    40 * Sum(Queues(s, keys)) + 10 * Sum(Pendings(s, keys)) + 9 * |s.tokens| + Sum(Ranks(s))
  }

  /** `keys` names every writer once. */
  ghost predicate Names(s: State, keys: seq<Key>) {
    && (forall i, j :: 0 <= i < j < |keys| ==> keys[i] != keys[j])
    && (forall p :: p in s.writers <==> p in keys)
  }

  /** Not an append, and not the end of an empty batch that could take a record. */
  predicate Diligent(s: State, step: Step) {
    match step
    case Enqueue(_, _) => false
    case Run(t) =>
      t < |s.threads| && (s.threads[t].Batching? && IsBusy(s, s.threads[t].p) ==> s.threads[t].batch != [])
    case _ => true
  }

  // ---------------------------------------------------------------- every step does some of it

  lemma SendTokenWorks(cfg: Config, s: State, p: Key, keys: seq<Key>, i: nat)
    requires Enabled(s, SendToken(p)) && Names(s, keys) && i < |keys| && keys[i] == p
    ensures Work(Next(cfg, s, SendToken(p)), keys) < Work(s, keys)
  {
    var s' := Next(cfg, s, SendToken(p));
    assert Queues(s', keys) == Queues(s, keys);
    assert Pendings(s', keys) == Pendings(s, keys)[i := s.writers[p].pending - 1];
    SumUpdate(Pendings(s, keys), i, s.writers[p].pending - 1);
    assert Ranks(s') == Ranks(s);
  }

  lemma RecvWorks(cfg: Config, s: State, t: nat, keys: seq<Key>)
    requires Enabled(s, Recv(t))
    ensures Work(Next(cfg, s, Recv(t)), keys) < Work(s, keys)
  {
    var s' := Next(cfg, s, Recv(t));
    assert Queues(s', keys) == Queues(s, keys) && Pendings(s', keys) == Pendings(s, keys);
    assert Ranks(s') == Ranks(s)[t := 8];
    SumUpdate(Ranks(s), t, 8);
  }

  /** What a thread does leaves the queue alone, and brings it nearer to waiting by more than a token is worth. */
  lemma ActWorks(mode: Mode, w: Writer, th: Thread, t: nat, busy: bool)
    requires !th.Waiting? && busy == (w.queue != []) && (th.Batching? && busy ==> th.batch != [])
    ensures var a := Act(mode, w, th, t);
            && a.w.queue == w.queue && a.w.pending == w.pending && (a.th.Waiting? || a.th.p == th.p)
            && Rank(a.th, !a.th.Waiting? && busy) + 9 * |a.sent| < Rank(th, busy)
  {
  }

  lemma RunWorks(cfg: Config, s: State, t: nat, keys: seq<Key>)
    requires Enabled(s, Run(t)) && Diligent(s, Run(t))
    ensures Work(Next(cfg, s, Run(t)), keys) < Work(s, keys)
  {
    var s', th := Next(cfg, s, Run(t)), s.threads[t];
    var w := s.writers[th.p];
    var a := Act(cfg.mode, w, th, t);
    ActWorks(cfg.mode, w, th, t, w.queue != []);
    assert Queues(s', keys) == Queues(s, keys) && Pendings(s', keys) == Pendings(s, keys);
    assert forall p :: IsBusy(s', p) == IsBusy(s, p);
    assert Ranks(s') == Ranks(s)[t := RankIn(s', a.th)];
    SumUpdate(Ranks(s), t, RankIn(s', a.th));
  }

  /** A thread that does not hold the flag is not further away when the queue runs empty. */
  lemma OthersDoNotGrow(s: State, s': State, th: Thread, p: Key)
    requires !Holds(th, p) && forall q :: q != p ==> IsBusy(s', q) == IsBusy(s, q)
    requires IsBusy(s', p) ==> IsBusy(s, p)
    ensures RankIn(s', th) <= RankIn(s, th)
  {
  }

  lemma TakeWorks(cfg: Config, s: State, t: nat, keys: seq<Key>, i: nat)
    requires Enabled(s, Take(t)) && i < |keys| && keys[i] == s.threads[t].p && Names(s, keys)
    requires forall u :: 0 <= u < |s.threads| && u != t ==> !Holds(s.threads[u], s.threads[t].p)
    ensures Work(Next(cfg, s, Take(t)), keys) < Work(s, keys)
  {
    var s', th := Next(cfg, s, Take(t)), s.threads[t];
    var p := th.p;
    var w := s.writers[p];
    assert Queues(s', keys) == Queues(s, keys)[i := |w.queue| - 1];
    SumUpdate(Queues(s, keys), i, |w.queue| - 1);
    assert Pendings(s', keys) == Pendings(s, keys);
    forall u | 0 <= u < |s.threads| && u != t ensures Ranks(s')[u] <= Ranks(s)[u] {
      OthersDoNotGrow(s, s', s.threads[u], p);
    }
    SumChange(Ranks(s), Ranks(s'), t);
  }

  lemma OnlyHolder(cfg: Config, n: nat, s: State, t: nat, u: nat)
    requires Reachable(cfg, n, s) && t < |s.threads| && u < |s.threads| && s.threads[t].Batching? && u != t
    ensures !Holds(s.threads[u], s.threads[t].p)
  {
    if Holds(s.threads[u], s.threads[t].p) {
      OneWriterPerPrefix(cfg, n, s, s.threads[t].p, t, u);
    }
  }

  /** Every diligent step leaves less to do. */
  lemma StepWorks(cfg: Config, n: nat, s: State, step: Step, keys: seq<Key>)
    requires Reachable(cfg, n, s) && Names(s, keys) && Enabled(s, step) && Diligent(s, step)
    ensures Work(Next(cfg, s, step), keys) < Work(s, keys) && Names(Next(cfg, s, step), keys)
  {
    match step
    case SendToken(p) =>
      var i :| 0 <= i < |keys| && keys[i] == p;
      SendTokenWorks(cfg, s, p, keys, i);
    case Recv(t) => RecvWorks(cfg, s, t, keys);
    case Take(t) =>
      forall u | 0 <= u < |s.threads| && u != t ensures !Holds(s.threads[u], s.threads[t].p) {
        OnlyHolder(cfg, n, s, t, u);
      }
      var i :| 0 <= i < |keys| && keys[i] == s.threads[t].p;
      TakeWorks(cfg, s, t, keys, i);
    case Run(t) => RunWorks(cfg, s, t, keys);
  }

  // ---------------------------------------------------------------- every schedule

  lemma {:induction false} ThreadsStay(cfg: Config, s: State, steps: seq<Step>)
    requires Feasible(cfg, s, steps)
    ensures |After(cfg, s, steps).threads| == |s.threads|
    decreases |steps|
  {
    if steps != [] {
      ThreadsStay(cfg, Next(cfg, s, steps[0]), steps[1..]);
    }
  }

  lemma ThreadCount(cfg: Config, n: nat, s: State)
    requires Reachable(cfg, n, s)
    ensures |s.threads| == n
  {
    var steps :| Feasible(cfg, Init(n), steps) && s == After(cfg, Init(n), steps);
    ThreadsStay(cfg, Init(n), steps);
  }

  ghost predicate AllDiligent(cfg: Config, s: State, steps: seq<Step>)
    requires Feasible(cfg, s, steps)
    decreases |steps|
  {
    steps == [] || (Diligent(s, steps[0]) && AllDiligent(cfg, Next(cfg, s, steps[0]), steps[1..]))
  }

  /**
    Whatever the schedule, and without any fairness: diligent steps from any reachable state come to an end after at
    most as many steps as there is work, and where they come to an end all is quiet.
   */
  lemma {:induction false} EveryScheduleEnds(cfg: Config, n: nat, s: State, steps: seq<Step>, keys: seq<Key>)
    requires Reachable(cfg, n, s) && n > 0 && Names(s, keys)
    requires Feasible(cfg, s, steps) && AllDiligent(cfg, s, steps)
    ensures |steps| + Work(After(cfg, s, steps), keys) <= Work(s, keys)
    ensures Quiet(After(cfg, s, steps))
            || exists step :: Enabled(After(cfg, s, steps), step) && Diligent(After(cfg, s, steps), step)
    decreases |steps|
  {
    if steps == [] {
      CanGoOn(cfg, n, s);
    } else {
      StepWorks(cfg, n, s, steps[0], keys);
      ReachableStep(cfg, n, s, steps[0]);
      EveryScheduleEnds(cfg, n, Next(cfg, s, steps[0]), steps[1..], keys);
    }
  }

  /** Unless all is quiet there is a diligent step. */
  lemma CanGoOn(cfg: Config, n: nat, s: State)
    requires Reachable(cfg, n, s) && n > 0
    ensures Quiet(s) || exists step :: Enabled(s, step) && Diligent(s, step)
  {
    ReachableInv(cfg, n, s);
    ThreadCount(cfg, n, s);
    if p :| p in s.writers && s.writers[p].pending != 0 {
      assert Enabled(s, SendToken(p)) && Diligent(s, SendToken(p));
    } else if t :| 0 <= t < |s.threads| && !s.threads[t].Waiting? {
      if Diligent(s, Run(t)) {
        assert Enabled(s, Run(t));
      } else {
        assert Enabled(s, Take(t)) && Diligent(s, Take(t));
      }
    } else if s.tokens != [] {
      assert Enabled(s, Recv(0)) && Diligent(s, Recv(0));
    }
  }

  lemma {:induction false} Enumerate(ps: set<Key>) returns (keys: seq<Key>)
    ensures forall i, j :: 0 <= i < j < |keys| ==> keys[i] != keys[j]
    ensures forall p :: p in ps <==> p in keys
    decreases ps
  {
    keys := [];
    if ps != {} {
      var p :| p in ps;
      var rest := Enumerate(ps - {p});
      keys := rest + [p];
    }
  }

  /** So from every reachable state the log can come to rest without further appends. */
  lemma {:induction false} ComesToRest(cfg: Config, n: nat, s: State, keys: seq<Key>) returns (steps: seq<Step>)
    requires Reachable(cfg, n, s) && n > 0 && Names(s, keys)
    ensures Feasible(cfg, s, steps) && AllDiligent(cfg, s, steps) && Quiet(After(cfg, s, steps))
    decreases Work(s, keys)
  {
    if Quiet(s) {
      steps := [];
    } else {
      CanGoOn(cfg, n, s);
      var step :| Enabled(s, step) && Diligent(s, step);
      StepWorks(cfg, n, s, step, keys);
      ReachableStep(cfg, n, s, step);
      var rest := ComesToRest(cfg, n, Next(cfg, s, step), keys);
      steps := [step] + rest;
      assert steps[1..] == rest;
    }
  }

  // ---------------------------------------------------------------- empty batches

  /** The state with this thread at `th` and its writer's flag set or not. */
  function Around(s: State, t: nat, th: Thread, flag: bool): State
    requires t < |s.threads| && s.threads[t].Received? && s.threads[t].p in s.writers
  {
    var p := s.threads[t].p;
    var w := s.writers[p].(isWriting := flag, holder := if flag then Some(t) else None);
    s.(writers := s.writers[p := w], threads := s.threads[t := th])
  }

  /** A thread has a token, the only one, for a prefix with records waiting that nobody writes. */
  predicate Alone(cfg: Config, s: State, t: nat) {
    && t < |s.threads| && s.threads[t].Received? && IsBusy(s, s.threads[t].p) && s.tokens == []
    && var w := s.writers[s.threads[t].p];
       !w.isWriting && w.holder.None? && (cfg.mode.Sync? ==> w.synced == w.written)
  }

  /** The thread's step leads from `th` to `th'`. */
  predicate Goes(cfg: Config, s: State, t: nat, th: Thread, flag: bool, th': Thread, flag': bool)
    requires Alone(cfg, s, t)
  {
    var s1 := Around(s, t, th, flag);
    Enabled(s1, Run(t)) && Next(cfg, s1, Run(t)) == Around(s, t, th', flag')
  }

  lemma IntoEmptyBatch(cfg: Config, s: State, t: nat)
    requires Alone(cfg, s, t)
    ensures var p := s.threads[t].p;
            && Around(s, t, Received(p), false) == s
            && Goes(cfg, s, t, Received(p), false, Claiming(p), false)
            && Goes(cfg, s, t, Claiming(p), false, Batching(p, []), true)
  {
  }

  lemma ThroughEmptyBatch(cfg: Config, s: State, t: nat)
    requires Alone(cfg, s, t)
    ensures var p := s.threads[t].p;
            && Goes(cfg, s, t, Batching(p, []), true, Writing(p, []), true)
            && Goes(cfg, s, t, Writing(p, []), true, Syncing(p, []), true)
  {
    var w := s.writers[s.threads[t].p];
    assert Records([]) == [] && w.file + [] == w.file;
  }

  lemma PastEmptyBatch(cfg: Config, s: State, t: nat)
    requires Alone(cfg, s, t)
    ensures var p := s.threads[t].p;
            && Goes(cfg, s, t, Syncing(p, []), true, Notifying(p, []), true)
            && Goes(cfg, s, t, Notifying(p, []), true, Unlocking(p), true)
  {
  }

  lemma OutOfEmptyBatch(cfg: Config, s: State, t: nat)
    requires Alone(cfg, s, t)
    ensures var p := s.threads[t].p;
            && Goes(cfg, s, t, Unlocking(p), true, Rechecking(p), false)
            && Goes(cfg, s, t, Rechecking(p), false, Resending(p), false)
  {
  }

  /** The steps of thread `t` from taking a token to taking it again. */
  function Circle(t: nat, k: nat): seq<Step> { if k == 0 then [Recv(t)] else [Run(t)] + Circle(t, k - 1) }

  /** From `th` the thread comes round in `k` steps and a receive. */
  ghost predicate ComesRound(cfg: Config, s: State, t: nat, th: Thread, flag: bool, k: nat)
    requires Alone(cfg, s, t)
  {
    Feasible(cfg, Around(s, t, th, flag), Circle(t, k)) && After(cfg, Around(s, t, th, flag), Circle(t, k)) == s
  }

  lemma BackAgain(cfg: Config, s: State, t: nat)
    requires Alone(cfg, s, t)
    ensures ComesRound(cfg, s, t, Resending(s.threads[t].p), false, 1)
  {
    var p := s.threads[t].p;
    var s1 := Around(s, t, Resending(p), false);
    var s2 := Next(cfg, s1, Run(t));
    assert s2.tokens == [p];
    assert s2.threads[t := Received(p)] == s.threads;
    assert Next(cfg, s2, Recv(t)) == s;
    assert Circle(t, 0)[1..] == [] && Circle(t, 1)[1..] == Circle(t, 0);
    assert Feasible(cfg, s, []) && Feasible(cfg, s2, Circle(t, 0));
    assert After(cfg, s2, Circle(t, 0)) == After(cfg, s, []) == s;
  }

  lemma OneMore(cfg: Config, s: State, t: nat, th: Thread, flag: bool, th': Thread, flag': bool, k: nat)
    requires Alone(cfg, s, t) && Goes(cfg, s, t, th, flag, th', flag') && ComesRound(cfg, s, t, th', flag', k)
    ensures ComesRound(cfg, s, t, th, flag, k + 1)
  {
    assert Circle(t, k + 1)[1..] == Circle(t, k);
  }

  /**
    Closing empty batches is all that has to be excluded: where records wait and a thread alone closes its batch empty,
    it is back where it was after ten steps, and so on for ever.
   */
  lemma EmptyBatchesLoop(cfg: Config, s: State, t: nat)
    requires Alone(cfg, s, t)
    ensures Feasible(cfg, s, Circle(t, 9)) && After(cfg, s, Circle(t, 9)) == s
  {
    var p := s.threads[t].p;
    IntoEmptyBatch(cfg, s, t);
    ThroughEmptyBatch(cfg, s, t);
    PastEmptyBatch(cfg, s, t);
    OutOfEmptyBatch(cfg, s, t);
    BackAgain(cfg, s, t);
    OneMore(cfg, s, t, Rechecking(p), false, Resending(p), false, 1);
    OneMore(cfg, s, t, Unlocking(p), true, Rechecking(p), false, 2);
    OneMore(cfg, s, t, Notifying(p, []), true, Unlocking(p), true, 3);
    OneMore(cfg, s, t, Syncing(p, []), true, Notifying(p, []), true, 4);
    OneMore(cfg, s, t, Writing(p, []), true, Syncing(p, []), true, 5);
    OneMore(cfg, s, t, Batching(p, []), true, Writing(p, []), true, 6);
    OneMore(cfg, s, t, Claiming(p), false, Batching(p, []), true, 7);
    OneMore(cfg, s, t, Received(p), false, Claiming(p), false, 8);
  }

  /** One append is enough to get there. */
  lemma AloneAfterOneAppend(cfg: Config, n: nat, p: Key, e: Entry) returns (s: State)
    requires n > 0 && Persists(cfg, p)
    ensures Reachable(cfg, n, s) && Alone(cfg, s, 0)
  {
    InitIsReachable(cfg, n);
    var s1 := Next(cfg, Init(n), Enqueue(p, e));
    ReachableStep(cfg, n, Init(n), Enqueue(p, e));
    var s2 := Next(cfg, s1, SendToken(p));
    ReachableStep(cfg, n, s1, SendToken(p));
    s := Next(cfg, s2, Recv(0));
    ReachableStep(cfg, n, s2, Recv(0));
  }
}
