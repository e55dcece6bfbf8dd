/**
  The hand-off from appenders to the writer threads of the write-ahead log, as a transition system. An appender queues
  a record with its prefix's writer and then sends the writer as a token; any thread may take the token, but only one
  may write a prefix at a time. Writes are taken to succeed.
 */
module WalHandoff {
  import opened Wrappers
  import opened Bytes
  import opened WalCodec
  import WalMerge

  /** A batch is closed once it has this many bytes. */
  const END_SIZE := 16384

  datatype Mode = NoLog | Async | Sync

  /** The log's settings, and the records that earlier runs have left in the files. */
  datatype Config = Config(mode: Mode, noPersist: set<Key>, disk: map<Key, seq<Record>>)

  /** A queued record, with whom to notify when it is written. */
  datatype Entry = Entry(rec: Record, waiter: Option<nat>)

  /**
    The writer of one prefix: its queue, its flag, the records in its file (whose bytes are their encoding), and the
    number of appenders that have queued a record and not yet sent the token. `appended`, `written`, `synced` and
    `holder` are history: all entries ever queued, how many of them are in the file, how many an fsync has covered,
    and the thread that has set the flag.
   */
  datatype Writer = Writer(
    queue: seq<Entry>, isWriting: bool, file: seq<Record>, pending: nat,
    appended: seq<Entry>, written: nat, synced: nat, holder: Option<nat>)

  /** Where a thread stands in its loop. */
  datatype Thread =
    | Waiting
    | Received(p: Key)
    | Claiming(p: Key)
    | Batching(p: Key, batch: seq<Entry>)
    | Writing(p: Key, batch: seq<Entry>)
    | Syncing(p: Key, batch: seq<Entry>)
    | Notifying(p: Key, batch: seq<Entry>)
    | Unlocking(p: Key)
    | Rechecking(p: Key)
    | Resending(p: Key)

  datatype State = State(writers: map<Key, Writer>, threads: seq<Thread>, tokens: seq<Key>, released: set<nat>)

  function Records(es: seq<Entry>): (rs: seq<Record>)
    ensures |rs| == |es| && forall i :: 0 <= i < |es| ==> rs[i] == es[i].rec
  {
    seq(|es|, i requires 0 <= i < |es| => es[i].rec)
  }

  function Size(r: Record): nat { |r.key| + (if r.value.Some? then |r.value.value| else 0) + HEADER }

  function BatchSize(es: seq<Entry>): nat {
    if es == [] then 0 else BatchSize(es[..|es| - 1]) + Size(es[|es| - 1].rec)
  }

  function Before(cfg: Config, p: Key): seq<Record> { if p in cfg.disk then cfg.disk[p] else [] }

  function OpenForPrefix(cfg: Config, p: Key): Writer {
    Writer([], false, Before(cfg, p), 0, [], 0, 0, None)
  }

  // ---------------------------------------------------------------- the steps

  /** What a thread's step does to its writer, to itself, to the tokens and to the waiters. */
  datatype Effect = Effect(w: Writer, th: Thread, sent: seq<Key>, notified: set<nat>)

  /** Which threads have set the flag of `p`. */
  predicate Holds(th: Thread, p: Key) {
    (th.Batching? || th.Writing? || th.Syncing? || th.Notifying? || th.Unlocking?) && th.p == p
  }

  predicate On(th: Thread, p: Key) { !th.Waiting? && th.p == p }

  /** The next step of thread `t`, which is at `th` and working on the prefix of `w`. */
  function Act(mode: Mode, w: Writer, th: Thread, t: nat): Effect
    requires !th.Waiting?
  {
    match th
    case Received(p) =>
      if w.queue == [] then Effect(w, Waiting, [], {}) else Effect(w, Claiming(p), [], {})
    case Claiming(p) =>
      if w.isWriting then Effect(w, Waiting, [], {})
      else Effect(w.(isWriting := true, holder := Some(t)), Batching(p, []), [], {})
    case Batching(p, batch) =>
      Effect(w, Writing(p, batch), [], {})
    case Writing(p, batch) =>
      Effect(w.(file := w.file + Records(batch), written := w.written + |batch|), Syncing(p, batch), [], {})
    case Syncing(p, batch) =>
      Effect(if mode.Sync? then w.(synced := w.written) else w, Notifying(p, batch), [], {})
    case Notifying(p, batch) =>
      if batch == [] then Effect(w, Unlocking(p), [], {})
      else Effect(w, Notifying(p, batch[1..]), [], if batch[0].waiter.Some? then {batch[0].waiter.value} else {})
    case Unlocking(p) =>
      Effect(w.(isWriting := false, holder := None), Rechecking(p), [], {})
    case Rechecking(p) =>
      if w.queue == [] then Effect(w, Waiting, [], {}) else Effect(w, Resending(p), [], {})
    case Resending(p) =>
      Effect(w, Waiting, [p], {})
  }

  datatype Step =
    | Enqueue(p: Key, e: Entry)   // append: queue the record
    | SendToken(p: Key)           // append: send the token
    | Recv(t: nat)                // a waiting thread takes a token
    | Take(t: nat)                // a batching thread takes one more record
    | Run(t: nat)                 // a thread's next step; a batching thread's time is up or its batch is full

  predicate Enabled(s: State, step: Step) {
    match step
    case Enqueue(p, e) => true
    case SendToken(p) => p in s.writers && s.writers[p].pending > 0
    case Recv(t) => t < |s.threads| && s.threads[t].Waiting? && s.tokens != []
    case Take(t) =>
      && t < |s.threads| && s.threads[t].Batching? && s.threads[t].p in s.writers
      && s.writers[s.threads[t].p].queue != [] && BatchSize(s.threads[t].batch) < END_SIZE
    case Run(t) => t < |s.threads| && !s.threads[t].Waiting? && s.threads[t].p in s.writers
  }

  predicate Persists(cfg: Config, p: Key) { !cfg.mode.NoLog? && p !in cfg.noPersist }

  function WriterOf(cfg: Config, s: State, p: Key): Writer {
    if p in s.writers then s.writers[p] else OpenForPrefix(cfg, p)
  }

  function Queued(w: Writer, e: Entry): Writer {
    w.(queue := w.queue + [e], appended := w.appended + [e], pending := w.pending + 1)
  }

  function Next(cfg: Config, s: State, step: Step): State
    requires Enabled(s, step)
  {
    match step
    case Enqueue(p, e) =>
      if Persists(cfg, p) then s.(writers := s.writers[p := Queued(WriterOf(cfg, s, p), e)]) else s
    case SendToken(p) =>
      var w := s.writers[p];
      s.(writers := s.writers[p := w.(pending := w.pending - 1)], tokens := s.tokens + [p])
    case Recv(t) =>
      s.(threads := s.threads[t := Received(s.tokens[0])], tokens := s.tokens[1..])
    case Take(t) =>
      var th := s.threads[t];
      var w := s.writers[th.p];
      s.(writers := s.writers[th.p := w.(queue := w.queue[1..])],
         threads := s.threads[t := Batching(th.p, th.batch + [w.queue[0]])])
    case Run(t) =>
      var p := s.threads[t].p;
      var a := Act(cfg.mode, s.writers[p], s.threads[t], t);
      State(s.writers[p := a.w], s.threads[t := a.th], s.tokens + a.sent, s.released + a.notified)
  }

  function Init(threads: nat): State { State(map[], seq(threads, _ => Waiting), [], {}) }

  /**
    Appending, in terms of the settings alone: unless logging is off or the prefix is excluded, the record is queued
    last with the writer of its prefix, which is opened if it is not there, and a token is to follow; otherwise nothing
    happens.
   */
  lemma AppendQueues(cfg: Config, s: State, p: Key, e: Entry)
    ensures Enabled(s, Enqueue(p, e))
    ensures cfg.mode == NoLog || p in cfg.noPersist ==> Next(cfg, s, Enqueue(p, e)) == s
    ensures cfg.mode != NoLog && p !in cfg.noPersist ==>
              var s' := Next(cfg, s, Enqueue(p, e));
              && s' == s.(writers := s'.writers) && s'.writers.Keys == s.writers.Keys + {p}
              && (forall q :: q in s.writers && q != p ==> s'.writers[q] == s.writers[q])
              && var w' := s'.writers[p];
                 if p in s.writers then
                   w' == s.writers[p].(queue := w'.queue, appended := w'.appended, pending := w'.pending)
                   && w'.queue == s.writers[p].queue + [e] && w'.appended == s.writers[p].appended + [e]
                   && w'.pending == s.writers[p].pending + 1
                 else
                   && w'.queue == w'.appended == [e] && w'.pending == 1 && !w'.isWriting
                   && w'.file == if p in cfg.disk then cfg.disk[p] else []
  {
  }

  // ---------------------------------------------------------------- the invariant

  /** The flag is set exactly while its holder writes, and no other thread writes. */
  ghost predicate Exclusive(w: Writer, ths: seq<Thread>, p: Key) {
    && w.isWriting == w.holder.Some?
    && (w.holder.Some? ==> w.holder.value < |ths|)
    && forall t {:trigger ths[t]} :: 0 <= t < |ths| ==> (Holds(ths[t], p) <==> w.holder == Some(t))
  }

  /** The thread that has set the flag. */
  function HolderOf(w: Writer, ths: seq<Thread>): Thread {
    if w.holder.Some? && w.holder.value < |ths| then ths[w.holder.value] else Waiting
  }

  /** What is taken off the queue and not yet in the file. */
  function Taken(th: Thread): seq<Entry> { if th.Batching? || th.Writing? then th.batch else [] }

  /** How many of the entries in the file have yet to be notified. */
  function Unnotified(th: Thread): nat { if th.Syncing? || th.Notifying? then |th.batch| else 0 }

  /** Nothing is lost, added or reordered between the appenders and the file. */
  ghost predicate Conserved(cfg: Config, w: Writer, th: Thread, p: Key) {
    && w.written <= |w.appended|
    && w.file == Before(cfg, p) + Records(w.appended[..w.written])
    && Taken(th) + w.queue == w.appended[w.written..]
  }

  ghost predicate Latest(w: Writer, batch: seq<Entry>) {
    |batch| <= w.written <= |w.appended| && batch == w.appended[w.written - |batch|..w.written]
  }

  /** A batch that is in the file is the last part of it, and synced if it has to be. */
  ghost predicate Settled(cfg: Config, w: Writer, th: Thread) {
    && w.synced <= w.written <= |w.appended|
    && (th.Syncing? || th.Notifying? ==> Latest(w, th.batch))
    && (th.Notifying? && cfg.mode.Sync? ==> w.synced == w.written)
  }

  /** A queue with work is known to someone who will look at it. */
  ghost predicate Covered(w: Writer, ths: seq<Thread>, tokens: seq<Key>, p: Key) {
    w.queue != [] ==> w.pending > 0 || p in tokens || exists t :: 0 <= t < |ths| && On(ths[t], p)
  }

  /** Everyone is notified whose entry is in the file and whose batch is done. */
  ghost predicate Notified(w: Writer, th: Thread, released: set<nat>) {
    && Unnotified(th) <= w.written <= |w.appended|
    && forall i :: 0 <= i < w.written - Unnotified(th) && w.appended[i].waiter.Some? ==>
                     w.appended[i].waiter.value in released
  }

  ghost predicate PrefixInv(cfg: Config, s: State, p: Key)
    requires p in s.writers
  {
    var w := s.writers[p];
    var th := HolderOf(w, s.threads);
    && Exclusive(w, s.threads, p) && Covered(w, s.threads, s.tokens, p)
    && Conserved(cfg, w, th, p) && Settled(cfg, w, th) && Notified(w, th, s.released)
  }

  /** Some entry of that waiter is in a file, and synced if it has to be. */
  ghost predicate Durable(mode: Mode, w: Writer, i: nat, waiter: nat) {
    && i < w.written <= |w.appended| && w.appended[i].waiter == Some(waiter)
    && (mode.Sync? ==> i < w.synced)
  }

  ghost predicate ReleasedInv(cfg: Config, s: State) {
    forall v :: v in s.released ==> exists p, i :: p in s.writers && Durable(cfg.mode, s.writers[p], i, v)
  }

  ghost predicate Inv(cfg: Config, s: State) {
    && (forall p {:trigger PrefixInv(cfg, s, p)} :: p in s.writers ==> PrefixInv(cfg, s, p))
    && Known(s) && ReleasedInv(cfg, s)
  }

  // ---------------------------------------------------------------- a thread's own prefix

  /** One thread and its writer's flag change together. */
  lemma ExclusiveStep(w: Writer, w': Writer, ths: seq<Thread>, t: nat, th: Thread, p: Key)
    requires Exclusive(w, ths, p) && t < |ths|
    requires w'.isWriting == w'.holder.Some? && (Holds(th, p) <==> w'.holder == Some(t))
    requires w'.holder == w.holder || (w.holder in {None, Some(t)} && w'.holder in {None, Some(t)})
    ensures Exclusive(w', ths[t := th], p)
  {
  }

  lemma ActExclusive(mode: Mode, w: Writer, ths: seq<Thread>, t: nat)
    requires t < |ths| && !ths[t].Waiting? && Exclusive(w, ths, ths[t].p)
    ensures var a := Act(mode, w, ths[t], t);
            Exclusive(a.w, ths[t := a.th], ths[t].p)
  {
    var a := Act(mode, w, ths[t], t);
    ExclusiveStep(w, a.w, ths, t, a.th, ths[t].p);
  }

  /** How a thread's step looks from its prefix's holder: either it is the holder, or the holder does not change. */
  lemma ActHolder(mode: Mode, w: Writer, ths: seq<Thread>, t: nat)
    requires t < |ths| && !ths[t].Waiting? && Exclusive(w, ths, ths[t].p)
    ensures var a := Act(mode, w, ths[t], t);
            var before, after := HolderOf(w, ths), HolderOf(a.w, ths[t := a.th]);
            || (before == ths[t] && Holds(ths[t], ths[t].p)
                && after == (if Holds(a.th, ths[t].p) then a.th else Waiting))
            || (before == Waiting && after == a.th == Batching(ths[t].p, []) && ths[t].Claiming?)
            || (before == after && a.w == w && !Holds(ths[t], ths[t].p))
  {
  }

  /** The batch is the front of what is not yet in the file. */
  lemma BatchIsNext(w: Writer, batch: seq<Entry>)
    requires w.written <= |w.appended| && batch + w.queue == w.appended[w.written..]
    ensures w.written + |batch| <= |w.appended|
    ensures batch == w.appended[w.written..w.written + |batch|]
    ensures w.queue == w.appended[w.written + |batch|..]
  {
    var rest := w.appended[w.written..];
    assert |rest| == |batch| + |w.queue|;
    assert rest[..|batch|] == batch && rest[|batch|..] == w.queue;
  }

  lemma RecordsConcat(older: seq<Record>, es: seq<Entry>, n: nat, m: nat)
    requires n <= m <= |es|
    ensures older + Records(es[..m]) == (older + Records(es[..n])) + Records(es[n..m])
  {
  }

  /** The batch goes from the front of the rest to the end of the file. */
  lemma WriteConserves(cfg: Config, w: Writer, p: Key, batch: seq<Entry>)
    requires Conserved(cfg, w, Writing(p, batch), p)
    ensures var w' := w.(file := w.file + Records(batch), written := w.written + |batch|);
            Conserved(cfg, w', Syncing(p, batch), p)
  {
    BatchIsNext(w, batch);
    RecordsConcat(Before(cfg, p), w.appended, w.written, w.written + |batch|);
  }

  /** The holder's step keeps the data. */
  lemma HolderConserves(cfg: Config, w: Writer, th: Thread, t: nat, p: Key)
    requires Holds(th, p) && Conserved(cfg, w, th, p)
    ensures var a := Act(cfg.mode, w, th, t);
            Conserved(cfg, a.w, if Holds(a.th, p) then a.th else Waiting, p)
  {
    if th.Writing? {
      WriteConserves(cfg, w, p, th.batch);
    }
  }

  lemma NotifySettles(w: Writer, batch: seq<Entry>)
    requires Latest(w, batch) && batch != []
    ensures batch[0] == w.appended[w.written - |batch|] && Latest(w, batch[1..])
  {
  }

  lemma WriteSettles(w: Writer, batch: seq<Entry>, w': Writer)
    requires w.written <= |w.appended| && batch + w.queue == w.appended[w.written..]
    requires w'.appended == w.appended && w'.written == w.written + |batch|
    ensures Latest(w', batch)
  {
    BatchIsNext(w, batch);
  }

  lemma HolderSettles(cfg: Config, w: Writer, th: Thread, t: nat, p: Key)
    requires Holds(th, p) && Settled(cfg, w, th) && Taken(th) + w.queue == w.appended[w.written..]
    ensures var a := Act(cfg.mode, w, th, t);
            Settled(cfg, a.w, if Holds(a.th, p) then a.th else Waiting)
  {
    if th.Writing? {
      WriteSettles(w, th.batch, Act(cfg.mode, w, th, t).w);
    } else if th.Notifying? && th.batch != [] {
      NotifySettles(w, th.batch);
    }
  }

  lemma HolderNotifies(cfg: Config, w: Writer, th: Thread, t: nat, p: Key, released: set<nat>)
    requires Holds(th, p) && Settled(cfg, w, th) && Notified(w, th, released)
    requires Taken(th) + w.queue == w.appended[w.written..]
    ensures var a := Act(cfg.mode, w, th, t);
            Notified(a.w, if Holds(a.th, p) then a.th else Waiting, released + a.notified)
  {
    if th.Writing? {
      BatchIsNext(w, th.batch);
    } else if th.Notifying? && th.batch != [] {
      NotifySettles(w, th.batch);
    }
  }

  lemma ActCovers(mode: Mode, w: Writer, ths: seq<Thread>, tokens: seq<Key>, t: nat)
    requires t < |ths| && !ths[t].Waiting? && Exclusive(w, ths, ths[t].p) && Covered(w, ths, tokens, ths[t].p)
    ensures var a := Act(mode, w, ths[t], t);
            Covered(a.w, ths[t := a.th], tokens + a.sent, ths[t].p)
  {
    var p := ths[t].p;
    var a := Act(mode, w, ths[t], t);
    var ths' := ths[t := a.th];
    if a.w.queue != [] {
      assert On(a.th, p) ==> On(ths'[t], p);
      match ths[t]
      case Claiming(_) =>
        if w.isWriting {
          assert On(ths'[w.holder.value], p);
        }
      case Resending(_) => assert (tokens + a.sent)[|tokens|] == p;
      case _ =>
    }
  }

  lemma RunData(cfg: Config, w: Writer, ths: seq<Thread>, t: nat, released: set<nat>)
    requires t < |ths| && !ths[t].Waiting? && Exclusive(w, ths, ths[t].p)
    requires var th := HolderOf(w, ths);
             Conserved(cfg, w, th, ths[t].p) && Settled(cfg, w, th) && Notified(w, th, released)
    ensures var a := Act(cfg.mode, w, ths[t], t);
            var th := HolderOf(a.w, ths[t := a.th]);
            && Conserved(cfg, a.w, th, ths[t].p) && Settled(cfg, a.w, th) && Notified(a.w, th, released + a.notified)
  {
    ActHolder(cfg.mode, w, ths, t);
    if Holds(ths[t], ths[t].p) {
      HolderConserves(cfg, w, ths[t], t, ths[t].p);
      HolderSettles(cfg, w, ths[t], t, ths[t].p);
      HolderNotifies(cfg, w, ths[t], t, ths[t].p, released);
    }
  }

  lemma RunOwnPrefix(cfg: Config, s: State, t: nat)
    requires Enabled(s, Run(t)) && PrefixInv(cfg, s, s.threads[t].p)
    ensures PrefixInv(cfg, Next(cfg, s, Run(t)), s.threads[t].p)
  {
    var w := s.writers[s.threads[t].p];
    ActExclusive(cfg.mode, w, s.threads, t);
    ActCovers(cfg.mode, w, s.threads, s.tokens, t);
    RunData(cfg, w, s.threads, t, s.released);
  }

  lemma TakeOwnPrefix(cfg: Config, s: State, t: nat)
    requires Enabled(s, Take(t)) && PrefixInv(cfg, s, s.threads[t].p)
    ensures PrefixInv(cfg, Next(cfg, s, Take(t)), s.threads[t].p)
  {
    var th := s.threads[t];
    var w := s.writers[th.p];
    var th' := Batching(th.p, th.batch + [w.queue[0]]);
    var w' := w.(queue := w.queue[1..]);
    assert HolderOf(w, s.threads) == th;
    ExclusiveStep(w, w', s.threads, t, th', th.p);
    assert On(s.threads[t := th'][t], th.p);
    assert th'.batch + w'.queue == th.batch + w.queue;
  }

  lemma RecvOwnPrefix(cfg: Config, s: State, t: nat)
    requires Enabled(s, Recv(t)) && s.tokens[0] in s.writers && PrefixInv(cfg, s, s.tokens[0])
    ensures PrefixInv(cfg, Next(cfg, s, Recv(t)), s.tokens[0])
  {
    var p := s.tokens[0];
    ExclusiveStep(s.writers[p], s.writers[p], s.threads, t, Received(p), p);
    assert On(s.threads[t := Received(p)][t], p);
  }

  // ---------------------------------------------------------------- the other prefixes

  /** A step that has nothing to do with prefix `q`. */
  ghost predicate Apart(s: State, s': State, q: Key, t: nat, th: Thread) {
    && q in s.writers && q in s'.writers && s'.writers[q] == s.writers[q]
    && t < |s.threads| && s'.threads == s.threads[t := th]
    && !On(s.threads[t], q) && !On(th, q)
    && (q in s.tokens ==> q in s'.tokens) && s.released <= s'.released
  }

  lemma ApartKeeps(cfg: Config, s: State, s': State, q: Key, t: nat, th: Thread)
    requires Apart(s, s', q, t, th) && PrefixInv(cfg, s, q)
    ensures PrefixInv(cfg, s', q)
  {
    var w := s.writers[q];
    ExclusiveStep(w, w, s.threads, t, th, q);
    assert HolderOf(w, s'.threads) == HolderOf(w, s.threads);
    if u :| 0 <= u < |s.threads| && On(s.threads[u], q) {
      assert On(s'.threads[u], q);
    }
  }

  // ---------------------------------------------------------------- appenders

  lemma EnqueueKeepsOwn(cfg: Config, s: State, p: Key, e: Entry)
    requires p in s.writers ==> PrefixInv(cfg, s, p)
    requires Persists(cfg, p)
    requires p !in s.writers ==> forall t {:trigger s.threads[t]} :: 0 <= t < |s.threads| ==> !On(s.threads[t], p)
    ensures PrefixInv(cfg, Next(cfg, s, Enqueue(p, e)), p)
  {
    var w := WriterOf(cfg, s, p);
    var w' := Queued(w, e);
    var th := HolderOf(w, s.threads);
    assert HolderOf(w', s.threads) == th;
    assert Conserved(cfg, w, th, p);
    assert w'.appended[..w.written] == w.appended[..w.written];
    assert w'.appended[w.written..] == w.appended[w.written..] + [e];
    assert Taken(th) + w'.queue == Taken(th) + w.queue + [e];
    if th.Syncing? || th.Notifying? {
      assert Latest(w', th.batch);
    }
  }

  lemma SendKeepsOwn(cfg: Config, s: State, p: Key)
    requires Enabled(s, SendToken(p)) && PrefixInv(cfg, s, p)
    ensures PrefixInv(cfg, Next(cfg, s, SendToken(p)), p)
  {
    assert (s.tokens + [p])[|s.tokens|] == p;
  }

  /** An appender's step has nothing to do with the other prefixes. */
  lemma AppenderKeepsOther(cfg: Config, s: State, s': State, q: Key)
    requires q in s.writers && q in s'.writers && s'.writers[q] == s.writers[q] && PrefixInv(cfg, s, q)
    requires s'.threads == s.threads && s'.released == s.released && (q in s.tokens ==> q in s'.tokens)
    ensures PrefixInv(cfg, s', q)
  {
  }

  // ---------------------------------------------------------------- every step keeps the invariant

  /** What is durable stays durable. */
  ghost predicate Grows(w: Writer, w': Writer) {
    && w.written <= w'.written <= |w'.appended| && w.synced <= w'.synced && w.appended <= w'.appended
  }

  lemma ReleasedStays(cfg: Config, s: State, s': State, p: Key)
    requires ReleasedInv(cfg, s) && s'.released == s.released
    requires p in s'.writers && s'.writers == s.writers[p := s'.writers[p]]
    requires p in s.writers ==> Grows(s.writers[p], s'.writers[p])
    ensures ReleasedInv(cfg, s')
  {
    forall v | v in s'.released ensures exists q, i :: q in s'.writers && Durable(cfg.mode, s'.writers[q], i, v) {
      var q, i :| q in s.writers && Durable(cfg.mode, s.writers[q], i, v);
      assert Durable(cfg.mode, s'.writers[q], i, v);
    }
  }

  lemma RunGrows(cfg: Config, s: State, t: nat)
    requires Enabled(s, Run(t)) && PrefixInv(cfg, s, s.threads[t].p)
    ensures Grows(s.writers[s.threads[t].p], Next(cfg, s, Run(t)).writers[s.threads[t].p])
  {
    RunOwnPrefix(cfg, s, t);
  }

  /** Only the first of a batch that is being notified is notified. */
  lemma NotifiedBy(mode: Mode, w: Writer, th: Thread, t: nat, v: nat)
    requires !th.Waiting? && v in Act(mode, w, th, t).notified
    ensures th.Notifying? && th.batch != [] && th.batch[0].waiter == Some(v) && Act(mode, w, th, t).w == w
  {
  }

  lemma HolderIsSettled(cfg: Config, s: State, t: nat)
    requires Enabled(s, Run(t)) && PrefixInv(cfg, s, s.threads[t].p) && s.threads[t].Notifying?
    ensures Settled(cfg, s.writers[s.threads[t].p], s.threads[t])
  {
    assert HolderOf(s.writers[s.threads[t].p], s.threads) == s.threads[t];
  }

  /** Whoever is notified has a durable entry. */
  lemma NotifiedIsDurable(cfg: Config, w: Writer, th: Thread, v: nat)
    requires th.Notifying? && Settled(cfg, w, th) && th.batch != [] && th.batch[0].waiter == Some(v)
    ensures |th.batch| <= w.written && Durable(cfg.mode, w, w.written - |th.batch|, v)
  {
    NotifySettles(w, th.batch);
  }

  lemma RunReleases(cfg: Config, s: State, t: nat)
    requires Enabled(s, Run(t)) && PrefixInv(cfg, s, s.threads[t].p) && ReleasedInv(cfg, s)
    ensures ReleasedInv(cfg, Next(cfg, s, Run(t)))
  {
    var s', th := Next(cfg, s, Run(t)), s.threads[t];
    var w := s.writers[th.p];
    RunGrows(cfg, s, t);
    ReleasedStays(cfg, s, s'.(released := s.released), th.p);
    forall v | v in s'.released ensures exists q, i :: q in s'.writers && Durable(cfg.mode, s'.writers[q], i, v) {
      if v in s.released {
        var q, i :| q in s'.writers && Durable(cfg.mode, s'.writers[q], i, v);
      } else {
        NotifiedBy(cfg.mode, w, th, t, v);
        HolderIsSettled(cfg, s, t);
        NotifiedIsDurable(cfg, w, th, v);
        assert Durable(cfg.mode, s'.writers[th.p], w.written - |th.batch|, v);
      }
    }
  }

  /** Every thread and every token is about a prefix that has a writer. */
  ghost predicate Known(s: State) {
    && (forall t {:trigger s.threads[t]} ::
          0 <= t < |s.threads| && !s.threads[t].Waiting? ==> s.threads[t].p in s.writers)
    && (forall k {:trigger s.tokens[k]} :: 0 <= k < |s.tokens| ==> s.tokens[k] in s.writers)
  }

  lemma KnownStays(cfg: Config, s: State, step: Step)
    requires Known(s) && Enabled(s, step)
    ensures Known(Next(cfg, s, step))
  {
  }

  lemma EnqueueKeeps(cfg: Config, s: State, p: Key, e: Entry)
    requires Inv(cfg, s)
    ensures Inv(cfg, Next(cfg, s, Enqueue(p, e)))
  {
    KnownStays(cfg, s, Enqueue(p, e));
    if Persists(cfg, p) {
      var s' := Next(cfg, s, Enqueue(p, e));
      forall q | q in s'.writers ensures PrefixInv(cfg, s', q) {
        if q in s.writers {
          assert PrefixInv(cfg, s, q);
        }
        if q == p {
          EnqueueKeepsOwn(cfg, s, p, e);
        } else {
          AppenderKeepsOther(cfg, s, s', q);
        }
      }
      assert p in s.writers ==> PrefixInv(cfg, s, p);
      ReleasedStays(cfg, s, s', p);
    }
  }

  lemma SendKeeps(cfg: Config, s: State, p: Key)
    requires Inv(cfg, s) && Enabled(s, SendToken(p))
    ensures Inv(cfg, Next(cfg, s, SendToken(p)))
  {
    KnownStays(cfg, s, SendToken(p));
    var s' := Next(cfg, s, SendToken(p));
    forall q | q in s'.writers ensures PrefixInv(cfg, s', q) {
      assert PrefixInv(cfg, s, q);
      if q == p {
        SendKeepsOwn(cfg, s, p);
      } else {
        AppenderKeepsOther(cfg, s, s', q);
      }
    }
    assert PrefixInv(cfg, s, p);
    ReleasedStays(cfg, s, s', p);
  }

  lemma RecvKeeps(cfg: Config, s: State, t: nat)
    requires Inv(cfg, s) && Enabled(s, Recv(t))
    ensures Inv(cfg, Next(cfg, s, Recv(t)))
  {
    KnownStays(cfg, s, Recv(t));
    var s' := Next(cfg, s, Recv(t));
    forall q | q in s'.writers ensures PrefixInv(cfg, s', q) {
      assert PrefixInv(cfg, s, q);
      if q == s.tokens[0] {
        RecvOwnPrefix(cfg, s, t);
      } else {
        ApartKeeps(cfg, s, s', q, t, Received(s.tokens[0]));
      }
    }
  }

  lemma TakeKeeps(cfg: Config, s: State, t: nat)
    requires Inv(cfg, s) && Enabled(s, Take(t))
    ensures Inv(cfg, Next(cfg, s, Take(t)))
  {
    KnownStays(cfg, s, Take(t));
    var s' := Next(cfg, s, Take(t));
    var p := s.threads[t].p;
    forall q | q in s'.writers ensures PrefixInv(cfg, s', q) {
      assert PrefixInv(cfg, s, q);
      if q == p {
        TakeOwnPrefix(cfg, s, t);
      } else {
        ApartKeeps(cfg, s, s', q, t, s'.threads[t]);
      }
    }
    assert PrefixInv(cfg, s, p);
    ReleasedStays(cfg, s, s', p);
  }

  lemma RunKeeps(cfg: Config, s: State, t: nat)
    requires Inv(cfg, s) && Enabled(s, Run(t))
    ensures Inv(cfg, Next(cfg, s, Run(t)))
  {
    KnownStays(cfg, s, Run(t));
    var s' := Next(cfg, s, Run(t));
    var p := s.threads[t].p;
    forall q | q in s'.writers ensures PrefixInv(cfg, s', q) {
      assert PrefixInv(cfg, s, q);
      if q == p {
        RunOwnPrefix(cfg, s, t);
      } else {
        ApartKeeps(cfg, s, s', q, t, s'.threads[t]);
      }
    }
    assert PrefixInv(cfg, s, p);
    RunReleases(cfg, s, t);
  }

  lemma StepKeeps(cfg: Config, s: State, step: Step)
    requires Inv(cfg, s) && Enabled(s, step)
    ensures Inv(cfg, Next(cfg, s, step))
  {
    match step
    case Enqueue(p, e) => EnqueueKeeps(cfg, s, p, e);
    case SendToken(p) => SendKeeps(cfg, s, p);
    case Recv(t) => RecvKeeps(cfg, s, t);
    case Take(t) => TakeKeeps(cfg, s, t);
    case Run(t) => RunKeeps(cfg, s, t);
  }

  // ---------------------------------------------------------------- every run

  predicate Feasible(cfg: Config, s: State, steps: seq<Step>)
    decreases |steps|
  {
    steps == [] || (Enabled(s, steps[0]) && Feasible(cfg, Next(cfg, s, steps[0]), steps[1..]))
  }

  function After(cfg: Config, s: State, steps: seq<Step>): State
    requires Feasible(cfg, s, steps)
    decreases |steps|
  {
    if steps == [] then s else After(cfg, Next(cfg, s, steps[0]), steps[1..])
  }

  lemma {:induction false} StepsKeep(cfg: Config, s: State, steps: seq<Step>)
    requires Inv(cfg, s) && Feasible(cfg, s, steps)
    ensures Inv(cfg, After(cfg, s, steps))
    decreases |steps|
  {
    if steps != [] {
      StepKeeps(cfg, s, steps[0]);
      StepsKeep(cfg, Next(cfg, s, steps[0]), steps[1..]);
    }
  }

  /** The state after some run of appenders and `n` threads. */
  ghost predicate Reachable(cfg: Config, n: nat, s: State) {
    exists steps :: Feasible(cfg, Init(n), steps) && s == After(cfg, Init(n), steps)
  }

  lemma {:induction false} OneMoreStep(cfg: Config, s: State, steps: seq<Step>, step: Step)
    requires Feasible(cfg, s, steps) && Enabled(After(cfg, s, steps), step)
    ensures Feasible(cfg, s, steps + [step])
    ensures After(cfg, s, steps + [step]) == Next(cfg, After(cfg, s, steps), step)
    decreases |steps|
  {
    var all := steps + [step];
    if steps == [] {
      assert all == [step] && all[1..] == [];
    } else {
      assert all[0] == steps[0] && all[1..] == steps[1..] + [step];
      OneMoreStep(cfg, Next(cfg, s, steps[0]), steps[1..], step);
    }
  }

  lemma ReachableStep(cfg: Config, n: nat, s: State, step: Step)
    requires Reachable(cfg, n, s) && Enabled(s, step)
    ensures Reachable(cfg, n, Next(cfg, s, step))
  {
    var steps :| Feasible(cfg, Init(n), steps) && s == After(cfg, Init(n), steps);
    OneMoreStep(cfg, Init(n), steps, step);
  }

  lemma InitIsReachable(cfg: Config, n: nat)
    ensures Reachable(cfg, n, Init(n))
  {
    assert Feasible(cfg, Init(n), []) && After(cfg, Init(n), []) == Init(n);
  }

  lemma ReachableInv(cfg: Config, n: nat, s: State)
    requires Reachable(cfg, n, s)
    ensures Inv(cfg, s)
  {
    var steps :| Feasible(cfg, Init(n), steps) && s == After(cfg, Init(n), steps);
    StepsKeep(cfg, Init(n), steps);
  }

  /** The entries that a run appends to the log of `p`, in order. */
  function Appends(cfg: Config, steps: seq<Step>, p: Key): seq<Entry> {
    if steps == [] then []
    else
      (if steps[0].Enqueue? && steps[0].p == p && Persists(cfg, p) then [steps[0].e] else [])
      + Appends(cfg, steps[1..], p)
  }

  function AppendedOf(s: State, p: Key): seq<Entry> { if p in s.writers then s.writers[p].appended else [] }

  lemma ActAppendsNothing(mode: Mode, w: Writer, th: Thread, t: nat)
    requires !th.Waiting?
    ensures Act(mode, w, th, t).w.appended == w.appended
  {
  }

  lemma StepAppends(cfg: Config, s: State, step: Step, p: Key)
    requires Enabled(s, step)
    ensures AppendedOf(Next(cfg, s, step), p) ==
            AppendedOf(s, p) + if step.Enqueue? && step.p == p && Persists(cfg, p) then [step.e] else []
  {
    if step.Run? {
      ActAppendsNothing(cfg.mode, s.writers[s.threads[step.t].p], s.threads[step.t], step.t);
    }
  }

  /** The history that files are compared with is what the run's appenders have appended. */
  lemma {:induction false} AppendedIsTheRun(cfg: Config, s: State, steps: seq<Step>, p: Key)
    requires Feasible(cfg, s, steps)
    ensures AppendedOf(After(cfg, s, steps), p) == AppendedOf(s, p) + Appends(cfg, steps, p)
    decreases |steps|
  {
    if steps != [] {
      StepAppends(cfg, s, steps[0], p);
      AppendedIsTheRun(cfg, Next(cfg, s, steps[0]), steps[1..], p);
    }
  }

  /** At most one thread writes a prefix, and the flag tells whether one does. */
  lemma OneWriterPerPrefix(cfg: Config, n: nat, s: State, p: Key, t: nat, u: nat)
    requires Reachable(cfg, n, s) && t < |s.threads| && u < |s.threads|
    requires Holds(s.threads[t], p) && Holds(s.threads[u], p)
    ensures t == u && p in s.writers && s.writers[p].isWriting
  {
    ReachableInv(cfg, n, s);
    assert PrefixInv(cfg, s, p);
  }

  /** A non-empty queue has a token, an appender about to send one, or a thread that is at work on it. */
  lemma WorkIsNotForgotten(cfg: Config, n: nat, s: State, p: Key)
    requires Reachable(cfg, n, s) && p in s.writers && s.writers[p].queue != []
    ensures s.writers[p].pending > 0 || p in s.tokens || exists t :: 0 <= t < |s.threads| && On(s.threads[t], p)
  {
    ReachableInv(cfg, n, s);
    assert PrefixInv(cfg, s, p);
  }

  /** Every file holds, after what was there before, the first records that were appended, in order. */
  lemma FileIsAPrefix(cfg: Config, n: nat, s: State, p: Key)
    requires Reachable(cfg, n, s) && p in s.writers
    ensures var w := s.writers[p];
            w.written <= |w.appended| && w.file == Before(cfg, p) + Records(w.appended[..w.written])
  {
    ReachableInv(cfg, n, s);
    assert PrefixInv(cfg, s, p);
  }

  /** No appender is between its two sends, no token is left, and every thread waits for one. */
  ghost predicate Quiet(s: State) {
    && (forall p {:trigger s.writers[p]} :: p in s.writers ==> s.writers[p].pending == 0)
    && s.tokens == []
    && (forall t {:trigger s.threads[t]} :: 0 <= t < |s.threads| ==> s.threads[t].Waiting?)
  }

  /** When all is quiet every appended record is in its file, in append order, and every waiter is released. */
  lemma QuietIsComplete(cfg: Config, n: nat, s: State, p: Key)
    requires Reachable(cfg, n, s) && Quiet(s) && p in s.writers
    ensures s.writers[p].file == Before(cfg, p) + Records(s.writers[p].appended)
    ensures forall i :: 0 <= i < |s.writers[p].appended| && s.writers[p].appended[i].waiter.Some? ==>
                          s.writers[p].appended[i].waiter.value in s.released
  {
    ReachableInv(cfg, n, s);
    assert PrefixInv(cfg, s, p);
    var w := s.writers[p];
    assert HolderOf(w, s.threads) == Waiting && w.queue == [];
    assert w.appended[w.written..] == [];
    assert w.appended[..w.written] == w.appended;
  }

  /** Unless all is quiet, an appender or a thread can go on. */
  lemma NeverStuck(cfg: Config, n: nat, s: State)
    requires Reachable(cfg, n, s) && |s.threads| > 0 && !Quiet(s)
    ensures exists step: Step :: Enabled(s, step) && !step.Enqueue?
  {
    ReachableInv(cfg, n, s);
    if p :| p in s.writers && s.writers[p].pending != 0 {
      assert Enabled(s, SendToken(p));
    } else if t :| 0 <= t < |s.threads| && !s.threads[t].Waiting? {
      assert Enabled(s, Run(t));
    } else {
      assert Enabled(s, Recv(0));
    }
  }

  // ---------------------------------------------------------------- how large a batch gets

  /** Without its last record, a batch that is being gathered or about to be written is below the limit. */
  ghost predicate SmallBatch(th: Thread) {
    Taken(th) == [] || BatchSize(Taken(th)[..|Taken(th)| - 1]) < END_SIZE
  }

  ghost predicate SmallBatches(s: State) {
    forall t {:trigger s.threads[t]} :: 0 <= t < |s.threads| ==> SmallBatch(s.threads[t])
  }

  lemma StepKeepsSmall(cfg: Config, s: State, step: Step)
    requires SmallBatches(s) && Enabled(s, step)
    ensures SmallBatches(Next(cfg, s, step))
  {
    if step.Take? {
      var th := s.threads[step.t];
      var batch := th.batch + [s.writers[th.p].queue[0]];
      assert batch[..|batch| - 1] == th.batch;
    }
  }

  lemma {:induction false} StepsKeepSmall(cfg: Config, s: State, steps: seq<Step>)
    requires SmallBatches(s) && Feasible(cfg, s, steps)
    ensures SmallBatches(After(cfg, s, steps))
    decreases |steps|
  {
    if steps != [] {
      StepKeepsSmall(cfg, s, steps[0]);
      StepsKeepSmall(cfg, Next(cfg, s, steps[0]), steps[1..]);
    }
  }

  /** The size that is counted for a batch is the number of bytes that are written for it. */
  lemma {:induction false} SizeIsLength(es: seq<Entry>)
    requires forall r :: r in Records(es) ==> Fits(r)
    ensures BatchSize(es) == |EncodeAll(Records(es))|
  {
    if es != [] {
      var n := |es| - 1;
      assert Records(es) == Records(es[..n]) + [es[n].rec];
      assert es[n].rec in Records(es);
      SizeIsLength(es[..n]);
      Layout(es[n].rec);
      EncodeAllConcat(Records(es[..n]), [es[n].rec], Records(es));
      assert EncodeAll([es[n].rec]) == Encode(es[n].rec) + EncodeAll([]);
    }
  }

  /** In every interleaving a batch is closed once it has 16384 bytes: without its last record it has fewer. */
  lemma BatchIsSmall(cfg: Config, n: nat, s: State, t: nat)
    requires Reachable(cfg, n, s) && t < |s.threads| && (s.threads[t].Batching? || s.threads[t].Writing?)
    requires s.threads[t].batch != [] && forall r :: r in Records(s.threads[t].batch) ==> Fits(r)
    ensures var batch := s.threads[t].batch; |EncodeAll(Records(batch[..|batch| - 1]))| < 16384
  {
    var steps :| Feasible(cfg, Init(n), steps) && s == After(cfg, Init(n), steps);
    StepsKeepSmall(cfg, Init(n), steps);
    var batch := s.threads[t].batch;
    var front := batch[..|batch| - 1];
    assert SmallBatch(s.threads[t]);
    forall r | r in Records(front) ensures Fits(r) {
      var i :| 0 <= i < |front| && Records(front)[i] == r;
      assert Records(batch)[i] == r;
    }
    SizeIsLength(front);
  }

  ghost predicate Unsynced(s: State) { forall p :: p in s.writers ==> s.writers[p].synced == 0 }

  lemma {:induction false} StepsKeepUnsynced(cfg: Config, s: State, steps: seq<Step>)
    requires Unsynced(s) && Feasible(cfg, s, steps) && !cfg.mode.Sync?
    ensures Unsynced(After(cfg, s, steps))
    decreases |steps|
  {
    if steps != [] {
      StepKeepsUnsynced(cfg, s, steps[0]);
      StepsKeepUnsynced(cfg, Next(cfg, s, steps[0]), steps[1..]);
    }
  }

  lemma StepKeepsUnsynced(cfg: Config, s: State, step: Step)
    requires Unsynced(s) && Enabled(s, step) && !cfg.mode.Sync?
    ensures Unsynced(Next(cfg, s, step))
  {
  }

  /** In every interleaving only the synchronous mode waits for the disk. */
  lemma OnlySyncSyncs(cfg: Config, n: nat, s: State, p: Key)
    requires Reachable(cfg, n, s) && p in s.writers && cfg.mode != Sync
    ensures s.writers[p].synced == 0
  {
    var steps :| Feasible(cfg, Init(n), steps) && s == After(cfg, Init(n), steps);
    StepsKeepUnsynced(cfg, Init(n), steps);
  }

  /** No other entry has that waiter. */
  ghost predicate OnlyEntryOf(s: State, p: Key, i: nat, waiter: nat) {
    forall q, j :: q in s.writers && 0 <= j < |s.writers[q].appended| ==>
      s.writers[q].appended[j].waiter == Some(waiter) ==> q == p && j == i
  }

  /** The entry of a released waiter is in its file, and an fsync has covered it in the synchronous mode. */
  lemma ReleasedIsDurable(cfg: Config, n: nat, s: State, p: Key, i: nat, waiter: nat)
    requires Reachable(cfg, n, s) && waiter in s.released
    requires p in s.writers && i < |s.writers[p].appended| && s.writers[p].appended[i].waiter == Some(waiter)
    requires OnlyEntryOf(s, p, i, waiter)
    ensures Durable(cfg.mode, s.writers[p], i, waiter)
  {
    ReachableInv(cfg, n, s);
    var q, j :| q in s.writers && Durable(cfg.mode, s.writers[q], j, waiter);
  }

  // ---------------------------------------------------------------- the bytes of a file

  lemma Associate(whole: Blob, a: Blob, b: Blob, c: Blob, ab: Blob)
    requires whole == a + (b + c) && ab == a + b
    ensures whole == ab + c
  {
  }

  lemma EncodeAllFirst(rs: seq<Record>, first: Record, rest: seq<Record>)
    requires rs == [first] + rest
    ensures EncodeAll(rs) == Encode(first) + EncodeAll(rest)
  {
    assert rs[1..] == rest;
  }

  lemma ConsConcat(xs: seq<Record>, ys: seq<Record>)
    requires xs != []
    ensures xs == [xs[0]] + xs[1..] && xs + ys == [xs[0]] + (xs[1..] + ys)
  {
  }

  lemma EncodeAllStep(xs: seq<Record>, ys: seq<Record>, all: seq<Record>)
    requires xs != [] && EncodeAll(xs[1..] + ys) == EncodeAll(xs[1..]) + EncodeAll(ys) && all == xs + ys
    ensures EncodeAll(all) == EncodeAll(xs) + EncodeAll(ys)
  {
    ConsConcat(xs, ys);
    EncodeAllFirst(xs, xs[0], xs[1..]);
    EncodeAllFirst(all, xs[0], xs[1..] + ys);
    Associate(EncodeAll(all), Encode(xs[0]), EncodeAll(xs[1..]), EncodeAll(ys), EncodeAll(xs));
  }

  /** Appending the encoding of a batch to a file gives the encoding of all the records. */
  lemma {:induction false} EncodeAllConcat(xs: seq<Record>, ys: seq<Record>, all: seq<Record>)
    requires all == xs + ys
    ensures EncodeAll(all) == EncodeAll(xs) + EncodeAll(ys)
    decreases |xs|
  {
    if xs == [] {
      assert all == ys;
    } else {
      EncodeAllConcat(xs[1..], ys, xs[1..] + ys);
      EncodeAllStep(xs, ys, all);
    }
  }

  /** What a file holds when all is quiet can be read back. */
  lemma QuietIsReadable(cfg: Config, n: nat, s: State, p: Key)
    requires Reachable(cfg, n, s) && Quiet(s) && p in s.writers
    requires forall r :: r in Before(cfg, p) + Records(s.writers[p].appended) ==> Fits(r)
    ensures ReadAll(EncodeAll(s.writers[p].file)) == (Before(cfg, p) + Records(s.writers[p].appended), true)
  {
    QuietIsComplete(cfg, n, s, p);
    LogRoundTrip(s.writers[p].file);
  }

  /** If records are appended in revision order, then every file can at any time be loaded in revision order. */
  lemma FilesAreSorted(cfg: Config, n: nat, s: State, p: Key)
    requires Reachable(cfg, n, s) && p in s.writers
    requires WalMerge.Sorted(Before(cfg, p) + Records(s.writers[p].appended))
    requires forall r :: r in s.writers[p].file ==> Fits(r)
    ensures WalMerge.Sorted(ReadAll(EncodeAll(s.writers[p].file)).0)
  {
    FileIsAPrefix(cfg, n, s, p);
    var w := s.writers[p];
    var all := Before(cfg, p) + Records(w.appended);
    assert forall i :: 0 <= i < |w.file| ==> w.file[i] == all[i];
    LogRoundTrip(w.file);
  }
}
