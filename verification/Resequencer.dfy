/** The notification thread: jobs arrive in any order and are sent out in the order of their revisions. */
module Resequencer {

  /** A job: the revision of a write and the channels of the watchers it is for. */
  datatype Job = Job(rev: int, watchers: seq<nat>)

  // ---------------------------------------------------------------- the spool

  /** The spool in priority order, smallest revision first. */
  ghost predicate Ordered(spool: seq<Job>) {
    forall i, j :: 0 <= i < j < |spool| ==> spool[i].rev < spool[j].rev
  }

  ghost function Revisions(jobs: seq<Job>): set<int> { set i | 0 <= i < |jobs| :: jobs[i].rev }

  function Push(spool: seq<Job>, job: Job): seq<Job> {
    if spool == [] || job.rev <= spool[0].rev then [job] + spool else [spool[0]] + Push(spool[1..], job)
  }

  lemma {:induction false} PushOrdered(spool: seq<Job>, job: Job)
    requires Ordered(spool) && job.rev !in Revisions(spool)
    ensures Ordered(Push(spool, job)) && Revisions(Push(spool, job)) == Revisions(spool) + {job.rev}
    ensures Push(spool, job) != []
    ensures forall i :: 0 <= i < |Push(spool, job)| ==> Push(spool, job)[i] == job || Push(spool, job)[i] in spool
    ensures Push(spool, job)[0].rev == if spool != [] && spool[0].rev < job.rev then spool[0].rev else job.rev
  {
    if spool == [] || job.rev < spool[0].rev {
      ConsRevisions(job, spool);
    } else {
      assert spool[0].rev in Revisions(spool);
      var rest := spool[1..];
      assert spool == [spool[0]] + rest;
      ConsRevisions(spool[0], rest);
      PushOrdered(rest, job);
      ConsRevisions(spool[0], Push(rest, job));
    }
  }

  lemma ConsRevisions(job: Job, jobs: seq<Job>)
    ensures Revisions([job] + jobs) == {job.rev} + Revisions(jobs)
  {
    var all := [job] + jobs;
    assert all[0] == job;
    forall i | 0 <= i < |jobs| ensures jobs[i].rev in Revisions(all) {
      assert all[i + 1] == jobs[i];
    }
  }

  // ---------------------------------------------------------------- what has been sent

  /** The revisions among `jobs` that are for channel `c`, in order. */
  function Routed(jobs: seq<Job>, c: nat): seq<int> {
    if jobs == [] then []
    else
      var n := |jobs| - 1;
      Routed(jobs[..n], c) + if c in jobs[n].watchers then [jobs[n].rev] else []
  }

  /** The jobs 1, 2, 3, ..., n. */
  ghost predicate Consecutive(jobs: seq<Job>) {
    forall i :: 0 <= i < |jobs| ==> jobs[i].rev == i + 1
  }

  /** What a channel receives from consecutive jobs is strictly increasing: nothing out of order, nothing twice. */
  lemma {:induction false} RoutedIncreasing(jobs: seq<Job>, c: nat)
    requires Consecutive(jobs)
    ensures forall i, j :: 0 <= i < j < |Routed(jobs, c)| ==> Routed(jobs, c)[i] < Routed(jobs, c)[j]
    ensures forall i :: 0 <= i < |Routed(jobs, c)| ==> 0 < Routed(jobs, c)[i] <= |jobs|
  {
    if jobs != [] {
      RoutedIncreasing(jobs[..|jobs| - 1], c);
    }
  }

  lemma {:induction false} RoutedNone(jobs: seq<Job>, c: nat)
    requires forall i :: 0 <= i < |jobs| ==> c !in jobs[i].watchers
    ensures Routed(jobs, c) == []
  {
    if jobs != [] {
      RoutedNone(jobs[..|jobs| - 1], c);
    }
  }

  /** The job of that revision is for the channel. */
  ghost predicate IsFor(jobs: seq<Job>, c: nat, r: int) {
    exists i :: 0 <= i < |jobs| && jobs[i].rev == r && c in jobs[i].watchers
  }

  /** Nothing is lost and nothing goes astray: the channel has exactly the jobs that are for it. */
  lemma {:induction false} RoutedComplete(jobs: seq<Job>, c: nat, r: int)
    ensures r in Routed(jobs, c) <==> IsFor(jobs, c, r)
  {
    if jobs != [] {
      var n := |jobs| - 1;
      var front := jobs[..n];
      RoutedComplete(front, c, r);
      if IsFor(jobs, c, r) {
        var i :| 0 <= i < |jobs| && jobs[i].rev == r && c in jobs[i].watchers;
        assert i < n ==> front[i] == jobs[i];
      }
      if IsFor(front, c, r) {
        var i :| 0 <= i < |front| && front[i].rev == r && c in front[i].watchers;
        assert jobs[i] == front[i];
      }
    }
  }

  /** These jobs are among the arrivals. */
  ghost predicate Known(received: map<int, Job>, jobs: seq<Job>) {
    forall i :: 0 <= i < |jobs| ==> jobs[i].rev in received && received[jobs[i].rev] == jobs[i]
  }

  /** Every arrival up to `n` is there, and n + 1 is not. */
  ghost predicate ContiguousUpTo(received: map<int, Job>, n: nat) {
    (forall r :: 0 < r <= n ==> r in received) && n + 1 !in received
  }

  /**
    For every order of arrival: once the revisions 1, ..., n have arrived and no others, all n jobs have been sent
    out and the spool is empty.
   */
  lemma AllSent(t: NotifyThread, n: nat)
    requires t.Valid() && forall r :: r in t.received <==> 0 < r <= n
    ensures |t.sent| == n && t.jobSpool == [] && t.progressRev == n
  {
    assert n + 1 !in t.received && (n > 0 ==> n in t.received);
  }

  /** At all times, what has been sent out is the contiguous part of what has arrived, and the spool is the rest. */
  lemma SpoolIsTheRest(t: NotifyThread)
    requires t.Valid()
    ensures ContiguousUpTo(t.received, |t.sent|) && t.progressRev == |t.sent|
    ensures Consecutive(t.sent) && Known(t.received, t.sent)
    ensures forall r :: r in Revisions(t.jobSpool) <==> r in t.received && r > |t.sent|
  {
    forall r | r in Revisions(t.jobSpool) ensures r > |t.sent| {
      assert t.jobSpool[0].rev <= r;
    }
  }

  /** The channels of a job are those of different watchers. */
  ghost predicate Distinct(job: Job) {
    forall i, j :: 0 <= i < j < |job.watchers| ==> job.watchers[i] != job.watchers[j]
  }

  class NotifyThread {
    var nextRev: int
    var jobSpool: seq<Job>
    var progressRev: int
    /** The contents sent into each open channel. */
    var channels: map<nat, seq<int>>
    /** The jobs that have arrived, by revision. */
    ghost var received: map<int, Job>
    ghost var sent: seq<Job>

    /** Everything sent out so far went, in order, to every open channel it was for. */
    ghost predicate InOrder()
      reads this
    {
      && Consecutive(sent) && nextRev == |sent| + 1 && Known(received, sent)
      && forall c :: c in channels ==> channels[c] == Routed(sent, c)
    }

    /** The spool holds the arrivals from `nextRev` on. */
    ghost predicate Spooled()
      reads this
    {
      && Ordered(jobSpool)
      && (forall r :: r in received <==> 0 < r < nextRev || r in Revisions(jobSpool))
      && Known(received, jobSpool) && (forall i :: 0 <= i < |jobSpool| ==> Distinct(jobSpool[i]))
      && (jobSpool != [] ==> nextRev <= jobSpool[0].rev)
    }

    ghost predicate Valid()
      reads this
    {
      InOrder() && Spooled() && nextRev !in received && progressRev == nextRev - 1
    }

    constructor ()
      ensures Valid() && received == map[] && channels == map[]
    {
      nextRev, jobSpool, progressRev, channels := 1, [], 0, map[];
      received, sent := map[], [];
    }

    /** Sends one job into the open channels it is for; closed ones are skipped. */
    method DoSend(job: Job)
      requires InOrder() && job.rev == nextRev && nextRev in received && received[nextRev] == job
      requires Distinct(job)
      modifies this`channels, this`sent, this`nextRev
      ensures InOrder() && sent == old(sent) + [job] && channels.Keys == old(channels).Keys
    {
      ghost var before := channels;
      for i := 0 to |job.watchers|
        invariant channels.Keys == before.Keys && sent == old(sent) && nextRev == old(nextRev)
        invariant forall c :: c in channels ==>
                    channels[c] == before[c] + if c in job.watchers[..i] then [job.rev] else []
      {
        var ch := job.watchers[i];
        assert job.watchers[..i + 1] == job.watchers[..i] + [ch];
        if ch in channels {
          channels := channels[ch := channels[ch] + [job.rev]];
        }
      }
      assert job.watchers[..|job.watchers|] == job.watchers;
      sent := sent + [job];
      nextRev := nextRev + 1;
      assert sent[..|sent| - 1] == old(sent);
    }

    /** Takes the job at the top of the spool and sends it out. */
    method SendTop()
      requires InOrder() && Spooled() && jobSpool != [] && jobSpool[0].rev == nextRev
      modifies this`channels, this`sent, this`nextRev, this`jobSpool
      ensures InOrder() && Spooled() && channels.Keys == old(channels).Keys
      ensures sent == old(sent) + [old(jobSpool)[0]] && jobSpool == old(jobSpool)[1..]
    {
      var job := jobSpool[0];
      ConsRevisions(job, jobSpool[1..]);
      assert jobSpool == [job] + jobSpool[1..];
      jobSpool := jobSpool[1..];
      DoSend(job);
    }

    /** Sends out the spooled jobs that have become due. */
    method SendDue()
      requires InOrder() && Spooled()
      modifies this`channels, this`sent, this`nextRev, this`jobSpool
      ensures InOrder() && Spooled() && nextRev !in received && channels.Keys == old(channels).Keys
      ensures old(sent) <= sent
    {
      while jobSpool != [] && jobSpool[0].rev == nextRev
        invariant InOrder() && Spooled() && channels.Keys == old(channels).Keys && old(sent) <= sent
        decreases |jobSpool|
      {
        SendTop();
      }
    }

    /** Keeps a job for later. */
    method Spool(job: Job)
      requires Valid() && job.rev > nextRev && job.rev !in received && Distinct(job)
      modifies this`received, this`jobSpool
      ensures Valid() && received == old(received)[job.rev := job]
    {
      PushOrdered(jobSpool, job);
      received := received[job.rev := job];
      jobSpool := Push(jobSpool, job);
    }

    /**
      Takes one arrival. Each revision arrives once. What has been sent out is then 1, 2, ..., n for the largest n
      such that all of these have arrived, and progress stands at n.
     */
    method Receive(job: Job)
      requires Valid() && job.rev > 0 && job.rev !in received && Distinct(job)
      modifies this
      ensures Valid() && received == old(received)[job.rev := job]
      ensures old(sent) <= sent && channels.Keys == old(channels).Keys
    {
      if job.rev > nextRev {
        Spool(job);
        return;
      }
      received := received[job.rev := job];
      DoSend(job);
      SendDue();
      progressRev := nextRev - 1;
    }

    /** A watcher's channel is created, before any job is for it. */
    method Open(c: nat)
      requires Valid() && forall i :: 0 <= i < |sent| ==> c !in sent[i].watchers
      modifies this`channels
      ensures Valid() && channels == old(channels)[c := []]
    {
      RoutedNone(sent, c);
      channels := channels[c := []];
    }

    /** The receiver of a channel is dropped. */
    method Close(c: nat)
      requires Valid()
      modifies this`channels
      ensures Valid() && channels == old(channels) - {c}
    {
      channels := channels - {c};
    }
  }
}
