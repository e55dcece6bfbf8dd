/** Loading the files of a log that has come to rest: what the merge delivers is the history. */
module Reload {
  import opened Wrappers
  import opened Bytes
  import opened Integers
  import opened KeyIndex
  import opened WalCodec
  import opened Durability
  import History
  import Wal = WalHandoff
  import opened WalMerge

  /** The records of the first `n` revisions that are persisted, in the order of the revisions. */
  function Persisted(cfg: Wal.Config, h: History.Log, n: nat): seq<Record>
    requires n <= |h| < TWO_63
  {
    if n == 0 then []
    else
      var w := h[n - 1];
      Persisted(cfg, h, n - 1)
      + if cfg.mode != Wal.NoLog && PrefixOf(w.key) !in cfg.noPersist
        then [Record(n, w.key, if w.value == Some([]) then None else w.value)] else []
  }

  ghost predicate Distinct(prefixes: seq<Key>) {
    forall i, j :: 0 <= i < j < |prefixes| ==> prefixes[i] != prefixes[j]
  }

  /** No prefix that is persisted and written among the first `n` revisions is missing. */
  ghost predicate Lists(cfg: Wal.Config, h: History.Log, n: nat, prefixes: seq<Key>)
    requires n <= |h|
  {
    forall r {:trigger h[r]} :: 0 <= r < n && Wal.Persists(cfg, PrefixOf(h[r].key)) ==> PrefixOf(h[r].key) in prefixes
  }

  /** What belongs into the file of a prefix with the first `n` revisions written. */
  function Part(cfg: Wal.Config, h: History.Log, n: nat, p: Key): seq<Record>
    requires n <= |h| < TWO_63
  {
    Wal.Records(Expected(cfg, h, p, n))
  }

  ghost predicate Parts(cfg: Wal.Config, h: History.Log, n: nat, prefixes: seq<Key>, parts: seq<seq<Record>>)
    requires n <= |h| < TWO_63
  {
    |parts| == |prefixes| &&
    forall i {:trigger Part(cfg, h, n, prefixes[i])} :: 0 <= i < |parts| ==> parts[i] == Part(cfg, h, n, prefixes[i])
  }

  /** The last revision adds its record to the part of its prefix, and to no other. */
  lemma PartGrows(cfg: Wal.Config, h: History.Log, n: nat, p: Key)
    requires 0 < n <= |h| < TWO_63
    ensures Part(cfg, h, n, p) ==
            Part(cfg, h, n - 1, p)
            + if PrefixOf(h[n - 1].key) == p && Wal.Persists(cfg, p) then [RecordOf(h[n - 1], n)] else []
  {
  }

  lemma PartsSame(cfg: Wal.Config, h: History.Log, n: nat, prefixes: seq<Key>, parts: seq<seq<Record>>)
    requires 0 < n <= |h| < TWO_63 && Parts(cfg, h, n, prefixes, parts)
    requires !Wal.Persists(cfg, PrefixOf(h[n - 1].key))
    ensures Parts(cfg, h, n - 1, prefixes, parts)
  {
    forall i | 0 <= i < |parts| ensures parts[i] == Part(cfg, h, n - 1, prefixes[i]) {
      PartGrows(cfg, h, n, prefixes[i]);
    }
  }

  lemma PartsLess(cfg: Wal.Config, h: History.Log, n: nat, prefixes: seq<Key>, parts: seq<seq<Record>>, m: nat)
    requires 0 < n <= |h| < TWO_63 && Parts(cfg, h, n, prefixes, parts) && Distinct(prefixes)
    requires m < |parts| && prefixes[m] == PrefixOf(h[n - 1].key) && Wal.Persists(cfg, prefixes[m])
    ensures var front := Part(cfg, h, n - 1, prefixes[m]);
            parts[m] == front + [RecordOf(h[n - 1], n)] && Parts(cfg, h, n - 1, prefixes, parts[m := front])
  {
    var front := Part(cfg, h, n - 1, prefixes[m]);
    forall i | 0 <= i < |parts| ensures parts[m := front][i] == Part(cfg, h, n - 1, prefixes[i]) {
      PartGrows(cfg, h, n, prefixes[i]);
    }
    PartGrows(cfg, h, n, prefixes[m]);
  }

  lemma PartIsEarlier(cfg: Wal.Config, h: History.Log, n: nat, p: Key, r: Record)
    requires n <= |h| < TWO_63 && r in Part(cfg, h, n, p)
    ensures 0 < r.rev <= n
  {
    ExpectedAreWrites(cfg, h, p, n);
    var i :| 0 <= i < |Part(cfg, h, n, p)| && Part(cfg, h, n, p)[i] == r;
    assert Right(cfg, h, p, n, Expected(cfg, h, p, n)[i]);
  }

  lemma LastIsLargest(out: seq<Record>, rec: Record)
    requires Sorted(out) && rec in out
    ensures out != [] && rec.rev <= out[|out| - 1].rev
  {
    var j :| 0 <= j < |out| && out[j] == rec;
  }

  /** In a sorted interleaving the record of the last revision is the last one. */
  lemma LastIsNewest(cfg: Wal.Config, h: History.Log, n: nat, prefixes: seq<Key>, out: seq<Record>, src: seq<nat>,
                     parts: seq<seq<Record>>, m: nat)
    requires 0 < n <= |h| < TWO_63 && Parts(cfg, h, n, prefixes, parts) && Distinct(prefixes)
    requires m < |parts| && prefixes[m] == PrefixOf(h[n - 1].key) && Wal.Persists(cfg, prefixes[m])
    requires Interleaves(out, src, parts) && Sorted(out)
    ensures out != [] && src[|out| - 1] == m
  {
    PartsLess(cfg, h, n, prefixes, parts, m);
    var rec := RecordOf(h[n - 1], n);
    assert parts[m][|parts[m]| - 1] == rec;
    PartMembers(out, src, parts, m, rec);
    LastIsLargest(out, rec);
    var last := |out| - 1;
    DropLast(out, src, parts);
    OtherIsEarlier(cfg, h, n, prefixes, parts, m, src[last], out[last]);
  }

  lemma OtherIsEarlier(cfg: Wal.Config, h: History.Log, n: nat, prefixes: seq<Key>, parts: seq<seq<Record>>, m: nat,
                       i: nat, r: Record)
    requires 0 < n <= |h| < TWO_63 && Parts(cfg, h, n, prefixes, parts) && Distinct(prefixes)
    requires m < |parts| && prefixes[m] == PrefixOf(h[n - 1].key) && i < |parts| && r in parts[i]
    ensures i == m || r.rev < n
  {
    if i != m {
      PartGrows(cfg, h, n, prefixes[i]);
      PartIsEarlier(cfg, h, n - 1, prefixes[i], r);
    }
  }

  lemma NoParts(cfg: Wal.Config, h: History.Log, prefixes: seq<Key>, out: seq<Record>, src: seq<nat>,
                parts: seq<seq<Record>>)
    requires |h| < TWO_63 && Parts(cfg, h, 0, prefixes, parts) && Interleaves(out, src, parts)
    ensures out == []
  {
    if out != [] {
      assert Part(cfg, h, 0, prefixes[src[|out| - 1]]) == [];
      DropLast(out, src, parts);
    }
  }

  /** Any sorted interleaving of what belongs into the files is the persisted part of the history, in order. */
  lemma {:induction false} MergedIsHistory(cfg: Wal.Config, h: History.Log, n: nat, prefixes: seq<Key>,
                                           out: seq<Record>, src: seq<nat>, parts: seq<seq<Record>>)
    requires n <= |h| < TWO_63 && Lists(cfg, h, n, prefixes) && Distinct(prefixes)
    requires Parts(cfg, h, n, prefixes, parts) && Interleaves(out, src, parts) && Sorted(out)
    ensures out == Persisted(cfg, h, n)
  {
    if n == 0 {
      NoParts(cfg, h, prefixes, out, src, parts);
    } else if !Wal.Persists(cfg, PrefixOf(h[n - 1].key)) {
      PartsSame(cfg, h, n, prefixes, parts);
      MergedIsHistory(cfg, h, n - 1, prefixes, out, src, parts);
    } else {
      assert PrefixOf(h[n - 1].key) in prefixes;
      var m :| 0 <= m < |prefixes| && prefixes[m] == PrefixOf(h[n - 1].key);
      OneLess(cfg, h, n, prefixes, out, src, parts, m);
      var last := |out| - 1;
      var parts' := parts[m := Part(cfg, h, n - 1, prefixes[m])];
      MergedIsHistory(cfg, h, n - 1, prefixes, out[..last], src[..last], parts');
    }
  }

  lemma OneLess(cfg: Wal.Config, h: History.Log, n: nat, prefixes: seq<Key>, out: seq<Record>, src: seq<nat>,
                parts: seq<seq<Record>>, m: nat)
    requires 0 < n <= |h| < TWO_63 && Parts(cfg, h, n, prefixes, parts) && Distinct(prefixes)
    requires m < |parts| && prefixes[m] == PrefixOf(h[n - 1].key) && Wal.Persists(cfg, prefixes[m])
    requires Interleaves(out, src, parts) && Sorted(out)
    ensures var front := Part(cfg, h, n - 1, prefixes[m]);
            && out != [] && out == out[..|out| - 1] + [RecordOf(h[n - 1], n)]
            && Interleaves(out[..|out| - 1], src[..|out| - 1], parts[m := front])
            && Parts(cfg, h, n - 1, prefixes, parts[m := front]) && Sorted(out[..|out| - 1])
  {
    LastIsNewest(cfg, h, n, prefixes, out, src, parts, m);
    PartsLess(cfg, h, n, prefixes, parts, m);
    DropLast(out, src, parts);
    var last, front := |out| - 1, Part(cfg, h, n - 1, prefixes[m]);
    var front' := Project(out[..last], src[..last], m);
    assert front + [RecordOf(h[n - 1], n)] == front' + [out[last]];
    assert front == (front + [RecordOf(h[n - 1], n)])[..|parts[m]| - 1] == front';
  }

  // ---------------------------------------------------------------- from writes to files and back

  /** The files of these prefixes. */
  function FilesOf(s: Durability.State, prefixes: seq<Key>): seq<Blob>
    requires forall i :: 0 <= i < |prefixes| ==> prefixes[i] in s.wal.writers
  {
    seq(|prefixes|, i requires 0 <= i < |prefixes| => EncodeAll(s.wal.writers[prefixes[i]].file))
  }

  /** `prefixes` names every file once. */
  ghost predicate EveryFileOnce(s: Durability.State, prefixes: seq<Key>) {
    && Distinct(prefixes)
    && (forall i :: 0 <= i < |prefixes| ==> prefixes[i] in s.wal.writers)
    && (forall p :: p in s.wal.writers ==> p in prefixes)
  }

  /** At rest there is a file for every persisted prefix that is written. */
  lemma FilesAreListed(cfg: Wal.Config, threads: nat, states: seq<Durability.State>, steps: seq<Step>,
                       prefixes: seq<Key>)
    requires Run(cfg, threads, states, steps) && AtRest(states[|steps|]) && EveryFileOnce(states[|steps|], prefixes)
    ensures var s := states[|steps|]; Lists(cfg, s.history, |s.history|, prefixes)
  {
    var h := states[|steps|].history;
    forall r | 0 <= r < |h| && Wal.Persists(cfg, PrefixOf(h[r].key)) ensures PrefixOf(h[r].key) in prefixes {
      FileHoldsAllWrites(cfg, threads, states, steps, PrefixOf(h[r].key));
      WritesAreExpected(cfg, h, PrefixOf(h[r].key), |h|, r + 1);
    }
  }

  /**
    From writes to files and back: in every run, at rest, with files that began empty and records that fit, whatever
    order the files are read in, loading them succeeds and delivers exactly the persisted writes, once each and in the
    order of the revisions.
   */
  method LoadAtRest(ghost cfg: Wal.Config, ghost threads: nat, ghost states: seq<Durability.State>,
                    ghost steps: seq<Step>, ghost prefixes: seq<Key>, files: seq<Blob>)
    returns (ok: bool, out: seq<Record>)
    requires Run(cfg, threads, states, steps) && AtRest(states[|steps|]) && cfg.disk == map[]
    requires EveryFileOnce(states[|steps|], prefixes) && files == FilesOf(states[|steps|], prefixes)
    requires |states[|steps|].history| < TWO_63 && forall i :: 0 <= i < |prefixes| ==>
               forall r :: r in Durability.Contents(cfg, states[|steps|].history, prefixes[i]) ==> Fits(r)
    ensures var h := states[|steps|].history; ok && out == Persisted(cfg, h, |h|)
  {
    ghost var h := states[|steps|].history;
    ghost var src, parts;
    ok, out, src, parts := LoadWalDir(files);
    FilesAreMergeable(cfg, threads, states, steps, prefixes);
    FilesAreListed(cfg, threads, states, steps, prefixes);
    MergedIsHistory(cfg, h, |h|, prefixes, out, src, parts);
  }

  // ---------------------------------------------------------------- what replaying the records gives

  /** The last record of `k`, or none. */
  function LastRecord(rs: seq<Record>, k: Key): Option<Record> {
    if rs == [] then None
    else if rs[|rs| - 1].key == k then Some(rs[|rs| - 1])
    else LastRecord(rs[..|rs| - 1], k)
  }

  /** In the order of the revisions, the last record of a persisted key is that of its last write. */
  lemma {:induction false} LastRecordIsLastWrite(cfg: Wal.Config, h: History.Log, n: nat, k: Key)
    requires n <= |h| < TWO_63 && Wal.Persists(cfg, PrefixOf(k))
    ensures var w := History.LastWrite(h, k, n);
            LastRecord(Persisted(cfg, h, n), k) == if w > 0 then Some(RecordOf(h[w - 1], w)) else None
  {
    if n > 0 {
      LastRecordIsLastWrite(cfg, h, n - 1, k);
      LastRecordStep(cfg, h, n, k);
    }
  }

  lemma LastRecordStep(cfg: Wal.Config, h: History.Log, n: nat, k: Key)
    requires 0 < n <= |h| < TWO_63 && Wal.Persists(cfg, PrefixOf(k))
    ensures LastRecord(Persisted(cfg, h, n), k) ==
            if h[n - 1].key == k then Some(RecordOf(h[n - 1], n)) else LastRecord(Persisted(cfg, h, n - 1), k)
  {
    var front, all := Persisted(cfg, h, n - 1), Persisted(cfg, h, n);
    if Wal.Persists(cfg, PrefixOf(h[n - 1].key)) {
      assert all[..|all| - 1] == front;
    } else {
      assert all == front;
    }
  }

  /** What a key would hold if the records were replayed one by one. */
  function Replayed(rs: seq<Record>, k: Key): Option<Blob> {
    if LastRecord(rs, k).Some? then LastRecord(rs, k).value.value else None
  }

  /** What a key holds after all writes. */
  function Held(h: History.Log, k: Key): Option<Blob> {
    var w := History.LastWrite(h, k, |h|);
    if w > 0 then h[w - 1].value else None
  }

  /**
    Replaying the persisted part of the history gives a key the value that it has if and only if that value is not an
    empty one, which is logged as a delete, and the key, if it has a value, is persisted.
   */
  lemma ReplayedIff(cfg: Wal.Config, h: History.Log, k: Key)
    requires |h| < TWO_63
    ensures Replayed(Persisted(cfg, h, |h|), k) == Held(h, k)
            <==> Held(h, k).None?
                 || (Held(h, k) != Some([]) && cfg.mode != Wal.NoLog && PrefixOf(k) !in cfg.noPersist)
  {
    if Wal.Persists(cfg, PrefixOf(k)) {
      LastRecordIsLastWrite(cfg, h, |h|, k);
    } else {
      NotLogged(cfg, h, |h|, k);
    }
  }

  lemma {:induction false} NotLogged(cfg: Wal.Config, h: History.Log, n: nat, k: Key)
    requires n <= |h| < TWO_63 && !Wal.Persists(cfg, PrefixOf(k))
    ensures LastRecord(Persisted(cfg, h, n), k).None?
  {
    if n > 0 {
      NotLogged(cfg, h, n - 1, k);
      var front, all := Persisted(cfg, h, n - 1), Persisted(cfg, h, n);
      if Wal.Persists(cfg, PrefixOf(h[n - 1].key)) {
        assert all[..|all| - 1] == front;
      } else {
        assert all == front;
      }
    }
  }
}
