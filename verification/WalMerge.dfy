/** Loading the per-prefix log files: a merge by revision, driven by a heap of the readers' next records. */
module WalMerge {
  import opened Wrappers
  import opened Bytes
  import opened WalCodec

  // ---------------------------------------------------------------- interleavings

  /** The records of `out` that are tagged as coming from file `i`, in order. */
  function Project(out: seq<Record>, src: seq<nat>, i: nat): seq<Record>
    requires |src| == |out|
  {
    if out == [] then []
    else
      var n := |out| - 1;
      Project(out[..n], src[..n], i) + if src[n] == i then [out[n]] else []
  }

  ghost predicate FromFile(out: seq<Record>, src: seq<nat>, parts: seq<seq<Record>>, i: nat)
    requires |src| == |out| && i < |parts|
  {
    Project(out, src, i) == parts[i]
  }

  /** `out` consists of the records of the parts, each part in its own order. */
  ghost predicate Interleaves(out: seq<Record>, src: seq<nat>, parts: seq<seq<Record>>) {
    && |src| == |out|
    && (forall j :: 0 <= j < |src| ==> src[j] < |parts|)
    && forall i {:trigger FromFile(out, src, parts, i)} :: 0 <= i < |parts| ==> FromFile(out, src, parts, i)
  }

  lemma InterleaveOneMore(out: seq<Record>, src: seq<nat>, parts: seq<seq<Record>>, i: nat, r: Record)
    requires Interleaves(out, src, parts) && i < |parts|
    ensures Interleaves(out + [r], src + [i], parts[i := parts[i] + [r]])
  {
    assert (out + [r])[..|out|] == out && (src + [i])[..|src|] == src;
    var parts' := parts[i := parts[i] + [r]];
    forall m | 0 <= m < |parts| ensures FromFile(out + [r], src + [i], parts', m) {
      assert FromFile(out, src, parts, m);
    }
  }

  /** In revision order. */
  ghost predicate Sorted(rs: seq<Record>) {
    forall i, j :: 0 <= i < j < |rs| ==> rs[i].rev <= rs[j].rev
  }

  lemma {:induction false} ProjectMembers(out: seq<Record>, src: seq<nat>, i: nat)
    requires |src| == |out|
    ensures forall r :: r in Project(out, src, i) ==> r in out
  {
    if out != [] {
      var n := |out| - 1;
      ProjectMembers(out[..n], src[..n], i);
      assert out == out[..n] + [out[n]];
    }
  }

  /** What comes from one file of a sorted whole is sorted. */
  lemma {:induction false} ProjectSorted(out: seq<Record>, src: seq<nat>, i: nat)
    requires |src| == |out| && Sorted(out)
    ensures Sorted(Project(out, src, i))
  {
    if out != [] {
      var n := |out| - 1;
      var front := Project(out[..n], src[..n], i);
      ProjectSorted(out[..n], src[..n], i);
      ProjectMembers(out[..n], src[..n], i);
      forall j | 0 <= j < |front| ensures front[j].rev <= out[n].rev {
        assert front[j] in out[..n];
        var m :| 0 <= m < n && out[..n][m] == front[j];
        assert out[m].rev <= out[n].rev;
      }
    }
  }

  /** An interleaving is a permutation: every record occurs as often as in all parts together. */
  function Occurrences(parts: seq<seq<Record>>, r: Record): nat {
    if parts == [] then 0 else Occurrences(parts[..|parts| - 1], r) + multiset(parts[|parts| - 1])[r]
  }

  lemma {:induction false} EmptyParts(parts: seq<seq<Record>>, r: Record)
    requires forall i :: 0 <= i < |parts| ==> parts[i] == []
    ensures Occurrences(parts, r) == 0
  {
    if parts != [] {
      EmptyParts(parts[..|parts| - 1], r);
    }
  }

  lemma {:induction false} OneMoreOccurrence(parts: seq<seq<Record>>, i: nat, x: Record, r: Record)
    requires i < |parts|
    ensures Occurrences(parts[i := parts[i] + [x]], r) == Occurrences(parts, r) + if x == r then 1 else 0
  {
    var n := |parts| - 1;
    var parts' := parts[i := parts[i] + [x]];
    if i == n {
      assert parts'[..n] == parts[..n];
    } else {
      OneMoreOccurrence(parts[..n], i, x, r);
      assert parts'[..n] == parts[..n][i := parts[..n][i] + [x]];
    }
  }

  /** The part that the last record comes from, without it. */
  lemma DropLast(out: seq<Record>, src: seq<nat>, parts: seq<seq<Record>>)
    requires Interleaves(out, src, parts) && out != []
    ensures var n := |out| - 1;
            var front := Project(out[..n], src[..n], src[n]);
            && parts[src[n]] == front + [out[n]]
            && Interleaves(out[..n], src[..n], parts[src[n] := front])
  {
    var n := |out| - 1;
    var before := parts[src[n] := Project(out[..n], src[..n], src[n])];
    assert FromFile(out, src, parts, src[n]);
    forall m | 0 <= m < |parts| ensures FromFile(out[..n], src[..n], before, m) {
      assert FromFile(out, src, parts, m);
    }
  }

  lemma CountLast(out: seq<Record>, r: Record)
    requires out != []
    ensures multiset(out)[r] == multiset(out[..|out| - 1])[r] + if out[|out| - 1] == r then 1 else 0
  {
    assert out == out[..|out| - 1] + [out[|out| - 1]];
  }

  lemma {:induction false} InterleavingPermutes(out: seq<Record>, src: seq<nat>, parts: seq<seq<Record>>, r: Record)
    requires Interleaves(out, src, parts)
    ensures multiset(out)[r] == Occurrences(parts, r)
    decreases |out|
  {
    if out == [] {
      forall i | 0 <= i < |parts| ensures parts[i] == [] {
        assert FromFile(out, src, parts, i);
      }
      EmptyParts(parts, r);
    } else {
      var n := |out| - 1;
      DropLast(out, src, parts);
      var before := parts[src[n] := Project(out[..n], src[..n], src[n])];
      InterleavingPermutes(out[..n], src[..n], before, r);
      OneMoreOccurrence(before, src[n], out[n], r);
      assert before[src[n] := before[src[n]] + [out[n]]] == parts;
      CountLast(out, r);
    }
  }

  // ---------------------------------------------------------------- the readers

  /** A reader with the record that it will give next. */
  datatype Source = Source(rest: Blob, next: Option<Record>)

  function Pending(s: Source): seq<Record> { if s.next.Some? then [s.next.value] else [] }

  /** The reader of `file` has given the records `done`. */
  ghost predicate At(file: Blob, done: seq<Record>, s: Source) {
    && ReadAll(file).0 == done + Pending(s) + ReadAll(s.rest).0
    && ReadAll(file).1 == ReadAll(s.rest).1
    && (s.next.None? ==> Read(s.rest).End?)
  }

  /** The reader's next record is taken and the one after it is read. */
  lemma Advance(file: Blob, done: seq<Record>, s: Source)
    requires At(file, done, s) && s.next.Some?
    ensures match Read(s.rest)
            case End => At(file, done + [s.next.value], Source([], None))
            case Fail => !ReadAll(file).1
            case Got(r, rest) =>
              && At(file, done + [s.next.value], Source(rest, Some(r)))
              && (Sorted(ReadAll(file).0) ==> s.next.value.rev <= r.rev)
  {
    match Read(s.rest)
    case End =>
    case Fail =>
    case Got(r, rest) =>
      var all := ReadAll(file).0;
      assert all == done + [s.next.value] + [r] + ReadAll(rest).0;
      assert all[|done|] == s.next.value && all[|done| + 1] == r;
  }

  /** A reader with nothing more to give has given everything, without an error. */
  lemma Exhausted(file: Blob, done: seq<Record>, s: Source)
    requires At(file, done, s) && s.next.None?
    ensures ReadAll(file) == (done, true)
  {
    assert ReadAll(s.rest) == ([], true);
    assert done + [] + [] == done;
  }

  ghost predicate AllAt(files: seq<Blob>, parts: seq<seq<Record>>, sources: seq<Source>) {
    && |parts| == |sources| == |files|
    && forall i {:trigger At(files[i], parts[i], sources[i])} :: 0 <= i < |files| ==> At(files[i], parts[i], sources[i])
  }

  /** The heap holds the revision of every next record. */
  ghost predicate HeapOf(heap: map<nat, int>, sources: seq<Source>) {
    && (forall i :: i in heap ==> i < |sources| && sources[i].next.Some? && heap[i] == sources[i].next.value.rev)
    && (forall i :: 0 <= i < |sources| && sources[i].next.Some? ==> i in heap)
  }

  /** Nothing that has been given comes after something that is still to come. */
  ghost predicate InFront(out: seq<Record>, heap: map<nat, int>) {
    Sorted(out) && forall i, j :: i in heap && 0 <= j < |out| ==> out[j].rev <= heap[i]
  }

  ghost predicate AllSorted(files: seq<Blob>) {
    forall i :: 0 <= i < |files| ==> Sorted(ReadAll(files[i]).0)
  }

  /** An index whose revision is the smallest. */
  method Min(heap: map<nat, int>) returns (idx: nat)
    requires heap != map[]
    ensures idx in heap && forall i :: i in heap ==> heap[idx] <= heap[i]
  {
    idx :| idx in heap.Keys;
    var rest := heap.Keys - {idx};
    while rest != {}
      invariant idx in heap && rest <= heap.Keys
      invariant forall i :: i in heap && i !in rest ==> heap[idx] <= heap[i]
      decreases rest
    {
      var i :| i in rest;
      if heap[i] < heap[idx] {
        idx := i;
      }
      rest := rest - {i};
    }
  }

  /** How many bytes are yet to be read. */
  function Unread(sources: seq<Source>): nat {
    if sources == [] then 0 else Unread(sources[..|sources| - 1]) + |sources[|sources| - 1].rest|
  }

  lemma {:induction false} UnreadUpdate(sources: seq<Source>, i: nat, s: Source)
    requires i < |sources|
    ensures Unread(sources[i := s]) == Unread(sources) - |sources[i].rest| + |s.rest|
  {
    var n := |sources| - 1;
    if i == n {
      assert sources[i := s][..n] == sources[..n];
    } else {
      UnreadUpdate(sources[..n], i, s);
      assert sources[i := s][..n] == sources[..n][i := s];
    }
  }

  /** The reader after its next record is taken and the one after that is read; None when that cannot be read. */
  function NextSource(s: Source): Option<Source> {
    match Read(s.rest)
    case End => Some(Source([], None))
    case Fail => None
    case Got(r, rest) => Some(Source(rest, Some(r)))
  }

  /** The readers are different objects, and with their next records they stand as in `sources`. */
  ghost predicate Stand(readers: seq<Reader>, nexts: seq<Option<Record>>, sources: seq<Source>)
    reads readers
  {
    && |readers| == |nexts| == |sources|
    && (forall i, j :: 0 <= i < j < |readers| ==> readers[i] != readers[j])
    && forall i {:trigger readers[i]} {:trigger sources[i]} :: 0 <= i < |readers| ==>
         readers[i].Valid() && sources[i] == Source(readers[i].Remaining(), nexts[i])
  }

  lemma OneMoreStands(readers: seq<Reader>, nexts: seq<Option<Record>>, sources: seq<Source>, reader: Reader,
                      next: Option<Record>)
    requires Stand(readers, nexts, sources) && reader !in readers && reader.Valid()
    ensures Stand(readers + [reader], nexts + [next], sources + [Source(reader.Remaining(), next)])
  {
  }

  /** The first files are opened. */
  ghost predicate Opened(files: seq<Blob>, sources: seq<Source>) {
    |sources| <= |files| &&
    forall i {:trigger At(files[i], [], sources[i])} :: 0 <= i < |sources| ==> At(files[i], [], sources[i])
  }

  lemma OneMoreOpened(files: seq<Blob>, sources: seq<Source>, s: Source)
    requires Opened(files, sources) && |sources| < |files|
    requires NextSource(Source(files[|sources|], None)) == Some(s)
    ensures Opened(files, sources + [s])
  {
  }

  lemma AllOpened(files: seq<Blob>, sources: seq<Source>)
    requires Opened(files, sources) && |sources| == |files|
    ensures AllAt(files, seq(|files|, _ => []), sources)
  {
  }

  /** Opens every file and reads its first record. */
  method Open(files: seq<Blob>)
    returns (ok: bool, readers: seq<Reader>, nexts: seq<Option<Record>>, ghost sources: seq<Source>)
    ensures fresh(readers)
    ensures if ok then Stand(readers, nexts, sources) && AllAt(files, seq(|files|, _ => []), sources)
            else exists i :: 0 <= i < |files| && !ReadAll(files[i]).1
  {
    readers, nexts, sources := [], [], [];
    for k := 0 to |files|
      invariant |readers| == k && fresh(readers) && Stand(readers, nexts, sources)
      invariant Opened(files, sources)
    {
      var reader := new Reader(files[k]);
      var next := reader.ReadFrom();
      if next.Err? {
        return false, readers, nexts, sources;
      }
      OneMoreStands(readers, nexts, sources, reader, next.value);
      OneMoreOpened(files, sources, Source(reader.Remaining(), next.value));
      readers, nexts := readers + [reader], nexts + [next.value];
      sources := sources + [Source(reader.Remaining(), next.value)];
    }
    AllOpened(files, sources);
    return true, readers, nexts, sources;
  }

  /** Fills the heap with the revisions of the first records. */
  method FillHeap(nexts: seq<Option<Record>>, ghost sources: seq<Source>) returns (heap: map<nat, int>)
    requires |nexts| == |sources| && forall i :: 0 <= i < |nexts| ==> sources[i].next == nexts[i]
    ensures HeapOf(heap, sources)
  {
    heap := map[];
    for k := 0 to |nexts|
      invariant HeapOf(heap, sources[..k])
    {
      if nexts[k].Some? {
        heap := heap[k := nexts[k].value.rev];
      }
    }
    assert sources[..|sources|] == sources;
  }

  // ---------------------------------------------------------------- one round

  function NextHeap(heap: map<nat, int>, idx: nat, next: Option<Record>): map<nat, int> {
    if next.Some? then heap[idx := next.value.rev] else map i | i in heap && i != idx :: heap[i]
  }

  lemma AdvanceAll(files: seq<Blob>, parts: seq<seq<Record>>, sources: seq<Source>, idx: nat, s: Source)
    requires AllAt(files, parts, sources) && idx < |files| && sources[idx].next.Some?
    requires NextSource(sources[idx]) == Some(s)
    ensures AllAt(files, parts[idx := parts[idx] + [sources[idx].next.value]], sources[idx := s])
  {
    Advance(files[idx], parts[idx], sources[idx]);
  }

  lemma HeapStep(heap: map<nat, int>, sources: seq<Source>, idx: nat, s: Source)
    requires HeapOf(heap, sources) && idx in heap
    ensures HeapOf(NextHeap(heap, idx, s.next), sources[idx := s])
  {
  }

  /** The smallest next record may be given: nothing smaller is left. */
  lemma FrontStep(out: seq<Record>, r: Record, heap: map<nat, int>, idx: nat, s: Source)
    requires InFront(out, heap) && idx in heap && heap[idx] == r.rev
    requires forall i :: i in heap ==> heap[idx] <= heap[i]
    requires s.next.Some? ==> r.rev <= s.next.value.rev
    ensures InFront(out + [r], NextHeap(heap, idx, s.next))
  {
  }

  /** Every file's records begin with its part. */
  ghost predicate Prefixes(files: seq<Blob>, parts: seq<seq<Record>>) {
    |parts| == |files| && forall i :: 0 <= i < |files| ==> parts[i] <= ReadAll(files[i]).0
  }

  /** The parts are the records of the files, all of them readable. */
  ghost predicate Contents(files: seq<Blob>, parts: seq<seq<Record>>) {
    |parts| == |files| && forall i :: 0 <= i < |files| ==> ReadAll(files[i]) == (parts[i], true)
  }

  lemma FailedRound(files: seq<Blob>, parts: seq<seq<Record>>, sources: seq<Source>, idx: nat)
    requires AllAt(files, parts, sources) && idx < |files| && sources[idx].next.Some?
    requires NextSource(sources[idx]).None?
    ensures !ReadAll(files[idx]).1
    ensures Prefixes(files, parts[idx := parts[idx] + [sources[idx].next.value]])
  {
    Advance(files[idx], parts[idx], sources[idx]);
    forall i | 0 <= i < |files| ensures parts[i] <= ReadAll(files[i]).0 {
      assert At(files[i], parts[i], sources[i]);
    }
  }

  lemma Finished(files: seq<Blob>, parts: seq<seq<Record>>, sources: seq<Source>)
    requires AllAt(files, parts, sources) && HeapOf(map[], sources)
    ensures Contents(files, parts)
  {
    forall i | 0 <= i < |files| ensures ReadAll(files[i]) == (parts[i], true) {
      Exhausted(files[i], parts[i], sources[i]);
    }
  }

  /** Every round reads a record or closes a file. */
  lemma RoundShrinks(sources: seq<Source>, heap: map<nat, int>, idx: nat, s: Source)
    requires idx < |sources| && idx in heap && NextSource(sources[idx]) == Some(s)
    ensures Unread(sources[idx := s]) + |NextHeap(heap, idx, s.next)| < Unread(sources) + |heap|
  {
    UnreadUpdate(sources, idx, s);
    if s.next.Some? {
      assert NextHeap(heap, idx, s.next).Keys == heap.Keys;
    } else {
      assert NextHeap(heap, idx, s.next).Keys == heap.Keys - {idx};
    }
  }

  /** In a sorted file the next record is not below the one just given. */
  lemma StaysSorted(files: seq<Blob>, parts: seq<seq<Record>>, sources: seq<Source>, idx: nat, s: Source)
    requires AllAt(files, parts, sources) && idx < |files| && sources[idx].next.Some?
    requires NextSource(sources[idx]) == Some(s) && AllSorted(files)
    ensures s.next.Some? ==> sources[idx].next.value.rev <= s.next.value.rev
  {
    Advance(files[idx], parts[idx], sources[idx]);
  }

  /** Loads the next record of one reader; the others stay where they are. */
  method ReadNext(readers: seq<Reader>, nexts: seq<Option<Record>>, idx: nat, ghost sources: seq<Source>)
    returns (next: Result<Option<Record>, ()>)
    requires Stand(readers, nexts, sources) && idx < |readers|
    modifies readers[idx]
    ensures next.Err? <==> NextSource(sources[idx]).None?
    ensures next.Ok? ==>
              var s := NextSource(sources[idx]).value;
              s.next == next.value && Stand(readers, nexts[idx := next.value], sources[idx := s])
  {
    assert sources[idx].rest == readers[idx].Remaining();
    next := readers[idx].ReadFrom();
  }

  /** What the merge knows between two rounds. */
  ghost predicate Merging(files: seq<Blob>, parts: seq<seq<Record>>, sources: seq<Source>, heap: map<nat, int>,
                          out: seq<Record>, src: seq<nat>) {
    && AllAt(files, parts, sources) && HeapOf(heap, sources) && Interleaves(out, src, parts)
    && (AllSorted(files) ==> InFront(out, heap))
  }

  lemma OneRound(files: seq<Blob>, parts: seq<seq<Record>>, sources: seq<Source>, heap: map<nat, int>,
                 out: seq<Record>, src: seq<nat>, idx: nat, s: Source)
    requires Merging(files, parts, sources, heap, out, src)
    requires idx in heap && forall i :: i in heap ==> heap[idx] <= heap[i]
    requires NextSource(sources[idx]) == Some(s)
    ensures var rec := sources[idx].next.value;
            Merging(files, parts[idx := parts[idx] + [rec]], sources[idx := s], NextHeap(heap, idx, s.next),
                    out + [rec], src + [idx])
    ensures Unread(sources[idx := s]) + |NextHeap(heap, idx, s.next)| < Unread(sources) + |heap|
  {
    var rec := sources[idx].next.value;
    InterleaveOneMore(out, src, parts, idx, rec);
    if AllSorted(files) {
      StaysSorted(files, parts, sources, idx, s);
      FrontStep(out, rec, heap, idx, s);
    }
    AdvanceAll(files, parts, sources, idx, s);
    HeapStep(heap, sources, idx, s);
    RoundShrinks(sources, heap, idx, s);
  }

  lemma Started(files: seq<Blob>, parts: seq<seq<Record>>, sources: seq<Source>, heap: map<nat, int>)
    requires AllAt(files, parts, sources) && HeapOf(heap, sources) && forall i :: 0 <= i < |parts| ==> parts[i] == []
    ensures Merging(files, parts, sources, heap, [], []) && Prefixes(files, parts)
  {
  }

  /** A round in which the next record cannot be read. */
  lemma LastRound(files: seq<Blob>, parts: seq<seq<Record>>, sources: seq<Source>, heap: map<nat, int>,
                  out: seq<Record>, src: seq<nat>, idx: nat)
    requires Merging(files, parts, sources, heap, out, src) && idx in heap && NextSource(sources[idx]).None?
    ensures var rec := sources[idx].next.value;
            && Interleaves(out + [rec], src + [idx], parts[idx := parts[idx] + [rec]])
            && Prefixes(files, parts[idx := parts[idx] + [rec]])
            && (AllSorted(files) ==> Sorted(out + [rec]))
    ensures exists i :: 0 <= i < |files| && !ReadAll(files[i]).1
  {
    InterleaveOneMore(out, src, parts, idx, sources[idx].next.value);
    FailedRound(files, parts, sources, idx);
  }

  // ---------------------------------------------------------------- the merge

  /**
    Loads all files, giving their records one by one. Without an error every record of every file is given exactly
    once, each file in its own order; with one, a beginning of each file. An error is reported exactly when some file
    cannot be read to its end. What is given is in revision order if the files are.
   */
  method LoadWalDir(files: seq<Blob>)
    returns (ok: bool, out: seq<Record>, ghost src: seq<nat>, ghost parts: seq<seq<Record>>)
    ensures Interleaves(out, src, parts)
    ensures if ok then Contents(files, parts)
            else Prefixes(files, parts) && exists i :: 0 <= i < |files| && !ReadAll(files[i]).1
    ensures AllSorted(files) ==> Sorted(out)
  {
    out, src, parts := [], [], seq(|files|, _ => []);
    ghost var sources;
    var readers, nexts;
    ok, readers, nexts, sources := Open(files);
    if !ok {
      return false, out, src, parts;
    }
    var heap := FillHeap(nexts, sources);
    Started(files, parts, sources, heap);
    while heap != map[]
      invariant fresh(readers) && Stand(readers, nexts, sources)
      invariant Merging(files, parts, sources, heap, out, src)
      decreases Unread(sources) + |heap|
    {
      var idx := Min(heap);
      var rec := nexts[idx].value;
      ghost var s := NextSource(sources[idx]);
      var next := ReadNext(readers, nexts, idx, sources);
      if next.Err? {
        LastRound(files, parts, sources, heap, out, src, idx);
        return false, out + [rec], src + [idx], parts[idx := parts[idx] + [rec]];
      }
      OneRound(files, parts, sources, heap, out, src, idx, s.value);
      out, src, parts := out + [rec], src + [idx], parts[idx := parts[idx] + [rec]];
      nexts := nexts[idx := next.value];
      heap := NextHeap(heap, idx, next.value);
      sources := sources[idx := s.value];
    }
    Finished(files, parts, sources);
    assert AllSorted(files) ==> InFront(out, heap);
    return true, out, src, parts;
  }

  /** The whole is in revision order only when every file is. */
  lemma SortedNeedsSortedFiles(files: seq<Blob>, out: seq<Record>, src: seq<nat>, parts: seq<seq<Record>>)
    requires Interleaves(out, src, parts) && Contents(files, parts)
    ensures Sorted(out) ==> AllSorted(files)
  {
    if Sorted(out) {
      forall i | 0 <= i < |files| ensures Sorted(ReadAll(files[i]).0) {
        ProjectSorted(out, src, i);
        assert FromFile(out, src, parts, i);
      }
    }
  }

  lemma PartMembers(out: seq<Record>, src: seq<nat>, parts: seq<seq<Record>>, i: nat, r: Record)
    requires Interleaves(out, src, parts) && i < |parts| && r in parts[i]
    ensures r in out
  {
    ProjectMembers(out, src, i);
    assert FromFile(out, src, parts, i);
  }

  /** The last delivered record of a key is its newest: no file holds a newer one. */
  lemma NewestIsLast(out: seq<Record>, src: seq<nat>, parts: seq<seq<Record>>, j: nat, i: nat, r: Record)
    requires Interleaves(out, src, parts) && Sorted(out)
    requires j < |out| && forall m :: j < m < |out| ==> out[m].key != out[j].key
    requires i < |parts| && r in parts[i] && r.key == out[j].key
    ensures r.rev <= out[j].rev
  {
    PartMembers(out, src, parts, i, r);
    var m :| 0 <= m < |out| && out[m] == r;
  }
}
