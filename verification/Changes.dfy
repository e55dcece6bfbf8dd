/** The changes that a watcher is told about when it starts at an earlier revision. */
module Changes {
  import opened Wrappers
  import opened Bytes
  import opened History
  import opened Items
  import opened OffsetSeqs
  import opened BlockDeques
  import opened Catalog

  datatype Change = Change(kv: KeyValue, prev: Option<KeyValue>)

  /** The write of `k` at revision `r`, with the write before it if that is asked for and not compacted. */
  function ChangeAt(s: State, k: Key, r: nat, wantPrev: bool): Change
    requires Writes(s.history, k, r)
  {
    var p := LastWrite(s.history, k, r - 1);
    Change(AsKeyValue(ValueAt(s.history, r), k),
           if wantPrev && p > s.compacted then Some(AsKeyValue(ValueAt(s.history, p), k)) else None)
  }

  /** All writes of `k` from revision `from` up to `n`, in order. */
  function ChangesUpTo(s: State, k: Key, from: nat, wantPrev: bool, n: nat): seq<Change>
    requires n <= |s.history|
  {
    if n == 0 || n < from then []
    else
      ChangesUpTo(s, k, from, wantPrev, n - 1) +
      if Writes(s.history, k, n) then [ChangeAt(s, k, n, wantPrev)] else []
  }

  /** Key by key, all writes from revision `from` on. */
  function ChangesOf(s: State, keys: seq<Key>, from: nat, wantPrev: bool): seq<Change> {
    if keys == [] then []
    else
      var n := |keys| - 1;
      ChangesOf(s, keys[..n], from, wantPrev) + ChangesUpTo(s, keys[n], from, wantPrev, |s.history|)
  }

  /** `p` is the last write of `k` before `r`. */
  ghost predicate Precedes(h: Log, k: Key, p: int, r: int) {
    Writes(h, k, p) && p < r <= |h| && forall i :: p <= i < r - 1 ==> h[i].key != k
  }

  /**
    The change tells, in terms of the history alone, of a write of `k` in that stretch, and of the write before it if
    that is asked for, there, and not compacted.
   */
  ghost predicate IsChange(s: State, k: Key, from: nat, wantPrev: bool, n: nat, c: Change) {
    var h, r := s.history, c.kv.modRevision;
    && from <= r <= n && Tells(h, k, r, c.kv)
    && match c.prev
       case Some(prev) => wantPrev && exists p :: Precedes(h, k, p, r) && p > s.compacted && Tells(h, k, p, prev)
       case None => !wantPrev || forall p :: Precedes(h, k, p, r) ==> p <= s.compacted
  }

  lemma ChangeIsRight(s: State, k: Key, r: nat, from: nat, wantPrev: bool)
    requires Writes(s.history, k, r) && from <= r
    ensures IsChange(s, k, from, wantPrev, r, ChangeAt(s, k, r, wantPrev))
  {
    var h, p := s.history, LastWrite(s.history, k, r - 1);
    PairTells(h, k, r);
    forall q | Precedes(h, k, q, r) ensures q == p {
      LastWriteUnique(h, k, r - 1, q);
    }
    if p > 0 {
      assert Precedes(h, k, p, r);
      PairTells(h, k, p);
    }
  }

  /** Writes of `k` in that stretch, in increasing order of revision. */
  ghost predicate AreChanges(s: State, k: Key, from: nat, wantPrev: bool, n: nat, cs: seq<Change>) {
    && (forall i, j :: 0 <= i < j < |cs| ==> cs[i].kv.modRevision < cs[j].kv.modRevision)
    && (forall i :: 0 <= i < |cs| ==> IsChange(s, k, from, wantPrev, n, cs[i]))
  }

  lemma OneMoreChange(s: State, k: Key, from: nat, wantPrev: bool, n: nat, cs: seq<Change>)
    requires n > 0 && AreChanges(s, k, from, wantPrev, n - 1, cs)
    ensures AreChanges(s, k, from, wantPrev, n, cs)
    ensures from <= n && Writes(s.history, k, n) ==>
              AreChanges(s, k, from, wantPrev, n, cs + [ChangeAt(s, k, n, wantPrev)])
  {
    forall i | 0 <= i < |cs| ensures IsChange(s, k, from, wantPrev, n, cs[i]) && cs[i].kv.modRevision < n {
      assert IsChange(s, k, from, wantPrev, n - 1, cs[i]);
    }
    if from <= n && Writes(s.history, k, n) {
      ChangeIsRight(s, k, n, from, wantPrev);
    }
  }

  /** The changes of a key are its writes in that stretch, in order, ... */
  lemma {:induction false} ChangesAreWrites(s: State, k: Key, from: nat, wantPrev: bool, n: nat)
    requires n <= |s.history|
    ensures AreChanges(s, k, from, wantPrev, n, ChangesUpTo(s, k, from, wantPrev, n))
  {
    if n > 0 && from <= n {
      ChangesAreWrites(s, k, from, wantPrev, n - 1);
      OneMoreChange(s, k, from, wantPrev, n, ChangesUpTo(s, k, from, wantPrev, n - 1));
    }
  }

  /** Revision `r` is among the changes. */
  ghost predicate TellsOf(cs: seq<Change>, r: int) { exists i :: 0 <= i < |cs| && cs[i].kv.modRevision == r }

  /** ... and all of them. */
  lemma {:induction false} WritesAreChanges(s: State, k: Key, from: nat, wantPrev: bool, n: nat, r: nat)
    requires from <= r <= n <= |s.history| && Writes(s.history, k, r)
    ensures TellsOf(ChangesUpTo(s, k, from, wantPrev, n), r)
  {
    var cs := ChangesUpTo(s, k, from, wantPrev, n);
    var front := ChangesUpTo(s, k, from, wantPrev, n - 1);
    if r < n {
      WritesAreChanges(s, k, from, wantPrev, n - 1, r);
      var i :| 0 <= i < |front| && front[i].kv.modRevision == r;
      assert cs[i] == front[i] && cs[i].kv.modRevision == r;
    } else {
      assert cs == front + [ChangeAt(s, k, n, wantPrev)];
      assert cs[|front|].kv.modRevision == r;
    }
  }

  // ---------------------------------------------------------------- the changes of all keys

  /** Of one key the earlier write, and of two keys the smaller one, comes first. */
  predicate Earlier(a: Change, b: Change) {
    if a.kv.key == b.kv.key then a.kv.modRevision < b.kv.modRevision else Less(a.kv.key, b.kv.key)
  }

  /** Changes of these keys from revision `from` on, key by key in ascending order, and none left out. */
  ghost predicate AllChanges(s: State, keys: seq<Key>, from: nat, wantPrev: bool, cs: seq<Change>) {
    && (forall i {:trigger cs[i]} :: 0 <= i < |cs| ==>
          cs[i].kv.key in keys && IsChange(s, cs[i].kv.key, from, wantPrev, |s.history|, cs[i]))
    && (forall i, j :: 0 <= i < j < |cs| ==> Earlier(cs[i], cs[j]))
    && (forall k, r :: k in keys && from <= r && Writes(s.history, k, r) ==> TellsOf(cs, r))
  }

  lemma EarlierJoined(keys: seq<Key>, k: Key, cs: seq<Change>, more: seq<Change>)
    requires forall k' :: k' in keys ==> Less(k', k) && k' != k
    requires forall i {:trigger cs[i]} :: 0 <= i < |cs| ==> cs[i].kv.key in keys
    requires forall i {:trigger more[i]} :: 0 <= i < |more| ==> more[i].kv.key == k
    requires forall i, j :: 0 <= i < j < |cs| ==> Earlier(cs[i], cs[j])
    requires forall i, j :: 0 <= i < j < |more| ==> more[i].kv.modRevision < more[j].kv.modRevision
    ensures forall i, j :: 0 <= i < j < |cs + more| ==> Earlier((cs + more)[i], (cs + more)[j])
  {
  }

  lemma TellsJoined(cs: seq<Change>, more: seq<Change>, r: int)
    requires TellsOf(cs, r) || TellsOf(more, r)
    ensures TellsOf(cs + more, r)
  {
    if TellsOf(cs, r) {
      var i :| 0 <= i < |cs| && cs[i].kv.modRevision == r;
      assert (cs + more)[i] == cs[i];
    } else {
      var i :| 0 <= i < |more| && more[i].kv.modRevision == r;
      assert (cs + more)[|cs| + i] == more[i];
    }
  }

  lemma OneKeyMore(s: State, keys: seq<Key>, k: Key, from: nat, wantPrev: bool, cs: seq<Change>, more: seq<Change>)
    requires AllChanges(s, keys, from, wantPrev, cs) && forall k' :: k' in keys ==> Less(k', k) && k' != k
    requires more == ChangesUpTo(s, k, from, wantPrev, |s.history|)
    ensures AllChanges(s, keys + [k], from, wantPrev, cs + more)
  {
    ChangesAreWrites(s, k, from, wantPrev, |s.history|);
    forall i | 0 <= i < |more|
      ensures more[i].kv.key == k && IsChange(s, k, from, wantPrev, |s.history|, more[i])
    {
      assert IsChange(s, k, from, wantPrev, |s.history|, more[i]);
    }
    EarlierJoined(keys, k, cs, more);
    forall k', r | k' in keys + [k] && from <= r && Writes(s.history, k', r) ensures TellsOf(cs + more, r) {
      if k' !in keys {
        WritesAreChanges(s, k, from, wantPrev, |s.history|, r);
      }
      TellsJoined(cs, more, r);
    }
  }

  lemma {:induction false} ChangesOfAll(s: State, keys: seq<Key>, from: nat, wantPrev: bool)
    requires forall i, j :: 0 <= i < j < |keys| ==> Less(keys[i], keys[j]) && keys[i] != keys[j]
    ensures AllChanges(s, keys, from, wantPrev, ChangesOf(s, keys, from, wantPrev))
  {
    if keys != [] {
      var n := |keys| - 1;
      ChangesOfAll(s, keys[..n], from, wantPrev);
      OneKeyMore(s, keys[..n], keys[n], from, wantPrev, ChangesOf(s, keys[..n], from, wantPrev),
                 ChangesUpTo(s, keys[n], from, wantPrev, |s.history|));
      assert keys == keys[..n] + [keys[n]];
    }
  }

  /** Revisions that `k` was not written at contribute nothing. */
  lemma {:induction false} QuietStretch(s: State, k: Key, from: nat, wantPrev: bool, a: nat, b: nat)
    requires a <= b <= |s.history|
    requires forall r :: a < r <= b && from <= r ==> !Writes(s.history, k, r)
    ensures ChangesUpTo(s, k, from, wantPrev, b) == ChangesUpTo(s, k, from, wantPrev, a)
    decreases b
  {
    if a < b {
      assert from <= b ==> !Writes(s.history, k, b);
      QuietStretch(s, k, from, wantPrev, a, b - 1);
    }
  }

  /** The end of the stretch between the listed revisions j - 1 and j. */
  function Before(h: Log, revs: seq<nat>, j: nat): nat
    requires j <= |revs|
  {
    if j < |revs| && revs[j] > 0 then revs[j] - 1 else |h|
  }

  /** What a revision of `k` gives as the previous value. */
  function PrevAt(s: State, k: Key, rev: nat, wantPrev: bool): Option<KeyValue> {
    if wantPrev && s.compacted < rev <= |s.history| then Some(AsKeyValue(ValueAt(s.history, rev), k)) else None
  }

  /** Nothing is missed before the first listed revision that is not below `from`. */
  lemma BeforeFirst(s: State, k: Key, revs: seq<nat>, from: nat, wantPrev: bool, j: nat)
    requires Lists(s.history, s.compacted, k, revs) && s.compacted < from && j <= |revs|
    requires forall i :: 0 <= i < j ==> revs[i] < from
    ensures ChangesUpTo(s, k, from, wantPrev, Before(s.history, revs, j)) == []
  {
    var n := Before(s.history, revs, j);
    assert j < |revs| ==> Writes(s.history, k, revs[j]);
    forall r | 0 < r <= n && from <= r ensures !Writes(s.history, k, r) {
      assert forall i :: 0 <= i < |revs| ==> revs[i] != r;
    }
    QuietStretch(s, k, from, wantPrev, 0, n);
  }

  /** The previous value is that of the listed revision before, or none when there is none or it is compacted. */
  lemma PrevIsListed(s: State, k: Key, revs: seq<nat>, j: nat, wantPrev: bool)
    requires Lists(s.history, s.compacted, k, revs) && j < |revs|
    ensures Writes(s.history, k, revs[j])
    ensures ChangeAt(s, k, revs[j], wantPrev).prev == if j > 0 then PrevAt(s, k, revs[j - 1], wantPrev) else None
  {
    assert Writes(s.history, k, revs[j]);
    var p := LastWrite(s.history, k, revs[j] - 1);
    if p > s.compacted {
      assert Writes(s.history, k, p);
      var i :| 0 <= i < |revs| && revs[i] == p;
      assert i < j;
    }
    if j > 0 {
      assert Writes(s.history, k, revs[j - 1]) && revs[j - 1] <= p;
    }
  }

  /** From one listed revision to the next, exactly that revision is added, with the previous value in hand. */
  lemma NextListed(s: State, k: Key, revs: seq<nat>, from: nat, wantPrev: bool, j: nat, prev: Option<KeyValue>)
    requires Lists(s.history, s.compacted, k, revs) && s.compacted < from && j < |revs|
    requires from <= revs[j] ==> prev == if j > 0 then PrevAt(s, k, revs[j - 1], wantPrev) else None
    ensures Writes(s.history, k, revs[j])
    ensures ChangesUpTo(s, k, from, wantPrev, Before(s.history, revs, j + 1)) ==
              ChangesUpTo(s, k, from, wantPrev, Before(s.history, revs, j)) +
              if from <= revs[j] then [Change(AsKeyValue(ValueAt(s.history, revs[j]), k), prev)] else []
  {
    var n := Before(s.history, revs, j + 1);
    PrevIsListed(s, k, revs, j, wantPrev);
    assert j + 1 < |revs| ==> Writes(s.history, k, revs[j + 1]);
    forall r | revs[j] < r <= n && from <= r ensures !Writes(s.history, k, r) {
      assert forall i :: 0 <= i < |revs| ==> revs[i] != r;
    }
    QuietStretch(s, k, from, wantPrev, revs[j], n);
  }

  /** What one listed revision adds, given what the deque has for it. */
  function Added(v: Option<Value>, k: Key, rev: nat, from: nat, prev: Option<KeyValue>): seq<Change> {
    if v.Some? && rev >= from then [Change(AsKeyValue(v.value, k), prev)] else []
  }

  /** What one listed revision leaves as the previous value for the next. */
  function Left(v: Option<Value>, k: Key, wantPrev: bool): Option<KeyValue> {
    if v.Some? && wantPrev then Some(AsKeyValue(v.value, k)) else None
  }

  lemma VisitListed(s: State, k: Key, revs: seq<nat>, values: OffsetSeq<Value>, from: nat, wantPrev: bool, j: nat,
                    prev: Option<KeyValue>)
    requires Lists(s.history, s.compacted, k, revs) && Recorded(s, values) && s.compacted < from && j < |revs|
    requires from <= revs[j] ==> prev == if j > 0 then PrevAt(s, k, revs[j - 1], wantPrev) else None
    ensures Writes(s.history, k, revs[j])
    ensures var v := values.At(revs[j] - 1);
            && ChangesUpTo(s, k, from, wantPrev, Before(s.history, revs, j + 1)) ==
                 ChangesUpTo(s, k, from, wantPrev, Before(s.history, revs, j)) + Added(v, k, revs[j], from, prev)
            && PrevAt(s, k, revs[j], wantPrev) == Left(v, k, wantPrev)
  {
    NextListed(s, k, revs, from, wantPrev, j, prev);
    RecordedAt(s, values, revs[j]);
  }

  /** The walk from position `startPos` has come to position `j`. */
  ghost predicate Walked(s: State, k: Key, revs: seq<nat>, from: nat, wantPrev: bool, startPos: nat, j: nat,
                         changes: seq<Change>, prev: Option<KeyValue>)
    requires Lists(s.history, s.compacted, k, revs) && s.compacted < from && startPos <= j <= |revs|
  {
    && changes == ChangesUpTo(s, k, from, wantPrev, Before(s.history, revs, j))
    && (startPos == 0 || !wantPrev || (startPos < |revs| && revs[startPos] < from))
    && prev == if j > startPos then PrevAt(s, k, revs[j - 1], wantPrev) else None
  }

  /** One listed revision. */
  method VisitOne(k: Key, revs: seq<nat>, values: BlockDeque<Value>, ghost startPos: nat, j: nat, from: nat,
                  wantPrev: bool, changes: seq<Change>, prev: Option<KeyValue>, ghost s: State)
    returns (changes': seq<Change>, prev': Option<KeyValue>)
    requires values.Valid() && Recorded(s, values.View())
    requires Lists(s.history, s.compacted, k, revs) && s.compacted < from && startPos <= j < |revs|
    requires Walked(s, k, revs, from, wantPrev, startPos, j, changes, prev)
    ensures Walked(s, k, revs, from, wantPrev, startPos, j + 1, changes', prev')
  {
    VisitListed(s, k, revs, values.View(), from, wantPrev, j, prev);
    var v := values.Get(revs[j] - 1);
    changes' := changes + Added(v, k, revs[j], from, prev);
    prev' := Left(v, k, wantPrev);
  }

  /** Walks the listed revisions of one key from position `startPos` on. */
  method WalkFrom(k: Key, revs: seq<nat>, values: BlockDeque<Value>, startPos: nat, startRev: nat, wantPrev: bool,
                  ghost s: State)
    returns (changes: seq<Change>)
    requires Lists(s.history, s.compacted, k, revs) && s.compacted < startRev
    requires values.Valid() && Recorded(s, values.View())
    requires startPos <= |revs| && ChangesUpTo(s, k, startRev, wantPrev, Before(s.history, revs, startPos)) == []
    requires startPos == 0 || !wantPrev || (startPos < |revs| && revs[startPos] < startRev)
    ensures changes == ChangesUpTo(s, k, startRev, wantPrev, |s.history|)
  {
    changes := [];
    var prev: Option<KeyValue> := None;
    for j := startPos to |revs|
      invariant Walked(s, k, revs, startRev, wantPrev, startPos, j, changes, prev)
    {
      changes, prev := VisitOne(k, revs, values, startPos, j, startRev, wantPrev, changes, prev, s);
    }
  }

  /** The changes of one key from `startRev` on. */
  method WalkRevisions(k: Key, revs: seq<nat>, values: BlockDeque<Value>, startRev: nat, wantPrev: bool, ghost s: State)
    returns (changes: seq<Change>)
    requires Lists(s.history, s.compacted, k, revs) && s.compacted < startRev
    requires values.Valid() && Recorded(s, values.View())
    ensures changes == ChangesUpTo(s, k, startRev, wantPrev, |s.history|)
  {
    var found, startPos := BinarySearch(revs, startRev);
    if startPos > 0 && wantPrev {
      startPos := startPos - 1;
    }
    BeforeFirst(s, k, revs, startRev, wantPrev, startPos);
    changes := WalkFrom(k, revs, values, startPos, startRev, wantPrev, s);
  }
}
