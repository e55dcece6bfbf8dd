/**
  What the store means: the full history of writes, where the write at index i has revision i + 1, and the revision up
  to which it has been compacted. Everything else is a function of these two.
 */
module History {
  import opened Wrappers
  import opened Bytes

  type Data = seq<byte>

  /** A write; None is a delete. */
  datatype Write = Write(key: Key, value: Option<Data>)

  type Log = seq<Write>

  datatype Value = Value(createRevision: int, modRevision: int, version: int, value: Option<Data>)

  datatype KeyValue = KeyValue(key: Key, value: Data, createRevision: int, modRevision: int, version: int)

  function AsKeyValue(v: Value, key: Key): KeyValue {
    match v.value
    case Some(d) => KeyValue(key, d, v.createRevision, v.modRevision, v.version)
    case None => KeyValue(key, [], 0, v.modRevision, 0)
  }

  /** Revision `r` is a write of `k`. */
  predicate Writes(h: Log, k: Key, r: int) {
    0 < r <= |h| && h[r - 1].key == k
  }

  // ---------------------------------------------------------------- the last write of a key

  /** The revision of the last write of `k` at or before `r`, or 0. */
  function LastWrite(h: Log, k: Key, r: nat): (w: nat)
    requires r <= |h|
    ensures w <= r && (w > 0 ==> h[w - 1].key == k)
    ensures forall i :: w <= i < r ==> h[i].key != k
  {
    if r == 0 || h[r - 1].key == k then r else LastWrite(h, k, r - 1)
  }

  lemma LastWriteUnique(h: Log, k: Key, r: nat, w: nat)
    requires w <= r <= |h| && (w > 0 ==> h[w - 1].key == k)
    requires forall i :: w <= i < r ==> h[i].key != k
    ensures LastWrite(h, k, r) == w
  {
    var l := LastWrite(h, k, r);
    assert l > 0 ==> h[l - 1].key == k;
  }

  lemma LastWriteExtended(h: Log, h': Log, k: Key, r: nat)
    requires h <= h' && r <= |h|
    ensures LastWrite(h', k, r) == LastWrite(h, k, r)
  {
    LastWriteUnique(h', k, r, LastWrite(h, k, r));
  }

  // ---------------------------------------------------------------- revision bookkeeping

  /** The value stored for a revision, as each write derives it from the key's previous one. */
  function ValueAt(h: Log, rev: nat): (v: Value)
    requires 0 < rev <= |h|
    ensures v.modRevision == rev && v.value == h[rev - 1].value
  {
    var p := LastWrite(h, h[rev - 1].key, rev - 1);
    if p > 0 && h[p - 1].value.Some? then
      var prev := ValueAt(h, p);
      Value(prev.createRevision, rev, prev.version + 1, h[rev - 1].value)
    else Value(rev, rev, 1, h[rev - 1].value)
  }

  lemma {:induction false} ValueAtExtended(h: Log, h': Log, rev: nat)
    requires h <= h' && 0 < rev <= |h|
    ensures ValueAt(h', rev) == ValueAt(h, rev)
  {
    var k := h[rev - 1].key;
    LastWriteExtended(h, h', k, rev - 1);
    var p := LastWrite(h, k, rev - 1);
    if p > 0 {
      ValueAtExtended(h, h', p);
    }
  }

  /** How many writes of `k` there are among the revisions from `s` to `rev`. */
  function CountWrites(h: Log, k: Key, s: nat, rev: nat): nat
    requires 0 < s && rev <= |h|
    decreases rev
  {
    if rev < s then 0 else CountWrites(h, k, s, rev - 1) + if h[rev - 1].key == k then 1 else 0
  }

  /** From `s` up to `rev`, `k` has been live without interruption, and `s` is where that began. */
  ghost predicate LiveRun(h: Log, k: Key, s: nat, rev: nat)
    requires rev <= |h|
  {
    && 0 < s <= rev && h[s - 1].key == k && h[rev - 1].key == k
    && (forall i :: s - 1 <= i < rev - 1 && h[i].key == k ==> h[i].value.Some?)
    && (var p := LastWrite(h, k, s - 1); p == 0 || h[p - 1].value.None?)
  }

  lemma LiveRunUnique(h: Log, k: Key, s: nat, s': nat, rev: nat)
    requires rev <= |h| && LiveRun(h, k, s, rev) && LiveRun(h, k, s', rev)
    ensures s == s'
  {
    if s < s' {
      LiveRunBegins(h, k, s, s', rev);
    } else if s' < s {
      LiveRunBegins(h, k, s', s, rev);
    }
  }

  lemma LiveRunBegins(h: Log, k: Key, s: nat, s': nat, rev: nat)
    requires rev <= |h| && LiveRun(h, k, s, rev) && s < s' <= rev && h[s' - 1].key == k
    ensures !LiveRun(h, k, s', rev)
  {
    var p := LastWrite(h, k, s' - 1);
    assert s <= p by {
      assert h[s - 1].key == k;
    }
  }

  lemma {:induction false} CountFrom(h: Log, k: Key, s: nat, p: nat, rev: nat)
    requires 0 < s && p < rev <= |h| && LastWrite(h, k, rev - 1) == p && h[rev - 1].key == k && s <= p
    ensures CountWrites(h, k, s, rev) == CountWrites(h, k, s, p) + 1
  {
    CountGap(h, k, s, p, rev - 1);
  }

  lemma {:induction false} CountGap(h: Log, k: Key, s: nat, p: nat, r: nat)
    requires 0 < s && p <= r <= |h| && s <= p + 1 && forall i :: p <= i < r ==> h[i].key != k
    ensures CountWrites(h, k, s, r) == CountWrites(h, k, s, p)
    decreases r
  {
    if p < r {
      CountGap(h, k, s, p, r - 1);
    }
  }

  /**
    For every history and revision: `create_revision` is the start of the key's current unbroken live run and
    `version` is the number of writes in that run.
   */
  lemma {:induction false} RevisionBookkeeping(h: Log, rev: nat)
    requires 0 < rev <= |h|
    ensures var k := h[rev - 1].key;
            var v := ValueAt(h, rev);
            && v.createRevision > 0
            && LiveRun(h, k, v.createRevision, rev)
            && v.version == CountWrites(h, k, v.createRevision, rev)
  {
    var k := h[rev - 1].key;
    var p := LastWrite(h, k, rev - 1);
    if p > 0 && h[p - 1].value.Some? {
      RevisionBookkeeping(h, p);
      CountFrom(h, k, ValueAt(h, p).createRevision, p, rev);
    } else {
      assert CountWrites(h, k, rev, rev - 1) == 0;
    }
  }

  // ---------------------------------------------------------------- what callers see

  /**
    What a pair says of the write of `k` at revision `w`, in terms of the history alone: the data, where the current
    live run began and how many writes it has; of a delete, nothing but its revision.
   */
  ghost predicate Tells(h: Log, k: Key, w: int, kv: KeyValue) {
    && Writes(h, k, w) && kv.key == k && kv.modRevision == w
    && match h[w - 1].value
       case Some(d) =>
         && kv.value == d && kv.createRevision > 0 && LiveRun(h, k, kv.createRevision, w)
         && kv.version == CountWrites(h, k, kv.createRevision, w)
       case None => kv.value == [] && kv.createRevision == 0 && kv.version == 0
  }

  lemma PairTells(h: Log, k: Key, w: int)
    requires Writes(h, k, w)
    ensures Tells(h, k, w, AsKeyValue(ValueAt(h, w), k))
  {
    RevisionBookkeeping(h, w);
  }

  /** A pair is all that can be told. */
  lemma TellsUnique(h: Log, k: Key, w: int, a: KeyValue, b: KeyValue)
    requires Tells(h, k, w, a) && Tells(h, k, w, b)
    ensures a == b
  {
    if h[w - 1].value.Some? {
      LiveRunUnique(h, k, a.createRevision, b.createRevision, w);
    }
  }

  /** The key has a value after all writes, last set at revision `w`. */
  ghost predicate LiveNow(h: Log, k: Key, w: int) {
    Writes(h, k, w) && h[w - 1].value.Some? && forall i :: w <= i < |h| ==> h[i].key != k
  }

  /** The revision and version that a requirement is compared with: those of the live value, and 0 without one. */
  ghost predicate Shows(h: Log, k: Key, rev: int, version: int) {
    if rev == 0 then version == 0 && forall w :: !LiveNow(h, k, w)
    else LiveNow(h, k, rev) && exists s :: LiveRun(h, k, s, rev) && version == CountWrites(h, k, s, rev)
  }

  // ---------------------------------------------------------------- states and operations

  /** `compacted` is the largest revision whose value has been dropped. */
  datatype State = State(history: Log, compacted: nat)

  datatype Op =
    | Set(key: Key, value: Option<Data>, requiredRevision: int, requiredVersion: int)
    | Compact(rev: int)

  /** The value a key has now; None when it was never written or is deleted. */
  function Current(h: Log, k: Key): Option<Value> {
    var w := LastWrite(h, k, |h|);
    if w > 0 && h[w - 1].value.Some? then Some(ValueAt(h, w)) else None
  }

  function VisibleRevision(h: Log, k: Key): int {
    match Current(h, k) case Some(v) => v.modRevision case None => 0
  }

  function VisibleVersion(h: Log, k: Key): int {
    match Current(h, k) case Some(v) => v.version case None => 0
  }

  /** Whether a set goes through; a negative requirement is no requirement. */
  predicate Accepts(h: Log, op: Op)
    requires op.Set?
  {
    match Current(h, op.key)
    case Some(v) =>
      && (op.requiredRevision < 0 || op.requiredRevision == v.modRevision)
      && (op.requiredVersion < 0 || op.requiredVersion == v.version)
    case None => op.requiredRevision <= 0 && op.requiredVersion <= 0 && op.value.Some?
  }

  function Step(s: State, op: Op): (s': State)
    ensures s.history <= s'.history && s.compacted <= s'.compacted
    ensures s.compacted <= |s.history| ==> s'.compacted <= |s'.history|
  {
    match op
    case Set(k, v, _, _) => if Accepts(s.history, op) then s.(history := s.history + [Write(k, v)]) else s
    case Compact(rev) =>
      if 1 <= rev <= |s.history| && rev - 1 >= s.compacted then s.(compacted := rev - 1) else s
  }

  /** The state after a run of operations. */
  function Run(s: State, ops: seq<Op>): (s': State)
    ensures s.history <= s'.history && s.compacted <= s'.compacted
    ensures s.compacted <= |s.history| ==> s'.compacted <= |s'.history|
  {
    if ops == [] then s else Step(Run(s, ops[..|ops| - 1]), ops[|ops| - 1])
  }

  /** Cutting off the last operation and cutting at `i` do not interfere. */
  lemma SplitLast(ops: seq<Op>, i: nat)
    requires i < |ops|
    ensures var n := |ops| - 1;
            && ops[..n][..i] == ops[..i] && ops[i..][..|ops[i..]| - 1] == ops[..n][i..]
            && ops[i..] != [] && ops[i..][|ops[i..]| - 1] == ops[n]
  {
  }

  lemma {:induction false} RunSplit(s: State, ops: seq<Op>, i: nat)
    requires i <= |ops|
    ensures Run(s, ops) == Run(Run(s, ops[..i]), ops[i..])
    decreases |ops|
  {
    var n := |ops|;
    if i == n {
      assert ops[..i] == ops && ops[i..] == [];
    } else {
      RunSplit(s, ops[..n - 1], i);
      SplitLast(ops, i);
    }
  }

  // ---------------------------------------------------------------- conditional writes

  lemma RevisionsArePositive(h: Log, k: Key)
    ensures Current(h, k).Some? ==> Current(h, k).value.modRevision > 0 && Current(h, k).value.version > 0
  {
    if Current(h, k).Some? {
      VersionIsPositive(h, LastWrite(h, k, |h|));
    }
  }

  lemma {:induction false} VersionIsPositive(h: Log, rev: nat)
    requires 0 < rev <= |h|
    ensures ValueAt(h, rev).version > 0
  {
    var p := LastWrite(h, h[rev - 1].key, rev - 1);
    if p > 0 {
      VersionIsPositive(h, p);
    }
  }

  lemma LiveNowIsCurrent(h: Log, k: Key, w: int)
    ensures LiveNow(h, k, w) <==> Current(h, k).Some? && w == Current(h, k).value.modRevision
  {
    if LiveNow(h, k, w) {
      LastWriteUnique(h, k, |h|, w);
    }
  }

  lemma VisibleShows(h: Log, k: Key)
    ensures Shows(h, k, VisibleRevision(h, k), VisibleVersion(h, k))
  {
    forall w ensures LiveNow(h, k, w) <==> Current(h, k).Some? && w == Current(h, k).value.modRevision {
      LiveNowIsCurrent(h, k, w);
    }
    if Current(h, k).Some? {
      RevisionsArePositive(h, k);
      RevisionBookkeeping(h, LastWrite(h, k, |h|));
    }
  }

  lemma ShowsUnique(h: Log, k: Key, rev: int, version: int)
    requires Shows(h, k, rev, version)
    ensures rev == VisibleRevision(h, k) && version == VisibleVersion(h, k)
  {
    RevisionsArePositive(h, k);
    LiveNowIsCurrent(h, k, rev);
    LiveNowIsCurrent(h, k, VisibleRevision(h, k));
    if rev != 0 {
      var s :| LiveRun(h, k, s, rev) && version == CountWrites(h, k, s, rev);
      RevisionBookkeeping(h, rev);
      LiveRunUnique(h, k, s, ValueAt(h, rev).createRevision, rev);
    }
  }

  /**
    Exactly when a set goes through, in terms of the history alone: it is not the delete of an absent key, and each
    number that is required, if not negative, is the one that the key shows.
   */
  lemma SetSucceedsIff(h: Log, k: Key, value: Option<Data>, m: int, n: int, rev: int, version: int)
    requires Shows(h, k, rev, version)
    ensures Accepts(h, Set(k, value, m, n)) <==>
              (value.Some? || rev != 0) && (m < 0 || m == rev) && (n < 0 || n == version)
  {
    ShowsUnique(h, k, rev, version);
    RevisionsArePositive(h, k);
  }

  /** A put with an expected revision or version goes through exactly when it names the visible one. */
  lemma PutSucceedsIff(h: Log, k: Key, d: Data, m: int)
    requires m >= 0
    ensures Accepts(h, Set(k, Some(d), m, -1)) <==> m == VisibleRevision(h, k)
    ensures Accepts(h, Set(k, Some(d), -1, m)) <==> m == VisibleVersion(h, k)
  {
    RevisionsArePositive(h, k);
  }

  predicate PutAt(s: State, op: Op, k: Key, m: int) {
    op.Set? && op.key == k && op.value.Some? && op.requiredRevision == m && Accepts(s.history, op)
  }

  predicate DeleteAt(s: State, op: Op, k: Key) {
    op.Set? && op.key == k && op.value.None? && Accepts(s.history, op)
  }

  /** A key that is live before a run and not after it has been deleted on the way. */
  lemma {:induction false} DeletedOnTheWay(s: State, ops: seq<Op>, k: Key) returns (d: nat)
    requires Current(s.history, k).Some? && Current(Run(s, ops).history, k).None?
    ensures d < |ops| && DeleteAt(Run(s, ops[..d]), ops[d], k)
    decreases |ops|
  {
    var n := |ops| - 1;
    var before := Run(s, ops[..n]);
    if Current(before.history, k).None? {
      d := DeletedOnTheWay(s, ops[..n], k);
      assert ops[..n][..d] == ops[..d];
    } else {
      d := n;
      OtherWriteKeepsCurrent(before, ops[n], k);
    }
  }

  lemma OtherWriteKeepsCurrent(s: State, op: Op, k: Key)
    ensures var h' := Step(s, op).history;
            LastWrite(h', k, |h'|) ==
              if op.Set? && op.key == k && Accepts(s.history, op) then |s.history| + 1
              else LastWrite(s.history, k, |s.history|)
    ensures !(op.Set? && op.key == k) ==> Current(Step(s, op).history, k) == Current(s.history, k)
  {
    var h, h' := s.history, Step(s, op).history;
    LastWriteExtended(h, h', k, |h|);
    var w := LastWrite(h, k, |h|);
    if w > 0 {
      ValueAtExtended(h, h', w);
    }
  }

  lemma LastWriteGrows(h: Log, h': Log, k: Key)
    requires h <= h'
    ensures LastWrite(h, k, |h|) <= LastWrite(h', k, |h'|)
  {
    var w := LastWrite(h, k, |h|);
    assert w > 0 ==> h'[w - 1].key == k;
  }

  lemma SecondPut(s: State, first: Op, between: seq<Op>, second: Op, k: Key, m: int) returns (e: nat)
    requires m >= 0 && PutAt(s, first, k, m) && PutAt(Run(Step(s, first), between), second, k, m)
    ensures m == 0 && e < |between| && DeleteAt(Run(Step(s, first), between[..e]), between[e], k)
  {
    var s1 := Step(s, first);
    var s2 := Run(s1, between);
    OtherWriteKeepsCurrent(s, first, k);
    LastWriteGrows(s1.history, s2.history, k);
    e := DeletedOnTheWay(s1, between, k);
  }

  /**
    No lost update, in any run: two successful puts on a key never share an expected revision m > 0, and share m = 0
    only when the key was deleted in between.
   */
  lemma NoLostUpdate(s: State, ops: seq<Op>, i: nat, j: nat, k: Key, m: int) returns (d: nat)
    requires i < j < |ops| && m >= 0
    requires PutAt(Run(s, ops[..i]), ops[i], k, m) && PutAt(Run(s, ops[..j]), ops[j], k, m)
    ensures m == 0
    ensures i < d < j && DeleteAt(Run(s, ops[..d]), ops[d], k)
  {
    var between := ops[i + 1..j];
    RunBetween(s, ops, i, j);
    var e := SecondPut(Run(s, ops[..i]), ops[i], between, ops[j], k, m);
    d := i + 1 + e;
    RunBetween(s, ops, i, d);
    assert ops[i + 1..d] == between[..e];
  }

  lemma RunBetween(s: State, ops: seq<Op>, i: nat, j: nat)
    requires i < j <= |ops|
    ensures Run(s, ops[..j]) == Run(Step(Run(s, ops[..i]), ops[i]), ops[i + 1..j])
  {
    RunSplit(s, ops[..j], i + 1);
    assert ops[..j][..i + 1] == ops[..i + 1] && ops[..j][i + 1..] == ops[i + 1..j];
    assert ops[..i + 1][..i] == ops[..i];
  }

  // ---------------------------------------------------------------- historical reads

  /**
    A read of one key at revision `r`: the last write at or before it, provided that write is not compacted or is
    still the key's latest.
   */
  function Lookup(s: State, k: Key, r: nat): Option<Value>
    requires r <= |s.history|
  {
    var h := s.history;
    var w := LastWrite(h, k, r);
    if w > 0 && (w > s.compacted || w == LastWrite(h, k, |h|)) then Some(ValueAt(h, w)) else None
  }

  /** `k` is live in the store as read at revision `r`. */
  predicate LiveAt(s: State, k: Key, r: nat)
    requires r <= |s.history|
  {
    var v := Lookup(s, k, r);
    v.Some? && v.value.value.Some?
  }

  /**
    As read at revision `r`, in terms of the history alone, `k` has a value, set at revision `w`: nothing wrote it in
    between, and `w` is not compacted unless nothing has written it since.
   */
  ghost predicate ReadsAs(s: State, k: Key, r: nat, w: int) {
    && Writes(s.history, k, w) && w <= r && s.history[w - 1].value.Some?
    && (forall i {:trigger s.history[i]} :: w <= i < r && i < |s.history| ==> s.history[i].key != k)
    && (w > s.compacted || forall i {:trigger s.history[i]} :: w <= i < |s.history| ==> s.history[i].key != k)
  }

  lemma ReadsAsIff(s: State, k: Key, r: nat, w: int)
    requires r <= |s.history|
    ensures ReadsAs(s, k, r, w) <==> LiveAt(s, k, r) && w == LastWrite(s.history, k, r)
  {
    if ReadsAs(s, k, r, w) {
      ReadsAsLive(s, k, r, w);
    } else if LiveAt(s, k, r) && w == LastWrite(s.history, k, r) {
      LiveReadsAs(s, k, r);
    }
  }

  lemma ReadsAsLive(s: State, k: Key, r: nat, w: nat)
    requires r <= |s.history| && ReadsAs(s, k, r, w)
    ensures LiveAt(s, k, r) && w == LastWrite(s.history, k, r)
  {
    LastWriteUnique(s.history, k, r, w);
    if w <= s.compacted {
      LastWriteUnique(s.history, k, |s.history|, w);
    }
  }

  lemma LiveReadsAs(s: State, k: Key, r: nat)
    requires r <= |s.history| && LiveAt(s, k, r)
    ensures ReadsAs(s, k, r, LastWrite(s.history, k, r))
  {
  }

  /**
    Reads at a fixed revision over any run of sets and compactions: the answer is the same for ever, except that it
    turns into "absent" exactly when its write has been compacted and overwritten.
   */
  lemma HistoricalReads(s: State, ops: seq<Op>, k: Key, r: nat)
    requires r <= |s.history|
    ensures var s' := Run(s, ops);
            var w := LastWrite(s.history, k, r);
            Lookup(s', k, r) ==
              if w == 0 || (w <= s'.compacted && w < LastWrite(s'.history, k, |s'.history|)) then None
              else Some(ValueAt(s.history, w))
  {
    var s' := Run(s, ops);
    var w := LastWrite(s.history, k, r);
    LastWriteExtended(s.history, s'.history, k, r);
    assert w <= LastWrite(s'.history, k, |s'.history|) by {
      assert w > 0 ==> s'.history[w - 1].key == k;
    }
    if w > 0 {
      ValueAtExtended(s.history, s'.history, w);
    }
  }

  function Plain(k: Key, d: Data): Op { Set(k, Some(d), -1, -1) }

  lemma PlainStep(h: Log, k: Key, d: Data)
    ensures Step(State(h, 0), Plain(k, d)) == State(h + [Write(k, Some(d))], 0)
  {
  }

  lemma RunOneMore(s: State, ops: seq<Op>, op: Op)
    ensures Run(s, ops + [op]) == Step(Run(s, ops), op)
  {
    assert (ops + [op])[..|ops|] == ops;
  }

  /**
    Compaction is meant to leave reads at later revisions alone; here it does not. After writes of a, b and a again,
    a read of a at revision 2 finds the first write, and finds nothing once the store is compacted at revision 2,
    although revision 2 is still accepted.
   */
  lemma CompactionHidesLiveValue(a: Key, b: Key, d: Data) returns (s: State, s': State)
    requires a != b
    ensures s == Run(State([], 0), [Plain(a, d), Plain(b, d), Plain(a, d)])
    ensures s' == Run(State([], 0), [Plain(a, d), Plain(b, d), Plain(a, d)] + [Compact(2)])
    ensures s'.compacted < 2 <= |s'.history| && s'.history == s.history
    ensures Lookup(s, a, 2) == Some(Value(1, 1, 1, Some(d))) && Lookup(s', a, 2) == None
  {
    ThreeWrites(a, b, d);
    var ops := [Plain(a, d), Plain(b, d), Plain(a, d)];
    RunOneMore(State([], 0), ops, Compact(2));
    s, s' := Run(State([], 0), ops), Run(State([], 0), ops + [Compact(2)]);
    HiddenAtTwo(s.history, a, d);
  }

  lemma PlainAppends(ops: seq<Op>, h: Log, k: Key, d: Data, ops': seq<Op>, h': Log)
    requires Run(State([], 0), ops) == State(h, 0) && ops' == ops + [Plain(k, d)] && h' == h + [Write(k, Some(d))]
    ensures Run(State([], 0), ops') == State(h', 0)
  {
    RunOneMore(State([], 0), ops, Plain(k, d));
    PlainStep(h, k, d);
  }

  lemma ThreeWrites(a: Key, b: Key, d: Data)
    ensures var w, v := Write(a, Some(d)), Write(b, Some(d));
            Run(State([], 0), [Plain(a, d), Plain(b, d), Plain(a, d)]) == State([w, v, w], 0)
  {
    var x, y, w, v := Plain(a, d), Plain(b, d), Write(a, Some(d)), Write(b, Some(d));
    PlainAppends([], [], a, d, [x], [w]);
    PlainAppends([x], [w], b, d, [x, y], [w, v]);
    PlainAppends([x, y], [w, v], a, d, [x, y, x], [w, v, w]);
  }

  lemma HiddenAtTwo(h: Log, a: Key, d: Data)
    requires |h| == 3 && h[0] == h[2] == Write(a, Some(d)) && h[1].key != a
    ensures Lookup(State(h, 0), a, 2) == Some(Value(1, 1, 1, Some(d))) && Lookup(State(h, 1), a, 2) == None
  {
    LastWriteUnique(h, a, 2, 1);
    LastWriteUnique(h, a, 3, 3);
    LastWriteUnique(h, a, 0, 0);
  }
}
