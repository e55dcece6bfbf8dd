/** What is kept per key: the revisions that may still have values, and the latest value. */
module Items {
  import opened Wrappers
  import opened Bytes
  import opened History

  datatype Item = Item(revisions: seq<nat>, latest: Value)

  ghost predicate Increasing(s: seq<nat>) {
    forall i, j :: 0 <= i < j < |s| ==> s[i] < s[j]
  }

  /** `revs` lists only revisions of `k`, in order, and all of those that are not below `compacted`. */
  ghost predicate Lists(h: Log, compacted: nat, k: Key, revs: seq<nat>) {
    && Increasing(revs)
    && (forall i :: 0 <= i < |revs| ==> Writes(h, k, revs[i]))
    && (forall r {:trigger Writes(h, k, r)} :: compacted <= r && Writes(h, k, r) ==> r in revs)
  }

  /** `item` is right for key `k`: its list is right and ends in the key's last write, whose value it holds. */
  ghost predicate Represents(h: Log, compacted: nat, k: Key, item: Item) {
    var w, revs := LastWrite(h, k, |h|), item.revisions;
    && w > 0 && item.latest == ValueAt(h, w)
    && revs != [] && revs[|revs| - 1] == w
    && Lists(h, compacted, k, revs)
  }

  /** The value that a write of `v` on top of `latest` gets. */
  function NextValue(latest: Value, rev: nat, v: Option<Data>): Value {
    if latest.value.Some? then Value(latest.createRevision, rev, latest.version + 1, v) else Value(rev, rev, 1, v)
  }

  /** An item after a write: the first `d` revisions drained, the new one at the end. */
  function NextItem(item: Item, rev: nat, v: Option<Data>, d: nat): Item
    requires d <= |item.revisions|
  {
    Item(item.revisions[d..] + [rev], NextValue(item.latest, rev, v))
  }

  /** The first position whose revision is not below `c`. */
  method PartitionPoint(revs: seq<nat>, c: nat) returns (i: nat)
    requires Increasing(revs)
    ensures i <= |revs|
    ensures forall j :: 0 <= j < i ==> revs[j] < c
    ensures forall j :: i <= j < |revs| ==> c <= revs[j]
  {
    i := 0;
    var hi := |revs|;
    while i < hi
      invariant 0 <= i <= hi <= |revs|
      invariant forall j :: 0 <= j < i ==> revs[j] < c
      invariant forall j :: hi <= j < |revs| ==> c <= revs[j]
    {
      var mid := (i + hi) / 2;
      if revs[mid] < c {
        i := mid + 1;
      } else {
        hi := mid;
      }
    }
  }

  /** The position of `r`, or else the position where it would be inserted. */
  method BinarySearch(revs: seq<nat>, r: nat) returns (found: bool, i: nat)
    requires Increasing(revs)
    ensures i <= |revs| && found == (r in revs)
    ensures found ==> i < |revs| && revs[i] == r
    ensures forall j :: 0 <= j < i ==> revs[j] < r
    ensures forall j :: i <= j < |revs| ==> r <= revs[j]
  {
    i := PartitionPoint(revs, r);
    found := i < |revs| && revs[i] == r;
  }

  // ---------------------------------------------------------------- writes

  lemma NextValueIsValueAt(h: Log, h': Log, k: Key, v: Option<Data>)
    requires LastWrite(h, k, |h|) > 0 && h' == h + [Write(k, v)]
    ensures NextValue(ValueAt(h, LastWrite(h, k, |h|)), |h| + 1, v) == ValueAt(h', |h| + 1)
  {
    var w := LastWrite(h, k, |h|);
    LastWriteExtended(h, h', k, |h|);
    ValueAtExtended(h, h', w);
    assert h'[|h|] == Write(k, v) && LastWrite(h', h'[|h|].key, |h|) == w;
    assert h'[w - 1] == h[w - 1];
  }

  /** Writing a known key: revisions below the compaction point may be drained, the new one goes to the end. */
  lemma WriteKnown(h: Log, c: nat, k: Key, item: Item, v: Option<Data>, d: nat)
    requires Represents(h, c, k, item)
    requires d <= |item.revisions| && forall i :: 0 <= i < d ==> item.revisions[i] < c
    ensures Represents(h + [Write(k, v)], c, k, NextItem(item, |h| + 1, v, d))
  {
    var h' := h + [Write(k, v)];
    NextValueIsValueAt(h, h', k, v);
    LastWriteUnique(h', k, |h'|, |h'|);
    ListsAppend(h, h', c, k, item.revisions, v, d);
  }

  lemma ListsAppend(h: Log, h': Log, c: nat, k: Key, revs: seq<nat>, v: Option<Data>, d: nat)
    requires Lists(h, c, k, revs) && h' == h + [Write(k, v)]
    requires d <= |revs| && forall i :: 0 <= i < d ==> revs[i] < c
    ensures Lists(h', c, k, revs[d..] + [|h| + 1])
  {
    var revs' := revs[d..] + [|h| + 1];
    forall r | c <= r && Writes(h', k, r) ensures r in revs' {
      if r <= |h| {
        assert Writes(h, k, r);
        DrainKeeps(revs, c, d, r);
      } else {
        assert revs'[|revs'| - 1] == r;
      }
    }
    forall i | 0 <= i < |revs'| ensures Writes(h', k, revs'[i]) {
      assert i < |revs| - d ==> revs'[i] == revs[d + i];
    }
  }

  lemma DrainKeeps(revs: seq<nat>, c: nat, d: nat, r: nat)
    requires d <= |revs| && (forall i :: 0 <= i < d ==> revs[i] < c) && c <= r && r in revs
    ensures r in revs[d..]
  {
    var j :| 0 <= j < |revs| && revs[j] == r;
    assert revs[d..][j - d] == r;
  }

  lemma WriteNew(h: Log, c: nat, k: Key, v: Option<Data>)
    requires LastWrite(h, k, |h|) == 0
    ensures var n := |h| + 1;
            Represents(h + [Write(k, v)], c, k, Item([n], Value(n, n, 1, v)))
  {
    var h' := h + [Write(k, v)];
    LastWriteExtended(h, h', k, |h|);
    LastWriteUnique(h', k, |h'|, |h'|);
  }

  lemma WriteOther(h: Log, c: nat, k: Key, item: Item, write: Write)
    requires Represents(h, c, k, item) && write.key != k
    ensures Represents(h + [write], c, k, item)
  {
    var h' := h + [write];
    var w := LastWrite(h, k, |h|);
    LastWriteUnique(h', k, |h'|, w);
    ValueAtExtended(h, h', w);
    assert forall r :: Writes(h', k, r) ==> Writes(h, k, r);
  }

  lemma CompactItem(h: Log, c: nat, c': nat, k: Key, item: Item)
    requires Represents(h, c, k, item) && c <= c'
    ensures Represents(h, c', k, item)
  {
  }

  // ---------------------------------------------------------------- reads

  /** What the deque answers for a revision. */
  function Stored(h: Log, compacted: nat, rev: nat): Option<Value>
    requires 0 < rev <= |h|
  {
    if compacted < rev then Some(ValueAt(h, rev)) else None
  }

  /** At or beyond the latest write, the latest value is the answer. */
  lemma ReadLatest(s: State, k: Key, item: Item, r: nat)
    requires Represents(s.history, s.compacted, k, item)
    requires item.latest.modRevision <= r <= |s.history|
    ensures Lookup(s, k, r) == Some(item.latest)
  {
    LastWriteUnique(s.history, k, r, LastWrite(s.history, k, |s.history|));
  }

  /** Before it, the largest listed revision at or below `r` leads to the answer. */
  lemma ReadEarlier(s: State, k: Key, item: Item, r: nat, i: nat)
    requires Represents(s.history, s.compacted, k, item)
    requires 0 < r < item.latest.modRevision
    requires i <= |item.revisions|
    requires forall j :: 0 <= j < i ==> item.revisions[j] <= r
    requires forall j :: i <= j < |item.revisions| ==> r < item.revisions[j]
    ensures i > 0 ==> Lookup(s, k, r) == Stored(s.history, s.compacted, item.revisions[i - 1])
    ensures i == 0 ==> Lookup(s, k, r) == None
  {
    var h, revs := s.history, item.revisions;
    var w := LastWrite(h, k, r);
    if i > 0 {
      assert Writes(h, k, revs[i - 1]) && revs[i - 1] <= w;
    }
    if w > s.compacted {
      assert Writes(h, k, w);
      var j :| 0 <= j < |revs| && revs[j] == w;
      assert j < i;
    }
  }
}
