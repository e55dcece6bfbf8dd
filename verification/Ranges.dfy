/** What a range query answers: the live keys of the scan, in order, up to a limit, and a count. */
module Ranges {
  import opened Wrappers
  import opened Bytes
  import opened KeyIndex
  import opened OrderedMap
  import opened History
  import opened Catalog

  // ---------------------------------------------------------------- the keys of a scan

  /** The keys of the entries that fall into the window, in the order of the entries. */
  function ScanKeys<T>(prefix: Key, entries: Entries<T>, lo: Bound, hi: Bound): seq<Key> {
    if entries == [] then []
    else
      var n := |entries| - 1;
      ScanKeys(prefix, entries[..n], lo, hi) + if InWindow(entries[n].0, lo, hi) then [prefix + entries[n].0] else []
  }

  lemma ScanStep<T>(prefix: Key, entries: Entries<T>, lo: Bound, hi: Bound, i: nat)
    requires i < |entries|
    ensures ScanKeys(prefix, entries[..i + 1], lo, hi) ==
              ScanKeys(prefix, entries[..i], lo, hi)
              + if InWindow(entries[i].0, lo, hi) then [prefix + entries[i].0] else []
  {
    assert entries[..i + 1][..i] == entries[..i];
  }

  lemma {:induction false} ScanMembers<T>(prefix: Key, entries: Entries<T>, lo: Bound, hi: Bound, k: Key)
    ensures k in ScanKeys(prefix, entries, lo, hi) <==>
              exists i :: 0 <= i < |entries| && InWindow(entries[i].0, lo, hi) && k == prefix + entries[i].0
  {
    if entries != [] {
      var n := |entries| - 1;
      ScanMembers(prefix, entries[..n], lo, hi, k);
      assert forall i :: 0 <= i < n ==> entries[..n][i] == entries[i];
    }
  }

  lemma {:induction false} ScanAscending<T>(prefix: Key, entries: Entries<T>, lo: Bound, hi: Bound)
    requires Sorted(entries)
    ensures Ascending(ScanKeys(prefix, entries, lo, hi))
  {
    if entries != [] {
      var n := |entries| - 1;
      var front, last := ScanKeys(prefix, entries[..n], lo, hi), prefix + entries[n].0;
      ScanAscending(prefix, entries[..n], lo, hi);
      forall k | k in front ensures Less(k, last) {
        ScanMembers(prefix, entries[..n], lo, hi, k);
        var i :| 0 <= i < n && k == prefix + entries[..n][i].0;
        LessCancel(prefix, entries[i].0, entries[n].0);
      }
    }
  }

  /** The scan of an index visits exactly the stored keys that belong to the window. */
  lemma ScanIsExact<T>(tree: map<Key, T>, prefixes: map<Key, Entries<T>>, w: Window, k: Key)
    requires Indexed(tree, prefixes)
    ensures k in ScanKeys(w.prefix, EntriesOf(prefixes, w.prefix), w.lo, w.hi) <==>
              k in tree && PrefixOf(k) == w.prefix && InWindow(SuffixOf(k), w.lo, w.hi)
  {
    var entries := EntriesOf(prefixes, w.prefix);
    ScanMembers(w.prefix, entries, w.lo, w.hi, k);
    if k in tree && PrefixOf(k) == w.prefix {
      PrefixShapes(k);
      assert HasEntry(tree, prefixes, k);
      var i :| 0 <= i < |entries| && entries[i] == (SuffixOf(k), tree[k]);
    }
    if i :| 0 <= i < |entries| && InWindow(entries[i].0, w.lo, w.hi) && k == w.prefix + entries[i].0 {
      assert EntryRight(tree, w.prefix, entries[i]);
      EntryIsCut(w.prefix, entries[i].0);
    }
  }

  // ---------------------------------------------------------------- the answer

  /** The keys that are live as of revision `r`. */
  function Live(s: State, keys: seq<Key>, r: nat): seq<Key>
    requires r <= |s.history|
  {
    if keys == [] then []
    else
      var n := |keys| - 1;
      Live(s, keys[..n], r) + if LiveAt(s, keys[n], r) then [keys[n]] else []
  }

  lemma {:induction false} LiveMembers(s: State, keys: seq<Key>, r: nat)
    requires r <= |s.history|
    ensures |Live(s, keys, r)| <= |keys|
    ensures forall k :: k in Live(s, keys, r) <==> k in keys && LiveAt(s, k, r)
  {
    if keys != [] {
      var n := |keys| - 1;
      LiveMembers(s, keys[..n], r);
      assert keys == keys[..n] + [keys[n]];
    }
  }

  lemma {:induction false} LiveAscending(s: State, keys: seq<Key>, r: nat)
    requires r <= |s.history| && Ascending(keys)
    ensures Ascending(Live(s, keys, r))
  {
    if keys != [] {
      var n := |keys| - 1;
      var front := Live(s, keys[..n], r);
      LiveAscending(s, keys[..n], r);
      LiveMembers(s, keys[..n], r);
      forall i | 0 <= i < |front| ensures Less(front[i], keys[n]) {
        assert front[i] in keys[..n];
        var j :| 0 <= j < n && keys[..n][j] == front[i];
        assert Less(keys[j], keys[n]);
      }
    }
  }

  /** The key-value pairs of live keys. */
  function Rows(s: State, keys: seq<Key>, r: nat): (rows: seq<KeyValue>)
    requires r <= |s.history|
    ensures |rows| == |keys|
  {
    seq(|keys|, i requires 0 <= i < |keys| =>
      var v := Lookup(s, keys[i], r);
      if v.Some? then AsKeyValue(v.value, keys[i]) else KeyValue(keys[i], [], 0, 0, 0))
  }

  function Shown(limit: Option<nat>, n: nat): nat {
    if limit.Some? && limit.value < n then limit.value else n
  }

  /**
    The result is the first `limit` live keys; the count is exact when they all fit, never less than the number of
    live keys nor more than the number of keys scanned, and exceeds the limit exactly when there are more.
   */
  ghost predicate Answers(s: State, keys: seq<Key>, r: nat, limit: Option<nat>, kvs: seq<KeyValue>, count: nat)
    requires r <= |s.history|
  {
    var live := Live(s, keys, r);
    && kvs == Rows(s, live[..Shown(limit, |live|)], r)
    && |live| <= count <= |keys|
    && (limit.None? || |live| <= limit.value ==> count == |live|)
    && (limit.Some? ==> (count > limit.value <==> |live| > limit.value))
  }

  lemma NothingScanned(s: State, r: nat, limit: Option<nat>)
    requires r <= |s.history|
    ensures Answers(s, [], r, limit, [], 0)
  {
  }

  /** One more key that is not live. */
  lemma ScanDead(s: State, keys: seq<Key>, k: Key, r: nat, limit: Option<nat>, kvs: seq<KeyValue>, count: nat)
    requires r <= |s.history| && Answers(s, keys, r, limit, kvs, count) && !LiveAt(s, k, r)
    ensures Answers(s, keys + [k], r, limit, kvs, count)
  {
    assert (keys + [k])[..|keys|] == keys;
  }

  /** One more key beyond the limit is counted whether it is live or not. */
  lemma ScanBeyond(s: State, keys: seq<Key>, k: Key, r: nat, limit: Option<nat>, kvs: seq<KeyValue>, count: nat)
    requires r <= |s.history| && Answers(s, keys, r, limit, kvs, count)
    requires limit.Some? && count > limit.value
    ensures Answers(s, keys + [k], r, limit, kvs, count + 1)
  {
    var live, live' := Live(s, keys, r), Live(s, keys + [k], r);
    assert (keys + [k])[..|keys|] == keys;
    assert live'[..limit.value] == live[..limit.value];
  }

  /** One more live key, up to and just beyond the limit. */
  lemma ScanLive(s: State, keys: seq<Key>, k: Key, r: nat, limit: Option<nat>, kvs: seq<KeyValue>, count: nat)
    requires r <= |s.history| && Answers(s, keys, r, limit, kvs, count) && LiveAt(s, k, r)
    requires limit.None? || count <= limit.value
    ensures limit.None? || count < limit.value ==>
              Answers(s, keys + [k], r, limit, kvs + [AsKeyValue(Lookup(s, k, r).value, k)], count + 1)
    ensures limit.Some? && count == limit.value ==> Answers(s, keys + [k], r, limit, kvs, count + 1)
    ensures |kvs| == count
  {
    var live, live' := Live(s, keys, r), Live(s, keys + [k], r);
    assert (keys + [k])[..|keys|] == keys;
    assert live' == live + [k];
    assert live[..|live|] == live && live'[..|live'|] == live' && live'[..|live|] == live;
    assert Rows(s, live', r) == Rows(s, live, r) + [AsKeyValue(Lookup(s, k, r).value, k)];
  }

  // ---------------------------------------------------------------- the answer as of a flat sorted map

  /** The pair is that of a key with a value at revision `r`. */
  ghost predicate RowRight(s: State, r: nat, kv: KeyValue) {
    exists w :: ReadsAs(s, kv.key, r, w) && Tells(s.history, kv.key, w, kv)
  }

  ghost predicate HasKey(kvs: seq<KeyValue>, k: Key) { exists i :: 0 <= i < |kvs| && kvs[i].key == k }

  /** The key lies in the range, has a value at revision `r`, and is not among the pairs. */
  ghost predicate HeldBack(s: State, start: Key, end: Key, r: nat, kvs: seq<KeyValue>, k: Key) {
    InRange(start, end, k) && !HasKey(kvs, k) && exists w :: ReadsAs(s, k, r, w)
  }

  /** Pairs of keys in the range that have a value at revision `r`, in ascending order, no more than the limit. */
  ghost predicate Sound(s: State, start: Key, end: Key, r: nat, limit: Option<nat>, kvs: seq<KeyValue>) {
    && (forall i {:trigger kvs[i]} :: 0 <= i < |kvs| ==> RowRight(s, r, kvs[i]) && InRange(start, end, kvs[i].key))
    && (forall i, j :: 0 <= i < j < |kvs| ==> Less(kvs[i].key, kvs[j].key))
    && (limit.Some? ==> |kvs| <= limit.value)
  }

  /** No key is held back unless the limit is reached, and then only later ones, which the count tells. */
  ghost predicate Whole(s: State, start: Key, end: Key, r: nat, limit: Option<nat>, kvs: seq<KeyValue>, count: int) {
    && (forall k {:trigger HeldBack(s, start, end, r, kvs, k)} :: HeldBack(s, start, end, r, kvs, k) ==>
          limit.Some? && |kvs| == limit.value < count && forall i :: 0 <= i < |kvs| ==> Less(kvs[i].key, k))
    && ((forall k :: !HeldBack(s, start, end, r, kvs, k)) ==> count == |kvs|)
  }

  lemma RowsRight(s: State, keys: seq<Key>, r: nat, i: nat)
    requires r <= |s.history| && i < |keys| && LiveAt(s, keys[i], r)
    ensures Rows(s, keys, r)[i].key == keys[i] && RowRight(s, r, Rows(s, keys, r)[i])
  {
    var w := LastWrite(s.history, keys[i], r);
    ReadsAsIff(s, keys[i], r, w);
    PairTells(s.history, keys[i], w);
  }

  lemma AnswersAreSound(s: State, keys: seq<Key>, r: nat, limit: Option<nat>, kvs: seq<KeyValue>, count: nat,
                        start: Key, end: Key)
    requires r <= |s.history| && Answers(s, keys, r, limit, kvs, count)
    requires Ascending(keys) && forall k :: k in keys ==> InRange(start, end, k)
    ensures Sound(s, start, end, r, limit, kvs)
    ensures forall i :: 0 <= i < |kvs| ==> i < |Live(s, keys, r)| && kvs[i].key == Live(s, keys, r)[i]
  {
    var live := Live(s, keys, r);
    var shown := live[..Shown(limit, |live|)];
    LiveMembers(s, keys, r);
    LiveAscending(s, keys, r);
    forall i | 0 <= i < |kvs|
      ensures kvs[i].key == live[i] && RowRight(s, r, kvs[i]) && InRange(start, end, kvs[i].key)
    {
      assert live[i] in live;
      RowsRight(s, shown, r, i);
    }
  }

  lemma AnswersAreWhole(s: State, keys: seq<Key>, r: nat, limit: Option<nat>, kvs: seq<KeyValue>, count: nat,
                        start: Key, end: Key)
    requires r <= |s.history| && Answers(s, keys, r, limit, kvs, count)
    requires Ascending(keys) && forall k :: k in keys ==> InRange(start, end, k)
    requires forall k :: InRange(start, end, k) && LastWrite(s.history, k, |s.history|) > 0 ==> k in keys
    ensures Whole(s, start, end, r, limit, kvs, count)
  {
    var live := Live(s, keys, r);
    AnswersAreSound(s, keys, r, limit, kvs, count, start, end);
    LiveMembers(s, keys, r);
    LiveAscending(s, keys, r);
    forall k | HeldBack(s, start, end, r, kvs, k)
      ensures limit.Some? && |kvs| == limit.value < count && forall i :: 0 <= i < |kvs| ==> Less(kvs[i].key, k)
    {
      HeldBackIsLater(s, keys, r, kvs, start, end, k);
    }
    if limit.Some? && |live| > limit.value {
      var k := live[limit.value];
      assert k in live;
      ReadsAsIff(s, k, r, LastWrite(s.history, k, r));
      assert !HasKey(kvs, k) by {
        forall i | 0 <= i < |kvs| ensures kvs[i].key != k {
          LessTotal(live[i], k);
        }
      }
      assert HeldBack(s, start, end, r, kvs, k);
    }
  }

  /** A key that is held back is a live one beyond those shown. */
  lemma HeldBackIsLater(s: State, keys: seq<Key>, r: nat, kvs: seq<KeyValue>, start: Key, end: Key, k: Key)
    requires r <= |s.history| && HeldBack(s, start, end, r, kvs, k)
    requires |kvs| <= |Live(s, keys, r)| && forall i :: 0 <= i < |kvs| ==> kvs[i].key == Live(s, keys, r)[i]
    requires Ascending(Live(s, keys, r))
    requires forall k :: InRange(start, end, k) && LastWrite(s.history, k, |s.history|) > 0 ==> k in keys
    ensures |kvs| < |Live(s, keys, r)| && forall i :: 0 <= i < |kvs| ==> Less(kvs[i].key, k)
  {
    var live := Live(s, keys, r);
    var w :| ReadsAs(s, k, r, w);
    ReadsAsIff(s, k, r, w);
    assert s.history[w - 1].key == k;
    LiveMembers(s, keys, r);
    var j :| 0 <= j < |live| && live[j] == k;
    assert j >= |kvs|;
  }
}
