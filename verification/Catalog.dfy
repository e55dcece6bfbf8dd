/** How the store's maps stand for the history, on values. */
module Catalog {
  import opened Wrappers
  import opened Bytes
  import opened KeyIndex
  import opened OrderedMap
  import opened History
  import opened Items
  import opened OffsetSeqs

  /** One right item for every key that was ever written. */
  ghost predicate Complete(s: State, view: map<Key, Item>) {
    && (forall k {:trigger Represents(s.history, s.compacted, k, view[k])} ::
          k in view ==> Represents(s.history, s.compacted, k, view[k]))
    && (forall k, r :: Writes(s.history, k, r) ==> k in view)
  }

  lemma CompleteWrite(s: State, s': State, view: map<Key, Item>, k: Key, v: Option<Data>, item: Item)
    requires Complete(s, view) && s' == s.(history := s.history + [Write(k, v)])
    requires Represents(s'.history, s.compacted, k, item)
    ensures Complete(s', view[k := item])
  {
    var h, h' := s.history, s'.history;
    forall k' | k' in view && k' != k ensures Represents(h', s.compacted, k', view[k']) {
      assert Represents(h, s.compacted, k', view[k']);
      WriteOther(h, s.compacted, k', view[k'], Write(k, v));
    }
    forall k', r | Writes(h', k', r) ensures k' in view[k := item] {
      assert r <= |h| ==> Writes(h, k', r);
    }
  }

  lemma CompleteCompact(s: State, s': State, view: map<Key, Item>)
    requires Complete(s, view) && s'.history == s.history && s.compacted <= s'.compacted
    ensures Complete(s', view)
  {
    forall k | k in view ensures Represents(s'.history, s'.compacted, k, view[k]) {
      assert Represents(s.history, s.compacted, k, view[k]);
      CompactItem(s.history, s.compacted, s'.compacted, k, view[k]);
    }
  }

  /** The deque holds the values of the revisions that are not compacted. */
  ghost predicate Recorded(s: State, values: OffsetSeq<Value>) {
    && values.start == s.compacted && values.End() == |s.history|
    && forall i {:trigger ItemIs(s, values, i)} :: 0 <= i < |values.items| ==> ItemIs(s, values, i)
  }

  /** Place `i` of the deque holds the value of the revision it stands for. */
  ghost predicate ItemIs(s: State, values: OffsetSeq<Value>, i: nat)
    requires i < |values.items| && values.End() == |s.history|
  {
    values.items[i] == ValueAt(s.history, values.start + i + 1)
  }

  lemma RecordedAt(s: State, values: OffsetSeq<Value>, rev: nat)
    requires Recorded(s, values) && 0 < rev <= |s.history|
    ensures values.At(rev - 1) == Stored(s.history, s.compacted, rev)
  {
    if s.compacted < rev {
      assert ItemIs(s, values, rev - 1 - values.start);
    }
  }

  lemma RecordedWrite(s: State, s': State, values: OffsetSeq<Value>, write: Write, value: Value)
    requires Recorded(s, values) && s' == s.(history := s.history + [write])
    requires value == ValueAt(s'.history, |s.history| + 1)
    ensures Recorded(s', values.Append(value))
  {
    forall i | 0 <= i <= |values.items| ensures ItemIs(s', values.Append(value), i) {
      if i < |values.items| {
        assert ItemIs(s, values, i);
        ValueAtExtended(s.history, s'.history, values.start + i + 1);
      }
    }
  }

  lemma RecordedCompact(s: State, values: OffsetSeq<Value>, i: nat)
    requires Recorded(s, values) && values.CanDrop(i)
    ensures Recorded(s.(compacted := i), values.DropBefore(i))
  {
    var s', rest := s.(compacted := i), values.DropBefore(i);
    forall j | 0 <= j < |rest.items| ensures ItemIs(s', rest, j) {
      assert ItemIs(s, values, j + (i - values.start));
    }
  }

  // ---------------------------------------------------------------- the tables of a store

  /** The items and the values of a store, with the history and compaction point that they stand for. */
  datatype Tables = Tables(state: State, items: map<Key, Item>, values: OffsetSeq<Value>)

  type SoundTables = t: Tables | Complete(t.state, t.items) && Recorded(t.state, t.values)
    ghost witness Tables(State([], 0), map[], OffsetSeq(0, []))

  lemma WriteKeepsSound(t: SoundTables, s': State, k: Key, v: Option<Data>, item: Item)
    requires s' == t.state.(history := t.state.history + [Write(k, v)])
    requires Represents(s'.history, s'.compacted, k, item)
    ensures Complete(s', t.items[k := item]) && Recorded(s', t.values.Append(item.latest))
  {
    LastWriteUnique(s'.history, k, |s'.history|, |s'.history|);
    CompleteWrite(t.state, s', t.items, k, v, item);
    RecordedWrite(t.state, s', t.values, Write(k, v), item.latest);
  }

  lemma KnownKeepsSound(t: SoundTables, k: Key, v: Option<Data>, d: nat)
    requires k in t.items && d <= |t.items[k].revisions|
    requires forall i :: 0 <= i < d ==> t.items[k].revisions[i] < t.state.compacted
    ensures var s' := t.state.(history := t.state.history + [Write(k, v)]);
            var item := NextItem(t.items[k], |t.state.history| + 1, v, d);
            Complete(s', t.items[k := item]) && Recorded(s', t.values.Append(item.latest))
  {
    var s, s' := t.state, t.state.(history := t.state.history + [Write(k, v)]);
    assert Represents(s.history, s.compacted, k, t.items[k]);
    WriteKnown(s.history, s.compacted, k, t.items[k], v, d);
    WriteKeepsSound(t, s', k, v, NextItem(t.items[k], |s.history| + 1, v, d));
  }

  /** A write of a key that has an item, of whose revisions the first `d` are drained. */
  ghost function WriteKnownKey(t: SoundTables, k: Key, v: Option<Data>, d: nat): (t': SoundTables)
    requires k in t.items && d <= |t.items[k].revisions|
    requires forall i :: 0 <= i < d ==> t.items[k].revisions[i] < t.state.compacted
    ensures t'.state == t.state.(history := t.state.history + [Write(k, v)])
    ensures var item := NextItem(t.items[k], |t.state.history| + 1, v, d);
            t'.items == t.items[k := item] && t'.values == t.values.Append(item.latest)
  {
    var item := NextItem(t.items[k], |t.state.history| + 1, v, d);
    KnownKeepsSound(t, k, v, d);
    Tables(t.state.(history := t.state.history + [Write(k, v)]), t.items[k := item], t.values.Append(item.latest))
  }

  /** The first write of a key. */
  ghost function WriteNewKey(t: SoundTables, k: Key, v: Option<Data>): (t': SoundTables)
    requires k !in t.items
    ensures t'.state == t.state.(history := t.state.history + [Write(k, v)])
    ensures var n := |t.state.history| + 1;
            t'.items == t.items[k := Item([n], Value(n, n, 1, v))] && t'.values == t.values.Append(Value(n, n, 1, v))
  {
    var s, s' := t.state, t.state.(history := t.state.history + [Write(k, v)]);
    var n := |s'.history|;
    var item := Item([n], Value(n, n, 1, v));
    AbsentIsUnwritten(t, k);
    WriteNew(s.history, s.compacted, k, v);
    WriteKeepsSound(t, s', k, v, item);
    Tables(s', t.items[k := item], t.values.Append(item.latest))
  }

  lemma AbsentIsUnwritten(t: SoundTables, k: Key)
    ensures k in t.items <==> LastWrite(t.state.history, k, |t.state.history|) > 0
  {
    var w := LastWrite(t.state.history, k, |t.state.history|);
    assert w > 0 ==> Writes(t.state.history, k, w);
    assert k in t.items ==> Represents(t.state.history, t.state.compacted, k, t.items[k]);
  }

  /** Dropping the values below revision `i` + 1. */
  ghost function CompactTables(t: SoundTables, i: nat): (t': SoundTables)
    requires t.values.CanDrop(i)
    ensures t'.state == t.state.(compacted := i) && t'.items == t.items && t'.values == t.values.DropBefore(i)
  {
    CompleteCompact(t.state, t.state.(compacted := i), t.items);
    RecordedCompact(t.state, t.values, i);
    Tables(t.state.(compacted := i), t.items, t.values.DropBefore(i))
  }

  // ---------------------------------------------------------------- the prefix index

  function EntriesOf<T>(prefixes: map<Key, Entries<T>>, p: Key): Entries<T> {
    if p in prefixes then prefixes[p] else []
  }

  /** An entry under `p` stands for the key p + suffix. */
  ghost predicate EntryRight<T>(tree: map<Key, T>, p: Key, e: (Key, T)) {
    PrefixOf(p + e.0) == p && p + e.0 in tree && tree[p + e.0] == e.1
  }

  /** A key has its entry under its own prefix. */
  ghost predicate HasEntry<T>(tree: map<Key, T>, prefixes: map<Key, Entries<T>>, k: Key)
    requires k in tree
  {
    (SuffixOf(k), tree[k]) in EntriesOf(prefixes, PrefixOf(k))
  }

  /** Every key has its entry, in suffix order under its prefix, and there are no other entries. */
  ghost predicate Indexed<T>(tree: map<Key, T>, prefixes: map<Key, Entries<T>>) {
    && (forall p {:trigger Sorted(prefixes[p])} :: p in prefixes ==> Sorted(prefixes[p]))
    && (forall p, e {:trigger EntryRight(tree, p, e)} :: p in prefixes && e in prefixes[p] ==> EntryRight(tree, p, e))
    && (forall k {:trigger HasEntry(tree, prefixes, k)} :: k in tree ==> HasEntry(tree, prefixes, k))
  }

  lemma IndexedInsert<T>(tree: map<Key, T>, prefixes: map<Key, Entries<T>>, k: Key, item: T)
    requires Indexed(tree, prefixes) && k !in tree
    ensures var p := PrefixOf(k);
            Indexed(tree[k := item], prefixes[p := Insert(EntriesOf(prefixes, p), SuffixOf(k), item)])
  {
    var p, x := PrefixOf(k), SuffixOf(k);
    var before := EntriesOf(prefixes, p);
    var tree', after := tree[k := item], Insert(before, x, item);
    var prefixes' := prefixes[p := after];
    assert p in prefixes ==> Sorted(prefixes[p]);
    InsertSorted(before, x, item);
    forall q: Key, e: (Key, T) | q in prefixes' && e in prefixes'[q] ensures EntryRight(tree', q, e) {
      assert q in prefixes && e in prefixes[q] ==> EntryRight(tree, q, e);
      if q == p {
        InsertedEntry(tree, before, k, item, e);
      }
    }
    forall q | q in prefixes' ensures Sorted(prefixes'[q]) {
      assert q != p ==> Sorted(prefixes[q]);
    }
    forall j | j in tree' ensures HasEntry(tree', prefixes', j) {
      assert j in tree ==> HasEntry(tree, prefixes, j);
      if PrefixOf(j) == p {
        InsertedKey(tree, before, k, item, j);
      }
    }
  }

  lemma InsertedEntry<T>(tree: map<Key, T>, before: Entries<T>, k: Key, item: T, e: (Key, T))
    requires Sorted(before) && k !in tree && (e in before ==> EntryRight(tree, PrefixOf(k), e))
    requires e in Insert(before, SuffixOf(k), item)
    ensures EntryRight(tree[k := item], PrefixOf(k), e)
  {
    PrefixShapes(k);
    InsertContents(before, SuffixOf(k), item, e);
  }

  lemma InsertedKey<T>(tree: map<Key, T>, before: Entries<T>, k: Key, item: T, j: Key)
    requires Sorted(before) && PrefixOf(j) == PrefixOf(k)
    requires j == k || (j in tree && (SuffixOf(j), tree[j]) in before)
    ensures (SuffixOf(j), tree[k := item][j]) in Insert(before, SuffixOf(k), item)
  {
    PrefixShapes(k);
    PrefixShapes(j);
    InsertContents(before, SuffixOf(k), item, (SuffixOf(j), tree[k := item][j]));
  }

  lemma EntryIsCut(p: Key, x: Key)
    requires PrefixOf(p + x) == p
    ensures SuffixOf(p + x) == x
  {
    assert |p| == PrefixLength(p + x);
  }
}
