/** The ordered map under a prefix, as its list of entries in ascending key order. */
module OrderedMap {
  import opened Bytes

  type Entries<T> = seq<(Key, T)>

  ghost predicate Sorted<T>(t: Entries<T>) {
    forall i, j :: 0 <= i < j < |t| ==> Less(t[i].0, t[j].0)
  }

  function Insert<T>(t: Entries<T>, k: Key, v: T): Entries<T> {
    if t == [] || Less(k, t[0].0) then [(k, v)] + t
    else if k == t[0].0 then [(k, v)] + t[1..]
    else [t[0]] + Insert(t[1..], k, v)
  }

  ghost predicate Below<T>(k: Key, t: Entries<T>) {
    forall i :: 0 <= i < |t| ==> Less(k, t[i].0)
  }

  lemma ConsSorted<T>(k: Key, v: T, t: Entries<T>)
    requires Sorted(t) && Below(k, t)
    ensures Sorted([(k, v)] + t)
    ensures forall e :: e in t ==> e.0 != k
  {
    forall i | 0 <= i < |t| ensures t[i].0 != k {
      LessTotal(k, t[i].0);
    }
  }

  lemma BelowFirst<T>(k: Key, t: Entries<T>)
    requires Sorted(t) && (t != [] ==> Less(k, t[0].0))
    ensures Below(k, t)
  {
    forall i | 0 < i < |t| ensures Less(k, t[i].0) {
      LessTransitive(k, t[0].0, t[i].0);
    }
  }

  lemma {:induction false} InsertBelow<T>(x: Key, t: Entries<T>, k: Key, v: T)
    requires Below(x, t) && Less(x, k)
    ensures Below(x, Insert(t, k, v))
  {
    if t != [] && !Less(k, t[0].0) && k != t[0].0 {
      InsertBelow(x, t[1..], k, v);
    }
  }

  lemma {:induction false} InsertSorted<T>(t: Entries<T>, k: Key, v: T)
    requires Sorted(t)
    ensures Sorted(Insert(t, k, v))
  {
    if t == [] || Less(k, t[0].0) {
      BelowFirst(k, t);
      ConsSorted(k, v, t);
    } else {
      var rest := t[1..];
      if k == t[0].0 {
        ConsSorted(k, v, rest);
      } else {
        LessTotal(k, t[0].0);
        InsertSorted(rest, k, v);
        InsertBelow(t[0].0, rest, k, v);
        ConsSorted(t[0].0, t[0].1, Insert(rest, k, v));
      }
    }
  }

  /** Insertion replaces the entry of `k` and keeps every other one. */
  lemma {:induction false} InsertContents<T>(t: Entries<T>, k: Key, v: T, e: (Key, T))
    requires Sorted(t)
    ensures e in Insert(t, k, v) <==> e == (k, v) || (e in t && e.0 != k)
  {
    if t == [] || Less(k, t[0].0) {
      BelowFirst(k, t);
      ConsSorted(k, v, t);
    } else {
      var rest := t[1..];
      assert t == [t[0]] + rest;
      if k == t[0].0 {
        ConsSorted(k, v, rest);
      } else {
        InsertContents(rest, k, v, e);
        assert e in Insert(t, k, v) <==> e == t[0] || e in Insert(rest, k, v);
      }
    }
  }
}
