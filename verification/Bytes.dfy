/** Byte strings and their lexicographic order, the order of the store's keys. */
module Bytes {

  type byte = b: int | 0 <= b < 256

  type Key = seq<byte>

  predicate Less(a: Key, b: Key) {
    if b == [] then false
    else if a == [] then true
    else if a[0] != b[0] then a[0] < b[0]
    else Less(a[1..], b[1..])
  }

  predicate AtMost(a: Key, b: Key) {
    a == b || Less(a, b)
  }

  /** Strictly ascending, hence free of repetitions. */
  ghost predicate Ascending(keys: seq<Key>) {
    forall i, j :: 0 <= i < j < |keys| ==> Less(keys[i], keys[j])
  }

  lemma {:induction false} LessTotal(a: Key, b: Key)
    ensures a == b ==> !Less(a, b)
    ensures a != b ==> (Less(a, b) <==> !Less(b, a))
  {
    if a != [] && b != [] && a[0] == b[0] {
      LessTotal(a[1..], b[1..]);
      assert a == [a[0]] + a[1..] && b == [b[0]] + b[1..];
    }
  }

  lemma {:induction false} LessTransitive(a: Key, b: Key, c: Key)
    requires Less(a, b) && Less(b, c)
    ensures Less(a, c)
  {
    if a != [] && a[0] == b[0] == c[0] {
      LessTransitive(a[1..], b[1..], c[1..]);
    }
  }

  lemma LessAtMost(a: Key, b: Key, c: Key)
    requires (Less(a, b) && AtMost(b, c)) || (AtMost(a, b) && Less(b, c))
    ensures Less(a, c)
  {
    if Less(a, b) && Less(b, c) {
      LessTransitive(a, b, c);
    }
  }

  /** A common prefix does not matter for the order. */
  lemma {:induction false} LessCancel(p: Key, a: Key, b: Key)
    ensures Less(p + a, p + b) == Less(a, b)
  {
    if p == [] {
      assert p + a == a && p + b == b;
    } else {
      assert (p + a)[1..] == p[1..] + a && (p + b)[1..] == p[1..] + b;
      LessCancel(p[1..], a, b);
    }
  }

  lemma AtMostCancel(p: Key, a: Key, b: Key)
    ensures AtMost(p + a, p + b) == AtMost(a, b)
  {
    LessCancel(p, a, b);
    if p + a == p + b {
      assert a == (p + a)[|p|..] == (p + b)[|p|..] == b;
    }
  }

  lemma AtMostExtension(a: Key, b: Key)
    ensures AtMost(a, a + b)
    ensures b != [] ==> Less(a, a + b)
  {
    assert a + [] == a;
    LessCancel(a, [], b);
  }

  /** Everything between two extensions of `p` extends `p`. */
  lemma {:induction false} Sandwich(p: Key, a: Key, k: Key, b: Key)
    requires AtMost(p + a, k) && Less(k, p + b)
    ensures p <= k
  {
    if p != [] {
      assert (p + a)[1..] == p[1..] + a && (p + b)[1..] == p[1..] + b;
      assert (p + a)[0] == p[0] == (p + b)[0];
      Sandwich(p[1..], a, k[1..], b);
      assert p == [p[0]] + p[1..];
    }
  }

  /** The first differing byte decides the order. */
  lemma LessAt(p: Key, a: Key, b: Key)
    requires a != [] && b != [] && a[0] < b[0]
    ensures Less(p + a, p + b)
  {
    LessCancel(p, a, b);
  }
}
