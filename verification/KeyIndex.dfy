/**
  The per-prefix key index: how a key is cut into prefix and suffix, and which suffix window of which prefix
  a key range is turned into. The reference meaning of a range is the flat lexicographic interval over whole keys.
 */
module KeyIndex {
  import opened Wrappers
  import opened Bytes

  const SLASH: byte := 47
  const DOT: byte := 46
  const ZERO: byte := 48

  /** The bytes of "/registry/". */
  const REGISTRY: Key := [47, 114, 101, 103, 105, 115, 116, 114, 121, 47]

  datatype Bound = Included(key: Key) | Excluded(key: Key) | Unbounded

  datatype Window = Window(prefix: Key, lo: Bound, hi: Bound)

  // ---------------------------------------------------------------- cutting a key

  /** The position of the first slash at or after `from`, or the length of the key. */
  function SlashFrom(key: Key, from: nat): (j: nat)
    requires from <= |key|
    ensures from <= j <= |key| && forall i :: from <= i < j ==> key[i] != SLASH
    ensures j < |key| ==> key[j] == SLASH
    decreases |key| - from
  {
    if from == |key| || key[from] == SLASH then from else SlashFrom(key, from + 1)
  }

  /** Where the segments start when the key is split at slashes into at most `n` segments. */
  function SegmentStarts(key: Key, from: nat, n: nat): (starts: seq<nat>)
    requires from <= |key| && n > 0
    ensures 0 < |starts| <= n
    ensures forall i :: 0 <= i < |starts| ==> from <= starts[i] <= |key|
    decreases n
  {
    var j := SlashFrom(key, from);
    if n == 1 || j == |key| then [from] else [from] + SegmentStarts(key, j + 1, n - 1)
  }

  /** The length of the prefix, as computed from the segments of the split. */
  function SplitLength(key: Key): (n: nat)
    ensures n <= |key|
  {
    if !(REGISTRY <= key) then 0
    else
      var starts := SegmentStarts(key, 0, 5);
      RegistrySegments(key);
      var dotted := DOT in key[starts[2]..SlashFrom(key, starts[2])];
      var wanted := if dotted then 4 else 3;
      starts[if |starts| - 1 < wanted then |starts| - 1 else wanted]
  }

  /** What follows "/registry/" goes up to one segment into the prefix, or two when the first is dotted. */
  function RestLength(rest: Key): (n: nat)
    ensures n <= |rest|
  {
    var j := SlashFrom(rest, 0);
    if j == |rest| then 0
    else if DOT !in rest[..j] || SlashFrom(rest, j + 1) == |rest| then j + 1
    else SlashFrom(rest, j + 1) + 1
  }

  function PrefixLength(key: Key): (n: nat)
    ensures n <= |key|
  {
    if REGISTRY <= key then |REGISTRY| + RestLength(key[|REGISTRY|..]) else 0
  }

  function PrefixOf(key: Key): Key { key[..PrefixLength(key)] }

  function SuffixOf(key: Key): Key { key[PrefixLength(key)..] }

  lemma SlashIsAt(key: Key, from: nat, j: nat)
    requires from <= j <= |key| && SLASH !in key[from..j]
    requires j < |key| ==> key[j] == SLASH
    ensures SlashFrom(key, from) == j
  {
    assert forall i :: from <= i < j ==> key[i] == key[from..j][i - from];
  }

  /** The first two segments of a registry key are "" and "registry". */
  lemma RegistrySegments(key: Key)
    requires REGISTRY <= key
    ensures SegmentStarts(key, 0, 5) == [0, 1] + SegmentStarts(key, 10, 3)
    ensures |SegmentStarts(key, 0, 5)| >= 3 && SegmentStarts(key, 0, 5)[2] == 10
  {
    assert forall i :: 0 <= i < 10 ==> key[i] == REGISTRY[i];
    SlashIsAt(key, 0, 0);
    SlashIsAt(key, 1, 9);
    assert SegmentStarts(key, 1, 4) == [1] + SegmentStarts(key, 10, 3);
    assert SegmentStarts(key, 0, 5) == [0] + SegmentStarts(key, 1, 4);
  }

  lemma ThreeSegments(key: Key, from: nat)
    requires from <= |key|
    ensures var j := SlashFrom(key, from);
            SegmentStarts(key, from, 3) ==
              if j == |key| then [from]
              else if SlashFrom(key, j + 1) == |key| then [from, j + 1]
              else [from, j + 1, SlashFrom(key, j + 1) + 1]
  {
    var j := SlashFrom(key, from);
    if j < |key| {
      assert SegmentStarts(key, from, 3) == [from] + SegmentStarts(key, j + 1, 2);
      var k := SlashFrom(key, j + 1);
      if k < |key| {
        assert SegmentStarts(key, j + 1, 2) == [j + 1] + SegmentStarts(key, k + 1, 1);
      }
    }
  }

  lemma SlashShift(p: Key, rest: Key, from: nat)
    requires from <= |rest|
    ensures SlashFrom(p + rest, |p| + from) == |p| + SlashFrom(rest, from)
  {
    var j := SlashFrom(rest, from);
    assert forall i :: from <= i < |rest| ==> (p + rest)[|p| + i] == rest[i];
    assert (p + rest)[|p| + from..|p| + j] == rest[from..j];
    SlashIsAt(p + rest, |p| + from, |p| + j);
  }

  lemma SplitLengthClosed(key: Key)
    requires REGISTRY <= key
    ensures var j := SlashFrom(key, 10);
            SplitLength(key) ==
              if j == |key| then 10
              else if DOT !in key[10..j] || SlashFrom(key, j + 1) == |key| then j + 1
              else SlashFrom(key, j + 1) + 1
  {
    RegistrySegments(key);
    ThreeSegments(key, 10);
  }

  /** Splitting into segments and counting on from "/registry/" cut a key at the same place. */
  lemma SplitIsPrefix(key: Key)
    ensures SplitLength(key) == PrefixLength(key)
  {
    if REGISTRY <= key {
      SplitLengthClosed(key);
      RestLengthClosed(key, key[10..]);
    }
  }

  lemma RestLengthClosed(key: Key, rest: Key)
    requires REGISTRY <= key && rest == key[10..]
    ensures var j := SlashFrom(key, 10);
            10 + RestLength(rest) ==
              if j == |key| then 10
              else if DOT !in key[10..j] || SlashFrom(key, j + 1) == |key| then j + 1
              else SlashFrom(key, j + 1) + 1
  {
    var r := key[..10];
    assert key == r + rest;
    SlashShift(r, rest, 0);
    var j := SlashFrom(rest, 0);
    assert key[10..10 + j] == rest[..j];
    if j < |rest| {
      SlashShift(r, rest, j + 1);
    }
  }

  // ---------------------------------------------------------------- the shapes of prefixes

  predicate WholeRest(q: Key) {
    var j := SlashFrom(q, 0);
    j < |q| && if DOT !in q[..j] then j == |q| - 1 else SlashFrom(q, j + 1) == |q| - 1
  }

  predicate PartialRest(q: Key) {
    q == [] || (SlashFrom(q, 0) == |q| - 1 && DOT in q[..|q| - 1])
  }

  /**
    A prefix that holds a whole resource: "/registry/S/" with no dot in S, or "/registry/S/T/" with a dot in S
    (S and T without slashes).
   */
  predicate WholeResource(p: Key) { REGISTRY <= p && WholeRest(p[|REGISTRY|..]) }

  /** "/registry/" itself, or "/registry/S/" with a dot in S: prefixes whose extensions spread over other prefixes. */
  predicate Partial(p: Key) { REGISTRY <= p && PartialRest(p[|REGISTRY|..]) }

  lemma WholeResourceShapes(s: Key, t: Key)
    requires SLASH !in s && SLASH !in t
    ensures DOT !in s ==> WholeResource(REGISTRY + (s + [SLASH]))
    ensures DOT in s ==> WholeResource(REGISTRY + (s + [SLASH] + t + [SLASH]))
    ensures DOT in s ==> Partial(REGISTRY + (s + [SLASH]))
  {
    var p := s + [SLASH];
    assert p[0..|s|] == p[..|s|] == s;
    SlashIsAt(p, 0, |s|);
    var q := s + [SLASH] + t + [SLASH];
    assert q[0..|s|] == q[..|s|] == s && q[|s| + 1..|s| + 1 + |t|] == t;
    SlashIsAt(q, 0, |s|);
    SlashIsAt(q, |s| + 1, |s| + 1 + |t|);
    assert (REGISTRY + p)[|REGISTRY|..] == p && (REGISTRY + q)[|REGISTRY|..] == q;
  }

  lemma NoSlashBefore(key: Key, from: nat)
    requires from <= |key|
    ensures SLASH !in key[from..SlashFrom(key, from)]
  {
    var j := SlashFrom(key, from);
    assert forall i :: 0 <= i < j - from ==> key[from..j][i] == key[from + i];
  }

  /** Conversely, every prefix that holds a whole resource has one of these shapes. */
  lemma WholeResourceHasShape(p: Key) returns (s: Key, t: Key)
    requires WholeResource(p)
    ensures SLASH !in s && SLASH !in t
    ensures p == REGISTRY + if DOT in s then s + [SLASH] + t + [SLASH] else s + [SLASH]
  {
    var q := p[|REGISTRY|..];
    var j := SlashFrom(q, 0);
    s, t := q[..j], [];
    assert q[0..j] == s && p == REGISTRY + q;
    NoSlashBefore(q, 0);
    if DOT in s {
      t := q[j + 1..|q| - 1];
      NoSlashBefore(q, j + 1);
      assert q == s + [SLASH] + t + [SLASH];
    } else {
      assert q == s + [SLASH];
    }
  }

  /** A slash found inside a prefix of the key is found at the same place in the key. */
  lemma SlashInExtension(p: Key, k: Key, from: nat)
    requires p <= k && from <= |p| && SlashFrom(p, from) < |p|
    ensures SlashFrom(k, from) == SlashFrom(p, from)
  {
    var j := SlashFrom(p, from);
    assert k[from..j] == p[from..j];
    SlashIsAt(k, from, j);
  }

  lemma WholeRestIsCut(q: Key, r: Key)
    requires WholeRest(q) && q <= r
    ensures RestLength(r) == |q|
  {
    var j := SlashFrom(q, 0);
    SlashInExtension(q, r, 0);
    assert r[..j] == q[..j];
    if DOT in q[..j] {
      SlashInExtension(q, r, j + 1);
    }
  }

  lemma RestShapes(r: Key)
    ensures var q := r[..RestLength(r)];
            WholeRest(q) || (PartialRest(q) && SLASH !in r[RestLength(r)..])
  {
    var j := SlashFrom(r, 0);
    if j < |r| {
      var q := r[..RestLength(r)];
      assert q[0..j] == q[..j] == r[..j];
      SlashIsAt(q, 0, j);
      if DOT in r[..j] && SlashFrom(r, j + 1) < |r| {
        var e := SlashFrom(r, j + 1);
        assert q[j + 1..e] == r[j + 1..e];
        SlashIsAt(q, j + 1, e);
      }
    }
  }

  lemma PartialRestIsCut(q: Key, r: Key)
    requires PartialRest(q) && q <= r
    ensures RestLength(r) == |q| <==> SLASH !in r[|q|..]
  {
    if q != [] {
      SlashInExtension(q, r, 0);
      assert r[..|q| - 1] == q[..|q| - 1];
    }
    var e := SlashFrom(r, |q|);
    assert forall i :: |q| <= i < |r| ==> r[i] == r[|q|..][i - |q|];
  }

  lemma WholeResourceIsCut(p: Key, k: Key)
    requires WholeResource(p) && p <= k
    ensures PrefixOf(k) == p
  {
    assert p[|REGISTRY|..] <= k[|REGISTRY|..];
    WholeRestIsCut(p[|REGISTRY|..], k[|REGISTRY|..]);
  }

  /** After a partial prefix, a key is cut there exactly when no slash follows. */
  lemma PartialIsCut(p: Key, k: Key)
    requires Partial(p) && p <= k
    ensures PrefixOf(k) == p <==> SLASH !in k[|p|..]
  {
    var q, r := p[|REGISTRY|..], k[|REGISTRY|..];
    assert q <= r && r[|q|..] == k[|p|..];
    PartialRestIsCut(q, r);
  }

  /** Every key's prefix has one of four shapes, and the suffix after a partial one has no slash. */
  lemma PrefixShapes(k: Key)
    ensures k == PrefixOf(k) + SuffixOf(k)
    ensures REGISTRY <= k ==>
              WholeResource(PrefixOf(k)) || (Partial(PrefixOf(k)) && SLASH !in SuffixOf(k))
    ensures !(REGISTRY <= k) ==> PrefixOf(k) == []
    ensures WholeResource(PrefixOf(k)) || Partial(PrefixOf(k)) ==> REGISTRY <= k && REGISTRY <= PrefixOf(k)
  {
    if REGISTRY <= k {
      var r := k[|REGISTRY|..];
      RestShapes(r);
      var p := PrefixOf(k);
      assert p[|REGISTRY|..] == r[..RestLength(r)] && SuffixOf(k) == r[RestLength(r)..];
      assert k[..|REGISTRY|] == p[..|REGISTRY|];
    }
  }

  // ---------------------------------------------------------------- turning a range into a window

  function WindowOf(start: Key, end: Key): (r: Result<Window, ()>) {
    var p := PrefixOf(start);
    if end == [] then Ok(Window(p, Included(SuffixOf(start)), Included(SuffixOf(start))))
    else if p != PrefixOf(end) then
      var e := SuffixOf(end);
      if e != [] && e[|e| - 1] == ZERO && p == PrefixOf(end) + e[..|e| - 1] + [SLASH]
      then Ok(Window(p, Included(SuffixOf(start)), Unbounded))
      else Err(())
    else Ok(Window(p, Included(SuffixOf(start)), Excluded(SuffixOf(end))))
  }

  /** A window that ends before it begins; the ordered map refuses to look into it. */
  predicate Reversed(w: Window) { w.lo.Included? && w.hi.Excluded? && Less(w.hi.key, w.lo.key) }

  predicate InWindow(suffix: Key, lo: Bound, hi: Bound) {
    && (match lo case Included(k) => AtMost(k, suffix) case Excluded(k) => Less(k, suffix) case Unbounded => true)
    && (match hi case Included(k) => AtMost(suffix, k) case Excluded(k) => Less(suffix, k) case Unbounded => true)
  }

  /** The index scan for [start, end) reaches this key, if it is stored. */
  predicate Visited(start: Key, end: Key, k: Key)
    requires WindowOf(start, end).Ok?
  {
    var w := WindowOf(start, end).value;
    PrefixOf(k) == w.prefix && InWindow(SuffixOf(k), w.lo, w.hi)
  }

  /** The flat meaning of a range: a single key when `end` is empty, [start, end) otherwise. */
  predicate InRange(start: Key, end: Key, k: Key) {
    if end == [] then k == start else AtMost(start, k) && Less(k, end)
  }

  ghost predicate Zeros(s: Key) { forall i :: 0 <= i < |s| ==> s[i] == 0 }

  /**
    The ranges for which looking into one prefix is enough. Apart from single keys and whole resources these are:
    ranges outside the registry that do not straddle "/registry/", and ranges that hold nothing but `start` padded
    with zero bytes.
   */
  ghost predicate Covers(start: Key, end: Key) {
    var p := PrefixOf(start);
    || end == []
    || WholeResource(p)
    || (p == [] && !(Less(start, REGISTRY) && Less(REGISTRY, end)))
    || (start <= end && Zeros(end[|start|..]))
    || !Less(start, end)
  }

  /** In the `.../` to `...0` form, `end` is the start prefix with its final slash replaced by '0'. */
  lemma ZeroEnd(start: Key, end: Key)
    requires end != [] && PrefixOf(start) != PrefixOf(end) && WindowOf(start, end).Ok?
    ensures var p := PrefixOf(start);
            && p != [] && p[|p| - 1] == SLASH && end == p[..|p| - 1] + [ZERO]
            && (WholeResource(p) || Partial(p))
  {
    PrefixShapes(start);
    PrefixShapes(end);
    ReplaceLast(PrefixOf(start), PrefixOf(end), SuffixOf(end));
  }

  lemma ReplaceLast(p: Key, a: Key, e: Key)
    requires e != [] && e[|e| - 1] == ZERO && p == a + e[..|e| - 1] + [SLASH]
    ensures p[|p| - 1] == SLASH && a + e == p[..|p| - 1] + [ZERO]
  {
    assert p[..|p| - 1] == a + e[..|e| - 1];
    assert e == e[..|e| - 1] + [ZERO];
  }

  /**
    Exactly which ranges are accepted: single keys, two ends with the same prefix, and from a prefix to the same with
    its final slash replaced by '0'.
   */
  lemma AcceptedIff(start: Key, end: Key)
    ensures WindowOf(start, end).Ok? <==>
              var p := PrefixOf(start);
              end == [] || PrefixOf(end) == p || (p != [] && p[|p| - 1] == SLASH && end == p[..|p| - 1] + [ZERO])
  {
    var p := PrefixOf(start);
    if end != [] && PrefixOf(end) != p {
      if p != [] && p[|p| - 1] == SLASH && end == p[..|p| - 1] + [ZERO] {
        ZeroEndAccepted(start, end);
      } else if WindowOf(start, end).Ok? {
        ZeroEnd(start, end);
      }
    }
  }

  lemma ZeroEndAccepted(start: Key, end: Key)
    requires var p := PrefixOf(start); p != [] && p[|p| - 1] == SLASH && end == p[..|p| - 1] + [ZERO]
    ensures WindowOf(start, end).Ok?
  {
    PrefixShapes(end);
    PrefixEndsInSlash(end);
    ZeroIsAccepted(PrefixOf(start), PrefixOf(end), SuffixOf(end), end);
  }

  lemma ZeroIsAccepted(p: Key, a: Key, e: Key, end: Key)
    requires p != [] && p[|p| - 1] == SLASH && end == p[..|p| - 1] + [ZERO] == a + e
    requires a != [] ==> a[|a| - 1] == SLASH
    ensures e != [] && e[|e| - 1] == ZERO && p == a + e[..|e| - 1] + [SLASH]
  {
    assert end[|end| - 1] == ZERO;
    assert end[..|end| - 1] == p[..|p| - 1] == a + e[..|e| - 1];
    assert p == p[..|p| - 1] + [SLASH];
  }

  lemma PrefixEndsInSlash(k: Key)
    ensures PrefixOf(k) != [] ==> PrefixOf(k)[|PrefixOf(k)| - 1] == SLASH
  {
    PrefixShapes(k);
  }

  /** A reversed range is one whose end comes before its start, within one prefix. */
  lemma ReversedIff(start: Key, end: Key)
    requires WindowOf(start, end).Ok?
    ensures Reversed(WindowOf(start, end).value) <==> end != [] && PrefixOf(end) == PrefixOf(start) && Less(end, start)
  {
    if PrefixOf(end) == PrefixOf(start) {
      SuffixOrderIsKeyOrder(end, start);
    }
  }

  lemma BelowZeroEnd(q: Key, s: Key)
    ensures Less(q + [SLASH] + s, q + [ZERO])
  {
    assert q + [SLASH] + s == q + ([SLASH] + s);
    LessAt(q, [SLASH] + s, [ZERO]);
  }

  lemma {:induction false} BetweenSlashAndZero(q: Key, s: Key, k: Key)
    requires AtMost(q + [SLASH] + s, k) && Less(k, q + [ZERO])
    ensures q + [SLASH] <= k
  {
    assert q + [SLASH] + s == q + ([SLASH] + s);
    Sandwich(q, [SLASH] + s, k, [ZERO]);
    var r := k[|q|..];
    assert k == q + r;
    AtMostCancel(q, [SLASH] + s, r);
    LessCancel(q, r, [ZERO]);
    assert !Less([SLASH] + s, []);
    assert r != [] && r[0] == SLASH;
    assert k[..|q| + 1] == q + [SLASH];
  }

  /** Soundness, with no condition on the range: every visited key lies in the flat interval. */
  lemma VisitedIsInRange(start: Key, end: Key, k: Key)
    requires WindowOf(start, end).Ok? && Visited(start, end, k)
    ensures InRange(start, end, k)
    ensures k == WindowOf(start, end).value.prefix + SuffixOf(k)
  {
    PrefixShapes(start);
    PrefixShapes(k);
    var p := PrefixOf(start);
    AtMostCancel(p, SuffixOf(start), SuffixOf(k));
    if end == [] {
      LessTotal(SuffixOf(start), SuffixOf(k));
    } else if p == PrefixOf(end) {
      PrefixShapes(end);
      LessCancel(p, SuffixOf(k), SuffixOf(end));
    } else {
      ZeroEnd(start, end);
      var q := p[..|p| - 1];
      assert p == q + [SLASH];
      BelowZeroEnd(q, SuffixOf(k));
    }
  }

  /** Completeness for the ranges that `Covers` admits. */
  lemma CoveredIsVisited(start: Key, end: Key, k: Key)
    requires WindowOf(start, end).Ok? && Covers(start, end) && InRange(start, end, k)
    ensures Visited(start, end, k)
  {
    PrefixShapes(start);
    PrefixShapes(end);
    PrefixShapes(k);
    var p := PrefixOf(start);
    if end == [] {
    } else {
      LessAtMost(start, k, end);
      CoveredSharesPrefix(start, end, k);
      AtMostCancel(p, SuffixOf(start), SuffixOf(k));
      if p == PrefixOf(end) {
        LessCancel(p, SuffixOf(k), SuffixOf(end));
      }
    }
  }

  lemma CoveredSharesPrefix(start: Key, end: Key, k: Key)
    requires WindowOf(start, end).Ok? && Covers(start, end) && end != []
    requires AtMost(start, k) && Less(k, end) && Less(start, end)
    ensures PrefixOf(k) == PrefixOf(start)
  {
    var p := PrefixOf(start);
    if WholeResource(p) {
      ExtendsPrefix(start, end, k);
      WholeResourceIsCut(p, k);
    } else if start <= end && Zeros(end[|start|..]) {
      BelowPadding(start, end, k);
    } else {
      assert PrefixOf(end) == [] by {
        if p != PrefixOf(end) {
          ZeroEnd(start, end);
        }
      }
      OutsideSharesPrefix(start, end, k);
    }
  }

  lemma BelowPadding(start: Key, end: Key, k: Key)
    requires start <= end && Zeros(end[|start|..]) && !WholeResource(PrefixOf(start))
    requires AtMost(start, k) && Less(k, end)
    ensures PrefixOf(k) == PrefixOf(start)
  {
    assert end == start + end[|start|..];
    BelowZeros(start, end[|start|..], k);
    PaddingSharesPrefix(start, k);
  }

  lemma PaddingSharesPrefix(start: Key, k: Key)
    requires start <= k && Zeros(k[|start|..]) && !WholeResource(PrefixOf(start))
    ensures PrefixOf(k) == PrefixOf(start)
  {
    PrefixShapes(start);
    if REGISTRY <= start {
      PaddedPartial(start, PrefixOf(start), SuffixOf(start), k);
    } else {
      PrefixShapes(k);
      ZerosKeepRegistry(start, k);
    }
  }

  lemma PaddedPartial(start: Key, p: Key, s: Key, k: Key)
    requires start == p + s && Partial(p) && SLASH !in s && start <= k && Zeros(k[|start|..])
    ensures PrefixOf(k) == p
  {
    assert k[|p|..] == s + k[|start|..];
    PartialIsCut(p, k);
  }

  lemma OutsideSharesPrefix(start: Key, end: Key, k: Key)
    requires PrefixOf(start) == [] == PrefixOf(end)
    requires !(Less(start, REGISTRY) && Less(REGISTRY, end))
    requires AtMost(start, k) && Less(k, end)
    ensures PrefixOf(k) == []
  {
    PrefixShapes(start);
    PrefixShapes(end);
    PrefixShapes(k);
    StraddlesRegistry(start, end, k);
  }

  lemma ExtendsPrefix(start: Key, end: Key, k: Key)
    requires WindowOf(start, end).Ok? && end != []
    requires AtMost(start, k) && Less(k, end)
    ensures PrefixOf(start) <= k
  {
    PrefixShapes(start);
    PrefixShapes(end);
    var p := PrefixOf(start);
    if p == PrefixOf(end) {
      Sandwich(p, SuffixOf(start), k, SuffixOf(end));
    } else {
      ZeroEnd(start, end);
      var q := p[..|p| - 1];
      assert p == q + [SLASH];
      BetweenSlashAndZero(q, SuffixOf(start), k);
    }
  }

  /** Nothing lies between a key and its zero-padding but shorter zero-paddings. */
  lemma {:induction false} BelowZeros(a: Key, z: Key, k: Key)
    requires Zeros(z) && AtMost(a, k) && Less(k, a + z)
    ensures a <= k && Zeros(k[|a|..])
  {
    assert a + [] == a;
    Sandwich(a, [], k, z);
    var r := k[|a|..];
    assert k == a + r;
    LessCancel(a, r, z);
    BelowZerosOnly(r, z);
  }

  lemma {:induction false} BelowZerosOnly(r: Key, z: Key)
    requires Zeros(z) && Less(r, z)
    ensures Zeros(r)
  {
    if r != [] {
      assert r[0] == 0;
      BelowZerosOnly(r[1..], z[1..]);
      assert forall i :: 0 < i < |r| ==> r[i] == r[1..][i - 1];
    }
  }

  lemma ZerosKeepRegistry(start: Key, k: Key)
    requires start <= k && Zeros(k[|start|..])
    ensures REGISTRY <= k ==> REGISTRY <= start
  {
    assert forall i :: |start| <= i < |k| ==> k[i] == k[|start|..][i - |start|];
    assert REGISTRY <= k ==> k[9] == REGISTRY[9];
    assert REGISTRY <= k && |start| >= 10 ==> start[..10] == k[..10];
  }

  /** A range that starts outside the registry and reaches into it contains "/registry/". */
  lemma StraddlesRegistry(start: Key, end: Key, k: Key)
    requires !(REGISTRY <= start) && AtMost(start, k) && Less(k, end)
    ensures REGISTRY <= k ==> Less(start, REGISTRY) && Less(REGISTRY, end)
  {
    if !(REGISTRY <= k) {
      return;
    }
    var s := k[|REGISTRY|..];
    assert k == REGISTRY + s;
    AtMostExtension(REGISTRY, s);
    LessAtMost(REGISTRY, k, end);
    LessTotal(start, REGISTRY);
    if Less(REGISTRY, start) {
      assert REGISTRY + [] == REGISTRY;
      LessTotal(start, k);
      if start != k {
        Sandwich(REGISTRY, [], start, s);
      }
    }
  }

  // ---------------------------------------------------------------- the exact condition

  /** A key of the range that the index scan misses, for every accepted range that `Covers` rejects. */
  lemma MissedKey(start: Key, end: Key) returns (k: Key)
    requires WindowOf(start, end).Ok? && !Covers(start, end)
    ensures InRange(start, end, k) && !Visited(start, end, k)
  {
    if PrefixOf(start) == [] {
      k := REGISTRY;
      RegistryIsCut();
    } else {
      PrefixShapes(start);
      var tail := BelowWithSlash(start, end);
      k := start + tail;
      AtMostExtension(start, tail);
      SlashLeavesPrefix(start, tail);
    }
  }

  lemma SlashLeavesPrefix(start: Key, tail: Key)
    requires Partial(PrefixOf(start)) && SLASH in tail
    ensures PrefixOf(start + tail) != PrefixOf(start)
  {
    PrefixShapes(start);
    var p := PrefixOf(start);
    assert (start + tail)[|p|..] == SuffixOf(start) + tail;
    PartialIsCut(p, start + tail);
  }

  lemma RegistryIsCut()
    ensures PrefixOf(REGISTRY) == REGISTRY
  {
    assert REGISTRY[|REGISTRY|..] == [];
    PartialIsCut(REGISTRY, REGISTRY);
  }

  /** Unless `end` is a zero-padding of `start`, something with a slash fits between the two. */
  lemma {:induction false} BelowWithSlash(start: Key, end: Key) returns (tail: Key)
    requires Less(start, end) && !(start <= end && Zeros(end[|start|..]))
    ensures SLASH in tail && Less(start + tail, end)
  {
    if start == [] {
      tail := ZerosThenSlash(end);
      assert start + tail == tail;
    } else if start[0] < end[0] {
      tail := [SLASH];
    } else {
      if start[1..] <= end[1..] {
        assert start == [start[0]] + start[1..] && end == [end[0]] + end[1..];
        assert start <= end && end[|start|..] == end[1..][|start| - 1..];
      }
      tail := BelowWithSlash(start[1..], end[1..]);
      assert (start + tail)[1..] == start[1..] + tail;
    }
  }

  lemma {:induction false} ZerosThenSlash(end: Key) returns (tail: Key)
    requires !Zeros(end)
    ensures SLASH in tail && Less(tail, end)
  {
    if end[0] > 0 {
      tail := [0, SLASH];
    } else {
      assert forall i :: 0 < i < |end| ==> end[i] == end[1..][i - 1];
      var t := ZerosThenSlash(end[1..]);
      tail := [0] + t;
      assert tail[1..] == t;
    }
  }

  /**
    The index looks into one prefix only. For every accepted range, that scan reaches all keys of the flat
    interval if and only if `Covers` holds.
   */
  lemma IndexIsExactIff(start: Key, end: Key)
    requires WindowOf(start, end).Ok?
    ensures (forall k :: InRange(start, end, k) <==> Visited(start, end, k)) <==> Covers(start, end)
  {
    if Covers(start, end) {
      forall k ensures InRange(start, end, k) <==> Visited(start, end, k) {
        if InRange(start, end, k) {
          CoveredIsVisited(start, end, k);
        } else if Visited(start, end, k) {
          VisitedIsInRange(start, end, k);
        }
      }
    } else {
      var k := MissedKey(start, end);
    }
  }

  /** Within one prefix, the order of the suffixes is the order of the whole keys. */
  lemma SuffixOrderIsKeyOrder(a: Key, b: Key)
    requires PrefixOf(a) == PrefixOf(b)
    ensures Less(SuffixOf(a), SuffixOf(b)) == Less(a, b)
  {
    PrefixShapes(a);
    PrefixShapes(b);
    LessCancel(PrefixOf(a), SuffixOf(a), SuffixOf(b));
  }
}
