/**
  The tree along which pods are relayed to the schedulers. Every member sorts the list of all members and sends to those
  at ten times its own position and beyond; all of them also pick the member that a pod's scores are sent to.
 */
module RelayTree {
  import opened Wrappers
  import opened Bytes
  import opened Integers
  import opened Pods

  // ---------------------------------------------------------------- the order of the members

  const LETTER_A: byte := 97

  /** Relay pods sort as if their names began with an a. */
  function SortKey(name: Name): Key { if IsRelay(name) then [LETTER_A] + name else name }

  function Compare(a: Key, b: Key): int { if a == b then 0 else if Less(a, b) then -1 else 1 }

  function PodNameSort(leader: Name, a: Name, b: Name): int {
    if a == leader then -1
    else if b == leader then 1
    else Compare(SortKey(a), SortKey(b))
  }

  predicate Before(leader: Name, a: Name, b: Name) { PodNameSort(leader, a, b) < 0 }

  /** The names and their sort keys are distinct. */
  ghost predicate DistinctKeys(names: seq<Name>) {
    forall i, j :: 0 <= i < j < |names| ==> SortKey(names[i]) != SortKey(names[j])
  }

  predicate Precedes(leader: Name, a: Name, b: Name) { a != b && Before(leader, a, b) }

  ghost predicate Sorted(leader: Name, names: seq<Name>) {
    forall i, j {:trigger Precedes(leader, names[i], names[j])} ::
      0 <= i < j < |names| ==> Precedes(leader, names[i], names[j])
  }

  ghost predicate SameNames(a: seq<Name>, b: seq<Name>) { forall n :: n in a <==> n in b }

  lemma BeforeAsymmetric(leader: Name, a: Name, b: Name)
    requires Precedes(leader, a, b)
    ensures PodNameSort(leader, b, a) > 0
  {
    LessTotal(SortKey(a), SortKey(b));
  }

  lemma BeforeTotal(leader: Name, a: Name, b: Name)
    requires SortKey(a) != SortKey(b) && !Before(leader, a, b)
    ensures Before(leader, b, a)
  {
    LessTotal(SortKey(a), SortKey(b));
  }

  lemma BeforeTransitive(leader: Name, a: Name, b: Name, c: Name)
    requires Precedes(leader, a, b) && Precedes(leader, b, c)
    ensures Precedes(leader, a, c)
  {
    if a == c {
      BeforeAsymmetric(leader, a, b);
    } else if a != leader && b != leader && c != leader {
      LessTransitive(SortKey(a), SortKey(b), SortKey(c));
      LessTotal(SortKey(a), SortKey(c));
    }
  }

  // ---------------------------------------------------------------- sorting

  function Insert(leader: Name, names: seq<Name>, name: Name): seq<Name> {
    if names == [] then [name]
    else if Before(leader, name, names[0]) then [name] + names
    else [names[0]] + Insert(leader, names[1..], name)
  }

  function SortMembers(leader: Name, names: seq<Name>): seq<Name> {
    if names == [] then [] else Insert(leader, SortMembers(leader, names[1..]), names[0])
  }

  lemma {:induction false} InsertNames(leader: Name, names: seq<Name>, name: Name)
    ensures |Insert(leader, names, name)| == |names| + 1
    ensures forall n :: n in Insert(leader, names, name) <==> n == name || n in names
  {
    if names != [] && !Before(leader, name, names[0]) {
      InsertNames(leader, names[1..], name);
      assert names == [names[0]] + names[1..];
    }
  }

  /** What comes before the first comes before all. */
  lemma FirstOfSorted(leader: Name, first: Name, rest: seq<Name>)
    requires Sorted(leader, rest) && forall n :: n in rest ==> Precedes(leader, first, n)
    ensures Sorted(leader, [first] + rest)
  {
    var all := [first] + rest;
    forall i, j | 0 <= i < j < |all| ensures Precedes(leader, all[i], all[j]) {
      if i == 0 {
        assert all[j] == rest[j - 1] && rest[j - 1] in rest;
      } else {
        assert Precedes(leader, rest[i - 1], rest[j - 1]);
      }
    }
  }

  lemma SortedTail(leader: Name, names: seq<Name>)
    requires Sorted(leader, names) && names != []
    ensures Sorted(leader, names[1..])
    ensures forall n :: n in names[1..] <==> n in names && n != names[0]
    ensures forall n :: n in names[1..] ==> Precedes(leader, names[0], n)
  {
    var rest := names[1..];
    assert names == [names[0]] + rest;
    forall i, j | 0 <= i < j < |rest| ensures Precedes(leader, rest[i], rest[j]) {
      assert Precedes(leader, names[i + 1], names[j + 1]);
    }
    forall n | n in rest ensures Precedes(leader, names[0], n) {
      var i :| 0 <= i < |rest| && rest[i] == n;
      assert Precedes(leader, names[0], names[i + 1]);
    }
  }

  lemma {:induction false} InsertSorted(leader: Name, names: seq<Name>, name: Name)
    requires Sorted(leader, names) && forall n :: n in names ==> SortKey(n) != SortKey(name)
    ensures Sorted(leader, Insert(leader, names, name))
  {
    if names != [] {
      var first, rest := names[0], names[1..];
      assert first in names;
      if Before(leader, name, first) {
        forall n | n in names ensures Precedes(leader, name, n) {
          var i :| 0 <= i < |names| && names[i] == n;
          if i > 0 {
            assert Precedes(leader, names[0], names[i]);
            BeforeTransitive(leader, name, first, n);
          }
        }
        FirstOfSorted(leader, name, names);
      } else {
        BeforeTotal(leader, name, first);
        SortedTail(leader, names);
        InsertSorted(leader, rest, name);
        InsertNames(leader, rest, name);
        FirstOfSorted(leader, first, Insert(leader, rest, name));
      }
    }
  }

  lemma {:induction false} SortNames(leader: Name, names: seq<Name>)
    ensures |SortMembers(leader, names)| == |names|
    ensures SameNames(SortMembers(leader, names), names)
  {
    if names != [] {
      SortNames(leader, names[1..]);
      InsertNames(leader, SortMembers(leader, names[1..]), names[0]);
      assert names == [names[0]] + names[1..];
    }
  }

  /** The list is sorted and has the same members. */
  lemma {:induction false} SortIsSorted(leader: Name, names: seq<Name>)
    requires DistinctKeys(names)
    ensures Sorted(leader, SortMembers(leader, names))
  {
    if names != [] {
      var rest := names[1..];
      SortIsSorted(leader, rest);
      SortNames(leader, rest);
      forall n | n in rest ensures SortKey(n) != SortKey(names[0]) {
        var i :| 0 <= i < |rest| && rest[i] == n;
        assert SortKey(names[0]) != SortKey(names[i + 1]);
      }
      InsertSorted(leader, SortMembers(leader, rest), names[0]);
    }
  }

  lemma FirstIsMember(names: seq<Name>)
    ensures names != [] ==> names[0] in names
  {
  }

  lemma SameFirst(leader: Name, a: seq<Name>, b: seq<Name>)
    requires Sorted(leader, a) && Sorted(leader, b) && SameNames(a, b) && a != []
    ensures b != [] && a[0] == b[0]
  {
    assert a[0] in b && b[0] in a;
    var i :| 0 <= i < |b| && b[i] == a[0];
    var j :| 0 <= j < |a| && a[j] == b[0];
    if i > 0 && j > 0 {
      assert Precedes(leader, b[0], b[i]) && Precedes(leader, a[0], a[j]);
      BeforeAsymmetric(leader, a[0], b[0]);
    }
  }

  /** There is only one way to sort a set of names. */
  lemma {:induction false} SortedUnique(leader: Name, a: seq<Name>, b: seq<Name>)
    requires Sorted(leader, a) && Sorted(leader, b) && SameNames(a, b)
    ensures a == b
    decreases |a|
  {
    if a == [] {
      FirstIsMember(b);
    } else {
      SameFirst(leader, a, b);
      SortedTail(leader, a);
      SortedTail(leader, b);
      SortedUnique(leader, a[1..], b[1..]);
      assert a == [a[0]] + a[1..] && b == [b[0]] + b[1..];
    }
  }

  /** One of the two is a relay, and its name with an a in front is the other's. */
  predicate Tied(a: Name, b: Name) {
    (IsRelay(a) && !IsRelay(b) && b == [LETTER_A] + a) || (IsRelay(b) && !IsRelay(a) && a == [LETTER_A] + b)
  }

  lemma SameKeyIff(a: Name, b: Name)
    requires a != b
    ensures SortKey(a) == SortKey(b) <==> Tied(a, b)
  {
    assert IsRelay(a) && IsRelay(b) ==> SortKey(a)[1..] == a && SortKey(b)[1..] == b;
  }

  /** Two members may end up in either order if and only if they are tied and neither is the leader. */
  lemma OrderMattersIff(leader: Name, a: Name, b: Name)
    requires a != b
    ensures SortMembers(leader, [a, b]) != SortMembers(leader, [b, a]) <==> a != leader && b != leader && Tied(a, b)
  {
    SameKeyIff(a, b);
    SortTwo(leader, a, b);
    SortTwo(leader, b, a);
    LessTotal(SortKey(a), SortKey(b));
    assert [b, a][0] == b && [a, b][0] == a;
  }

  lemma SortTwo(leader: Name, a: Name, b: Name)
    ensures SortMembers(leader, [a, b]) == if Before(leader, a, b) then [a, b] else [b, a]
  {
    assert [a, b][1..] == [b];
    assert SortMembers(leader, [b]) == Insert(leader, SortMembers(leader, []), b) == [b];
    assert Insert(leader, [b][1..], a) == [a];
  }

  /** The sorted list depends on the set of names only. */
  lemma OrderDoesNotMatter(leader: Name, a: seq<Name>, b: seq<Name>)
    requires DistinctKeys(a) && DistinctKeys(b) && SameNames(a, b)
    ensures SortMembers(leader, a) == SortMembers(leader, b) && |a| == |b|
  {
    SortIsSorted(leader, a);
    SortIsSorted(leader, b);
    SortNames(leader, a);
    SortNames(leader, b);
    SortedUnique(leader, SortMembers(leader, a), SortMembers(leader, b));
  }

  /** The leader comes first. */
  lemma LeaderIsFirst(leader: Name, names: seq<Name>)
    requires Sorted(leader, names) && leader in names
    ensures names[0] == leader
  {
    var i :| 0 <= i < |names| && names[i] == leader;
    if i > 0 {
      assert Precedes(leader, names[0], names[i]);
      BeforeAsymmetric(leader, names[0], names[i]);
    }
  }

  /** Among pods with the schedulers' name prefix, relays come before all others but the leader. */
  lemma RelaysComeFirst(leader: Name, a: Name, b: Name)
    requires IsRelay(a) && !IsRelay(b) && SCHEDULER_PREFIX <= b && b != leader
    ensures Before(leader, a, b)
  {
    assert b[0] == SCHEDULER_PREFIX[0];
    assert SortKey(a)[0] < SortKey(b)[0];
  }

  // ---------------------------------------------------------------- a member's own position

  /** Where the binary search over the members after the first ends up. */
  function SearchFrom(leader: Name, names: seq<Name>, pod: Name, lo: nat, hi: nat): nat
    requires lo <= hi < |names|
    decreases hi - lo
  {
    if lo == hi then lo
    else
      var h := (lo + hi) / 2;
      if PodNameSort(leader, names[h + 1], pod) >= 0 then SearchFrom(leader, names, pod, lo, h)
      else SearchFrom(leader, names, pod, h + 1, hi)
  }

  /** The binary search for `pod` among the members after the first. */
  method Search(leader: Name, names: seq<Name>, pod: Name) returns (at: nat)
    requires names != []
    ensures at == SearchFrom(leader, names, pod, 0, |names| - 1)
  {
    var i: nat, j: nat := 0, |names| - 1;
    while i < j
      invariant i <= j < |names|
      invariant SearchFrom(leader, names, pod, i, j) == SearchFrom(leader, names, pod, 0, |names| - 1)
      decreases j - i
    {
      var h := (i + j) / 2;
      if PodNameSort(leader, names[h + 1], pod) >= 0 {
        j := h;
      } else {
        i := h + 1;
      }
    }
    return i;
  }

  /** In a sorted list the search condition splits the members at the pod's own place. */
  lemma SearchCondition(leader: Name, names: seq<Name>, at: nat, i: nat)
    requires Sorted(leader, names) && names != [] && names[0] == leader && 0 < at < |names| && 0 < i < |names|
    ensures PodNameSort(leader, names[i], names[at]) >= 0 <==> i >= at
  {
    assert Precedes(leader, names[0], names[i]) && Precedes(leader, names[0], names[at]);
    if i > at {
      assert Precedes(leader, names[at], names[i]);
      BeforeAsymmetric(leader, names[at], names[i]);
    } else if i < at {
      assert Precedes(leader, names[i], names[at]);
    }
  }

  lemma {:induction false} SearchFinds(leader: Name, names: seq<Name>, at: nat, lo: nat, hi: nat)
    requires Sorted(leader, names) && names != [] && names[0] == leader && 0 < at < |names|
    requires lo <= at - 1 <= hi < |names|
    ensures SearchFrom(leader, names, names[at], lo, hi) == at - 1
    decreases hi - lo
  {
    if lo < hi {
      var h := (lo + hi) / 2;
      SearchCondition(leader, names, at, h + 1);
      if h + 1 >= at {
        SearchFinds(leader, names, at, lo, h);
      } else {
        SearchFinds(leader, names, at, h + 1, hi);
      }
    }
  }

  function Position(leader: Name, names: seq<Name>, pod: Name): nat
    requires names != []
  {
    if leader == pod then 0 else SearchFrom(leader, names, pod, 0, |names| - 1) + 1
  }

  method FindPosition(leader: Name, names: seq<Name>, pod: Name) returns (index: nat)
    requires names != []
    ensures index == Position(leader, names, pod)
  {
    if leader == pod {
      return 0;
    }
    var at := Search(leader, names, pod);
    return at + 1;
  }

  /** Every member finds its own position. */
  lemma OwnPosition(leader: Name, names: seq<Name>, at: nat)
    requires Sorted(leader, names) && leader in names && at < |names|
    ensures Position(leader, names, names[at]) == at
  {
    LeaderIsFirst(leader, names);
    if at > 0 {
      assert Precedes(leader, names[0], names[at]);
      SearchFinds(leader, names, at, 0, |names| - 1);
    }
  }

  // ---------------------------------------------------------------- whom a member sends to

  /** Of `n` members, the one at position `c` gets its pods from the one at position `j`. */
  predicate IsChild(n: nat, fanOut: nat, j: nat, c: nat) { 10 * j + 1 <= c < Min(10 * j + 1 + fanOut, n) }

  /** The members that the one at position `index` sends to. */
  function ChildrenOf(names: seq<Name>, index: nat, fanOut: nat): seq<Name> {
    var start := index * 10 + 1;
    if start >= |names| then [] else names[start..Min(start + fanOut, |names|)]
  }

  method Slice(names: seq<Name>, index: nat, fanOut: nat) returns (children: seq<Name>)
    ensures children == ChildrenOf(names, index, fanOut)
  {
    var start := index * 10 + 1;
    if start >= |names| {
      return [];
    }
    var end := start + fanOut;
    if end > |names| {
      end := |names|;
    }
    return names[start..end];
  }

  function SubMembers(members: seq<Name>, leader: Name, pod: Name, fanOut: nat): seq<Name> {
    if |members| <= 1 then []
    else
      var names := SortMembers(leader, members);
      SortNames(leader, members);
      ChildrenOf(names, Position(leader, names, pod), fanOut)
  }

  /** All members agree on the list, and each on its own position in it. */
  lemma SubMembersAre(members: seq<Name>, own: seq<Name>, leader: Name, fanOut: nat, j: nat)
    requires DistinctKeys(members) && DistinctKeys(own) && SameNames(members, own) && leader in members
    requires j < |SortMembers(leader, members)|
    ensures var names := SortMembers(leader, members);
            SubMembers(own, leader, names[j], fanOut) == ChildrenOf(names, j, fanOut)
  {
    OrderDoesNotMatter(leader, members, own);
    SortIsSorted(leader, members);
    SortNames(leader, members);
    OwnPosition(leader, SortMembers(leader, members), j);
  }

  /** Names occur once. */
  lemma SliceMember(leader: Name, names: seq<Name>, start: nat, end: nat, c: nat)
    requires Sorted(leader, names) && start <= end <= |names| && c < |names|
    ensures names[c] in names[start..end] <==> start <= c < end
  {
    var slice := names[start..end];
    if start <= c < end {
      assert slice[c - start] == names[c];
    }
    forall i | 0 <= i < |slice| && slice[i] == names[c] ensures start + i == c {
      assert start + i < c ==> Precedes(leader, names[start + i], names[c]);
      assert c < start + i ==> Precedes(leader, names[c], names[start + i]);
    }
  }

  lemma ChildMember(leader: Name, names: seq<Name>, fanOut: nat, j: nat, c: nat)
    requires Sorted(leader, names) && j < |names| && c < |names|
    ensures names[c] in ChildrenOf(names, j, fanOut) <==> IsChild(|names|, fanOut, j, c)
  {
    var start := j * 10 + 1;
    if start < |names| {
      SliceMember(leader, names, start, Min(start + fanOut, |names|), c);
    }
  }

  /** However a member got its list, it sends to the members at its children's positions. */
  lemma SubMembersAreChildren(members: seq<Name>, own: seq<Name>, leader: Name, fanOut: nat, j: nat, c: nat)
    requires DistinctKeys(members) && DistinctKeys(own) && SameNames(members, own) && leader in members
    requires var names := SortMembers(leader, members); j < |names| && c < |names|
    ensures var names := SortMembers(leader, members);
            names[c] in SubMembers(own, leader, names[j], fanOut) <==> IsChild(|names|, fanOut, j, c)
  {
    var names := SortMembers(leader, members);
    SubMembersAre(members, own, leader, fanOut, j);
    SortIsSorted(leader, members);
    ChildMember(leader, names, fanOut, j, c);
  }

  /** The fan-out that the positions are computed with, or so few members that it does not matter. */
  predicate FanOutFits(n: nat, fanOut: nat) { fanOut == 10 || n <= Min(fanOut, 10) + 1 }

  ghost predicate OneParent(n: nat, fanOut: nat, c: nat) {
    && (exists j: nat :: IsChild(n, fanOut, j, c))
    && forall i: nat, j: nat :: IsChild(n, fanOut, i, c) && IsChild(n, fanOut, j, c) ==> i == j
  }

  /** Every position but the first has exactly one parent. */
  ghost predicate IsTree(n: nat, fanOut: nat) {
    forall c {:trigger OneParent(n, fanOut, c)} :: 0 < c < n ==> OneParent(n, fanOut, c)
  }

  lemma ParentIs(n: nat, fanOut: nat, j: nat, c: nat)
    requires FanOutFits(n, fanOut) && 0 < c < n
    ensures IsChild(n, fanOut, j, c) <==> j == (c - 1) / 10
    ensures (c - 1) / 10 < c
  {
  }

  /** The members form a tree if and only if the fan-out fits. */
  lemma TreeIff(n: nat, fanOut: nat)
    ensures IsTree(n, fanOut) <==> FanOutFits(n, fanOut)
  {
    if FanOutFits(n, fanOut) {
      forall c | 0 < c < n ensures OneParent(n, fanOut, c) {
        ParentIs(n, fanOut, (c - 1) / 10, c);
        forall i: nat | IsChild(n, fanOut, i, c) ensures i == (c - 1) / 10 {
          ParentIs(n, fanOut, i, c);
        }
      }
    } else if fanOut < 10 {
      assert !OneParent(n, fanOut, fanOut + 1);
    } else {
      assert IsChild(n, fanOut, 0, 11) && IsChild(n, fanOut, 1, 11);
      assert !OneParent(n, fanOut, 11);
    }
  }

  lemma MemberAt(leader: Name, members: seq<Name>, pod: Name) returns (at: nat)
    requires pod in members
    ensures at < |SortMembers(leader, members)| && SortMembers(leader, members)[at] == pod
  {
    SortNames(leader, members);
    at :| 0 <= at < |SortMembers(leader, members)| && SortMembers(leader, members)[at] == pod;
  }

  /** Every member but the leader is sent to by exactly one member, whatever order each of them has its list in. */
  lemma OneSender(members: seq<Name>, leader: Name, fanOut: nat, pod: Name) returns (sender: Name)
    requires DistinctKeys(members) && leader in members && FanOutFits(|members|, fanOut)
    requires pod in members && pod != leader
    ensures sender in members
    ensures forall q, own :: q in members && DistinctKeys(own) && SameNames(members, own) ==>
                               (pod in SubMembers(own, leader, q, fanOut) <==> q == sender)
  {
    var names := SortMembers(leader, members);
    SortNames(leader, members);
    SortIsSorted(leader, members);
    LeaderIsFirst(leader, names);
    var c := MemberAt(leader, members, pod);
    sender := names[(c - 1) / 10];
    forall q, own | q in members && DistinctKeys(own) && SameNames(members, own)
      ensures pod in SubMembers(own, leader, q, fanOut) <==> q == sender
    {
      var j := MemberAt(leader, members, q);
      SubMembersAreChildren(members, own, leader, fanOut, j, c);
      ParentIs(|names|, fanOut, j, c);
      SamePosition(leader, names, j, (c - 1) / 10);
    }
  }

  lemma SamePosition(leader: Name, names: seq<Name>, i: nat, j: nat)
    requires Sorted(leader, names) && i < |names| && j < |names|
    ensures names[i] == names[j] <==> i == j
  {
    assert i < j ==> Precedes(leader, names[i], names[j]);
    assert j < i ==> Precedes(leader, names[j], names[i]);
  }

  // ---------------------------------------------------------------- who gets a pod how often

  /** How often the member at `c` gets a pod that the one at `j` has and hands on. */
  function Receives(n: nat, fanOut: nat, j: nat, c: nat): nat
    requires j < n
    decreases n - j, 0
  {
    (if j == c then 1 else 0) + FromAll(n, fanOut, 10 * j + 1, Min(10 * j + 1 + fanOut, n), c)
  }

  /** How often it gets a pod that each member from `lo` to `hi` has. */
  function FromAll(n: nat, fanOut: nat, lo: nat, hi: nat, c: nat): nat
    requires hi <= n
    decreases n - lo, 1
  {
    if lo >= hi then 0 else Receives(n, fanOut, lo, c) + FromAll(n, fanOut, lo + 1, hi, c)
  }

  /** The member at `j` is on the way from the first to the one at `c`. */
  predicate OnTheWay(j: nat, c: nat) { c == j || (c > j && OnTheWay(j, (c - 1) / 10)) }

  /** The next on the way from `j` to `c`. */
  function Toward(j: nat, c: nat): (k: nat)
    requires OnTheWay(j, c) && c != j
    ensures j < k <= c && (k - 1) / 10 == j
  {
    if (c - 1) / 10 == j then c else Toward(j, (c - 1) / 10)
  }

  lemma {:induction false} TowardIs(j: nat, c: nat, k: nat)
    requires k > 0 && (k - 1) / 10 == j
    ensures OnTheWay(k, c) <==> OnTheWay(j, c) && c != j && Toward(j, c) == k
    decreases c
  {
    if c > k && (c - 1) / 10 != j {
      TowardIs(j, (c - 1) / 10, k);
    }
  }

  lemma {:induction false} ReceivesOnce(n: nat, fanOut: nat, j: nat, c: nat)
    requires FanOutFits(n, fanOut) && j < n && c < n
    ensures Receives(n, fanOut, j, c) == if OnTheWay(j, c) then 1 else 0
    decreases n - j, 0
  {
    FromAllOnce(n, fanOut, j, 10 * j + 1, c);
  }

  lemma {:induction false} FromAllOnce(n: nat, fanOut: nat, j: nat, lo: nat, c: nat)
    requires FanOutFits(n, fanOut) && j < n && c < n && 10 * j + 1 <= lo
    ensures FromAll(n, fanOut, lo, Min(10 * j + 1 + fanOut, n), c)
         == if OnTheWay(j, c) && c != j && lo <= Toward(j, c) then 1 else 0
    decreases n - lo, 1
  {
    if lo < Min(10 * j + 1 + fanOut, n) {
      ParentIs(n, fanOut, j, lo);
      ReceivesOnce(n, fanOut, lo, c);
      TowardIs(j, c, lo);
      FromAllOnce(n, fanOut, j, lo + 1, c);
    } else if OnTheWay(j, c) && c != j {
      ParentIs(n, fanOut, j, Toward(j, c));
    }
  }

  lemma {:induction false} FirstOnTheWay(c: nat)
    ensures OnTheWay(0, c)
  {
    if c > 0 {
      FirstOnTheWay((c - 1) / 10);
    }
  }

  /** A position that nobody sends to is reached from itself only. */
  lemma {:induction false} NeverReceives(n: nat, fanOut: nat, j: nat, c: nat)
    requires j < n && j != c && forall i: nat {:trigger IsChild(n, fanOut, i, c)} :: !IsChild(n, fanOut, i, c)
    ensures Receives(n, fanOut, j, c) == 0
    decreases n - j, 0
  {
    NeverFromAny(n, fanOut, j, 10 * j + 1, c);
  }

  lemma {:induction false} NeverFromAny(n: nat, fanOut: nat, j: nat, lo: nat, c: nat)
    requires j < n && 10 * j + 1 <= lo
    requires forall i: nat {:trigger IsChild(n, fanOut, i, c)} :: !IsChild(n, fanOut, i, c)
    ensures FromAll(n, fanOut, lo, Min(10 * j + 1 + fanOut, n), c) == 0
    decreases n - lo, 1
  {
    if lo < Min(10 * j + 1 + fanOut, n) {
      assert !IsChild(n, fanOut, j, c);
      NeverReceives(n, fanOut, lo, c);
      NeverFromAny(n, fanOut, j, lo + 1, c);
    }
  }

  lemma {:induction false} FromAllAtLeast(n: nat, fanOut: nat, lo: nat, hi: nat, k: nat, c: nat)
    requires lo <= k < hi <= n
    ensures FromAll(n, fanOut, lo, hi, c) >= Receives(n, fanOut, k, c)
    decreases hi - lo
  {
    if lo < k {
      FromAllAtLeast(n, fanOut, lo + 1, hi, k, c);
    }
  }

  /** With too large a fan-out the position eleven is reached both directly and by way of the position one. */
  lemma ReceivesTwice(n: nat, fanOut: nat)
    requires fanOut > 10 && n > 11
    ensures Receives(n, fanOut, 0, 11) >= 2
  {
    var hi := Min(10 * 0 + 1 + fanOut, n);
    FromAllAtLeast(n, fanOut, 2, hi, 11, 11);
    FromAllAtLeast(n, fanOut, 11, Min(10 * 1 + 1 + fanOut, n), 11, 11);
    assert FromAll(n, fanOut, 1, hi, 11) == Receives(n, fanOut, 1, 11) + FromAll(n, fanOut, 2, hi, 11);
  }

  /** What the leader sends reaches every member exactly once if and only if the fan-out fits. */
  lemma DeliveredOnceIff(n: nat, fanOut: nat)
    requires n > 0
    ensures (forall c: nat :: c < n ==> Receives(n, fanOut, 0, c) == 1) <==> FanOutFits(n, fanOut)
  {
    if FanOutFits(n, fanOut) {
      forall c: nat | c < n ensures Receives(n, fanOut, 0, c) == 1 {
        ReceivesOnce(n, fanOut, 0, c);
        FirstOnTheWay(c);
      }
    } else if fanOut < 10 {
      NeverReceives(n, fanOut, 0, fanOut + 1);
    } else {
      ReceivesTwice(n, fanOut);
    }
  }

  // ---------------------------------------------------------------- where scores are sent to

  /** The members, or the pod itself when it may work alone. */
  function GetMembers(known: seq<Name>, pod: Name, allowSolo: bool): seq<Name> {
    if known == [] && allowSolo then [pod] else known
  }

  /** The member that the scores for a pod with the given hash are sent to. */
  function TargetForScoring(members: seq<Name>, leader: Name, hash: nat): Name
    requires members != []
  {
    if |members| == 1 then members[0]
    else
      SortNames(leader, members);
      SortMembers(leader, members)[hash % |members|]
  }

  /** All members send the scores for a pod to the same member, whatever order each of them has its list in. */
  lemma SameTarget(a: seq<Name>, b: seq<Name>, leader: Name, hash: nat)
    requires DistinctKeys(a) && DistinctKeys(b) && SameNames(a, b) && a != []
    ensures b != [] && TargetForScoring(a, leader, hash) == TargetForScoring(b, leader, hash)
    ensures TargetForScoring(a, leader, hash) in a
  {
    OrderDoesNotMatter(leader, a, b);
    SortNames(leader, a);
    if |a| == 1 {
      assert a[0] in b;
    }
  }

  /** However the members are sorted, the one at position `j` is the target of exactly the hashes with remainder j. */
  lemma TargetIff(members: seq<Name>, leader: Name, sorted: seq<Name>, hash: nat, j: nat)
    requires DistinctKeys(members) && Sorted(leader, sorted) && SameNames(sorted, members) && j < |sorted|
    ensures members != [] && |sorted| == |members|
    ensures TargetForScoring(members, leader, hash) == sorted[j] <==> hash % |sorted| == j
  {
    assert sorted[j] in members;
    SortNames(leader, members);
    SortIsSorted(leader, members);
    SortedUnique(leader, sorted, SortMembers(leader, members));
    var i := hash % |sorted|;
    if i < j {
      assert Precedes(leader, sorted[i], sorted[j]);
    } else if j < i {
      assert Precedes(leader, sorted[j], sorted[i]);
    }
    if |members| == 1 {
      assert members[0] in sorted;
    }
  }

  // ---------------------------------------------------------------- the cached list

  /** One member's view: the leader it knows of, and the members it sends to, remembered until something changes. */
  class SchedulerSet {
    const podName: Name
    const fanOut: nat
    const allowSolo: bool
    var leader: Name
    var dirty: bool
    var subMembersCache: seq<Name>

    /** The members from which the remembered list was computed. */
    ghost var seen: seq<Name>

    ghost predicate Valid()
      reads this
    {
      !dirty ==> subMembersCache == SubMembers(seen, leader, podName, fanOut)
    }

    constructor (podName: Name, fanOut: nat, allowSolo: bool)
      ensures Valid() && dirty && leader == []
      ensures this.podName == podName && this.fanOut == fanOut && this.allowSolo == allowSolo
    {
      this.podName, this.fanOut, this.allowSolo := podName, fanOut, allowSolo;
      leader, dirty, subMembersCache, seen := [], true, [], [];
    }

    /** Called when the set of members changes. */
    method MembersChanged()
      requires Valid()
      modifies this`dirty
      ensures Valid() && dirty
    {
      dirty := true;
    }

    method SetLeader(name: Name)
      requires Valid()
      modifies this`leader, this`dirty
      ensures Valid() && dirty && leader == name
    {
      leader := name;
      dirty := true;
    }

    /** Whom to send to: computed from `members` after a change, and remembered from the last time otherwise. */
    method GetSubMembers(members: seq<Name>) returns (subMembers: seq<Name>)
      requires Valid()
      modifies this`dirty, this`subMembersCache, this`seen
      ensures Valid() && !dirty && seen == (if old(dirty) then members else old(seen))
      ensures subMembers == SubMembers(seen, leader, podName, fanOut)
    {
      if !dirty {
        return subMembersCache;
      }
      dirty := false;
      seen := members;
      if |members| <= 1 {
        subMembersCache := [];
      } else {
        var names := SortMembers(leader, members);
        SortNames(leader, members);
        var index := FindPosition(leader, names, podName);
        subMembersCache := Slice(names, index, fanOut);
      }
      return subMembersCache;
    }

    /** Whom to send a pod's scores to; None is the division by zero without members. */
    method GetTargetForScoring(known: seq<Name>, hash: nat) returns (target: Option<Name>)
      ensures target.None? <==> known == [] && !allowSolo
      ensures target.Some? ==> target.value == TargetForScoring(GetMembers(known, podName, allowSolo), leader, hash)
    {
      var members := GetMembers(known, podName, allowSolo);
      if |members| == 1 {
        return Some(members[0]);
      }
      if members == [] {
        return None;
      }
      var names := SortMembers(leader, members);
      SortNames(leader, members);
      return Some(names[hash % |names|]);
    }
  }
}
