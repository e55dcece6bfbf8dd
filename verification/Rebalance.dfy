/**
  Distributing the nodes over the schedulers: every node carries the name of its scheduler as a label, and the leader
  relabels as few nodes as possible so that no scheduler has more than its share.
 */
module Rebalance {
  import opened Wrappers
  import opened Integers
  import opened Pods

  /** The scheduler that a node is labelled with, if it has the label. */
  type Label = Option<Name>

  /** The members that are not relays, in order. */
  function Schedulers(members: seq<Name>): (names: seq<Name>)
    ensures forall g :: g in names <==> g in members && !IsRelay(g)
  {
    if members == [] then []
    else
      var n := |members| - 1;
      var front := Schedulers(members[..n]);
      assert members == members[..n] + [members[n]];
      if IsRelay(members[n]) then front else front + [members[n]]
  }

  lemma {:induction false} SchedulersDistinct(members: seq<Name>)
    requires Distinct(members)
    ensures Distinct(Schedulers(members))
  {
    if members != [] {
      var n := |members| - 1;
      SchedulersDistinct(members[..n]);
      var front := Schedulers(members[..n]);
      forall i | 0 <= i < |front| ensures front[i] != members[n] {
        assert front[i] in members[..n];
      }
    }
  }

  /** How many nodes each scheduler may have: the number of nodes over the number of schedulers, rounded up. */
  function Share(nodes: nat, schedulers: nat): nat
    requires schedulers > 0
  {
    (nodes + schedulers - 1) / schedulers
  }

  // ---------------------------------------------------------------- counting

  /** How many of the labels are `g`. */
  function Count(labels: seq<Label>, g: Name): nat {
    if labels == [] then 0
    else Count(labels[..|labels| - 1], g) + if labels[|labels| - 1] == Some(g) then 1 else 0
  }

  /** How many labels differ. */
  function Changed(a: seq<Label>, b: seq<Label>): nat
    requires |a| == |b|
  {
    if a == [] then 0
    else Changed(a[..|a| - 1], b[..|b| - 1]) + if a[|a| - 1] != b[|b| - 1] then 1 else 0
  }

  /** The sum of the counts of the groups. */
  function Total(names: seq<Name>, counts: map<Name, nat>): nat
    requires forall g :: g in names ==> g in counts
  {
    if names == [] then 0 else Total(names[..|names| - 1], counts) + counts[names[|names| - 1]]
  }

  lemma {:induction false} TotalSame(names: seq<Name>, a: map<Name, nat>, b: map<Name, nat>)
    requires forall g :: g in names ==> g in a && g in b && a[g] == b[g]
    ensures Total(names, a) == Total(names, b)
  {
    if names != [] {
      TotalSame(names[..|names| - 1], a, b);
    }
  }

  lemma {:induction false} TotalAtMost(names: seq<Name>, a: map<Name, nat>, b: map<Name, nat>)
    requires forall g :: g in names ==> g in a && g in b && a[g] <= b[g]
    ensures Total(names, a) <= Total(names, b)
  {
    if names != [] {
      TotalAtMost(names[..|names| - 1], a, b);
    }
  }

  /** One more in one group is one more in all. */
  lemma {:induction false} TotalPlusOne(names: seq<Name>, counts: map<Name, nat>, g: Name)
    requires (forall h :: h in names ==> h in counts) && Distinct(names) && g in names
    ensures Total(names, counts[g := counts[g] + 1]) == Total(names, counts) + 1
  {
    var n := |names| - 1;
    var front := names[..n];
    assert names == front + [names[n]];
    if names[n] == g {
      assert g !in front;
      TotalSame(front, counts[g := counts[g] + 1], counts);
    } else {
      TotalPlusOne(front, counts, g);
    }
  }

  lemma {:induction false} TotalZero(names: seq<Name>, counts: map<Name, nat>)
    requires forall g :: g in names ==> g in counts && counts[g] == 0
    ensures Total(names, counts) == 0
  {
    if names != [] {
      TotalZero(names[..|names| - 1], counts);
    }
  }

  /** If every group has its share there is room for everyone. */
  lemma {:induction false} TotalFull(names: seq<Name>, counts: map<Name, nat>, share: nat)
    requires forall g :: g in names ==> g in counts && counts[g] == share
    ensures Total(names, counts) == |names| * share
  {
    if names != [] {
      TotalFull(names[..|names| - 1], counts, share);
      assert |names| * share == (|names| - 1) * share + share;
    }
  }

  /** With `c` nodes each, the schedulers have room for all of them. */
  predicate Enough(schedulers: nat, nodes: nat, c: nat) { schedulers * c >= nodes }

  /** The share is the least number of nodes each that is enough. */
  lemma ShareIsLeast(nodes: nat, schedulers: nat)
    requires schedulers > 0
    ensures Enough(schedulers, nodes, Share(nodes, schedulers))
    ensures forall c: nat :: Enough(schedulers, nodes, c) ==> Share(nodes, schedulers) <= c
    ensures nodes > 0 ==> Share(nodes, schedulers) > 0
  {
    var x := nodes + schedulers - 1;
    var share := Share(nodes, schedulers);
    assert x == schedulers * share + x % schedulers;
    forall c: nat | Enough(schedulers, nodes, c) ensures share <= c {
      if share > c {
        LessIsNotEnough(schedulers, nodes, c, share);
      }
    }
  }

  lemma LessIsNotEnough(schedulers: nat, nodes: nat, c: nat, share: nat)
    requires c < share && schedulers * share <= nodes + schedulers - 1
    ensures !Enough(schedulers, nodes, c)
  {
    MoreEach(schedulers, c + 1, share);
    assert schedulers * (c + 1) == schedulers * c + schedulers;
  }

  lemma {:induction false} MoreEach(schedulers: nat, a: nat, b: nat)
    requires a <= b
    ensures schedulers * a <= schedulers * b
    decreases b
  {
    if a < b {
      MoreEach(schedulers, a, b - 1);
      assert schedulers * b == schedulers * (b - 1) + schedulers;
    }
  }

  // ---------------------------------------------------------------- who may stay

  /** The groups that are counted are the schedulers. */
  ghost predicate Grouped(names: seq<Name>, counts: map<Name, nat>) {
    forall g :: g in counts <==> g in names
  }

  /** The label is the name of a scheduler. */
  predicate Live(names: seq<Name>, group: Label) { group.Some? && group.value in names }

  /** The counts of the labels. */
  ghost predicate Counts(names: seq<Name>, counts: map<Name, nat>, labels: seq<Label>) {
    Grouped(names, counts) && forall g :: g in names ==> counts[g] == Count(labels, g)
  }

  /** How many nodes have no place. */
  function Missing(placed: seq<Label>): nat {
    if placed == [] then 0 else Missing(placed[..|placed| - 1]) + if placed[|placed| - 1].None? then 1 else 0
  }

  /** The nodes that still have to move are those without a place; the others have a live scheduler. */
  ghost predicate Left(names: seq<Name>, placed: seq<Label>, left: seq<nat>) {
    && (forall a, b :: 0 <= a < b < |left| ==> left[a] < left[b])
    && (forall a {:trigger left[a]} :: 0 <= a < |left| ==> left[a] < |placed| && placed[left[a]].None?)
    && (forall i {:trigger Live(names, placed[i])} :: 0 <= i < |placed| && placed[i].Some? ==> Live(names, placed[i]))
    && Missing(placed) == |left|
  }

  /** What the nodes are labelled with: the place if it has one, and what it had before otherwise. */
  ghost predicate Labelled(labels: seq<Label>, placed: seq<Label>, after: seq<Label>) {
    && |labels| == |placed| == |after|
    && forall i :: 0 <= i < |after| ==> after[i] == if placed[i].Some? then placed[i] else labels[i]
  }

  /** Only a node without a live scheduler, or of one that has its share, has to move. */
  ghost predicate MovedForCause(names: seq<Name>, counts: map<Name, nat>, share: nat, labels: seq<Label>,
                                toMove: seq<nat>)
    requires Grouped(names, counts)
  {
    forall a :: 0 <= a < |toMove| ==>
      toMove[a] < |labels| && (Live(names, labels[toMove[a]]) ==> counts[labels[toMove[a]].value] >= share)
  }

  lemma CountStep(labels: seq<Label>, group: Label, g: Name)
    ensures Count(labels + [group], g) == Count(labels, g) + if group == Some(g) then 1 else 0
  {
    assert (labels + [group])[..|labels|] == labels;
  }

  lemma LeftStays(names: seq<Name>, placed: seq<Label>, toMove: seq<nat>, group: Label)
    requires Left(names, placed, toMove) && Live(names, group)
    ensures Left(names, placed + [group], toMove)
  {
    assert (placed + [group])[..|placed|] == placed;
    forall i | 0 <= i < |placed| && placed[i].Some? ensures Live(names, (placed + [group])[i]) {
      assert Live(names, placed[i]);
    }
  }

  lemma LeftGrows(names: seq<Name>, placed: seq<Label>, toMove: seq<nat>)
    requires Left(names, placed, toMove)
    ensures Left(names, placed + [None], toMove + [|placed|])
  {
    assert (placed + [None])[..|placed|] == placed;
    forall i | 0 <= i < |placed| && placed[i].Some? ensures Live(names, (placed + [None])[i]) {
      assert Live(names, placed[i]);
    }
  }

  lemma CountsStep(names: seq<Name>, counts: map<Name, nat>, placed: seq<Label>, g: Name)
    requires Counts(names, counts, placed) && g in names
    ensures Counts(names, counts[g := counts[g] + 1], placed + [Some(g)])
  {
    forall h | h in names ensures Count(placed + [Some(g)], h) == Count(placed, h) + if g == h then 1 else 0 {
      CountStep(placed, Some(g), h);
    }
  }

  lemma CountsSame(names: seq<Name>, counts: map<Name, nat>, placed: seq<Label>)
    requires Counts(names, counts, placed)
    ensures Counts(names, counts, placed + [None])
  {
    forall h | h in names ensures Count(placed + [None], h) == Count(placed, h) {
      CountStep(placed, None, h);
    }
  }

  /** As many nodes of every scheduler stay as its share allows. */
  ghost predicate KeepsMost(names: seq<Name>, counts: map<Name, nat>, share: nat, labels: seq<Label>) {
    Grouped(names, counts) && forall g :: g in names ==> counts[g] == Min(share, Count(labels, g))
  }

  lemma KeepsMostStep(names: seq<Name>, counts: map<Name, nat>, share: nat, labels: seq<Label>, g: Name)
    requires KeepsMost(names, counts, share, labels) && g in names && counts[g] < share
    ensures KeepsMost(names, counts[g := counts[g] + 1], share, labels + [Some(g)])
  {
    forall h | h in names ensures Count(labels + [Some(g)], h) == Count(labels, h) + if g == h then 1 else 0 {
      CountStep(labels, Some(g), h);
    }
  }

  lemma KeepsMostSame(names: seq<Name>, counts: map<Name, nat>, share: nat, labels: seq<Label>, group: Label)
    requires KeepsMost(names, counts, share, labels) && (Live(names, group) ==> counts[group.value] >= share)
    ensures KeepsMost(names, counts, share, labels + [group])
  {
    forall h | h in names ensures Count(labels + [group], h) == Count(labels, h) + if group == Some(h) then 1 else 0 {
      CountStep(labels, group, h);
    }
  }

  lemma CauseStays(names: seq<Name>, counts: map<Name, nat>, share: nat, labels: seq<Label>, toMove: seq<nat>, g: Name)
    requires Grouped(names, counts) && MovedForCause(names, counts, share, labels, toMove) && g in names
    ensures Grouped(names, counts[g := counts[g] + 1])
    ensures MovedForCause(names, counts[g := counts[g] + 1], share, labels + [Some(g)], toMove)
  {
  }

  lemma CauseGrows(names: seq<Name>, counts: map<Name, nat>, share: nat, labels: seq<Label>, toMove: seq<nat>,
                   group: Label)
    requires Grouped(names, counts) && MovedForCause(names, counts, share, labels, toMove)
    requires Live(names, group) ==> counts[group.value] >= share
    ensures MovedForCause(names, counts, share, labels + [group], toMove + [|labels|])
  {
  }

  /** The state of the first pass over the nodes. */
  ghost predicate Staying(names: seq<Name>, labels: seq<Label>, share: nat, counts: map<Name, nat>,
                          toMove: seq<nat>, placed: seq<Label>)
  {
    && Left(names, placed, toMove) && Labelled(labels, placed, labels) && Counts(names, counts, placed)
    && MovedForCause(names, counts, share, labels, toMove)
    && KeepsMost(names, counts, share, labels)
    && Total(names, counts) + |toMove| == |labels|
  }

  lemma StaysPut(names: seq<Name>, labels: seq<Label>, share: nat, counts: map<Name, nat>, toMove: seq<nat>,
                 placed: seq<Label>, g: Name, next: seq<Label>)
    requires Staying(names, labels, share, counts, toMove, placed) && Distinct(names)
    requires g in names && counts[g] < share && next == labels + [Some(g)]
    ensures Staying(names, next, share, counts[g := counts[g] + 1], toMove, placed + [Some(g)])
  {
    LeftStays(names, placed, toMove, Some(g));
    CountsStep(names, counts, placed, g);
    CauseStays(names, counts, share, labels, toMove, g);
    KeepsMostStep(names, counts, share, labels, g);
    TotalPlusOne(names, counts, g);
  }

  lemma HasToMove(names: seq<Name>, labels: seq<Label>, share: nat, counts: map<Name, nat>, toMove: seq<nat>,
                  placed: seq<Label>, group: Label, next: seq<Label>)
    requires Staying(names, labels, share, counts, toMove, placed) && next == labels + [group]
    requires Live(names, group) ==> counts[group.value] >= share
    ensures Staying(names, next, share, counts, toMove + [|labels|], placed + [None])
  {
    LeftGrows(names, placed, toMove);
    CountsSame(names, counts, placed);
    CauseGrows(names, counts, share, labels, toMove, group);
    KeepsMostSame(names, counts, share, labels, group);
  }

  lemma NothingYet(names: seq<Name>, share: nat, counts: map<Name, nat>, labels: seq<Label>)
    requires Grouped(names, counts) && (forall g :: g in names ==> counts[g] == 0) && labels == []
    ensures Staying(names, labels, share, counts, [], [])
  {
    TotalZero(names, counts);
  }

  lemma TakeOneMore(labels: seq<Label>, k: nat)
    requires k < |labels|
    ensures labels[..k] + [labels[k]] == labels[..k + 1]
  {
  }

  lemma TakeAll(labels: seq<Label>)
    ensures labels[..|labels|] == labels
  {
  }

  /** Whether one more node may stay. */
  method StayOrMove(names: seq<Name>, labels: seq<Label>, k: nat, share: nat, counts: map<Name, nat>,
                    toMove: seq<nat>, ghost placed: seq<Label>)
    returns (counts': map<Name, nat>, toMove': seq<nat>, ghost placed': seq<Label>)
    requires Distinct(names) && k < |labels| && Staying(names, labels[..k], share, counts, toMove, placed)
    ensures Staying(names, labels[..k + 1], share, counts', toMove', placed')
  {
    var group := labels[k];
    TakeOneMore(labels, k);
    if group.Some? && group.value in counts && counts[group.value] < share {
      StaysPut(names, labels[..k], share, counts, toMove, placed, group.value, labels[..k + 1]);
      return counts[group.value := counts[group.value] + 1], toMove, placed + [group];
    } else {
      HasToMove(names, labels[..k], share, counts, toMove, placed, group, labels[..k + 1]);
      return counts, toMove + [k], placed + [None];
    }
  }

  /** Which nodes may stay: of every scheduler, the first ones up to its share. */
  method Stay(names: seq<Name>, labels: seq<Label>, share: nat)
    returns (counts: map<Name, nat>, toMove: seq<nat>, ghost placed: seq<Label>)
    requires Distinct(names)
    ensures KeepsMost(names, counts, share, labels) && MovedForCause(names, counts, share, labels, toMove)
    ensures Total(names, counts) + |toMove| == |labels|
    ensures Staying(names, labels, share, counts, toMove, placed)
  {
    counts := map g | g in names :: 0;
    toMove, placed := [], [];
    NothingYet(names, share, counts, labels[..0]);
    for k := 0 to |labels|
      invariant Staying(names, labels[..k], share, counts, toMove, placed)
    {
      counts, toMove, placed := StayOrMove(names, labels, k, share, counts, toMove, placed);
    }
    TakeAll(labels);
  }

  // ---------------------------------------------------------------- who goes where

  /** The groups that are below the share, each once. */
  ghost predicate Short(names: seq<Name>, counts: map<Name, nat>, share: nat, short: seq<Name>)
    requires Grouped(names, counts)
  {
    && Distinct(short)
    && forall g :: g in short <==> g in names && counts[g] < share
  }

  /** The groups below the share, in any order. */
  method ShortGroups(names: seq<Name>, counts: map<Name, nat>, share: nat) returns (short: seq<Name>)
    requires Grouped(names, counts)
    ensures Short(names, counts, share, short)
  {
    short := [];
    var rest := counts.Keys;
    while rest != {}
      invariant rest <= counts.Keys
      invariant Distinct(short)
      invariant forall g :: g in short <==> g in names && g !in rest && counts[g] < share
      decreases rest
    {
      var g :| g in rest;
      if counts[g] < share {
        short := short + [g];
      }
      rest := rest - {g};
    }
  }

  /** While nodes are left to be moved, a group is below its share. */
  lemma RoomIsLeft(names: seq<Name>, counts: map<Name, nat>, share: nat, short: seq<Name>, nodes: nat, left: nat)
    requires names != [] && share == Share(nodes, |names|) && Grouped(names, counts)
    requires forall g :: g in names ==> counts[g] <= share
    requires Short(names, counts, share, short) && Total(names, counts) + left == nodes
    ensures left > 0 ==> short != []
  {
    if short == [] {
      forall g | g in names ensures counts[g] == share {
        assert g !in short;
      }
      TotalFull(names, counts, share);
      ShareIsLeast(nodes, |names|);
    }
  }

  function Without(short: seq<Name>, k: nat): seq<Name>
    requires k < |short|
  {
    short[..k] + short[k + 1..]
  }

  lemma WithoutDistinct(short: seq<Name>, k: nat)
    requires k < |short| && Distinct(short)
    ensures Distinct(Without(short, k))
    ensures forall g :: g in Without(short, k) <==> g in short && g != short[k]
  {
    var rest := Without(short, k);
    assert forall i :: 0 <= i < |rest| ==> rest[i] == if i < k then short[i] else short[i + 1];
    forall g | g in short && g != short[k] ensures g in rest {
      var i :| 0 <= i < |short| && short[i] == g;
      assert rest[if i < k then i else i - 1] == g;
    }
  }

  /** A node goes to the group at place `k`, which leaves the list when it has its share. */
  lemma ShortStep(names: seq<Name>, counts: map<Name, nat>, share: nat, short: seq<Name>, k: nat)
    requires Grouped(names, counts) && Short(names, counts, share, short) && k < |short|
    ensures var counts' := counts[short[k] := counts[short[k]] + 1];
            && Grouped(names, counts')
            && Short(names, counts', share, if counts'[short[k]] >= share then Without(short, k) else short)
  {
    assert short[k] in short;
    WithoutDistinct(short, k);
  }

  lemma {:induction false} CountPlaced(placed: seq<Label>, i: nat, g: Name, h: Name)
    requires i < |placed| && placed[i].None?
    ensures Count(placed[i := Some(g)], h) == Count(placed, h) + if g == h then 1 else 0
  {
    var n := |placed| - 1;
    if i == n {
      assert placed[i := Some(g)][..n] == placed[..n];
    } else {
      CountPlaced(placed[..n], i, g, h);
      assert placed[i := Some(g)][..n] == placed[..n][i := Some(g)];
    }
  }

  lemma {:induction false} ChangedOne(labels: seq<Label>, after: seq<Label>, i: nat, group: Label)
    requires |labels| == |after| && i < |labels| && after[i] == labels[i] != group
    ensures Changed(labels, after[i := group]) == Changed(labels, after) + 1
  {
    var n := |labels| - 1;
    if i == n {
      assert after[i := group][..n] == after[..n];
    } else {
      ChangedOne(labels[..n], after[..n], i, group);
      assert after[i := group][..n] == after[..n][i := group];
    }
  }

  lemma {:induction false} ChangedNone(labels: seq<Label>)
    ensures Changed(labels, labels) == 0
  {
    if labels != [] {
      ChangedNone(labels[..|labels| - 1]);
    }
  }

  lemma CountsPlaced(names: seq<Name>, counts: map<Name, nat>, placed: seq<Label>, i: nat, g: Name)
    requires Counts(names, counts, placed) && i < |placed| && placed[i].None? && g in names
    ensures Counts(names, counts[g := counts[g] + 1], placed[i := Some(g)])
  {
    forall h | h in names ensures Count(placed[i := Some(g)], h) == Count(placed, h) + if g == h then 1 else 0 {
      CountPlaced(placed, i, g, h);
    }
  }

  lemma {:induction false} MissingOneLess(placed: seq<Label>, i: nat, g: Name)
    requires i < |placed| && placed[i].None?
    ensures Missing(placed[i := Some(g)]) == Missing(placed) - 1
  {
    var n := |placed| - 1;
    if i == n {
      assert placed[i := Some(g)][..n] == placed[..n];
    } else {
      MissingOneLess(placed[..n], i, g);
      assert placed[i := Some(g)][..n] == placed[..n][i := Some(g)];
    }
  }

  lemma {:induction false} NoneMissing(placed: seq<Label>, i: nat)
    requires i < |placed| && Missing(placed) == 0
    ensures placed[i].Some?
  {
    if i < |placed| - 1 {
      NoneMissing(placed[..|placed| - 1], i);
    }
  }

  lemma LeftStep(names: seq<Name>, placed: seq<Label>, left: seq<nat>, g: Name)
    requires Left(names, placed, left) && left != [] && g in names
    ensures left[0] < |placed| && Left(names, placed[left[0] := Some(g)], left[1..])
  {
    MissingOneLess(placed, left[0], g);
    var placed' := placed[left[0] := Some(g)];
    forall i | 0 <= i < |placed| && placed'[i].Some? ensures Live(names, placed'[i]) {
      if i != left[0] {
        assert Live(names, placed[i]);
      }
    }
  }

  /** The state of the second pass, over the nodes that move. */
  ghost predicate Moving(names: seq<Name>, labels: seq<Label>, share: nat, counts: map<Name, nat>, left: seq<nat>,
                         short: seq<Name>, placed: seq<Label>, after: seq<Label>)
  {
    && Left(names, placed, left) && Labelled(labels, placed, after) && Counts(names, counts, placed)
    && MovedForCause(names, counts, share, labels, left)
    && (forall g :: g in names ==> counts[g] <= share)
    && Short(names, counts, share, short)
    && Total(names, counts) + |left| == |labels|
  }

  lemma LabelledStep(labels: seq<Label>, placed: seq<Label>, after: seq<Label>, i: nat, g: Name)
    requires Labelled(labels, placed, after) && i < |labels|
    ensures Labelled(labels, placed[i := Some(g)], after[i := Some(g)])
  {
  }

  lemma CauseStep(names: seq<Name>, counts: map<Name, nat>, share: nat, labels: seq<Label>, left: seq<nat>, g: Name)
    requires Grouped(names, counts) && MovedForCause(names, counts, share, labels, left) && left != [] && g in names
    ensures Grouped(names, counts[g := counts[g] + 1])
    ensures MovedForCause(names, counts[g := counts[g] + 1], share, labels, left[1..])
  {
  }

  /** The next node is not already where it goes, and everything is kept when it goes there. */
  lemma MoveStep(names: seq<Name>, labels: seq<Label>, share: nat, counts: map<Name, nat>, left: seq<nat>,
                 short: seq<Name>, placed: seq<Label>, after: seq<Label>, k: nat)
    requires Moving(names, labels, share, counts, left, short, placed, after) && Distinct(names)
    requires left != [] && k < |short|
    ensures left[0] < |labels| && after[left[0]] == labels[left[0]] != Some(short[k])
    ensures var g := short[k];
            var counts' := counts[g := counts[g] + 1];
            Moving(names, labels, share, counts', left[1..], if counts'[g] >= share then Without(short, k) else short,
                   placed[left[0] := Some(g)], after[left[0] := Some(g)])
  {
    var g := short[k];
    assert g in short;
    LeftStep(names, placed, left, g);
    LabelledStep(labels, placed, after, left[0], g);
    CountsPlaced(names, counts, placed, left[0], g);
    CauseStep(names, counts, share, labels, left, g);
    ShortStep(names, counts, share, short, k);
    TotalPlusOne(names, counts, g);
  }

  /** Every node has a live scheduler, and no scheduler has more than its share. */
  ghost predicate Balanced(names: seq<Name>, share: nat, labels: seq<Label>) {
    && (forall i :: 0 <= i < |labels| ==> Live(names, labels[i]))
    && (forall g :: g in names ==> Count(labels, g) <= share)
  }

  lemma AllPlaced(names: seq<Name>, labels: seq<Label>, share: nat, counts: map<Name, nat>, short: seq<Name>,
                  placed: seq<Label>, after: seq<Label>)
    requires Moving(names, labels, share, counts, [], short, placed, after)
    ensures Balanced(names, share, after)
  {
    forall i | 0 <= i < |placed| ensures Live(names, placed[i]) && after[i] == placed[i] {
      NoneMissing(placed, i);
    }
    assert after == placed;
  }

  /** The label's value as a lookup gives it. */
  function Current(group: Label): Name { if group.Some? then group.value else [] }

  /** Moves the nodes one by one to the groups below the share, taking these in turn. */
  method Move(names: seq<Name>, labels: seq<Label>, share: nat, counts0: map<Name, nat>, toMove: seq<nat>,
              short0: seq<Name>, ghost placed0: seq<Label>)
    returns (after: seq<Label>)
    requires Distinct(names) && names != [] && [] !in names && share == Share(|labels|, |names|)
    requires Moving(names, labels, share, counts0, toMove, short0, placed0, labels)
    ensures |after| == |labels| && Balanced(names, share, after) && Changed(labels, after) == |toMove|
  {
    var counts, short := counts0, short0;
    ghost var placed := placed0;
    after := labels;
    ChangedNone(labels);
    for i := 0 to |toMove|
      invariant Moving(names, labels, share, counts, toMove[i..], short, placed, after)
      invariant |after| == |labels| && Changed(labels, after) == i
    {
      RoomIsLeft(names, counts, share, short, |labels|, |toMove[i..]|);
      var k := i % |short|;
      var g := short[k];
      MoveStep(names, labels, share, counts, toMove[i..], short, placed, after, k);
      assert g in short && toMove[i..][1..] == toMove[i + 1..];
      counts := counts[g := counts[g] + 1];
      if counts[g] >= share {
        short := short[..k] + short[k + 1..];
      }
      if Current(labels[toMove[i]]) == g {
        assert false;
        continue;
      }
      ChangedOne(labels, after, toMove[i], Some(g));
      placed := placed[toMove[i] := Some(g)];
      after := after[toMove[i] := Some(g)];
    }
    AllPlaced(names, labels, share, counts, short, placed, after);
  }

  // ---------------------------------------------------------------- no fewer moves are possible

  /** How many nodes have the label `g` in both. */
  function Agree(a: seq<Label>, b: seq<Label>, g: Name): nat
    requires |a| == |b|
  {
    if a == [] then 0
    else Agree(a[..|a| - 1], b[..|b| - 1], g) + if a[|a| - 1] == b[|b| - 1] == Some(g) then 1 else 0
  }

  lemma {:induction false} AgreeAtMost(a: seq<Label>, b: seq<Label>, g: Name)
    requires |a| == |b|
    ensures Agree(a, b, g) <= Min(Count(a, g), Count(b, g))
  {
    if a != [] {
      AgreeAtMost(a[..|a| - 1], b[..|b| - 1], g);
    }
  }

  ghost function Agreements(names: seq<Name>, a: seq<Label>, b: seq<Label>): map<Name, nat>
    requires |a| == |b|
  {
    map g | g in names :: Agree(a, b, g)
  }

  /** A node that keeps its label keeps it in exactly one group. */
  lemma {:induction false} AgreementsTotal(names: seq<Name>, a: seq<Label>, b: seq<Label>)
    requires |a| == |b| && Distinct(names) && forall i :: 0 <= i < |b| ==> Live(names, b[i])
    ensures Total(names, Agreements(names, a, b)) == |a| - Changed(a, b)
  {
    if a == [] {
      TotalZero(names, Agreements(names, a, b));
    } else {
      var n := |a| - 1;
      AgreementsTotal(names, a[..n], b[..n]);
      assert Live(names, b[n]);
      var before, g := Agreements(names, a[..n], b[..n]), b[n].value;
      if a[n] == b[n] {
        TotalPlusOne(names, before, g);
        TotalSame(names, Agreements(names, a, b), before[g := before[g] + 1]);
      } else {
        TotalSame(names, Agreements(names, a, b), before);
      }
    }
  }

  /** However else the nodes are distributed within the share, at least as many of them move. */
  lemma NoFewerMoves(names: seq<Name>, share: nat, labels: seq<Label>, other: seq<Label>, counts: map<Name, nat>)
    requires Distinct(names) && KeepsMost(names, counts, share, labels)
    requires |other| == |labels| && Balanced(names, share, other)
    ensures Changed(labels, other) >= |labels| - Total(names, counts)
  {
    AgreementsTotal(names, labels, other);
    forall g | g in names ensures Agree(labels, other, g) <= counts[g] {
      AgreeAtMost(labels, other, g);
    }
    TotalAtMost(names, Agreements(names, labels, other), counts);
  }

  /** The nodes whose label differs. */
  function Moved(a: seq<Label>, b: seq<Label>): set<nat>
    requires |a| == |b|
  {
    set i | 0 <= i < |a| && a[i] != b[i]
  }

  lemma {:induction false} CountIsMultiplicity(labels: seq<Label>, g: Name)
    ensures Count(labels, g) == multiset(labels)[Some(g)]
  {
    if labels != [] {
      CountIsMultiplicity(labels[..|labels| - 1], g);
      assert labels == labels[..|labels| - 1] + [labels[|labels| - 1]];
    }
  }

  lemma {:induction false} ChangedIsMoved(a: seq<Label>, b: seq<Label>)
    requires |a| == |b|
    ensures Changed(a, b) == |Moved(a, b)|
  {
    if a != [] {
      var n := |a| - 1;
      ChangedIsMoved(a[..n], b[..n]);
      assert Moved(a, b) == Moved(a[..n], b[..n]) + if a[n] != b[n] then {n} else {};
    }
  }

  /** Every node has a live scheduler, and no scheduler has more nodes than any bound that is enough for all. */
  ghost predicate Even(names: seq<Name>, labels: seq<Label>) {
    && (forall i :: 0 <= i < |labels| ==> labels[i].Some? && labels[i].value in names)
    && (forall g, c: nat :: g in names && Enough(|names|, |labels|, c) ==> multiset(labels)[Some(g)] <= c)
  }

  /** Without schedulers nothing changes; otherwise the nodes are even, and no other even labelling moves fewer. */
  ghost predicate Rebalanced(names: seq<Name>, labels: seq<Label>, after: seq<Label>) {
    && |after| == |labels|
    && if names == [] then after == labels
       else
         && Even(names, after)
         && forall other: seq<Label> {:trigger Even(names, other)} :: |other| == |labels| && Even(names, other) ==>
              |Moved(labels, after)| <= |Moved(labels, other)|
  }

  lemma EvenIsBalanced(names: seq<Name>, labels: seq<Label>)
    requires names != []
    ensures Even(names, labels) <==> Balanced(names, Share(|labels|, |names|), labels)
  {
    ShareIsLeast(|labels|, |names|);
    forall g | g in names ensures Count(labels, g) == multiset(labels)[Some(g)] {
      CountIsMultiplicity(labels, g);
    }
    if Balanced(names, Share(|labels|, |names|), labels) {
      forall i | 0 <= i < |labels| ensures labels[i].Some? && labels[i].value in names {
        assert Live(names, labels[i]);
      }
    }
  }

  lemma MinimalMoves(names: seq<Name>, labels: seq<Label>, share: nat, counts: map<Name, nat>, toMove: seq<nat>,
                     placed: seq<Label>, after: seq<Label>)
    requires Distinct(names) && names != [] && share == Share(|labels|, |names|)
    requires Staying(names, labels, share, counts, toMove, placed)
    requires |after| == |labels| && Balanced(names, share, after) && Changed(labels, after) == |toMove|
    ensures Rebalanced(names, labels, after)
  {
    EvenIsBalanced(names, after);
    ChangedIsMoved(labels, after);
    forall other: seq<Label> | |other| == |labels| && Even(names, other)
      ensures |Moved(labels, after)| <= |Moved(labels, other)|
    {
      EvenIsBalanced(names, other);
      NoFewerMoves(names, share, labels, other, counts);
      ChangedIsMoved(labels, other);
    }
  }

  /** What rebalancing means for one scheduler: it has at most `c` nodes, for every `c` that is enough for all. */
  lemma NoMoreThanNeeded(names: seq<Name>, labels: seq<Label>, after: seq<Label>, g: Name, c: nat)
    requires Rebalanced(names, labels, after) && g in names && |names| * c >= |labels|
    ensures |after| == |labels| && multiset(after)[Some(g)] <= c
    ensures forall i :: 0 <= i < |after| ==> after[i].Some? && after[i].value in names
  {
    assert Enough(|names|, |after|, c);
  }

  /** Whoever labels the nodes with live schedulers, none of them with more nodes than needed, moves as many or more. */
  lemma FewestMoves(names: seq<Name>, labels: seq<Label>, after: seq<Label>, other: seq<Label>, c: nat)
    requires Rebalanced(names, labels, after) && names != [] && |other| == |labels|
    requires forall i :: 0 <= i < |other| ==> other[i].Some? && other[i].value in names
    requires forall g :: g in names ==> multiset(other)[Some(g)] <= c
    requires |names| * c >= |labels| && (c > 0 ==> |names| * (c - 1) < |labels|)
    ensures |after| == |labels|
    ensures |set i | 0 <= i < |labels| && labels[i] != after[i]| <=
            |set i | 0 <= i < |labels| && labels[i] != other[i]|
  {
    forall g, d: nat | g in names && Enough(|names|, |other|, d) ensures multiset(other)[Some(g)] <= d {
      if d < c {
        MoreEach(|names|, d, c - 1);
      }
    }
    assert Even(names, other);
    assert Moved(labels, after) == set i | 0 <= i < |labels| && labels[i] != after[i];
    assert Moved(labels, other) == set i | 0 <= i < |labels| && labels[i] != other[i];
  }

  /** When no node has to move, the nodes are balanced as they are. */
  lemma NothingToMove(names: seq<Name>, labels: seq<Label>, share: nat, counts: map<Name, nat>, placed: seq<Label>)
    requires Staying(names, labels, share, counts, [], placed)
    ensures Balanced(names, share, labels) && Changed(labels, labels) == 0
  {
    ChangedNone(labels);
    forall i | 0 <= i < |placed| ensures Live(names, placed[i]) && labels[i] == placed[i] {
      NoneMissing(placed, i);
    }
    assert placed == labels;
  }

  /** Moves as few nodes as possible so that every scheduler has at most its share of them. */
  method UpdateNodeLabels(members: seq<Name>, labels: seq<Label>) returns (after: seq<Label>)
    requires Distinct(members) && [] !in members
    ensures Rebalanced(Schedulers(members), labels, after)
  {
    var names := Schedulers(members);
    SchedulersDistinct(members);
    if |names| == 0 {
      return labels;
    }
    var share := Share(|labels|, |names|);
    ghost var placed;
    var counts, toMove;
    counts, toMove, placed := Stay(names, labels, share);
    if |toMove| == 0 {
      NothingToMove(names, labels, share, counts, placed);
      after := labels;
    } else {
      var short := ShortGroups(names, counts, share);
      RoomIsLeft(names, counts, share, short, |labels|, |toMove|);
      if |short| == 0 {
        assert false;
        return labels;
      }
      after := Move(names, labels, share, counts, toMove, short, placed);
    }
    MinimalMoves(names, labels, share, counts, toMove, placed, after);
  }
}
