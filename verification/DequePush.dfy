/**
  The deque under concurrency. A push reserves its index while it holds the read lock, fills its slot at once if the
  block exists, and otherwise comes back under the write lock; other pushes, overwrites and removals run in between.
  `log` records, for specification, which value each index was given.
 */
module DequePush {
  import opened Wrappers
  import opened BlockLayout

  /** A push that has its index: still holding the read lock, or waiting for the write lock. */
  datatype Push<V> = Reading(value: V) | Waiting(value: V)

  datatype State<V> = State(b: nat, cells: seq<seq<Option<V>>>, start: nat, length: nat, pending: map<nat, Push<V>>,
                            log: seq<V>)

  datatype Step<V> =
    | Reserve(value: V)
    | FastFill(index: nat)
    | Release(index: nat)
    | SlowFill(index: nat)
    | Overwrite(index: nat, value: V)
    | Read(index: nat)
    | RemoveBefore(index: nat)

  ghost predicate NoReader<V>(s: State<V>) {
    forall i :: i in s.pending ==> s.pending[i].Waiting?
  }

  function BlockOf<V>(s: State<V>, index: nat): int
    requires s.b > 0
  {
    index / s.b - s.start / s.b
  }

  /** When a step can be taken, by the locks and by the checks of the code itself. */
  ghost predicate Enabled<V>(s: State<V>, step: Step<V>)
    requires s.b > 0
  {
    match step
    case Reserve(_) => true
    case FastFill(i) => i in s.pending && s.pending[i].Reading? && BlockOf(s, i) < |s.cells|
    case Release(i) => i in s.pending && s.pending[i].Reading? && BlockOf(s, i) >= |s.cells|
    case SlowFill(i) => i in s.pending && s.pending[i].Waiting? && NoReader(s)
    case Overwrite(i, _) => s.start <= i < s.start + s.length
    case Read(i) => s.start <= i < s.start + s.length
    case RemoveBefore(i) => NoReader(s) && s.start <= i <= s.start + s.length
  }

  /** What the callers have to see to: they use the indices that a push has returned, and remove no pending one. */
  ghost predicate Proper<V>(s: State<V>, step: Step<V>) {
    match step
    case Overwrite(i, _) => i !in s.pending
    case Read(i) => i !in s.pending
    case RemoveBefore(i) => forall p :: p in s.pending ==> i <= p
    case _ => true
  }

  /** No index underflows, no block access, `remove(0)`, `first_mut()` or slice bound fails. */
  predicate Safe<V>(s: State<V>, step: Step<V>)
    requires s.b > 0
  {
    match step
    case Reserve(_) => true
    case FastFill(i) => 0 <= BlockOf(s, i) < |s.cells| && i % s.b < |s.cells[BlockOf(s, i)]|
    case Release(i) => 0 <= BlockOf(s, i)
    case SlowFill(i) => 0 <= BlockOf(s, i) && i % s.b < |Grow(s.cells, s.b, BlockOf(s, i))[BlockOf(s, i)]|
    case Overwrite(i, _) => 0 <= BlockOf(s, i) < |s.cells| && i % s.b < |s.cells[BlockOf(s, i)]|
    case Read(i) => 0 <= BlockOf(s, i) < |s.cells| && i % s.b < |s.cells[BlockOf(s, i)]|
    case RemoveBefore(i) => RemoveSafe(s, i)
  }

  predicate RemoveSafe<V>(s: State<V>, index: nat)
    requires s.b > 0
  {
    && 0 <= BlockOf(s, index) <= |s.cells|
    && (index % s.b > 0 ==> BlockOf(s, index) < |s.cells| && ClearFrom(s, index) <= index % s.b)
  }

  function ClearFrom<V>(s: State<V>, index: nat): nat
    requires s.b > 0
  {
    if BlockOf(s, index) > 0 then 0 else s.start % s.b
  }

  /** The slow path's loop: blocks are added until block `j` is there. */
  function Grow<V>(cells: seq<seq<Option<V>>>, b: nat, j: nat): (r: seq<seq<Option<V>>>)
    ensures j < |r|
    decreases j - |cells|
  {
    if j < |cells| then cells else Grow(cells + [Empty(b)], b, j)
  }

  function Put<V>(cells: seq<seq<Option<V>>>, j: nat, o: nat, v: V): seq<seq<Option<V>>>
    requires j < |cells| && o < |cells[j]|
  {
    cells[j := cells[j][o := Some(v)]]
  }

  function RemoveFront<V>(s: State<V>, index: nat): seq<seq<Option<V>>>
    requires s.b > 0 && RemoveSafe(s, index)
  {
    var rest := s.cells[BlockOf(s, index)..];
    if index % s.b == 0 then rest else [Cleared(rest[0], ClearFrom(s, index), index % s.b)] + rest[1..]
  }

  ghost function Next<V>(s: State<V>, step: Step<V>): State<V>
    requires s.b > 0 && |s.log| == s.start + s.length && Enabled(s, step) && Safe(s, step)
  {
    match step
    case Reserve(v) =>
      s.(length := s.length + 1, pending := s.pending[s.start + s.length := Reading(v)], log := s.log + [v])
    case FastFill(i) =>
      s.(cells := Put(s.cells, BlockOf(s, i), i % s.b, s.pending[i].value), pending := s.pending - {i})
    case Release(i) =>
      s.(pending := s.pending[i := Waiting(s.pending[i].value)])
    case SlowFill(i) =>
      s.(cells := Put(Grow(s.cells, s.b, BlockOf(s, i)), BlockOf(s, i), i % s.b, s.pending[i].value),
         pending := s.pending - {i})
    case Overwrite(i, v) =>
      s.(cells := Put(s.cells, BlockOf(s, i), i % s.b, v), log := s.log[i := v])
    case Read(_) => s
    case RemoveBefore(i) =>
      s.(cells := RemoveFront(s, i), start := i, length := s.length - (i - s.start))
  }

  lemma {:induction false} GrowKeepsLengths<V>(cells: seq<seq<Option<V>>>, b: nat, j: nat)
    requires forall i :: 0 <= i < |cells| ==> |cells[i]| == b
    ensures var r := Grow(cells, b, j); forall i :: 0 <= i < |r| ==> |r[i]| == b
    decreases j - |cells|
  {
    if j >= |cells| {
      GrowKeepsLengths(cells + [Empty<V>(b)], b, j);
      assert Grow(cells, b, j) == Grow(cells + [Empty<V>(b)], b, j);
    }
  }

  // ---------------------------------------------------------------- the invariant

  /** Every index in the window holds the value it was given, except that pending ones are still cleared. */
  function Window<V>(s: State<V>): (w: seq<Option<V>>)
    requires |s.log| == s.start + s.length
    ensures |w| == s.length
  {
    seq(s.length, k requires 0 <= k < s.length => if s.start + k in s.pending then None else Some(s.log[s.start + k]))
  }

  ghost predicate Inv<V>(s: State<V>) {
    && s.b > 0 && |s.log| == s.start + s.length
    && (forall i :: i in s.pending ==> s.start <= i < |s.log| && s.pending[i].value == s.log[i])
    && Laid(s.cells, s.b, Base(s.b, s.start), s.start, Window(s))
    && FilledBelow(TopOf(s), s.start, Window(s))
    && s.start <= TopOf(s) < s.start + s.length + s.b
  }

  function TopOf<V>(s: State<V>): nat
    requires s.b > 0
  {
    Top(s.b, Base(s.b, s.start), |s.cells|)
  }

  function Initial<V>(b: nat): State<V> { State(b, [], 0, 0, map[], []) }

  lemma InitialInv<V>(b: nat)
    requires b > 0
    ensures Inv<V>(Initial(b))
  {
    assert Window(Initial<V>(b)) == [];
  }

  // ---------------------------------------------------------------- no step can fail

  /** A removal fails exactly when it reaches beyond the blocks there are. */
  lemma RemoveIsSafeIff<V>(s: State<V>, index: nat)
    requires Inv(s) && s.start <= index
    ensures RemoveSafe(s, index) <==> index <= TopOf(s)
  {
    var j := BlockOf(s, index);
    Locate(s.b, s.start, index, |s.cells|);
    if index > 0 && index > s.start {
      Locate(s.b, s.start, index - 1, |s.cells|);
    }
    if j <= |s.cells| {
      Quotient(s.start, s.b);
      if j < |s.cells| {
        TimesStep(j, |s.cells|, s.b);
      }
    } else {
      TimesStep(|s.cells|, j, s.b);
    }
  }

  lemma FilledHasBlock<V>(s: State<V>, index: nat)
    requires Inv(s) && s.start <= index < s.start + s.length && index !in s.pending
    ensures index < TopOf(s)
  {
    assert SlotOf(s.start, Window(s), index).Some?;
  }

  /** A read of the window fails exactly at a pending index whose block is yet to be allocated. */
  lemma ReadIsSafeIff<V>(s: State<V>, index: nat)
    requires Inv(s) && Enabled(s, Read(index))
    ensures Safe(s, Read(index)) <==> !(index in s.pending && index >= TopOf(s))
  {
    Locate(s.b, s.start, index, |s.cells|);
    if index !in s.pending {
      FilledHasBlock(s, index);
    }
  }

  lemma EnabledIsSafe<V>(s: State<V>, step: Step<V>)
    requires Inv(s) && Enabled(s, step) && Proper(s, step)
    ensures Safe(s, step)
  {
    match step
    case Reserve(_) =>
    case FastFill(i) =>
      Locate(s.b, s.start, i, |s.cells|);
    case Release(i) =>
      Locate(s.b, s.start, i, |s.cells|);
    case SlowFill(i) =>
      Locate(s.b, s.start, i, |s.cells|);
      GrowKeepsLengths(s.cells, s.b, BlockOf(s, i));
    case Overwrite(i, _) =>
      Locate(s.b, s.start, i, |s.cells|);
      FilledHasBlock(s, i);
    case Read(i) =>
      ReadIsSafeIff(s, i);
    case RemoveBefore(i) =>
      RemoveIsSafeIff(s, i);
      if i > s.start {
        FilledHasBlock(s, i - 1);
      }
  }

  // ---------------------------------------------------------------- every step keeps the invariant

  lemma ReserveKeeps<V>(s: State<V>, v: V)
    requires Inv(s)
    ensures Inv(Next(s, Reserve(v)))
  {
    var s' := Next(s, Reserve(v));
    ReserveLaid(s.cells, s.b, Base(s.b, s.start), s.start, Window(s));
    assert Window(s') == Window(s) + [None];
    assert forall n: nat :: SlotOf(s.start, Window(s'), n) == SlotOf(s.start, Window(s), n);
  }

  lemma ReleaseKeeps<V>(s: State<V>, i: nat)
    requires Inv(s) && Enabled(s, Release(i)) && Safe(s, Release(i))
    ensures Inv(Next(s, Release(i)))
  {
    var s' := Next(s, Release(i));
    assert Window(s') == Window(s);
  }

  /** Filling, from a layout in which the block of `i` exists. */
  lemma FillKeeps<V>(s: State<V>, i: nat, j: nat, o: nat, v: V, cells: seq<seq<Option<V>>>, s': State<V>)
    requires Inv(s) && s.start <= i < s.start + s.length && o < s.b
    requires Laid(cells, s.b, Base(s.b, s.start), s.start, Window(s))
    requires |s.cells| <= |cells| && j < |cells| && Position(s.b, Base(s.b, s.start), j, o) == i
    requires Top(s.b, Base(s.b, s.start), |cells|) < s.start + s.length + s.b
    requires s' == s.(cells := Put(cells, j, o, v), pending := s.pending - {i}, log := s.log[i := v])
    ensures Inv(s')
  {
    var base := Base(s.b, s.start);
    WriteLaid(cells, s.b, base, s.start, Window(s), j, o, Some(v));
    assert Window(s') == Window(s)[i - s.start := Some(v)];
    PositionBelowTop(s.b, base, j, o, |cells|);
    FillBelow(s.b, base, |s.cells|, |cells|, s.start, Window(s), i, Some(v));
  }

  lemma FillBelow<V>(b: nat, base: nat, blocks: nat, blocks': nat, start: nat, items: seq<Option<V>>, i: nat,
                     x: Option<V>)
    requires blocks <= blocks' && FilledBelow(Top(b, base, blocks), start, items)
    requires start <= i < start + |items| && i < Top(b, base, blocks')
    ensures Top(b, base, blocks) <= Top(b, base, blocks')
    ensures FilledBelow(Top(b, base, blocks'), start, items[i - start := x])
  {
    if blocks < blocks' {
      TimesStep(blocks, blocks', b);
    }
    var items' := items[i - start := x];
    forall n: nat | SlotOf(start, items', n).Some? ensures n < Top(b, base, blocks') {
      if n != i {
        assert SlotOf(start, items, n).Some?;
      }
    }
  }

  lemma FastFillKeeps<V>(s: State<V>, i: nat)
    requires Inv(s) && Enabled(s, FastFill(i)) && Safe(s, FastFill(i))
    ensures Inv(Next(s, FastFill(i)))
  {
    var v := s.pending[i].value;
    Locate(s.b, s.start, i, |s.cells|);
    assert s.log[i := v] == s.log;
    FillKeeps(s, i, BlockOf(s, i), i % s.b, v, s.cells, Next(s, FastFill(i)));
  }

  lemma OverwriteKeeps<V>(s: State<V>, i: nat, v: V)
    requires Inv(s) && Enabled(s, Overwrite(i, v)) && Proper(s, Overwrite(i, v)) && Safe(s, Overwrite(i, v))
    ensures Inv(Next(s, Overwrite(i, v)))
  {
    Locate(s.b, s.start, i, |s.cells|);
    assert s.pending - {i} == s.pending;
    FillKeeps(s, i, BlockOf(s, i), i % s.b, v, s.cells, Next(s, Overwrite(i, v)));
  }

  lemma SlowFillKeeps<V>(s: State<V>, i: nat)
    requires Inv(s) && Enabled(s, SlowFill(i)) && Safe(s, SlowFill(i))
    ensures Inv(Next(s, SlowFill(i)))
  {
    var v, j := s.pending[i].value, BlockOf(s, i);
    Locate(s.b, s.start, i, |s.cells|);
    assert s.log[i := v] == s.log;
    GrowLaid(s.cells, s.b, Base(s.b, s.start), s.start, Window(s), j, i, s.start + s.length);
    FillKeeps(s, i, j, i % s.b, v, Grow(s.cells, s.b, j), Next(s, SlowFill(i)));
  }

  lemma {:induction false} GrowLaid<V>(cells: seq<seq<Option<V>>>, b: nat, base: nat, start: nat, items: seq<Option<V>>,
                                       j: nat, i: nat, end: nat)
    requires b > 0 && Laid(cells, b, base, start, items) && FilledBelow(Top(b, base, |cells|), start, items)
    requires i < end && i % b < b && Position(b, base, j, i % b) == i && Top(b, base, |cells|) < end + b
    ensures var r := Grow(cells, b, j);
            |cells| <= |r| && Laid(r, b, base, start, items) && Top(b, base, |r|) < end + b
    decreases j - |cells|
  {
    if j >= |cells| {
      AllocateLaid(cells, b, base, start, items);
      PositionBelowTop(b, base, j, i % b, |cells|);
      GrowLaid(cells + [Empty(b)], b, base, start, items, j, i, end);
    }
  }

  lemma RemoveKeeps<V>(s: State<V>, i: nat)
    requires Inv(s) && Enabled(s, RemoveBefore(i)) && Proper(s, RemoveBefore(i)) && Safe(s, RemoveBefore(i))
    ensures Inv(Next(s, RemoveBefore(i)))
  {
    var s' := Next(s, RemoveBefore(i));
    RemoveKeepsLayout(s, i);
    RemoveKeepsTop(s, i);
    assert Window(s') == Window(s)[i - s.start..];
    RemoveIsSafeIff(s, i);
    forall n: nat | SlotOf(s'.start, Window(s'), n).Some? ensures n < TopOf(s') {
      assert SlotOf(s.start, Window(s), n).Some?;
    }
  }

  /** Where the first block begins after the removal; the end of the blocks stays. */
  lemma RemoveMovesBase<V>(s: State<V>, i: nat)
    requires Inv(s) && s.start <= i && RemoveSafe(s, i)
    ensures var d := BlockOf(s, i);
            && Base(s.b, i) == Top(s.b, Base(s.b, s.start), d) && i == Base(s.b, i) + i % s.b
            && Top(s.b, Base(s.b, i), |s.cells| - d) == TopOf(s)
            && ClearFrom(s, i) == if d > 0 then 0 else s.start - Base(s.b, s.start)
  {
    Quotient(s.start, s.b);
    Locate(s.b, s.start, i, |s.cells|);
    NewBase(s.b, s.start, |s.cells|, i, BlockOf(s, i), i % s.b);
  }

  lemma RemoveKeepsTop<V>(s: State<V>, i: nat)
    requires Inv(s) && s.start <= i <= s.start + s.length && RemoveSafe(s, i)
    ensures Top(s.b, Base(s.b, i), |RemoveFront(s, i)|) == TopOf(s)
  {
    RemoveMovesBase(s, i);
    assert |RemoveFront(s, i)| == |s.cells| - BlockOf(s, i);
  }

  lemma RemoveKeepsLayout<V>(s: State<V>, i: nat)
    requires Inv(s) && s.start <= i <= s.start + s.length && RemoveSafe(s, i)
    ensures Laid(RemoveFront(s, i), s.b, Base(s.b, i), i, Window(s)[i - s.start..])
  {
    var base, d, o := Base(s.b, s.start), BlockOf(s, i), i % s.b;
    RemoveMovesBase(s, i);
    if o == 0 {
      RemovedWhole(s.cells, s.b, base, s.start, Window(s), i, d, Base(s.b, i));
    } else {
      RemovedPartly(s.cells, s.b, base, s.start, Window(s), i, d, o, ClearFrom(s, i), Base(s.b, i), s.cells[d..]);
    }
  }

  lemma StepKeeps<V>(s: State<V>, step: Step<V>)
    requires Inv(s) && Enabled(s, step) && Proper(s, step)
    ensures Safe(s, step) && Inv(Next(s, step))
  {
    EnabledIsSafe(s, step);
    match step
    case Reserve(v) => ReserveKeeps(s, v);
    case FastFill(i) => FastFillKeeps(s, i);
    case Release(i) => ReleaseKeeps(s, i);
    case SlowFill(i) => SlowFillKeeps(s, i);
    case Overwrite(i, v) => OverwriteKeeps(s, i, v);
    case Read(_) =>
    case RemoveBefore(i) => RemoveKeeps(s, i);
  }

  // ---------------------------------------------------------------- whole runs

  ghost predicate Takes<V>(s: State<V>, step: Step<V>, s': State<V>) {
    s.b > 0 && |s.log| == s.start + s.length && Enabled(s, step) && Safe(s, step) && s' == Next(s, step)
  }

  /** `states` is a run of the protocol in which no step has failed so far. */
  ghost predicate Run<V>(states: seq<State<V>>, steps: seq<Step<V>>) {
    && |states| == |steps| + 1
    && states[0].b > 0 && states[0] == Initial(states[0].b)
    && forall k :: 0 <= k < |steps| ==> Takes(states[k], steps[k], states[k + 1])
  }

  ghost predicate ProperRun<V>(states: seq<State<V>>, steps: seq<Step<V>>) {
    Run(states, steps) && forall k :: 0 <= k < |steps| ==> Proper(states[k], steps[k])
  }

  /**
    What a step does to the window, whatever it does to the blocks: a reservation moves its end by one and a removal its
    start to the index given, and only a reservation or an overwrite changes what the indices stand for.
   */
  lemma StepMoves<V>(s: State<V>, step: Step<V>)
    requires s.b > 0 && |s.log| == s.start + s.length && Enabled(s, step) && Safe(s, step)
    ensures var s' := Next(s, step);
            && s'.start == (if step.RemoveBefore? then step.index else s.start)
            && s'.start + s'.length == s.start + s.length + (if step.Reserve? then 1 else 0)
            && s'.log == (match step
                          case Reserve(v) => s.log + [v]
                          case Overwrite(i, v) => s.log[i := v]
                          case _ => s.log)
            && s'.pending.Keys == (match step
                                   case Reserve(_) => s.pending.Keys + {s.start + s.length}
                                   case FastFill(i) => s.pending.Keys - {i}
                                   case SlowFill(i) => s.pending.Keys - {i}
                                   case _ => s.pending.Keys)
  {
  }

  /** What a read at `index` sees, where it does not fail. */
  function Lookup<V>(s: State<V>, index: nat): (r: Option<V>)
    requires s.b > 0 && (Enabled(s, Read(index)) ==> Safe(s, Read(index)))
  {
    if s.start <= index < s.start + s.length then s.cells[BlockOf(s, index)][index % s.b] else None
  }

  /** In every state that satisfies the invariant, each completed push is found at its own index with its own value. */
  lemma CompletedPushIsThere<V>(s: State<V>, index: nat)
    requires Inv(s) && index !in s.pending
    ensures Enabled(s, Read(index)) ==> Safe(s, Read(index))
    ensures Lookup(s, index) == if s.start <= index < |s.log| then Some(s.log[index]) else None
  {
    if s.start <= index < |s.log| {
      Locate(s.b, s.start, index, |s.cells|);
      FilledHasBlock(s, index);
      assert s.cells[BlockOf(s, index)][index % s.b] == SlotOf(s.start, Window(s), index);
    }
  }

  /** A pending index is empty, if its block is there. */
  lemma PendingIsEmpty<V>(s: State<V>, index: nat)
    requires Inv(s) && index in s.pending && index < TopOf(s)
    ensures Safe(s, Read(index)) && Lookup(s, index) == None
  {
    ReadIsSafeIff(s, index);
    Locate(s.b, s.start, index, |s.cells|);
    assert s.cells[BlockOf(s, index)][index % s.b] == SlotOf(s.start, Window(s), index);
  }

  lemma {:induction false} RunInv<V>(states: seq<State<V>>, steps: seq<Step<V>>)
    requires ProperRun(states, steps)
    ensures Inv(states[|steps|]) && |states[|steps|].log| == Reservations(steps)
    decreases |steps|
  {
    var n := |steps|;
    if n == 0 {
      InitialInv<V>(states[0].b);
    } else {
      RunInv(states[..n], steps[..n - 1]);
      assert Takes(states[n - 1], steps[n - 1], states[n]);
      StepKeeps(states[n - 1], steps[n - 1]);
    }
  }

  /**
    Over every run: indices are handed out without gaps or repetition, every index in the window is either pending
    or holds exactly the value it was given, and whatever proper step comes next cannot fail.
   */
  lemma EveryRun<V>(states: seq<State<V>>, steps: seq<Step<V>>, index: nat, next: Step<V>)
    requires ProperRun(states, steps)
    ensures var s := states[|steps|];
            && Inv(s)
            && |s.log| == s.start + s.length == Reservations(steps)
            && (s.start <= index < |s.log| && index !in s.pending ==>
                  Safe(s, Read(index)) && Lookup(s, index) == Some(s.log[index]))
            && (Enabled(s, next) && Proper(s, next) ==> Safe(s, next))
  {
    var s := states[|steps|];
    RunInv(states, steps);
    if index !in s.pending {
      CompletedPushIsThere(s, index);
    }
    if Enabled(s, next) && Proper(s, next) {
      EnabledIsSafe(s, next);
    }
  }

  function Reservations<V>(steps: seq<Step<V>>): nat {
    if steps == [] then 0
    else Reservations(steps[..|steps| - 1]) + if steps[|steps| - 1].Reserve? then 1 else 0
  }

  /** No step other than an overwrite of that very index changes what a filled slot in the window holds. */
  lemma FilledSlotIsStable<V>(s: State<V>, step: Step<V>, index: nat)
    requires Inv(s) && Enabled(s, step) && Proper(s, step) && Safe(s, step)
    requires s.start <= index < |s.log| && index !in s.pending && !(step.Overwrite? && step.index == index)
    ensures var s' := Next(s, step);
            s'.start <= index ==>
              && index !in s'.pending && Safe(s, Read(index)) && Safe(s', Read(index))
              && Lookup(s', index) == Lookup(s, index) == Some(s.log[index])
  {
    StepKeeps(s, step);
    CompletedPushIsThere(s, index);
    CompletedPushIsThere(Next(s, step), index);
  }

  // ---------------------------------------------------------------- removals that overtake a push

  /** A waiting push can still fill its slot, and is then found there. */
  ghost predicate CanComplete<V>(s: State<V>, p: nat) {
    && s.b > 0 && |s.log| == s.start + s.length && Enabled(s, SlowFill(p)) && Safe(s, SlowFill(p))
    && var s' := Next(s, SlowFill(p));
       && Enabled(s', Read(p)) && Safe(s', Read(p))
       && Lookup(s', p) == Some(s.pending[p].value)
  }

  /** The removal does not fail, and neither does any push that it finds waiting. */
  ghost predicate Harmless<V>(s: State<V>, index: nat)
    requires s.b > 0 && |s.log| == s.start + s.length && Enabled(s, RemoveBefore(index))
  {
    && Safe(s, RemoveBefore(index))
    && var s' := Next(s, RemoveBefore(index));
       forall p :: p in s.pending ==> CanComplete(s', p)
  }

  lemma WaitingCompletes<V>(s: State<V>, p: nat)
    requires Inv(s) && NoReader(s) && p in s.pending
    ensures CanComplete(s, p)
  {
    StepKeeps(s, SlowFill(p));
    CompletedPushIsThere(Next(s, SlowFill(p)), p);
  }

  lemma OvertakenIsLost<V>(s: State<V>, p: nat)
    requires p < s.start
    ensures !CanComplete(s, p)
  {
  }

  /** A removal that the deque's own check admits is harmless if and only if it reaches no pending index. */
  lemma RemovalIsHarmlessIff<V>(s: State<V>, index: nat)
    requires Inv(s) && Enabled(s, RemoveBefore(index))
    ensures Harmless(s, index) <==> forall p :: p in s.pending ==> index <= p
  {
    if forall p :: p in s.pending ==> index <= p {
      StepKeeps(s, RemoveBefore(index));
      var s' := Next(s, RemoveBefore(index));
      forall p | p in s.pending ensures CanComplete(s', p) {
        WaitingCompletes(s', p);
      }
    } else if Safe(s, RemoveBefore(index)) {
      var p :| p in s.pending && p < index;
      OvertakenIsLost(Next(s, RemoveBefore(index)), p);
    }
  }

  /**
    What becomes of a push that a removal has overtaken: in an earlier block than the new start its block index
    underflows; in the same block it is written below the window, where no read reaches it.
   */
  lemma OvertakenPush<V>(s: State<V>, index: nat, p: nat)
    requires Inv(s) && Enabled(s, RemoveBefore(index)) && Safe(s, RemoveBefore(index))
    requires p in s.pending && p < index
    ensures var s' := Next(s, RemoveBefore(index));
            && Enabled(s', SlowFill(p)) && (p / s.b < index / s.b ==> !Safe(s', SlowFill(p)))
            && !Enabled(s', Read(p))
  {
  }

  // ---------------------------------------------------------------- the runs that fail

  lemma RunOneMore<V>(states: seq<State<V>>, steps: seq<Step<V>>, step: Step<V>, s: State<V>)
    requires Run(states, steps) && Takes(states[|steps|], step, s)
    ensures Run(states + [s], steps + [step])
  {
    var states', steps' := states + [s], steps + [step];
    forall k | 0 <= k < |steps'| ensures Takes(states'[k], steps'[k], states'[k + 1]) {
      if k < |steps| {
        assert Takes(states[k], steps[k], states[k + 1]);
      }
    }
  }

  /** A push that finds no block: it reserves, and lets go of the read lock. */
  lemma WaitingPush<V>(s: State<V>, v: V) returns (s': State<V>, s'': State<V>)
    requires Inv(s) && NoReader(s) && s.start + s.length >= TopOf(s)
    ensures Takes(s, Reserve(v), s') && Takes(s', Release(s.start + s.length), s'')
    ensures Inv(s'') && NoReader(s'') && s''.b == s.b && s''.cells == s.cells
    ensures s''.start == s.start && s''.length == s.length + 1
    ensures s''.pending == s.pending[s.start + s.length := Waiting(v)]
  {
    var i := s.start + s.length;
    StepKeeps(s, Reserve(v));
    s' := Next(s, Reserve(v));
    Locate(s.b, s.start, i, |s.cells|);
    StepKeeps(s', Release(i));
    s'' := Next(s', Release(i));
  }

  /** Nothing is allocated yet, and `n` pushes have their index and wait for the write lock. */
  ghost predicate AllWaiting<V>(s: State<V>, b: nat, n: nat) {
    && Inv(s) && NoReader(s) && s.b == b && s.cells == [] && s.start == 0 && s.length == n
    && forall i :: 0 <= i < n ==> i in s.pending
  }

  /** Any number of pushes may come to wait before the first of them gets the write lock. */
  lemma {:induction false} ManyWait<V>(b: nat, v: V, n: nat) returns (states: seq<State<V>>, steps: seq<Step<V>>)
    requires b > 0
    ensures Run(states, steps) && AllWaiting(states[|steps|], b, n)
  {
    if n == 0 {
      InitialInv<V>(b);
      states, steps := [Initial(b)], [];
    } else {
      states, steps := ManyWait(b, v, n - 1);
      var s1, s2 := WaitingPush(states[|steps|], v);
      RunOneMore(states, steps, Reserve(v), s1);
      states, steps := states + [s1], steps + [Reserve(v)];
      RunOneMore(states, steps, Release(n - 1), s2);
      states, steps := states + [s2], steps + [Release(n - 1)];
    }
  }

  /**
    For every block size, a run that ends before a removal below the last reserved index, as the store's compaction
    may ask for, that fails: two pushes have their index, and the block is yet to be allocated.
   */
  lemma CompactionCanOvertake<V>(b: nat, v: V) returns (states: seq<State<V>>, steps: seq<Step<V>>)
    requires b > 0
    ensures Run(states, steps)
    ensures var s := states[|steps|];
            s.b == b && s.length == 2 && Enabled(s, RemoveBefore(1)) && !Safe(s, RemoveBefore(1))
  {
    states, steps := ManyWait(b, v, 2);
    RemoveIsSafeIff(states[|steps|], 1);
  }

  /**
    For every block size, a run in which the removal succeeds and a push that was waiting fails afterwards: the first
    of b + 1 pushes still waits when the last is filled and the first block is removed.
   */
  lemma OvertakenPushFails<V>(b: nat, v: V) returns (states: seq<State<V>>, steps: seq<Step<V>>)
    requires b > 0
    ensures Run(states, steps) && |steps| > 0 && steps[|steps| - 1] == RemoveBefore(b)
    ensures states[|steps|].b == b
    ensures Enabled(states[|steps|], SlowFill(0)) && !Safe(states[|steps|], SlowFill(0))
  {
    states, steps := ManyWait(b, v, b + 1);
    var s := states[|steps|];
    StepKeeps(s, SlowFill(b));
    var s1 := Next(s, SlowFill(b));
    FilledHasBlock(s1, b);
    RemoveIsSafeIff(s1, b);
    OvertakenPush(s1, b, 0);
    RunOneMore(states, steps, SlowFill(b), s1);
    states, steps := states + [s1], steps + [SlowFill(b)];
    RunOneMore(states, steps, RemoveBefore(b), Next(s1, RemoveBefore(b)));
    states, steps := states + [Next(s1, RemoveBefore(b))], steps + [RemoveBefore(b)];
  }
}
