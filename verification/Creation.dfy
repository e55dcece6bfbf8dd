/**
  Concurrent calls of set for one key. A call looks the key up and then, in later steps, writes through the item that it
  found, or, having found none, reserves a revision, builds an item and enters it into the index and into the map of
  keys. Nothing keeps a second call from finding none in the meantime.
 */
module Creation {
  import opened Wrappers
  import History

  type Data = History.Data

  /** Where a call stands: it has found an item, or none, has built one, has entered it into the index, or is back. */
  datatype Phase = Found | Absent | Built | InIndex | Returned(rev: Option<nat>)

  /** `creates` is set when the lookup finds no item and one will be made; `item` is the one found or made. */
  datatype Call = Call(value: Option<Data>, required: int, creates: bool, item: Option<nat>, phase: Phase)

  /**
    `log` holds the value of each revision, `items` the revisions listed in each item ever made, and `index` and `tree`
    are the items that the index and the map of keys hold.
   */
  datatype State = State(log: seq<Option<Data>>, items: seq<seq<nat>>, index: Option<nat>, tree: Option<nat>,
                         calls: seq<Call>)

  datatype Step =
    | Lookup(value: Option<Data>, required: int)
    | Finish(call: nat)      // writes, or refuses to write, under the lock of the item
    | Build(call: nat)
    | EnterIndex(call: nat)
    | EnterTree(call: nat)
    | Other(value: Option<Data>)   // a write of another key

  function Init(): State { State([], [], None, None, []) }

  /** A lookup that finds no item will make one, unless the requirement or the delete says otherwise. */
  predicate WillCreate(s: State, step: Step) { step.Lookup? && s.tree.None? && step.required <= 0 && step.value.Some? }

  function Last(revs: seq<nat>): nat
    requires revs != []
  {
    revs[|revs| - 1]
  }

  /** The value under a revision. */
  function ValueOf(log: seq<Option<Data>>, r: nat): Option<Data> { if 0 < r <= |log| then log[r - 1] else None }

  /** Whether a write may follow revision `last` of the item. */
  predicate Admits(log: seq<Option<Data>>, last: nat, value: Option<Data>, required: int) {
    if ValueOf(log, last).Some? then required < 0 || required == last else required <= 0 && value.Some?
  }

  predicate At(s: State, c: nat, phase: Phase) { c < |s.calls| && s.calls[c].phase == phase }

  predicate HasItem(s: State, c: nat) {
    c < |s.calls| && s.calls[c].item.Some? && s.calls[c].item.value < |s.items| && s.items[s.calls[c].item.value] != []
  }

  predicate Enabled(s: State, step: Step) {
    match step
    case Lookup(_, _) => true
    case Finish(c) => At(s, c, Found) && HasItem(s, c)
    case Build(c) => At(s, c, Absent)
    case EnterIndex(c) => At(s, c, Built) && HasItem(s, c)
    case EnterTree(c) => At(s, c, InIndex) && HasItem(s, c)
    case Other(_) => true
  }

  function Looked(s: State, value: Option<Data>, required: int): Call {
    if s.tree.Some? then Call(value, required, false, s.tree, Found)
    else if WillCreate(s, Lookup(value, required)) then Call(value, required, true, None, Absent)
    else Call(value, required, false, None, Returned(None))
  }

  function Next(s: State, step: Step): State
    requires Enabled(s, step)
  {
    var n := |s.log| + 1;
    match step
    case Lookup(value, required) => s.(calls := s.calls + [Looked(s, value, required)])
    case Finish(c) =>
      var call := s.calls[c];
      var i := call.item.value;
      if Admits(s.log, Last(s.items[i]), call.value, call.required) then
        s.(log := s.log + [call.value], items := s.items[i := s.items[i] + [n]],
           calls := s.calls[c := call.(phase := Returned(Some(n)))])
      else s.(calls := s.calls[c := call.(phase := Returned(None))])
    case Build(c) =>
      var call := s.calls[c];
      s.(log := s.log + [call.value], items := s.items + [[n]],
         calls := s.calls[c := call.(phase := Built, item := Some(|s.items|))])
    case EnterIndex(c) => s.(index := s.calls[c].item, calls := s.calls[c := s.calls[c].(phase := InIndex)])
    case EnterTree(c) =>
      var call := s.calls[c];
      s.(tree := call.item, calls := s.calls[c := call.(phase := Returned(Some(s.items[call.item.value][0])))])
    case Other(value) => s.(log := s.log + [value])
  }

  // ---------------------------------------------------------------- what every step keeps

  ghost predicate Increasing(revs: seq<nat>) { forall a, b :: 0 <= a < b < |revs| ==> revs[a] < revs[b] }

  ghost predicate ItemOk(log: seq<Option<Data>>, revs: seq<nat>) {
    revs != [] && Increasing(revs) && forall a :: 0 <= a < |revs| ==> 0 < revs[a] <= |log|
  }

  /** No revision is listed in two items. */
  ghost predicate Apart(items: seq<seq<nat>>) {
    forall i, j, r {:trigger r in items[i], r in items[j]} ::
      0 <= i < |items| && 0 <= j < |items| && r in items[i] && r in items[j] ==> i == j
  }

  ghost predicate ItemsOk(s: State) {
    && (forall i {:trigger s.items[i]} :: 0 <= i < |s.items| ==> ItemOk(s.log, s.items[i]))
    && Apart(s.items)
    && (s.tree.Some? ==> s.tree.value < |s.items| && s.index.Some?)
    && (s.index.Some? ==> s.index.value < |s.items|)
  }

  /** The write of the call is at position `q` of its item, and was admitted after the one before it. */
  ghost predicate Wrote(log: seq<Option<Data>>, call: Call, revs: seq<nat>, q: nat) {
    && q < |revs| && ValueOf(log, revs[q]) == call.value && (q == 0 <==> call.creates)
    && if q == 0 then call.required <= 0 && call.value.Some?
       else Admits(log, revs[q - 1], call.value, call.required)
  }

  ghost predicate CallOk(s: State, call: Call) {
    && (call.item.Some? ==> call.item.value < |s.items|)
    && (call.creates ==> call.required <= 0 && call.value.Some?)
    && match call.phase
       case Found => !call.creates && call.item.Some? && s.tree.Some?
       case Absent => call.creates && call.item.None?
       case Built => call.creates && call.item.Some? && Wrote(s.log, call, s.items[call.item.value], 0)
       case InIndex =>
         && call.creates && call.item.Some? && s.index.Some?
         && Wrote(s.log, call, s.items[call.item.value], 0)
       case Returned(None) => !call.creates
       case Returned(Some(r)) =>
         && call.item.Some? && s.tree.Some?
         && exists q: nat :: Wrote(s.log, call, s.items[call.item.value], q) && s.items[call.item.value][q] == r
  }

  ghost predicate CallsOk(s: State) {
    forall c {:trigger s.calls[c]} :: 0 <= c < |s.calls| ==> CallOk(s, s.calls[c])
  }

  /** Two calls do not make the same item, and do not write the same revision. */
  ghost predicate CallsApart(calls: seq<Call>) {
    forall c, d {:trigger calls[c], calls[d]} :: 0 <= c < d < |calls| ==>
      && (calls[c].creates && calls[d].creates && calls[c].item.Some? ==> calls[c].item != calls[d].item)
      && (calls[c].phase.Returned? && calls[c].phase.rev.Some? ==> calls[c].phase != calls[d].phase)
  }

  predicate Made(s: State, i: nat, c: nat) { c < |s.calls| && s.calls[c].creates && s.calls[c].item == Some(i) }

  ghost predicate IsMade(s: State, i: nat) { exists c :: Made(s, i, c) }

  /** Every item was made by a call. */
  ghost predicate AllMade(s: State) { forall i {:trigger IsMade(s, i)} :: 0 <= i < |s.items| ==> IsMade(s, i) }

  ghost predicate Core(s: State) { ItemsOk(s) && CallsOk(s) && CallsApart(s.calls) }

  ghost predicate Inv(s: State) { Core(s) && AllMade(s) }

  /** Values stay, items grow at their end, and the map of keys keeps having the key. */
  ghost predicate Grows(s: State, s': State) {
    && s.log <= s'.log && |s.items| <= |s'.items|
    && (s.tree.Some? ==> s'.tree.Some?) && (s.index.Some? ==> s'.index.Some?)
    && forall i {:trigger s'.items[i]} :: 0 <= i < |s.items| ==> s.items[i] <= s'.items[i]
  }

  lemma WroteGrows(log: seq<Option<Data>>, log': seq<Option<Data>>, call: Call, revs: seq<nat>, revs': seq<nat>, q: nat)
    requires Wrote(log, call, revs, q) && ItemOk(log, revs) && log <= log' && revs <= revs'
    ensures Wrote(log', call, revs', q) && revs'[q] == revs[q]
  {
    assert revs'[q] == revs[q] && (q > 0 ==> revs'[q - 1] == revs[q - 1]);
  }

  lemma CallGrows(s: State, s': State, call: Call)
    requires ItemsOk(s) && CallOk(s, call) && Grows(s, s')
    ensures CallOk(s', call)
  {
    if call.item.Some? {
      var i := call.item.value;
      assert s.items[i] <= s'.items[i] && ItemOk(s.log, s.items[i]);
      if call.phase.Built? || call.phase.InIndex? {
        WroteGrows(s.log, s'.log, call, s.items[i], s'.items[i], 0);
      } else if call.phase.Returned? && call.phase.rev.Some? {
        var q: nat :| Wrote(s.log, call, s.items[i], q) && s.items[i][q] == call.phase.rev.value;
        WroteGrows(s.log, s'.log, call, s.items[i], s'.items[i], q);
      }
    }
  }

  /** Only one call changes. */
  lemma OneCallChanges(s: State, s': State, c: nat, call: Call)
    requires ItemsOk(s) && CallsOk(s) && Grows(s, s') && c < |s.calls| && s'.calls == s.calls[c := call]
    requires CallOk(s', call)
    ensures CallsOk(s')
  {
    forall d | 0 <= d < |s'.calls| ensures CallOk(s', s'.calls[d]) {
      if d != c {
        CallGrows(s, s', s.calls[d]);
      }
    }
  }

  lemma MadeStays(s: State, step: Step, i: nat, c: nat)
    requires Enabled(s, step) && CallsOk(s) && Made(s, i, c)
    ensures Made(Next(s, step), i, c)
  {
    assert CallOk(s, s.calls[c]);
  }

  lemma KeepsMade(s: State, step: Step)
    requires Enabled(s, step) && CallsOk(s) && AllMade(s)
    ensures AllMade(Next(s, step))
  {
    var s' := Next(s, step);
    forall i | 0 <= i < |s'.items| ensures IsMade(s', i) {
      if i < |s.items| {
        assert IsMade(s, i);
        var c :| Made(s, i, c);
        MadeStays(s, step, i, c);
      } else {
        assert CallOk(s, s.calls[step.call]);
        assert Made(s', i, step.call);
      }
    }
  }

  lemma LookupKeeps(s: State, value: Option<Data>, required: int)
    requires Inv(s)
    ensures Core(Next(s, Lookup(value, required)))
  {
    var s' := Next(s, Lookup(value, required));
    forall d | 0 <= d < |s'.calls| ensures CallOk(s', s'.calls[d]) {
      if d < |s.calls| {
        CallGrows(s, s', s.calls[d]);
      }
    }
  }

  lemma OtherKeeps(s: State, value: Option<Data>)
    requires Inv(s)
    ensures Core(Next(s, Other(value)))
  {
    var s' := Next(s, Other(value));
    forall i | 0 <= i < |s'.items| ensures ItemOk(s'.log, s'.items[i]) {
      assert ItemOk(s.log, s.items[i]);
    }
    forall d | 0 <= d < |s'.calls| ensures CallOk(s', s'.calls[d]) {
      CallGrows(s, s', s.calls[d]);
    }
  }

  lemma NewRevision(s: State, i: nat)
    requires ItemsOk(s) && i < |s.items|
    ensures |s.log| + 1 !in s.items[i]
  {
    assert ItemOk(s.log, s.items[i]);
  }

  /** A new revision at the end of one item, or as a new item, keeps the items in order. */
  lemma ItemsGrow(s: State, s': State, i: nat, value: Option<Data>)
    requires ItemsOk(s) && i <= |s.items| && s'.log == s.log + [value]
    requires s'.tree == s.tree && s'.index == s.index
    requires s'.items == if i < |s.items| then s.items[i := s.items[i] + [|s.log| + 1]] else s.items + [[|s.log| + 1]]
    ensures ItemsOk(s') && Grows(s, s')
  {
    var n := |s.log| + 1;
    forall j | 0 <= j < |s.items| ensures n !in s.items[j] && ItemOk(s.log, s.items[j]) {
      NewRevision(s, j);
    }
    forall j | 0 <= j < |s'.items| ensures ItemOk(s'.log, s'.items[j]) {
      assert j < |s.items| ==> ItemOk(s.log, s.items[j]);
    }
    forall j, k, r | 0 <= j < |s'.items| && 0 <= k < |s'.items| && r in s'.items[j] && r in s'.items[k]
      ensures j == k
    {
      assert r != n ==> r in s.items[j] && r in s.items[k];
    }
  }

  lemma ReturnedIsOld(s: State, c: nat)
    requires ItemsOk(s) && CallsOk(s) && c < |s.calls| && s.calls[c].phase.Returned? && s.calls[c].phase.rev.Some?
    ensures s.calls[c].phase.rev.value <= |s.log|
  {
    var call := s.calls[c];
    assert CallOk(s, call);
    var i := call.item.value;
    assert ItemOk(s.log, s.items[i]);
  }

  lemma FinishKeeps(s: State, c: nat)
    requires Inv(s) && Enabled(s, Finish(c))
    ensures Core(Next(s, Finish(c)))
  {
    var s', call := Next(s, Finish(c)), s.calls[c];
    var i := call.item.value;
    assert CallOk(s, call) && ItemOk(s.log, s.items[i]);
    if Admits(s.log, Last(s.items[i]), call.value, call.required) {
      ItemsGrow(s, s', i, call.value);
      var q := |s.items[i]|;
      assert Wrote(s'.log, s'.calls[c], s'.items[i], q) && s'.items[i][q] == |s.log| + 1;
      forall d | 0 <= d < |s.calls| && s.calls[d].phase.Returned? && s.calls[d].phase.rev.Some?
        ensures s.calls[d].phase.rev.value <= |s.log|
      {
        ReturnedIsOld(s, d);
      }
    }
    OneCallChanges(s, s', c, s'.calls[c]);
  }

  lemma BuildKeeps(s: State, c: nat)
    requires Inv(s) && Enabled(s, Build(c))
    ensures Core(Next(s, Build(c)))
  {
    var s', call := Next(s, Build(c)), s.calls[c];
    assert CallOk(s, call);
    ItemsGrow(s, s', |s.items|, call.value);
    OneCallChanges(s, s', c, s'.calls[c]);
    forall d | 0 <= d < |s.calls| ensures s.calls[d].item != Some(|s.items|) {
      assert CallOk(s, s.calls[d]);
    }
  }

  lemma IndexKeeps(s: State, c: nat)
    requires Inv(s) && Enabled(s, EnterIndex(c))
    ensures Core(Next(s, EnterIndex(c)))
  {
    var s', call := Next(s, EnterIndex(c)), s.calls[c];
    assert CallOk(s, call);
    OneCallChanges(s, s', c, s'.calls[c]);
  }

  /** The first revision of an item was written by the call that made it. */
  lemma FirstIsMade(s: State, c: nat, i: nat)
    requires ItemsOk(s) && CallsOk(s) && c < |s.calls| && i < |s.items|
    requires s.calls[c].phase == Returned(Some(s.items[i][0]))
    ensures s.calls[c].creates && s.calls[c].item == Some(i)
  {
    var call := s.calls[c];
    assert CallOk(s, call) && ItemOk(s.log, s.items[i]);
    var j, r := call.item.value, s.items[i][0];
    var q: nat :| Wrote(s.log, call, s.items[j], q) && s.items[j][q] == r;
    assert r in s.items[i] && r in s.items[j];
    assert Increasing(s.items[i]);
  }

  lemma TreeKeeps(s: State, c: nat)
    requires Inv(s) && Enabled(s, EnterTree(c))
    ensures Core(Next(s, EnterTree(c)))
  {
    var s', call := Next(s, EnterTree(c)), s.calls[c];
    assert CallOk(s, call);
    OneCallChanges(s, s', c, s'.calls[c]);
    forall d | 0 <= d < |s.calls| && d != c ensures s.calls[d].phase != s'.calls[c].phase {
      if s.calls[d].phase == s'.calls[c].phase {
        FirstIsMade(s, d, call.item.value);
      }
    }
  }

  /**
    Exactly when the call that has the lock of its item goes through, and what it then does: the last revision of the
    item decides, as the value there or its absence.
   */
  lemma FinishIff(s: State, c: nat)
    requires Inv(s) && Enabled(s, Finish(c))
    ensures var call, s' := s.calls[c], Next(s, Finish(c));
            var i, n := call.item.value, |s.log| + 1;
            var last := s.items[i][|s.items[i]| - 1];
            var goes := if s.log[last - 1].Some? then call.required < 0 || call.required == last
                        else call.required <= 0 && call.value.Some?;
            && 0 < last <= |s.log| && s'.index == s.index && s'.tree == s.tree
            && |s'.calls| == |s.calls| && s'.calls[c].phase == Returned(if goes then Some(n) else None)
            && s'.log == (if goes then s.log + [call.value] else s.log)
            && s'.items == (if goes then s.items[i := s.items[i] + [n]] else s.items)
  {
    assert ItemOk(s.log, s.items[s.calls[c].item.value]);
  }

  lemma StepKeeps(s: State, step: Step)
    requires Inv(s) && Enabled(s, step)
    ensures Inv(Next(s, step))
  {
    KeepsMade(s, step);
    match step
    case Lookup(value, required) => LookupKeeps(s, value, required);
    case Finish(c) => FinishKeeps(s, c);
    case Build(c) => BuildKeeps(s, c);
    case EnterIndex(c) => IndexKeeps(s, c);
    case EnterTree(c) => TreeKeeps(s, c);
    case Other(value) => OtherKeeps(s, value);
  }

  // ---------------------------------------------------------------- every run

  ghost predicate Run(states: seq<State>, steps: seq<Step>) {
    && |states| == |steps| + 1 && states[0] == Init()
    && forall k :: 0 <= k < |steps| ==> Enabled(states[k], steps[k]) && states[k + 1] == Next(states[k], steps[k])
  }

  lemma {:induction false} RunInv(states: seq<State>, steps: seq<Step>)
    requires Run(states, steps)
    ensures Inv(states[|steps|])
    decreases |steps|
  {
    var n := |steps|;
    if n > 0 {
      RunInv(states[..n], steps[..n - 1]);
      StepKeeps(states[n - 1], steps[n - 1]);
    }
  }

  /** The key is being created. */
  predicate Underway(s: State) { exists c :: 0 <= c < |s.calls| && s.calls[c].creates && !s.calls[c].phase.Returned? }

  /** At some point a call begins to create the key while another one has not finished creating it. */
  ghost predicate Overlaps(states: seq<State>, steps: seq<Step>)
    requires |states| == |steps| + 1
  {
    exists k :: 0 <= k < |steps| && WillCreate(states[k], steps[k]) && Underway(states[k])
  }

  ghost predicate OneCreator(s: State) {
    forall c, d :: 0 <= c < |s.calls| && 0 <= d < |s.calls| && s.calls[c].creates && s.calls[d].creates ==> c == d
  }

  /** Before the key is there, whoever creates it is still at it. */
  lemma CreatorIsUnderway(s: State, c: nat)
    requires Inv(s) && s.tree.None? && c < |s.calls| && s.calls[c].creates
    ensures Underway(s)
  {
    assert CallOk(s, s.calls[c]);
  }

  lemma CreatorsStay(s: State, step: Step)
    requires Enabled(s, step)
    ensures var s' := Next(s, step);
            && |s.calls| <= |s'.calls|
            && (forall c :: 0 <= c < |s.calls| ==> s'.calls[c].creates == s.calls[c].creates)
            && (forall c :: |s.calls| <= c < |s'.calls| ==>
                  c == |s.calls| && s'.calls[c].creates == WillCreate(s, step))
            && (WillCreate(s, step) ==> |s'.calls| == |s.calls| + 1)
  {
  }

  lemma OneMoreCreator(s: State, step: Step)
    requires Inv(s) && Enabled(s, step)
    ensures OneCreator(Next(s, step)) <==> OneCreator(s) && !(WillCreate(s, step) && Underway(s))
  {
    var s' := Next(s, step);
    CreatorsStay(s, step);
    if WillCreate(s, step) {
      assert s'.calls[|s.calls|].creates;
      if c :| 0 <= c < |s.calls| && s.calls[c].creates {
        CreatorIsUnderway(s, c);
        assert s'.calls[c].creates;
      }
    }
  }

  lemma OneMoreStep(states: seq<State>, steps: seq<Step>)
    requires |states| == |steps| + 1 && steps != []
    ensures var n := |steps|;
            Overlaps(states, steps) <==>
              || Overlaps(states[..n], steps[..n - 1])
              || (WillCreate(states[n - 1], steps[n - 1]) && Underway(states[n - 1]))
  {
    var n := |steps|;
    if k :| 0 <= k < n && WillCreate(states[k], steps[k]) && Underway(states[k]) {
      assert k < n - 1 ==> WillCreate(states[..n][k], steps[..n - 1][k]) && Underway(states[..n][k]);
    }
    if k :| 0 <= k < n - 1 && WillCreate(states[..n][k], steps[..n - 1][k]) && Underway(states[..n][k]) {
      assert WillCreate(states[k], steps[k]) && Underway(states[k]);
    }
  }

  /** More than one call creates the key if and only if two creations overlap. */
  lemma {:induction false} CreatorsIff(states: seq<State>, steps: seq<Step>)
    requires Run(states, steps)
    ensures OneCreator(states[|steps|]) <==> !Overlaps(states, steps)
    decreases |steps|
  {
    var n := |steps|;
    if n > 0 {
      CreatorsIff(states[..n], steps[..n - 1]);
      RunInv(states[..n], steps[..n - 1]);
      OneMoreCreator(states[n - 1], steps[n - 1]);
      OneMoreStep(states, steps);
    }
  }

  ghost predicate AtRest(s: State) { forall c :: 0 <= c < |s.calls| ==> s.calls[c].phase.Returned? }

  /** The item lists the revision. */
  predicate In(s: State, item: Option<nat>, r: nat) {
    item.Some? && item.value < |s.items| && r in s.items[item.value]
  }

  /** Every acknowledged write is listed both in the item that the map of keys holds and in that of the index. */
  ghost predicate NothingLost(s: State) {
    forall c :: 0 <= c < |s.calls| && s.calls[c].phase.Returned? && s.calls[c].phase.rev.Some? ==>
      In(s, s.tree, s.calls[c].phase.rev.value) && In(s, s.index, s.calls[c].phase.rev.value)
  }

  lemma OneItem(s: State, i: nat, j: nat)
    requires Inv(s) && OneCreator(s) && i < |s.items| && j < |s.items|
    ensures i == j
  {
    assert IsMade(s, i) && IsMade(s, j);
    var c :| Made(s, i, c);
    var d :| Made(s, j, d);
  }

  lemma CreatorReturned(s: State, c: nat)
    requires Inv(s) && c < |s.calls| && s.calls[c].creates && s.calls[c].phase.Returned?
    ensures s.calls[c].item.Some? && s.calls[c].item.value < |s.items|
    ensures s.calls[c].phase.rev.Some? && s.calls[c].phase.rev.value in s.items[s.calls[c].item.value]
  {
    assert CallOk(s, s.calls[c]);
  }

  lemma NothingLostIfOne(s: State)
    requires Inv(s) && OneCreator(s)
    ensures NothingLost(s)
  {
    forall c | 0 <= c < |s.calls| && s.calls[c].phase.Returned? && s.calls[c].phase.rev.Some?
      ensures In(s, s.tree, s.calls[c].phase.rev.value) && In(s, s.index, s.calls[c].phase.rev.value)
    {
      assert CallOk(s, s.calls[c]);
      OneItem(s, s.calls[c].item.value, s.tree.value);
      OneItem(s, s.calls[c].item.value, s.index.value);
    }
  }

  lemma LostIfTwo(s: State, c: nat, d: nat)
    requires Inv(s) && AtRest(s) && c < d < |s.calls| && s.calls[c].creates && s.calls[d].creates
    ensures !NothingLost(s)
  {
    CreatorReturned(s, c);
    CreatorReturned(s, d);
    assert s.calls[c].item != s.calls[d].item;
  }

  /**
    In every run that has come to rest, the map of keys and the index both lead to all acknowledged writes of the key if
    and only if no two creations of the key overlapped.
   */
  lemma NothingLostIff(states: seq<State>, steps: seq<Step>)
    requires Run(states, steps) && AtRest(states[|steps|])
    ensures NothingLost(states[|steps|]) <==> !Overlaps(states, steps)
  {
    var s := states[|steps|];
    RunInv(states, steps);
    CreatorsIff(states, steps);
    if OneCreator(s) {
      NothingLostIfOne(s);
    } else {
      var c, d :| 0 <= c < |s.calls| && 0 <= d < |s.calls| && s.calls[c].creates && s.calls[d].creates && c != d;
      if c < d {
        LostIfTwo(s, c, d);
      } else {
        LostIfTwo(s, d, c);
      }
    }
  }

  // ---------------------------------------------------------------- puts that name a revision

  /** The call is a put that named `m` and was given revision `r`. */
  predicate Put(s: State, c: nat, m: int, r: nat) {
    c < |s.calls| && s.calls[c].value.Some? && s.calls[c].required == m && s.calls[c].phase == Returned(Some(r))
  }

  lemma WhereWritten(s: State, c: nat, m: int, r: nat) returns (i: nat, q: nat)
    requires Inv(s) && Put(s, c, m, r)
    ensures s.calls[c].item == Some(i) && i < |s.items| && Wrote(s.log, s.calls[c], s.items[i], q) && s.items[i][q] == r
  {
    assert CallOk(s, s.calls[c]);
    i := s.calls[c].item.value;
    q :| Wrote(s.log, s.calls[c], s.items[i], q) && s.items[i][q] == r;
  }

  /** A put that names a positive revision follows that revision in its item. */
  lemma FollowsNamed(s: State, c: nat, m: int, i: nat, q: nat)
    requires c < |s.calls| && s.calls[c].required == m > 0
    requires i < |s.items| && Wrote(s.log, s.calls[c], s.items[i], q)
    ensures q > 0 && s.items[i][q - 1] == m
  {
  }

  lemma NamedOnce(s: State, c: nat, d: nat, m: int, r: nat, r': nat)
    requires Inv(s) && Put(s, c, m, r) && Put(s, d, m, r') && m > 0
    ensures c == d
  {
    var i, q := WhereWritten(s, c, m, r);
    var j, p := WhereWritten(s, d, m, r');
    FollowsNamed(s, c, m, i, q);
    FollowsNamed(s, d, m, j, p);
    assert m in s.items[i] && m in s.items[j];
    assert ItemOk(s.log, s.items[i]);
    SamePosition(s.items[i], q - 1, p - 1);
  }

  lemma SamePosition(revs: seq<nat>, a: nat, b: nat)
    requires Increasing(revs) && a < |revs| && b < |revs| && revs[a] == revs[b]
    ensures a == b
  {
  }

  /** Two puts on an absent key through one item have a delete in between. */
  lemma DeletedBetween(s: State, c: nat, d: nat, r: nat, r': nat) returns (p: nat)
    requires Inv(s) && Put(s, c, 0, r) && Put(s, d, 0, r') && r < r' && s.calls[c].item == s.calls[d].item
    ensures s.calls[c].item.Some? && s.calls[c].item.value < |s.items|
    ensures r < p < r' && p in s.items[s.calls[c].item.value] && ValueOf(s.log, p).None?
  {
    var i, q := WhereWritten(s, c, 0, r);
    var j, q' := WhereWritten(s, d, 0, r');
    assert ItemOk(s.log, s.items[i]);
    assert q < q';
    p := s.items[i][q' - 1];
  }

  /**
    No lost update, in every run of concurrent calls: two puts never both name the same revision m > 0 and succeed. If
    they both name 0, for an absent key, and no two creations overlapped, the key was deleted in between.
   */
  lemma NoLostUpdate(states: seq<State>, steps: seq<Step>, c: nat, d: nat, m: int, r: nat, r': nat)
    requires Run(states, steps) && m >= 0 && r < r'
    requires Put(states[|steps|], c, m, r) && Put(states[|steps|], d, m, r')
    ensures m == 0
    ensures !Overlaps(states, steps) ==>
              var s := states[|steps|];
              exists p :: r < p < r' && In(s, s.tree, p) && ValueOf(s.log, p).None?
  {
    var s := states[|steps|];
    RunInv(states, steps);
    if m > 0 {
      NamedOnce(s, c, d, m, r, r');
    }
    if !Overlaps(states, steps) {
      CreatorsIff(states, steps);
      var i, q := WhereWritten(s, c, m, r);
      var j, q' := WhereWritten(s, d, m, r');
      assert CallOk(s, s.calls[c]);
      OneItem(s, i, j);
      OneItem(s, i, s.tree.value);
      var p := DeletedBetween(s, c, d, r, r');
      assert In(s, s.tree, p);
    }
  }

  // ---------------------------------------------------------------- two creations that overlap

  /** The two calls of the race; `value` is written. */
  function Racer(value: Data, item: Option<nat>, phase: Phase): Call { Call(Some(value), 0, true, item, phase) }

  lemma LookUpBoth(a: Data, b: Data)
    returns (s1: State, s2: State)
    ensures Next(Init(), Lookup(Some(a), 0)) == s1 && Next(s1, Lookup(Some(b), 0)) == s2
    ensures s2 == State([], [], None, None, [Racer(a, None, Absent), Racer(b, None, Absent)])
  {
    s1 := State([], [], None, None, [Racer(a, None, Absent)]);
    s2 := State([], [], None, None, [Racer(a, None, Absent), Racer(b, None, Absent)]);
  }

  lemma BuildBoth(a: Data, b: Data, s2: State) returns (s3: State, s4: State)
    requires s2 == State([], [], None, None, [Racer(a, None, Absent), Racer(b, None, Absent)])
    ensures Enabled(s2, Build(0)) && Next(s2, Build(0)) == s3
    ensures Enabled(s3, Build(1)) && Next(s3, Build(1)) == s4
    ensures s4 == Raced(a, b, None, None, Built, Built)
  {
    s3 := State([Some(a)], [[1]], None, None, [Racer(a, Some(0), Built), Racer(b, None, Absent)]);
    s4 := Raced(a, b, None, None, Built, Built);
  }

  /** Both items are made. */
  function Raced(a: Data, b: Data, index: Option<nat>, tree: Option<nat>, p: Phase, q: Phase): State {
    State([Some(a), Some(b)], [[1], [2]], index, tree, [Racer(a, Some(0), p), Racer(b, Some(1), q)])
  }

  lemma IndexBoth(a: Data, b: Data)
    ensures var s, s' := Raced(a, b, None, None, Built, Built), Raced(a, b, Some(0), None, InIndex, Built);
            Enabled(s, EnterIndex(0)) && Next(s, EnterIndex(0)) == s'
    ensures var s, s' := Raced(a, b, Some(0), None, InIndex, Built), Raced(a, b, Some(1), None, InIndex, InIndex);
            Enabled(s, EnterIndex(1)) && Next(s, EnterIndex(1)) == s'
  {
  }

  lemma TreeBoth(a: Data, b: Data, p: Phase, q: Phase)
    requires p == Returned(Some(1)) && q == Returned(Some(2))
    ensures var s, s' := Raced(a, b, Some(1), None, InIndex, InIndex), Raced(a, b, Some(1), Some(1), InIndex, q);
            Enabled(s, EnterTree(1)) && Next(s, EnterTree(1)) == s'
    ensures var s, s' := Raced(a, b, Some(1), Some(1), InIndex, q), Raced(a, b, Some(1), Some(0), p, q);
            Enabled(s, EnterTree(0)) && Next(s, EnterTree(0)) == s'
  {
  }

  /** The run so far, and one more step. */
  lemma Then(states: seq<State>, steps: seq<Step>, step: Step, s: State)
    returns (states': seq<State>, steps': seq<Step>)
    requires Run(states, steps) && Enabled(states[|steps|], step) && s == Next(states[|steps|], step)
    ensures Run(states', steps') && states'[|steps'|] == s
  {
    states', steps' := states + [s], steps + [step];
  }

  /**
    Two puts on an absent key look it up before either has created it: both are acknowledged, the map of keys ends up
    with one item and the index with the other, and neither lists both writes.
   */
  lemma CreationsRace(a: Data, b: Data) returns (states: seq<State>, steps: seq<Step>)
    ensures Run(states, steps) && AtRest(states[|steps|])
    ensures var s := states[|steps|];
            Put(s, 0, 0, 1) && Put(s, 1, 0, 2) && s.items == [[1], [2]] && s.tree == Some(0) && s.index == Some(1)
  {
    var s1, s2 := LookUpBoth(a, b);
    var s3, s4 := BuildBoth(a, b, s2);
    IndexBoth(a, b);
    TreeBoth(a, b, Returned(Some(1)), Returned(Some(2)));
    states, steps := [Init()], [];
    states, steps := Then(states, steps, Lookup(Some(a), 0), s1);
    states, steps := Then(states, steps, Lookup(Some(b), 0), s2);
    states, steps := Then(states, steps, Build(0), s3);
    states, steps := Then(states, steps, Build(1), s4);
    states, steps := Then(states, steps, EnterIndex(0), Raced(a, b, Some(0), None, InIndex, Built));
    states, steps := Then(states, steps, EnterIndex(1), Raced(a, b, Some(1), None, InIndex, InIndex));
    states, steps := Then(states, steps, EnterTree(1), Raced(a, b, Some(1), Some(1), InIndex, Returned(Some(2))));
    states, steps := Then(states, steps, EnterTree(0),
                          Raced(a, b, Some(1), Some(0), Returned(Some(1)), Returned(Some(2))));
  }
}
