/** The in-memory store: a map of keys, an index per prefix, and the values by revision. */
module Stores {
  import opened Wrappers
  import opened Bytes
  import opened KeyIndex
  import opened OrderedMap
  import opened History
  import opened Items
  import opened Catalog
  import opened Ranges
  import opened Changes
  import opened OffsetSeqs
  import opened BlockDeques

  /** What a caller may require of the key's current revision or version. */
  datatype SetRequired = SetRequired(lastRevision: Option<int>, version: Option<int>)

  function RequiredRevision(r: Option<SetRequired>): int {
    if r.Some? && r.value.lastRevision.Some? then r.value.lastRevision.value else -1
  }

  function RequiredVersion(r: Option<SetRequired>): int {
    if r.Some? && r.value.version.Some? then r.value.version.value else -1
  }

  type SetResult = Result<int, (int, Option<KeyValue>)>

  /** What a caller of set learns: the new revision, or the revision so far and the key as it is. */
  function SetAnswer(h: Log, op: Op): SetResult
    requires op.Set?
  {
    if Accepts(h, op) then Ok(|h| + 1)
    else
      var current := Current(h, op.key);
      Err((|h|, if current.Some? then Some(AsKeyValue(current.value, op.key)) else None))
  }

  /** What a set does and answers, in terms of the history alone. */
  ghost predicate SetMeans(s: State, key: Key, value: Option<Data>, required: Option<SetRequired>, r: SetResult,
                           s': State)
  {
    && (match r
        case Ok(rev) =>
          rev == |s.history| + 1 && s' == History.State.State(s.history + [Write(key, value)], s.compacted)
        case Err((rev, kv)) =>
          && rev == |s.history| && s' == s
          && match kv
             case Some(pair) => exists w :: LiveNow(s.history, key, w) && Tells(s.history, key, w, pair)
             case None => forall w :: !LiveNow(s.history, key, w))
    && (forall rev, version {:trigger Shows(s.history, key, rev, version)} :: Shows(s.history, key, rev, version) ==>
          (r.Ok? <==>
             && (value.Some? || rev != 0)
             && (required.Some? ==>
                   && (required.value.lastRevision.Some? && required.value.lastRevision.value >= 0 ==>
                         required.value.lastRevision.value == rev)
                   && (required.value.version.Some? && required.value.version.value >= 0 ==>
                         required.value.version.value == version))))
  }

  lemma AnswerTells(h: Log, key: Key)
    ensures match Current(h, key)
            case Some(v) => exists w :: LiveNow(h, key, w) && Tells(h, key, w, AsKeyValue(v, key))
            case None => forall w :: !LiveNow(h, key, w)
  {
    forall w ensures LiveNow(h, key, w) <==> Current(h, key).Some? && w == Current(h, key).value.modRevision {
      LiveNowIsCurrent(h, key, w);
    }
    if Current(h, key).Some? {
      PairTells(h, key, LastWrite(h, key, |h|));
    }
  }

  lemma SetIsRight(s: State, key: Key, value: Option<Data>, required: Option<SetRequired>)
    ensures var op := History.Op.Set(key, value, RequiredRevision(required), RequiredVersion(required));
            SetMeans(s, key, value, required, SetAnswer(s.history, op), Step(s, op))
  {
    AnswerTells(s.history, key);
    forall rev, version | Shows(s.history, key, rev, version)
      ensures Accepts(s.history,
                      History.Op.Set(key, value, RequiredRevision(required), RequiredVersion(required))) <==>
              && (value.Some? || rev != 0) && (RequiredRevision(required) < 0 || RequiredRevision(required) == rev)
              && (RequiredVersion(required) < 0 || RequiredVersion(required) == version)
    {
      SetSucceedsIff(s.history, key, value, RequiredRevision(required), RequiredVersion(required), rev, version);
    }
  }

  datatype RangeError = FutureRevision | Compacted | NotOnePrefix | RangePanicked

  /** A watch of a range is refused with the compacted revision, or panics. */
  datatype WatchError = Refused(compacted: int) | WatchPanicked

  datatype RangeResult = RangeResult(kvs: seq<KeyValue>, latestRev: int, count: int)

  /** Revision tracking for a single key; shared by the map of keys and the index. */
  class TreeItem {
    const key: Key
    var revisions: seq<nat>
    var latestValue: Value

    constructor (key: Key, revisions: seq<nat>, latestValue: Value)
      ensures this.key == key && this.revisions == revisions && this.latestValue == latestValue
    {
      this.key := key;
      this.revisions := revisions;
      this.latestValue := latestValue;
    }

    ghost function View(): Item
      reads this
    {
      Item(revisions, latestValue)
    }
  }

  class Store {
    var prefixMap: map<Key, Entries<TreeItem>>
    var treeMap: map<Key, TreeItem>
    const valuesByRevision: BlockDeque<Value>
    /** What the maps and the deque hold, with the history that they stand for. */
    ghost var tables: SoundTables

    ghost function State(): State
      reads this`tables
    {
      tables.state
    }

    /** The map of keys holds the items of the tables. */
    ghost predicate Held(t: SoundTables)
      reads this`treeMap, treeMap.Values
    {
      && treeMap.Keys == t.items.Keys
      && forall k :: k in treeMap ==> treeMap[k].key == k && treeMap[k].View() == t.items[k]
    }

    /** All items but that of `key` are those of the tables. */
    ghost predicate HeldBut(t: SoundTables, key: Key)
      reads this`treeMap, treeMap.Values
    {
      && treeMap.Keys == t.items.Keys
      && forall k :: k in treeMap && k != key ==> treeMap[k].key == k && treeMap[k].View() == t.items[k]
    }

    /** What the deque stands for. */
    ghost function Values(): OffsetSeq<Value>
      reads valuesByRevision
    {
      valuesByRevision.View()
    }

    /** The deque holds the values of the tables. */
    ghost predicate Stored(t: SoundTables)
      reads valuesByRevision, valuesByRevision.blocks
    {
      valuesByRevision.Valid() && Values() == t.values
    }

    ghost predicate Kept()
      reads this`treeMap, this`tables, treeMap.Values, valuesByRevision, valuesByRevision.blocks
    {
      Stored(tables) && Held(tables)
    }

    ghost predicate Valid()
      reads this, treeMap.Values, valuesByRevision, valuesByRevision.blocks
    {
      Kept() && Indexed(treeMap, prefixMap)
    }

    constructor (blockSize: nat)
      requires blockSize > 0
      ensures Valid() && State() == History.State.State([], 0) && fresh(valuesByRevision)
    {
      prefixMap := map[];
      treeMap := map[];
      valuesByRevision := new BlockDeque(blockSize);
      tables := Tables(History.State.State([], 0), map[], OffsetSeq(0, []));
    }

    method CurrentRevision() returns (r: nat)
      requires Values() == tables.values && valuesByRevision.length == |Values().items|
      ensures r == |State().history|
    {
      r := valuesByRevision.length + valuesByRevision.startOffset;
    }

    // -------------------------------------------------------------- set

    /** The maps and the deque now stand for these tables. */
    ghost method Adopt(t: SoundTables)
      requires Stored(t) && Held(t)
      modifies this`tables
      ensures Kept() && tables == t
    {
      tables := t;
    }

    /** Drops the revisions of one key that lie below the compaction point. */
    method Drain(item: TreeItem) returns (ghost d: nat)
      requires Increasing(item.revisions)
      modifies item`revisions
      ensures d <= |old(item.revisions)| && item.revisions == old(item.revisions)[d..]
      ensures forall i :: 0 <= i < d ==> old(item.revisions)[i] < Values().start
      ensures forall i :: 0 <= i < |item.revisions| ==> item.revisions[i] >= Values().start
    {
      var earliest := valuesByRevision.startOffset;
      d := 0;
      if (if item.revisions == [] then earliest else item.revisions[0]) < earliest {
        var earliestIdx := PartitionPoint(item.revisions, earliest);
        item.revisions := item.revisions[earliestIdx..];
        d := earliestIdx;
      }
    }

    /** Reserves the next revision with a placeholder, then stores the value under it. */
    method Record(latest: Value, value: Option<Data>) returns (newRev: nat, newValue: Value)
      requires valuesByRevision.Valid()
      modifies valuesByRevision, valuesByRevision.blocks
      ensures valuesByRevision.Valid()
      ensures newRev == old(Values()).End() + 1 && newValue == NextValue(latest, newRev, value)
      ensures Values() == old(Values()).Append(newValue)
      ensures forall a :: a in valuesByRevision.blocks ==> a in old(valuesByRevision.blocks) || fresh(a)
    {
      var index := valuesByRevision.Push(Value(0, 0, 1, None));
      assert forall i :: 0 <= i < |valuesByRevision.blocks| ==>
          valuesByRevision.blocks[i] in old(valuesByRevision.blocks) || fresh(valuesByRevision.blocks[i]);
      newRev := index + 1;
      newValue := NextValue(latest, newRev, value);
      var _ := valuesByRevision.Set(newRev - 1, newValue);
    }

    /** The effect of a write on the item and the values. */
    method Rewrite(item: TreeItem, value: Option<Data>) returns (newRev: nat, ghost d: nat)
      requires Increasing(item.revisions) && valuesByRevision.Valid() && HeldBut(tables, item.key)
      modifies valuesByRevision, valuesByRevision.blocks, item
      ensures valuesByRevision.Valid() && newRev == old(Values()).End() + 1
      ensures d <= |old(item.revisions)|
      ensures forall i :: 0 <= i < d ==> old(item.revisions)[i] < old(Values()).start
      ensures item.View() == NextItem(old(item.View()), newRev, value, d)
      ensures Values() == old(Values()).Append(item.latestValue) && HeldBut(tables, item.key)
      ensures forall a :: a in valuesByRevision.blocks ==> a in old(valuesByRevision.blocks) || fresh(a)
    {
      d := Drain(item);
      var newValue;
      newRev, newValue := Record(item.latestValue, value);
      item.latestValue := newValue;
      item.revisions := item.revisions + [newRev];
    }

    lemma HeldWith(t: SoundTables, t': SoundTables, item: TreeItem)
      requires HeldBut(t, item.key) && item.key in treeMap && treeMap[item.key] == item
      requires t'.items == t.items[item.key := item.View()]
      ensures Held(t')
    {
    }

    lemma HeldAlso(t: SoundTables, t': SoundTables, item: TreeItem)
      requires treeMap.Keys == t.items.Keys + {item.key} && treeMap[item.key] == item
      requires forall k :: k in t.items && k != item.key ==> treeMap[k].key == k && treeMap[k].View() == t.items[k]
      requires t'.items == t.items[item.key := item.View()]
      ensures Held(t')
    {
    }

    /** A write of a key that has an item. */
    method Update(item: TreeItem, value: Option<Data>) returns (newRev: nat)
      requires Kept() && item.key in treeMap && treeMap[item.key] == item
      modifies this`tables, item, valuesByRevision, valuesByRevision.blocks
      ensures Kept() && newRev == |State().history|
      ensures forall a :: a in valuesByRevision.blocks ==> a in old(valuesByRevision.blocks) || fresh(a)
      ensures State() == old(State()).(history := old(State()).history + [Write(item.key, value)])
    {
      RevisionsIncrease(tables, item.key);
      ghost var d;
      newRev, d := Rewrite(item, value);
      ghost var t := WriteKnownKey(tables, item.key, value, d);
      HeldWith(tables, t, item);
      Adopt(t);
    }

    /** Enters a new item into both maps. */
    method Enter(item: TreeItem)
      requires Indexed(treeMap, prefixMap) && item.key !in treeMap
      modifies this`prefixMap, this`treeMap
      ensures Indexed(treeMap, prefixMap) && treeMap == old(treeMap)[item.key := item]
    {
      IndexedInsert(treeMap, prefixMap, item.key, item);
      var prefix := PrefixOf(item.key);
      prefixMap := prefixMap[prefix := Insert(EntriesOf(prefixMap, prefix), SuffixOf(item.key), item)];
      treeMap := treeMap[item.key := item];
    }

    /** Builds the item of a new key. */
    method Make(key: Key, value: Option<Data>) returns (newRev: nat, item: TreeItem)
      requires Kept() && key !in treeMap
      modifies valuesByRevision, valuesByRevision.blocks
      ensures newRev == |State().history| + 1 && fresh(item) && item.key == key
      ensures item.View() == Item([newRev], Value(newRev, newRev, 1, value))
      ensures Stored(WriteNewKey(tables, key, value)) && Held(tables)
      ensures forall a :: a in valuesByRevision.blocks ==> a in old(valuesByRevision.blocks) || fresh(a)
    {
      var newValue;
      newRev, newValue := Record(Value(0, 0, 0, None), value);
      item := new TreeItem(key, [newRev], newValue);
    }

    /** The first write of a key. */
    method Create(key: Key, value: Option<Data>) returns (newRev: nat)
      requires Valid() && key !in treeMap
      modifies this, valuesByRevision, valuesByRevision.blocks
      ensures Valid() && newRev == |State().history|
      ensures forall a :: a in valuesByRevision.blocks ==> a in old(valuesByRevision.blocks) || fresh(a)
      ensures State() == old(State()).(history := old(State()).history + [Write(key, value)])
      ensures key in treeMap && fresh(treeMap[key]) && treeMap == old(treeMap)[key := treeMap[key]]
    {
      var item;
      newRev, item := Make(key, value);
      Enter(item);
      ghost var t := WriteNewKey(tables, key, value);
      HeldAlso(tables, t, item);
      Adopt(t);
    }

    /** Whether a write of a key that has an item is refused, and then with which pair. */
    method Refuses(item: TreeItem, value: Option<Data>, requiredLastRevision: int, requiredVersion: int)
      returns (refused: bool, kv: Option<KeyValue>)
      requires Held(tables) && item.key in treeMap && treeMap[item.key] == item
      ensures var op := History.Op.Set(item.key, value, requiredLastRevision, requiredVersion);
              if refused then
                SetAnswer(State().history, op) == Err((|State().history|, kv)) && Step(State(), op) == State()
              else
                && SetAnswer(State().history, op) == Ok(|State().history| + 1)
                && Step(State(), op) == State().(history := State().history + [Write(item.key, value)])
    {
      CurrentFromTables(tables, item.key);
      if item.latestValue.value.Some? {
        if (requiredLastRevision >= 0 && requiredLastRevision != item.latestValue.modRevision)
           || (requiredVersion >= 0 && requiredVersion != item.latestValue.version)
        {
          return true, Some(AsKeyValue(item.latestValue, item.key));
        }
      } else {
        if requiredLastRevision > 0 || requiredVersion > 0 {
          return true, None;
        }
        if value.None? {
          return true, None;
        }
      }
      return false, None;
    }

    /** The first write of a key, or the reason why there is none. */
    method SetNew(key: Key, value: Option<Data>, requiredLastRevision: int, requiredVersion: int)
      returns (r: SetResult)
      requires Valid() && key !in treeMap
      modifies this, valuesByRevision, valuesByRevision.blocks
      ensures Valid()
      ensures forall a :: a in valuesByRevision.blocks ==> a in old(valuesByRevision.blocks) || fresh(a)
      ensures var op := History.Op.Set(key, value, requiredLastRevision, requiredVersion);
              State() == Step(old(State()), op) && r == SetAnswer(old(State()).history, op)
    {
      var latestRev := CurrentRevision();
      CurrentFromTables(tables, key);
      if requiredLastRevision > 0 || requiredVersion > 0 {
        return Err((latestRev, None));
      }
      if value.None? {
        return Err((latestRev, None));
      }
      var newRev := Create(key, value);
      return Ok(newRev);
    }

    /** Writes a key that has an item, unless that is refused. */
    method SetKnown(item: TreeItem, value: Option<Data>, refused: bool, kv: Option<KeyValue>) returns (r: SetResult)
      requires Kept() && item.key in treeMap && treeMap[item.key] == item
      modifies this`tables, item, valuesByRevision, valuesByRevision.blocks
      ensures Kept()
      ensures forall a :: a in valuesByRevision.blocks ==> a in old(valuesByRevision.blocks) || fresh(a)
      ensures var h := old(State()).history;
              && r == (if refused then Err((|h|, kv)) else Ok(|h| + 1))
              && State() == if refused then old(State()) else old(State()).(history := h + [Write(item.key, value)])
    {
      if refused {
        var latestRev := CurrentRevision();
        return Err((latestRev, kv));
      }
      var newRev := Update(item, value);
      return Ok(newRev);
    }

    /** The same, with the index of keys, which stays as it is. */
    method SetIndexed(item: TreeItem, value: Option<Data>, refused: bool, kv: Option<KeyValue>) returns (r: SetResult)
      requires Valid() && item.key in treeMap && treeMap[item.key] == item
      modifies this`tables, item, valuesByRevision, valuesByRevision.blocks
      ensures Valid()
      ensures forall a :: a in valuesByRevision.blocks ==> a in old(valuesByRevision.blocks) || fresh(a)
      ensures var h := old(State()).history;
              && r == (if refused then Err((|h|, kv)) else Ok(|h| + 1))
              && State() == if refused then old(State()) else old(State()).(history := h + [Write(item.key, value)])
    {
      r := SetKnown(item, value, refused, kv);
    }

    /** Writes a key, or tells why not. */
    method Apply(key: Key, value: Option<Data>, requiredLastRevision: int, requiredVersion: int) returns (r: SetResult)
      requires Valid()
      modifies this, treeMap.Values, valuesByRevision, valuesByRevision.blocks
      ensures Valid()
      ensures forall a :: a in valuesByRevision.blocks ==> a in old(valuesByRevision.blocks) || fresh(a)
      ensures var op := History.Op.Set(key, value, requiredLastRevision, requiredVersion);
              State() == Step(old(State()), op) && r == SetAnswer(old(State()).history, op)
    {
      if key in treeMap {
        var refused, kv := Refuses(treeMap[key], value, requiredLastRevision, requiredVersion);
        r := SetIndexed(treeMap[key], value, refused, kv);
      } else {
        r := SetNew(key, value, requiredLastRevision, requiredVersion);
      }
    }

    /** Sets, or with None deletes, a key, if it meets the requirement. */
    method Set(key: Key, value: Option<Data>, required: Option<SetRequired>) returns (r: SetResult)
      requires Valid()
      modifies this, treeMap.Values, valuesByRevision, valuesByRevision.blocks
      ensures Valid()
      ensures forall a :: a in valuesByRevision.blocks ==> a in old(valuesByRevision.blocks) || fresh(a)
      ensures var op := History.Op.Set(key, value, RequiredRevision(required), RequiredVersion(required));
              State() == Step(old(State()), op) && r == SetAnswer(old(State()).history, op)
      ensures SetMeans(old(State()), key, value, required, r, State())
    {
      SetIsRight(State(), key, value, required);
      r := Apply(key, value, RequiredRevision(required), RequiredVersion(required));
    }

    // -------------------------------------------------------------- bookkeeping

    /** Every revision that is not compacted belongs to one key, and its value is stored under that revision. */
    lemma OneOwner(r: nat)
      requires Valid() && State().compacted < r <= |State().history|
      ensures var k := State().history[r - 1].key;
              && k in treeMap && r in treeMap[k].revisions
              && (forall k' :: k' in treeMap && r in treeMap[k'].revisions ==> k' == k)
              && Values().At(r - 1) == Some(ValueAt(State().history, r))
              && Values().At(r - 1).value.modRevision == r
    {
      var h, k := State().history, State().history[r - 1].key;
      assert Writes(h, k, r);
      RecordedAt(State(), tables.values, r);
      forall k' | k' in treeMap ensures Lists(h, State().compacted, k', treeMap[k'].revisions) {
        RevisionsListed(tables, k');
      }
    }

    /**
      The revisions of a key increase and end at that of its latest value, whose `create_revision` is the start of the
      current live run and whose `version` is the number of writes in it.
     */
    lemma ItemIsRight(k: Key)
      requires Valid() && k in treeMap
      ensures var h, revs, latest := State().history, treeMap[k].revisions, treeMap[k].latestValue;
              && Increasing(revs) && (forall i :: 0 <= i < |revs| ==> Writes(h, k, revs[i]))
              && revs != [] && revs[|revs| - 1] == latest.modRevision == LastWrite(h, k, |h|)
              && latest.createRevision > 0 && LiveRun(h, k, latest.createRevision, latest.modRevision)
              && latest.version == CountWrites(h, k, latest.createRevision, latest.modRevision)
    {
      assert Represents(State().history, State().compacted, k, tables.items[k]);
      RevisionBookkeeping(State().history, LastWrite(State().history, k, |State().history|));
    }

    // -------------------------------------------------------------- compaction

    /** Drops the values below index `i`, if that is in the window. */
    method DropBefore(i: nat) returns (ok: bool)
      requires Kept()
      modifies this`tables, valuesByRevision, valuesByRevision.blocks
      ensures Kept() && ok == old(tables).values.CanDrop(i)
      ensures tables == if ok then CompactTables(old(tables), i) else old(tables)
      ensures forall a :: a in valuesByRevision.blocks ==> a in old(valuesByRevision.blocks)
    {
      ghost var t := if tables.values.CanDrop(i) then CompactTables(tables, i) else tables;
      assert t.items == tables.items && t.values == tables.values.DropBefore(i);
      assert Held(t);
      ok := valuesByRevision.RemoveBefore(i);
      Adopt(t);
    }

    method Compact(rev: int) returns (ok: bool)
      requires Valid()
      modifies this`tables, valuesByRevision, valuesByRevision.blocks
      ensures Valid() && State() == Step(old(State()), History.Op.Compact(rev))
      ensures State().history == old(State()).history
      ensures State().compacted == if ok then rev - 1 else old(State()).compacted
      ensures ok ==> forall q :: rev <= q <= |State().history| ==> Takes(q)
      ensures ok <==> 1 <= rev <= |State().history| && rev - 1 >= old(State()).compacted
      ensures forall a :: a in valuesByRevision.blocks ==> a in old(valuesByRevision.blocks)
    {
      var current := CurrentRevision();
      if rev < 1 || rev > current {
        return false;
      }
      ok := DropBefore(rev - 1);
    }

    // -------------------------------------------------------------- reading one key

    /** Where the value of a key as of an earlier revision is: the largest listed one at or below it, or 0. */
    method RevisionAt(item: TreeItem, rev: nat) returns (at: nat)
      requires Held(tables) && item.key in treeMap && treeMap[item.key] == item
      requires 0 < rev < item.latestValue.modRevision && rev <= |State().history|
      ensures Lookup(State(), item.key, rev) == if at > 0 then tables.values.At(at - 1) else None
    {
      RevisionsIncrease(tables, item.key);
      var found, i := BinarySearch(item.revisions, rev);
      ListAnswers(tables, item.key, rev, if found then i + 1 else i);
      return if found then item.revisions[i] else if i > 0 then item.revisions[i - 1] else 0;
    }

    /** The value of a key as of a revision. */
    method FindValueForRevision(item: TreeItem, rev: nat) returns (r: Option<Value>)
      requires Valid() && item.key in treeMap && treeMap[item.key] == item && 0 < rev <= |State().history|
      ensures r == Lookup(State(), item.key, rev)
    {
      if rev >= item.latestValue.modRevision {
        LatestAnswers(tables, item.key, rev);
        return Some(item.latestValue);
      }
      var at := RevisionAt(item, rev);
      if at > 0 {
        r := valuesByRevision.Get(at - 1);
      } else {
        return None;
      }
    }

    /** Whether a key is live as of a revision, without fetching its value. */
    method HasValueForRevision(item: TreeItem, rev: nat) returns (r: bool)
      requires Valid() && item.key in treeMap && treeMap[item.key] == item && 0 < rev <= |State().history|
      ensures r == LiveAt(State(), item.key, rev)
    {
      if rev >= item.latestValue.modRevision {
        LatestAnswers(tables, item.key, rev);
        return item.latestValue.value.Some?;
      }
      var at := RevisionAt(item, rev);
      if at > 0 {
        r := valuesByRevision.GetWith(at - 1, IsLive);
      } else {
        return false;
      }
    }

    // -------------------------------------------------------------- ranges

    /** Looks at one key of a scan; `count` and `kvs` are the answer so far. */
    method Visit(item: TreeItem, rev: nat, limit: Option<nat>, kvs: seq<KeyValue>, count: nat, ghost keys: seq<Key>)
      returns (kvs': seq<KeyValue>, count': nat)
      requires Valid() && item.key in treeMap && treeMap[item.key] == item && 0 < rev <= |State().history|
      requires Answers(State(), keys, rev, limit, kvs, count)
      ensures Answers(State(), keys + [item.key], rev, limit, kvs', count')
    {
      kvs', count' := kvs, count;
      if limit.Some? && count > limit.value {
        ScanBeyond(State(), keys, item.key, rev, limit, kvs, count);
        count' := count + 1;
        return;
      }
      if LiveAt(State(), item.key, rev) {
        ScanLive(State(), keys, item.key, rev, limit, kvs, count);
      } else {
        ScanDead(State(), keys, item.key, rev, limit, kvs, count);
      }
      if limit.Some? && count == limit.value {
        var has := HasValueForRevision(item, rev);
        if has {
          count' := count + 1;
        }
      } else {
        var v := FindValueForRevision(item, rev);
        if v.Some? && v.value.value.Some? {
          if limit.None? || |kvs| < limit.value {
            kvs' := kvs + [AsKeyValue(v.value, item.key)];
          }
          count' := count + 1;
        }
      }
    }

    /** Goes through the entries of a prefix that fall into the window. */
    method Scan(w: Window, rev: nat, limit: Option<nat>) returns (kvs: seq<KeyValue>, count: nat)
      requires Valid() && rev <= |State().history| && (rev == 0 ==> State().history == [])
      ensures Answers(State(), ScanKeys(w.prefix, EntriesOf(prefixMap, w.prefix), w.lo, w.hi), rev, limit, kvs, count)
    {
      var entries := EntriesOf(prefixMap, w.prefix);
      kvs, count := [], 0;
      ghost var keys := [];
      NothingScanned(State(), rev, limit);
      for i := 0 to |entries|
        invariant keys == ScanKeys(w.prefix, entries[..i], w.lo, w.hi)
        invariant Answers(State(), keys, rev, limit, kvs, count)
      {
        ScanStep(w.prefix, entries, w.lo, w.hi, i);
        if InWindow(entries[i].0, w.lo, w.hi) {
          var item := entries[i].1;
          assert EntryRight(treeMap, w.prefix, entries[i]);
          assert item.key == w.prefix + entries[i].0;
          EmptyStore(tables, item.key);
          kvs, count := Visit(item, rev, limit, kvs, count, keys);
          keys := keys + [item.key];
        }
      }
      assert entries[..|entries|] == entries;
    }

    /** The stored keys that the scan for a range visits, in order. */
    ghost function Visits(start: Key, end: Key): seq<Key>
      requires WindowOf(start, end).Ok?
      reads this`prefixMap
    {
      var w := WindowOf(start, end).value;
      ScanKeys(w.prefix, EntriesOf(prefixMap, w.prefix), w.lo, w.hi)
    }

    /** The ordered map of the window's prefix panics on the window. */
    ghost predicate RangePanics(start: Key, end: Key)
      requires WindowOf(start, end).Ok?
      reads this`prefixMap
    {
      WindowOf(start, end).value.prefix in prefixMap && Reversed(WindowOf(start, end).value)
    }

    /** Whether the scan visits any key. */
    method AnyVisited(w: Window) returns (any: bool)
      ensures any <==> ScanKeys(w.prefix, EntriesOf(prefixMap, w.prefix), w.lo, w.hi) != []
    {
      var entries := EntriesOf(prefixMap, w.prefix);
      any := false;
      for i := 0 to |entries|
        invariant any <==> ScanKeys(w.prefix, entries[..i], w.lo, w.hi) != []
      {
        ScanStep(w.prefix, entries, w.lo, w.hi, i);
        if InWindow(entries[i].0, w.lo, w.hi) {
          any := true;
        }
      }
      assert entries[..|entries|] == entries;
    }

    /** The revisions that a range query takes. */
    ghost predicate Takes(rev: int)
      reads this`tables
    {
      rev <= 0 || State().compacted < rev <= |State().history|
    }

    lemma AnswerIsFlat(start: Key, end: Key, at: nat, limit: Option<nat>, kvs: seq<KeyValue>, count: nat)
      requires Valid() && WindowOf(start, end).Ok? && at <= |State().history|
      requires Answers(State(), Visits(start, end), at, limit, kvs, count)
      ensures Sound(State(), start, end, at, limit, kvs)
      ensures Covers(start, end) ==> Whole(State(), start, end, at, limit, kvs, count)
    {
      RangeIsFlat(start, end);
      AnswersAreSound(State(), Visits(start, end), at, limit, kvs, count, start, end);
      if Covers(start, end) {
        AnswersAreWhole(State(), Visits(start, end), at, limit, kvs, count, start, end);
      }
    }

    /** The scan for a range. */
    method ScanRange(start: Key, end: Key, at: nat, limit: Option<nat>) returns (kvs: seq<KeyValue>, count: nat)
      requires Valid() && WindowOf(start, end).Ok?
      requires at <= |State().history| && (at == 0 ==> State().history == [])
      ensures Answers(State(), Visits(start, end), at, limit, kvs, count)
      ensures Sound(State(), start, end, at, limit, kvs)
      ensures Covers(start, end) ==> Whole(State(), start, end, at, limit, kvs, count)
    {
      kvs, count := Scan(WindowOf(start, end).value, at, limit);
      AnswerIsFlat(start, end, at, limit, kvs, count);
    }

    /**
      The range query at revision `rev`, or now when `rev` is 0. It panics on a reversed range of a prefix that has
      keys, and at a negative revision as soon as a key is visited.
     */
    method Range(start: Key, end: Key, rev: int, limit: Option<nat>) returns (r: Result<RangeResult, RangeError>)
      requires Valid()
      ensures rev > |State().history| ==> r == Err(FutureRevision)
      ensures 0 < rev <= State().compacted ==> r == Err(Compacted)
      ensures Takes(rev) && WindowOf(start, end).Err? ==> r == Err(NotOnePrefix)
      ensures Takes(rev) && WindowOf(start, end).Ok? ==>
                (r == Err(RangePanicked) <==> RangePanics(start, end) || (rev < 0 && Visits(start, end) != []))
      ensures Takes(rev) && WindowOf(start, end).Ok? && r != Err(RangePanicked) ==>
                && r.Ok? && r.value.latestRev == |State().history| && r.value.count >= 0
                && Answers(State(), Visits(start, end), if rev <= 0 then |State().history| else rev, limit,
                           r.value.kvs, r.value.count)
      ensures r.Ok? ==>
                var at := if rev <= 0 then |State().history| else rev;
                && Sound(State(), start, end, at, limit, r.value.kvs)
                && (Covers(start, end) ==> Whole(State(), start, end, at, limit, r.value.kvs, r.value.count))
    {
      var latestRev := CurrentRevision();
      if rev > latestRev {
        return Err(FutureRevision);
      }
      if rev > 0 && rev <= valuesByRevision.startOffset {
        return Err(Compacted);
      }
      var w := WindowOf(start, end);
      if w.Err? {
        return Err(NotOnePrefix);
      }
      if w.value.prefix in prefixMap && Reversed(w.value) {
        return Err(RangePanicked);
      }
      if rev < 0 {
        var any := AnyVisited(w.value);
        if any {
          return Err(RangePanicked);
        }
      }
      var at := if rev <= 0 then latestRev else rev;
      var kvs, count := ScanRange(start, end, at, limit);
      return Ok(RangeResult(kvs, latestRev, count));
    }

    /**
      The index answers like a flat sorted map: for every range that one prefix covers, the scan visits, in ascending
      order, exactly the keys ever written that lie in the interval.
     */
    lemma RangeIsFlat(start: Key, end: Key)
      requires Valid() && WindowOf(start, end).Ok?
      ensures Ascending(Visits(start, end))
      ensures forall k :: k in Visits(start, end) ==> InRange(start, end, k) && k in treeMap
      ensures Covers(start, end) ==>
                forall k :: InRange(start, end, k) && LastWrite(State().history, k, |State().history|) > 0 ==>
                  k in Visits(start, end)
      ensures forall r: nat :: r <= |State().history| ==> Ascending(Live(State(), Visits(start, end), r))
    {
      var w := WindowOf(start, end).value;
      assert w.prefix in prefixMap ==> Sorted(prefixMap[w.prefix]);
      ScanAscending(w.prefix, EntriesOf(prefixMap, w.prefix), w.lo, w.hi);
      forall r: nat | r <= |State().history| ensures Ascending(Live(State(), Visits(start, end), r)) {
        LiveAscending(State(), Visits(start, end), r);
      }
      forall k
        ensures k in Visits(start, end) <==> k in treeMap && Visited(start, end, k)
      {
        ScanIsExact(treeMap, prefixMap, w, k);
      }
      forall k | k in Visits(start, end) ensures InRange(start, end, k) {
        VisitedIsInRange(start, end, k);
      }
      if Covers(start, end) {
        forall k | InRange(start, end, k) && LastWrite(State().history, k, |State().history|) > 0
          ensures k in Visits(start, end)
        {
          AbsentIsUnwritten(tables, k);
          CoveredIsVisited(start, end, k);
        }
      }
    }

    // -------------------------------------------------------------- the past of a watch

    /** The changes of one key from `startRev` on. */
    method ItemChanges(item: TreeItem, startRev: nat, wantPrev: bool) returns (changes: seq<Change>)
      requires Valid() && item.key in treeMap && treeMap[item.key] == item && State().compacted < startRev
      ensures changes == ChangesUpTo(State(), item.key, startRev, wantPrev, |State().history|)
    {
      RevisionsListed(tables, item.key);
      changes := WalkRevisions(item.key, item.revisions, valuesByRevision, startRev, wantPrev, State());
    }

    /** The changes from `startRev` on of all keys that the scan visits. */
    method ScanChanges(w: Window, startRev: nat, wantPrev: bool) returns (changes: seq<Change>)
      requires Valid() && State().compacted < startRev
      ensures changes ==
                ChangesOf(State(), ScanKeys(w.prefix, EntriesOf(prefixMap, w.prefix), w.lo, w.hi), startRev, wantPrev)
    {
      var entries := EntriesOf(prefixMap, w.prefix);
      changes := [];
      ghost var keys := [];
      for i := 0 to |entries|
        invariant keys == ScanKeys(w.prefix, entries[..i], w.lo, w.hi)
        invariant changes == ChangesOf(State(), keys, startRev, wantPrev)
      {
        ScanStep(w.prefix, entries, w.lo, w.hi, i);
        if InWindow(entries[i].0, w.lo, w.hi) {
          var item := entries[i].1;
          assert EntryRight(treeMap, w.prefix, entries[i]);
          var more := ItemChanges(item, startRev, wantPrev);
          assert (keys + [item.key])[..|keys|] == keys;
          changes := changes + more;
          keys := keys + [item.key];
        }
      }
      assert entries[..|entries|] == entries;
    }

    lemma PastIsRight(start: Key, end: Key, from: nat, wantPrev: bool)
      requires Valid() && WindowOf(start, end).Ok?
      ensures PastMeans(State(), start, end, from, wantPrev, ChangesOf(State(), Visits(start, end), from, wantPrev))
    {
      RangeIsFlat(start, end);
      PastOfKeys(State(), start, end, Visits(start, end), from, wantPrev);
    }

    /**
      What a watch of a range is told about the past, and whether it has entered the list of watchers by then: only a
      compacted start revision is refused before that.
     */
    method PastChanges(start: Key, end: Key, rev: int, wantPrev: bool)
      returns (registered: bool, r: Result<seq<Change>, WatchError>)
      requires Valid()
      ensures registered <==> !(0 < rev <= State().compacted)
      ensures rev <= 0 ==> r == Ok([])
      ensures 0 < rev && (rev <= State().compacted || WindowOf(start, end).Err?) ==>
                r == Err(Refused(State().compacted))
      ensures State().compacted < rev && WindowOf(start, end).Ok? ==>
                r == if RangePanics(start, end) then Err(WatchPanicked)
                     else Ok(ChangesOf(State(), Visits(start, end), rev, wantPrev))
      ensures rev > 0 && r.Ok? ==> PastMeans(State(), start, end, rev, wantPrev, r.value)
    {
      var compactRevision := valuesByRevision.startOffset;
      if rev > 0 && rev <= compactRevision {
        return false, Err(Refused(compactRevision));
      }
      if rev > 0 {
        var w := WindowOf(start, end);
        if w.Err? {
          return true, Err(Refused(compactRevision));
        }
        if w.value.prefix in prefixMap && Reversed(w.value) {
          return true, Err(WatchPanicked);
        }
        var changes := ScanChanges(w.value, rev, wantPrev);
        PastIsRight(start, end, rev, wantPrev);
        return true, Ok(changes);
      }
      return true, Ok([]);
    }
  }

  /**
    What a watch is told about the past, in terms of the history alone: writes of keys in the range from revision `from`
    on, key by key in ascending order and by revision within a key; for a range that one prefix covers, all of them.
   */
  ghost predicate PastMeans(s: State, start: Key, end: Key, from: nat, wantPrev: bool, cs: seq<Change>) {
    && (forall i {:trigger cs[i]} :: 0 <= i < |cs| ==>
          InRange(start, end, cs[i].kv.key) && IsChange(s, cs[i].kv.key, from, wantPrev, |s.history|, cs[i]))
    && (forall i, j :: 0 <= i < j < |cs| ==> Earlier(cs[i], cs[j]))
    && (Covers(start, end) ==> forall k, r ::
          InRange(start, end, k) && from <= r && Writes(s.history, k, r) ==> TellsOf(cs, r))
  }

  lemma PastOfKeys(s: State, start: Key, end: Key, keys: seq<Key>, from: nat, wantPrev: bool)
    requires Ascending(keys) && forall k :: k in keys ==> InRange(start, end, k)
    requires Covers(start, end) ==>
               forall k :: InRange(start, end, k) && LastWrite(s.history, k, |s.history|) > 0 ==> k in keys
    ensures PastMeans(s, start, end, from, wantPrev, ChangesOf(s, keys, from, wantPrev))
  {
    forall i, j | 0 <= i < j < |keys| ensures Less(keys[i], keys[j]) && keys[i] != keys[j] {
      LessTotal(keys[i], keys[j]);
    }
    ChangesOfAll(s, keys, from, wantPrev);
    var cs := ChangesOf(s, keys, from, wantPrev);
    if Covers(start, end) {
      forall k, r | InRange(start, end, k) && from <= r && Writes(s.history, k, r) ensures TellsOf(cs, r) {
        assert s.history[r - 1].key == k;
        assert LastWrite(s.history, k, |s.history|) >= r;
      }
    }
  }

  lemma RevisionsListed(t: SoundTables, k: Key)
    requires k in t.items
    ensures Lists(t.state.history, t.state.compacted, k, t.items[k].revisions)
  {
    assert Represents(t.state.history, t.state.compacted, k, t.items[k]);
  }

  lemma EmptyStore(t: SoundTables, k: Key)
    requires k in t.items
    ensures |t.state.history| > 0
  {
    AbsentIsUnwritten(t, k);
  }

  predicate IsLive(x: Option<Value>) { x.Some? && x.value.value.Some? }

  lemma LatestAnswers(t: SoundTables, k: Key, r: nat)
    requires k in t.items && t.items[k].latest.modRevision <= r <= |t.state.history|
    ensures Lookup(t.state, k, r) == Some(t.items[k].latest)
  {
    assert Represents(t.state.history, t.state.compacted, k, t.items[k]);
    ReadLatest(t.state, k, t.items[k], r);
  }

  /** The deque's answer for the largest listed revision at or below `r` is the answer. */
  lemma ListAnswers(t: SoundTables, k: Key, r: nat, i: nat)
    requires k in t.items && 0 < r < t.items[k].latest.modRevision && r <= |t.state.history|
    requires i <= |t.items[k].revisions|
    requires forall j :: 0 <= j < i ==> t.items[k].revisions[j] <= r
    requires forall j :: i <= j < |t.items[k].revisions| ==> r < t.items[k].revisions[j]
    ensures i > 0 ==> t.items[k].revisions[i - 1] > 0
    ensures Lookup(t.state, k, r) == if i > 0 then t.values.At(t.items[k].revisions[i - 1] - 1) else None
  {
    assert Represents(t.state.history, t.state.compacted, k, t.items[k]);
    ReadEarlier(t.state, k, t.items[k], r, i);
    if i > 0 {
      var rev := t.items[k].revisions[i - 1];
      assert Writes(t.state.history, k, rev);
      RecordedAt(t.state, t.values, rev);
    }
  }

  lemma RevisionsIncrease(t: SoundTables, k: Key)
    requires k in t.items
    ensures Increasing(t.items[k].revisions)
  {
    assert Represents(t.state.history, t.state.compacted, k, t.items[k]);
  }

  /** What the latest value of an item says about the key's current value. */
  lemma CurrentFromTables(t: SoundTables, k: Key)
    ensures var h := t.state.history;
            Current(h, k) == if k in t.items && t.items[k].latest.value.Some? then Some(t.items[k].latest) else None
  {
    AbsentIsUnwritten(t, k);
    assert k in t.items ==> Represents(t.state.history, t.state.compacted, k, t.items[k]);
  }
}
