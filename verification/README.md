# k8s-1m: a verified model

This project models, in Dafny, the two parts of k8s-1m in which correctness is hard to see from the code, and proves
what they promise.

**mem_etcd**, the in-memory replacement for etcd.
A write gets the next revision, is entered into a per-key item, an index per key prefix and a block-wise deque of values
by revision, and is then told to the watchers by a notification thread that puts revisions back into order. Reads may be
at an earlier revision, as far as that is not compacted. A write-ahead log keeps a file per prefix, written by a pool of
threads, and merges the files by revision when they are loaded.

**dist-scheduler**, the sharded scheduler.
The leader distributes the nodes over the schedulers, pods are relayed to the schedulers along a tree that each of them
computes for itself, and the scores for a pod are collected by one of them, which picks a winner.

How the files are arranged:

| files | what they model |
|---|---|
| `Wrappers`, `Bytes`, `Integers`, `OrderedMap`, `Pods` | options and results, byte strings and their order, casts, the ordered map, pod names |
| `KeyIndex` | cutting a key into prefix and suffix, and which keys a scan of one prefix reaches |
| `OffsetSeq`, `BlockLayout`, `BlockDeque`, `DequePush` | the deque: its specification, its layout in blocks, its operations, its two-phase push under concurrency |
| `History`, `Items`, `Catalog`, `Ranges`, `Changes`, `Store`, `KvService` | the store: what it means, what each item holds, its operations, and the service in front of it |
| `Creation` | concurrent calls of set for one key, from lookup to entry into the two maps |
| `Resequencer`, `WatchSystem`, `WatchRuns`, `WatchGaps` | the notification thread; writers, notification thread and watch streams interleaved; what that promises in every run; runs in which a watch misses a write |
| `WalCodec`, `WalMerge`, `WalHandoff`, `WalProgress` | the log: its records, loading it, handing records to the writer threads, and that this comes to an end |
| `Durability`, `SyncReturns`, `Reload` | the way of a write from its revision to its file, which writers get back in the synchronous mode, and the way from the files back to the history |
| `Rebalance`, `RelayTree`, `ScoreRound`, `Evaluators` | the scheduler: relabelling nodes, the relay tree, a scoring round, and the rounds of one pod over time |

Three conventions run through the project. What a component means is a function of a plain value (the history of writes,
an offset sequence, the set of names), and the code is proved to follow it. Concurrency is a transition system whose
steps are the stretches that a lock or an atomic operation makes indivisible; the theorems hold in every state of every
run. Where the code does not do what is expected of it, the model does what the code does, a lemma shows the failure, and
another says exactly when it cannot occur.

Where code and documentation disagree the model follows the code:

- The index is meant to be free of ranges across prefixes (`mem_etcd/src/store.rs:837-838`). The code accepts such ranges
  when both ends are cut to the same prefix, and then misses keys; `KeyIndex.IndexIsExactIff` says for which ranges.
- Compaction is meant to leave reads at later revisions alone. A value that is overwritten later is lost to them:
  `History.CompactionHidesLiveValue`, and `History.HistoricalReads` for the exact condition.
- The comment in the deque's push says that a removal never reaches an index that is still being pushed
  (`mem_etcd/src/block_deque.rs:114-116`). The store's compaction only compares with the reserved length. Either the
  removal fails (`DequePush.CompactionCanOvertake`) or a push that was waiting does (`DequePush.OvertakenPushFails`);
  `DequePush.RemovalIsHarmlessIff` says exactly when neither can happen.
- The comment in the relay tree describes a hash ring (`dist-scheduler/pkg/schedulerset/schedulerset.go:161-168`); the
  code slices the sorted list, with the factor ten fixed and the fan-out a parameter: `RelayTree.TreeIff`.
- "We already fired" is recognised by a score other than minus one (`dist-scheduler/pkg/scoreevaluator/scoreevaluator.go:94-97`),
  so a round won with minus one can fire again: `ScoreRound.BothPermitted`, `ScoreRound.LateScorePermitted`, and
  `ScoreRound.WinnerIsFinalIff` for the exact condition.
- A call of set does not hold a lock between looking a key up and creating it, so two calls can create it
  (`Creation.CreationsRace`), and acknowledged writes are lost to readers; `Creation.NothingLostIff` for the exact condition.
- A watch is meant to get every write from its start revision on. It does not if a write is compacted between the
  compaction check and the scan of its key (`WatchGaps.CompactionMakesGap`), if the range is not covered by one prefix
  (`WatchGaps.UncoveredMakesGap`), or if it asks for no past and enters the list late (`WatchGaps.LateEntryMakesGap`);
  `WatchRuns.ReachesIff` says exactly which writes a watch gets. A write can also come twice, as past change and as event:
  `WatchGaps.WriteComesTwice`, and `WatchRuns.TwiceIff` for the exact condition.
- In the synchronous mode a set waits for its record to be logged, also when its prefix is not persisted, and then for
  ever: `Durability.NotPersistedWaits`, and `SyncReturns.CanReturnIff` for the exact condition.
- A score recorded after the round is won does not fire: `ScoreRound.LateScoreWaits`, and `ScoreRound.RecordsInVainIff`
  for the exact condition. A caller that comes later still gets a round of its own: `Evaluators.LateCallerIsPermitted`,
  and `Evaluators.OneRoundIff`.
- An empty value is logged as a delete (`mem_etcd/src/store.rs:458-460`): `Reload.ReplayedIff`.
- A transaction's comparison operator is not looked at, and a negative number means "no requirement":
  `KvService.NotEqualIsIgnored`, and `KvService.TxnFollowsCompareIff` for what that means for each operator.

`dafny verify dfyconfig.toml` checks the whole project.

## Model

| member | source | states |
|---|---|---|
| KeyIndex.SplitIsPrefix | mem_etcd/src/store.rs:836-863 | for every key, the prefix found by splitting at slashes into at most five segments ends where a direct description says: after `/registry/` and one segment, or two when the first of them has a dot |
| KeyIndex.WholeResourceShapes | mem_etcd/src/store.rs:840-845 | `/registry/S/` with no dot in S and `/registry/S/T/` with a dot in S are prefixes that hold a whole resource |
| KeyIndex.WholeResourceHasShape | mem_etcd/src/store.rs:840-845 | every prefix that holds a whole resource has one of these two shapes |
| KeyIndex.PrefixShapes | mem_etcd/src/store.rs:836-863 | every prefix has one of four shapes, and what follows an incomplete one has no slash |
| KeyIndex.AcceptedIff | mem_etcd/src/store.rs:536-588 | a range is accepted if and only if it is a single key, its ends have the same prefix, or it goes from a prefix to that prefix with the final slash replaced by 0 |
| KeyIndex.ReversedIff | mem_etcd/src/store.rs:580-587 | the window of an accepted range is reversed if and only if its ends have the same prefix and the end comes first |
| KeyIndex.VisitedIsInRange | mem_etcd/src/store.rs:536-588 | every key that the scan of one prefix visits lies in the flat lexicographic interval, whatever the range |
| KeyIndex.CoveredIsVisited | mem_etcd/src/store.rs:536-588 | single keys, whole-resource starts and the `.../` to `...0` form: every key in the flat interval is visited |
| KeyIndex.MissedKey | mem_etcd/src/store.rs:536-588 | for every accepted range outside these, a key of the interval that the scan misses |
| KeyIndex.IndexIsExactIff | mem_etcd/src/store.rs:536-588 | for every accepted range, the scan of one prefix visits all keys of the interval if and only if a test on the two ends holds |
| KeyIndex.SuffixOrderIsKeyOrder | mem_etcd/src/store.rs:640-666 | within a prefix the order of the suffixes is the order of the whole keys |
| OrderedMap.InsertSorted | mem_etcd/src/store.rs:348-356 | inserting a suffix keeps the index of a prefix sorted, without repetition |
| OrderedMap.InsertContents | mem_etcd/src/store.rs:348-356 | inserting replaces the entry of that suffix and keeps every other one |
| BlockLayout.Locate | mem_etcd/src/block_deque.rs:94-98 | an index is in the block and at the offset computed for it, and that block is allocated exactly when the index is below the allocated end, for every block size |
| BlockLayout.BlockCount | mem_etcd/src/block_deque.rs:117-134 | the number of blocks that a window needs is ceil((start + length) / B) - floor(start / B) |
| BlockDeques.BlockDeque.constructor | mem_etcd/src/block_deque.rs:61-67 | an empty deque stands for the empty offset sequence |
| BlockDeques.BlockDeque.ExactBlockCount | mem_etcd/src/block_deque.rs:86-223 | at all times there are exactly as many blocks as the window spans |
| BlockDeques.BlockDeque.Push | mem_etcd/src/block_deque.rs:86-140 | appends to the offset sequence and returns the new index, on the fast and on the slow path; no block access fails |
| BlockDeques.BlockDeque.PushSlow | mem_etcd/src/block_deque.rs:111-139 | blocks are allocated until that of the reserved index is there, and the element lands in its own slot |
| BlockDeques.BlockDeque.Set | mem_etcd/src/block_deque.rs:143-165 | overwrites exactly the indices in the window, and reports whether it did |
| BlockDeques.BlockDeque.GetWith | mem_etcd/src/block_deque.rs:167-189 | applies the function to the element at that index of the offset sequence, or to none outside the window |
| BlockDeques.BlockDeque.Get | mem_etcd/src/block_deque.rs:191-196 | the element at that index of the offset sequence, or none outside the window |
| BlockDeques.BlockDeque.DropBlocks | mem_etcd/src/block_deque.rs:211-216 | removing whole blocks from the front never removes from an empty list, moves the base by whole blocks and keeps every surviving slot |
| BlockDeques.BlockDeque.RemoveBefore | mem_etcd/src/block_deque.rs:198-223 | drops everything below the index and nothing else, without shifting indices, leaves the dropped slots cleared, and fails exactly outside the window |
| DequePush.StepKeeps | mem_etcd/src/block_deque.rs:86-223 | every step of reserving, filling, overwriting, reading and removing, with callers that use returned indices and remove no pending one, keeps: indices are distinct and gap-free, every index in the window is pending or holds its own value, no access fails |
| DequePush.EveryRun | mem_etcd/src/block_deque.rs:86-223 | the same after every such run of concurrent pushes, overwrites, reads and removals, for every block size |
| DequePush.StepMoves | mem_etcd/src/block_deque.rs:86-223 | whatever a step does to the blocks, only a reservation moves the end of the window, by one, only a removal its start, to the index given, and only reservations and overwrites change what the indices stand for |
| DequePush.CompletedPushIsThere | mem_etcd/src/block_deque.rs:117-139 | a completed push is read without failing at its own index with its own value, after the block index was recomputed |
| DequePush.PendingIsEmpty | mem_etcd/src/block_deque.rs:120-134 | a pending index whose block is there reads as empty |
| DequePush.ReadIsSafeIff | mem_etcd/src/block_deque.rs:167-189 | a read in the window fails if and only if the index is pending and its block is yet to be allocated |
| DequePush.FilledSlotIsStable | mem_etcd/src/block_deque.rs:103-108 | no step but an overwrite of that index changes a filled slot in the window |
| DequePush.RemoveIsSafeIff | mem_etcd/src/block_deque.rs:198-223 | the removal itself fails exactly when it reaches beyond the blocks there are |
| DequePush.RemovalIsHarmlessIff | mem_etcd/src/block_deque.rs:111-139 | a removal that the deque's check admits does not fail, and every waiting push can then fill its slot and be read there, if and only if it reaches no pending index |
| DequePush.OvertakenPush | mem_etcd/src/block_deque.rs:117-118 | a push that a removal has overtaken underflows its block index when its block is gone, and is never read in any case |
| DequePush.CompactionCanOvertake | mem_etcd/src/block_deque.rs:198-220 | for every block size, a run from the empty deque after which a removal below the last reserved index is admitted and fails |
| DequePush.OvertakenPushFails | mem_etcd/src/block_deque.rs:111-118 | for every block size, a run from the empty deque in which a removal is admitted and succeeds and a push that was waiting then fails |
| History.RevisionBookkeeping | mem_etcd/src/store.rs:272-286 | for every history: `create_revision` is the start of the key's current unbroken live run and `version` the number of writes in it |
| History.LiveRunUnique | mem_etcd/src/store.rs:278-286 | a live run has one start only |
| History.PairTells | mem_etcd/src/store.rs:715-725 | the pair for a write tells its data, its revision, where the live run began and how many writes it has; for a delete the revision, no data, and zeros |
| History.TellsUnique | mem_etcd/src/store.rs:715-725 | only one pair does |
| History.PutSucceedsIff | mem_etcd/src/store.rs:229-255 | a put with an expected revision or version of at least 0 succeeds if and only if that is the visible one, 0 for an absent or deleted key |
| History.SetSucceedsIff | mem_etcd/src/store.rs:229-255 | in terms of the history alone: a set goes through if and only if it is not the delete of an absent key and each required number that is not negative is the revision or version that the key shows |
| History.NoLostUpdate | mem_etcd/src/store.rs:229-255 | in every run two successful puts on a key never share an expected revision m > 0, and share m = 0 only with a delete in between |
| History.HistoricalReads | mem_etcd/src/store.rs:677-694 | over every run of sets and compactions a read at a revision keeps its answer, except that it becomes absent exactly when its write is compacted and overwritten |
| History.ReadsAsIff | mem_etcd/src/store.rs:677-694 | in terms of the history alone: a key has a value as read at a revision if and only if its last write by then is not a delete and is not compacted or not overwritten since |
| History.CompactionHidesLiveValue | mem_etcd/src/store.rs:829-833 | a run from the empty store after which a live value is not found at a revision that is still accepted |
| Items.PartitionPoint | mem_etcd/src/store.rs:262-264 | the first position whose revision is not below the given one |
| Items.BinarySearch | mem_etcd/src/store.rs:684-693 | the position of a revision, or where it would be inserted |
| Items.WriteKnown | mem_etcd/src/store.rs:257-296 | after draining compacted revisions and appending the new one, the item still lists exactly the key's revisions from the compaction point on and the latest value |
| Items.CompactItem | mem_etcd/src/store.rs:829-831 | an item stays right when values are compacted without touching it |
| Items.ReadEarlier | mem_etcd/src/store.rs:683-693 | the largest listed revision at or below the one asked for leads to the last write at or before it, or to nothing when that is compacted |
| Items.ReadLatest | mem_etcd/src/store.rs:679-681 | at or beyond the latest write the item's latest value is the answer |
| Catalog.IndexedInsert | mem_etcd/src/store.rs:341-361 | entering a new key into its prefix's map and into the map of keys keeps the two in agreement |
| Stores.Store.constructor | mem_etcd/src/store.rs:161-172 | a new store, over a deque of any block size, stands for the empty history |
| Stores.Store.Drain | mem_etcd/src/store.rs:257-266 | drops exactly the revisions below the compaction point |
| Stores.Store.Record | mem_etcd/src/store.rs:268-296 | the value ends up under its own new revision |
| Stores.Store.Set | mem_etcd/src/store.rs:189-370 | the history grows by exactly this write, and the answer is its revision, if and only if the requirement is met in terms of the history alone; a failure changes nothing, and the answer is the current revision with the pair of the key if it has a value |
| Stores.SetIsRight | mem_etcd/src/store.rs:189-370 | the specified step and answer have that meaning, for every history, key, value and requirement |
| Stores.Store.OneOwner | mem_etcd/src/store.rs:268-296 | every revision that is not compacted is listed by exactly one key, and its value is stored under that revision with that `mod_revision` |
| Stores.Store.ItemIsRight | mem_etcd/src/store.rs:272-296 | a key's listed revisions strictly increase and end at its latest value, whose `create_revision` is the start of the current live run and whose `version` is the number of writes in it |
| Stores.Store.Compact | mem_etcd/src/store.rs:815-834 | succeeds exactly for revisions from the compacted one to the current one; the compaction point is then one below the revision, every revision from it to the current one is still taken by a range query, and the history never changes |
| Stores.Store.FindValueForRevision | mem_etcd/src/store.rs:677-694 | gives the last write at or before the revision, unless that is compacted and no longer the latest |
| Stores.Store.HasValueForRevision | mem_etcd/src/store.rs:696-713 | agrees with the lookup on whether the key is live |
| Stores.Store.Visit | mem_etcd/src/store.rs:641-665 | one more key of a scan keeps the answer right: results up to the limit, then only the count |
| Stores.Store.Scan | mem_etcd/src/store.rs:632-669 | the answer is that of the visited keys that are live, up to the limit |
| Stores.Store.Range | mem_etcd/src/store.rs:590-675 | the three errors exactly in their cases; a panic exactly on a reversed range of a prefix that has keys and at a negative revision with a key in the range; otherwise pairs that tell the history at that revision, in ascending order, within the range and the limit; for a covered range no key is held back unless the limit is reached, then only later ones, and the count tells |
| Stores.Store.RangeIsFlat | mem_etcd/src/store.rs:629-666 | the scan visits keys in ascending order, all in the interval, and for every covered range exactly the keys ever written in it; those that are live at a revision ascend as well, for every revision |
| Ranges.AnswersAreSound | mem_etcd/src/store.rs:632-669 | the answer of a scan consists of pairs that tell the history at the revision, in ascending order, no more than the limit |
| Ranges.AnswersAreWhole | mem_etcd/src/store.rs:632-669 | no live key of the range is missing unless the limit is reached, then only later ones, and the count exceeds the limit exactly then |
| Creation.StepKeeps | mem_etcd/src/store.rs:211-370 | every step of concurrent calls for a key keeps: no revision is in two items, an item lists increasing revisions, an acknowledged write is in the item of its call right after the one it was admitted on |
| Creation.FinishIff | mem_etcd/src/store.rs:222-300 | a call that has the lock of its item goes through if and only if the last revision of that item admits it, and then adds exactly one revision |
| Creation.CreatorsIff | mem_etcd/src/store.rs:303-361 | in every run, more than one call creates the key if and only if a lookup finds no item while a creation is under way |
| Creation.NothingLostIff | mem_etcd/src/store.rs:211-370 | in every run, at rest, the map of keys and the index both lead to all acknowledged writes if and only if no two creations overlapped |
| Creation.NoLostUpdate | mem_etcd/src/store.rs:211-300 | in every run of concurrent calls, no two puts that name the same revision above 0 succeed; two that name 0 do so, without overlapping creations, only with a delete in between |
| Creation.CreationsRace | mem_etcd/src/store.rs:303-361 | a run in which two puts that require the key to be absent both succeed, and the map of keys and the index end up with different items |
| Ranges.ScanIsExact | mem_etcd/src/store.rs:632-666 | the scan of an index visits exactly the stored keys that the window of their prefix contains, rebuilt from prefix and suffix |
| Ranges.ScanAscending | mem_etcd/src/store.rs:640-666 | the rebuilt keys come in strictly ascending order |
| Changes.ChangesAreWrites | mem_etcd/src/store.rs:784-800 | what a watch is told of a key's past are its writes from the start revision on, in increasing order, each with a pair that tells it, and with a pair that tells the write before it exactly when that is asked for, there and not compacted |
| Changes.WritesAreChanges | mem_etcd/src/store.rs:784-800 | no write from the start revision on is left out |
| Changes.ChangesOfAll | mem_etcd/src/store.rs:773-800 | for any ascending keys: exactly their writes from the start revision on, key by key, by revision within a key |
| Changes.WalkRevisions | mem_etcd/src/store.rs:774-800 | walking the listed revisions, from one before the start when previous values are wanted, gives exactly these changes |
| Stores.Store.PastChanges | mem_etcd/src/store.rs:737-808 | compacted starts and ranges across prefixes are errors, the latter with the watcher already registered, and reversed ranges panic; otherwise, in terms of the history alone, writes of keys in the range, key by key in ascending order, and for a covered range all of them |
| KvService.Range | mem_etcd/src/kv_service.rs:27-69 | exactly when a request is answered; the pairs tell the history, and for a covered range keys are held back only by counting or by the limit, only the last ones, and `more` tells when |
| KvService.RangeIsRight | mem_etcd/src/kv_service.rs:34-69 | the store's answer under the limit that a request becomes has that meaning, for positive, zero and negative limits |
| KvService.LimitedRange | mem_etcd/src/kv_service.rs:34-54 | with n live keys: the first min(limit, n) of them, none when only counting, and `more` exactly when some were held back; a negative limit holds nothing back but sets `more` |
| KvService.Txn | mem_etcd/src/kv_service.rs:126-337 | a supported transaction that succeeds adds exactly the write of the request, with its own value or a delete, and one that fails changes nothing and reports the key's current pair; it succeeds exactly when the named number is negative or the one that the key shows, and not on deletes of absent keys; one without a number or a write panics, everything else is refused, and neither changes anything |
| KvService.SupportedIff | mem_etcd/src/kv_service.rs:126-262 | the requests that are taken are exactly those of one shape: one comparison of a revision or version of a key, one put or single delete of that key, and at most one read of it on failure |
| KvService.PanicsIff | mem_etcd/src/kv_service.rs:126-262 | the service panics exactly on a comparison without a number, and on an otherwise supported request without a write |
| KvService.TxnIsRight | mem_etcd/src/kv_service.rs:165-337 | the store's answer to the conditional write becomes the response with that meaning |
| KvService.TxnFollowsCompareIff | mem_etcd/src/kv_service.rs:165-183 | for each of the four comparison operators, the exact condition on the visible and the named number under which the transaction succeeds if and only if the comparison holds, deletions of absent keys being a case of their own |
| KvService.NotEqualIsIgnored | mem_etcd/src/kv_service.rs:165-183 | a request whose comparison does not hold and which succeeds |
| Resequencer.PushOrdered | mem_etcd/src/store.rs:107-136 | the spool gives the smallest revision first and loses none |
| Resequencer.NotifyThread.DoSend | mem_etcd/src/store.rs:447-497 | the job goes to each of its open channels once and to no other |
| Resequencer.NotifyThread.SendDue | mem_etcd/src/store.rs:519-526 | sends out exactly the spooled jobs that have become due, in order |
| Resequencer.NotifyThread.Receive | mem_etcd/src/store.rs:509-529 | for every order of arrival: what is sent out is 1, 2, ..., n for the largest such n, the spool holds the rest, and the progress revision is n |
| Resequencer.NotifyThread.Open | mem_etcd/src/store.rs:751-763 | a new watcher's channel starts empty |
| Resequencer.NotifyThread.Close | mem_etcd/src/store.rs:483-487 | a closed channel is skipped from then on, and the others are not affected |
| Resequencer.SpoolIsTheRest | mem_etcd/src/store.rs:509-529 | at all times the spool holds exactly the arrivals beyond the contiguous ones, and every job up to the progress revision has been sent |
| Resequencer.AllSent | mem_etcd/src/store.rs:509-529 | when exactly 1, ..., n have arrived, in whatever order, all have been sent and the spool is empty |
| Resequencer.RoutedIncreasing | mem_etcd/src/store.rs:478-496 | a channel receives strictly increasing revisions |
| Resequencer.RoutedComplete | mem_etcd/src/store.rs:478-496 | a channel receives exactly the jobs that are for it |
| WatchRuns.KeepsInv | mem_etcd/src/store.rs:189-533 | every step of a writer, the notification thread, a watch call, a stream or compaction keeps the invariants below |
| WatchRuns.ReachesIff | mem_etcd/src/store.rs:728-809 | in every interleaving, for any range and start: a revision that a streaming watch asks for and that has read the list of watchers is among its past changes or in a job for it if and only if it read the list after the watch entered it, or its key was scanned before it was compacted; the keys scanned are those in the window of the range |
| WatchRuns.OnlyWanted | mem_etcd/src/store.rs:384-404 | in every interleaving the past changes of a watch are exactly the writes that it asks for and whose keys were scanned after they had their revision and before they were compacted, and every event is a write that it asks for |
| WatchRuns.TwiceIff | mem_etcd/src/store.rs:751-800 | in every interleaving a write comes both as past change and as event if and only if it read the list after the watch entered it and was scanned in time |
| WatchRuns.WatchHasNoGaps | mem_etcd/src/store.rs:728-809 | in every interleaving that is so for each revision that a streaming watch of a covered range asks for, from a given start, unless compaction overtook the start during the call |
| WatchGaps.CompactionMakesGap | mem_etcd/src/store.rs:743-800 | a run in which a revision is compacted between the compaction check and the scan, and the watch is accepted and streams without it |
| WatchGaps.OvertakenInVain | mem_etcd/src/store.rs:743-800 | a run in which compaction overtakes a watch after its scan of the key, and nothing is missing |
| WatchGaps.UncoveredMakesGap | mem_etcd/src/store.rs:769-773 | for every accepted range that the index does not cover, a run in which a watch of it streams without a write in it |
| WatchGaps.LateEntryMakesGap | mem_etcd/src/store.rs:737-763 | a run in which a watch without a start revision misses a write that comes between its reading of the current revision and its entry into the list |
| WatchGaps.WriteComesTwice | mem_etcd/src/store.rs:751-800 | a run in which a write comes both as past change and as event |
| WatchRuns.CallAsks | mem_etcd/src/store.rs:737-763 | a call begins with the range asked for and the start revision asked for, or the current one without |
| WatchRuns.AskedStays | mem_etcd/src/store.rs:751-763 | no step changes what a watch asks for |
| WatchRuns.CompactsLikeTheStore | mem_etcd/src/store.rs:815-834 | compaction in the interleaved system is that of the store |
| WatchRuns.ChannelsAreInOrder | mem_etcd/src/store.rs:444-533 | in every interleaving jobs are sent out as 1, 2, 3, ..., and each channel carries exactly the jobs for it, strictly increasing |
| WatchRuns.ProgressIsComplete | mem_etcd/src/watch_service.rs:119-186 | in every interleaving no event at or below a reported progress revision is delivered after the report, and every write at or below it that the watch asks for was delivered before it, as past change or as event, if and only if it reaches the watch, which all do without a gap |
| WatchRuns.ProgressReports | mem_etcd/src/watch_service.rs:165-186 | in every run a progress response names no less than any event delivered before, any earlier response and the stored progress, and no more than these; when the notification thread is at rest, the last revision sent out |
| WatchRuns.ProgressWasReached | mem_etcd/src/store.rs:519-529 | in every run the stored progress is the last revision sent out when the notification thread was last at rest |
| WatchRuns.UncheckedProgressIff | mem_etcd/src/watch_service.rs:119-186 | in every run, with the channel found empty in one state and progress read in a later one: no continuation delivers an event at or below the report if and only if no job for the watch at or below it was sent out in between |
| WatchRuns.ComesTrueIff | mem_etcd/src/watch_service.rs:126-176 | a report comes true in all continuations if and only if nothing at or below it waits in the channel |
| WatchRuns.SplitProgressBreaks | mem_etcd/src/watch_service.rs:168-176 | a run in which the channel is found empty, then two events arrive, then progress is read: the report names an event that is yet to be delivered |
| WalCodec.RoundTripIff | mem_etcd/src/wal.rs:36-58 | a record is read back, deletes distinct from empty values, if and only if its key is shorter than 2^32 and its value shorter than 2^32 - 1 |
| WalCodec.LogRoundTrip | mem_etcd/src/wal.rs:36-58 | reading the concatenation of written records gives exactly these records and a clean end |
| WalCodec.TruncatedLog | mem_etcd/src/wal.rs:36-58 | after cutting off any number of bytes, reading gives exactly the records that are wholly there, then a clean end if less than a header is left over and an error otherwise |
| WalCodec.HeaderIsRead | mem_etcd/src/wal.rs:190-198 | the header's fields are read as they were written, the lengths truncated to 32 bits |
| WalCodec.Layout | mem_etcd/src/wal.rs:31-34 | the bytes of a record: the revision in eight bytes, the lengths of key and value in four each, least significant first, all ones for a delete, then key and value |
| WalCodec.Reader.ReadExact | mem_etcd/src/wal.rs:38-52 | fills the buffer from the reader or fails at the end of the file |
| WalCodec.Reader.ReadFrom | mem_etcd/src/wal.rs:36-58 | reads the next record as specified: a clean end inside a header, an error inside a body |
| WalMerge.Open | mem_etcd/src/wal.rs:259-270 | every reader stands after its file's first record; an error means that some file cannot be read |
| WalMerge.ReadNext | mem_etcd/src/wal.rs:287-296 | one reader object moves on by one record, or fails, and the others stay where they are |
| WalMerge.LoadWalDir | mem_etcd/src/wal.rs:255-299 | for any number of files: without an error every record of every file is delivered once, each file in its order; with one, a beginning of each file; an error occurs exactly when some file cannot be read to its end; the whole is sorted if the files are |
| WalMerge.InterleavingPermutes | mem_etcd/src/wal.rs:287-296 | what is delivered is a permutation: each record as often as in all files together |
| WalMerge.SortedNeedsSortedFiles | mem_etcd/src/wal.rs:287-296 | the whole is in revision order only if every file is |
| WalMerge.NewestIsLast | mem_etcd/src/wal.rs:287-296 | in a sorted delivery the last record of a key is the newest that any file holds |
| WalMerge.RoundShrinks | mem_etcd/src/wal.rs:287-296 | every round reads from a file or closes one, so the loop ends |
| WalHandoff.StepKeeps | mem_etcd/src/wal.rs:89-249 | every step of an appender or a writer thread keeps the invariants below |
| WalHandoff.OneWriterPerPrefix | mem_etcd/src/wal.rs:99-104 | in every interleaving at most one thread writes a prefix, and its flag is set while it does |
| WalHandoff.WorkIsNotForgotten | mem_etcd/src/wal.rs:94-109 | in every interleaving a non-empty queue has a token, an appender about to send one, or a thread at work on the prefix that will check again |
| WalHandoff.FileIsAPrefix | mem_etcd/src/wal.rs:173-249 | in every interleaving a file holds what was there before and then the first appended records, in append order |
| WalHandoff.AppendedIsTheRun | mem_etcd/src/wal.rs:118-129 | the record of appends that files are compared with is the sequence of append calls, those to prefixes that are not persisted left out |
| WalHandoff.AppendQueues | mem_etcd/src/wal.rs:119-129 | in terms of the settings alone: unless logging is off or the prefix is excluded, an append puts the record last into the queue of its prefix and owes a token; otherwise it does nothing |
| WalHandoff.BatchIsSmall | mem_etcd/src/wal.rs:177-212 | in every interleaving a batch without its last record is encoded in fewer than 16384 bytes |
| WalHandoff.SizeIsLength | mem_etcd/src/wal.rs:207 | the size counted for a batch is the number of bytes written for it |
| WalHandoff.QuietIsComplete | mem_etcd/src/wal.rs:89-249 | when no appender, token or thread is under way, every file holds every appended record in append order, and every waiter is released |
| WalHandoff.NeverStuck | mem_etcd/src/wal.rs:89-112 | unless all is quiet, an appender or a thread can take a step |
| WalProgress.StepWorks | mem_etcd/src/wal.rs:89-249 | every step but an append and the closing of an empty batch while records wait leaves less work to do |
| WalProgress.EveryScheduleEnds | mem_etcd/src/wal.rs:89-249 | from every reachable state every schedule of such steps, however unfair, is at most as long as the work there is, and can go on unless all is quiet |
| WalProgress.ComesToRest | mem_etcd/src/wal.rs:89-249 | from every reachable state such steps lead to where all is quiet, and so everything is written |
| WalProgress.EmptyBatchesLoop | mem_etcd/src/wal.rs:179-189 | a thread alone that closes its batch empty while records wait is back where it was after ten steps |
| WalProgress.AloneAfterOneAppend | mem_etcd/src/wal.rs:89-129 | a single append leads there |
| WalHandoff.ReleasedIsDurable | mem_etcd/src/wal.rs:240-246 | in every interleaving a waiter is released only after its record is written, and in synchronous mode only after an fsync that covers it |
| WalHandoff.OnlySyncSyncs | mem_etcd/src/wal.rs:240-242 | in every interleaving nothing is synced outside the synchronous mode |
| WalHandoff.QuietIsReadable | mem_etcd/src/wal.rs:89-249 | the bytes of a file are then read back as exactly the appended records |
| WalHandoff.EncodeAllConcat | mem_etcd/src/wal.rs:214-239 | appending an encoded batch to an encoded file gives the encoding of all the records |
| WalHandoff.FilesAreSorted | mem_etcd/src/wal.rs:118-119 | if records are appended in revision order then every file can at any time be loaded in revision order, as the merge needs |
| Durability.StepKeeps | mem_etcd/src/store.rs:447-530 | writes, arrivals in any order, appends by the notification thread and steps of the log keep: what is appended to a prefix's log is exactly its writes sent out so far, in revision order |
| Durability.ExpectedAreWrites | mem_etcd/src/store.rs:457-462 | what belongs into a file are writes of keys with its prefix, in strictly increasing order of revision |
| Durability.WritesAreExpected | mem_etcd/src/store.rs:457-462 | every write of a key whose prefix is persisted belongs into a file |
| Durability.FileHoldsFirstWrites | mem_etcd/src/wal.rs:118-249 | in every interleaving of writers, notification thread and log threads, a file holds the first of the writes of its prefix |
| Durability.FileHoldsAllWrites | mem_etcd/src/wal.rs:118-249 | in every interleaving, at rest, each prefix's file holds exactly the writes of that prefix |
| Durability.LoggedAtRest | mem_etcd/src/wal.rs:119-129 | at rest, in terms of the history and the settings alone: unless logging is off or its prefix is excluded, every write is in the file of its prefix with its revision, key and value, and otherwise that file is as it was |
| Durability.SyncWriteIsDurable | mem_etcd/src/store.rs:415-437 | in every interleaving in synchronous mode, the write of a revision is released only when its own record is in its prefix's file and synced |
| Durability.ReleasedIsPersisted | mem_etcd/src/wal.rs:120-122 | in every interleaving in synchronous mode only writes of persisted prefixes are released |
| Durability.ReturnsIff | mem_etcd/src/wal.rs:118-249 | in every interleaving in synchronous mode, at rest, a write has been released if and only if its prefix is not excluded |
| Durability.NotPersistedWaits | mem_etcd/src/store.rs:415-437 | a run of one write on a prefix that is not persisted, at rest with its writer waiting |
| SyncReturns.CanComeToRest | mem_etcd/src/store.rs:509-529 | every run can go on to where all writes are sent out and the log is at rest |
| SyncReturns.CanReturnIff | mem_etcd/src/store.rs:434-437 | in any state of any run in synchronous mode, the writer of a revision can still get back if and only if its prefix is not excluded |
| Durability.FilesAreMergeable | mem_etcd/src/wal.rs:255-299 | at rest the files are readable to their ends, sorted, and hold what belongs into them, as the merge needs |
| Reload.MergedIsHistory | mem_etcd/src/wal.rs:255-299 | every sorted interleaving of what belongs into the files, each file once, is the records of the persisted revisions in the order of the revisions |
| Reload.LoadAtRest | mem_etcd/src/wal.rs:255-299 | in every interleaving, at rest, loading all files, in whatever order, succeeds and delivers exactly the persisted writes, once each, in the order of the revisions |
| Reload.LastRecordIsLastWrite | mem_etcd/src/wal.rs:255-299 | the last delivered record of a persisted key is that of its last write |
| Reload.ReplayedIff | mem_etcd/src/store.rs:457-462 | the delivered records lead to the value that a key has if and only if it has none, or has one that is not empty, logging is on and its prefix is not excluded |
| Rebalance.Schedulers | dist-scheduler/cmd/dist-scheduler/leader_activities.go:230-234 | exactly the members that are not relays |
| Rebalance.ShareIsLeast | dist-scheduler/cmd/dist-scheduler/leader_activities.go:249 | the share is the least number of nodes each with which the schedulers have room for all |
| Rebalance.Stay | dist-scheduler/cmd/dist-scheduler/leader_activities.go:249-266 | of every scheduler as many nodes stay as its share allows, and a node moves only if it has no live scheduler or its scheduler has its share |
| Rebalance.ShortGroups | dist-scheduler/cmd/dist-scheduler/leader_activities.go:272-276 | exactly the schedulers below their share, each once, in any order |
| Rebalance.RoomIsLeft | dist-scheduler/cmd/dist-scheduler/leader_activities.go:277-291 | while nodes remain to be moved some scheduler is below its share, so "all groups are full" is not reached and the index is never taken modulo zero |
| Rebalance.MoveStep | dist-scheduler/cmd/dist-scheduler/leader_activities.go:286-299 | a node that has to move is never already in the group it goes to |
| Rebalance.Move | dist-scheduler/cmd/dist-scheduler/leader_activities.go:286-299 | every node ends in a live group of at most its share, and exactly the nodes that had to move have changed |
| Rebalance.NoFewerMoves | dist-scheduler/cmd/dist-scheduler/leader_activities.go:228 | no other assignment within the share moves fewer nodes |
| Rebalance.UpdateNodeLabels | dist-scheduler/cmd/dist-scheduler/leader_activities.go:227-299 | without schedulers nothing changes; otherwise every node gets a live scheduler, no scheduler has more nodes than any number that is enough for all, and no other such labelling moves fewer nodes |
| Rebalance.NoMoreThanNeeded | dist-scheduler/cmd/dist-scheduler/leader_activities.go:227-299 | after that, for every c with S * c >= N, a scheduler has at most c nodes |
| Rebalance.FewestMoves | dist-scheduler/cmd/dist-scheduler/leader_activities.go:227-299 | every labelling with live schedulers of at most c nodes each, for the least such c, moves at least as many nodes |
| RelayTree.SortIsSorted | dist-scheduler/pkg/schedulerset/schedulerset.go:107-128 | with distinct sort keys sorting gives a strictly ordered list |
| RelayTree.SortNames | dist-scheduler/pkg/schedulerset/schedulerset.go:124-128 | sorting keeps the members |
| RelayTree.SortedUnique | dist-scheduler/pkg/schedulerset/schedulerset.go:107-128 | any two sorted lists of the same names are the same list, whatever the sorting algorithm |
| RelayTree.OrderDoesNotMatter | dist-scheduler/pkg/schedulerset/schedulerset.go:124-128 | the sorted list depends on the set of names only |
| RelayTree.OrderMattersIff | dist-scheduler/pkg/schedulerset/schedulerset.go:107-122 | the sorted list of two members depends on the order they come in if and only if neither is the leader and one is a relay whose name with an a in front is the other's |
| RelayTree.LeaderIsFirst | dist-scheduler/pkg/schedulerset/schedulerset.go:108-113 | the leader is at the top |
| RelayTree.RelaysComeFirst | dist-scheduler/pkg/schedulerset/schedulerset.go:114-120 | relays come before all other scheduler pods but the leader |
| RelayTree.Search | dist-scheduler/pkg/schedulerset/schedulerset.go:176-178 | the loop of the binary search computes its recursive definition |
| RelayTree.OwnPosition | dist-scheduler/pkg/schedulerset/schedulerset.go:171-179 | every member finds its own position in the sorted list |
| RelayTree.SubMembersAreChildren | dist-scheduler/pkg/schedulerset/schedulerset.go:171-190 | whatever order a member has its list in, it sends exactly to the members at positions 10j + 1 up to 10j + fanOut |
| RelayTree.TreeIff | dist-scheduler/pkg/schedulerset/schedulerset.go:181-190 | every position but the first has exactly one parent if and only if the fan-out is ten or there are at most min(fanOut, 10) + 1 members |
| RelayTree.ParentIs | dist-scheduler/pkg/schedulerset/schedulerset.go:181-190 | under that condition the parent of position c is (c - 1) / 10, which is smaller |
| RelayTree.OneSender | dist-scheduler/pkg/schedulerset/schedulerset.go:145-194 | every member but the leader is in the list of exactly one member, whatever order each of them has the members in |
| RelayTree.DeliveredOnceIff | dist-scheduler/pkg/schedulerset/schedulerset.go:181-190 | what the leader sends reaches every member exactly once if and only if the fan-out fits |
| RelayTree.SameTarget | dist-scheduler/pkg/schedulerset/schedulerset.go:130-143 | all members choose the same member to send a pod's scores to |
| RelayTree.TargetIff | dist-scheduler/pkg/schedulerset/schedulerset.go:130-143 | however the members are sorted, the one at position j is the target of exactly the hashes with remainder j |
| RelayTree.SchedulerSet.MembersChanged | dist-scheduler/pkg/schedulerset/schedulerset.go:55-57 | a change of the members invalidates the remembered list |
| RelayTree.SchedulerSet.SetLeader | dist-scheduler/pkg/schedulerset/schedulerset.go:196-204 | a new leader invalidates the remembered list |
| RelayTree.SchedulerSet.GetSubMembers | dist-scheduler/pkg/schedulerset/schedulerset.go:145-194 | the result is that of the members seen at the last change, under the current leader, remembered or not |
| RelayTree.SchedulerSet.GetTargetForScoring | dist-scheduler/pkg/schedulerset/schedulerset.go:99-143 | the target among the known members, or the pod itself when it may work alone; a division by zero exactly without members when it may not |
| ScoreRound.PickFrom | dist-scheduler/pkg/scoreevaluator/scoreevaluator.go:101-117 | the loop keeps exactly the first hundred of those with the best score |
| ScoreRound.CandidatesAreBest | dist-scheduler/pkg/scoreevaluator/scoreevaluator.go:101-120 | there is something to pick if and only if some score is at least minus one, and every candidate is a recorded score that none exceeds |
| ScoreRound.CandidatesAreFirst | dist-scheduler/pkg/scoreevaluator/scoreevaluator.go:101-117 | with the best score at least minus one, the candidates are all who have it, or the first hundred of them, in the order in which they recorded |
| ScoreRound.FirePicksBest | dist-scheduler/pkg/scoreevaluator/scoreevaluator.go:88-120 | firing panics exactly when all scores are below minus one, and otherwise picks a recorded score that none exceeds |
| ScoreRound.WinnerIsFinalIff | dist-scheduler/pkg/scoreevaluator/scoreevaluator.go:88-126 | once a round has fired, whatever the scores, no continuation changes the winner if and only if the best score it fired on is above minus one |
| ScoreRound.StepKeeps | dist-scheduler/pkg/scoreevaluator/scoreevaluator.go:55-126 | recording, the ticker and returning keep the round's invariant, whatever the scores |
| ScoreRound.PanicsIff | dist-scheduler/pkg/scoreevaluator/scoreevaluator.go:94-120 | a step panics if and only if it fires, no winner above minus one is picked yet, and all recorded scores are below minus one |
| ScoreRound.OneWinner | dist-scheduler/pkg/scoreevaluator/scoreevaluator.go:45-126 | in every run whose first pick is above minus one, that pick is the only one, a best score among those recorded by then, and every caller that returns sees it |
| ScoreRound.WonWith | dist-scheduler/pkg/scoreevaluator/scoreevaluator.go:101-120 | the first pick is above minus one whenever one of the scores it is picked from is |
| ScoreRound.AtMostOnePermitted | dist-scheduler/cmd/dist-scheduler/grpc_server.go:116-127 | in every such run with distinct nodes at most one caller is permitted |
| ScoreRound.BothPermitted | dist-scheduler/pkg/scoreevaluator/scoreevaluator.go:94-97 | a run with scores of minus one in which the ticker fires after the last caller and two callers on different nodes are permitted |
| ScoreRound.LateScorePermitted | dist-scheduler/pkg/scoreevaluator/scoreevaluator.go:47-60 | a run with scores of minus one in which a late caller fires after the ticker and two callers on different nodes are permitted |
| ScoreRound.WaitsForEverIff | dist-scheduler/pkg/scoreevaluator/scoreevaluator.go:63-97 | a waiting caller waits in all continuations if and only if the winner so far is not minus one |
| ScoreRound.RecordsInVainIff | dist-scheduler/pkg/scoreevaluator/scoreevaluator.go:55-97 | a caller that records waits in all continuations if and only if a winner other than minus one is picked and it does not complete the count |
| ScoreRound.LateScoreWaits | dist-scheduler/pkg/scoreevaluator/scoreevaluator.go:55-97 | a run in which the ticker fires and a later score waits in all continuations |
| Evaluators.StepKeeps | dist-scheduler/pkg/scoreevaluator/scoreevaluator.go:45-126 | lookups, records, tickers and returns keep: every evaluator is in a state of a round, and the one in the map is the last and has not fired |
| Evaluators.OneRoundIff | dist-scheduler/pkg/scoreevaluator/scoreevaluator.go:47-53 | in every run, a pod gets a second round if and only if a call looks it up after a round has fired |
| Evaluators.AtMostOnePermitted | dist-scheduler/cmd/dist-scheduler/grpc_server.go:116-127 | in every run a round won above minus one, with distinct nodes, permits at most one caller, and if no call comes late at most one is permitted at all |
| Evaluators.LateCallerIsPermitted | dist-scheduler/pkg/scoreevaluator/scoreevaluator.go:47-53 | once the evaluator is gone, whatever was picked, a caller that comes later can be permitted in a round of its own |
| ScoreRound.OneEvaluator.FireOnce | dist-scheduler/pkg/scoreevaluator/scoreevaluator.go:88-126 | the object changes as the round does, panics when there is nothing to pick, and wakes the callers exactly when it picks |
| ScoreRound.OneEvaluator.RecordScore | dist-scheduler/pkg/scoreevaluator/scoreevaluator.go:55-65 | the score is added; the caller waits when the count is not complete, and otherwise returns with the winner or panics |

## Left out

- Recovery through the store's constructor: the replayed writes are built and dropped without being awaited (`mem_etcd/src/store.rs:173-179`), so it has no effect; the order in which records are delivered is proved instead.
- Stores.Store.Set: is one step; overlapping calls for one key are in `Creation`, where a requirement is on the revision only, and in `WatchSystem` a key is created by one writer, in separate steps.
- Stores.Store.Range: the read of all keys is one step.
- Stores.Store.FindValueForRevision: requires an accepted revision above 0, which the source asserts.
- Stores.Store.PastChanges: only the past of a watch; its channel is modelled in `WatchSystem`.
- Resequencer.NotifyThread.Receive: requires that each revision arrives once, as each write sends one job; a full channel, on which the thread blocks, is taken to be unbounded.
- WatchRuns.WatchHasNoGaps: covers positive start revisions, ranges that the index covers and watches that compaction does not overtake during the call; `WatchRuns.ReachesIff` is without these conditions, and `WatchGaps` shows that each is needed. The job of a write that has not yet read the list of watchers will find the watch there.
- WatchRuns.ProgressIsComplete: takes the test for an empty channel and the read of the progress revision as one step; `WatchRuns.SplitProgressBreaks` shows that this is needed.
- The order of past changes is per key, as in the source, not by revision.
- KvService.TxnFollowsCompareIff: a comparison over a range of keys is read as one of its first key, as the service does not look at the range either.
- KvService.Range: 32-bit targets, on which the limit's cast would truncate, are not modelled; counts are below 2^63.
- Plain put and delete-range requests of the service: the same conditional set without a requirement.
- Events for empty values: the watch service sends them as deletes (`mem_etcd/src/watch_service.rs:107`); the events of the model carry revisions only.
- WalHandoff.StepKeeps: a batch write appends the encoded records and succeeds; raw vectors, short writes and write errors are not modelled, and the batch's time limit is any moment.
- WalProgress.EveryScheduleEnds: takes batches that are closed by their time limit with records waiting to hold at least one; `WalProgress.EmptyBatchesLoop` shows that this is needed.
- WalMerge.LoadWalDir: files are given as their contents; opening and listing the directory, and errors other than a premature end, are not modelled.
- Durability.FileHoldsAllWrites: prefixes are taken as they are, while the source replaces bytes that are not UTF-8 in them; revisions are below 2^63; the notification thread's spool is the set of its arrivals, as `Resequencer.SpoolIsTheRest` proves it to be.
- Rebalance.UpdateNodeLabels: requires distinct, non-empty member names; patches succeed; the share is computed exactly, as the floating-point quotient is for fewer than 2^53 nodes.
- RelayTree.SortedUnique: sorting is specified by its result, which is unique, not by the library's algorithm; without distinct sort keys (a relay's name with an a in front is another pod's name) the order of equal keys is open, as `RelayTree.OrderMattersIff` says.
- RelayTree.SameTarget: the hash of the pod's name is a parameter.
- RelayTree.SchedulerSet.GetSubMembers: one call at a time; the member list is a parameter, and its change handler is a method.
- ScoreRound.OneWinner: is about one evaluator, which any number of callers may hold; what follows when it is deleted is in `Evaluators`, where firing and deleting are one step.
- Leader election, informers, gRPC, the webhook, kube-scheduler, metrics, leases, timers, byte accounting, the load tools and the deployment files.
