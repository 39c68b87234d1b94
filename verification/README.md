# Verified models of the Monetarium wallet

This project models the components of the repository that keep invariants over many calls, and proves
those invariants. `dafny verify dfyconfig.toml` checks all of it (Dafny 4.11).

Code that changes state in place is modelled by classes and loops; every such method is proved against a
specification function, and the theorems are proved about those functions. Where the code keeps a promise
only under a condition, the condition is stated and, unless "Left out" says otherwise, proved to be exact (an
"exactly when"), usually together with a lemma that gives a concrete input on which the promise fails.

## What is modelled

* **Coroutine buffer and dispatcher** (`_vendored/gioui-cpu/runtime.c`). `Coroutines` is the growable circular
  buffer over a real array, proved to be a FIFO queue through growth and wrap-around. `Dispatch` is the strided
  loop over the workgroup grid with its round-robin inner loop, run against a shader program that logs its
  calls. `Scheduling` proves what the log promises: barrier lock-step, the exact life of every coroutine, and an
  exact partition of all subgroups among the threads.
* **Buckets over a flat store** (`libwallet/badgerdb`). `ByteStrings` is the key order, `FlatStore` what every
  operation does to the flat map and what a walk lists, `Buckets` the transaction and bucket objects with their
  iterator loops, `Cursors` the forward cursor and its agreement with ForEach. `BucketTree` is the tree of
  nested maps that the flat store stands for: each operation is faithful to the tree exactly under a guard, and
  runs of guarded operations are.
* **Style tags** (`ui/renderers/html.go`). `StyleTags` prints a styled element tree and scans a tag string;
  `StyleRoundTrip` proves that scanning what was printed gives the text back, every character in its inherited
  style; `StyleLabels` says exactly which labels it makes, one of every word between two tags; `StyleStacks` proves
  that at every position of a document the style stack is the chain of the enclosing styles; `HtmlProviders` holds the imperative loops.
* **Wrapping layout** (`ui/cryptomaterial/grid.go`). `GridWraps`: line breaking, its optimality, the geometry of
  the placed elements for every alignment, and the layout loops with their accumulating offsets.
* **Redraw throttle** (`ui/window.go`). `Throttles` is a step machine of callers, timers, mutex and clock; safety,
  liveness and a bound on steps hold over all interleavings.
* **Page stack** (`app/pagestack.go`), **undo history** (`ui/cryptomaterial/editor.go`), **wallet sets**
  (`libwallet/assets_manager.go`) and **pipe messages** (`_vendored/monetarium-wallet/ipc.go`):
  `PageStacks`, `EditorHistories`, `WalletSets` and `PipeMessages`. `Basics` and `Wrappers` hold shared helpers.

Calls into code outside these files are parameters: how often a coroutine yields (`yieldsOf`), the size an element
reports (`el`), whether a wallet loads or opens (`loads`, `opens`), which page matches (`matcher`), the callback of
ForEach (`fn`), when a pipe breaks (`room`), the order in which a map is ranged over (any).

## Results that differ from what the code or its documentation suggests

* Flat keys of nested buckets are ambiguous: key `bc` of bucket `a` and key `c` of its sub-bucket `b` are one flat
  key, and the later Put replaces the earlier value (`BucketTree.CollisionLosesValue`). Names of which none is a
  proper prefix of a sibling rule this out (`BucketTree.PrefixFreeIsUnambiguous`).
* The owner tag is one byte: a value put into a bucket whose prefix has 256 bytes or more is not listed by that
  bucket (`FlatStore.PutIsListed`; `BucketTree.LongNameHidesValue` gives an input), but by the walk
  over as many bytes of the prefix as the tag then says (`FlatStore.PutIsListedBy`).
* Deleting a top-level bucket leaves the entries of its sub-buckets in the store, and takes a nested bucket whose
  flat key equals the name for a top-level one (`BucketTree.DeleteTopRefines`, `BucketTree.DeleteTopOrphans`,
  `BucketTree.DeleteTopTakesNested`). Get on the name of a sub-bucket returns empty bytes, not nil
  (`BucketTree.GetRefines`).
* A style whose value holds `--` is printed but not read back (`StyleTags.DashedValueIsLost`).
* The end-of-content test of the style scanner compares byte offsets, so text after the last space or tag is dropped
  when the content ends in a character of several bytes (`StyleRoundTrip.RenderRoundTrip`, `StyleLabels.LabelsAreThose`,
  `StyleRoundTrip.LongLastCharacterIsLost`).
* An element without any inherited style pops a style it never pushed. Within a document that began with an empty
  stack this is harmless, because no enclosing element can have a style then (`StyleStacks.StackIsChain`); a style
  left over from elsewhere is lost (`StyleStacks.StackAtPosition`, `StyleRoundTrip.StyleStackDiscipline`,
  `StyleRoundTrip.UnstyledElementPops`).
* Baseline alignment along the horizontal axis can draw an element outside the size the layout returns
  (`GridWraps.BaselineSize` says exactly when, `GridWraps.BaselineOverflows` gives an input).
* A bad wallet of another asset type stays in the list of bad wallets after its record has been deleted, and for
  the rest of the run (`WalletSets.DeleteBadRemoves`, `WalletSets.UnsupportedStaysBad`;
  `WalletSets.UnsupportedIsNotRemoved` gives an input).

## Model

| member | source | states |
|---|---|---|
| Coroutines.CoroutineQueue.Push | _vendored/gioui-cpu/runtime.c:64-89 | the queue gains the element at the back, whether or not the buffer grew; indices and relocated slots follow the index specification |
| Coroutines.CoroutineQueue.Grow | _vendored/gioui-cpu/runtime.c:69-86 | growing and relocating the wrapped part leaves the queue unchanged, from capacity zero and while wrapped; the source's assertion on the room holds inside |
| Coroutines.CoroutineQueue.Unwrap | _vendored/gioui-cpu/runtime.c:75-83 | moves the elements wrapped around the old capacity to the new space, after which the larger block spells the same queue |
| Coroutines.MemMove | _vendored/gioui-cpu/runtime.c:81 | repeats the first elements from the given index on and leaves those before it alone |
| Coroutines.CoroutineQueue.Pop | _vendored/gioui-cpu/runtime.c:91-98 | takes the oldest element if there is one, and otherwise changes nothing |
| Coroutines.Realloc | _vendored/gioui-cpu/runtime.c:74 | the larger block begins with the old contents |
| Coroutines.OccupiedAfterPush | _vendored/gioui-cpu/runtime.c:87-88 | writing at `end` and advancing it appends to the occupied slots, across the wrap |
| Coroutines.OccupiedAfterPop | _vendored/gioui-cpu/runtime.c:92-97 | advancing `start` drops the head, and equal indices mean empty |
| Coroutines.OccupiedAfterGrow | _vendored/gioui-cpu/runtime.c:74-86 | the relocated slots spell the same queue |
| Coroutines.GrowthIsAtFull | _vendored/gioui-cpu/runtime.c:69-81 | growth happens only with all slots but one taken, and the new space then holds the wrapped part, so the assertion cannot fail |
| Coroutines.GrownShape | _vendored/gioui-cpu/runtime.c:74-86 | growth keeps the length and leaves room for the push that caused it |
| Coroutines.PushShape | _vendored/gioui-cpu/runtime.c:64-89 | a push keeps the indices valid and adds one to the length |
| Coroutines.PopShape | _vendored/gioui-cpu/runtime.c:91-98 | a pop keeps the indices valid and takes one off the length unless it is zero |
| Coroutines.GrowthInvariant | _vendored/gioui-cpu/runtime.c:69-86 | over any run relocation is paid for by the capacity gained and capacity by the peak length |
| Coroutines.GrowthBounds | _vendored/gioui-cpu/runtime.c:69-86 | over any run capacity is 0 or 10 doubled some times and at most max(10, twice the peak length), and at most two slots per push are relocated |
| Dispatch.SubgroupsCover | _vendored/gioui-cpu/runtime.c:173-175 | the rounded-up division gives every invocation a subgroup and leaves no subgroup empty |
| Dispatch.DecodeOfGroupIndex | _vendored/gioui-cpu/runtime.c:217-222 | decoding inverts encoding for every cell of the grid |
| Dispatch.GroupIndexOfDecode | _vendored/gioui-cpu/runtime.c:217-222 | encoding inverts decoding for every index, and the cell lies in the grid |
| Dispatch.DecodeGroup | _vendored/gioui-cpu/runtime.c:217-222 | the loop's arithmetic yields the cell of the index |
| Dispatch.BeginAndPush | _vendored/gioui-cpu/runtime.c:225-226 | one begin call, and its coroutine queued behind those begun before it |
| Dispatch.BeginSubgroups | _vendored/gioui-cpu/runtime.c:223-227 | with control barriers, one begin call per subgroup, each coroutine queued once, in order |
| Dispatch.BeginGroup | _vendored/gioui-cpu/runtime.c:223-231 | the begin calls of one workgroup in both barrier modes, and the queue they leave |
| Dispatch.AwaitPopped | _vendored/gioui-cpu/runtime.c:234-239 | awaits the popped coroutine and requeues it if it yielded, destroys it if it completed |
| Dispatch.RunToCompletion | _vendored/gioui-cpu/runtime.c:232-240 | the inner loop terminates with an empty queue, having done what the specification of the remaining run says |
| Dispatch.RunGroup | _vendored/gioui-cpu/runtime.c:223-240 | one round of the strided loop keeps where the thread will end |
| Dispatch.DispatchThread | _vendored/gioui-cpu/runtime.c:196-242 | the thread terminates with an empty queue, having appended exactly the specified log and given out exactly its handles |
| Dispatch.FinishIsThreadLog | _vendored/gioui-cpu/runtime.c:216-241 | the step-by-step specification of a thread equals its log composed workgroup by workgroup |
| Dispatch.AwaitIsWork | _vendored/gioui-cpu/runtime.c:232-240 | every await uses up one unit of the work left: the termination measure of the inner loop |
| Scheduling.BarrierLockStep | _vendored/gioui-cpu/runtime.c:223-240 | at every point of a workgroup's log the await counts of two unfinished coroutines differ by at most one, and none is awaited again before every other has caught up or completed |
| Scheduling.LockStepFrom | _vendored/gioui-cpu/runtime.c:232-240 | the same seen from the middle of a round, for any queue of distinct coroutines |
| Scheduling.DrainTouchesQueued | _vendored/gioui-cpu/runtime.c:232-240 | running the queue only awaits and destroys, and only coroutines that were queued |
| Scheduling.LifeInDrain | _vendored/gioui-cpu/runtime.c:232-240 | the calls on one queued coroutine are its yields, one completing await and one destroy, and nothing else |
| Scheduling.LifeInGroup | _vendored/gioui-cpu/runtime.c:223-240 | the calls on one coroutine over a whole workgroup, from its begin call on |
| Scheduling.BeginOf | _vendored/gioui-cpu/runtime.c:223-231 | the begin call of a handle names a cell of the grid and subgroups that exist |
| Scheduling.Conservation | _vendored/gioui-cpu/runtime.c:216-241 | over a whole thread every begun coroutine is begun once, awaited until it completes and no more, and destroyed once; no other handle is touched |
| Scheduling.BeginsInGrid | _vendored/gioui-cpu/runtime.c:216-231 | nothing outside the grid or beyond the subgroup count is ever begun |
| Scheduling.CoveringInGroup | _vendored/gioui-cpu/runtime.c:223-231 | in both barrier modes a workgroup's begin calls cover each of its subgroups once and no other cell |
| Scheduling.CoveringInThread | _vendored/gioui-cpu/runtime.c:216-231 | a thread covers a subgroup exactly when its stride visits the workgroup, and then once |
| Scheduling.ExactPartition | _vendored/gioui-cpu/runtime.c:216-231 | all threads together begin every subgroup of every workgroup exactly once |
| ByteStrings.LessTransitive | libwallet/badgerdb/bucket.go:279 | the key order of the iterator is transitive |
| ByteStrings.LessTotal | libwallet/badgerdb/bucket.go:279 | the key order is total |
| ByteStrings.LessAfterPrefix | libwallet/badgerdb/bucket.go:77 | keys with a common prefix are ordered by what follows it |
| ByteStrings.PrefixIsInterval | libwallet/badgerdb/bucket.go:279 | the keys with a given prefix are consecutive, so the walk may stop at the first key without it |
| ByteStrings.AscendingIsUnique | libwallet/badgerdb/bucket.go:279 | an ascending key list is determined by its members |
| FlatStore.CreateKeepsTags | libwallet/badgerdb/bucket.go:43-63 | creating buckets keeps every value tagged with a length no longer than its key |
| FlatStore.PutKeepsTags | libwallet/badgerdb/bucket.go:250 | so does Put |
| FlatStore.DeleteKeepsTags | libwallet/badgerdb/bucket.go:255-269 | so do both deletions |
| FlatStore.ListUpToHas | libwallet/badgerdb/bucket.go:279-303 | the walk reports a key exactly when it is listed, with its own value |
| FlatStore.ListUpToAscends | libwallet/badgerdb/bucket.go:279-303 | the walk reports local keys in ascending order |
| FlatStore.ListingIsExact | libwallet/badgerdb/bucket.go:271-305 | ForEach reports, ascending, exactly the entries whose tag names the bucket, a sub-bucket without a value |
| FlatStore.OwnershipPartition | libwallet/badgerdb/bucket.go:291-302 | in any store an entry whose tag does not cover its whole key is reported by the walk over exactly one prefix, the one its tag names; `BucketTree.RunPartition` says which entries these are after a run |
| FlatStore.TopLevelIsUnlisted | libwallet/badgerdb/bucket.go:282-284 | a top-level marker is reported by no walk |
| FlatStore.PutIsListed | libwallet/badgerdb/bucket.go:65-71 | a fresh value is reported by its bucket exactly when the bucket's prefix has at most 255 bytes |
| FlatStore.PutIsListedBy | libwallet/badgerdb/bucket.go:65-71 | whatever the length, a fresh entry is reported by exactly one walk, that over the first bytes of the prefix, their number modulo 256 |
| FlatStore.DeleteTopRemovesOwned | libwallet/badgerdb/db.go:86-121 | removes the marker and exactly the entries the bucket's walk lists, changing no other |
| Buckets.StoreIterator.Seek | libwallet/badgerdb/bucket.go:279 | lands on the first key that is not below the one sought |
| Buckets.LowerBoundSplits | libwallet/badgerdb/bucket.go:279 | everything before that position is below the key, nothing from there on is |
| Buckets.NothingListedBefore | libwallet/badgerdb/bucket.go:279 | the walk misses nothing by starting at the prefix |
| Buckets.NothingListedBeyond | libwallet/badgerdb/bucket.go:279 | nor by stopping at the first key without the prefix |
| Buckets.Transaction.ReadWriteBucket | libwallet/badgerdb/db.go:56-71 | opens exactly the existing top-level buckets and remembers the handle |
| Buckets.Transaction.CreateTopLevelBucket | libwallet/badgerdb/db.go:73-84 | store, result and handle list as specified, in all error cases too |
| Buckets.Transaction.DeleteTopLevelBucket | libwallet/badgerdb/db.go:86-121 | store and error as specified; the first handle of the bucket, and no other, is forgotten |
| Buckets.Transaction.DeleteEntries | libwallet/badgerdb/db.go:86-121 | deleting what the walk over the remaining snapshot finds removes exactly what is owned |
| Buckets.Transaction.DeleteOwned | libwallet/badgerdb/db.go:86-121 | the deleting loop over a fixed snapshot |
| Buckets.Bucket.CreateBucket | libwallet/badgerdb/bucket.go:107-142 | CreateBucket and CreateBucketIfNotExists: store, bucket handed out and error |
| Buckets.Bucket.NestedReadWriteBucket | libwallet/badgerdb/db.go:160-184 | opens exactly the existing sub-buckets |
| Buckets.Bucket.GetValue | libwallet/badgerdb/bucket.go:217-235 | returns the value without its tag, or nothing for empty, oversized and absent keys |
| Buckets.Bucket.PutValue | libwallet/badgerdb/bucket.go:237-253 | stores the tagged value or reports why not |
| Buckets.Bucket.DeleteValue | libwallet/badgerdb/bucket.go:255-269 | removes the key; empty keys are ignored, oversized ones refused |
| Buckets.Bucket.ForEach | libwallet/badgerdb/bucket.go:271-305 | calls the callback on the listing in order, on all of it unless the callback fails, and stops at the first failure |
| Buckets.Bucket.Walk | libwallet/badgerdb/bucket.go:279-303 | the loop behind ForEach, position by position |
| Buckets.Bucket.Visit | libwallet/badgerdb/bucket.go:280-302 | the step for one item: marker skipped, foreign entries skipped, sub-buckets reported without a value |
| BucketTree.PutRefines | libwallet/badgerdb/bucket.go:237-253 | Put keeps the store the flat form of the tree exactly when nothing but a value at that path is spelled like the key |
| BucketTree.CreateRefines | libwallet/badgerdb/bucket.go:107-142 | creating a sub-bucket is faithful, with the same answer, exactly when no other entry is spelled like it |
| BucketTree.CreateTopRefines | libwallet/badgerdb/bucket.go:43-63 | the same for top-level buckets |
| BucketTree.DeleteRefines | libwallet/badgerdb/bucket.go:255-269 | Delete is faithful exactly when neither another entry nor a bucket is spelled like the key |
| BucketTree.GetRefines | libwallet/badgerdb/bucket.go:217-235 | Get returns what the tree holds exactly when no other entry is spelled like the key |
| BucketTree.OpenRefines | libwallet/badgerdb/db.go:160-184 | opening finds a bucket exactly when some bucket of the tree is spelled like the key |
| BucketTree.OpenNestedRefines | libwallet/badgerdb/db.go:160-184 | opening a nested bucket returns the bucket spelled like the key asked for, nothing for a value or an oversized key, and agrees with the tree exactly when it is not some other bucket |
| BucketTree.ForEachRefines | libwallet/badgerdb/bucket.go:271-305 | ForEach lists the children of the bucket in the tree, all and only those, in name order |
| BucketTree.ChildIsListed | libwallet/badgerdb/bucket.go:291-302 | every child is listed with its own value |
| BucketTree.ListedIsChild | libwallet/badgerdb/bucket.go:291-302 | everything listed is a child, even when one bucket's name begins another's |
| BucketTree.DeleteTopTakes | libwallet/badgerdb/db.go:86-121 | which paths of the tree a top-level deletion takes: the bucket and its direct entries |
| BucketTree.DeleteTopRefines | libwallet/badgerdb/db.go:86-121 | the deletion removes the bucket with all its contents, or nothing if there is none, exactly when no sub-bucket of it holds anything and no nested bucket is spelled like the name |
| BucketTree.DeleteTopAbsent | libwallet/badgerdb/db.go:91-97 | with no such top-level bucket the deletion changes nothing exactly when no nested bucket is spelled like the name |
| BucketTree.DeleteTopOrphans | libwallet/badgerdb/db.go:86-121 | an input on which a value inside a sub-bucket survives the deletion |
| BucketTree.PrefixFreeIsUnambiguous | libwallet/badgerdb/bucket.go:73-78 | without names that begin a sibling's name, the map from paths to flat keys is injective |
| BucketTree.PartingIsClash | libwallet/badgerdb/bucket.go:73-78 | two paths of one flat key part at a bucket whose name begins its sibling's |
| BucketTree.PrefixFreeIsAlone | libwallet/badgerdb/bucket.go:73-78 | keeping names prefix-free is enough for the guard of creations and Puts |
| BucketTree.TagsRuleOutAmbiguity | libwallet/badgerdb/bucket.go:65-71 | with short prefixes the stored owner tags alone already exclude ambiguous trees |
| BucketTree.SameKeySamePath | libwallet/badgerdb/bucket.go:65-71 | two stored paths of one flat key are one path, by the tag |
| BucketTree.DeleteTopTakesNested | libwallet/badgerdb/db.go:91-99 | an input on which deleting a top-level bucket that does not exist succeeds and takes a nested bucket |
| BucketTree.LongPrefixListsNothing | libwallet/badgerdb/bucket.go:291-302 | a bucket whose prefix has more than 255 bytes lists nothing |
| BucketTree.LongNameHidesValue | libwallet/badgerdb/bucket.go:65-71 | an input, a top-level name of 256 bytes, on which a value that has just been put is read by Get and not listed |
| BucketTree.CollisionLosesValue | libwallet/badgerdb/bucket.go:77 | an input on which two paths share a flat key and the second Put replaces the first value |
| BucketTree.StepRefines | libwallet/badgerdb/bucket.go:107-269 | one guarded operation keeps store and tree together, and prefixes short |
| BucketTree.RunRefines | libwallet/badgerdb/bucket.go:107-269 | over any run of guarded operations the store is the flat form of the tree |
| BucketTree.KeyAnswers | libwallet/badgerdb/bucket.go:217-269 | in any store: Put succeeds exactly for legal keys, Delete also for the empty one, and an illegal key creates, reads and opens nothing |
| BucketTree.StepAnswers | libwallet/badgerdb/bucket.go:107-269 | a guarded operation answers as it would on nested maps, exactly when, for a deletion at the top, nothing else is spelled like the name |
| BucketTree.RunStepAnswers | libwallet/badgerdb/bucket.go:107-269 | so over any safe run each operation in turn answers as on nested maps |
| BucketTree.DeleteTopAnswers | libwallet/badgerdb/db.go:86-99 | deleting at the top answers as nested maps would exactly when nothing but the bucket is spelled like the name |
| BucketTree.TopAnswers | libwallet/badgerdb/db.go:73-99 | what creating and deleting at the top find: a bucket of that spelling, a value in the way of both, or nothing |
| BucketTree.NestedAnswers | libwallet/badgerdb/bucket.go:107-140 | what creating a nested bucket finds: nothing, a value in the way, or a bucket, which is an error only if asked for |
| BucketTree.Coherent | libwallet/badgerdb/bucket.go:65-71 | a store that is the flat form of a tree has every value tagged with a length no longer than its key |
| BucketTree.StepOwner | libwallet/badgerdb/bucket.go:65-78 | one operation with a short prefix, guarded or not: an entry keeps its owner or gets the bucket that has just written it |
| BucketTree.OwnerWrote | libwallet/badgerdb/bucket.go:65-78 | over any run with short prefixes every entry is a top-level marker or owned by a bucket through which it was written |
| BucketTree.RunPartition | libwallet/badgerdb/bucket.go:271-305 | after any such run every entry that was not created as a top-level bucket is reported by the walk over exactly one prefix, that of a bucket through which it was written |
| BucketTree.PlainIsSafe | libwallet/badgerdb/bucket.go:73-78 | on existing buckets with short prefixes, a name that begins no sibling's, and no Put or Delete of a sub-bucket, the guard holds |
| BucketTree.PlainRunRefines | libwallet/badgerdb/bucket.go:107-269 | so over any run of such operations the store is the flat form of the tree |
| BucketTree.RunAnswers | libwallet/badgerdb/bucket.go:217-305 | after such a run ForEach answers as the nested maps do, and Get does exactly when nothing else is spelled like the key |
| BucketTree.PlainRunAnswers | libwallet/badgerdb/bucket.go:217-305 | after a run of plain operations Get, opening and ForEach answer as the nested maps do, Get and opening for every key that is there or begins no sibling's name and has none begin it |
| Cursors.Cursor.Current | libwallet/badgerdb/db.go:370-393 | returns the entry under the iterator if the bucket owns it, or moves on to the next that it owns |
| Cursors.Cursor.First | libwallet/badgerdb/db.go:360-393 | lands on the first owned entry, past the bucket's marker if that is there |
| Cursors.Cursor.Next | libwallet/badgerdb/db.go:437-473 | lands on the next owned entry; the recursion over foreign entries terminates |
| Cursors.Cursor.Seek | libwallet/badgerdb/db.go:526-562 | a nil key is First, an oversized one finds nothing and moves nothing, any other lands on the first owned entry from there; the cursor remembers what it reports, so that Next goes on from it |
| Cursors.CursorFollowsListing | libwallet/badgerdb/db.go:437-473 | each call returns the next pair of ForEach, or nil after the last |
| Cursors.CursorRunIsListing | libwallet/badgerdb/db.go:360-473 | from any position past the marker the rest of the calls gives the rest of the listing |
| Cursors.NothingBeforeStart | libwallet/badgerdb/db.go:365-369 | where First begins, nothing of the listing has been passed and the bucket's own marker, if there, has |
| Cursors.Collect | libwallet/badgerdb/db.go:360-473 | First and Next until nil terminate and give the specified run |
| Cursors.CollectAll | libwallet/badgerdb/db.go:360-473 | First and Next until nil give exactly ForEach's pairs, in order, with or without the bucket's marker |
| Cursors.SeekIsLeast | libwallet/badgerdb/db.go:526-562 | a non-empty key lands on the least pair of the bucket that is not below it, or on nothing when all are below |
| Cursors.CollectFrom | libwallet/badgerdb/db.go:437-562 | Seek with a key and then Next until nil gives exactly the pairs of ForEach whose keys are not below it, in order |
| Cursors.SeekRun | libwallet/badgerdb/db.go:437-562 | from where Seek begins, what the cursor has still to return is exactly the part of the listing that is not below the key |
| Cursors.SeekEmpty | libwallet/badgerdb/db.go:526-562 | an empty key lands on the bucket's own marker if the bucket is top-level, and otherwise where First does |
| StyleTags.OwnEntriesWin | ui/renderers/html.go:544-550 | an element has its own entries and, where it has none, those of its parent |
| StyleTags.ParsePrinted | ui/renderers/html.go:316-333 | addStyleGroup reads back the map that was printed, for any order of its entries |
| StyleTags.SplitPrinted | ui/renderers/html.go:317-322 | splitting a printed style string gives its entries back |
| StyleTags.PartIsClean | ui/renderers/html.go:321-324 | splitting an entry gives key and value |
| StyleTags.DashedValueIsLost | ui/renderers/html.go:321-324 | a style whose value holds the separator `--` is not read back |
| StyleRoundTrip.RenderRoundTrip | ui/renderers/html.go:216-287 | the labels spell the text of the tree, each character in its inherited style, exactly when the printed content is empty or ends in a one-byte character |
| StyleRoundTrip.ScanNodes | ui/renderers/html.go:242-287 | scanning printed nodes from any idle state: position, stack, text seen and open label afterwards |
| StyleRoundTrip.ScanElement | ui/renderers/html.go:544-561 | the same for one element: push, content, pop, tail |
| StyleRoundTrip.ScanText | ui/renderers/html.go:259-267 | plain text goes to labels in the current style and changes nothing else |
| StyleRoundTrip.ScanOpen | ui/renderers/html.go:245-286 | an opening tag ends the label and pushes its style unless that is empty |
| StyleRoundTrip.ScanClose | ui/renderers/html.go:255-275 | a closing tag ends the label and pops a style if there is one |
| StyleRoundTrip.StyledBelow | ui/renderers/html.go:544-550 | below a styled element every element has a style, because it inherits |
| StyleRoundTrip.StyleStackDiscipline | ui/renderers/html.go:310-333 | after a whole document the stack has been popped once too often per element without style, so it is restored exactly when it was empty or there is no such element |
| StyleRoundTrip.ChainSurvivesContent | ui/renderers/html.go:269-286 | after the content of a styled element the stack is what it was before that content |
| StyleStacks.StackAtPosition | ui/renderers/html.go:242-333 | at every position between siblings, from any pending styles: the stack is the chain of the non-empty enclosing styles on what the elements without style closed so far have left pending |
| StyleStacks.StackIsChain | ui/renderers/html.go:242-333 | from an empty stack, at every position between siblings of any printable document, the stack is exactly the chain of the non-empty enclosing styles |
| StyleStacks.StackIsChainInText | ui/renderers/html.go:259-267 | so it is at every character of a text |
| StyleStacks.StackIsChainInOpenTag | ui/renderers/html.go:245-286 | and inside an opening tag, up to the brace that ends it |
| StyleStacks.StackIsChainInCloseTag | ui/renderers/html.go:255-275 | and inside a closing tag, up to its end |
| StyleStacks.TailIsText | ui/renderers/html.go:553-558 | the tail of a block element is a text after it, so the positions in it are positions in a text |
| StyleStacks.PrintedPlug | ui/renderers/html.go:527-561 | a document is printed as what comes before a position, the content there and what comes after |
| StyleStacks.ScanGoesOn | ui/renderers/html.go:242-287 | scanning the whole content is scanning a part and going on from the loop's state there |
| StyleStacks.StackNeedsNoLookahead | ui/renderers/html.go:242-287 | the loop's stack after a part of the content does not depend on what follows |
| StyleRoundTrip.UnstyledElementPops | ui/renderers/html.go:310-314 | an input on which an element without style takes a pending style away |
| StyleRoundTrip.LongLastCharacterIsLost | ui/renderers/html.go:263 | an input whose last word never becomes a label |
| StyleRoundTrip.LabelsAreWords | ui/renderers/html.go:259-267 | whatever the content, a label has a space at its end or not at all |
| StyleLabels.LabelsAreThose | ui/renderers/html.go:242-287 | rendering a document makes, besides empty labels, exactly one label of every word between two tags, in its inherited style; the very last is missing exactly when the content ends in a character of several bytes |
| StyleLabels.PiecesAreWords | ui/renderers/html.go:263 | the words make up the text; each but the last ends in its only space, and the last has none |
| StyleLabels.LayNodes | ui/renderers/html.go:242-287 | the same from any idle state and before any further content, the first word joined to the label still open |
| StyleLabels.LayElement | ui/renderers/html.go:245-286 | for one element: its tags end the labels before and in it |
| StyleLabels.LayText | ui/renderers/html.go:259-267 | for plain text: only a space or the end of the content ends a label |
| StyleLabels.StepEndsLabel | ui/renderers/html.go:245-275 | whatever the content, a character ends a label only as a space, at the end or with a tag, and outside all tags it then does |
| StyleLabels.BlockEndsLine | ui/renderers/html.go:554-557 | after a block element come two labels of their own, a space and a line break; after any other element none |
| StyleRoundTrip.BraceFreeIsPrintable | ui/renderers/html.go:544-561 | documents whose texts hold no opening brace meet the condition of the round trip |
| HtmlProviders.StyleMapToString | ui/renderers/html.go:518-525 | prints every entry of the map once, in some order |
| HtmlProviders.InheritStyle | ui/renderers/html.go:545-550 | own entries win and the parent's fill in |
| HtmlProviders.HtmlProvider.AddGroup | ui/renderers/html.go:316-333 | the loop over the parts, and no push of an empty map |
| HtmlProviders.HtmlProvider.RemoveLastStyleGroup | ui/renderers/html.go:310-314 | pops one style if there is one |
| HtmlProviders.HtmlProvider.Render | ui/renderers/html.go:216-287 | the flag machine computes the specified scan, whose labels and style stack the rows above describe |
| GridWraps.EndsAreGreedy | ui/cryptomaterial/grid.go:45-75 | each line fits and ends only when the next element would overflow it |
| GridWraps.LinesSplitItems | ui/cryptomaterial/grid.go:45-75 | the lines are consecutive runs, each within the main constraint or a single element |
| GridWraps.LinesStopExactly | ui/cryptomaterial/grid.go:45-78 | an element that overflows its line begins a new one exactly when the cross axis still has room for it: the whole axis, less the line before if its own line has one element; otherwise it and all after it are left out |
| GridWraps.EndsStop | ui/cryptomaterial/grid.go:45-78 | the same from any position of the loop |
| GridWraps.GreedyStaysAhead | ui/cryptomaterial/grid.go:45-75 | no fitting order-preserving split is ever ahead of the lines |
| GridWraps.GreedyIsOptimal | ui/cryptomaterial/grid.go:45-75 | no order-preserving split of the same elements into fitting lines has fewer lines |
| GridWraps.LinesAreFewest | ui/cryptomaterial/grid.go:45-78 | when every element fits the main axis and none is refused, every line is within the main constraint and no split of all elements into fitting lines has fewer lines |
| GridWraps.AllPlaced | ui/cryptomaterial/grid.go:49-51 | when any two elements fit the cross axis together none is refused |
| GridWraps.LineGeometry | ui/cryptomaterial/grid.go:102-134 | for every alignment, the elements of a line lie side by side inside a box of a given height exactly when none is shifted out of it |
| GridWraps.ItemsArePlaced | ui/cryptomaterial/grid.go:99-135 | in every line an element begins where the one before it ends, the line where those before it end, and across it Start has the near edges, End the far edges and horizontal Baseline the baselines in one line, and Middle the same space on both sides up to one unit |
| GridWraps.BaseIsLargest | ui/cryptomaterial/grid.go:102-116 | the common baseline is the largest of the line |
| GridWraps.TallestIsOne | ui/cryptomaterial/grid.go:56-62 | the height of a line is that of its tallest element |
| GridWraps.ExtentAdds | ui/cryptomaterial/grid.go:56-62 | positions along a line add up the sizes of the elements |
| GridWraps.DepthAdds | ui/cryptomaterial/grid.go:66-68 | lines lie directly below one another, and the returned size is the sum of their heights |
| GridWraps.WidestIsOne | ui/cryptomaterial/grid.go:66-68 | and the extent of the widest line |
| GridWraps.FittingLinesAreLaidOut | ui/cryptomaterial/grid.go:65-80 | for every alignment, when no line sticks out of its own height every element is drawn once, in order, inside the returned size, and no two overlap |
| GridWraps.OtherLinesFit | ui/cryptomaterial/grid.go:104-117 | no line sticks out of its height, except perhaps with Baseline alignment along the horizontal axis |
| GridWraps.Geometry | ui/cryptomaterial/grid.go:65-80 | so with any other alignment every element is drawn once, in order, inside the returned size, and no two overlap |
| GridWraps.SizeHolds | ui/cryptomaterial/grid.go:65-80 | for every alignment, everything is drawn inside the returned size exactly when no line sticks out of its own height and that of the lines below |
| GridWraps.VerticalBaselineIsStart | ui/cryptomaterial/grid.go:111-116 | along the vertical axis Baseline alignment draws as Start does |
| GridWraps.BaselineSize | ui/cryptomaterial/grid.go:111-116 | along the horizontal axis Baseline alignment keeps inside the returned size exactly when in every line the largest baseline, less an element's own, plus its height is at most the height of the line and the lines below it |
| GridWraps.BaselineOverflows | ui/cryptomaterial/grid.go:111-116 | an input on which the lines the loop makes are drawn outside the returned size with Baseline alignment |
| GridWraps.LineDrawsShift | ui/cryptomaterial/grid.go:99-135 | drawing a line from the accumulated offset is drawing it further across |
| GridWraps.PlaceAll | ui/cryptomaterial/grid.go:99-135 | draws the line where specified and leaves the offset at the start of the next line |
| GridWraps.Ops.CallShifted | ui/cryptomaterial/grid.go:118-125 | the shift for one element is undone after drawing it |
| GridWraps.EndLine | ui/cryptomaterial/grid.go:66-68 | ends a line: draws it and adds it to the size |
| GridWraps.Layout | ui/cryptomaterial/grid.go:37-81 | the loop makes the specified lines, returns their width and depth, and leaves the accumulated offset at (0, crossSize) |
| GridWraps.DrawnOnScreen | ui/cryptomaterial/grid.go:37-135 | what Layout draws, in screen coordinates along both axes: for every alignment but horizontal Baseline the first elements once each, in order, as rectangles inside the returned size, no two of which overlap |
| GridWraps.DrawnSideBySide | ui/cryptomaterial/grid.go:126-133 | in a row each element begins at the right of the one before it, in a column below it, and the first of a line at the edge |
| GridWraps.KeepsToConstraint | ui/cryptomaterial/grid.go:45-80 | the returned size keeps to the constraint along the axis if every element does |
| Throttles.ExclusiveStep | ui/window.go:93-111 | every step keeps at most one goroutine inside the mutex |
| Throttles.OneTimerStep | ui/window.go:94-110 | every step keeps pending set exactly while one goroutine is between setting and clearing it |
| Throttles.TimedStep | ui/window.go:98-109 | every step keeps what each place knows about the time of the last grant |
| Throttles.SpacedStep | ui/window.go:98-109 | every step keeps grants at least the interval apart |
| Throttles.AnsweredStep | ui/window.go:92-113 | every step keeps each request served by an invalidation that started after it, undecided, or with an invalidation under way |
| Throttles.InvAlways | ui/window.go:88-115 | all of this holds after any interleaving |
| Throttles.ThrottleIsSafe | ui/window.go:88-115 | over all interleavings grants are at least 50 ms apart and at most one timer is outstanding |
| Throttles.ServedOnTime | ui/window.go:88-115 | a request alone is served by one invalidation, at once if the interval has passed since the last grant and otherwise exactly when it has |
| Throttles.CallerRuns | ui/window.go:92-106 | a caller nobody holds up invalidates at once in the quiet, and otherwise leaves a timer for exactly the interval after the last grant |
| Throttles.TimerRuns | ui/window.go:106-113 | a timer that is due and nobody holds up invalidates at once and clears pending |
| Throttles.WaitIsExact | ui/window.go:97-106 | over all interleavings: a caller that finds no timer invalidates itself if the interval has passed, and otherwise its timer is due the interval after the last grant, plus the time from reading the clock to starting it |
| Throttles.NoRequestIsLost | ui/window.go:84-115 | at rest every request made at any step of the run has been followed by an invalidation that started after that step and no earlier by the clock, also one made between the timer's unlock and its invalidate call |
| Throttles.RunsAreBounded | ui/window.go:88-115 | without new requests only a bounded number of steps can follow |
| Throttles.NoDeadlock | ui/window.go:88-115 | unless all is at rest some goroutine can move once enough time has passed |
| Throttles.ComesToRest | ui/window.go:88-115 | from any state some steps, none of them a request, bring everything to rest |
| Throttles.EveryRequestCanBeServed | ui/window.go:84-115 | any run can go on, without further requests, until all is at rest and an invalidation has started after any given request of the run |
| PageStacks.PushKeepsInv | app/pagestack.go:40-69 | pushing keeps IDs distinct, exactly the top page shown, and stays balanced |
| PageStacks.PopKeepsInv | app/pagestack.go:76-96 | so does popping |
| PageStacks.PopAfterKeepsInv | app/pagestack.go:106-132 | so does popping down to a page |
| PageStacks.ResetKeepsInv | app/pagestack.go:140-156 | Reset keeps all this exactly when the new pages have distinct IDs |
| PageStacks.LifecycleHolds | app/pagestack.go:40-156 | over any run: distinct IDs, exactly the top page shown, every stay of a closable page ended by OnNavigatedFrom and then OnClosed, once |
| PageStacks.CallbacksInOrder | app/pagestack.go:40-156 | for every operation: which pages are then on the stack and in which order, and on which pages, in which order, it makes the callbacks of each kind |
| PageStacks.AttachedThenShown | app/pagestack.go:64-67 | a new page is attached and then at once shown |
| PageStacks.PageStack.PushAndNavigate | app/pagestack.go:40-69 | pages and callbacks as specified, and whether it pushed |
| PageStacks.PageStack.PopPage | app/pagestack.go:76-96 | pages and callbacks as specified, and whether there was a page |
| PageStacks.PageStack.PopPagesAfter | app/pagestack.go:106-132 | pages and callbacks as specified; nothing happens when no page matches |
| PageStacks.PageStack.ResetPages | app/pagestack.go:140-156 | pages and callbacks as specified |
| EditorHistories.MovesKeepTimeline | ui/cryptomaterial/editor.go:442-460 | undo and redo move one step along a timeline they do not change |
| EditorHistories.UndoRedoInverse | ui/cryptomaterial/editor.go:442-460 | they are mutual inverses on text, selection and both stacks |
| EditorHistories.MovesFollowTimeline | ui/cryptomaterial/editor.go:442-460 | after any series of moves the editor shows the state of the original timeline at the position the moves lead to |
| EditorHistories.EditDiscardsFuture | ui/cryptomaterial/editor.go:431-440 | a change of text discards the future and can itself be undone |
| EditorHistories.UndoGivesBack | ui/cryptomaterial/editor.go:431-450 | after any edits, undoing shows the contents before them, newest first, as far back as 64 |
| EditorHistories.TypedIsKept | ui/cryptomaterial/editor.go:431-440 | after any edits the undo stack holds the newest 64 of the contents before them |
| EditorHistories.SameTextKeepsTimeline | ui/cryptomaterial/editor.go:431-434 | a change that leaves the text alone leaves alone what can be undone and redone |
| EditorHistories.StacksStayBounded | ui/cryptomaterial/editor.go:431-460 | over any run both stacks together hold at most 64 entries |
| EditorHistories.Editor.PushHistory | ui/cryptomaterial/editor.go:431-440 | records, trims and clears as specified, and does nothing while history is applied |
| EditorHistories.Editor.UndoEdit | ui/cryptomaterial/editor.go:442-450 | moves back on the specified history |
| EditorHistories.Editor.RedoEdit | ui/cryptomaterial/editor.go:452-460 | moves forth on the specified history |
| EditorHistories.Editor.Restore | ui/cryptomaterial/editor.go:462-467 | sets text and selection and leaves both stacks alone |
| WalletSets.ListIsUnique | libwallet/assets_manager.go:352-380 | the order of the live wallets is one canonical list whatever the map order |
| WalletSets.ListOrder | libwallet/assets_manager.go:352-380 | in that list watch-only wallets come last, and each kind is in ascending order of ID |
| WalletSets.LoadAllSplits | libwallet/assets_manager.go:181-208 | every stored record ends up live or bad, by type and load result |
| WalletSets.LoadAllIsDisjoint | libwallet/assets_manager.go:181-208 | the two sets are disjoint exactly when no ID is loaded both ways |
| WalletSets.OpenConserves | libwallet/assets_manager.go:286-324 | opening conserves the union and keeps the sets disjoint; exactly the visited wallets that refuse to open change sides |
| WalletSets.RunKeepsDisjoint | libwallet/assets_manager.go:181-470 | at no point of a run is a wallet both live and bad, exactly when every record that is loaded or added has an ID not in use on the other side |
| WalletSets.StepKeepsDisjoint | libwallet/assets_manager.go:181-470 | one operation keeps the sets disjoint exactly when its record's ID is not in use on the other side |
| WalletSets.FreshIdsAreApart | libwallet/assets_manager.go:181-208 | IDs that are not in use at all, as the database gives them out, are enough for that |
| WalletSets.AddKeepsDisjoint | libwallet/assets_manager.go:414-418 | adding a wallet keeps the sets disjoint exactly when its ID is not bad |
| WalletSets.DeleteBadRemoves | libwallet/assets_manager.go:452-470 | a bad wallet leaves the list exactly when it is of the supported type |
| WalletSets.DeleteRemoves | libwallet/assets_manager.go:393-409 | a live wallet of the supported type is gone exactly when its deletion succeeds, and nothing else changes |
| WalletSets.RunIsLives | libwallet/assets_manager.go:181-470 | over any run with IDs apart both sets hold exactly what each wallet's own life, followed one wallet at a time, comes to |
| WalletSets.StepIsLife | libwallet/assets_manager.go:181-470 | one operation does to the sets what it does to each wallet |
| WalletSets.UnsupportedStaysBad | libwallet/assets_manager.go:203-470 | over any such run a record of an unsupported type stays bad once loaded, through all deletions, unless another record is loaded under its ID |
| WalletSets.UnsupportedIsNotRemoved | libwallet/assets_manager.go:452-470 | an input on which a bad wallet is still listed after its deletion |
| WalletSets.AssetsManager.PrepareExistingWallets | libwallet/assets_manager.go:181-208 | both maps as specified |
| WalletSets.AssetsManager.SortWallets | libwallet/assets_manager.go:352-380 | returns each live wallet once, watch-only ones last, otherwise by ID |
| WalletSets.AssetsManager.MarkWalletBad | libwallet/assets_manager.go:314-324 | moves the wallet from the live to the bad map |
| WalletSets.AssetsManager.OpenWallets | libwallet/assets_manager.go:262-309 | errors without effect while syncing or on a wrong passphrase; otherwise opens the list in order until shut down |
| WalletSets.AssetsManager.OpenEach | libwallet/assets_manager.go:282-309 | both maps after the loop, and an error exactly when all wallets were tried and none opened |
| WalletSets.AssetsManager.DeleteWallet | libwallet/assets_manager.go:393-409 | removes a live wallet unless it cannot be deleted |
| WalletSets.AssetsManager.DeleteBadWallet | libwallet/assets_manager.go:452-470 | removes a bad wallet, with the error cases |
| PipeMessages.FrameRoundTrip | _vendored/monetarium-wallet/ipc.go:77-106 | one frame is read back and the rest left alone exactly when its lengths fit the header |
| PipeMessages.StreamRoundTrip | _vendored/monetarium-wallet/ipc.go:77-106 | any messages with lengths that fit are read back from the concatenated stream |
| PipeMessages.StreamIsUnique | _vendored/monetarium-wallet/ipc.go:18-24 | different message sequences never make the same stream |
| PipeMessages.TruncatedFrame | _vendored/monetarium-wallet/ipc.go:18-24 | no proper prefix of a frame decodes |
| PipeMessages.WholeIsMost | _vendored/monetarium-wallet/ipc.go:77-106 | the count of whole frames within a number of bytes is the largest that fits |
| PipeMessages.CutStreamIsPrefix | _vendored/monetarium-wallet/ipc.go:70-109 | a stream cut off anywhere decodes to exactly the messages whose frames lie whole before the cut |
| PipeMessages.LittleEndianRoundTrip | _vendored/monetarium-wallet/ipc.go:86-87 | the four length bytes record every length below 2^32 |
| PipeMessages.EventTypes | _vendored/monetarium-wallet/ipc.go:128-181 | the three type names, byte by byte; they differ in length and fit the length byte |
| PipeMessages.EventsAreAnnounced | _vendored/monetarium-wallet/ipc.go:128-181 | each event is decoded, whatever follows it, to its type name and the bytes it came with |
| PipeMessages.Transmit | _vendored/monetarium-wallet/ipc.go:70-109 | writes the frames of all messages, or exactly as many bytes as the pipe takes before it fails |
| PipeMessages.Send | _vendored/monetarium-wallet/ipc.go:90-98 | one write advances the stream by its bytes or ends it where the pipe breaks |

## Left out

- Machine words in runtime.c: counts, indices and capacities are unbounded here; the source's `int` and `unsigned` must not overflow, `nthreads` must be positive and reallocation must succeed.
- Coroutines that yield for ever: each coroutine yields a finite, fixed number of times, which is what makes the inner loop terminate.
- The descriptor set and the shared memory block of prepare_dispatch and dispatch_thread.
- Badger itself: its store is a map in key order, an iterator sees a snapshot, and its own errors (conflicts, key size limits, discarded or read-only transactions, a closed database) do not occur.
- The slice capacity shared by `append(prefix, key...)`: keys are values here.
- dropBucket, DeleteNestedBucket, KeyN, Cursor.Last, Cursor.Prev and Cursor.Delete; the `writable` flag, setTx and the list of sub-bucket handles.
- Cursors.Cursor.Next: requires an iterator that is not exhausted and, before the first call, some key that is not below the prefix, as First does; otherwise the source asks Badger for an item where there is none.
- The goquery, html-to-markdown and gomarkdown passes between printing and scanning, getStyleMap, colours and fonts of labels, and content that is not valid UTF-8.
- StyleRoundTrip.RenderRoundTrip: the condition on texts and style entries (no tag openers, no separators) is sufficient, not necessary.
- Grid.Layout, the drawing operations and elements whose size depends on the constraints offered to them.
- GridWraps.FittingLinesAreLaidOut: for Baseline alignment along the horizontal axis its condition is sufficient, not necessary, for elements of different lines not to overlap.
- GridWraps.Geometry: makes no claim about the cross constraint, which the code does not accumulate over lines.
- The rest of ui/window.go.
- Callbacks that re-enter the page stack, the slice that Reset shares with its caller, and the navigator passed to a page.
- The widget behind the editor: its text and selection are taken to be what was last set; keyboard shortcuts and change events are the operations of a run.
- Buffering and draining of the outgoing message channel, and the receiving side of the pipe.
- Wallet records are an ID, the watch-only flag and the asset type; IDs are the natural numbers the database assigns. The database, file system, log and mutex around the maps, and the sorting algorithm behind `sort.Slice`, which is an insertion sort here.
