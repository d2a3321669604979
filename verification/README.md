# Model of LevelDB's store and formats, and of nanopb

A Dafny model of the two libraries vendored under `Dialogue/Pods/leveldb-library` and
`Dialogue/Pods/nanopb`, with proofs that their parts do what their readers rely on.

LevelDB refines one simple picture: a store is a set of entries (user key, sequence number,
value or deletion), and a read of a user key at a sequence number answers the newest entry
at or below it.

- `Entries`, `Versions`: the order of internal keys, reads, files and levels, point lookup.
- `CompactionInputs`, `CompactionLoop`, `VersionBuilder`: choosing the inputs of a
  compaction, dropping entries, splitting outputs, applying version edits.
- `Store`, `Runs`, `SplitKey`, `Database`: the whole store as a state machine, invariants
  over all runs, a run that loses a deletion, and the object whose methods perform the steps.
- `GroupCommit`, `WriteQueue`: the writer queue under all interleavings of its threads.
- `SkipList`: the linked list under a memtable, in every intermediate state of an insertion.
- `Iterators`, `TwoLevel`, `DbIter`: cursors in two directions, up to the user's view.
- `Coding`, `Block`, `Log`, `Filters`: the byte formats, written and read back.
- `Comparators`, `Tables`: keys shortened for an index, tables built, opened and searched.
- `HandleTable`, `LruCache`, `Caches`: the hash table and the two rings of the cache, and what
  clients can rely on over all runs.
- `VersionEdits`, `Manifest`: the stored form of edits, and recovery from a torn manifest.

nanopb prints and parses messages of a type that is a tree of fields:

- `Pb`: message types, messages, and the bytes that stand for them.
- `PbEncode`: the encoder, which counts and writes with the same code.
- `PbRecords`, `PbDecode`: what each record makes of a message, the decoder, the round trip.

Methods that change state are proved against specification functions and predicates; the
lemmas beside them say what those mean for a reader of the store.

## What turned out false

A compaction does not keep every read. `SetupOtherInputs` (`db/version_set.cc:1403-1462`)
adds boundary files to the inputs of `level` only. When a file of `level + 1` that is left
out continues a user key of one that is compacted, `IsBaseLevelForKey` does not look at
`level + 1`, a deletion of that user key may be dropped, and an older value in the left-out
file comes back. `SplitKey.SplitKeyResurrects` is a run from the empty store in which this happens;
`CompactionLoop.CompactionKeepsReads` and `Runs.FinishKeepsReadsExactly` say exactly when
reads are kept, and `Store.Splitless` is a guard on the inputs that rules the failure out.

A nanopb message does not always come back. A field without a flag is left out when it
holds zero, and decoding then gives it its default value. `PbDecode.DefaultComesBack` is a
message that changes; `PbDecode.RoundTrip` with `PbRecords.RecoveredIsSame` says exactly when
one comes back unchanged: no such field holds zero while its default is something else.

## Modelling choices

- User keys stand for their rank in the order of the user comparator wherever the code only
  compares them; internal keys carry a 56-bit sequence number and a kind.
- A file is its number, its bounds and its sorted entries. Sizes of tables are a parameter.
- The merged input of a compaction is what the merging iterator over the inputs yields.
- The CRC is a fold with an uninterpreted step, the Bloom hash is any function.
- Ghost parameters of decoders name a value that may lie in the input: the contract says
  that it is what is decoded, for well-formed input; the code handles any input.
- A comparator is a total order whose separators lie between their arguments, and which
  leaves a key alone when there is nothing to separate. Filters hash alike the user keys that
  the comparator takes as equal. The bytewise comparator meets both.
- A handle of the cache is known by its address, and the links through handles are maps from
  addresses; a freed address may be used again. `hash & (length - 1)` is `hash % length`, the
  length being a power of two. Every call holds the lock of its shard from beginning to end.
- The 64-bit fields of a block handle are taken modulo 2^64 when they are written.
- Some parts of invariants stand behind a `forall use: nat`; that is logically the part
  itself, and keeps it out of proofs that do not mention it.
- A flush during a compaction is a separate step of the state machine, not part of the loop.
- A nanopb struct is a value, with one slot for each field and one place for each union; an
  absent optional field holds nothing. What decoding leaves as it was in memory, the items of
  a fixed-count array that were never received, counts as zero.
- A text is what its array holds up to the first zero; one that fills its array with no zero
  can be encoded, but is refused by the decoder.
- A nanopb stream reads or writes memory. `|` on bits that do not overlap is `+`.

## Model

| member | source | states |
|---|---|---|
| `Entries.CompareIsLexicographic` | Dialogue/Pods/leveldb-library/db/dbformat.cc:51-67 | the packed-tag comparison orders internal keys by user key up, then sequence down, then kind down, and is zero only for equal keys |
| `Entries.SeekSplits` | Dialogue/Pods/leveldb-library/db/memtable.cc:100-134 | the first key at or after a target splits a sorted run into the keys before it and the rest |
| `Entries.NewestExists` | Dialogue/Pods/leveldb-library/db/dbformat.h:52-65 | whenever a snapshot sees an entry of a user key, there is a newest one that it sees |
| `Entries.ReadIs` | Dialogue/Pods/leveldb-library/db/dbformat.h:52-65 | when no two entries of a user key share a sequence number, the newest visible entry decides a read, a deletion reading as absence |
| `Entries.ReadLayered` | Dialogue/Pods/leveldb-library/db/db_impl.cc:1123-1136 | over two layers, one newer than the other for every user key, searching the newer first and the older only on a miss is reading their union |
| `Entries.LookupFindsNewest` | Dialogue/Pods/leveldb-library/db/memtable.cc:100-134 | a seek to the lookup key followed by a comparison of user keys finds the newest visible entry of a sorted run, or shows that there is none |
| `Versions.EarlierEndsFirst` | Dialogue/Pods/leveldb-library/db/version_set.cc:593-605 | in a level ordered by smallest key, earlier files end before later ones begin |
| `Versions.FindFile` | Dialogue/Pods/leveldb-library/db/version_set.cc:88-106 | binary search returns the first file whose largest key is at or after the key, or the number of files |
| `Versions.SomeFileOverlapsRange` | Dialogue/Pods/leveldb-library/db/version_set.cc:122-157 | true exactly when some file overlaps the user-key range, on both the linear and the binary-search path, with open ends |
| `Versions.SortNewestFirst` | Dialogue/Pods/leveldb-library/db/version_set.cc:278-280 | the level-0 candidates come out newest number first and are the same files |
| `Versions.OneFileDecides` | Dialogue/Pods/leveldb-library/db/version_set.cc:326-421 | in a sorted level, the one file found by binary search holds the newest visible entry of the user key, even when its entries are split across adjacent files |
| `Versions.FirstHitIsNewest` | Dialogue/Pods/leveldb-library/db/version_set.cc:326-421 | an entry found with nothing visible above it is the newest in the whole version |
| `Versions.Get` | Dialogue/Pods/leveldb-library/db/version_set.cc:326-421 | the level-by-level lookup answers exactly what reading the set of all stored entries answers |
| `CompactionInputs.GetOverlappingInputs` | Dialogue/Pods/leveldb-library/db/version_set.cc:519-559 | returns exactly the files that overlap the range; at level 0 the least range closed under overlap, reached by a restarting loop that terminates |
| `CompactionInputs.SearchFile` | Dialogue/Pods/leveldb-library/db/version_set.cc:530-558 | each round either takes the next file or restarts with a range that leaves strictly fewer files sticking out |
| `CompactionInputs.Widened` | Dialogue/Pods/leveldb-library/db/version_set.cc:519-559 | each restart strictly shrinks the set of files that reach outside the range |
| `CompactionInputs.PickLevelForMemTableOutput` | Dialogue/Pods/leveldb-library/db/version_set.cc:491-516 | the chosen level is 0, or no level down to it overlaps the range |
| `CompactionInputs.GetRange` | Dialogue/Pods/leveldb-library/db/version_set.cc:1205-1224 | the least smallest and the greatest largest key of the inputs |
| `CompactionInputs.FindLargestKey` | Dialogue/Pods/leveldb-library/db/version_set.cc:1326-1340 | the greatest largest key, or none for no files |
| `CompactionInputs.FindSmallestBoundaryFile` | Dialogue/Pods/leveldb-library/db/version_set.cc:1344-1362 | the earliest file that continues the user key of the given largest key, if any |
| `CompactionInputs.AddBoundaryInputs` | Dialogue/Pods/leveldb-library/db/version_set.cc:1378-1401 | the result contains the files, is closed under continuation of its largest user key, stays convex in its level, and the loop terminates |
| `CompactionInputs.BoundaryExtends` | Dialogue/Pods/leveldb-library/db/version_set.cc:1378-1401 | adding the smallest boundary file keeps a selection a selection |
| `CompactionInputs.OverlappingIsSelected` | Dialogue/Pods/leveldb-library/db/version_set.cc:519-559 | overlapping inputs form a convex selection, all of the transitively overlapping ones at level 0 |
| `CompactionInputs.ExpandInputs` | Dialogue/Pods/leveldb-library/db/version_set.cc:1418-1424 | the selection grown to everything of its level that overlaps the range of all inputs, and to the files that continue it |
| `CompactionInputs.SetupOtherInputs` | Dialogue/Pods/leveldb-library/db/version_set.cc:1403-1462 | the next-level inputs are exactly the files overlapping the selection, and widening leaves them as they are; the selection is widened exactly when that makes it larger, stays under the size limit and brings in no further file; the grandparents are the files overlapping the range of all inputs |
| `CompactionInputs.OmittedIsNewer` | Dialogue/Pods/leveldb-library/db/version_set.cc:1403-1462 | no file of the level that is left out holds an older entry of a user key in the inputs |
| `CompactionInputs.OmittedBelowIsApart` | Dialogue/Pods/leveldb-library/db/version_set.cc:1403-1462 | a left-out file of the next level shares no user key with the inputs of the level |
| `CompactionInputs.OmittedBelowIsOutside` | Dialogue/Pods/leveldb-library/db/version_set.cc:1403-1462 | a left-out file of the next level lies wholly before or wholly after all the inputs |
| `CompactionLoop.KeptMembers` | Dialogue/Pods/leveldb-library/db/db_impl.cc:939-963 | the entries that the drop rules keep are exactly those that are neither hidden nor obsolete tombstones |
| `CompactionLoop.KeptSorted` | Dialogue/Pods/leveldb-library/db/db_impl.cc:906-999 | dropping entries keeps the stream sorted |
| `CompactionLoop.HiddenByPrevious` | Dialogue/Pods/leveldb-library/db/db_impl.cc:946-951 | looking only at the sequence number of the previous entry of the same user key decides whether any newer entry hides this one |
| `CompactionLoop.Compaction.IsBaseLevelForKey` | Dialogue/Pods/leveldb-library/db/version_set.cc:1533-1552 | the monotone level pointers answer exactly whether a deeper level's file range holds the user key, for user keys asked in ascending order |
| `CompactionLoop.Compaction.ShouldStopBefore` | Dialogue/Pods/leveldb-library/db/version_set.cc:1554-1576 | the output is cut exactly when the overlapped grandparent bytes exceed the limit |
| `CompactionLoop.Compaction.JudgeEntry` | Dialogue/Pods/leveldb-library/db/db_impl.cc:930-963 | remembering only the user key and sequence number of the previous entry, decides exactly whether an entry is dropped |
| `CompactionLoop.Compaction.DropEntry` | Dialogue/Pods/leveldb-library/db/db_impl.cc:939-963 | drops exactly the hidden entries and the obsolete tombstones |
| `CompactionLoop.Compaction.DoCompactionWork` | Dialogue/Pods/leveldb-library/db/db_impl.cc:878-1036 | the output files, one after the other, are exactly the kept entries, with right bounds and consecutive numbers, wherever they are cut |
| `CompactionLoop.OutputsAreOrdered` | Dialogue/Pods/leveldb-library/db/db_impl.cc:906-999 | the output files are sorted and lie apart from each other |
| `CompactionLoop.NewestKeptOrObsolete` | Dialogue/Pods/leveldb-library/db/db_impl.cc:939-963 | the newest visible entry of a user key is kept, or is an obsolete tombstone |
| `CompactionLoop.CompactedReadAt` | Dialogue/Pods/leveldb-library/db/db_impl.cc:906-999 | what a read at or above the smallest snapshot answers after compaction, exactly |
| `CompactionLoop.CompactionKeepsReads` | Dialogue/Pods/leveldb-library/db/db_impl.cc:906-999 | reads of a user key at or above the smallest snapshot are all kept if and only if no dropped tombstone uncovers an older value outside the inputs |
| `VersionBuilder.OrderedListIsUnique` | Dialogue/Pods/leveldb-library/db/version_set.cc:593-605 | a set of files has one ordered list |
| `VersionBuilder.Builder.Apply` | Dialogue/Pods/leveldb-library/db/version_set.cc:650-692 | deleted numbers accumulate, added files enter their level's set and leave the deleted numbers |
| `VersionBuilder.Builder.SaveTo` | Dialogue/Pods/leveldb-library/db/version_set.cc:695-754 | every level becomes the ordered list of base and added files without the deleted numbers |
| `VersionBuilder.Builder.SaveLevel` | Dialogue/Pods/leveldb-library/db/version_set.cc:695-754 | merging base files into added files in order gives an ordered level |
| `VersionBuilder.AccumulatedIsSequential` | Dialogue/Pods/leveldb-library/db/version_set.cc:924-1000 | when no file returns to a level it left, one builder that is given all edits saves the same files as applying and saving them one by one |
| `Store.InsertEntry` | Dialogue/Pods/leveldb-library/db/memtable.cc:75-98 | inserting an entry keeps the memtable sorted and adds just that entry |
| `Store.FlushKeepsVersion` | Dialogue/Pods/leveldb-library/db/db_impl.cc:491-533 | a flushed file at the picked level keeps the level invariant: sorted disjoint levels, newer above older |
| `Store.ReplaceKeepsVersion` | Dialogue/Pods/leveldb-library/db/db_impl.cc:860-876 | replacing compaction inputs by files within them, one level down, keeps the level invariant |
| `Store.StoredSplits` | Dialogue/Pods/leveldb-library/db/version_set.cc:1403-1462 | what is stored is what is newer than the inputs, the inputs, and what is older |
| `Store.NewerPartIsNewer` | Dialogue/Pods/leveldb-library/db/version_set.cc:1403-1462 | everything in front of the inputs is newer than the inputs, user key by user key |
| `Store.OlderPartIsOlder` | Dialogue/Pods/leveldb-library/db/version_set.cc:1403-1462 | everything behind the inputs is older than the inputs, user key by user key |
| `Store.SplitlessNeverResurrects` | Dialogue/Pods/leveldb-library/db/version_set.cc:1533-1552 | when no left-out next-level file continues a compacted user key, a dropped tombstone has nothing left to hide |
| `Runs.WriteKeeps` | Dialogue/Pods/leveldb-library/db/db_impl.cc:1185-1256 | a write keeps the invariant and every read |
| `Runs.SwitchKeeps` | Dialogue/Pods/leveldb-library/db/db_impl.cc:1346-1366 | so does the memtable switch |
| `Runs.FlushKeeps` | Dialogue/Pods/leveldb-library/db/db_impl.cc:535-566 | so does a flush |
| `Runs.MoveKeeps` | Dialogue/Pods/leveldb-library/db/db_impl.cc:718-733 | so does a trivial move |
| `Runs.FinishKeepsInv` | Dialogue/Pods/leveldb-library/db/db_impl.cc:860-876 | a finished compaction keeps the invariant |
| `Runs.FinishKeepsReadsExactly` | Dialogue/Pods/leveldb-library/db/db_impl.cc:878-1036 | a finished compaction keeps all reads that a live snapshot can make if and only if it resurrects no user key |
| `Runs.FinishKeepsReads` | Dialogue/Pods/leveldb-library/db/db_impl.cc:878-1036 | it keeps them when the inputs split no user key |
| `Runs.StepKeeps` | Dialogue/Pods/leveldb-library/db/db_impl.cc:688-767 | every step keeps the invariant, and every guarded step keeps the reads |
| `Runs.RunKeepsInvariant` | Dialogue/Pods/leveldb-library/db/db_impl.cc:688-767 | in every state of every run the level invariant holds |
| `Runs.RunIsFaithful` | Dialogue/Pods/leveldb-library/db/db_impl.cc:688-767 | in every state of a run with guarded compactions, reads from live snapshots answer as if nothing had ever been dropped |
| `SplitKey.SplitKeyResurrects` | Dialogue/Pods/leveldb-library/db/version_set.cc:1403-1462 | a run from the empty store in which every state reads faithfully until a compaction brings a deleted key back |
| `Database.DB.Get` | Dialogue/Pods/leveldb-library/db/db_impl.cc:1100-1145 | memtable, immutable memtable, levels: the answer is the read of everything stored, and of the whole history when the run was faithful |
| `Database.DB.InsertInto` | Dialogue/Pods/leveldb-library/db/write_batch.cc:116-137 | a batch enters the memtable with consecutive sequence numbers |
| `Database.DB.Write` | Dialogue/Pods/leveldb-library/db/db_impl.cc:1185-1256 | performs a write step |
| `Database.DB.SwitchToNewMemTable` | Dialogue/Pods/leveldb-library/db/db_impl.cc:1346-1366 | performs a switch step |
| `Database.DB.GetSnapshot` | Dialogue/Pods/leveldb-library/db/db_impl.cc:1166-1169 | performs a snapshot step at the last sequence number |
| `Database.DB.ReleaseSnapshot` | Dialogue/Pods/leveldb-library/db/db_impl.cc:1171-1174 | performs a release step |
| `Database.DB.LogAndApply` | Dialogue/Pods/leveldb-library/db/version_set.cc:816-821 | the new version holds, in every level, the ordered files of the old one with the edit applied |
| `Database.DB.CompactMemTable` | Dialogue/Pods/leveldb-library/db/db_impl.cc:535-566 | performs a flush step at the picked level |
| `Database.DB.PickCompaction` | Dialogue/Pods/leveldb-library/db/version_set.cc:1270-1322 | picks closed inputs of the level that is too big, or of the file sought too often, going round by the compaction pointer |
| `Database.DB.SelectRange` | Dialogue/Pods/leveldb-library/db/version_set.cc:1464-1489 | the overlapping files of the range, none exactly when nothing overlaps, all of them at level 0, otherwise a prefix |
| `Database.DB.LimitInputs` | Dialogue/Pods/leveldb-library/db/version_set.cc:1472-1489 | the shortest prefix that reaches the size limit, or everything |
| `Database.DB.CompactRange` | Dialogue/Pods/leveldb-library/db/version_set.cc:1464-1495 | picks closed inputs for a range, cut to the size limit above level 0 |
| `Database.DB.MoveFile` | Dialogue/Pods/leveldb-library/db/db_impl.cc:718-733 | performs a trivial move step |
| `Database.DB.CompleteCompaction` | Dialogue/Pods/leveldb-library/db/db_impl.cc:878-1036 | performs a finish step with the outputs of the compaction loop |
| `Database.DB.ReplaceFiles` | Dialogue/Pods/leveldb-library/db/db_impl.cc:860-876 | the edit of deleted inputs and added outputs replaces exactly those files |
| `GroupCommit.LeadKeeps` | Dialogue/Pods/leveldb-library/db/db_impl.cc:1197-1206 | taking the lead and building a group keep the parts of the invariant about progress and syncing |
| `GroupCommit.LogKeeps` | Dialogue/Pods/leveldb-library/db/db_impl.cc:1211-1212 | so does logging a group, successfully or not |
| `GroupCommit.SyncKeeps` | Dialogue/Pods/leveldb-library/db/db_impl.cc:1213-1219 | so does syncing it |
| `GroupCommit.InsertKeeps` | Dialogue/Pods/leveldb-library/db/write_batch.cc:116-137 | so does each entry that enters the memtable |
| `GroupCommit.FinishKeeps` | Dialogue/Pods/leveldb-library/db/db_impl.cc:1230-1256 | publishing the last sequence number and answering the group keep the whole invariant |
| `GroupCommit.StepKeeps` | Dialogue/Pods/leveldb-library/db/db_impl.cc:1185-1256 | every step of every thread keeps the invariant |
| `GroupCommit.RunKeepsInvariant` | Dialogue/Pods/leveldb-library/db/db_impl.cc:1185-1256 | it holds in every state of every interleaving |
| `GroupCommit.VisibleIsCommitted` | Dialogue/Pods/leveldb-library/db/db_impl.cc:1230 | a reader sees exactly the groups committed by its snapshot, even while the next group is half inserted |
| `GroupCommit.SnapshotIsStable` | Dialogue/Pods/leveldb-library/db/db_impl.cc:1100-1145 | what is visible at a past last sequence number never changes |
| `GroupCommit.AllOrNone` | Dialogue/Pods/leveldb-library/db/db_impl.cc:1185-1256 | a successful group is visible as a whole or not at all, and a failed one never |
| `GroupCommit.SuccessIsCommitted` | Dialogue/Pods/leveldb-library/db/db_impl.cc:1185-1306 | a writer answered with success has its batch in one log record and in the memtable, under its own sequence numbers, and synced if it asked for that |
| `GroupCommit.LogIsOrdered` | Dialogue/Pods/leveldb-library/db/db_impl.cc:1200-1206 | the log records carry disjoint, increasing ranges of sequence numbers |
| `GroupCommit.ServedInOrder` | Dialogue/Pods/leveldb-library/db/db_impl.cc:1236-1246 | writers are served in the order of arrival, each exactly once, by one leader at a time |
| `WriteQueue.Writers.Enqueue` | Dialogue/Pods/leveldb-library/db/db_impl.cc:1185-1192 | a writer joins at the back |
| `WriteQueue.Writers.TryLeave` | Dialogue/Pods/leveldb-library/db/db_impl.cc:1193-1198 | a served writer returns its answer, the front writer takes the lead, any other waits |
| `WriteQueue.Writers.BuildBatchGroup` | Dialogue/Pods/leveldb-library/db/db_impl.cc:1199-1206 | builds a group, or commits nothing when there is no room or no batch |
| `WriteQueue.Writers.Collect` | Dialogue/Pods/leveldb-library/db/db_impl.cc:1260-1306 | the group is a prefix of the queue, merged in order, with no sync writer behind a leader that does not sync, within the size limit, and stops only where it must |
| `WriteQueue.Writers.Finish` | Dialogue/Pods/leveldb-library/db/db_impl.cc:1230-1256 | performs a finish step |
| `WriteQueue.Writers.PopGroup` | Dialogue/Pods/leveldb-library/db/db_impl.cc:1236-1246 | pops exactly the group and answers every writer in it but the leader |
| `SkipList.List.FindGreaterOrEqual` | Dialogue/Pods/leveldb-library/db/skiplist.h:260-281 | the first node at or after the key, and the last node before it on every level |
| `SkipList.List.FindLessThan` | Dialogue/Pods/leveldb-library/db/skiplist.h:283-302 | the last node before the key |
| `SkipList.List.FindLast` | Dialogue/Pods/leveldb-library/db/skiplist.h:304-322 | the last node |
| `SkipList.List.Contains` | Dialogue/Pods/leveldb-library/db/skiplist.h:370-378 | true exactly when an entry with the key is in the list |
| `SkipList.InsertKeepsOrder` | Dialogue/Pods/leveldb-library/db/skiplist.h:361-367 | a node put at the cut of its key keeps a level strictly sorted |
| `SkipList.List.Link` | Dialogue/Pods/leveldb-library/db/skiplist.h:361-367 | after each link all levels are sorted and each is a sublist of the one below; only the lowest link changes the contents |
| `SkipList.List.Insert` | Dialogue/Pods/leveldb-library/db/skiplist.h:336-368 | the entry joins the contents where it belongs |
| `SkipList.Iterator.Prev` | Dialogue/Pods/leveldb-library/db/skiplist.h:213-221 | one entry back, or invalid before the first |
| `SkipList.Iterator.Seek` | Dialogue/Pods/leveldb-library/db/skiplist.h:224-226 | the first entry at or after the target |
| `SkipList.SearchBesideInsert` | Dialogue/Pods/leveldb-library/db/skiplist.h:260-368 | in every interleaving of a search with the links of an insertion, the search ends, and answers for the contents before the insertion or, when the lowest link was set before its last round, after it |
| `SkipList.SearchStep` | Dialogue/Pods/leveldb-library/db/skiplist.h:260-281 | the answer of a search that runs beside an insertion is right for the contents at its last round |
| `SkipList.InsertedInOrder` | Dialogue/Pods/leveldb-library/db/skiplist.h:336-368 | the skip list's place for an entry is its place in the sorted memtable |
| `SkipList.MemTable.Add` | Dialogue/Pods/leveldb-library/db/memtable.cc:75-98 | the skip list refines the sorted memtable |
| `SkipList.MemTable.Get` | Dialogue/Pods/leveldb-library/db/memtable.cc:100-134 | finds the newest visible entry of a user key |
| `Iterators.MergingIterator.FindSmallest` | Dialogue/Pods/leveldb-library/table/merger.cc:148-161 | settles on the first key of the union past a cut |
| `Iterators.MergingIterator.FindLargest` | Dialogue/Pods/leveldb-library/table/merger.cc:163-176 | settles on the last key of the union before a cut |
| `Iterators.MergingIterator.Seek` | Dialogue/Pods/leveldb-library/table/merger.cc:47-53 | the first key of the union at or after the target |
| `Iterators.MergingIterator.SeekToFirst` | Dialogue/Pods/leveldb-library/table/merger.cc:31-37 | the first key of the union |
| `Iterators.MergingIterator.SeekToLast` | Dialogue/Pods/leveldb-library/table/merger.cc:39-45 | the last key of the union |
| `Iterators.MergingIterator.Next` | Dialogue/Pods/leveldb-library/table/merger.cc:55-79 | the next key of the union, also after a change of direction |
| `Iterators.MergingIterator.Prev` | Dialogue/Pods/leveldb-library/table/merger.cc:81-108 | the previous key of the union, also after a change of direction |
| `TwoLevel.TwoLevelIterator.Seek` | Dialogue/Pods/leveldb-library/table/two_level_iterator.cc:82-87 | the first entry of the concatenation at or after the target |
| `TwoLevel.TwoLevelIterator.SeekToFirst` | Dialogue/Pods/leveldb-library/table/two_level_iterator.cc:89-94 | the first entry of the concatenation |
| `TwoLevel.TwoLevelIterator.SeekToLast` | Dialogue/Pods/leveldb-library/table/two_level_iterator.cc:96-101 | the last entry of the concatenation |
| `TwoLevel.TwoLevelIterator.Next` | Dialogue/Pods/leveldb-library/table/two_level_iterator.cc:103-107 | the next position of the concatenation |
| `TwoLevel.TwoLevelIterator.Prev` | Dialogue/Pods/leveldb-library/table/two_level_iterator.cc:109-113 | the previous position of the concatenation |
| `TwoLevel.TwoLevelIterator.SkipEmptyDataBlocksForward` | Dialogue/Pods/leveldb-library/table/two_level_iterator.cc:115-126 | past empty blocks to the next entry |
| `TwoLevel.TwoLevelIterator.SkipEmptyDataBlocksBackward` | Dialogue/Pods/leveldb-library/table/two_level_iterator.cc:128-139 | past empty blocks to the previous entry |
| `TwoLevel.ConcatAt` | Dialogue/Pods/leveldb-library/table/two_level_iterator.cc:146-161 | where an entry of a block lies in the concatenation |
| `DbIter.ShownIsLive` | Dialogue/Pods/leveldb-library/db/db_iter.cc:168-198 | a position that is shown holds the value that a read of its user key answers |
| `DbIter.LiveIsShown` | Dialogue/Pods/leveldb-library/db/db_iter.cc:168-198 | every user key with a value at the snapshot is shown somewhere |
| `DbIter.DBIter.YieldsRead` | Dialogue/Pods/leveldb-library/db/db_iter.cc:168-198 | a valid iterator yields the value that a read at its snapshot answers |
| `DbIter.DBIter.FindNextUserEntry` | Dialogue/Pods/leveldb-library/db/db_iter.cc:168-198 | the next live user key, hidden entries and deletions skipped |
| `DbIter.DBIter.FindPrevUserEntry` | Dialogue/Pods/leveldb-library/db/db_iter.cc:227-267 | the previous live user key |
| `DbIter.DBIter.Seek` | Dialogue/Pods/leveldb-library/db/db_iter.cc:269-281 | the first live user key at or after the target |
| `DbIter.DBIter.SeekToFirst` | Dialogue/Pods/leveldb-library/db/db_iter.cc:283-292 | the first live user key |
| `DbIter.DBIter.SeekToLast` | Dialogue/Pods/leveldb-library/db/db_iter.cc:294-299 | the last live user key |
| `DbIter.DBIter.Next` | Dialogue/Pods/leveldb-library/db/db_iter.cc:141-166 | the next live user key, in either direction |
| `DbIter.DBIter.Prev` | Dialogue/Pods/leveldb-library/db/db_iter.cc:200-225 | the previous live user key, in either direction |
| `Coding.EncodeVarint32` | Dialogue/Pods/leveldb-library/util/coding.cc:47-73 | the case-by-case encoding is the seven-bits-a-byte encoding |
| `Coding.GetVarint` | Dialogue/Pods/leveldb-library/util/coding.cc:112-157 | decoding gives back the encoded value and its length, whatever follows it, for 32 and 64 bits |
| `Coding.GetVarint32Ptr` | Dialogue/Pods/leveldb-library/util/coding.cc:112-128 | so does the decoder with the one-byte fast path |
| `Coding.Fixed32RoundTrip` | Dialogue/Pods/leveldb-library/util/coding.cc:9-18 | four stored bytes read back as the number |
| `Block.BlockBuilder.Add` | Dialogue/Pods/leveldb-library/table/block_builder.cc:72-106 | appends one entry, shared prefix and restart points included |
| `Block.BlockBuilder.Finish` | Dialogue/Pods/leveldb-library/table/block_builder.cc:62-70 | the finished bytes hold the entries, the restart array and its length |
| `Block.LayoutGrows` | Dialogue/Pods/leveldb-library/table/block_builder.cc:72-106 | an entry stored against its predecessor extends the layout |
| `Block.DecodeEntry` | Dialogue/Pods/leveldb-library/table/block.cc:54-74 | decoding an entry gives back its lengths, key delta and value |
| `Block.BlockIter.ParseNextKey` | Dialogue/Pods/leveldb-library/table/block.cc:224-251 | rebuilds the next entry's key from the shared prefix |
| `Block.BlockIter.Next` | Dialogue/Pods/leveldb-library/table/block.cc:137-140 | one entry on |
| `Block.BlockIter.Prev` | Dialogue/Pods/leveldb-library/table/block.cc:142-161 | one entry back, by way of the restart point before it |
| `Block.BlockIter.Seek` | Dialogue/Pods/leveldb-library/table/block.cc:163-201 | the first entry at or after the target |
| `Block.BlockIter.SeekRestart` | Dialogue/Pods/leveldb-library/table/block.cc:163-191 | binary search finds a restart point with all earlier keys before the target |
| `Block.BlockIter.SeekToFirst` | Dialogue/Pods/leveldb-library/table/block.cc:203-206 | the first entry |
| `Block.BlockIter.SeekToLast` | Dialogue/Pods/leveldb-library/table/block.cc:208-213 | the last entry |
| `Block.Build` | Dialogue/Pods/leveldb-library/table/block_builder.cc:62-106 | any list of entries can be built into a block, for every restart interval |
| `Block.ReadBlock` | Dialogue/Pods/leveldb-library/table/block.cc:137-251 | reading a finished block gives back exactly the entries |
| `Log.ExtendConcat` | Dialogue/Pods/leveldb-library/util/crc32c.h:14-20 | the checksum of a concatenation can be extended piece by piece |
| `Log.UnmaskMask` | Dialogue/Pods/leveldb-library/util/crc32c.h:29-39 | unmasking undoes masking |
| `Log.LayoutExtends` | Dialogue/Pods/leveldb-library/db/log_writer.cc:34-80 | appending a record to a laid-out log gives a laid-out log |
| `Log.Writer.AddRecord` | Dialogue/Pods/leveldb-library/db/log_writer.cc:34-80 | appends exactly the fragments of the record, from any offset in a block |
| `Log.Reader.ReadRecord` | Dialogue/Pods/leveldb-library/db/log_reader.cc:56-174 | returns the next record if it lies wholly in the file, otherwise nothing, and reports nothing |
| `Log.Reader.ReadPhysicalRecord` | Dialogue/Pods/leveldb-library/db/log_reader.cc:189-271 | returns the next physical record, or the end of the file for a truncated one |
| `Log.ReadAll` | Dialogue/Pods/leveldb-library/db/log_reader.cc:56-174 | a log cut at any byte gives back exactly the records wholly before the cut, in order, with no corruption reported |
| `Log.TornTail` | Dialogue/Pods/leveldb-library/db/log_writer.cc:34-108 | writing (reopening at will), cutting and reading gives back the whole records before the cut |
| `Log.UncutIsWhole` | Dialogue/Pods/leveldb-library/db/log_reader.cc:56-174 | with no cut, all records come back |
| `Bloom.BloomFilterPolicy.CreateFilter` | Dialogue/Pods/leveldb-library/util/bloom.cc:28-54 | every key that went into a filter matches it, for every hash and bits-per-key setting |
| `Bloom.BloomFilterPolicy.KeyMayMatch` | Dialogue/Pods/leveldb-library/util/bloom.cc:56-80 | answers exactly whether all probed bits are on |
| `Bloom.SetBitSets` | Dialogue/Pods/leveldb-library/util/bloom.cc:50 | setting a bit sets it |
| `Bloom.OtherBitsStay` | Dialogue/Pods/leveldb-library/util/bloom.cc:50 | and leaves the others alone |
| `FilterBlock.FilterBlockBuilder.StartBlock` | Dialogue/Pods/leveldb-library/table/filter_block.cc:21-27 | closes one filter for each 2KB of data before the block, empty ones included |
| `FilterBlock.FilterBlockBuilder.Finish` | Dialogue/Pods/leveldb-library/table/filter_block.cc:35-49 | the finished block holds the filters, their offsets and the base |
| `FilterBlock.FilterBlockBuilder.GenerateFilter` | Dialogue/Pods/leveldb-library/table/filter_block.cc:51-75 | the keys since the last filter go into one filter, none of them into an empty one |
| `FilterBlock.FilterBlockReader.KeyMayMatch` | Dialogue/Pods/leveldb-library/table/filter_block.cc:90-104 | answers what the block's filter answers, errors counting as matches |
| `FilterBlock.FilterBlockReader.AddedIsAccepted` | Dialogue/Pods/leveldb-library/table/filter_block.cc:90-104 | a key that was added for a block is never turned away |
| `FilterBlock.NoFalseNegatives` | Dialogue/Pods/leveldb-library/table/filter_block.cc:21-104 | for nondecreasing block offsets, every key of every block is accepted by the finished filter block |
| `Coding.EncodeVarint64` | Dialogue/Pods/leveldb-library/util/coding.cc:81-90 | the loop writes the seven-bits-a-byte encoding |
| `Coding.GetVarint64Ptr` | Dialogue/Pods/leveldb-library/util/coding.cc:142-157 | decoding gives back any encoded 64-bit value and the place behind it |
| `Coding.GetLengthPrefixedSlice` | Dialogue/Pods/leveldb-library/util/coding.cc:181-190 | gives back a slice that was put behind its length, whatever follows it |
| `Block.NewIterator` | Dialogue/Pods/leveldb-library/table/block.cc:24-39 | on a finished block of entries the iterator holds exactly their layout; data too short for its own restart array gives none |
| `Block.SeekEntry` | Dialogue/Pods/leveldb-library/table/block.cc:163-201 | on a block of ordered entries, the first entry at or after the key, or none when all are before it |
| `VersionEdits.EncodingGrows` | Dialogue/Pods/leveldb-library/db/version_edit.cc:41-85 | the encoding of a list of fields is the fields' encodings one after the other |
| `VersionEdits.VersionEdit.EncodeTo` | Dialogue/Pods/leveldb-library/db/version_edit.cc:41-85 | the bytes are fields that, read in turn into an empty edit, make exactly this edit |
| `VersionEdits.VersionEdit.DecodeField` | Dialogue/Pods/leveldb-library/db/version_edit.cc:120-194 | a field's payload is read to its end and makes exactly the field's change to the edit |
| `VersionEdits.VersionEdit.DecodeFrom` | Dialogue/Pods/leveldb-library/db/version_edit.cc:107-205 | any list of stored fields decodes without a message to the edit that they make |
| `VersionEdits.Recode` | Dialogue/Pods/leveldb-library/db/version_edit.cc:41-205 | every edit survives encoding and decoding into a fresh edit |
| `Manifest.AppliedInTurn` | Dialogue/Pods/leveldb-library/db/version_set.cc:814-819 | the versions of a history hold, in order, exactly what applying its edits one after the other leaves |
| `Manifest.NextIsFresh` | Dialogue/Pods/leveldb-library/db/version_set.cc:661-692 | when no file comes back to a level, the builder may be given the next edit of the history |
| `Manifest.SaveReplayed` | Dialogue/Pods/leveldb-library/db/version_set.cc:984-989 | one builder that was given the first k edits saves exactly the version after k separate apply-and-save steps |
| `Manifest.VersionSet.Replay` | Dialogue/Pods/leveldb-library/db/version_set.cc:924-972 | from a manifest cut at any byte, replaying takes in exactly the edits whose records lie wholly before the cut, and the last numbers among them |
| `Manifest.VersionSet.Recover` | Dialogue/Pods/leveldb-library/db/version_set.cc:886-1011 | recovery succeeds exactly when the whole edits give a next file, a log and a sequence number, and then installs the version after the last whole edit and the last numbers given |
| `Manifest.HistoryExtends` | Dialogue/Pods/leveldb-library/db/version_set.cc:801-884 | an applied edit that brings no file back extends the history |
| `Manifest.LatestIsLast` | Dialogue/Pods/leveldb-library/db/version_set.cc:801-818 | behind the snapshot, the last edit decides all four numbers |
| `Manifest.SnapshotMakes` | Dialogue/Pods/leveldb-library/db/version_set.cc:1088-1116 | the snapshot edit turns the empty version into the current one |
| `Manifest.SnapshotIsDistinct` | Dialogue/Pods/leveldb-library/db/version_set.cc:1088-1116 | the snapshot edit adds no number twice in a level |
| `Manifest.Descriptor.WriteSnapshot` | Dialogue/Pods/leveldb-library/db/version_set.cc:1088-1116 | a new manifest begins a history whose first version is the current one |
| `Manifest.Descriptor.LogAndApply` | Dialogue/Pods/leveldb-library/db/version_set.cc:801-884 | the completed edit is logged and applied; what the manifest holds is again the history of the versions |
| `Manifest.Reopen` | Dialogue/Pods/leveldb-library/db/version_set.cc:801-1011 | a crash at any byte after the first installed edit recovers the version after the last whole edit, and that edit's numbers |
| `Comparators.BytewiseOrder` | Dialogue/Pods/leveldb-library/util/comparator.cc:23-27 | byte strings are totally ordered |
| `Comparators.FindShortestSeparator` | Dialogue/Pods/leveldb-library/util/comparator.cc:29-50 | editing in place gives the start cut behind the first differing byte, raised by one, where that stays below the limit |
| `Comparators.SeparatorSeparates` | Dialogue/Pods/leveldb-library/util/comparator.cc:29-50 | the separator is at or after the start, before the limit, and no longer than the start |
| `Comparators.FindShortSuccessor` | Dialogue/Pods/leveldb-library/util/comparator.cc:52-64 | editing in place gives the key cut behind its first byte that can be raised |
| `Comparators.SuccessorIsAfter` | Dialogue/Pods/leveldb-library/util/comparator.cc:52-64 | the short successor is at or after the key and no longer |
| `Comparators.BytewiseOk` | Dialogue/Pods/leveldb-library/util/comparator.cc:23-64 | the bytewise comparator meets everything that tables ask of a comparator |
| `Comparators.InternalOrderOk` | Dialogue/Pods/leveldb-library/db/dbformat.cc:51-67 | over any user comparator that is a total order, encoded internal keys are totally ordered |
| `Comparators.TagReadsBack` | Dialogue/Pods/leveldb-library/db/dbformat.cc:17-26 | the user key and the tag can be read back from an encoded internal key |
| `Comparators.InternalSeparatorSeparates` | Dialogue/Pods/leveldb-library/db/dbformat.cc:69-86 | the internal separator lies between the keys, and unless it is the first of them its user key is less than that of the second |
| `Comparators.InternalSuccessorIsAfter` | Dialogue/Pods/leveldb-library/db/dbformat.cc:88-101 | the internal successor is at or after the key and no longer |
| `Tables.BelowSeparator` | Dialogue/Pods/leveldb-library/table/table_builder.cc:94-112 | every key of a block is at or before its separator |
| `Tables.AboveSeparator` | Dialogue/Pods/leveldb-library/table/table_builder.cc:94-112 | and after the separators of all blocks before |
| `Tables.CutIsHere` | Dialogue/Pods/leveldb-library/table/table.cc:216-244 | where a key cuts the block that the index names, it cuts the whole table: all earlier entries are before it and no later one is |
| `Tables.FoundInBlock` | Dialogue/Pods/leveldb-library/table/table.cc:216-244 | searching only the named block answers for the whole table, even when the key falls between the block's last key and its separator |
| `Tables.RuledOut` | Dialogue/Pods/leveldb-library/table/table.cc:225-230 | when no key of the named block has the sought user key, answering nothing is right for the whole table |
| `Tables.NextBlock` | Dialogue/Pods/leveldb-library/table/table_builder.cc:94-112 | a block begun behind a shortened separator keeps the table searchable |
| `Tables.LongerBlock` | Dialogue/Pods/leveldb-library/table/table_builder.cc:112-123 | so does a block that takes one more entry |
| `Tables.UserHashFits` | Dialogue/Pods/leveldb-library/db/dbformat.cc:105-119 | filters over user keys hash alike what the bytewise comparator takes as equal |
| `Tables.DecodeHandle` | Dialogue/Pods/leveldb-library/table/format.cc:23-29 | a block handle reads back as the offset and size that were written |
| `Tables.ReadBlock` | Dialogue/Pods/leveldb-library/table/format.cc:64-139 | returns the contents of a block that was written at the handle |
| `Tables.TableBuilder.Add` | Dialogue/Pods/leveldb-library/table/table_builder.cc:94-123 | a key after all others joins the contents; index, filters and blocks stay consistent |
| `Tables.TableBuilder.Flush` | Dialogue/Pods/leveldb-library/table/table_builder.cc:125-139 | the current block is written with its handle pending; contents stay |
| `Tables.TableBuilder.WriteBlock` | Dialogue/Pods/leveldb-library/table/table_builder.cc:141-175 | the file grows by a block of exactly the builder's entries and a trailer |
| `Tables.TableBuilder.Finish` | Dialogue/Pods/leveldb-library/table/table_builder.cc:198-253 | the file is a searchable table of exactly the added entries, ending in a footer that leads to its index block and to a metaindex block naming its filter block, which covers every key |
| `Tables.Table.TurnedAway` | Dialogue/Pods/leveldb-library/table/table.cc:225-230 | a block whose filter turns a key away holds no entry of its user key |
| `Tables.Table.InternalGet` | Dialogue/Pods/leveldb-library/table/table.cc:216-244 | with or without filters, reports an entry of the key's user key exactly when the first entry at or after the key in the whole table has it, and it is that entry |
| `Tables.DecodeFooter` | Dialogue/Pods/leveldb-library/table/format.cc:31-62 | a footer gives back the two handles that were written, whatever their lengths; another magic number is refused |
| `Tables.ReadMeta` | Dialogue/Pods/leveldb-library/table/table.cc:84-117 | finds the handle of the filter block exactly when the metaindex block names one |
| `Tables.Open` | Dialogue/Pods/leveldb-library/table/table.cc:38-82 | a file that is a table opens and holds its blocks, with its filters if there is a policy for them; a file that is too short or has another magic number does not open |
| `Tables.FinishAndGet` | Dialogue/Pods/leveldb-library/table/table.cc:38-82 | finishing a table, opening its file and looking a key up answers what a linear search of all added entries answers, with or without filters on either side |
| `Pb.EncodingIsParts` | Dialogue/Pods/nanopb/pb_encode.c:528-550 | the encoding of a message is that of its fields one after the other |
| `Pb.ArrayBytes` | Dialogue/Pods/nanopb/pb_encode.c:147-236 | an array is nothing, one packed record, or a record for each item |
| `PbEncode.OStream.Write` | Dialogue/Pods/nanopb/pb_encode.c:103-124 | bytes are written, or only counted, if there is room |
| `PbEncode.OStream.VarintBytes` | Dialogue/Pods/nanopb/pb_encode.c:608-628 | ten bytes hold any 64-bit value, seven bits a byte |
| `PbEncode.OStream.EncodeSVarint` | Dialogue/Pods/nanopb/pb_encode.c:630-639 | doubling and complementing 64 bits is the zigzag encoding |
| `PbEncode.OStream.PackedSize` | Dialogue/Pods/nanopb/pb_encode.c:168-189 | the size written ahead of a packed array is that of its values |
| `PbEncode.OStream.EncodeArray` | Dialogue/Pods/nanopb/pb_encode.c:147-236 | exactly the array's bytes, or failure if it has too many items, a value does not fit its storage, or there is no room |
| `PbEncode.OStream.CheckDefault` | Dialogue/Pods/nanopb/pb_encode.c:240-337 | decides whether a field, submessages included, holds nothing but zero |
| `PbEncode.OStream.EncodeField` | Dialogue/Pods/nanopb/pb_encode.c:341-426 | exactly the bytes that the field's rule asks for |
| `PbEncode.OStream.EncodeCounted` | Dialogue/Pods/nanopb/pb_encode.c:740-764 | a submessage is written in exactly the counted size: it cannot turn out to have changed |
| `PbEncode.OStream.EncodeSubMessage` | Dialogue/Pods/nanopb/pb_encode.c:717-765 | the length, then exactly the submessage |
| `PbEncode.OStream.Encode` | Dialogue/Pods/nanopb/pb_encode.c:528-550 | counting or writing, the stream grows by exactly the encoding, and succeeds exactly when all values fit their storage and the encoding fits the room |
| `PbEncode.GetEncodedSize` | Dialogue/Pods/nanopb/pb_encode.c:567-576 | counts exactly the bytes of the encoding |
| `PbEncode.SizeThenEncode` | Dialogue/Pods/nanopb/pb_encode.c:567-576 | a buffer takes a message exactly when the counted size is no more than its room, and then holds the encoding |
| `PbRecords.RecoveredIsSame` | Dialogue/Pods/nanopb/pb_encode.c:240-337 | what comes back is the message itself exactly when no field without a flag holds zero while its default is something else |
| `PbRecords.ArrayGoes` | Dialogue/Pods/nanopb/pb_decode.c:421-467 | the records of an array, packed or one by one, fill it item by item, a fixed-count array up to its end |
| `PbRecords.FieldGoes` | Dialogue/Pods/nanopb/pb_decode.c:406-483 | the records of a field make of its default what the message holds there |
| `PbRecords.MessageGoes` | Dialogue/Pods/nanopb/pb_decode.c:928-1076 | from default values, the records of a message lead to the recovered message with every array complete and every required field seen |
| `PbDecode.IStream.DecodeVarint` | Dialogue/Pods/nanopb/pb_decode.c:255-275 | reads back any 64-bit value |
| `PbDecode.IStream.DecodeVarint32` | Dialogue/Pods/nanopb/pb_decode.c:187-247 | reads back any 32-bit value |
| `PbDecode.IStream.DecodeTag` | Dialogue/Pods/nanopb/pb_decode.c:298-319 | reads back any field number and wire type |
| `PbDecode.IStream.MakeStringSubstream` | Dialogue/Pods/nanopb/pb_decode.c:372-385 | gives away exactly the bytes behind a length |
| `PbDecode.FieldIter.Next` | Dialogue/Pods/nanopb/pb_common.c:20-76 | goes round the fields, counting the required ones |
| `PbDecode.FieldIter.Find` | Dialogue/Pods/nanopb/pb_common.c:78-95 | finds a field with the tag if there is one, from wherever it stands, in one round |
| `PbDecode.NumberComesBack` | Dialogue/Pods/nanopb/pb_decode.c:1339-1422 | signed, unsigned and zigzag numbers of every size come back from their 64 bits |
| `PbDecode.DecodeData` | Dialogue/Pods/nanopb/pb_decode.c:1441-1565 | bytes and texts that fit come back; a text with no room for the zero behind it is refused |
| `PbDecode.DecodePacked` | Dialogue/Pods/nanopb/pb_decode.c:421-450 | a packed array comes back, behind the items that are there already |
| `PbDecode.DecodeSingle` | Dialogue/Pods/nanopb/pb_decode.c:406-420 | a single value comes back, with its flag or the tag of its union |
| `PbDecode.DecodeField` | Dialogue/Pods/nanopb/pb_decode.c:986-1018 | a record makes of the message what it is to make of it; a fixed-count array must be complete before another begins |
| `PbDecode.CheckRequired` | Dialogue/Pods/nanopb/pb_decode.c:1028-1073 | succeeds exactly when the required fields, up to the number that is counted, have been seen |
| `PbDecode.DecodeNoInit` | Dialogue/Pods/nanopb/pb_decode.c:928-1076 | whatever the input, the struct keeps the types of its fields; and the encoding of a message gives the recovered message |
| `PbDecode.Decode` | Dialogue/Pods/nanopb/pb_decode.c:1078-1090 | from default values, the encoding of a message gives the recovered message |
| `PbDecode.RoundTrip` | Dialogue/Pods/nanopb/pb_encode.c:528-550 | every message within its limits that fits a buffer comes back from it, unchanged exactly when its left-out fields have zero for their defaults |
| `PbDecode.DefaultComesBack` | Dialogue/Pods/nanopb/pb_encode.c:362-366 | a field without a flag, with seven for its default, comes back as seven when it was zero |
| `CompactionInputs.WiderTakesMore` | Dialogue/Pods/leveldb-library/db/version_set.cc:1431-1437 | a wider range takes in no fewer files, and as many only if they are the same |
| `CompactionLoop.Compaction.CompactEntry` | Dialogue/Pods/leveldb-library/db/db_impl.cc:906-999 | one round of the loop keeps the outputs equal to the kept entries so far |
| `HandleTables.HandleTable.FindPointer` | Dialogue/Pods/leveldb-library/util/cache.cc:111-120 | the slot of a key: that of the handle with the key, or the end of the one chain that could hold it |
| `HandleTables.HandleTable.Lookup` | Dialogue/Pods/leveldb-library/util/cache.cc:74-76 | the handle in the table that has the key, or none when there is none |
| `HandleTables.HandleTable.Insert` | Dialogue/Pods/leveldb-library/util/cache.cc:78-92 | the handle joins the table in the place of the one with its key, which is returned; there are never more handles than buckets |
| `HandleTables.HandleTable.Remove` | Dialogue/Pods/leveldb-library/util/cache.cc:94-102 | takes out exactly the handle with the key |
| `HandleTables.HandleTable.Resize` | Dialogue/Pods/leveldb-library/util/cache.cc:122-146 | relinked in place, the same handles lie in the buckets of a longer list |
| `HandleTables.SlotTakes` | Dialogue/Pods/leveldb-library/util/cache.cc:78-85 | a handle put into a slot, in the place of another or at the end, keeps every chain in its bucket |
| `HandleTables.SlotLoses` | Dialogue/Pods/leveldb-library/util/cache.cc:94-101 | so does taking a handle out of its slot |
| `Caches.RunKeepsInvariant` | Dialogue/Pods/leveldb-library/util/cache.cc:178-195 | in every state of every run a handle counts the clients that have it and the cache, lies on the list that the count says, the usage is the sum of the cached charges, and a key has one cached handle at most, that of its latest insertion |
| `Caches.RunIsOrdered` | Dialogue/Pods/leveldb-library/util/cache.cc:217-237 | in every state of every run the unused handles are in the order of their last use |
| `Caches.EvictsLongestUnused` | Dialogue/Pods/leveldb-library/util/cache.cc:292-300 | what an insertion evicts has been unused for longer than everything unused that stays |
| `Caches.InsertedFits` | Dialogue/Pods/leveldb-library/util/cache.cc:292-300 | right after an insertion the charges fit or nothing unused is left, and no more was evicted than had to be |
| `Caches.LeavesOnlyWhen` | Dialogue/Pods/leveldb-library/util/cache.cc:266-333 | a handle leaves the cache only when its key is erased or inserted again, or when no client has it: by pruning, or for want of room |
| `Caches.FindsLatest` | Dialogue/Pods/leveldb-library/util/cache.cc:252-259 | a look-up finds what was inserted last under the key, or nothing |
| `Caches.HeldStays` | Dialogue/Pods/leveldb-library/util/cache.cc:225-237 | a client finds the same item behind its handle for as long as it has it |
| `Caches.DeletedOnce` | Dialogue/Pods/leveldb-library/util/cache.cc:225-237 | the deleter of an item has run exactly once when neither a client nor the cache has its handle, and not at all before |
| `Caches.DestroyedDeletesAll` | Dialogue/Pods/leveldb-library/util/cache.cc:205-215 | when the clients have given everything back and the cache is destroyed, everything that was ever inserted has been deleted exactly once |
| `Caches.EvictedIs` | Dialogue/Pods/leveldb-library/util/cache.cc:292-300 | the evictions take the shortest prefix of the unused handles that makes the charges fit, or all of them |
| `Caches.PrunedIs` | Dialogue/Pods/leveldb-library/util/cache.cc:323-333 | pruning deletes exactly the unused handles |
| `LruCaches.RingLoses` | Dialogue/Pods/leveldb-library/util/cache.cc:239-242 | unlinking a handle leaves a ring of the others, in order |
| `LruCaches.RingAppends` | Dialogue/Pods/leveldb-library/util/cache.cc:244-250 | linking a handle in front of the head makes it the newest of the ring |
| `LruCaches.LruCache.Ref` | Dialogue/Pods/leveldb-library/util/cache.cc:217-223 | counts a reference; a handle that was unused goes over to the list of those in use |
| `LruCaches.LruCache.Unref` | Dialogue/Pods/leveldb-library/util/cache.cc:225-237 | gives a reference back; the last one deletes, and the last client's makes the handle the newest unused one |
| `LruCaches.LruCache.FinishErase` | Dialogue/Pods/leveldb-library/util/cache.cc:307-316 | takes a handle off its list, off the usage and out of the cache |
| `LruCaches.LruCache.Lookup` | Dialogue/Pods/leveldb-library/util/cache.cc:252-259 | performs a look-up of the state machine on rings and table |
| `LruCaches.LruCache.Release` | Dialogue/Pods/leveldb-library/util/cache.cc:261-264 | performs a release |
| `LruCaches.LruCache.Insert` | Dialogue/Pods/leveldb-library/util/cache.cc:266-303 | performs an insertion: replaces the handle of the key, and evicts the oldest while the charges do not fit |
| `LruCaches.LruCache.Erase` | Dialogue/Pods/leveldb-library/util/cache.cc:318-321 | performs an erasure |
| `LruCaches.LruCache.Prune` | Dialogue/Pods/leveldb-library/util/cache.cc:323-333 | performs a pruning |
| `LruCaches.LruCache.Destroy` | Dialogue/Pods/leveldb-library/util/cache.cc:205-215 | deletes what is left, each item once, in the order of the ring |

## Left out

- The memtable flush inside the compaction loop (`db/db_impl.cc:907-918`): flush and compaction are separate steps that exclude each other.
- Corrupted internal keys, read errors, failed I/O and shutdown in the middle of a compaction.
- Recovery of the log at start-up beyond replaying records, `RepairDB`, file naming and file deletion.
- Snappy: the compressor is taken as switched off.
- The `initial_offset` resynchronisation of the log reader, and the corruption counts it reports on damaged files.
- The checksum behind a table block is written but not verified, as by default; files that are neither tables nor refused at once.
- The sixteen shards of the cache, chosen by the top bits of the hash, and the use of the cache by tables.
- Damaged manifests, `CURRENT`, and reusing an old manifest at start-up; compaction pointers are stored and read back but not followed through recovery.
- Seek statistics and compaction scores: the level or file they select is an input.
- Overflow of the 32-bit offsets and sizes in blocks, filters and logs.
- Memory ordering: the threads of the writer queue and of the skip list interleave step by step.
- VersionBuilder.Builder.Apply: an edit that adds a file number which its level has held before is not modelled; the code accepts it, and which of two files with one number and one smallest key it keeps depends on the order.
- Manifest.Descriptor.LogAndApply: the same holds here; the database's own edits never bring a file number back to a level.
- nanopb callbacks, extensions, pointer fields and custom streams; field offsets in structs; error messages.
- The wrap-around of the bit position in varints of more than 36 bytes, and of `size_t`.
- The Swift application, networking pods and generated code.
