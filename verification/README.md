# ElysiumKV: a verified model

ElysiumKV is an LSM key-value store that keeps no sequence numbers. Which of two writes to a key is newer
is decided by where they are: the live memtable, the sealed one, level 0 by descending file number, then each
deeper level. Every background action (merge, cut, trim, move, renumber, drop) must therefore keep what a
reader sees by keeping position. This project models that core in Dafny and proves it, together with the
manifest protocol by which one writer owns a store and the byte-level views that must equal the plain thing
underneath them.

`dafny verify dfyconfig.toml` checks everything. Nothing is assumed: there is no axiom and no body-less member.

## How it is put together

**The store.** `Keys` embeds the bytewise order of keys in the non-negative reals, so a key is its rank from
there on and the empty key is rank zero. `Records` holds point entries and half-open range tombstones,
`Version` files, levels and the positional read (`Walk`, `WalkLevels`, `Visible`). `MergingIterator`,
`Compaction`, `Picker` and `Compactor` are the merge, the output loop, the choice of inputs and the tasks as
they run; `Installation` and `Tasks` say what each does to the levels. `Skiplist` and `Reader` are the memtable
and `get`. `Store` and `Recovery` add the embedder: a world is a store, the embedder's log, and how far into the
log the embedder has written or replayed. `Runs` are all sequences of writes, watermarks, seals, flushes,
losses of any set of files followed by a reopening with any number of levels, ends of recoveries, and background
tasks, each of which decides in one step and installs its edit in a later one with anything but another task in
between. `Live` is such a run as it happens: a store made of `Skiplist` memtables, the files and tasks of
`Compactor` and `Migrator` and the read path of `Reader`, every operation of which is a step.

- Every background task leaves a `Rearranged` store: valid levels, the same answer for every key at or above the
  truncation point, fresh numbers, and no file that claims a later lower or upper bound than what it was made of
  (`Tasks.InstallRearranges`).
- In every run, at every moment with nothing left to replay, a read is what a plain map that applied the writes
  in order would give (`Runs.StoreIsTheMap`).
- In every run, after losing both memtables and any set of files, replaying from the reported position on gives
  that same map (`Runs.ResumeGuarantee`).
- Whatever has been done to a live store by writes, watermarks, seals, flushes, tasks and reopenings followed by a
  replay, a get returns what that map holds (`Live.LiveStore.Get`, `Live.LiveStore.CatchUp`).

What a run has to heed for these (`Runs.Heeds`) is what a caller can check before the call: no write reaches the
empty key unless truncation hides it, no recovery is ended before it is `Discharged`, no reopening is
`Uncertifiable` or forgets a level that holds files. Each of the three is needed, see below. Of a task only that
is taken which `Compactor` proves of it: what it decides on is sound wherever the picker's bounds and depth are
right. That they are right in every store of every run is proved (`Runs.RunKeeps`).

**The manifest.** `Ownership` and `Edits` are state machines over one conditionally written table with requests
and answers that may be lost or arrive late, for any number of writers. `Chunks` and `ManifestReader` read
chunked records back, `Replay` is the replay of a generation's edits and `EditReplay` that replay over the table
the edits were put in, `DiskCatalog` the catalog on a disk.

**The views.** `EncryptedObject`, `RangeCache`, `Windowed`, `BlockCache` and `Arena` each equal the simple thing
they stand in front of, and account for every byte they hold. `Process` puts any number of them behind one
`Budget`. `Placement` and `Migrator` decide which tier a file belongs on and bring the files there.

## What the code does not keep

The model follows the code. Where that falls short of what the code or its comments promise, a lemma gives a
concrete case and another says exactly when the promise holds:

- An empty key is a key (include/elysiumkv/db.hpp:153), but `widen` takes an empty lower bound for "not set". The
  low end of a hull is right if and only if the last file starts at the empty key or no file does
  (`Picker.HullLowExactly`). Otherwise the overlap loop can go on for ever, a compaction can bring back an
  overwritten value, and a range deletion from the empty key on can bring back what it deleted
  (`Counterexamples.OverlapNeverReturns`, `Counterexamples.EmptyKeyRevertsAWrite`,
  `Counterexamples.DeleteRangeFromEmptyResurrects`). So a run heeds this by never putting, removing or
  range-deleting the empty key (`Runs.SparesEmptyKey`).
- With one configured level `compact_level` reissues a file inside level 0, which puts it in front. A read is kept
  if and only if every key of the file may be turned (`SingleLevel.TurnExactly`);
  `Counterexamples.SingleLevelResurrects` is a case in which it is not. A whole pass keeps every read if and only
  if every key that reads as a value has no other value first among the rewritten files, and every key that reads as
  deleted has none there and shows none in the files left alone (`SingleLevel.PassExactly`,
  `SingleLevel.CompactOnlyLevel`).
- The bottommost test looks no deeper than the configured levels. It is safe if and only if no file lies deeper
  (`Picker.DepthExactly`); `Counterexamples.ForgottenLevelResurrects` lets a needed deletion go in a store
  reopened with fewer levels than it has files in.
- `mark_recovery_complete` asks for a complete replay (include/elysiumkv/db.hpp:200-203) and not for a flushed one.
  Called between the two, it makes a second crash lose a write (`Counterexamples.CompleteBeforeFlushLosesAWrite`,
  in a world that `CounterexampleRuns.UnflushedIsReached` reaches). It is safe once the replay and what the
  memtables hold are past every file's upper bound (`Recovery.Discharged`, `Recovery.CompletePreserves`), and for
  every position short of that bound there is a sound store in which it loses a write
  (`Counterexamples.CompletingEarlyLosesAWrite`).
- A recorded floor is reported as it stands when no file has an upper bound left, even if the last reopening had
  to resume below it. The reported position is certified if and only if the world is not `Uncertifiable` in this
  sense (`Recovery.ResumeIsCertified`); `Counterexamples.FloorWithoutFilesLosesAWrite` loses a write in one that
  is, and `CounterexampleRuns.EmptiedIsReached` reaches it.
- A generation roll whose outcome is unknown takes the pointer for its own if the generation matches. That is
  right if and only if the install took effect, and can be wrong only with a rival rolling to the same generation
  (`Ownership.AdoptionExactly`, `Ownership.AdoptingARival`).
- An acknowledged edit reads back if and only if no late put of a longer, abandoned call has landed beside it
  (`Edits.AckedReadsExactly`, `Edits.LatePutHidesAnEdit`). Replay then fails at it rather than passing it over
  (`EditReplay.Load`).
- A half-put edit at the tail is unreadable rather than missing, so replay fails where its comments expect it to
  stop: it fails at a tail it can open if and only if the tail is half put (`EditReplay.Load`,
  `Edits.CorruptExactly`), and `EditReplay.HalfPutTailIsReached` leaves one.
- Chunk addresses print the index with four digits, so their order is index order if and only if there are at
  most ten thousand (`Chunks.AddressOrderExactly`).
- `plan_fetch` adds offset and length in 64 bits, so a request whose end wraps can be shrunk and answered short
  (`RangeCache.PlanShrinksARequest`). `RangeCache.PlanCoversExactly` says exactly when the plan covers the request,
  and `RangeCache.MissedExactly` when a miss is answered as the store below would.
- `min_write_time_ms` uses zero for "none yet". It is the oldest write time if and only if none is zero or the
  last one is (`Compactor.OldestExactly`, `Counterexamples.ZeroIsForgotten`).

## Model

| member | source | states |
|---|---|---|
| Keys.RankEmbeds | include/elysiumkv/slice.hpp:38-49 | the byte comparator and the order of ranks are one order, equality included, so what holds of every rank holds of every key |
| Records.MergeRanges | src/sst/format.hpp:44-60 | the result is sorted, neither overlaps nor touches, and covers exactly the keys the input covered |
| Records.ClipRanges | src/sst/format.hpp:70-80 | clipping to a slice covers exactly the covered keys inside it, and stays disjoint |
| Records.IsCovered | src/compact/merging_iterator.cpp:107-115 | an upper-bound search and one look to the left decide coverage |
| Records.OneRangeCoversSpan | src/compact/compactor.cpp:145-155 | in a disjoint, non-touching cover, the keys of a closed span are all covered if and only if one range contains it, whatever keys there are besides the ends |
| Version.OverlappingMembers | src/version/version.cpp:102-117 | the files returned are exactly those whose effective span meets the closed interval |
| Version.WalkMember | src/db/db_impl.cpp:1582-1606 | in a key-disjoint level the walk gives the answer of the one file that speaks about the key |
| Version.NoTombstones | src/version/version_edit.hpp:32-36 | the count is zero exactly when no entry is a deletion |
| Version.InstallSorts | src/version/version.cpp:14-25 | installing files keeps a level sorted by key and holds exactly the old files and the new |
| MergingIterator.Merge.IsShadowed | src/compact/merging_iterator.cpp:98-118 | true exactly when a strictly newer child's tombstones cover the current key |
| MergingIterator.Merge.Seek | src/compact/merging_iterator.cpp:39-42 | lands on the least merged key at or above the target, or on nothing if there is none |
| MergingIterator.Merge.Next | src/compact/merging_iterator.cpp:62-66 | lands on the least merged key strictly above the last one, skipping hidden keys, and makes progress |
| MergingIterator.Merge.SeekForPrev | src/compact/merging_iterator.cpp:51-54 | lands on the greatest merged key at or below the target |
| MergingIterator.Merge.Prev | src/compact/merging_iterator.cpp:56-60 | lands on the greatest merged key strictly below the last one, and makes progress |
| MergingIterator.Merge.Forward | src/compact/merging_iterator.cpp:34-66 | a whole scan terminates and emits, strictly ascending, exactly the newest unshadowed entry of each key |
| MergingIterator.Merge.Backward | src/compact/merging_iterator.cpp:46-60 | a whole reverse scan terminates and emits the same entries, strictly descending |
| MergingIterator.ReverseScanMirrors | src/compact/merging_iterator.cpp:44-60 | the reverse scan is the forward scan reversed, whatever the children hold |
| Compaction.MergeIsWalk | src/compact/merging_iterator.cpp:140-160 | the merged entry of a key is what a reader walking the inputs would find, or a deletion where only a tombstone speaks |
| Compaction.CarriedRanges | src/compact/compactor.cpp:862-875 | what is carried is a disjoint cover of exactly the inputs' tombstones, and nothing when deletions are dropped |
| Compaction.WantIsWalk | src/compact/compactor.cpp:952-990 | what the outputs are to say about a readable key is what the inputs said, less deletions that may go |
| Compaction.FinishOutput | src/compact/compactor.cpp:905-950 | closing an output at a cut extends the tiling: below the cut every key is answered once and as wanted |
| Compaction.WriteOutputs | src/compact/compactor.cpp:827-990 | for every choice of cuts the outputs are ordered, disjoint and together say exactly what is wanted of every key, tombstones included |
| Installation.TiledIsFaithful | src/compact/compactor.cpp:952-990 | a tiling reads as its inputs did on every readable key and speaks about no key they did not |
| Installation.PickSplits | src/compact/picker.cpp:231-261 | both levels of a pick read as what stays behind, then what is taken |
| Installation.CompactionKeepsLevels | src/compact/picker.cpp:263-305 | after any picked compaction every level below 0 is still key-disjoint and holds exactly the kept files and the outputs |
| Installation.CompactionPreservesReads | src/compact/compactor.cpp:737-789 | every key at or above the truncation point reads the same before and after, with deletions of both kinds dropped or carried |
| Installation.RewritePreservesReads | src/compact/compactor.cpp:267-357 | a file rewritten inside its own level keeps every read, given nothing deeper meets it |
| Picker.Widen | src/compact/picker.cpp:15-23 | the bounds come out as the fold of the files' effective spans, with an empty lower bound read as unset |
| Picker.HullLowExactly | src/compact/picker.cpp:15-23 | the low end of a hull is the least effective key if and only if the last file starts at the empty key or no file does |
| Picker.WidenFound | src/compact/picker.cpp:15-49 | one turn of that loop widens to bounds that hold all it found and can be widened again |
| Picker.TransitiveOverlap | src/compact/picker.cpp:33-49 | the loop ends, at the least set closed under meeting of spans: it holds every file the given span meets, no file outside meets one inside, and every such set holds all of it; files may start at the empty key where the last one does |
| Picker.TrimToBudget | src/compact/picker.cpp:56-82 | what is kept is the oldest that fit, in merge order and always the oldest one: everything left out is newer, and the oldest of it would go over the budget; trimming happens exactly when over budget |
| Picker.SeedAfterPointer | src/compact/picker.cpp:86-92 | the first file past the pointer, or the first of all exactly when the sweep has passed every file |
| Picker.EffectiveHull | src/compact/picker.cpp:167-172 | the high end is the greatest effective key; the low end is the least under exactly that condition |
| Picker.IsBottommost | src/compact/picker.cpp:184-190 | true exactly when no configured deeper level meets the span |
| Picker.BottommostMeansNothingBelow | src/compact/picker.cpp:184-190 | a clear span then means no file anywhere deeper meets any input or overlap |
| Picker.DepthExactly | src/compact/picker.cpp:184-190 | finding a span clear makes it safe to let deletions go if and only if no file lies deeper than the configured levels |
| Picker.OverlappingInputs | src/compact/picker.cpp:231-261 | level-0 inputs are the oldest file's closure trimmed by age to the budget, under the closure's own bounds, and every file left behind is newer than every input or shares no key with it |
| Picker.LevelZeroIsSeedable | src/compact/picker.cpp:231-253 | in level 0 the overlap loop needs only that the oldest file starts at the empty key if any does |
| Picker.ExpandedInputs | src/compact/picker.cpp:263-293 | the seed is grown to all that it and its overlaps span in its level exactly when that adds files, fits the budget and meets nothing more one level down |
| Picker.PickCompaction | src/compact/picker.cpp:192-320 | whatever level is chosen, the inputs are those of the level's kind and within the budget, the overlaps exactly what they meet below, deletions go exactly when nothing deeper is met, and wherever hull and depth are right it is a pick a compaction may run, moved as it is exactly when it is one file that meets nothing below, holds nothing a rewrite would let go and has fewer grandparent bytes than the limit |
| Picker.PickOneFile | src/compact/compactor.cpp:306-348 | a single file of a pass, with exactly what its span meets below, is a sound span, and a sound pick wherever its bounds and the depth are right |
| Picker.PickEscape | src/compact/compactor.cpp:361-417 | a level-0 file must leave its tier if and only if something is picked, which is the oldest file alone with the same guarantee |
| Tasks.MergeWatermarks | src/compact/picker.cpp:152-165 | the loop computes the merge of all the inputs' intervals |
| Tasks.MergedBoundsAre | src/version/watermark.hpp:48-57 | that merge is the least low bound, absent as soon as one is, and the greatest high bound |
| Tasks.CompactionRearranges | src/compact/compactor.cpp:737-789 | a compaction changes no read, breaks no level and overstates no position |
| Tasks.MoveRearranges | src/compact/compactor.cpp:743-760 | nor does a trivial move |
| Tasks.RewriteRearranges | src/compact/compactor.cpp:290-357 | nor does a rewrite in the last level |
| Tasks.RenumberRearranges | src/compact/compactor.cpp:574-655 | nor does a copy under a fresh number, below level 0, with its bounds unchanged |
| Tasks.LiveCover | src/compact/compactor.cpp:106-164 | a dropped file's cover may be dropped with it, but then an earlier file that is kept still speaks about every readable key it held |
| Tasks.ReclaimRearranges | src/compact/compactor.cpp:106-164 | dropping truncated and wholly covered files, all at once, changes no read |
| Tasks.InstallRearranges | src/compact/compactor.cpp:106-789 | the same of every kind of task, for whatever fresh numbers its outputs got |
| Tasks.TaskRearranges | src/compact/compactor.cpp:106-789 | a task that nothing came between does the same, and leaves empty what is empty below the configured levels |
| Tasks.PickSurvivesFlush | src/compact/compactor.cpp:33-43 | a flush between choosing a compaction and installing it does not spoil the choice |
| Tasks.ReadySurvives | src/compact/compactor.cpp:33-43 | whatever kind of task has been decided on may still be installed after a flush and after truncation has moved |
| Store.DeleteRangeView | src/memtable/skiplist_memtable.cpp:185-209 | after a range deletion exactly the keys of the range read as deleted |
| Store.AcceptTakesEffect | src/db/db_impl.cpp:550-620 | a write is what the next read of a key it touches returns, unless the key is truncated |
| Recovery.WritePreserves | src/db/db_impl.cpp:550-671 | put, remove, range deletion and truncation keep the invariant of every run |
| Recovery.WatermarkPreserves | src/db/db_impl.cpp:2040-2077 | so does moving the watermark, which sets both bounds of an empty memtable and the upper bound of any other |
| Recovery.SealPreserves | src/db/db_impl.cpp:874-881 | so does sealing |
| Recovery.FlushPreserves | src/db/db_impl.cpp:1196-1259 | so does a flush: the file takes the memtable's place, reads and certified position unchanged |
| Recovery.HighsInherited | src/compact/picker.cpp:152-165 | no task raises the greatest upper bound of the files |
| Recovery.InstallPreserves | src/compact/compactor.cpp:657-789 | installing any task that is still ready keeps the invariant |
| Recovery.ResumeIsCertified | src/db/db_impl.cpp:479-501 | the reported position is one the files are certified through, if and only if the world is not uncertifiable |
| Recovery.FloorExactly | src/version/watermark.hpp:85-107 | what a loss leaves on record is nothing certifiable exactly if that was so before or a lost file has no lower bound; otherwise the greatest position at or below the old record and every lost file's lower bound |
| Recovery.ResumeExactly | src/db/db_impl.cpp:479-501 | the reported position is that after a loss, and with nothing lost the greatest that some file's upper bound reaches and the record allows: never needlessly low |
| Recovery.LostIsAbove | src/version/watermark.hpp:129-170 | no lost file holds anything from at or before the reported position |
| Recovery.LossIsInvisible | src/db/db_impl.cpp:2626-2764 | keys that no lost file speaks about read the same without the lost files |
| Recovery.ReopenPreserves | src/db/db_impl.cpp:404-511 | losing the memtables and any files, and reopening, keeps the invariant |
| Recovery.CompletePreserves | src/db/db_impl.cpp:2024-2038 | ending a recovery whose replay and memtables are past every file's upper bound keeps it |
| Recovery.ReplayingReachesTheMap | include/elysiumkv/db.hpp:326-331 | replaying the rest of the log from any sound point reaches that map |
| Runs.RunKeeps | src/db/db_impl.cpp:404-671 | at every point of every run the invariant holds, the picker can represent the store, and a task decided on may be installed |
| Runs.StoreIsTheMap | src/compact/compactor.cpp:279-291 | over every run a read equals the plain map that applied the user's operations in order |
| Runs.ResumeGuarantee | include/elysiumkv/db.hpp:326-335 | after any loss in any run, replaying only what lies after the reported position gives the state of the whole log |
| Runs.PathReached | src/compact/compactor.cpp:267-357 | a whole pass of tasks is steps of a run: whatever it comes to is reached |
| Live.LiveStore.Put | src/db/db_impl.cpp:550-564 | a put that is not below the truncation point lands in the skiplist, and the store is again one a run reaches |
| Live.LiveStore.Remove | src/db/db_impl.cpp:600-612 | so it is with a removal |
| Live.LiveStore.DeleteRange | src/db/db_impl.cpp:566-598 | and with a range deletion, clamped to what lies above the truncation point |
| Live.LiveStore.Truncate | src/db/db_impl.cpp:627-671 | and with a truncation, which only moves forward |
| Live.LiveStore.SetWatermark | src/db/db_impl.cpp:2040-2077 | refused exactly when it goes backwards; otherwise both bounds of an empty memtable move, and the upper one of any other |
| Live.LiveStore.Seal | src/db/db_impl.cpp:874-881 | happens exactly when nothing is sealed yet and there is something to seal, and loses nothing |
| Live.LiveStore.Flush | src/db/db_impl.cpp:1196-1259 | the sealed memtable becomes a file in front of level 0 that answers every key as it did and carries its creation and sealing times |
| Live.LiveStore.Reopen | src/db/db_impl.cpp:404-511 | losing the memtables and any files, and opening again, reports the greatest position that what is left and what is on record certify, resumes there, and the store is again reached |
| Live.LiveStore.CatchUp | include/elysiumkv/db.hpp:326-335 | writing again what the log holds from there on brings the store to the end of the log |
| Live.LiveStore.CompleteRecovery | src/db/db_impl.cpp:2024-2038 | clears the floor, once the recovery is discharged |
| Live.LiveStore.Get | src/db/db_impl.cpp:1547-1639 | with nothing left to replay a get returns what the plain map of all writes holds, in every store these operations can come to |
| Live.LiveStore.CompactOne | src/compact/compactor.cpp:657-697 | a compaction of a store that some run has reached leaves one that a run reaches, with everything but the files as it was |
| Live.LiveStore.CompactLevel | src/compact/compactor.cpp:267-357 | so does a pass, which empties its level or rids the last one of point deletions |
| Live.LiveStore.SettleTiers | src/compact/migrator.cpp:43-115 | so does migrating until everything is at rest |
| Live.LiveStore.Reclaim | src/compact/compactor.cpp:106-164 | so does dropping dead files |
| Live.LiveStore.ReadsAreTheMap | src/compact/compactor.cpp:279-291 | with nothing left to replay the store reads as the plain map, whatever was done to it and in whatever order |
| SingleLevel.Turn | src/compact/compactor.cpp:290-357 | with one level a rewritten file comes back in front of all others, as tiles of its contents less its deletions that keep its ages and bounds and carry the store |
| SingleLevel.TurnExactly | src/compact/compactor.cpp:290-304 | that changes no read if and only if each of the file's values is read already or unrivalled, and each of its deletions is hidden or hides nothing |
| SingleLevel.PassExactly | src/compact/compactor.cpp:267-357 | a pass over the only level changes no read if and only if every key passes well: a condition on the files before it and on which of them are settled |
| SingleLevel.CompactOnlyLevel | src/compact/compactor.cpp:267-357 | after a pass every key reads as the newest value among the rewritten files, else as the files left alone say, and that is as before under exactly the condition of `PassExactly`; the settled files without a point deletion stay, and everything else is a rewrite with none that keeps its file's ages and bounds |
| SingleLevel.DeletionFreeMayPass | src/compact/compactor.cpp:279-290 | so files that hold no deletion may pass whatever keys they share, if none is left alone |
| SingleLevel.ApartMayPass | src/compact/compactor.cpp:279-290 | and so may files that share no key |
| Resume.RecoveryWatermark.ObserveDiscarded | src/version/watermark.hpp:129-136 | the running bounds stay those of every file observed so far |
| Resume.RecoveryWatermark.Position | src/version/watermark.hpp:167-170 | the least low bound of what was discarded, else the greatest high bound of what survived |
| Resume.AdoptRecoveredWatermark | src/db/db_impl.cpp:479-501 | the fold and the clamp compute the position `Runs.ResumeGuarantee` speaks of |
| Compactor.OldestExactly | src/compact/picker.cpp:136-142 | the fold is the oldest write time of the inputs if and only if none is zero or the last one is |
| Compactor.NewestWrite | src/compact/picker.cpp:144-150 | the greatest write time of the inputs |
| Compactor.FindCover | src/version/version.cpp:146-186 | the first strictly newer file whose tombstone hull admits the whole file, and none only if there is none |
| Compactor.IsCoveredWhole | src/compact/compactor.cpp:132-157 | yes exactly when one tombstone of that first file contains the file's span, and then every key of it is covered |
| Compactor.DeadFiles | src/compact/compactor.cpp:106-164 | lists exactly the files wholly below the truncation point and those found covered by a newer tombstone, and all of them may go |
| Compaction.DroppedOutputsHoldNone | src/compact/compactor.cpp:952-990 | a compaction that drops deletions writes none |
| Compactor.WriteMerged | src/compact/compactor.cpp:827-950 | every output carries the store given, the fold of the inputs' oldest write times (the least of them where none is zero), the greatest of their newest, and their merged bounds |
| Compactor.Engine.RunCompaction | src/compact/compactor.cpp:737-789 | the inputs leave their level, only the pick's two levels change, and what is new is the one file moved, or outputs on the given store with the oldest and newest write time and the merged bounds of all inputs; the whole is a task |
| Compactor.Engine.RunOneCompaction | src/compact/compactor.cpp:657-697 | one compaction out of any non-empty level runs the pick of that level within the budget, by age or by the sweep as the level's kind says, moved or rewritten as `PickCompaction` says, is a task, and leaves fewer files there |
| Compactor.Engine.CompactOffTier | src/compact/compactor.cpp:361-420 | runs exactly when a level-0 file must leave its tier, on the oldest file, is a task, and shrinks level 0 |
| Compactor.Engine.CompactLevel | src/compact/compactor.cpp:267-357 | a pass over a level ends, empties it, writes only to the given store, and is a chain of tasks that together change no read |
| Compactor.Engine.RewriteInPlace | src/compact/compactor.cpp:290-357 | a file of the last level gives way to files with no point deletion, on the given store and with its write times and bounds; nothing else changes |
| Compactor.Engine.CompactLastLevel | src/compact/compactor.cpp:279-357 | a pass over the last level leaves every file at rest where it is and replaces every other in this way, so no point deletion is left; it is such a chain, and does nothing if there is nothing to do |
| Compactor.Engine.RunMigration | src/compact/compactor.cpp:574-655 | the same file on the target store under the next number, at its own level; nothing at all if it is there already |
| Compactor.Engine.RunReencryption | src/compact/compactor.cpp:480-572 | runs exactly when a file below level 0 is stale, and reissues such a file in place |
| Compactor.TruncatedExactly | src/version/version.cpp:125-144 | a file is wholly truncated exactly when every key it holds and every bound of its tombstones is below the point |
| Compactor.CoverIsAdmitted | src/version/version.cpp:146-186 | the shortlist turns away no file that covers another |
| Compactor.CoveredIsFound | src/version/version.cpp:146-186 | so a covered file is found, unless a newer file's hull is taken for its cover first |
| Compactor.Engine.ReclaimDeadFiles | src/compact/compactor.cpp:106-164 | one edit, a task, after which exactly the files that are neither wholly truncated nor found covered are left, each where it was; it does something exactly if there is one |
| Skiplist.Weave | src/memtable/skiplist_memtable.cpp:170-176 | splicing a new node into every level of its tower keeps every link on the least greater key of its height |
| Skiplist.Memtable.FindGreaterOrEqual | src/memtable/skiplist_memtable.cpp:125-138 | the least node at or above the key, and at each level the node to splice after |
| Skiplist.Memtable.FindLessThan | src/memtable/skiplist_memtable.cpp:239-251 | the greatest node below the key |
| Skiplist.Memtable.FindLast | src/memtable/skiplist_memtable.cpp:253-265 | the greatest node |
| Skiplist.Memtable.Get | src/memtable/skiplist_memtable.cpp:230-237 | the entry last inserted under the key, if any |
| Skiplist.Memtable.RangeDeletes | src/memtable/skiplist_memtable.cpp:211-217 | whether any recorded range covers the key |
| Skiplist.Memtable.Insert | src/memtable/skiplist_memtable.cpp:140-179 | under any tower height the table becomes the old one with the key set, counts exact; an overwrite moves no link |
| Skiplist.Memtable.SetWatermarkHigh | src/memtable/skiplist_memtable.hpp:70-75 | only the upper bound moves |
| Skiplist.Memtable.DeleteRange | src/memtable/skiplist_memtable.cpp:185-209 | every key already held in the range becomes a deletion, the range is recorded, counts stay exact |
| Skiplist.Memtable.Flush | src/memtable/skiplist_memtable.cpp:219-228 | the flushed file is valid and answers every key as the table did, under the same interval and the times given |
| Skiplist.SkiplistIterator.Seek | src/memtable/skiplist_memtable.cpp:25-28 | the least node at or above the target |
| Skiplist.SkiplistIterator.SeekForPrev | src/memtable/skiplist_memtable.cpp:38-45 | the greatest node at or below the target |
| Skiplist.SkiplistIterator.Next | src/memtable/skiplist_memtable.cpp:29-34 | the immediate successor, or the end |
| Skiplist.SkiplistIterator.Prev | src/memtable/skiplist_memtable.cpp:46-50 | the immediate predecessor, or the end |
| Skiplist.StepsMirror | src/memtable/skiplist_memtable.cpp:29-50 | a step back undoes a step forward and conversely |
| Skiplist.OverlayInOrder | src/memtable/skiplist_memtable.cpp:140-237 | for every sequence of writes the table laid over any older state reads as applying them to it in order |
| Skiplist.FlushOverlaysAlike | src/memtable/skiplist_memtable.hpp:77-92 | and so does the file it is flushed to |
| Reader.AskFile | src/db/db_impl.cpp:1613-1636 | the span tests that skip a file never change its answer |
| Reader.OnlyOneSpeaks | src/db/db_impl.cpp:1587-1606 | in a level without range tombstones only the file the search lands on can answer |
| Reader.AskLevels | src/db/db_impl.cpp:1582-1639 | the searched read of all levels is the positional one |
| Reader.Get | src/db/db_impl.cpp:1547-1639 | for every key the read path returns the positional read of both memtables and all levels, nothing below the truncation point |
| Counterexamples.OverlapNeverReturns | src/compact/picker.cpp:33-49 | with an empty key in the level no number of turns ends the overlap loop |
| Counterexamples.EmptyKeyRevertsAWrite | src/compact/picker.cpp:231-261 | with an empty key in an input, the files chosen leave an older value behind and a read goes back to it |
| Counterexamples.DeleteRangeFromEmptyResurrects | src/compact/picker.cpp:167-190 | a range deletion from the empty key on is merged into the level below, found to be bottommost, and dropped, and what it deleted deeper down is read again |
| Counterexamples.ErasedIsAFlush | src/memtable/skiplist_memtable.cpp:185-228 | such a file is what a memtable with one range deletion flushes to |
| Counterexamples.ZeroIsForgotten | src/compact/picker.cpp:136-142 | a file written at time zero is forgotten when another follows it |
| Counterexamples.SingleLevelResurrects | src/compact/compactor.cpp:290-304 | reissuing a file inside level 0 brings a deleted key back |
| Counterexamples.ForgottenLevelResurrects | src/compact/picker.cpp:184-190 | with files deeper than the configured levels, dropping a deletion brings the key back |
| Counterexamples.CompleteBeforeFlushLosesAWrite | src/db/db_impl.cpp:2024-2038 | a recovery ended before the replay is flushed lets the next reopening skip a write that no file holds |
| Counterexamples.CompletingEarlyLosesAWrite | src/db/db_impl.cpp:2024-2038 | for every upper bound of a file and every position below it there is a sound store in which ending the recovery there loses a write, whether it is replayed and unflushed or not yet replayed |
| Counterexamples.FloorWithoutFilesLosesAWrite | src/db/db_impl.cpp:489-501 | a floor reported with no upper bound left skips a write that no file holds |
| CounterexampleRuns.UnflushedIsReached | src/db/db_impl.cpp:2024-2038 | the world of `CompleteBeforeFlushLosesAWrite` is reached by a run from a fresh store |
| CounterexampleRuns.EmptiedIsReached | src/db/db_impl.cpp:489-501 | and so is that of `FloorWithoutFilesLosesAWrite` |
| Ownership.RunKeeps | aws/dynamo_manifest_catalog.cpp:640-724 | in every run of any number of writers each version was installed by a call expecting its predecessor, and every outcome reported is the true one |
| Ownership.RunsOnward | aws/dynamo_manifest_catalog.cpp:640-724 | installed versions form one chain that only grows |
| Ownership.OneInstallPerToken | aws/dynamo_manifest_catalog.cpp:640-724 | at most one call takes effect per expected token, no call twice, no generation twice |
| Ownership.EntryMeansInstalled | aws/dynamo_manifest_catalog.cpp:688-716 | a returned entry means that call's install is in the chain exactly once |
| Ownership.FencedForGood | aws/dynamo_manifest_catalog.cpp:717-724 | a returned absence means the pointer is not this call's install, then or ever after |
| Ownership.StandingInstallIsReported | aws/dynamo_manifest_catalog.cpp:688-716 | a call whose install is the pointer when it returns is told that it installed, however it comes to return, unless the settling read fails |
| Ownership.UnknownMeansUnsettled | aws/dynamo_manifest_catalog.cpp:698-724 | a call returns without knowing only after a failed read, or with another's install at the pointer and no refusal heard |
| Ownership.CallCanReturn | aws/dynamo_manifest_catalog.cpp:688-724 | every call can be brought to return by its own steps alone, as installed exactly if its install stands |
| Ownership.HeardIsInstalled | aws/dynamo_manifest_catalog.cpp:688-724 | an answer that says installed is believed, whatever has happened to the pointer since |
| Ownership.PointerNamesAWholeSnapshot | aws/dynamo_manifest_catalog.cpp:726-753 | every chunk of the attempt recorded on the pointer is in the table, as its installer wrote it |
| Ownership.ReaderSeesTheInstaller | aws/dynamo_manifest_catalog.cpp:287-328 | a reader that has read the pointer finds only that installer's chunks, and all of them until the generation is passed |
| Ownership.AdoptionExactly | src/version/version_set.cpp:141-157 | taking the pointer for one's own by generation is right exactly when the install took effect, and wrong only with a rival at that generation |
| Ownership.AdoptingARival | src/version/version_set.cpp:141-157 | a run in which two writers end up holding one generation |
| Chunks.AddressOrderExactly | aws/dynamo_manifest_catalog.cpp:67-106 | address order is index order if and only if there are at most ten thousand chunks |
| Chunks.Split | aws/dynamo_manifest_catalog.cpp:263-278 | at least one chunk, none too long, nothing lost |
| Chunks.GetChunked | aws/dynamo_manifest_catalog.cpp:466-497 | missing exactly when there is no item; otherwise the payloads in address order if as many are there as the first says, else corrupt |
| Chunks.ReadsBack | aws/dynamo_manifest_catalog.cpp:466-497 | in whatever order the items arrive, up to ten thousand chunks read back as the bytes that were split |
| Chunks.WholeIsComplete | aws/dynamo_manifest_catalog.cpp:303-311 | of a record's chunks, an attempt is complete exactly when none is missing |
| Chunks.GetSnapshot | aws/dynamo_manifest_catalog.cpp:287-328 | the named attempt if it is complete and nothing else; with none named, the only complete one; an incomplete set is never returned |
| ManifestReader.ReadNamedSnapshot | aws/dynamo_manifest_catalog.cpp:287-328 | in every run, while the generation stands, the attempt named on the pointer reads back as exactly its installer's bytes, whatever else the listing holds |
| Edits.RunKeeps | aws/dynamo_manifest_catalog.cpp:214-254 | in every run, across lost and late puts and residue clearing, no acknowledged chunk is another call's |
| Edits.OneCallSucceeds | aws/dynamo_manifest_catalog.cpp:439-463 | at most one call per address ever reports success |
| Edits.SuccessIsForGood | aws/dynamo_manifest_catalog.cpp:392-463 | an acknowledged edit's chunks stay in the table with its payload |
| Edits.CorruptExactly | aws/dynamo_manifest_catalog.cpp:466-497 | whatever is at an address reads as corrupt if and only if there are not as many items as the lowest declares |
| Edits.AckedReadsExactly | aws/dynamo_manifest_catalog.cpp:466-497 | it reads back if and only if no stray chunk of a longer call has landed, and is corrupt otherwise |
| Edits.EvenlyChunkedNeverStrays | aws/dynamo_manifest_catalog.cpp:439-463 | no stray lands if no call at the address was longer than the acknowledged one |
| Edits.HalfPutIsReached | aws/dynamo_manifest_catalog.cpp:214-254 | a run that leaves half an edit behind, with no call reported successful |
| Edits.LatePutHidesAnEdit | aws/dynamo_manifest_catalog.cpp:439-463 | a run in which a late put makes an acknowledged edit unreadable |
| Replay.LoadVersion | cli/version_load.cpp:67-111 | applies a contiguous prefix ending where the listing does or at an unfinished last edit, and fails at anything else |
| Replay.AcknowledgedEditsAreApplied | cli/version_load.cpp:67-111 | a replay that succeeds has applied every acknowledged edit |
| Replay.DamageIsAboveTheAcknowledged | cli/version_load.cpp:67-111 | one that fails has read every acknowledged edit first |
| Replay.FailsExactlyOnDamage | cli/version_load.cpp:67-111 | no listing both ends and breaks |
| EditReplay.AcknowledgedOutcome | src/version/version_set.cpp:255-320 | an acknowledged edit is listed, and fetched later as itself or, with a stray beside it, as damage |
| EditReplay.PartialOutcome | src/version/version_set.cpp:255-320 | what can be opened at all is damage if and only if it was never finished |
| EditReplay.Load | src/version/version_set.cpp:255-320 | over any runs of writers: a load that succeeds has applied every acknowledged edit in order; a stray makes it fail no later than there; without strays it fails only past all acknowledged edits, and at a tail it can open exactly when the tail is half put |
| EditReplay.HalfPutTailIsReached | src/version/version_set.cpp:255-320 | a run of one address that leaves such a tail |
| DiskCatalog.Catalog.WriteObject | src/manifest/disk_manifest_catalog.cpp:153-185 | an object is created whole or refused, and on a healthy disk refused only if it exists; one that exists is never touched; a failure leaves nothing or a prefix |
| DiskCatalog.Catalog.CompareAndSet | src/manifest/disk_manifest_catalog.cpp:220-266 | which calls on the disk succeed decides exactly whether the outcome is a swap, a fence, exhaustion or a failure, and whether the next token has been installed over the expected entry |
| EncryptedObject.EncodingIsInjective | src/crypt/encrypted_object.cpp:28-38 | two chunks share their associated data exactly when object, chunk and, at chunk zero only, claimed length agree |
| EncryptedObject.LayoutIs | src/crypt/encrypted_object.cpp:14-53 | chunk count, chunk length, physical size and the first, last and end of a fetch are what the source's divisions and products give |
| EncryptedObject.SealObject | src/crypt/encrypted_object.cpp:55-75 | the loop seals chunk by chunk, to exactly the computed physical size |
| EncryptedObject.ChunkStarts | src/crypt/encrypted_object.cpp:50-75 | chunk k starts at k strides of the sealed object |
| EncryptedObject.ReadObject | src/crypt/encrypted_object.cpp:85-128 | a read that succeeds returns the bytes from the offset up to the requested length or the claimed end, whichever comes first, and nothing past the end |
| EncryptedObject.ReadsBackTheSlice | src/crypt/encrypted_object.cpp:85-128 | for every cipher that opens the chunks it sealed of an object, any range of the sealed object reads back as that slice of the plaintext, cut short at its end and empty past it |
| EncryptedObject.OpenedIsOwn | src/crypt/encrypted_object.cpp:28-38 | under a cipher that opens nothing but what was sealed, a chunk that opens is that chunk of that object, and at zero the claimed length is the true one |
| EncryptedObject.ReadProvesTheObject | src/crypt/encrypted_object.cpp:85-128 | a successful read returns exactly that slice of the object sealed under the name, whatever is stored and whatever length is claimed; one that starts in chunk zero proves the claimed length |
| EncryptedObject.IdealReadsBack | src/crypt/encrypted_object.cpp:85-128 | under such a cipher the true object with its true length is always returned |
| EncryptedObject.RecordingReads | src/crypt/encrypted_object.cpp:55-128 | for every history of objects, chunk size and overhead there is such a cipher, and reads under it succeed, so the results above are not vacuous |
| Budget.MemoryBudget.TryAcquire | include/elysiumkv/memory_budget.hpp:25-34 | charges exactly when that stays within the limit |
| Budget.MemoryBudget.Overage | include/elysiumkv/memory_budget.hpp:47-50 | how far use is above the limit |
| RangeCache.PlanCoversExactly | src/blob/range_cache.cpp:8-25 | the planned window covers the request if and only if the sum of offset and length, or its wrapped rounding, allows it |
| RangeCache.PlannedIsTight | src/blob/range_cache.cpp:8-25 | a fetch starts at the last boundary at or before the request and, unless the rounding wraps, ends at the first at or after its end |
| RangeCache.Take | src/blob/range_cache.cpp:27-61 | a held range answers exactly the requests that lie within it, and, if it runs to the end of its object, those that start in or after it |
| RangeCache.MissedExactly | src/blob/memory_cache_blob_store.cpp:200-235 | a miss is answered as the store below would if and only if the plan reaches as far as that answer does |
| RangeCache.PlanShrinksARequest | src/blob/range_cache.cpp:8-25 | a request at offset 10 whose end wraps: the plan covers 16 bytes and a miss returns 6, of any object longer than that |
| RangeCache.FillSound | src/blob/range_cache.cpp:63-90 | recording a range keeps index, recency list, payload and both byte counts in exact agreement |
| RangeCache.DropSound | src/blob/range_cache.cpp:122-129 | so does dropping an object |
| RangeCache.HeldWithinBound | src/blob/range_cache.cpp:102-114 | bytes held never exceed bytes indexed nor the bound, and equal them when nothing was lost |
| RangeCache.RangeAnswers | src/blob/range_cache.cpp:27-61 | a held range that answers a request at all answers it as the store below would |
| RangeCache.Cache.MakeRoom | src/blob/range_cache.cpp:102-114 | evicts the least recent first, never the object being filled and no more than needed: the last one evicted would not fit beside what is wanted; and says exactly whether there is room |
| RangeCache.Cache.StorePayload | src/blob/memory_cache_blob_store.cpp:62-83 | a refusal changes nothing; otherwise the budget moves by exactly what the payload does |
| RangeCache.Cache.Insert | src/blob/range_cache.cpp:63-90 | a range is listed, held and made most recent beside its object's other ranges, unless it is too large for the cache or the budget refuses it |
| RangeCache.Cache.Lookup | src/blob/range_cache.cpp:27-61 | a hit is the store's own answer, makes the object most recent, and comes exactly when the first range that takes the request has its bytes; a miss means that no range takes it, or that a payload was lost behind the index and its object is dropped |
| RangeCache.Cache.Get | src/blob/memory_cache_blob_store.cpp:177-235 | a caching read finds an object exactly when the delegate does, and answers as it does wherever the plan covers the request, whatever was evicted, lost or refused; a miss answers as `MissedExactly` says and keeps what it planned wherever there is room |
| RangeCache.Cache.Put | src/blob/memory_cache_blob_store.cpp:237-252 | write-through adds a new object below, leaves an existing one, keeps the new one whole wherever there is room, and keeps every held range true of the store below |
| RangeCache.Cache.Remove | src/blob/memory_cache_blob_store.cpp:260-272 | nothing of a removed object can be served again |
| Windowed.Joined | src/blob/windowed_blob_store.hpp:87-120 | the kept tail and a prefetch from the old boundary are one slice of the object |
| Windowed.WindowedStore.TakePrefetch | src/blob/windowed_blob_store.hpp:147-152 | a prefetch is used exactly for the object and offset it was made for, and never twice |
| Windowed.WindowedStore.Refill | src/blob/windowed_blob_store.hpp:87-120 | the window comes to start at the request and to hold enough of it; a prefetch that serves costs no request, anything else one, and the next window is fetched ahead exactly when the object is being walked forward |
| Windowed.WindowedStore.Read | src/blob/windowed_blob_store.hpp:47-67 | for every sequence of reads each answer is the delegate's, a healthy delegate is never failed, what the window holds costs no request, and otherwise exactly the requests a refill makes reach the delegate |
| Placement.PlacementIsMonotone | src/blob/placement.cpp:38-55 | as time passes a file's tier only ever gets colder |
| Placement.TierOfStore | src/blob/placement.cpp:14-19 | with distinct stores, a store's tier is the one that names it |
| Placement.ResolveTiers | src/blob/placement.cpp:57-119 | accepts exactly the non-empty lists whose stores are there, named and not caches, whose age bounds never decrease, whose transient tiers come first and are bounded with a later stall, and whose last tier is durable and unbounded |
| Placement.LastAdmits | src/blob/placement.cpp:38-55 | on an accepted list every file is placed on a tier that admits it |
| Migrator.GroupByTier | src/compact/migrator.cpp:14-31 | each group is exactly the files below level 0 on that tier |
| Migrator.MovableIsBelow | src/compact/migrator.cpp:14-31 | what may move is exactly the files of the levels below level 0 |
| Migrator.OnTierMembers | src/compact/migrator.cpp:14-31 | a tier's group holds each of its files exactly as often as it is listed, and no other |
| Migrator.PickMigration | src/compact/migrator.cpp:43-115 | a pick moves strictly colder, to where the file belongs or off an over-full tier; the hottest transient tier with work comes first; nothing is picked only when all is at rest |
| Migrator.MoveCools | src/compact/migrator.cpp:43-115 | a move takes the files strictly closer to rest, whatever jitter the fresh number brings |
| Migrator.Settle | src/compact/migrator.cpp:43-115 | at a fixed clock picking and moving ends, with no file hotter than its placement and no tier before the last over capacity, and is a chain of tasks that together change no read |
| BlockCache.InsertInto | src/cache/sharded_lru.cpp:52-82 | list and index stay a bijection within capacity; a block already there only moves to the front; a new one is kept if it fits at all, and pushes out no more than it must |
| BlockCache.EvictTo | src/cache/sharded_lru.cpp:40-50 | evicts the least recent until within capacity and no further, and reports exactly what it released |
| BlockCache.ShardedLru.Get | src/cache/sharded_lru.cpp:24-38 | returns the block indexed under the key, if any, moves it to the front of its shard and changes nothing else |
| BlockCache.ShardedLru.Insert | src/cache/sharded_lru.cpp:52-82 | one shard changes, as `InsertInto` says, so a block that fits is found by the next get; the budget moves by exactly what the cache does |
| BlockCache.ShardedLru.EvictFile | src/cache/sharded_lru.cpp:84-102 | exactly the blocks of that file go |
| BlockCache.ShardedLru.EvictAtLeast | src/cache/sharded_lru.cpp:104-130 | releases what was asked for or empties the cache, round robin from the least recent of each shard and no more than needed, and reports exactly what it released |
| BlockCache.ShardedLru.Close | src/cache/sharded_lru.cpp:11-18 | the budget is left with exactly what others hold |
| Arena.BumpArena.Allocate | src/memtable/arena.cpp:55-64 | a region of the size asked for, apart from every region before it, with blocks and charge in agreement; from the current block if it fits, a block of its own if large, else a fresh block |
| Arena.BumpArena.AllocateAligned | src/memtable/arena.cpp:66-77 | the same after the padding to the boundary; for zero bytes no region is handed out |
| Arena.LittleIsGivenUp | src/memtable/arena.cpp:40-53 | a request that leaves the current block gives up less than a quarter of a block beyond its padding |
| Arena.BumpArena.SetBudget | src/memtable/arena.cpp:16-22 | what is already held moves from one budget to the other, exactly |
| Arena.BumpArena.Destroy | src/memtable/arena.cpp:24-27 | the budget is left with exactly what others hold |
| Process.Process.ArenaIsValid | include/elysiumkv/memory_budget.hpp:40-50 | whatever else shares the budget, an arena's share is within the counter, so giving it back cannot underflow |
| Process.Process.BlocksAreValid | include/elysiumkv/memory_budget.hpp:40-50 | the same of a block cache |
| Process.Process.RangesAreValid | include/elysiumkv/memory_budget.hpp:40-50 | the same of a range cache |
| Process.Process.Attach | src/memtable/arena.cpp:16-22 | an arena joins with what it already holds, and the counter is still the sum of all holdings |
| Process.Process.AllocateFrom | src/memtable/arena.cpp:29-64 | any allocation by any arena keeps the counter the sum of all holdings, and no other holding changes |
| Process.Process.DestroyArena | src/memtable/arena.cpp:24-27 | a memtable's end takes exactly its share off the counter |
| Process.Process.Detach | src/memtable/arena.cpp:16-22 | so does moving its arena to another budget |
| Process.Process.InsertBlock | src/cache/sharded_lru.cpp:52-82 | an insertion with all it evicts keeps the counter the sum of all holdings, and a block that fits at all is held afterwards |
| Process.Process.EvictAtLeast | src/cache/sharded_lru.cpp:104-130 | shedding lowers the counter by exactly what it reports, which is what was asked for or all there is |
| Process.Process.CloseBlockCache | src/cache/sharded_lru.cpp:11-18 | closing a cache takes exactly its share off the counter |
| Process.Process.ReadThrough | src/blob/memory_cache_blob_store.cpp:177-235 | a caching read beside any number of other holders answers as the store below and keeps the counter the sum of all holdings |
| Process.Process.WriteThrough | src/blob/memory_cache_blob_store.cpp:237-252 | so does a write |
| Process.Process.LosePayload | src/blob/range_cache.cpp:27-61 | a payload entry that goes missing behind the index takes exactly its bytes off the counter |

## Left out

- Thread interleavings within an operation, memory ordering, the compare-and-swap retry loop of the budget and the single-flight fetch: each operation is one step. A background task is two, with any writes, watermarks, seals, flushes and reopenings in between (`Runs`).
- Two background tasks at once: they share one worker, so a run has at most one edit decided on and not yet installed.
- Level scores, tombstone density, clocks and the grandparent bytes that cut an output: they decide when to compact and where to cut, and those choices are arbitrary here.
- The SST byte format, bloom filters, checksums, compression and manifest encoding: a file is its entries, its ranges and its metadata.
- Expiry by time to live: the files it would drop are not modelled.
- AES-GCM, key management and OpenSSL: a cipher is any pair of functions; what is needed of it is stated where it is needed.
- POSIX file handling, the disk cache and S3: a store below is a map from names to bytes.
- The AWS SDK: only conditional writes, deletes and consistent reads of one table, with lost and late requests and answers.
- The C interface, the rest of the command line, stats, logging, benchmarks and fuzzing.
- Opening a store: option checking, orphan sweeping, and the loop that reads the pointer again while another process rolls.
- Tower heights drawn at random: `Insert` holds for every height, and nothing is said about search cost.
- The memtable's nodes are cells of an arena addressed by index, not heap objects; a store through a pointer is an update of its cell.
- Jitter arithmetic: any function of file and tier that stays within the span.
- Listing and deleting objects through the caches, and the destructor of a range-cache shard.
- Clearing an edit's residue chunk by chunk: it is one step, so a rival's chunk put between two of its deletes is not seen.
- Runs.RunKeeps: stated for runs that heed the three conditions.
- Runs.StoreIsTheMap: stated for runs that heed the three conditions; the reissue inside level 0 of a store with one level is not among its tasks and is `SingleLevel`'s subject.
- Runs.ResumeGuarantee: the same; that a write is lost is shown for one reached world that is uncertifiable, not for every one.
- Live.LiveStore.Put: requires, as the other writes do, that the empty key is left alone, and `Reopen` and `CompleteRecovery` what a run has to heed; memory throttling, size limits, background errors and read-only stores are not modelled.
- Recovery.ReopenPreserves: requires that the reopening is not uncertifiable, which `Recovery.ResumeIsCertified` shows to be exactly when the reported position is certified.
- Recovery.CompletePreserves: requires `Discharged`, whose converse cannot hold world by world (a memtable may hold only what a file also holds); `Counterexamples.CompletingEarlyLosesAWrite` shows instead that no position short of it would do.
- Picker.TransitiveOverlap: requires that no file of the level starts at the empty key, or that the last one does and either the bound given does too or no other file does; otherwise the loop need not end (`Counterexamples.OverlapNeverReturns`).
- Picker.OverlappingInputs: requires the same of the oldest file's span, because it runs that loop.
- Picker.ExpandedInputs: requires that no file of the two levels starts at the empty key, because the span it expands by would be wrong.
- Picker.BottommostMeansNothingBelow: requires that no file lies deeper than the configured levels, which `Picker.DepthExactly` shows to be the exact condition.
- Picker.PickCompaction: requires the one or the other, by the kind of level.
- Picker.MayLetGo: says nothing where a file other than the last starts at the empty key, because the span it tests is wrong there.
- Compactor.Engine.RunOneCompaction: requires that no file starts at the empty key and none lies deeper than the configured levels, as do the other tasks that pick; `Runs.RunKeeps` shows that every run has both.
- Compactor.Engine.CompactOffTier: requires the same.
- Compactor.Engine.CompactLevel: requires a level above the last, and `CompactLastLevel` at least two levels; a pass over the only level is `SingleLevel.CompactOnlyLevel`.
- Live.LiveStore.CompactLevel: requires two levels; a pass over the only level is `SingleLevel.CompactOnlyLevel`.
- RangeCache.Cache.Get: the answer is the delegate's only where the planned window covers the request (`RangeCache.PlanCoversExactly` says where).
- Chunks.ReadsBack: stated up to ten thousand chunks, because beyond that address order is not index order (`Chunks.AddressOrderExactly`).
- ManifestReader.ReadNamedSnapshot: the same bound.
- Edits.AckedReadsExactly: the same bound.
- EditReplay.Load: the same bound.
- EditReplay.AcknowledgedOutcome: the same bound.
- EditReplay.PartialOutcome: the same bound.
- Edits.CorruptExactly: the same bound.
- Replay.AcknowledgedEditsAreApplied: takes what each edit is fetched as from the caller; `EditReplay.Load` derives it from the runs that put the edits there.
- Replay.DamageIsAboveTheAcknowledged: the same.
- Migrator.Settle: requires distinct stores, because with a shared store a file may look placed where it is not.
- Live.LiveStore.SettleTiers: requires the same.
