# RecIS, proved

RecIS keeps sparse embedding tables in memory, feeds them ragged batches, and writes them to sharded checkpoints
that a different number of shards can load. This project models the parts of its C++ side that carry the most logic
and proves what they promise. Every algorithm of the source that updates state step by step is a method or a class
proved against a mathematical function; what the source promises is then proved of that function, for all inputs,
all runs and all interleavings.

Five areas, each a group of modules:

- **Embedding store.** `Words`, `BlockedArray`, `ChildIds`, `IdAllocation`, `IdMapping`, `SlotGroups`, `HashTables`,
  `StoreRuns`. A free stack cut into blocks feeds a hash map, which feeds rows kept in fixed-size blocks. Main
  result: `StoreRuns.Run`. After any sequence of lookups, inserts, deletes and clears, with whatever batches, every slot
  equals a plain map from id to row, and every operation answered what that map would have answered.
- **Checkpoints.**
  - `Decimals`, `IndexInfos`, `SaveBundles`, `SaveProtocol`, `SaveSafety`, `SaveRuns`, `SaveProgress`, `SaveRanks`,
    `SaveShares`: the savers as a step protocol over a map of files in which every interleaving of shards and writers
    is a run. Main results: a final index implies a whole checkpoint (`SaveShares.EveryRunCommits`), no run gets stuck
    or runs forever (`SaveProgress.Completes`), the order of arrival does not matter for data, names and index
    (`SaveProgress.OrderFree`), and when it does for the merged rank document (`SaveRanks.AlwaysWhole`).
  - `OutputBuffers`, `TableFiles`, `BlockNames`: the bytes of a table file. Main result: `TableFiles.ReadsBack`.
  - `Checkpoints`: savers, index and table files together. Main result: `Checkpoints.ReadsBackWhole`. Once the final
    index exists, every block asked for by the name it was saved by is found, and the range read for it holds its bytes.
  - `Slices`, `SliceNames`, `LoadTables`, `LoadRuns`, `Unfilled`, `WriteBlocks`, `Reshard`: saving under one slicing and
    loading under another. Main results: `LoadRuns.Load`, `Reshard.SaveAndReload`, `Reshard.ExactlyOneTarget`,
    `SliceNames.LoadTiling`.
- **Ragged tensors.** `Ragged` gives nested splits their meaning as nested lists. `Odometer`, `DenseShapes`,
  `RaggedToDense`, `RaggedToSparse`, `DenseToRagged`, `RaggedAppend`, `Packing`, `PackJobs` prove the kernels against
  it. Main results: `RaggedToDense.RaggedToDenseOp`, `RaggedToSparse.ScatterIsDense`,
  `DenseToRagged.RaggedRoundTrip`, `PackJobs.Pack`.
- **Samplers.** `AliasTables`, `Reservoirs`: the alias table represents its weights exactly when they are normalised;
  sampling without replacement ends and returns distinct items, for any draws strictly between 0 and 1, exactly when
  weights and sample size fit (`Reservoirs.PromiseIff`).
- **Loops with a meaning of their own.** `Paths`, `CleanPaths`, `IdsPartitions`, `Gaucs`.

`Collections` holds small facts about sequences and sets that several modules share.

## Where the code differs from what it promises

Each is proved, with the exact condition under which the promise holds; the buffer size is a precondition.

- `IdMapping.CpuIdMap.Lookup`: a batch that repeats an unknown id leaks an index for good; the live and free indexes
  still tile `[0, cur_size_)` exactly when they did before and the unknown ids are distinct. Lookups and inserts go on
  working, while every snapshot of the ids fails: nothing can be cleared or saved any more (`StoreRuns.Run`,
  `WriteBlocks.MakeHTWriteBlock`).
- `SlotGroups.SlotGroup.Gather`: reading a range that does not start at 0 with the read-only functor is right exactly when
  the range has no null index, whose zeros go to the wrong row otherwise.
- `Reshard.ApartWhen`: between a coalesced table and one that is not, saved ids stay apart exactly when no two of them
  that the target accepts have the same low 52 bits; where two meet, at most one kind of row survives
  (`Reshard.MetIdsAgree`).
- `IdAllocation.NarrowedUpdateExact`: the `int` cast in `GenIds` is harmless exactly under `CastFits`.
- `ChildIds.ChildRoundTrip`: `GatherChildIds` decodes with a signed shift and so finds a child only below 2048,
  although up to 4094 children are accepted.
- `WriteBlocks.SavesBelow`: for the same reason a table that holds an id of a child from 2048 on cannot be saved.
- `ChildIds.SeveralChildrenAccepted`: the check that should refuse several children in a table that is not coalesced
  never fires.
- `SaveBundles.StoredApart`: renaming turns the first `@` of a name into a dot, so that the index keeps two table blocks of
  one shard apart exactly when their names differ and none is the other with its `@` exchanged for a later dot. Slot `x.y`
  of a table `u` and slot `y` of a table `u.x` are stored under one name.
- `BlockNames.NamesAgree`, `TableFiles.FoundByIndexName`: a dense tensor is described in its table file under the
  name the index uses for it exactly when its name does not contain `/part_`.
- `SaveRanks.AlwaysWhole`: the merged description of a checkpoint is complete after every run exactly when no shard
  other than shard 0 is without blocks, or all shards are. The `null` an empty shard publishes replaces what was merged
  before it. Where shard 0 has blocks and another shard has none, no run writes a complete one
  (`SaveRanks.NeverWhole`; `SaveRanks.EmptySecondShard` is such a run).
- `Unfilled.UnfilledIff`: loading into a table without blocks leaves some row in unfilled memory exactly when some owned
  entry's piece lacks a slot that another piece of the load brings. With room for all entries in the old blocks no new id
  reads unfilled memory (`Unfilled.RoomEnough`); `Unfilled.UnfilledExample` is a job with two pieces that does.
- `Reshard.Restored`, in `Reshard.RoundTrip`: a saved id comes back exactly when the target accepts it and the slice it
  was saved under meets the target's; a table that holds an id its own slice does not accept can lose it
  (`Reshard.OwnedIntersects` rules this out for ids the slice accepts).
- `DenseToRagged.RaggedRoundTrip`: a ragged list survives the way to dense and back exactly when no non-empty row ends
  in the invalid value.
- `IdsPartitions.OwnersAgree`: partitioning and loading give an id the same owner exactly when its two residues lie in
  one part. For a non-negative id they always do; for every number of parts they do exactly when the id is not negative
  or its remainder is 0 or half the slice size (`IdsPartitions.OwnersAlwaysAgree`). With two parts -1 has two owners
  (`IdsPartitions.OwnerExamples`).
- `IndexInfos.KeptInverse`: the inverse `FileNameByIndex` keeps is never rebuilt; after a block went to a new file it does
  not find that file's number.
- `SliceNames.NameRoundTrip`: a printed slice is read back exactly when its size fits an `int`.
- `OutputBuffers.FileOutputBuffer.Append`: requires a buffer of positive size unless the data is empty; with size 0 the
  chunk loop of the source would not end.
- `Reservoirs.PromiseIff`: a weight of 0 is only logged. For all draws between 0 and 1 the sampler ends and returns different items
  exactly when there are no more items than asked for, or at most one of the first `n` weighs 0 and, if it is the only one
  asked for, the item after it weighs something. Two zero weights at the front return one item twice
  (`Reservoirs.RepeatedItem`).
- `AliasTables.AliasMethod.Init`: the table represents its weights exactly when they are normalised.
- `Gaucs.IsPairShare`: tied predictions count as the sort happens to list them (`Gaucs.TiesAreOpen`).
- `CleanPaths.CleanPath`: a path with an embedded NUL is cleaned as if it ended there.

## Model

| member | source | states |
|---|---|---|
| Collections.FlattenSplit | csrc/serialize/write_block.cc:167-179 | laying sequences one after another: of two lists it is both results in order, of one sequence that sequence |
| Collections.FlattenCell | csrc/serialize/write_block.cc:167-179 | rows of one width laid one after another: item `b` of row `i` is at `i * width + b` |
| Collections.SumToSplit | csrc/data/aexpj_method.cc:13-27 | a running sum adds up over two lists and is the item for one |
| Collections.TotalToSplit | csrc/data/local_data_resource.cc:459-467 | the same for counts |
| BlockedArray.FlatAt | csrc/ops/hashtable_ops.cc:19-22 | entry `o` of block `b` is entry `b * bs + o` of the running sequence |
| BlockedArray.FlatPut | csrc/ops/hashtable_ops.cc:46-50 | writing one cell of one block, addressed by quotient and remainder, changes exactly one entry of the running sequence |
| BlockedArray.FlatTail | csrc/serialize/load_internal.cc:47-67 | overwriting block tails from an index on changes exactly the entries from that index on |
| IdAllocation.NarrowedUpdateExact | csrc/embedding/id_allocator.cc:23 | narrowing the difference to `int` gives the intended free size if and only if the difference fits |
| IdAllocation.DrawKeepsPartition | csrc/embedding/id_allocator.cc:17-26 | drawn indexes are distinct and were not live; live and free tile `[0, cur_size_)` afterwards if and only if they did before |
| IdAllocation.FreeKeepsPartition | csrc/embedding/id_allocator.cc:28-34 | returning indexes keeps live and free a partition if and only if they are distinct and live |
| IdAllocation.FreeKeepsPacked | csrc/embedding/id_allocator.cc:28-34 | distinct live indexes returned stay apart from the others; an index lost before stays lost |
| IdAllocation.LiveCount | csrc/embedding/cpu_id_map.cc:134-138 | live and free indexes number at most `cur_size_`, and exactly that if and only if none is lost, which is what the snapshot check compares |
| IdAllocation.GenerateIds | csrc/ops/hashtable_ops.cc:15-27 | the kernel fills the batch with the top of the stack, then fresh indexes, whatever the block cut |
| IdAllocation.WriteFreed | csrc/ops/hashtable_ops.cc:45-52 | the kernel puts returned indexes above the old top and keeps every stacked entry |
| IdAllocation.IdAllocator.constructor | csrc/embedding/id_allocator.cc:8-15 | a new allocator has an empty stack and the given size |
| IdAllocation.IdAllocator.GenIds | csrc/embedding/id_allocator.cc:17-26 | returns the top of the stack, then indexes counted up from the size, the batch filled from its end, and removes exactly those from the stack; fresh ones raise the size |
| IdAllocation.IdAllocator.FreeIds | csrc/embedding/id_allocator.cc:28-34 | appends the returned indexes to the stack, growing it by blocks |
| IdAllocation.IdAllocator.ReduceBlock | csrc/embedding/id_allocator.cc:36-43 | dropping blocks above the top loses no stacked entry |
| IdAllocation.IdAllocator.IncreaseBlock | csrc/embedding/id_allocator.cc:45-55 | growing by blocks keeps every entry of the old blocks |
| IdAllocation.IdAllocator.Clear | csrc/embedding/id_allocator.cc:57-62 | size 0 and an empty stack |
| IdMapping.CpuIdMap.constructor | csrc/embedding/cpu_id_map.cc:68-71 | no ids, no indexes |
| IdMapping.CpuIdMap.Lookup | csrc/embedding/cpu_id_map.cc:73-86 | known ids keep their index, unknown ones are admitted, every position reports its id's index; live and free tile the indexes afterwards if and only if they did before and the unknown ids were distinct |
| IdMapping.CpuIdMap.FindKnown | csrc/embedding/cpu_id_map.cc:41-58 | first pass: known positions are filled, the unknown ones listed in order |
| IdMapping.CpuIdMap.InsertNew | csrc/embedding/cpu_id_map.cc:82-85 | second pass: every occurrence of an id reports its index, a first occurrence of a new id the index drawn for it |
| IdMapping.InsertAllAt | csrc/embedding/cpu_id_map.cc:82-85 | after the second pass a known id has its old index and a new one the index drawn for its first occurrence |
| IdMapping.LookupOutcome | csrc/embedding/cpu_id_map.cc:73-86 | drawing for the unknown ids keeps the map injective and in range, and no index is lost if and only if none was and they are distinct |
| IdMapping.LeakBreaksPartition | csrc/embedding/cpu_id_map.cc:80-85 | counting: if live and free tile the indexes after a batch, they did before and its unknown ids were distinct |
| IdMapping.CpuIdMap.LookupReadOnly | csrc/embedding/cpu_id_map.cc:88-95 | index of a known id, -1 for an unknown one, nothing changes |
| IdMapping.CpuIdMap.SnapShot | csrc/embedding/cpu_id_map.cc:134-155 | succeeds if and only if the counts agree, that is if and only if no index is lost, and then lists each live pair once |
| IdMapping.CpuIdMap.DeleteIds | csrc/embedding/cpu_id_map.cc:157-168 | removes the ids and stacks the indexes; the partition survives if and only if the indexes are exactly those set free, each once, and so listed they lose nothing in any table |
| IdMapping.CpuIdMap.Clear | csrc/embedding/cpu_id_map.cc:170-174 | no ids and an empty allocator |
| SlotGroups.ScatterAt | csrc/embedding/slot_group.cc:109-114 | a row keeps the last of the rows written to it, and its old one when there is none |
| SlotGroups.SlotGroup.AppendSlot | csrc/embedding/slot_group.cc:145-156 | the new slot has no rows; the group stays uniform if and only if it had no block yet |
| SlotGroups.SlotGroup.IncrementBlock | csrc/embedding/slot_group.cc:190-195 | every slot gains one block of its initial row, old rows stay |
| SlotGroups.SlotGroup.ResetSlotByIndex | csrc/embedding/slot_group.cc:174-181 | the listed rows of one slot become initial, all other rows and slots stay |
| SlotGroups.SlotGroup.IndexInsert | csrc/embedding/slot_group.cc:109-114 | one row per position lands in one slot, a single offered row serves all positions, everything else stays |
| SlotGroups.SlotGroup.IndexInsertMasked | csrc/embedding/slot_group.cc:116-131 | only accepted rows land |
| SlotGroups.SlotGroup.Gather | csrc/ops/block_ops.cc:33-103 | the rows of a range of positions, read across blocks, the null index as a row of zeros of the slot's dimension, if and only if the range starts at 0 or has no null index |
| SlotGroups.SlotGroup.SetGenerator | csrc/serialize/load_internal.cc:25-46 | swapping a generator changes no row |
| SlotGroups.SlotGroup.FillFrom | csrc/serialize/load_internal.cc:47-67 | rows from an index on become the generator's, rows before it stay |
| ChildIds.EncodeValue | csrc/embedding/hashtable.cc:53-55 | an encoded id is the id plus 2^52 times its child, from child 2048 on minus 2^64; only the low 52 bits of the id count |
| ChildIds.IdRoundTrip | csrc/embedding/hashtable.cc:53-61 | encoding keeps an id if and only if it lies in `[0, 2^52)` |
| ChildIds.ChildRoundTrip | csrc/embedding/hashtable.cc:53-61 | the unsigned decode gives any child below 4095 back, the signed shift if and only if it is below 2048 |
| ChildIds.EncodeInjective | csrc/embedding/hashtable.cc:53-55 | encoded ids collide only if child and id agree |
| ChildIds.EncodeKeepsResidue | csrc/embedding/children_info.cc:11-13 | the residue of any id survives encoding when the slice size divides 2^52 |
| ChildIds.SeveralChildrenAccepted | csrc/embedding/children_info.cc:38-48 | validation amounts to count and distinctness; two children pass without coalescing |
| ChildIds.ChildIndex | csrc/embedding/children_info.cc:24-26 | the position whose child has the given name |
| HashTables.LastWritten | csrc/embedding/hashtable.cc:291-307 | in the plain map an id keeps the last of the rows written for it, and its old one when there is none |
| HashTables.AdmitView | csrc/embedding/hashtable.cc:343-349 | a freshly admitted id reads the initial row even on an index used before |
| HashTables.WriteView | csrc/embedding/hashtable.cc:291-307 | writing rows through the index of each id is writing them into the plain map, later ones winning |
| HashTables.DropView | csrc/embedding/hashtable.cc:405-418 | deleting and resetting drops exactly those ids from the plain map and leaves freed rows initial |
| HashTables.Hashtable.constructor | csrc/embedding/hashtable.cc:63-119 | an empty table with one slot, for embeddings |
| HashTables.Hashtable.AppendSlot | csrc/embedding/slot_group.cc:145-156 | one more slot without rows, ids and other slots stay; the table stays uniform if and only if no slot had a block yet |
| HashTables.Hashtable.ReserveBlocksForIds | csrc/embedding/hashtable.cc:381-388 | afterwards every index up to the count fits the blocks; old rows stay and new ones are initial |
| HashTables.Hashtable.InsertLookupIndex | csrc/embedding/hashtable.cc:343-349 | for any batch: admits unknown ids, keeps every old view, reports each id's index, all of them within the blocks; no index is lost if and only if none was and no unknown id is repeated |
| HashTables.Hashtable.InsertLookupIndexWithIndicator | csrc/embedding/hashtable.cc:351-373 | admits the ids that are accepted where they occur first, narrows the indicator to those positions, and reports 0 elsewhere |
| HashTables.KeepFirst | csrc/embedding/hashtable.cc:351-373 | the indicator is narrowed to accepted positions whose id did not occur before |
| HashTables.MaskedScatter | csrc/embedding/hashtable.cc:351-373 | found indexes are dealt to the flagged positions in order |
| HashTables.Hashtable.EmbeddingLookup | csrc/embedding/hashtable.cc:274-289 | read-only, an unknown id gives -1 and a row of zeros of the embedding dimension, and nothing changes in any view; otherwise it is admitted with the initial row; repetitions change no answer |
| HashTables.Hashtable.EmbeddingLookupReadOnly | csrc/embedding/hashtable.cc:327-341 | no id is admitted; an unknown id reads as many zeros as the embedding has dimensions |
| HashTables.Hashtable.Insert | csrc/embedding/hashtable.cc:291-307 | refuses a length mismatch unchanged, otherwise stores the rows in the embedding slot, later ones of a repeated id winning |
| HashTables.Hashtable.Delete | csrc/embedding/hashtable.cc:405-418 | forgets the ids, resets their rows in all slots but the preserved one, which is the last of that name, keeps every other id's row and every row of the preserved slot |
| HashTables.LastNamed | csrc/embedding/slot_group.cc:145-156 | the slot of the given name, and no later one has it; -1 if and only if there is none |
| HashTables.ReusedRow | csrc/embedding/hashtable.cc:405-418 | an id admitted after a deletion reads, in the preserved slot, the row of the deleted id whose index it got, or the initial row |
| HashTables.OwnedEncoded | csrc/embedding/hashtable.cc:420-435 | an id encoded for a child is found by a search for a child if and only if the two are the same and its index is below 2048 |
| HashTables.Hashtable.GatherChildIds | csrc/embedding/hashtable.cc:420-435 | fails if and only if the child is unknown or an index is lost; otherwise lists, with their indexes, all ids of the table, or of the ids encoded for any child exactly those of the given child, provided its index is below 2048 |
| HashTables.Hashtable.Clear | csrc/embedding/hashtable.h:108-111 | after a successful clear of a child below 2048 no id encoded for it is left, and every id encoded for another child has its row in every slot; without a name no id is left; fails unchanged for an unknown child or once an index is lost |
| StoreRuns.Perform | csrc/embedding/hashtable.cc:274-418 | one operation acts on every slot as on a plain map with a mark for lost indexes and gives its answer, failures included; a read-only lookup answers zeros for an unknown id |
| StoreRuns.ClearsChild | csrc/embedding/hashtable.h:108-111 | in the plain map too, a clear takes the ids encoded for that child, if it is below 2048, and no other |
| StoreRuns.AnswersAt | csrc/embedding/hashtable.cc:274-418 | each answer of a run is that of the plain map after the operations before it |
| StoreRuns.Run | csrc/embedding/hashtable.cc:274-418 | after any run, repeated ids included, every slot equals the plain map after the same operations, later rows of a batch winning, an index is lost if and only if some batch repeated an unknown id, and all answers are the plain map's, with zeros for ids that are not in it |
| Decimals.DigitsExample | csrc/serialize/save_bundle.cc:91-92 | numbers are printed in base 10 |
| Decimals.PaddedExample | csrc/serialize/name.cc:84-94 | 3 to six places is `000003`; a longer number is not cut |
| Decimals.DigitsValue | csrc/serialize/save_bundle.cc:91-92 | a printed number reads back as itself |
| Decimals.SameWidthOrder | csrc/embedding/slice_info.cc:38-48 | equally long digit strings compare like their numbers |
| IndexInfos.IndexInfo.Append | csrc/serialize/index_info.cc:19-28 | the block is sent to the file, a new file takes the next number, all else stays |
| IndexInfos.IndexInfo.MergeFrom | csrc/serialize/index_info.cc:30-38 | the other index on top, its file numbers moved up by the count so far |
| IndexInfos.MergeNames | csrc/serialize/index_info.cc:30-38 | disjoint indexes merge to one that sends each block where its own index sent it |
| IndexInfos.MergeGapless | csrc/serialize/index_info.cc:30-38 | files stay numbered `0..N-1` if and only if no file is in both indexes |
| IndexInfos.NamesOne | csrc/serialize/index_info.cc:76-87 | an index without gaps sends each of its blocks to exactly one file |
| IndexInfos.IndexInfo.FileNameByIndex | csrc/serialize/index_info.cc:80-87 | the inverse is built when there is none and kept; a number it does not hold fails |
| IndexInfos.InverseIsExact | csrc/serialize/index_info.cc:80-87 | over numbers without gaps the inverse knows exactly those below the count, each with its one file |
| IndexInfos.KeptInverse | csrc/serialize/index_info.cc:19-28 | a kept inverse stays right when a block is appended and complete if and only if the block went to a file it knew |
| IndexInfos.IndexInfo.Deserialize | csrc/serialize/index_info.cc:109-124 | files as written, blocks under their names in the name map |
| IndexInfos.ReadNames | csrc/serialize/index_info.cc:109-124 | renaming that keeps names apart loses no block and moves none |
| SaveBundles.DotPlace | csrc/utils/str_util.cc:79-91 | replacing `@` keeps the length, changes nothing without one, and otherwise exactly the first, into a dot |
| SaveBundles.StoredAlike | csrc/serialize/save_bundle.cc:79-107 | two names with an `@` are stored alike if and only if they are the same or one is the other with its first `@` exchanged for a later dot |
| SaveBundles.StoredApart | csrc/serialize/save_bundle.cc:79-107 | the index of a shard keeps all its blocks apart if and only if its table blocks have different names, none of them another with its `@` moved, and its dense tensors have different names |
| SaveBundles.TableNameExample | csrc/serialize/save_bundle.cc:79-107 | `u@id` of shard 0 of 2 is stored as `u.id` followed by `/part_0_2` |
| SaveBundles.NamesExample | csrc/serialize/name.cc:151-161 | a loader's name is tensor, caret, slice; `u@x.y` and `u.x@y` are stored alike |
| SaveBundles.FileNameExample | csrc/serialize/name.cc:84-94 | `model-000003-of-000003.safetensors` |
| SaveBundles.KeysApart | csrc/serialize/save_bundle.cc:79-107 | table blocks of different shards, or a table block and a dense one, never share a name |
| SaveBundles.DataFilesApart | csrc/serialize/name.cc:84-94 | different writers get different data file names |
| SaveBundles.WritersApart | csrc/serialize/save_bundle.cc:71-72 | no two writers of a checkpoint, of one shard or of two, use one file |
| SaveBundles.FileByPosition | csrc/serialize/save_bundle.cc:71-72 | file `k` of all files of a checkpoint belongs to writer `k mod parallel` of shard `k / parallel` |
| SaveBundles.TurnIsRemainder | csrc/serialize/save_bundle.cc:251-256 | counting up and wrapping at `parallel` deals item `i` to writer `i mod parallel` |
| SaveBundles.DealtAt | csrc/serialize/save_bundle.cc:79-107 | dealing loses nothing: a block is at the writer of its turn and nowhere else |
| SaveBundles.DealtIndex | csrc/serialize/save_bundle.cc:79-107 | writer `w` has every `parallel`-th block from block `w` on, in order |
| SaveBundles.NonEmptyPrefix | csrc/serialize/save_bundle.cc:221-233 | the writers with blocks are exactly the first `min(parallel, blocks)` |
| SaveBundles.SaveBundle.constructor | csrc/serialize/save_bundle.cc:50-77 | an empty bundle whose writers have their file names |
| SaveBundles.SaveBundle.IncTableIndex | csrc/serialize/save_bundle.cc:251-256 | returns the turn and moves to the next one |
| SaveBundles.SaveBundle.KeepName | csrc/serialize/save_bundle.cc:80-102 | a table block is renamed after its shard, its first `@` turned into a dot; the first such name keeps its original in the name map |
| SaveBundles.SaveBundle.AddBlock | csrc/serialize/save_bundle.cc:79-107 | the bundle keeps its invariant: the index sends each block name to the file of the writer it was last dealt to |
| SaveSafety.StepKeeps | csrc/serialize/save_bundle.cc:109-389 | every step of every shard keeps the invariant that the file map is a function of where the shards stand |
| SaveSafety.RankComplete | csrc/serialize/save_bundle.cc:236-249 | once all parts are consumed a shard's document describes exactly its blocks, `null` if it has none |
| SaveSafety.SourceText | csrc/serialize/save_bundle.cc:258-287 | a file a merge loop consumes is always completely written and is the shard's own |
| SaveRuns.RunsKeep | csrc/serialize/save_bundle.cc:109-389 | the invariant holds after every interleaving |
| SaveRuns.DataStays | csrc/serialize/save_bundle.cc:221-249 | once shard 0 has consumed all rank documents every data file is in place with its blocks |
| SaveRuns.CommitSafety | csrc/serialize/save_bundle.cc:109-166 | in every interleaving the final index implies a written name map, all data files in place, and an index that sends every block to the one file that holds it |
| SaveProgress.Progress | csrc/serialize/save_bundle.cc:289-312 | an unfinished run can always take a step, so every awaited file is published by some shard |
| SaveProgress.StepCosts | csrc/serialize/save_bundle.cc:109-389 | every step uses up some of the work left and changes no other shard |
| SaveProgress.RunBound | csrc/serialize/save_bundle.cc:109-389 | no run is longer than the work there was at the start |
| SaveProgress.Completes | csrc/serialize/save_bundle.cc:109-389 | every run can be continued to the end, where each file was consumed once |
| SaveProgress.LeftBehind | csrc/serialize/save_bundle.cc:109-389 | what a finished save leaves in the directory: the data files and the merged documents, no temporary and no consumed file |
| SaveProgress.OrderFree | csrc/serialize/save_bundle.cc:117-156 | two finished runs leave the same files, data and name map, and indexes that send every block to the same file |
| SaveRanks.FoldedItems | csrc/serialize/save_bundle.cc:281 | what survives folding rank documents by merge patch: exactly the entries with no `null` after them |
| SaveRanks.WholeUnlessWiped | csrc/serialize/save_bundle.cc:258-287 | the merged rank document is complete if and only if no empty shard is met after one with blocks |
| SaveRanks.RankOutcome | csrc/serialize/save_bundle.cc:289-332 | a finished run's merged rank document is the shards' documents folded, shard 0's first, the others in some order, each once, complete under exactly that condition |
| SaveRanks.NeverWhole | csrc/serialize/save_bundle.cc:289-332 | where shard 0 has blocks and another shard has none, no complete run writes a complete rank document |
| SaveRanks.MetEarly | csrc/serialize/save_bundle.cc:289-312 | for every other shard there is a complete run that meets it right after shard 0 |
| SaveRanks.AlwaysWhole | csrc/serialize/save_bundle.cc:289-332 | every complete run writes a complete rank document if and only if no shard other than 0 is empty beside a shard with blocks |
| SaveRanks.EmptySecondShard | csrc/serialize/save_bundle.cc:289-332 | two sound shards, the second empty, and a complete run that loses what the first described |
| SaveShares.BundleIsShare | csrc/serialize/save_bundle.cc:79-107 | a bundle is what the protocol assumes of a shard if and only if its blocks of one name went to one file |
| SaveShares.SaversAreOk | csrc/serialize/saver.cc:55-64 | such bundles meet the protocol's premises: sound shares, and no file, block or map name shared between shards |
| SaveShares.EveryRunCommits | csrc/serialize/saver.cc:55-64 | whatever the shards save and however their steps interleave, a final index means a whole checkpoint |
| Checkpoints.OriginalExample | csrc/serialize/name.cc:156-161 | a loader asks for `u@id^00@10@10` |
| Checkpoints.OwnName | csrc/serialize/save_bundle.cc:93-99 | the name map of a shard gives a stored name the name of the first table block stored under it |
| Checkpoints.ShardApart | csrc/serialize/save_bundle.cc:79-107 | blocks handed over with names that are apart are stored under different names |
| Checkpoints.RenamedBack | csrc/serialize/index_info.cc:109-124 | read through the merged name map, the stored name of every block is the name it was saved by |
| Checkpoints.RenamedOnce | csrc/serialize/index_info.cc:109-124 | the map takes no two blocks of a checkpoint to one name |
| Checkpoints.StoredOnce | csrc/serialize/save_bundle.cc:79-107 | a block is in the data file of the writer whose turn it was and in no other |
| Checkpoints.LoaderFinds | csrc/serialize/load_bundle.cc:64-111 | whenever the final index exists, every saved block is sent, under the name it was saved by, to the file of its writer and to no other, and that file is in place |
| Checkpoints.WriteTable | csrc/serialize/save_bundle.cc:79-84 | what a writer is dealt goes through its table writer: no file for nothing, otherwise exactly the layout of its blocks |
| Checkpoints.FileApart | csrc/serialize/table_reader.cc:34-60 | in the file of one writer the loader's names are all different |
| Checkpoints.ReadsBackWhole | csrc/serialize/load_bundle.cc:64-118 | and the range a reader of that file computes for the name has the size of the block and holds exactly the bytes it wrote, byte `b` of row `i` at the begin plus `i` widths plus `b` |
| OutputBuffers.FileOutputBuffer.Append | csrc/platform/fileoutput_buffer.cc:7-32 | file plus buffer grow by exactly the appended bytes, in all three cases |
| OutputBuffers.FileOutputBuffer.AppendChunks | csrc/platform/fileoutput_buffer.cc:21-28 | the chunk loop sends the whole data to the file |
| OutputBuffers.FileOutputBuffer.FlushBuffer | csrc/platform/fileoutput_buffer.cc:47-53 | the file holds all contents and the buffer is empty |
| OutputBuffers.FileOutputBuffer.Close | csrc/platform/fileoutput_buffer.cc:42-45 | all appended bytes are in the file |
| BlockNames.ContainsAt | csrc/serialize/write_block.cc:101-118 | the search for `/part_` finds it if and only if it begins somewhere in the name |
| BlockNames.MetaKeyExample | csrc/serialize/write_block.cc:101-118 | the two forms of a name in a table file |
| BlockNames.NamesAgree | csrc/serialize/write_block.cc:101-118 | the name in the table file is the name in the index if and only if the block is a table's or its name lacks `/part_` |
| TableFiles.DeclaredIsWritten | csrc/serialize/write_block.cc:181-199 | the size a block declares, rows times row size, is the number of bytes it writes |
| TableFiles.WriteData | csrc/serialize/write_block.cc:167-179 | chunked writing appends exactly the rows' bytes, for every chunk size: byte `b` of row `i` lands `i` widths and `b` bytes behind the old end, whole bytes as they are |
| TableFiles.TableWriter.AppendWriteBlock | csrc/serialize/table_writer.cc:41-44 | the block joins the list under its described name |
| TableFiles.TableWriter.Describe | csrc/serialize/table_writer.cc:63-66 | offsets are threaded: each block's range starts where the previous one ended |
| TableFiles.TableWriter.SaveMeta | csrc/serialize/table_writer.cc:62-85 | size word, description and padding are appended |
| TableFiles.TableWriter.SaveData | csrc/serialize/table_writer.cc:87-91 | all blocks' bytes are appended in order |
| TableFiles.TableWriter.SequentialWrite | csrc/serialize/table_writer.cc:48-56 | a writer without blocks writes nothing, any other the whole layout, for every buffer size |
| TableFiles.Padding | csrc/serialize/table_writer.cc:79-80 | one to eight bytes, so that the description ends on a multiple of eight |
| TableFiles.WordExample | csrc/serialize/table_writer.cc:81-83 | the size word has its low byte first |
| TableFiles.WordRoundTrip | csrc/serialize/table_writer.cc:81-83 | the size word reads back |
| TableFiles.BlockBytes | csrc/serialize/table_writer.cc:62-91 | block `i` occupies exactly its range; ranges are contiguous and do not overlap |
| TableFiles.DescribedAt | csrc/serialize/table_writer.cc:63-66 | with distinct names the description holds every block's range |
| TableFiles.TableReader.LoadMeta | csrc/serialize/table_reader.cc:34-60 | ranges moved behind header and description, names mapped back |
| TableFiles.ReadsBack | csrc/serialize/table_reader.cc:34-60 | the range a reader computes for a block of a written file has the size of the block, lies in the file and holds exactly the bytes that block wrote, byte `b` of row `i` at the begin plus `i` widths plus `b` |
| TableFiles.FoundByIndexName | csrc/serialize/load_bundle.cc:64-77 | a block is described under the name the index has for it if and only if it is a table's or its name lacks `/part_` |
| Slices.IntersectExact | csrc/embedding/slice_info.h:22-35 | the intersection test never rejects slices that share a residue and is exact on non-empty ones; an empty slice meets a non-empty one if and only if it lies within its bounds |
| Slices.MarkIdAcceptable | csrc/serialize/read_block.cc:77-90 | flags exactly the ids whose unsigned residue lies in the slice |
| Slices.EncodeIds | csrc/serialize/read_block.cc:118-131 | accepted ids are encoded in place, others stay |
| Slices.OneOwner | csrc/serialize/read_block.cc:77-90 | of slices that tile the residues exactly one accepts a given id |
| LoadTables.InsertRows | csrc/serialize/ht_read_collection.cc:101-137 | each slot of a chunk gets the kept rows at their indexes, other slots and rows stay |
| LoadTables.ProcessChunk | csrc/serialize/ht_read_collection.cc:67-138 | a chunk admits exactly the accepted ids at their first occurrence, with their rows, and touches no other row |
| LoadRuns.SwapGenerators | csrc/serialize/load_internal.cc:30-46 | every slot some piece brings gets the empty generator, and its own is remembered |
| LoadRuns.FillTails | csrc/serialize/load_internal.cc:47-67 | generators return and every row past the last used index becomes what they make |
| LoadRuns.SliceUp | csrc/serialize/ht_read_collection.cc:140-210 | chunks cover every position of every piece |
| LoadRuns.KeepsAccepted | csrc/serialize/ht_read_collection.cc:67-138 | within a chunk no accepted id is dropped as a repetition |
| LoadRuns.WorkIds | csrc/serialize/ht_read_collection.cc:67-138 | exactly the ids a chunk adds |
| LoadRuns.WorkKeeps | csrc/serialize/ht_read_collection.cc:67-138 | rows a chunk does not write stay, or are what new blocks start with |
| LoadRuns.WorkHolds | csrc/serialize/ht_read_collection.cc:67-138 | a chunk's entries are in place after it |
| LoadRuns.StepHolds | csrc/serialize/ht_read_collection.cc:140-210 | what an earlier chunk put in place, a later one leaves in place |
| LoadRuns.StepInv | csrc/serialize/ht_read_collection.cc:140-210 | one chunk keeps the invariant of the load |
| LoadRuns.Load | csrc/serialize/load_internal.cc:213-269 | for every chunk order: each owned entry of each piece is in the table with its rows, nothing else came in, other ids keep their rows, generators are back, and unowned rows are initial; exactly which rows read unfilled memory |
| Unfilled.UnfilledIff | csrc/serialize/load_internal.cc:25-67 | for a table without blocks: some row is left in unfilled memory if and only if some owned entry's piece lacks a slot another piece brings |
| Unfilled.FreshBound | csrc/serialize/ht_read_collection.cc:67-138 | a load draws at most one fresh index per entry |
| Unfilled.RoomEnough | csrc/serialize/load_internal.cc:25-67 | with room in the old blocks for every entry, a new id reads the initial row in a slot its piece lacks |
| Unfilled.UnfilledExample | csrc/serialize/load_internal.cc:25-67 | a job of two pieces with one slot each that leaves both ids unfilled |
| WriteBlocks.EncodeStored | csrc/serialize/write_block.cc:33-74 | reading back encodes a saved id to the id it was saved from |
| WriteBlocks.IdsDistinct | csrc/serialize/write_block.cc:33-74 | ids of one child come from different stored ids, so they differ |
| WriteBlocks.SplitByChild | csrc/serialize/write_block.cc:51-61 | every snapshot pair joins the list of its child, in order, nothing lost; fails if and only if some id decodes to no child |
| WriteBlocks.WriteRows | csrc/serialize/write_block.cc:167-179 | batches give one row per id, in order |
| WriteBlocks.MakeHTWriteBlock | csrc/serialize/write_block.cc:33-74 | one piece per child, holding exactly that child's ids, each once, with its row of every slot; fails if and only if an index is lost or some stored id decodes to no child |
| WriteBlocks.SavesBelow | csrc/serialize/write_block.cc:51-61 | an id stored for a child is saved under a child at all if and only if the index of its child is below 2048 |
| Reshard.OriginsExact | csrc/serialize/load_internal.cc:124-178 | the plan takes each piece of each saved slice that meets the target, once |
| Reshard.BuildCollections | csrc/serialize/load_internal.cc:124-178 | the loop over saved slices builds exactly that plan, and fails if and only if a planned piece has no slot |
| Reshard.TargetKeyParts | csrc/serialize/read_block.cc:118-131 | the key in the target, in numbers: unchanged without coalescing on both sides, otherwise the low 52 bits, under the child's index in the target when that is coalesced |
| Reshard.TargetKeyInjective | csrc/serialize/read_block.cc:118-131 | with both sides coalesced or neither, different saved ids stay different when children are renumbered |
| Reshard.TargetKeyMasks | csrc/serialize/read_block.cc:118-131 | with one side coalesced, two ids meet in the target if and only if their low bits agree |
| Reshard.ApartWhen | csrc/serialize/read_block.cc:92-131 | accepted saved ids stay apart if and only if both sides are coalesced or neither is, or no two of them have the same low bits |
| Reshard.MetIdsAgree | csrc/serialize/read_block.cc:92-131 | where two saved ids meet, a table holds what was saved of both only if that was the same |
| Reshard.OwnedOnce | csrc/serialize/load_internal.cc:124-178 | tables that own what they hold, under slices that tile the residues, have no id in common |
| Reshard.OwnedIntersects | csrc/embedding/slice_info.h:22-35 | the filter passes no table over that owns an id the target owns |
| Reshard.FindEntry | csrc/serialize/load_internal.cc:124-178 | a saved id the target accepts is in some piece of its load, if the slice it was saved under meets the target |
| Reshard.LoadsApart | csrc/serialize/load_internal.cc:124-178 | where saved ids stay apart, no two entries of a load end up under one id |
| Reshard.RoundTrip | csrc/serialize/load_internal.cc:91-180 | where saved ids stay apart, a load into an empty table gives back exactly those the target accepts and the filter lets through, each under its key in the target, with their rows in every slot |
| Reshard.RestoredSameKey | csrc/serialize/load_internal.cc:91-180 | with the same children and coalescing every such id is back under its own key |
| Reshard.StoredOwnership | csrc/serialize/read_block.cc:77-90 | owning the stored id and owning the saved one are the same when the slice size divides 2^52 |
| Reshard.ExactlyOneTarget | csrc/serialize/load_internal.cc:124-178 | over targets that tile the residues exactly one accepts a saved id, and it holds the id with its rows whenever the id was saved by its owner |
| Reshard.Reload | csrc/serialize/load_internal.cc:91-269 | plan and load end to end: the round trip holds of the loaded table object, and rows past the last used index are initial |
| Reshard.SaveTables | csrc/serialize/write_block.cc:33-74 | the pieces written from table objects are what a reload assumes of a checkpoint |
| Reshard.SaveAndReload | csrc/serialize/load_internal.cc:91-269 | from table objects, written piece by piece, to a table object of another slicing: the round trip holds between them |
| Ragged.RowItems | csrc/data/local_data_resource.cc:455-576 | with one level, row `i` is the list of the values between split points `i` and `i + 1` |
| Ragged.FindIsAt | csrc/data/local_data_resource.cc:455-576 | resolving a path through the splits gives the element at that path of the nested list |
| Ragged.CoordFinds | csrc/ops/ragged_to_dense.cc:9-46 | walking down along a value's coordinate arrives at the value |
| Ragged.FoundIsCoord | csrc/ops/ragged_to_dense.cc:9-46 | a path that arrives anywhere is the coordinate of where it arrives |
| Ragged.CoordMeaning | csrc/ops/ragged_to_dense.cc:9-46 | a path exists in the nested list if and only if it is some value's coordinate, and then holds that value |
| Odometer.CompleteSegments | csrc/ops/ragged_to_dense.cc:23-28 | the inner loop ends, with every level at the segment that encloses the current one, whatever is empty |
| Odometer.IndexPrefix | csrc/ops/ragged_to_dense.cc:29-33 | offsets inside the enclosing segments are the coordinate of the current segment |
| DenseShapes.CellInjective | csrc/ops/ragged_to_dense.cc:65-106 | coordinates inside a shape have different cells unless they are equal |
| DenseShapes.CellOrder | csrc/ops/ragged_to_dense.cc:65-106 | cells are numbered in the lexicographic order of their coordinates |
| DenseShapes.CellOnto | csrc/ops/ragged_to_dense.cc:65-106 | every number below the size is the cell of some coordinate of the shape: there are no gaps |
| DenseShapes.SizeProduct | csrc/ops/ragged_to_dense.cc:87-92 | the size of a shape with one more dimension is the product of the two |
| DenseShapes.ComputeSteps | csrc/ops/ragged_to_dense.cc:87-91 | the stride loop gives row-major strides: one step in a dimension moves the cell by its stride |
| DenseShapes.WidestSegment | csrc/ops/ragged_to_dense.cc:65-75 | the width of a level is that of a segment and no segment is wider; 0 without segments |
| DenseShapes.DenseShapeAt | csrc/ops/ragged_to_dense.cc:65-75 | the shape is the row count, then the widest segment of each level |
| DenseShapes.CoordInShape | csrc/ops/ragged_to_dense.cc:65-75 | every value's coordinate lies inside row count and widest segments |
| RaggedToDense.CellOfInjective | csrc/ops/ragged_to_dense.cc:34-44 | different values get different cells |
| RaggedToDense.CopySegment | csrc/ops/ragged_to_dense.cc:38-44 | the values of one innermost segment land in their cells and in no other |
| RaggedToDense.Kernel | csrc/ops/ragged_to_dense.cc:9-46 | every value lands in its cell, every other cell keeps the default |
| RaggedToDense.FilledMeaning | csrc/ops/ragged_to_dense.cc:9-46 | so filled, a tensor holds at each coordinate the nested list's element, or the default where there is none |
| RaggedToDense.RaggedToDenseOp | csrc/ops/ragged_to_dense.cc:48-111 | the operator's shape and output are the padded nested list, for every depth and all empty segments; the output has no cell that is not one of the shape's, for one level rows times widest segment |
| RaggedToSparse.CoordsIncrease | csrc/ops/ragged_to_sparse.cc:9-41 | later values have lexicographically larger coordinates |
| RaggedToSparse.CoalesceChangesNothing | csrc/ops/ragged_to_sparse.cc:78-88 | coalescing is bound to give the emitted coordinates and values back as they are |
| RaggedToSparse.ScatterIsDense | csrc/ops/ragged_to_sparse.cc:9-41 | scattering the sparse result into defaults is what `ragged_to_dense` computes |
| RaggedToSparse.Kernel | csrc/ops/ragged_to_sparse.cc:9-41 | one column per value, in order, holding its coordinate |
| RaggedToSparse.RaggedToSparseOp | csrc/ops/ragged_to_sparse.cc:43-90 | fails if and only if some level has no segment or values and coordinates differ in number; otherwise shape, coordinates, one dimension after another, and values, which coalescing leaves as they are |
| DenseToRagged.TrimLengths | csrc/ops/dense_to_ragged.cc:22-30 | each row's length without its trailing invalid entries |
| DenseToRagged.PartialSums | csrc/ops/dense_to_ragged.cc:32-33 | offsets are the running sums |
| DenseToRagged.MatrixCell | csrc/ops/ragged_to_dense.cc:48-111 | one level laid out flat: row `i` starts at `i` times the widest row, holds its values and is filled up with the default |
| DenseToRagged.DenseToRaggedCpu | csrc/ops/dense_to_ragged.cc:8-55 | offsets and values spell the trimmed rows |
| DenseToRagged.DenseRoundTrip | csrc/ops/dense_to_ragged.cc:19-44 | to ragged and back with default `x` gives every kept cell its old value |
| DenseToRagged.DroppedColumns | csrc/ops/dense_to_ragged.cc:19-44 | what is not kept are exactly the trailing columns that are `x` throughout |
| DenseToRagged.ThereAndBack | csrc/ops/dense_to_ragged.cc:8-55 | both operators after one another return every column but the trailing ones that are `x` throughout |
| DenseToRagged.RaggedRoundTrip | csrc/ops/dense_to_ragged.cc:19-44 | to dense and back recovers a ragged list if and only if none of its non-empty rows ends in `x` |
| RaggedAppend.ExtendMeaning | csrc/data/local_data_resource.cc:519-555 | rebasing split points level by level appends exactly the chosen rows and keeps the old ones |
| Packing.Statistics | csrc/data/local_data_resource.cc:477-495 | the counting pass gives the room of every level |
| Packing.Allocate | csrc/data/local_data_resource.cc:497-511 | buffers of exactly the counted room, each level starting with 0 |
| Packing.CopyRow | csrc/data/local_data_resource.cc:521-554 | one row is appended behind what the buffers hold, at every level |
| Packing.PackTensor | csrc/data/local_data_resource.cc:475-556 | the packed buffers are full and decode to the listed rows in order, repeats included, with monotone splits |
| PackJobs.BlockingCounter.DecrementCount | csrc/data/local_data_resource.cc:36-45 | the counter opens exactly at zero and stays open |
| PackJobs.FeaturesAreTable | csrc/data/local_data_resource.cc:459-467 | the splits of all features one after another are the splits of the table, as many for each as its rank |
| PackJobs.PackJob | csrc/data/local_data_resource.cc:559-568 | a job packs each feature of its block once and no other |
| PackJobs.Pack | csrc/data/local_data_resource.cc:455-576 | every feature is packed exactly once as a row gather, whatever order jobs finish in, and the counter opens |
| AliasTables.PairedKeeps | csrc/data/alias_method.cc:23-37 | pairing a small and a large column keeps every column's balance and the total |
| AliasTables.Leftovers | csrc/data/alias_method.cc:38-48 | when one stack runs dry it is the large one, and the small ones left weigh exactly the average |
| AliasTables.OnlyNormalised | csrc/data/alias_method.cc:8-49 | weights that any table represents are not negative and sum to one |
| AliasTables.CoinShare | csrc/data/alias_method.cc:51-55 | the coins that draw an item from a column form one interval, as long as the column's share |
| AliasTables.DrawnByWeight | csrc/data/alias_method.cc:51-55 | a table represents weights if and only if, with columns and coins drawn uniformly, every item comes up by its weight |
| AliasTables.Split | csrc/data/alias_method.cc:14-20 | each column goes to the stack of its side of the average, once |
| AliasTables.AliasMethod.Init | csrc/data/alias_method.cc:8-49 | for any weights: the table represents them, each column's probability plus what others pass to it being `n` times its weight, if and only if they are normalised, and then every item is drawn by its weight; weights on one side of the average give the uniform table |
| AliasTables.AliasMethod.Next | csrc/data/alias_method.cc:51-61 | each column is drawn from an equal stretch of one random number; the coin decides between the column and what it passes on to |
| AliasTables.NormIsFit | csrc/data/fast_weighted_collection.h:56-61 | dividing by a sum other than zero gives weights that sum to one, none of them negative if and only if none had the opposite sign; weights that are not negative and sum to zero stay zero |
| AliasTables.FastWeightedCollection.Init | csrc/data/fast_weighted_collection.h:44-64 | refuses a length mismatch, otherwise the table represents each weight's share of the sum, if and only if no share is negative |
| Reservoirs.LowerBound | csrc/data/aexpj_method.cc:48-51 | the first position from the start on whose prefix sum reaches the target |
| Reservoirs.JumpMoves | csrc/data/aexpj_method.cc:45-52 | a jump leaves the current item behind if and only if it is positive, and otherwise stays on it |
| Reservoirs.FirstKey | csrc/data/aexpj_method.cc:37-40 | a key between 0 and 1, or 0 for an item that weighs nothing |
| Reservoirs.LaterKey | csrc/data/aexpj_method.cc:53-55 | a key from the smallest one up to 1, or 1 for an item that weighs nothing |
| Reservoirs.Land | csrc/data/aexpj_method.cc:45-51 | where the jump lands: further on by a positive distance from a key inside (0, 1), by none from key 0, nowhere from key 1 |
| Reservoirs.MoveKeeps | csrc/data/aexpj_method.cc:35-58 | with fitting weights every round makes progress and no item is in the reservoir twice |
| Reservoirs.RunKeeps | csrc/data/aexpj_method.cc:35-58 | so after every run, which has at most one round more than there are items |
| Reservoirs.PositiveIsFit | csrc/data/aexpj_method.cc:16-19 | positive weights fit every sample size |
| Reservoirs.BreaksPromise | csrc/data/aexpj_method.cc:29-66 | without fitting weights some run repeats an item or goes on beyond every bound |
| Reservoirs.PromiseIff | csrc/data/aexpj_method.cc:29-66 | all runs end in time with `min(n, size)` different items if and only if weights and sample size fit |
| Reservoirs.RepeatedItem | csrc/data/aexpj_method.cc:29-66 | weights 0, 0, 1, 1 and a sample of two: a run that returns item 2 twice |
| Reservoirs.SwapKeeps | csrc/data/aexpj_method.cc:56-57 | the smallest entry, and no other, gives way to an item further on than all in the heap; items in the heap stay distinct |
| Reservoirs.AexpjMethod.Init | csrc/data/aexpj_method.cc:13-27 | stores any weights and their prefix sums |
| Reservoirs.AexpjMethod.NSample | csrc/data/aexpj_method.cc:29-66 | `min(n, size)` distinct indexes whatever is drawn, for weights and sizes that fit |
| Reservoirs.ReservoirWeightedCollection.Init | csrc/data/reservoir_weighted_collection.h:43-63 | refuses a length mismatch unchanged |
| Reservoirs.ReservoirWeightedCollection.NSample | csrc/data/reservoir_weighted_collection.h:91-103 | `min(n, size)` pairs from distinct positions, each with its own weight, with distinct ids if those listed are, for weights and sizes that fit |
| Reservoirs.OutsideSplit | csrc/data/local_data_resource.cc:311-316 | dropping excluded ids reorders nothing and treats each occurrence for itself |
| Reservoirs.EnoughOutside | csrc/data/local_data_resource.cc:311-316 | drawing `s` plus the excluded count leaves `s` acceptable ids if and only if the category has them |
| Reservoirs.NoPutBackSample | csrc/data/local_data_resource.cc:299-324 | succeeds if and only if `count` ids lie outside the excluded set, then returns that many distinct ones of them |
| Paths.CleanTwice | csrc/platform/path.cc:101-180 | cleaning a clean path changes nothing |
| Paths.CleanResolves | csrc/platform/path.cc:101-180 | the clean path leads where the path led, an absolute one from the root, a relative one from any directory |
| Paths.CleanIsNormal | csrc/platform/path.cc:101-180 | no `.`, no empty part, and `..` only at the front of a relative path |
| Paths.CleanShape | csrc/platform/path.cc:101-180 | no two slashes in a row, none at the end of a path other than the root, `.` for nothing left of a relative path |
| Paths.ShowReads | csrc/platform/path.cc:101-180 | a spelled-out stack of components is read back as it was |
| CleanPaths.CopyPart | csrc/platform/path.cc:152-159 | a component and its slash are copied, the write pointer not passing the read pointer |
| CleanPaths.BackUp | csrc/platform/path.cc:128-132 | the write pointer goes back over exactly the last component, never past the limit |
| CleanPaths.GoUp | csrc/platform/path.cc:125-148 | `..` takes the last name back, keeps itself in a relative path, or disappears at the root |
| CleanPaths.CleanPath | csrc/platform/path.cc:101-180 | the in-place loop yields the component-stack meaning of the path up to its first NUL |
| CleanPaths.WholeCString | csrc/platform/path.cc:102-103 | a path without NUL is read whole |
| IdsPartitions.PartSizes | csrc/ops/ids_partition.cc:16-21 | part sizes sum to 65536 and differ by at most one, larger ones first |
| IdsPartitions.ArgsortInverse | csrc/ops/ids_partition.cc:34-37 | sorting a permutation inverts it |
| IdsPartitions.Segments | csrc/ops/ids_partition.cc:22-32 | segment `j` spans exactly the sorted residues of part `j` |
| IdsPartitions.IdsPartition | csrc/ops/ids_partition.cc:6-38 | distinct output ids, `out[reverse[i]] = ids[i]`, segments that tile the output, segment `j` holding exactly the ids of part `j` |
| IdsPartitions.OwnerOf | csrc/ops/ids_partition.cc:16-32 | every residue lies in exactly one part |
| IdsPartitions.ResiduesAgree | csrc/ops/ids_partition.cc:10 | the residue used here equals the one used when loading if and only if the id is not negative or its remainder is 0 or half the slice size |
| IdsPartitions.OwnersAgree | csrc/serialize/read_block.cc:77-90 | under a given cut the part that gets an id is the part whose slice accepts it if and only if both residues lie in one part |
| IdsPartitions.NotNegativeAgrees | csrc/serialize/read_block.cc:77-90 | for an id that is not negative the two owners are the same under every cut |
| IdsPartitions.OwnersAlwaysAgree | csrc/ops/ids_partition.cc:10-21 | the two owners are the same for every number of parts if and only if the id is not negative or its remainder is 0 or half the slice size |
| IdsPartitions.OwnerExamples | csrc/ops/ids_partition.cc:10-21 | with two parts -1 has two owners; with three, -30000 has one although its residues differ |
| Gaucs.Sweep | csrc/ops/gauc.cc:35-46 | the trapezoid sum is twice the number of pairs with the click listed first |
| Gaucs.ComputeGauc | csrc/ops/gauc.cc:30-58 | a group's value and click count in any order, ties included; -0.5 when only one class occurs, a number from 0 to 1 when both do |
| Gaucs.InvertedIsLower | csrc/ops/gauc.cc:33-46 | in a sorted group the pairs listed click first are all those with the click predicted lower, and some of the tied ones |
| Gaucs.IsPairShare | csrc/ops/gauc.cc:30-58 | with both classes present the value is the share of pairs in which the click is predicted higher, counting some of the tied ones, and exactly that share when none is tied |
| Gaucs.TiesAreOpen | csrc/ops/gauc.cc:33-34 | two tied predictions, one clicked: the value is 0 or 1 as the sort lists them |
| Gaucs.RunsAreRuns | csrc/ops/gauc.cc:84-108 | the runs tile the indicator, are constant and maximal |
| Gaucs.InnerRuns | csrc/ops/gauc.cc:84-108 | all runs but the first and the last, said of the indicator alone: stretches of one value with another value on either side |
| Gaucs.Scan | csrc/ops/gauc.cc:84-108 | the scan evaluates, in order, exactly the maximal runs that start behind the first element and end before the last |
| SliceNames.NameExample | csrc/embedding/slice_info.cc:30-48 | `03@10@10` |
| SliceNames.NameRoundTrip | csrc/embedding/slice_info.cc:30-48 | reading a printed slice gives it back if and only if its size fits an `int` |
| SliceNames.NameOrder | csrc/embedding/slice_info.cc:38-48 | names of slices of one size sort like (begin, end) |
| SliceNames.SortNames | csrc/serialize/checkpoint_reader.cc:43 | the names come out in string order, each as often as before |
| SliceNames.TilesInOrder | csrc/embedding/slice_info.cc:38-48 | the printed names of slices that tile a tensor are in string order, empty slices included |
| SliceNames.SortingRestores | csrc/serialize/checkpoint_reader.cc:43 | any sorting of the names of slices that tile a tensor is the tiling |
| SliceNames.StartsApart | csrc/serialize/checkpoint_reader.cc:61-76 | row ranges of different slices do not overlap |
| SliceNames.RowStarts | csrc/serialize/checkpoint_reader.cc:61-72 | row starts and row count are the running sums |
| SliceNames.LoadTensor | csrc/serialize/checkpoint_reader.cc:40-116 | names in any order are sorted and their rows read one after another, in any order; fails without slices, or when there are several and the rows do not add up |
| SliceNames.LoadTiling | csrc/serialize/checkpoint_reader.cc:40-116 | so slices that tile a tensor and are listed in any order are laid out as the tensor, each from its begin to its end when it has as many rows |

## Left out

Contracts with premises, and what they leave unsaid:

- HashTables.Hashtable.Insert: rows of a repeated id are written one after another, in the source in parallel.
- HashTables.Hashtable.Delete: assumes distinct live ids given with their own indexes, and a preserved slot that exists; `IdMapping.CpuIdMap.DeleteIds` says exactly what other indexes do.
- IdAllocation.IdAllocator.GenIds: assumes that the difference of free and drawn counts fits an `int`; `IdAllocation.NarrowedUpdateExact` says why. The other calls that draw indexes inherit this.
- StoreRuns.Run: assumes that fewer than 2^31 indexes are drawn in all and that deleted ids are distinct and live, and leaves preserved slots out of runs; `HashTables.ReusedRow` says what those read.
- SlotGroups.SlotGroup.AppendSlot: generators make one constant row; generators that draw random rows are not modelled.
- LoadRuns.Load: assumes that no entry was saved twice, which `Reshard.LoadsApart` proves of every load of a checkpoint, and that each piece's child is known to the table. A row in unfilled memory is a row of its own, `Uninit`.
- Unfilled.UnfilledIff: assumes that no row of the table or of the saved pieces is unfilled to begin with.
- Reshard.Reload: assumes that no id was saved by two tables (`Reshard.OwnedOnce` for tables that own their ids, `Reshard.StoredOwnership` relates owning a stored id and its raw id), a target with every saved child, and where only one side is coalesced the condition of `Reshard.ApartWhen`, with a slice size that divides 2^52 when it is the target; a target of another slice size gets nothing, as in the source.
- Reshard.SaveAndReload: assumes that every stored id decodes to a child, without which saving fails. The pieces are handed over as values; that their bytes survive the file is `Checkpoints.ReadsBackWhole`, for any bytes.
- WriteBlocks.MakeHTWriteBlock: where an id decodes to no child the source writes outside its lists. Slots are written row by row, not as bytes.
- SaveShares.EveryRunCommits: assumes that blocks of one shard with one name after renaming go to one file (`SaveShares.BundleIsShare`: otherwise the index forgets one), and dense tensors under the blank slice from shard 0 only, as `csrc/serialize/saver.cc:44-49` makes them.
- Checkpoints.LoaderFinds: assumes that no two blocks of the checkpoint have the same tensor and slice, that table blocks have an `@` in their names, that the names of one shard are apart as `SaveBundles.StoredApart` says, and that slices have no caret in their names.
- Checkpoints.ReadsBackWhole: assumes the same, no dense tensor with `/part_` in its name (`TableFiles.FoundByIndexName` is the exact condition), rows of the declared width and descriptions shorter than 2^64 bytes.
- SaveRanks.RankOutcome: rank documents list the names the index uses, where the source takes those of the table files, which differ for dense tensors with `/part_` in their names; the merged rank document is kept as the names of its entries; the descriptions themselves, and the filter that drops ids and optimizer slots from them before writing, are not modelled.
- TableFiles.TableWriter.SaveMeta: the JSON side file, data types and shapes are left out.
- TableFiles.TableWriter.SequentialWrite: the JSON side file is left out.
- TableFiles.ReadsBack: assumes that the description can be parsed back from its padded text and is shorter than 2^64 bytes; JSON text itself is not modelled, nor are data type, shape and the copy of the description in the side file.
- AliasTables.FastWeightedCollection.Init: the second form, from pairs, lacks the guard against a zero sum and is not modelled.
- Reservoirs.AexpjMethod.NSample: assumes weights that are not negative and that fit the sample size, without which `Reservoirs.PromiseIff` shows it fails. Powers and logarithms are not computed: a key is any number between 0 and 1, a jump from such a key any positive one. Draws of exactly 0 and rounding to 0 or 1 are left out.
- Reservoirs.ReservoirWeightedCollection.NSample: the same assumption.
- Reservoirs.NoPutBackSample: one category that exists, with weights that fit the sample; the source fails for several or an unknown one.
- Gaucs.ComputeGauc: binary labels, one column of them, and no filter, as the caller passes none; the order is what the sort left.
- Gaucs.Scan: which runs are evaluated; collecting the values that are not negative is left out.
- IdsPartitions.IdsPartition: `_unique` and `argsort` enter as specifications.
- SliceNames.LoadTensor: a slice is the list of its rows; data type and the shape of a row are left out.
- SliceNames.NameRoundTrip: `stoi` is modelled on unsigned digits, without leading blanks or signs.
- RaggedToSparse.RaggedToSparseOp: `coalesce` enters as a specification.
- PackJobs.Pack: splits of a feature are listed outermost level first, where the source keeps the innermost first; a value stands for a whole dense row of it.

Not modelled:

- Parallel kernels and thread pools: their pieces run one after another, in any order where that can matter (chunks of a load, packing jobs, savers and writers).
- 32-bit offsets and split points: indexes of ragged tensors are unbounded.
- Slots as shared objects: a slot is a value inside its group.
- CUDA kernels, the GPU id map, device copies, data types and their dispatch.
- Optimizers, admit and filter policies, gradients, `Hashtable::Reset`: row arithmetic or easy framing.
- I/O errors, retries, sleeps and crashes; renaming is atomic and a checkpoint starts in an empty directory.
- `AppendSegment`, `ParseURI`, `CreateURI`, `JoinPath`, `LoadByFlatTensors`, `FlatLocalData`, `PutBackSample`: thin.
- `Sample` and `NSample` over the alias table, which only call `Next`, and the quality of random numbers.
- `csrc/monitor`, hash, modulo and bucket operators, the Python side.
