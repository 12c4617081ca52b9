# Verification of the two key-value engines

This project models the two engines of the repository and proves properties of the models.

**The engine in `engine_race/DBSystem`** is a write path in the style of a log-structured merge tree. A write is logged, put into one of 1024 record slots, entered in a hash index and in one of forty skip lists. When the skip lists hold 1024 items the log is switched, the lists are submitted, and a dumper merges them into a sorted table, releases their slots, points the hash index at the table, lists the table in a manifest and removes the old log.

| file | what it holds |
|---|---|
| `Keys.dfy` | the packing of eight chars into a 64-bit key |
| `Index.dfy`, `Places.dfy` | the bit-packed index word, and words read as slots or table ranks |
| `SkipLevel.dfy`, `SkipList.dfy` | one level of the skip list, and the whole structure as a class over linked node arrays |
| `Merge.dfy` | the k-way merge, as a loop over skip list objects and as the one stable merge |
| `HashIndex.dfy`, `Coverage.dfy` | the probing hash index, and which slots its searches reach |
| `Register.dfy`, `Crc.dfy`, `Hash.dfy` | its hash: shift registers, the CRC and the mix |
| `Buffer.dfy` | the slot allocator |
| `System.dfy` | the engine as a step machine: write, switch, and the dumper's steps, in any interleaving |
| `Slots.dfy`, `Accounting.dfy`, `Durability.dfy`, `Resolution.dfy`, `WriteOnce.dfy`, `Latest.dfy`, `Manifest.dfy`, `Rounds.dfy` | what every run of the machine keeps: who owns each slot, where each acknowledged record is, where the hash index leads, what a round of the dumper leaves |
| `Dumped.dfy` | what an undisturbed dump leaves: each key at its row, each row the latest value |
| `Stale.dfy`, `Lost.dfy` | runs that show what it does not keep: a key that leads to an old value, a record that is lost |
| `Engine.dfy`, `Replay.dfy` | the code over the objects it owns (buffer, hash index, skip lists), each method a run of the machine; recovery from a log |

**The engine in `engine_example`** is an append-only value log with file roll-over (`DataStore.dfy`) under a linear-probing key table (`DoorPlate.dfy`); `EngineExample.dfy` composes them and shows that any run of writes, reads, range scans and re-openings answers as a string map does; `Runs.dfy` says what such a run answers in terms of its operations alone. `Strings.dfy` holds byte strings in the order `std::string` compares them; `Counting.dfy` holds what the other files need of sequences, sets and remainders.

Functions describe what a step computes; methods over classes are the source's own loops and updates, proved to compute those functions; lemmas state what holds of them over all inputs and all runs.

## Where the code departs from what it sets out to do

The model follows the code. Five expectations one may have of it fail; the members named say exactly when or how.

- Slots are released for every entry written: no. Updating a key inside one skip list, or a key of INT64_MAX or more, leaks a slot (`Accounting.LeaksExactly`, over runs `Accounting.LeakFreeNeverStalls`); after one leak the log is never switched again (`Accounting.LeakEndsSwitching`) and the engine stops in exactly the states of `Accounting.StuckExactly`. `Accounting.RewritingStalls` is a concrete run.
- An acknowledged record stays on disk: not with a key of INT64_MAX or more, which is what eight chars give as soon as one of them is 128 or more (`Keys.KeyBelowSentinel`). The merge does not see such a record, so it goes into no table, and its log is removed all the same (`LostRecords.HighKeyIsLost`). `Resolution.AcknowledgedIsLogged` is the exact statement for every run.
- The hash index leads to the latest value: not when a key is written twice through different memtables before a dump (`StaleDumps.RewrittenKeyGoesStale`), or rewritten while its batch waits. `LatestValues.StepCurrent` says exactly which step loses the latest value; `LatestValues.ResolvesToLatest` gives a condition to check before each write under which none is ever lost.
- A full search of the hash index means a full table: only if the table size is a power of two (`Coverage.VisitsAllExactly`), and the configured 68000000 is none (`Coverage.ConfiguredSizeMisses`). `Coverage.FillUp` builds tables over which the assertion fails beside a free slot. The assertion's message speaks of the maximum table size.
- The comment on the list of empty slots says it is taken from and returned to at its head; the code takes from the back and returns to the front, so it is a queue (`Buffers.FirstInFirstOut`).

## Model

| member | source | states |
|---|---|---|
| Keys.GetKey | engine_race/DBSystem/utils.cpp:26-32 | the loop computes the value its definition by or-ing shifted, sign-extended chars gives |
| Keys.PackedIsBigEndian | engine_race/DBSystem/utils.cpp:26-32 | or-ing the chars in is plain big-endian packing exactly when every negative char stands behind 0xff chars only |
| Keys.KeyBelowSentinel | engine_race/DBSystem/utils.cpp:26-32 | a key is below INT64_MAX, the start value of the merge, if and only if its eight chars are 7-bit |
| Keys.BigEndianOrder | engine_race/DBSystem/utils.cpp:26-32 | big-endian numbers of equally long strings compare as the strings do |
| Keys.KeyKeepsOrder | engine_race/DBSystem/utils.cpp:26-32 | on 7-bit strings `get_key` is injective and keeps the byte order, in both directions |
| Keys.CollidingKeys | engine_race/DBSystem/utils.cpp:26-32 | exactly which pairs of 8-byte strings get the same key: those that agree from the last negative char on |
| Indexes.SetIdxLaw | engine_race/DBSystem/Index.h:87-98 | setting idx leaves the two top bits of the old idx behind and touches neither fid nor flags |
| Indexes.SetIdxReadsBack | engine_race/DBSystem/Index.h:78-98 | a set idx reads back if and only if no stale top bit is left standing |
| Indexes.SetFidReadsBack | engine_race/DBSystem/Index.h:73-94 | a fid of eight bits reads back |
| Indexes.SetFidKeepsIdx | engine_race/DBSystem/Index.h:82-94 | setting such a fid leaves idx alone |
| Indexes.SetFidKeepsFlags | engine_race/DBSystem/Index.h:82-94 | setting such a fid leaves the flags alone |
| Indexes.WideFidSpills | engine_race/DBSystem/Index.h:82-94 | a wider fid is cut to eight bits and its next four bits fall into the flags |
| Indexes.WideFidReachesIdx | engine_race/DBSystem/Index.h:82-94 | the bits of a fid from the twelfth up fall into idx |
| Indexes.FlagsSet | engine_race/DBSystem/Index.h:108-143 | setting a flag sets that one among the flags |
| Indexes.FlagsCleared | engine_race/DBSystem/Index.h:108-143 | among the flags, clearing in-hash or if-writing clears in-file as well; clearing in-file clears it alone |
| Indexes.InHashSetOnly | engine_race/DBSystem/Index.h:108-115 | setting in-hash changes no bit outside the flags |
| Indexes.InHashClearedOnly | engine_race/DBSystem/Index.h:108-115 | nor does clearing it |
| Indexes.InFileSetOnly | engine_race/DBSystem/Index.h:120-126 | setting in-file changes no bit outside the flags |
| Indexes.InFileClearedOnly | engine_race/DBSystem/Index.h:120-126 | nor does clearing it |
| Indexes.IfWritingSetOnly | engine_race/DBSystem/Index.h:136-143 | setting if-writing changes no bit outside the flags |
| Indexes.IfWritingClearedOnly | engine_race/DBSystem/Index.h:136-143 | nor does clearing it |
| Indexes.FieldsStay | engine_race/DBSystem/Index.h:73-80 | words that agree outside the flags have the same fid and the same idx |
| Indexes.OfSlotLaw | engine_race/DBSystem/DBSystem.cpp:88-90 | the word a write makes for a slot reads back as that slot, and overwriting another slot's word with it gives it exactly |
| Indexes.OfRankLaw | engine_race/DBSystem/DBSystem.cpp:365-368 | the word a dump makes reads back as its table, its rank and the in-file flag |
| Places.SlotReadsBack | engine_race/DBSystem/DBSystem.cpp:88-90 | a slot number survives the trip through an index word |
| Places.SlotPlaceReadsBack | engine_race/DBSystem/DBSystem.cpp:88-91 | a slot word found in the hash index leads back to the slot |
| Places.RankPlaceReadsBack | engine_race/DBSystem/DBSystem.cpp:365-369 | a rank word found in the hash index leads back to its table and rank if and only if the table number is below 256 |
| SkipLists.SkipList.constructor | engine_race/DBSystem/SkipList.cpp:11-29 | a new list is valid on every level and has no entries |
| SkipLists.SkipList.GetHighestLevel | engine_race/DBSystem/SkipList.cpp:148-155 | the highest level with a data node, level 0 if there is none |
| SkipLists.SkipList.Get | engine_race/DBSystem/SkipList.cpp:74-111 | the level-0 node of the key with its index, or -1 exactly when no entry has the key, for every key including 0; on -1 the trace holds for each level the exact predecessor |
| SkipLists.SkipList.InsertAfter | engine_race/DBSystem/SkipList.cpp:157-172 | takes the first free node, splices it in after the given predecessor, keeps the level sorted and the capacity equal to the free chain |
| SkipLists.CheckAndResize | engine_race/DBSystem/SkipList.cpp:113-133 | a level without capacity doubles, its new nodes forming the free chain; the free chain is never empty afterwards |
| SkipLists.SkipList.NextPoint | engine_race/DBSystem/SkipList.cpp:47-57 | the trace queue yields for level `lvl` exactly the stop recorded for it, and the head for levels above the highest |
| SkipLists.SkipList.InsertTower | engine_race/DBSystem/SkipList.cpp:40-69 | whatever height is drawn, the new key is linked into each level below it at its place, each node leading down to the node of the same key |
| SkipLists.SkipList.Overwrite | engine_race/DBSystem/SkipList.cpp:36-39 | an update of a known key changes that key's entry only and keeps every level |
| SkipLists.SkipList.Update | engine_race/DBSystem/SkipList.cpp:32-72 | the list stays valid and its entries become `Upsert` of the old ones |
| SkipLists.SkipList.CntNs | engine_race/DBSystem/SkipList.cpp:143-146 | the number of entries |
| SkipLists.SkipList.PopLvl0 | engine_race/DBSystem/SkipList.cpp:192-204 | removes and returns the entry with the least key, or nothing |
| SkipLists.SkipList.FrontLvl0 | engine_race/DBSystem/SkipList.cpp:206-213 | the entry with the least key, or nothing |
| SkipLists.GetAfterUpdates | engine_race/DBSystem/SkipList.cpp:32-111 | after any sequence of updates on a new list, `get` finds a key if and only if it was updated, with the idx of its last update and every top idx bit ever set for it |
| SkipLevels.LevelPartition | engine_race/DBSystem/SkipList.cpp:11-29 | head, data chain and free chain partition the node indices of a level |
| SkipLevels.SpliceKeepsLevel | engine_race/DBSystem/SkipList.cpp:157-171 | splicing the first free node in after the end of a walk keeps both chains acyclic, disjoint and the data chain strictly sorted |
| SkipLevels.PutSorted | engine_race/DBSystem/SkipList.cpp:32-72 | storing keeps the entries strictly ascending and adds one exactly for a new key |
| SkipLevels.PutFinds | engine_race/DBSystem/SkipList.cpp:32-72 | storing changes what is found under the one key only |
| SkipLevels.FindIsHasKey | engine_race/DBSystem/SkipList.cpp:74-111 | looking a key up at its rank finds it exactly when some entry has it |
| SkipLevels.RunStoresKeys | engine_race/DBSystem/SkipList.cpp:32-72 | after any run of updates the keys stored are the keys updated, each once, ascending |
| SkipLevels.RunKeepsLast | engine_race/DBSystem/SkipList.cpp:36-39 | under each updated key lies the idx of its last update together with the top bits of earlier ones |
| SkipLevels.RunReadsBackLast | engine_race/DBSystem/SkipList.cpp:36-39 | it is the last idx alone if and only if no earlier update set a top bit the last one leaves clear |
| SkipLevels.UpsertLaw | engine_race/DBSystem/SkipList.cpp:32-72 | under an updated key lies a new index as it came, or the new idx with the old top bits, the id of the list for a fid, and the old flags |
| Merges.BestIsFirstLeast | engine_race/DBSystem/DBSystem.cpp:255-270 | the list chosen is the first with the least front key below INT64_MAX; none is chosen only if no front is below it |
| Merges.MergeIsTheStableMerge | engine_race/DBSystem/DBSystem.cpp:249-287 | a sequence is the stable merge of the visible entries (key order, ties in list order, each list's own order) if and only if it is what the loop puts out |
| Merges.MergeIsOrdered | engine_race/DBSystem/DBSystem.cpp:254-280 | the output ascends, equal keys in list order |
| Merges.MergeKeepsEachList | engine_race/DBSystem/DBSystem.cpp:254-287 | the output restricted to one list is that list up to the sentinel |
| Merges.MergeKeepsBag | engine_race/DBSystem/DBSystem.cpp:254-287 | the output is, with multiplicity, the entries with keys below INT64_MAX |
| Merges.MergeDrainsAll | engine_race/DBSystem/DBSystem.cpp:254-287 | every list is drained if and only if every key is below INT64_MAX |
| Merges.MergeWithout | engine_race/DBSystem/DBSystem.cpp:282-286 | erasing an exhausted list changes nothing of what still comes out |
| Merges.Scan | engine_race/DBSystem/DBSystem.cpp:255-270 | one pass finds the list to pop, and an exhausted list if it saw one |
| Merges.PopBest | engine_race/DBSystem/DBSystem.cpp:276-280 | pops the front of the chosen list and changes no other list |
| Merges.BuffersDumper | engine_race/DBSystem/DBSystem.cpp:243-293 | the loop over list objects, erasing exhausted ones, puts out exactly `KMerge` of what they held, and terminates |
| HashIndexes.NextProbe | engine_race/DBSystem/Index.cpp:99-108 | the accumulated step makes probe k land at hash + k(k+1)/2 modulo the table size |
| HashIndexes.ProbesDistinct | engine_race/DBSystem/Index.cpp:102-108 | the first m probes differ pairwise whenever m(m-1)/2 is less than the table size |
| HashIndexes.SearchEnds | engine_race/DBSystem/Index.cpp:102-110 | a search ends at the key's own slot if the key is stored, otherwise at an invalid slot or after all probes |
| HashIndexes.StoreKeepsTable | engine_race/DBSystem/Index.cpp:110-114 | storing where the search ended keeps one valid slot per key, keeps the slots before each key valid and foreign, and updates the map at one key |
| HashIndexes.PassedAreKeys | engine_race/DBSystem/Index.cpp:102-108 | m probes passed mean m distinct stored keys |
| HashIndexes.ExhaustedNeedsKeys | engine_race/DBSystem/Index.cpp:109-109 | the full-table assertion can fail only when at least m keys are stored |
| HashIndexes.ConfiguredRoom | engine_race/DBSystem/config.h:8-8 | for 68000000 slots it cannot fail while fewer than 11662 keys are stored |
| HashIndexes.StoredNotExhausted | engine_race/DBSystem/Index.cpp:101-109 | for a key that is stored the assertion never fails |
| Coverage.VisitsAllExactly | engine_race/DBSystem/Index.cpp:99-109 | a search comes by every slot, wherever it starts, if and only if the table size is a power of two |
| Coverage.PowerDistinct | engine_race/DBSystem/Index.cpp:102-108 | with a power of two, no slot is met twice within as many probes as there are slots |
| Coverage.TrianglePeriod | engine_race/DBSystem/Index.cpp:103-103 | modulo an odd number m the offsets of the probes repeat with period m |
| Coverage.TriangleMirror | engine_race/DBSystem/Index.cpp:103-103 | and read the same backwards within a period |
| Coverage.TriangleResidue | engine_race/DBSystem/Index.cpp:103-103 | so they meet at most (m + 1) / 2 residues modulo m |
| Coverage.ExhaustedIsFull | engine_race/DBSystem/Index.cpp:109-109 | with a power of two the assertion fails only over a table whose every slot is valid and holds another key |
| Coverage.ExhaustedWithRoom | engine_race/DBSystem/Index.cpp:109-109 | when all keys hash alike and the assertion fails, a slot is free if and only if the size is no power of two |
| Coverage.FillUp | engine_race/DBSystem/Index.cpp:97-116 | concrete failing input: updating an empty table with keys that hash alike, one after the other, until the assertion fails leaves a slot free if and only if the size is no power of two |
| Coverage.UnreachableSlots | engine_race/DBSystem/Index.cpp:102-108 | in a table whose size an odd number m divides, a search never comes by a slot whose distance from its start is none of those residues |
| Coverage.ConfiguredSizeMisses | engine_race/DBSystem/config.h:8-8 | with the configured size, which is no power of two, slot h + 2 is on no search that starts at h |
| HashIndexes.IndexHashMap.constructor | engine_race/DBSystem/Index.cpp:92-94 | a cleared table is the empty map |
| HashIndexes.IndexHashMap.Update | engine_race/DBSystem/Index.cpp:97-116 | sets the key to the index with the in-hash flag, changes no other key and returns the number of probes that passed; None exactly when every probe is taken by another key |
| HashIndexes.IndexHashMap.Get | engine_race/DBSystem/Index.cpp:118-134 | the stored index of the key, or nothing exactly when it is not stored |
| Crcs.TableIsDivision | engine_race/DBSystem/Index.cpp:10-63 | each of the 256 table entries is its number divided bit by bit by the reflected CRC-32 polynomial (table construction of section 8 of RFC 1952) |
| Crcs.Crc32 | engine_race/DBSystem/Index.cpp:65-78 | the table-driven loop equals bit-at-a-time division, for messages of any length |
| Crcs.CrcLinear | engine_race/DBSystem/Index.cpp:65-78 | the crc of the xor of two messages is the xor of their crcs |
| Crcs.BurstChangesCrc | engine_race/DBSystem/Index.cpp:65-78 | two messages that differ only within four consecutive bytes have different crcs |
| Hashes.MixIsPermutation | engine_race/DBSystem/Index.cpp:82-89 | the shift-add and shift-xor mix is a permutation of 32-bit words, with an explicit inverse on both sides |
| Hashes.MixIsTheLines | engine_race/DBSystem/Index.cpp:82-89 | the eight stages, in their order, are the eight shift-add and shift-xor lines in 32-bit arithmetic |
| KeyHashes.KeyBytesMakeKey | engine_race/DBSystem/Index.cpp:81-81 | the bytes hashed, each times 256 to its place in memory, add up to the key |
| KeyHashes.HashKey | engine_race/DBSystem/Index.cpp:79-91 | the slot is the remainder, modulo the table size, of a word that unmixes to the bitwise CRC of the eight bytes of the key |
| KeyHashes.NearbyKeysDiffer | engine_race/DBSystem/Index.cpp:79-91 | two keys that differ only within four consecutive bytes are mixed to different words |
| KeyHashes.HashOfOne | engine_race/DBSystem/Index.cpp:79-91 | key 1 starts its searches at slot 51007571 |
| Buffers.RunKeepsPool | engine_race/DBSystem/DBSystem.cpp:164-188 | under any interleaving of requests and releases the two lists hold each slot number exactly once |
| Buffers.FirstInFirstOut | engine_race/DBSystem/DBSystem.cpp:164-188 | over any run, slots handed out followed by slots still empty are the slots empty before followed by the slots released, in order |
| Buffers.ReleasedComesLast | engine_race/DBSystem/DBSystem.cpp:164-188 | a released slot is handed out again only after every slot that was empty at its release |
| Buffers.ErasedKeepsMap | engine_race/DBSystem/DBSystem.cpp:181-185 | erasing through the id map erases the one cell of that id, and the map still leads each other id to its own cell |
| Buffers.Buffer.constructor | engine_race/DBSystem/DBSystem.cpp:209-214 | every slot is empty, in ascending order |
| Buffers.Buffer.RequestRecordBuff | engine_race/DBSystem/DBSystem.cpp:164-175 | hands out the slot at the back of the empty list, or waits exactly when it is empty |
| Buffers.Buffer.ReleaseBuff | engine_race/DBSystem/DBSystem.cpp:176-188 | moves a written slot to the front of the empty list; the assertion fails exactly when the slot is not written |
| Buffers.Buffer.IfFull | engine_race/DBSystem/DBSystem.cpp:203-206 | no slot is empty |
| SlotBags.FlatPut | engine_race/DBSystem/SkipList.cpp:32-72 | an update through one memtable exchanges the displaced entry, if any, for the new one, among the entries of all memtables |
| SlotBags.MergeSharesSlots | engine_race/DBSystem/DBSystem.cpp:254-287 | a merge and what it leaves behind share out the slots of a batch |
| SlotBags.LeftIsInvisible | engine_race/DBSystem/DBSystem.cpp:254-275 | it leaves nothing behind if and only if every key is below INT64_MAX |
| Accounting.StepAccounted | engine_race/DBSystem/DBSystem.cpp:70-104 | each step of writer, switch and dumper keeps: each written slot has one owner among current memtables, pending batch and leaked slots; at most one batch is pending, and the died log exists exactly meanwhile |
| Accounting.RunAccounted | engine_race/DBSystem/DBSystem.cpp:70-104 | so over all runs |
| Accounting.SoleOwner | engine_race/DBSystem/DBSystem.cpp:164-188 | each slot is empty, or referred to exactly once, or leaked |
| Accounting.DueExactly | engine_race/DBSystem/DBSystem.cpp:98-98 | 1024 items are counted if and only if no slot is empty, nothing waits to be released and nothing has leaked; so no write is possible until the switch |
| Accounting.FullBufferHasRelief | engine_race/DBSystem/DBSystem.cpp:82-103 | with no empty slot, no switch is due if and only if a pending batch will release a slot or a slot has leaked |
| Accounting.ReleaseNeverAborts | engine_race/DBSystem/DBSystem.cpp:360-360 | the assertion in the dumper's release never fails |
| Accounting.StuckExactly | engine_race/DBSystem/DBSystem.cpp:82-103 | no step is possible if and only if all slots are taken, one has leaked, and the dumper has nothing to release or an empty table to list |
| Accounting.LeaksExactly | engine_race/DBSystem/SkipList.cpp:36-39 | a step leaks a slot if and only if it writes a key its memtable holds, or starts to dump a batch with a key of INT64_MAX or more |
| Accounting.RunLeaksExactly | engine_race/DBSystem/SkipList.cpp:36-39 | a run leaks nothing if and only if none of its steps does |
| Accounting.LeakFreeNeverStalls | engine_race/DBSystem/DBSystem.cpp:82-103 | over runs from the empty engine: nothing has leaked if and only if no write met its key in its memtable and no batch dumped held a key of INT64_MAX or more; some step is then possible |
| Accounting.LeakEndsSwitching | engine_race/DBSystem/DBSystem.cpp:98-103 | after a leak no run ever reaches a switch again |
| Accounting.RewritingStalls | engine_race/DBSystem/DBSystem.cpp:93-103 | concrete failing input: 1024 writes of one record through one memtable leave no step possible |
| Durability.StepDurable | engine_race/DBSystem/io.cpp:130-142 | each step keeps every acknowledged record with a key below INT64_MAX in the hot log, the died log or a listed table, and each record of the died log in a slot of the batch or a row of its table |
| Durability.EndDumpDurable | engine_race/DBSystem/io.cpp:130-142 | the died log is removed only when each of its records with a key below INT64_MAX is in a listed table |
| Durability.SwitchDurable | engine_race/DBSystem/io.cpp:155-167 | the log switch finds no died log, makes the hot log the died log, and each of its records is then held in a slot of the batch submitted |
| Resolution.AcknowledgedIsLogged | engine_race/DBSystem/DBSystem.cpp:70-104 | in every reachable state, whatever was rewritten or leaked, an acknowledged record is in the hot log, the died log or a listed table if and only if its key is below INT64_MAX or it is in a log still |
| LostRecords.DumpKeepsExactly | engine_race/DBSystem/DBSystem.cpp:255-275 | of the records in the hot log, the switch and an undisturbed dump leave on disk exactly those with keys below INT64_MAX |
| LostRecords.HighKeyIsLost | engine_race/DBSystem/DBSystem.cpp:255-275 | concrete failing input: 1023 ordinary keys, then a record with a key of INT64_MAX or more, then the switch and the whole dump; the record is acknowledged and in no log and no table |
| Resolution.NothingInvented | engine_race/DBSystem/DBSystem.cpp:349-373 | logs and tables hold acknowledged records only |
| Resolution.DumpOneLeads | engine_race/DBSystem/DBSystem.cpp:356-370 | releasing a slot leaves no key of the hash index leading to it |
| Resolution.ResolvesToOwnRecord | engine_race/DBSystem/DBSystem.cpp:87-96 | over every run with at most 256 tables, rewritten keys included, the hash index leads each acknowledged key and no other to a record acknowledged under that key |
| WriteOnce.StepNoLeak | engine_race/DBSystem/DBSystem.cpp:93-96 | a run that writes each key once, below the sentinel, leaks nothing |
| WriteOnce.DumpedKeyAlone | engine_race/DBSystem/DBSystem.cpp:365-369 | when the hash index leads each entry's key to the entry's slot, the key being dumped belongs to no other entry |
| WriteOnce.StepOnceOk | engine_race/DBSystem/DBSystem.cpp:356-370 | in such a run the hash index leads each entry's key to its slot and each table row's key to its row |
| Manifests.ManifestBoundsTables | engine_race/DBSystem/DBSystem.cpp:118-140 | over every run each listed table has as many keys as values as nrecord says, all between kstart and kend |
| Manifests.DumpedRow | engine_race/DBSystem/DBSystem.cpp:349-373 | with keys written once and at most 256 tables, each key of a listed table leads to that table and its rank, whose value block is the key's value; keys ascend strictly |
| LatestValues.StepCurrent | engine_race/DBSystem/DBSystem.cpp:365-369 | exactly when a step leaves a key leading to the record acknowledged last for it: a write of the key always; a dump of the key if and only if the slot dumped holds that record; any other step if and only if the key led there before |
| LatestValues.DumpedIsLatest | engine_race/DBSystem/DBSystem.cpp:356-370 | when entries are where their keys lead, the slot dumped holds the latest record |
| LatestValues.ResolvesToLatest | engine_race/DBSystem/DBSystem.cpp:87-96 | over every run with at most 256 tables, rewriting allowed, that writes a key only while no other memtable and no batch on its way to disk holds it, each key leads to the record acknowledged last for it |
| Manifests.WriteOnceNeverStalls | engine_race/DBSystem/DBSystem.cpp:82-103 | with keys below the sentinel written once, nothing leaks, some step is always possible, and each acknowledged record is in a log or a listed table |
| StaleDumps.RewrittenKeyGoesStale | engine_race/DBSystem/DBSystem.cpp:365-369 | concrete failing input: a reachable run after which a key written twice leads to its older value |
| Rounds.RoundEnds | engine_race/DBSystem/DBSystem.cpp:349-373 | from any reachable state with a batch waiting that the merge sees something of, the dumper's round can be taken to its end; it leaves memtables and hot log alone, removes the died log and leaks what the merge leaves behind |
| Rounds.RoundFrees | engine_race/DBSystem/DBSystem.cpp:356-362 | after such a round every slot of an entry written out is empty again |
| Rounds.IdleAccounts | engine_race/DBSystem/DBSystem.cpp:356-362 | and the written slots are exactly those of the current memtables and the leaked ones |
| DumpLaws.DumpLaw | engine_race/DBSystem/DBSystem.cpp:349-373 | after an undisturbed dump each key of the merge leads to the new table and its rank, the value block there is the latest value of the key, its slot is empty again, and the manifest bounds and counts the keys; asked of the state before is only that entries are where their keys lead and keys lead to their latest records |
| DumpLaws.TidyDumpLaw | engine_race/DBSystem/DBSystem.cpp:349-373 | so after every run that writes a key only while no other memtable and no batch on its way to disk holds it, keys rewritten or not |
| DumpLaws.StepKeepsRow | engine_race/DBSystem/DBSystem.cpp:365-369 | a key that leads to its table row goes on leading there while nothing is written |
| Engines.DBSystem.Write | engine_race/DBSystem/DBSystem.cpp:70-104 | the calls of a write on key packing, buffer, hash index and skip list amount to the write step, unless the hash index is full for the key, which at the configured size it never is below 11662 keys; a switch is reported due exactly at 1024 items |
| Engines.DBSystem.Read | engine_race/DBSystem/DBSystem.cpp:108-117 | answers from the slot the index word names; the value the index leads to, when that is in the buffer |
| Engines.DBSystem.StartDumping | engine_race/DBSystem/DBSystem.cpp:247-289 | popping a batch of lists, draining them and writing the keys is the step that starts a dump; the lists in use and those still waiting stay as they are |
| Engines.DBSystem.DumpRecord | engine_race/DBSystem/DBSystem.cpp:356-370 | one pass of the dump loop over buffer, table file and hash index is the dump step; the hash index is never full for the key |
| Engines.DBSystem.DumpRecords | engine_race/DBSystem/DBSystem.cpp:356-370 | the whole dump loop is as many dump steps as the batch has entries, each one possible |
| Engines.DBSystem.DumpBatch | engine_race/DBSystem/DBSystem.cpp:243-293 | in any reachable state an undisturbed round of the dumper over the objects is a run of the machine; afterwards every slot of an entry written out is empty again, and the written slots are those of the current memtables and the leaked ones |
| Replays.ReplayIsWriting | engine_race/DBSystem/io.cpp:85-102 | from any state with a slot to spare, replaying a log does to index, memtables and slots what writing its records did; the queue of empty slots moves on by one |
| Replays.WriteAllLogs | engine_race/DBSystem/DBSystem.cpp:70-96 | writing a run of records logs them in order |
| Replays.WritesResolve | engine_race/DBSystem/DBSystem.cpp:70-96 | after a run of writes each key leads to its last record in the run, or where it led before |
| Replays.WritesOccupy | engine_race/DBSystem/DBSystem.cpp:82-84 | after a run of writes each record is in a slot of its own |
| Replays.ReplayRebuildsView | engine_race/DBSystem/io.cpp:79-104 | a hot log of fewer than 1024 records replayed into an empty engine rebuilds index, slots and log of the engine that wrote it, whichever memtables writers and recovery got hold of; each key leads to its last record; one written slot is left per record |
| Replays.FetchLog | engine_race/DBSystem/io.cpp:59-104 | the recovery loop, with its slot requested ahead and released at the end of the log, computes `Replay`, unless the hash index is full for a key, which at the configured size it is not while keys and records number at most 11662 |
| DoorPlates.StepsReach | engine_example/door_plate.cc:93-99 | probing with wrap-around reaches every slot within one round |
| DoorPlates.NextStep | engine_example/door_plate.cc:93-99 | probing starts at the hash modulo the table size and goes on slot by slot, round the end |
| DoorPlates.RoundSeesAll | engine_example/door_plate.cc:93-106 | a full round finds no place if and only if every slot is in use by another key |
| DoorPlates.ProbeEnds | engine_example/door_plate.cc:93-106 | probing stops at the key's own item if it is stored, otherwise at an unused one |
| DoorPlates.StoreKeepsTable | engine_example/door_plate.cc:118-126 | storing where probing stopped keeps keys unique and reachable and updates the map at one key |
| DoorPlates.FullExactly | engine_example/door_plate.cc:101-116 | the table is full for a key if and only if it holds as many keys as items, and not this one |
| DoorPlates.DoorPlate.CalcIndex | engine_example/door_plate.cc:93-106 | -1 exactly when every slot is in use by another key, otherwise the slot where probing stops |
| DoorPlates.DoorPlate.AddOrUpdate | engine_example/door_plate.cc:108-127 | sets the key's location; refuses exactly keys over 32 bytes and new keys of a full table, changing nothing then |
| DoorPlates.DoorPlate.Find | engine_example/door_plate.cc:129-138 | a stored key's location; otherwise not found, except that the empty key matches an unused item and yields the zero location |
| DoorPlates.RangeBounds | engine_example/door_plate.cc:149-150 | a lower bound is in its own range, an upper bound is not, and two empty bounds take every key |
| DoorPlates.RangesMeet | engine_example/door_plate.cc:149-150 | for a below b below c the ranges from a to b and from b to c share no key and make up the range from a to c |
| DoorPlates.DoorPlate.GetRangeLocation | engine_example/door_plate.cc:140-158 | exactly the stored keys that are not less than the lower and less than the upper bound, empty bounds apart, with their locations; the out-of-memory return is unreachable |
| DataStores.ParseIsDigitSum | engine_example/data_store.cc:41-42 | a numeral stands for the sum of its digits times powers of ten |
| DataStores.ParseDecimal | engine_example/data_store.cc:15-17 | a number written out in decimal reads back |
| DataStores.NumberRead | engine_example/data_store.cc:36-42 | a name of DATA_, white space, perhaps a plus sign, digits and something else has the number the digits stand for |
| DataStores.NameReadsBack | engine_example/data_store.cc:15-17 | the name of data file n is recognised and its number is n |
| DataStores.NextIsUnique | engine_example/data_store.cc:30-53 | names and lengths of the files determine the next location |
| DataStores.AppendLaw | engine_example/data_store.cc:59-82 | an append only extends the directory, its location reads back and starts where the file ended; it stays in the last file if and only if the value still fits the limit there, otherwise one file, the next, is added; its file does not exceed the limit |
| DataStores.AppendIsDisjoint | engine_example/data_store.cc:59-82 | a new location overlaps no location handed out before |
| DataStores.RunReadsBack | engine_example/data_store.cc:59-112 | over any run of appends and roll-overs each location reads back its value and no two overlap |
| DataStores.RunRollsOver | engine_example/data_store.cc:64-70 | over any run each value goes to the end of the file the one before went to while it fits there, otherwise to the start of the next file |
| DataStores.RunAddsFiles | engine_example/data_store.cc:64-70 | the files a run adds are those numbered from the one after the last to the last it used |
| DataStores.RunStaysShort | engine_example/data_store.cc:59-82 | no file ever grows beyond the limit |
| DataStores.FileAppend | engine_example/util.cc:50-68 | appends the whole value however the calls split it |
| DataStores.LastFileNo | engine_example/data_store.cc:30-44 | the highest number read off the name of a data file, other names ignored; None exactly when some data file's name has no number in it |
| DataStores.DataStore.Init | engine_example/data_store.cc:19-57 | recomputes the exact next location from names and lengths, and creates at most that file; fails exactly when some data file's name has no number in it |
| DataStores.DataStore.Append | engine_example/data_store.cc:59-82 | appends at the end of the current file if and only if its length and the value stay within the limit, otherwise at the start of the next file, which it makes; refuses exactly values over the limit |
| DataStores.DataStore.Read | engine_example/data_store.cc:84-112 | the bytes at the location however the calls split them |
| ExampleEngines.EngineExample.constructor | engine_example/engine_example.cc:21-43 | an engine opened on nothing is the empty map |
| ExampleEngines.EngineExample.Reopened | engine_example/engine_example.cc:21-43 | an engine opened again on what another left behind holds the same map |
| ExampleEngines.EngineExample.Write | engine_example/engine_example.cc:51-60 | sets the key in the map, or refuses and changes no answer |
| ExampleEngines.EngineExample.Read | engine_example/engine_example.cc:62-72 | the value the map holds for the key, or not found; the empty key, not stored, reads as the empty value until the table is full |
| ExampleEngines.EngineExample.Range | engine_example/engine_example.cc:74-94 | visits a key with a value if and only if the map holds it with that value and it is within the bounds, in strictly ascending order; an empty bound is no bound |
| ExampleEngines.RangeIsUnique | engine_example/engine_example.cc:84-91 | that description of the visits leaves one sequence |
| ExampleEngines.Execute | engine_example/engine_example.cc:51-94 | any run of writes, reads, range scans and re-openings answers as a string map of bounded size does |
| ExampleRuns.ReadsLastWritten | engine_example/engine_example.cc:51-72 | over any run a read answers the value of the last successful write of its key, whatever other operations lie between |
| ExampleRuns.UnwrittenNotFound | engine_example/engine_example.cc:62-72 | a key not held at the start and never successfully written is not found |
| ExampleRuns.WriteRefused | engine_example/engine_example.cc:51-60 | exactly when a write is refused, said of the keys successfully written before |
| ExampleRuns.RangeShowsLastWritten | engine_example/engine_example.cc:74-94 | a range scan shows a written key if and only if it is within the bounds, with the value of its last successful write only, in ascending order |
| ExampleRuns.RangeShowsNoOther | engine_example/engine_example.cc:74-94 | and no key that was not held at the start and never written |
| ByteStrings.LessIs | engine_example/door_plate.cc:149-150 | strings compare at the first place where they differ: the one that ends there, or has the smaller byte there, is less |
| ByteStrings.LessIsLexLess | engine_example/engine_example.cc:84-91 | for strings of one length this is the numeric order of their big-endian packings |

## Left out

- SkipLists.SkipList.Update: the object keeps its vectors of nodes as a sequence of sequences reassigned level by level, not as arrays; the height is any value from 1 to 12, so the distribution of heights is not modelled.
- SkipLists.SkipList.Get: the returned node number and the count of distinct keys are unbounded integers; a list of more than 2^31 nodes is not modelled.
- Merges.BuffersDumper: collects key and index values where the source collects pointers into the lists it deletes; the lifetimes of those pointers are not modelled.
- HashIndexes.IndexHashMap.Update: the table size and the hash are parameters of the class (any size, any hash into it); `KeyHashes.HashKey` gives the hash the source uses. None stands for the failing assertion.
- Indexes.SetIdxLaw: the setters return a new word; in the classes that use them the word is reassigned in place.
- Crcs.Crc32: the 256 constants are written in sixteen rows selected by the high half of the byte, not as one array.
- Buffers.Buffer.RequestRecordBuff: None stands for waiting on the condition variable; wake-ups are not modelled. The access flag of each slot (engine_race/DBSystem/DBSystem.cpp:189-202) is not modelled: a write is one step.
- Engines.DBSystem.Write: keys of fewer than eight chars, of which the source reads eight all the same, are excluded; the locks on memtables and hash index are not modelled; the memtable is any one the thread may have got hold of. The machine's write is the case in which the hash index takes the key. The record's magic number and check field, which nothing reads, are dropped.
- Engines.DBSystem.Read: a read of a key that was never written follows a null pointer in the source and is answered with None; a read of a key already dumped takes the slot whose number is the rank, as the source does, since no table reader exists.
- Engines.DBSystem.DumpBatch: requires a key below the sentinel in the batch, since the source reads the first element of an empty vector otherwise; in the machine that step is not possible. New memtables are made at the submission, where the source takes them from a queue that a thread keeps filled.
- Manifests.ManifestBoundsTables: the file name is kept as its number, and the rewriting of the manifest file before the list in memory grows is one step.
- LatestValues.ResolvesToLatest: holds for at most 256 tables, since a larger number does not fit the fid field (`Places.RankPlaceReadsBack`, `Indexes.WideFidSpills`); so do `Resolution.ResolvesToOwnRecord` and `DumpLaws.DumpLaw`.
- Coverage.FillUp: for table sizes below 2^64 - 1, so that there are more keys than slots.
- Replays.ReplayRebuildsView: a log that fills the buffer during replay, which submits a dump on the way, and crashes between the steps of a switch or a dump are not modelled.
- DataStores.DataStore.Init: file numbers are unbounded, where the source throws on numbers of 2^31 and more; a name like DATA_-7, whose number `stoul` and `stoi` read differently, is excluded.
- DataStores.DataStore.Read: a location past the end of its file, for which the source's read loop does not end, is excluded.
- ExampleEngines.EngineExample.Write: the number of items is a parameter where the source fixes 33554432, and `StrHash` is any total function on keys.
- Writes interleaved inside the single steps, thread start and stop, liveness beyond the stated possibility of a step, and the capacities of the queue of spare memtables: `WaitQueue` is a bounded sequence.
- Failing system calls: file operations succeed, apart from calls that transfer less than asked or are interrupted.
- The engine stubs in C++ and Java, path joining, logging, the string wrapper, test programs and build files: no behaviour to state.
