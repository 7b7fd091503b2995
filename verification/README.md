# ZenithDB storage engine and its data structures, in Dafny

This project models the LSM storage engine of ZenithDB byte for byte and step by step, then
the engines built on it (lists, hashes, sets, sorted sets, full text, documents, vectors) and
the RESP codec beside it, and proves that each behaves as the plain structure it stands for.

## What is modelled

**Storage engine.**

- `Bloom`, `SsTableFormat`, `SsTable`, `Wal`, `WalLog`: the byte formats. A file is a byte
  sequence with a cursor, `struct.pack` is a big-endian function, and a failed pack is an
  outcome, not a precondition. The writers and readers are classes with the source's fields.
- `Tables`: sorted tables, stacks of tables with the newest last, tombstones.
- `FileNames`: the zero-padded names of tables and segments, their order, and the number that is
  read back from one. `Directories`: sorted listings of file numbers.
- `LsmMachine`: the engine as a state machine over its durable steps (frame appended, on a frame
  boundary or behind a torn tail, log rotated, frame applied to the memtable, table published,
  memtable overwritten after a flush that raised, merged table published, old table removed, log
  purged, crash). `Serving` is what the running process needs: history, table stack and memtable
  fit together. Every step keeps it. `Inv` adds that the log reaches back to where the tables end;
  every step but the three of `LosesLog` keeps that too. The main theorems speak of every run from
  the empty directory, with crashes anywhere.
- `LsmLimits`: where the guarantees end. The failing cases are shown by concrete runs and
  bounded by exact conditions.
- `Compaction`: the heap merge. `LsmTree`: the classes `MemTable` and `LSMTree`, with a ghost
  run of the machine that every method extends in step with the real fields and files. `Valid()`
  holds after every operation, whether it returned or raised and whatever the log looks like;
  `Durable()` says that tables and log are enough for the next process.

**Structures on the store.** `Store` is the map the engines are written against, and
`TreeStore` proves that the LSM tree meets its contracts. `KvKeys`, `KvLists`, `KvFields`,
`KvSorted`, `KvPurge`, `KvSteps` and `KvEngine` model the key-value engine; `KvTyped`,
`KvCommands` and `KvRuns` prove whole runs of its commands against plain collections.
`FullText`, `Bm25` and `FullTextSearch` model the text index; `Documents`, `DocIndex` and
`DocStore` the document store; `Vectors`, `VectorCells` and `VectorIndex` the vector index;
`Ranking` the sorting by score that the two searches share.

**Protocol.** `Resp` gives the meaning of the wire format and of the serializer; `RespStream`
is the streaming parser and the server's drain loop.

## Conventions

- A byte is the character of that code, and text is its UTF-8 bytes, whose order is the order
  of the text. `ByteStrings` and `Numerals` hold the byte order, big-endian integers, and the
  decimal text that `str` writes and `int` reads.
- SHA-256, CRC-32, the logarithm, the square root, the tokenizer, `json.dumps`, the text of a
  float and the packing of a vector are function parameters. The clock is an arbitrary value at
  each call. A random sample is a parameter, and so is the number of nested calls that Python
  allows. Scores and vectors are reals.
- An exception is an outcome (`None`, `false`, `StructError`), with the state it leaves behind.
- Ghost parameters and ghost fields name the abstract value (the list a key holds, the stored
  documents); they exist for the contracts only.
- Where a method and its contract use the same function, another clause or lemma says what that
  function means without it: the byte order, the ends of a range, the order and rank of a sorted
  set, the text score, the metrics and their direction, slices, checksums, what a line parses to.
- Every method of the LSM tree holds one re-entrant lock, so a method is one step except for
  crashes, which the machine places between its durable steps.

## Limits the code needs

- Lookups in a table agree with what was written exactly when its least key is not empty
  (`SsTable.LookupIsExact`). One empty key therefore hides its whole table from `get`, though
  not from `scan` (`LsmTree.EmptyKeyHidesTable`); `LsmTree.LSMTree.Get` says what is found then.
- Writing a value equal to the tombstone constant deletes the key (`LsmTree.Written`), and the
  constant can reach a cell as a list element, a hash value, a string, or a vector of five floats,
  whose packing has the same 20 bytes. A pushed constant leaves a hole that `llen` counts and
  `lrange` skips: stored elements read back as they are if and only if none is the constant
  (`KvLists.PresentOfSlots`). `KvEngine.KeyValueEngine.HSet` and `VectorIndex.VectorIndex.Insert`
  remove the field or the vector in that case.
- Appends are durable in order, as with sync mode "always".
- An explicit compaction after a rotation by size purges frames that no table holds. The running
  process keeps showing the whole map (`LsmMachine.RunRefinement`), and the next flush makes the
  store recoverable again (`LsmMachine.FlushRestores`). Until then `LsmLimits.UncoveredPurge` and,
  over whole runs, `LsmLimits.RunRecoversExactlyWhen` say exactly when recovery is exact, and
  `LsmLimits.UncoveredPurgeLosesData` is a run that loses a put. The compaction that follows a
  flush never does.
- Old tables go oldest first; `Tables.NewestFirstRemovalIsUnsafe` shows what the other order does.
  Log segments go in the order of the directory listing, which is any order: an interrupted
  purge leaves a recoverable store exactly under the condition of `LsmLimits.InterruptedPurge`,
  which the oldest-first order always meets (`LsmLimits.OldestFirstPurgeIsSafe`) and the run of
  `LsmLimits.NewestFirstPurgeIsUnsafe` does not.
- A torn tail of the log is never cut off. Recovery reads past it, but what is appended behind
  it may not be found again: never for a tail of one to four bytes
  (`Wal.TornTailHidesLaterFrames`), for a tail that ends inside the header exactly when the
  spliced header fits the bytes behind it (`Wal.TornHeaderTakesLaterBytes`), and for a tail that
  ends inside a payload exactly when the checksum happens to agree
  (`Wal.TornPayloadTakesLaterBytes`). The process that made such a write shows it. Flushing it is
  not enough, since an older frame of its key may still be read (`LsmLimits.FlushedStoreIsDecided`,
  `LsmLimits.FlushBehindTailIsNotEnough`); a compaction right after a flush is
  (`LsmMachine.CompactionRestores`). Later writes start on a frame boundary, which every flush
  restores.
- After a flush that raised, the next flush overwrites the immutable memtable, and what it held
  is gone from the running process (`LsmTree.LSMTree.Put`, `LsmTree.LSMTree.FlushMemtable`);
  `LsmLimits.FlushAfterFailure` says exactly when nothing is lost once the log is purged.
- Tables and segments are listed by name and their numbers read from eight characters of it. Name
  order is number order, and the number is read back, exactly below 10^8
  (`FileNames.NamesFollowNumbers`, `FileNames.NumberReadsBack`); the directories of the model list
  their files by number.
- Two keys' hashes, sets or sorted sets share cells exactly when one key followed by a colon
  begins the other followed by a colon (`KvFields.SharedCells`). List cells never collide.
- A bulk string of declared length below -1 inside an array moves the parser's cursor back, even
  to an offset that Python counts from the end. When it returns to the array itself, the parser
  recurses until Python raises (`RespStream.CursorReturnsForEver`). One nested call more than the
  buffer has bytes decides whether it ever ends (`RespStream.DepthDecides`).
- Collections, indexed field paths and document ids contain no colon, and neither do search
  terms; the text of an indexed value and the ids of indexed texts may.
- An index created on more than a million documents is complete exactly when no document past
  the first million needs an entry (`DocStore.DocumentStore.CreateIndex`).

## Model

| member | source | states |
|---|---|---|
| LsmMachine.CrashRefinement | zenith/storage/lsm.py:91-254 | stop any run that keeps its log after any durable step, with any number of earlier crashes: loading the tables and replaying the surviving log gives exactly the plain map of all appended frames |
| LsmMachine.RunRefinement | zenith/storage/lsm.py:122-290 | between operations the running process shows the plain map of all appended frames, whatever compactions, purges, rotations and torn tails have done to the log, as long as no memtable was overwritten and every earlier crash found a log that sufficed |
| LsmMachine.RecoveryIsExact | zenith/storage/lsm.py:113-120 | in every state of the invariant, tables plus replayed log are the plain map |
| LsmMachine.StepKeeps | zenith/storage/lsm.py:163-254 | every durable step but an append behind a torn tail, an overwritten memtable and a purge after a rotation by size keeps the invariant: the log is a suffix of history that reaches back to what the tables hold, and the memtable is current |
| LsmMachine.StepServes | zenith/storage/lsm.py:63-290 | every step, those three included, keeps history, tables and memtable in agreement; a crash does where the log suffices |
| LsmMachine.FlushRestores | zenith/storage/lsm.py:163-189 | the next flush after a purge that went too far makes the store recoverable again |
| LsmMachine.CompactionRestores | zenith/storage/lsm.py:187-254 | a compaction right after a flush makes any store recoverable, unreadable frames in the log included |
| LsmMachine.OverwriteServes | zenith/storage/lsm.py:168-170 | when a flush overwrites the memtable that a raised flush set aside, the process goes on with the map of tables and newer memtable |
| LsmMachine.OpenedIsInv | zenith/storage/lsm.py:91-120 | any directory of ascending tables and readable segments opens to a state of the invariant whose map is what they show |
| LsmMachine.ReplayAgain | zenith/storage/lsm.py:113-120 | replaying frames the tables already hold changes nothing |
| LsmMachine.LiveReplay | zenith/storage/lsm.py:113-161 | tombstones in memtable and tables are an encoding of deletion in the plain map |
| LsmMachine.RunKeeps | zenith/storage/lsm.py:63-254 | over a whole run that keeps its log the invariant holds |
| LsmMachine.RunServes | zenith/storage/lsm.py:63-290 | over a whole run history, tables and memtable stay in agreement |
| LsmMachine.RunHistory | zenith/storage/lsm.py:122-136 | history is the sequence of appended frames |
| LsmLimits.CoveredUntilSizeRotation | zenith/storage/wal.py:160-162 | once a flush has covered the log only a rotation by size, or a step that loses part of the log, ends that |
| LsmLimits.UncoveredPurge | zenith/storage/lsm.py:197-254 | what an explicit compaction of two or more tables leaves after a rotation by size, the merged table and the current segment, recovers to the plain map exactly when each lost key was written again in that segment or has the value the tables show |
| LsmLimits.RecoveryIsDecided | zenith/storage/lsm.py:91-120 | whenever the log is a tail of history, recovery is exact if and only if each key of the frames held nowhere is written again in the log or shown by the tables with its last lost value |
| LsmLimits.RunRecoversExactlyWhen | zenith/storage/lsm.py:91-254 | the same condition decides recovery after any run, with compactions after rotations by size anywhere in it |
| LsmLimits.UncoveredPurgeLosesData | zenith/storage/lsm.py:197-254 | a run from the empty directory (two flushed puts, a third put with a rotation by size, a compaction) after which the process still shows the third put and recovery does not |
| LsmLimits.FlushedStoreIsDecided | zenith/storage/lsm.py:91-189 | after a flush, whatever can be read of the log, recovery is exact if and only if the frames that are read show only current values |
| LsmLimits.FlushBehindTailIsNotEnough | zenith/storage/wal.py:94-115 | a run in which a put behind a torn tail is flushed, the process shows it, and recovery shows the value before it |
| LsmLimits.InterruptedPurge | zenith/storage/wal.py:275-287 | whichever segments a purge has left beside the current one, the store recovers to the plain map exactly when every key their frames write ends with the value the map shows |
| LsmLimits.OldestFirstPurgeIsSafe | zenith/storage/wal.py:275-287 | removing the oldest segments first leaves a suffix, and a suffix always recovers |
| LsmLimits.NewestFirstPurgeIsUnsafe | zenith/storage/wal.py:275-287 | a run from the empty directory after which purging the newer of two segments first brings an overwritten value back |
| LsmLimits.FlushAfterFailure | zenith/storage/lsm.py:163-189 | when a flush follows one that raised, the purged store recovers exactly when every key of the overwritten memtable was written again or shows the same value in the tables |
| LsmTree.LSMTree.constructor | zenith/storage/lsm.py:63-120 | opening any directory, torn log tails included, yields the map that its tables and its log show; for the directory of a run that kept its log, wherever it stopped, that is the plain map of the run |
| LsmTree.LSMTree.LoadTables | zenith/storage/lsm.py:91-111 | the tables are opened in number order, files that do not open are skipped, and the next number is one above the greatest of all files |
| LsmTree.LSMTree.Replays | zenith/storage/lsm.py:113-120 | the memtable holds the replay of every frame in the log |
| LsmTree.LSMTree.Put | zenith/storage/lsm.py:122-128 | on any tree, for any key and value, the plain map gets the pair; an append that raises changes nothing; a flush or compaction that raises afterwards leaves the write logged and visible; a flush behind one that raised drops exactly what that one set aside; returns exactly when the fields fit; the store stays durable unless the log ends in a torn tail or a memtable is dropped |
| LsmTree.LSMTree.Delete | zenith/storage/lsm.py:130-136 | the same for removing the key |
| LsmTree.LSMTree.Log | zenith/storage/lsm.py:122-126 | the frame is written exactly when its fields fit their widths, and found again by a replay when the log ended on a frame boundary |
| LsmTree.LSMTree.Apply | zenith/storage/lsm.py:122-136 | the logged frame enters the memtable and the plain map |
| LsmTree.LSMTree.FlushMemtable | zenith/storage/lsm.py:163-189 | on any tree: succeeds exactly when the tables it writes have all fields in range; what readers see never changes, even when it raises, except that it drops what an earlier flush that raised set aside; a durable store stays durable, and one whose log an earlier compaction cut short becomes durable again |
| LsmTree.LSMTree.WriteOut | zenith/storage/lsm.py:168-185 | the memtable becomes the newest table and the log rotates to a frame boundary; readers see the same map through the immutable memtable if writing raises |
| LsmTree.LSMTree.PublishTable | zenith/storage/lsm.py:171-182 | the new file holds the sorted entries under the next number and is opened as the newest reader |
| LsmTree.LSMTree.Compact | zenith/storage/lsm.py:191-254 | on any tree: one table (or none) is left, listing exactly the live entries, with the log's current segment alone; the plain map and what readers see stay; when the merged table does not fit nothing changes; the store stays durable unless a rotation by size came after the last flush, and becomes durable right after a flush |
| LsmTree.LSMTree.RemoveOld | zenith/storage/lsm.py:237-247 | after each removed file the directory holds a suffix of the old stack and the merged table |
| LsmTree.LSMTree.PurgeLog | zenith/storage/lsm.py:253-254 | the log keeps its current segment only |
| LsmTree.LSMTree.Get | zenith/storage/lsm.py:138-161 | returns the lookup of the key through memtable, immutable memtable and the tables that answer |
| LsmTree.EmptyKeyHidesTable | zenith/storage/sstable.py:195-196 | a table with an empty key shows its entries in scans and in no lookup |
| LsmTree.AllAreHeard | zenith/storage/sstable.py:195-196 | without empty keys every table answers lookups |
| LsmTree.LSMTree.ValidIsReadable | zenith/storage/lsm.py:138-161 | between operations scans see the plain map, and so do lookups when no empty key was ever written |
| LsmTree.LSMTree.Scan | zenith/storage/lsm.py:256-290 | yields, in ascending order, exactly the visible pairs whose keys are at or above the start and at or below the end, both ends included; None is an open end |
| LsmTree.LSMTree.CombineTables | zenith/storage/lsm.py:268-272 | the tables' part of a scan: newer tables overwrite older ones |
| LsmTree.MemTable.Put | zenith/storage/lsm.py:24-29 | the pair is stored; the size counts keys, values and 16 bytes per write, and an overwrite gives back key and value only |
| LsmTree.MemTable.SortedEntries | zenith/storage/lsm.py:40-41 | the entries in key order |
| LsmTree.KeyedStep | zenith/storage/sstable.py:195-196 | no step puts an empty key into a table unless it was appended |
| LsmTree.KeyedRun | zenith/storage/sstable.py:195-196 | a run that never appended an empty key leaves none in memory or in a table |
| Compaction.MergeTables | zenith/storage/lsm.py:200-235 | for any stack of ascending tables the merge terminates, and what it writes is ascending and lists exactly the live content of the stack |
| Compaction.HeapPop | zenith/storage/lsm.py:219 | the popped item is least by key, and of equal keys from the newest table |
| Compaction.PoppedKey | zenith/storage/lsm.py:219-231 | a key popped for the first time carries the value of the newest table that holds it, and no key between it and the previous one exists |
| Compaction.MergedNext | zenith/storage/lsm.py:226-233 | the output after a popped key holds exactly the live entries up to it |
| Compaction.NewestDecides | zenith/storage/lsm.py:153-161 | the newest table that holds a key decides its value |
| Tables.SurvivingSuffix | zenith/storage/lsm.py:237-250 | any surviving suffix of the old stack under the merged table reads as the whole old stack did |
| Tables.NewestFirstRemovalIsUnsafe | zenith/storage/lsm.py:237-247 | removing a newer table first would bring a deleted key back |
| Tables.LiveOverlay | zenith/storage/lsm.py:141-161 | a layer above covers whatever lies below it, tombstones included |
| Tables.RangeLists | zenith/storage/sstable.py:228-263 | the entries of an ascending table in a range list the restriction of its content |
| Tables.RestrictedIsBetween | zenith/storage/lsm.py:275-283 | a sorted listing of a restricted map is that closed range of it, end by end |
| Tables.ListingIsUnique | zenith/storage/lsm.py:40-41 | a map has one sorted listing |
| Tables.SortedItems | zenith/storage/lsm.py:40-41 | sorting a dict's items lists the dict |
| SsTable.LookupIsExact | zenith/storage/sstable.py:189-226 | lookups agree with the written entries for every key, tombstones and absent keys included, exactly when the first key is not empty |
| SsTable.SSTableReader.Get | zenith/storage/sstable.py:189-226 | range check, filter, binary search and forward scan return the written value or None |
| SsTable.SSTableReader.Seek | zenith/storage/sstable.py:206-211 | the index leads to a record before which all keys are smaller |
| SsTable.SSTableReader.ScanFor | zenith/storage/sstable.py:211-226 | the forward scan finds the key exactly when it was written |
| SsTable.SSTableReader.Scan | zenith/storage/sstable.py:228-263 | yields, in ascending order, exactly the written entries at or above the start and at or below the end, both ends included |
| SsTable.SSTableReader.Open | zenith/storage/sstable.py:128-139 | a finished file opens as the table it was written from |
| SsTable.BisectRight | zenith/storage/sstable.py:206 | splits the index at the key |
| SsTable.StartOfSearch | zenith/storage/sstable.py:206-209 | the chosen index entry names a record, and all records before it have smaller keys |
| SsTable.RecordAtOffset | zenith/storage/sstable.py:211-218 | each record of a finished image is read back at its offset, and the cursor then stands at the next one |
| SsTable.LoadMetadata | zenith/storage/sstable.py:141-187 | on any bytes, the fields or the exception that the format gives |
| SsTable.LoadIndex | zenith/storage/sstable.py:174-183 | the loop reads the index block |
| SsTable.SSTableWriter.WriteEntry | zenith/storage/sstable.py:47-65 | appends the record, indexes every interval-th one and adds the key to the filter; fails exactly on a key or value that is too long |
| SsTable.SSTableWriter.Finish | zenith/storage/sstable.py:67-122 | the file image of the written entries; no file for none; an error exactly when a field does not fit |
| SsTable.WrittenStep | zenith/storage/sstable.py:47-65 | how data block, index and filter of an image grow with one more record |
| SsTableFormat.MetadataRoundTrip | zenith/storage/sstable.py:67-187 | reading a finished image recovers entry count, least and greatest key, every index entry and the filter |
| SsTableFormat.OpenedIsWhole | zenith/storage/sstable.py:141-187 | a file opens only with the trailer's magic at its end and with footer and index count whole where trailer and footer say |
| SsTableFormat.DataHoldsRecord | zenith/storage/sstable.py:54-65 | every record lies at its offset |
| SsTableFormat.RecordReadsBack | zenith/storage/sstable.py:211-218 | header, key and value are read back from wherever a record lies |
| SsTableFormat.IndexMark | zenith/storage/sstable.py:56-58 | every index entry names a record and its offset, the first one the first record |
| SsTableFormat.IndexIsAscending | zenith/storage/sstable.py:56-58 | the sparse index is sorted when the table is |
| Bloom.NoFalseNegatives | zenith/storage/bloom.py:60-83 | after any run of adds every added key is contained |
| Bloom.BitsAreThePositions | zenith/storage/bloom.py:60-69 | after any run of adds a bit is set exactly when it is a position of an added key, so adds never clear one |
| Bloom.AddFirstSets | zenith/storage/bloom.py:53-69 | one add sets its positions and changes no other bit |
| Bloom.ImageRoundTrip | zenith/storage/bloom.py:88-125 | the serialized filter reads back as the same filter whenever its fields fit |
| Bloom.Position | zenith/storage/bloom.py:53-58 | every position lies inside the bit array |
| Bloom.PositionsStep | zenith/storage/bloom.py:53-58 | the first position is the first digest word modulo the number of bits, and each further one lies the second word on |
| Bloom.BloomFilter.Add | zenith/storage/bloom.py:60-69 | the array becomes the one with the key's positions set |
| Bloom.BloomFilter.SetBit | zenith/storage/bloom.py:65-67 | one bit of one byte of the array is set |
| Bloom.BloomFilter.MightContain | zenith/storage/bloom.py:71-83 | true exactly when all positions of the key are set |
| Bloom.Probe | zenith/storage/bloom.py:71-83 | the same for the loop that stops at the first clear bit |
| Wal.CutRecovers | zenith/storage/wal.py:193-248 | cut the image of any frames at any byte: replay terminates and yields exactly the frames that lie wholly before the cut |
| Wal.AnyCutRecovers | zenith/storage/wal.py:193-248 | every cut has such a number of whole frames |
| Wal.SegmentRoundTrip | zenith/storage/wal.py:117-248 | a whole segment reads back frame by frame with operation, number, key and value |
| Wal.TornAppendIsInvisible | zenith/storage/wal.py:204-225 | an append cut short leaves no trace |
| Wal.FramesThenTail | zenith/storage/wal.py:193-248 | whole frames are replayed whatever follows them, and what follows is replayed as if it stood alone |
| Wal.TornPayloadTakesLaterBytes | zenith/storage/wal.py:220-233 | behind a frame torn inside its payload a frame is read exactly when enough bytes follow and the checksum agrees |
| Wal.TornHeaderTakesLaterBytes | zenith/storage/wal.py:204-233 | behind a frame torn inside its header, past magic and version, the missing header bytes come from what follows: a frame is read exactly when enough bytes follow and the checksum agrees, with the spliced fields |
| Wal.GarbageTailIsIgnored | zenith/storage/wal.py:217-219 | bytes that start no frame end the replay and harm nothing before them |
| Wal.TornTailHidesLaterFrames | zenith/storage/wal.py:94-115 | frames written behind a torn tail of one to four bytes are never replayed |
| Wal.ReadSegment | zenith/storage/wal.py:193-248 | the generator yields the frames that the format gives for any bytes |
| Wal.ReadFrameIsSummed | zenith/storage/wal.py:220-233 | a frame is read only if the low 32 bits of the sum over its operation, number, key and value are the four bytes stored in its header |
| Wal.FrameIsSummed | zenith/storage/wal.py:132-145 | an append writes that sum there |
| WalLog.WriteAheadLog.constructor | zenith/storage/wal.py:73-115 | the newest segment is reopened for appending, torn tail or not, or segment 1 is created |
| WalLog.WriteAheadLog.Append | zenith/storage/wal.py:117-164 | on any log: the next number is used up and the frame goes behind the current segment, which rotates when full; fails exactly when a field does not fit; on a frame boundary the segment then reads as before and the frame |
| WalLog.WriteAheadLog.Rotate | zenith/storage/wal.py:175-183 | an empty segment with the next sequence number follows, and the log ends on a frame boundary |
| WalLog.WriteAheadLog.Recover | zenith/storage/wal.py:250-273 | all frames in order past any torn tail, and the next number is one above the greatest among them, so numbers go on increasing where they did |
| WalLog.TornAppendShows | zenith/storage/wal.py:147-148 | an append cut short at any byte leaves a directory that reads as the same frames |
| WalLog.WriteAheadLog.PurgeBefore | zenith/storage/wal.py:275-287 | for any bound, exactly the segments below it other than the current one are gone, and their number is returned |
| WalLog.DeleteBelow | zenith/storage/wal.py:275-287 | the loop over the directory removes the segments below the bound and never the current one |
| Directories.SortedIds | zenith/storage/wal.py:257-263 | the directory listing in number order |
| FileNames.NamesFollowNumbers | zenith/storage/lsm.py:88-98 | name order is number order up to some number if and only if that is below 10^8 |
| FileNames.ListingByName | zenith/storage/wal.py:91-103 | below 10^8 a listing sorted by name is one sorted by number |
| FileNames.NumberReadsBack | zenith/storage/lsm.py:103-105 | the slice of the name gives the first eight digits, and so the number itself if and only if it is below 10^8 |
| Resp.RoundTrip | zenith/protocol/resp.py:36-183 | parsing the encoding of any reply, whatever bytes follow, returns its value and exactly its length, if and only if no error message inside contains a line break |
| Resp.ParseIsStable | zenith/protocol/resp.py:36-107 | once an element is complete, more bytes change neither value nor length |
| Resp.ParseIsLocal | zenith/protocol/resp.py:36-107 | an element does not depend on the bytes behind it |
| Resp.LineByType | zenith/protocol/resp.py:48-95 | for any line: simple strings and errors are the text behind the type byte, an unreadable integer is 0, an unreadable length or -1 is null |
| Resp.InlineLine | zenith/protocol/resp.py:109-115 | a line without a type byte is taken whole, its first byte included |
| Resp.DictAlternates | zenith/protocol/resp.py:173-179 | a dict is sent as its keys and values in turn |
| Resp.EncodeArray | zenith/protocol/resp.py:151-158 | the buffer holds the header and every item's encoding |
| RespStream.RESPParser.Feed | zenith/protocol/resp.py:18-20 | received bytes go behind the buffer |
| RespStream.RESPParser.ParseFrom | zenith/protocol/resp.py:36-107 | at any offset, negative ones counted from the end, with any number of nested calls left: value and consumed count, or the exception, of the bounded parser; the element of the wire format when no array inside declares a length below -1 and the calls suffice |
| RespStream.RESPParser.ParseElements | zenith/protocol/resp.py:95-104 | the loop parses the elements of an array from wherever the cursor stands |
| RespStream.RESPParser.GetNext | zenith/protocol/resp.py:22-34 | one message is taken off the front of the buffer, or nothing changes; an exception leaves the buffer |
| RespStream.RESPParser.Drain | zenith/server/tcp.py:64-71 | for any buffer: all complete messages up to the first None, the rest of the buffer, and whether the parser raised |
| RespStream.HandleClient | zenith/server/tcp.py:52-71 | for any stream in any pieces: the commands, the leftover, and whether an exception ended it; on a stream without a length below -1 and without a null that hides a message these are the commands and the leftover of the whole stream, however it was cut |
| RespStream.CutIndependence | zenith/server/tcp.py:57-71 | every way of cutting a stream gives the same messages and the same leftover, if and only if no top-level null is followed by another complete message |
| RespStream.RegularServesForward | zenith/server/tcp.py:57-71 | however a stream without lengths below -1 is cut, no drain meets one |
| RespStream.ServedWithinForward | zenith/server/tcp.py:57-71 | without such a length inside an array a limit on nested calls above the stream's length never shows |
| RespStream.ServedIsDrained | zenith/server/tcp.py:57-71 | serving pieces is draining their concatenation |
| RespStream.DrainInTwoSteps | zenith/server/tcp.py:64-71 | draining early and then again is draining late |
| RespStream.NegativeBulkStability | zenith/protocol/resp.py:65-86 | a declared length below -1 is read the same way whatever follows, if and only if header length plus declared length is not -1 |
| RespStream.NegativeBulkDependsOnThePacket | zenith/protocol/resp.py:65-86 | five bytes whose payload depends on how many bytes have arrived |
| RespStream.DescendReports | zenith/protocol/resp.py:36-107 | without a length below -1 inside an array, as many nested calls as bytes left suffice, and the bounded parser reports the same |
| RespStream.DepthDecides | zenith/protocol/resp.py:36-107 | from any offset: with one nested call more than the buffer has bytes the answer is final; if that does not suffice, no number of calls does |
| RespStream.DeeperAgrees | zenith/protocol/resp.py:95-104 | an answer that needed no more calls is the answer at every greater limit |
| RespStream.OffsetFromTheEnd | zenith/protocol/resp.py:36-107 | a negative offset parses what lies that far from the end, and the consumed count comes out greater by the length of the buffer |
| RespStream.CursorReturnsForEver | zenith/protocol/resp.py:73-105 | an array whose first element moves the cursor back to the array is not parsed with any number of nested calls |
| RespStream.ArrayThatNeverReturns | zenith/protocol/resp.py:73-105 | a ten-byte stream of that kind |
| TreeStore.Put | zenith/storage/lsm.py:122-128 | a put of the tree is the write of the store unless its frame cannot be logged, also when a flush raises behind it; a map update if and only if the value is not the tombstone constant |
| TreeStore.Delete | zenith/storage/lsm.py:130-136 | a delete of the tree removes the key from the map unless its frame cannot be logged |
| TreeStore.Get | zenith/storage/lsm.py:138-161 | a lookup in the tree is a lookup in the map |
| TreeStore.Scan | zenith/storage/lsm.py:256-290 | a scan of the tree lists the map's pairs at or above the start key, ascending, none missing |
| TreeStore.ScanPrefix | zenith/engine/kv.py:214-216 | the engines' scan loop over the tree returns exactly the pairs that carry the prefix |
| TreeStore.ListingIsScan | zenith/storage/lsm.py:286-290 | a sorted listing of the restricted map is that list of pairs |
| Store.KeyStore.Scan | zenith/storage/lsm.py:256-290 | the pairs at or above the start key, ascending, none missing |
| Store.KeyStore.ScanPrefix | zenith/engine/kv.py:214-216 | the loop from the prefix to the first key without it returns exactly the pairs that carry it |
| Store.PrefixLoopIsComplete | zenith/engine/kv.py:214-216 | keys with a common prefix are contiguous, so stopping at the first other key misses none |
| ByteStrings.PrefixIsContiguous | zenith/engine/kv.py:214-216 | past a prefix, all keys that carry it come before all keys that do not |
| ByteStrings.LessAtFirstDifference | zenith/storage/lsm.py:286 | byte order: at the first difference the key that ends there or has the smaller byte comes first |
| KvKeys.CellIsInjective | zenith/engine/kv.py:276 | a list cell belongs to one key and one index, even when keys contain colons |
| KvKeys.KindsDiffer | zenith/engine/kv.py:22-26 | cells, list metadata, types and expiries never share a name |
| KvLists.MetaReadsBack | zenith/engine/kv.py:253-268 | head and tail are read back from the metadata text, negative numbers included |
| KvLists.UnreadableMeta | zenith/engine/kv.py:253-263 | metadata that is not two numbers around a colon reads as an empty list |
| KvLists.MetaCompletes | zenith/engine/kv.py:265-268 | with the cells in place, writing head and tail makes the key hold the list |
| KvLists.PresentOfSlots | zenith/engine/kv.py:275-277 | stored elements read back as they are if and only if none is the tombstone constant |
| KvLists.OtherListsStay | zenith/engine/kv.py:270-406 | an operation that writes only the cells a key owns leaves every other key's list unchanged |
| KvLists.BetweenIsSlice | zenith/engine/kv.py:328-345 | clamping both ends selects exactly the elements whose positions lie between them |
| KvEngine.KeyValueEngine.LPush | zenith/engine/kv.py:270-279 | the values end up in front, last one first, behind them the list unless it fell due; returns the new length |
| KvEngine.KeyValueEngine.RPush | zenith/engine/kv.py:281-290 | the values end up at the end in order, of the list or, if it fell due, of none; returns the new length |
| KvEngine.KeyValueEngine.LPop | zenith/engine/kv.py:292-304 | removes and returns the first element, which reads as None when it is empty text or a hole |
| KvEngine.KeyValueEngine.RPop | zenith/engine/kv.py:306-318 | the same for the last element |
| KvEngine.KeyValueEngine.LRange | zenith/engine/kv.py:320-345 | the elements present whose positions lie between the ends, negative ones counted from the end |
| KvEngine.KeyValueEngine.LIndex | zenith/engine/kv.py:354-357 | the element at the position or None |
| KvEngine.KeyValueEngine.LLen | zenith/engine/kv.py:347-352 | the length, holes included |
| KvEngine.KeyValueEngine.LSet | zenith/engine/kv.py:359-373 | replaces the element, or changes nothing exactly when the position is outside |
| KvEngine.KeyValueEngine.LTrim | zenith/engine/kv.py:375-406 | keeps the elements between the ends, and purges the key when none is left; false exactly when the key fell due |
| KvRuns.Run | zenith/engine/kv.py:180-637 | over any run of list, hash, set, sorted-set and key commands on separate keys, with deadlines passing wherever they may and keys coming back with another type once they are gone, every reply is the plain collection's reply, and at the end every key holds its collection and nothing of the other kinds it was used with |
| KvRuns.Execute | zenith/engine/kv.py:180-637 | one command does to the key what it does to the collection, touches only what the key owns, and meets an expiry only where the key has a deadline |
| KvRuns.StepRefines | zenith/engine/kv.py:180-637 | one command keeps every separate key's collection, and every key bare of its other kinds |
| KvRuns.NoDeadline | zenith/engine/kv.py:32-43 | where no deadline is ever set no key falls due, so replies follow from the commands alone |
| KvRuns.OneKindEach | zenith/engine/kv.py:180-637 | a run that uses each key with one type always meets keys of that type or of none |
| KvRuns.NoColonSeparate | zenith/engine/kv.py:183 | keys without colons are separate, whatever they are used for |
| KvRuns.TypeMayChange | zenith/engine/kv.py:180-624 | a hash under a key, a delete, and a list under the same key make a run that the claim covers |
| KvTyped.TakenUp | zenith/engine/kv.py:45-79 | a key without a type has no cell of any kind it is used with, so it can be taken up as any of them |
| KvTyped.BareStays | zenith/engine/kv.py:22-26 | commands of one kind write no cell of another kind, of their own key or another |
| KvTyped.OthersStay | zenith/engine/kv.py:180-637 | whatever a command on one key touches, every other key keeps its collection, type and deadline |
| KvTyped.PurgedValue | zenith/engine/kv.py:45-79 | a purge leaves nothing of the key, of any type, and touches nothing else |
| KvTyped.DataNotOwned | zenith/engine/kv.py:22-26 | a cell of one key's collection is never among another key's cells |
| KvEngine.KeyValueEngine.PurgeKey | zenith/engine/kv.py:45-79 | exactly the cells of the key under its type, its type and its expiry are gone |
| KvEngine.KeyValueEngine.IsExpired | zenith/engine/kv.py:32-43 | either nothing changes, or the key had an expiry and is purged |
| KvEngine.KeyValueEngine.DeleteKey | zenith/engine/kv.py:616-624 | purges the key exactly when it has a type |
| KvEngine.KeyValueEngine.Persist | zenith/engine/kv.py:591-597 | lifts the deadline and tells whether there was one |
| KvPurge.PurgedList | zenith/engine/kv.py:45-66 | purging a list key leaves the empty list, no cell behind, and every other key alone |
| KvPurge.PurgedFields | zenith/engine/kv.py:58-79 | purging a hash, set or sorted set leaves none of its cells |
| KvEngine.KeyValueEngine.Keys | zenith/engine/kv.py:626-637 | every returned name is live, no live name that matches is missed, names ascend, and only expired keys are purged on the way |
| KvEngine.KeyValueEngine.HSet | zenith/engine/kv.py:180-189 | the hash gains the field, or loses it when the value is the tombstone constant; returns whether it is new; nothing outside the key's cells changes |
| KvEngine.KeyValueEngine.HGet | zenith/engine/kv.py:191-197 | the field's value or None |
| KvEngine.KeyValueEngine.HDel | zenith/engine/kv.py:199-207 | the fields are gone and the number of those that existed is returned |
| KvEngine.KeyValueEngine.HGetAll | zenith/engine/kv.py:209-220 | exactly the fields of the hash |
| KvEngine.KeyValueEngine.Collect | zenith/engine/kv.py:213-220 | the scan loop collects exactly the cells under the prefix |
| KvEngine.KeyValueEngine.SAdd | zenith/engine/kv.py:410-420 | the set gains the members; returns how many are new |
| KvEngine.KeyValueEngine.SRem | zenith/engine/kv.py:422-430 | the members are gone; returns how many existed |
| KvEngine.KeyValueEngine.SMembers | zenith/engine/kv.py:432-443 | exactly the members |
| KvEngine.KeyValueEngine.SIsMember | zenith/engine/kv.py:445-450 | membership |
| KvEngine.KeyValueEngine.ZAdd | zenith/engine/kv.py:483-493 | the scores, as they read back, are merged into the sorted set; returns how many members are new |
| KvEngine.KeyValueEngine.ZRem | zenith/engine/kv.py:495-503 | the members are gone; returns how many existed |
| KvEngine.KeyValueEngine.ZScore | zenith/engine/kv.py:505-511 | the member's score or None |
| KvEngine.KeyValueEngine.ZIncrBy | zenith/engine/kv.py:513-518 | the score grows by the amount, from zero for a new member; a key that falls due between the read and the write is purged, and its old score still counts |
| KvEngine.KeyValueEngine.ZRange | zenith/engine/kv.py:528-558 | the members between the ends of the listing by ascending score, equal scores by ascending name |
| KvEngine.KeyValueEngine.ZRank | zenith/engine/kv.py:520-526 | how many members have a smaller score, or the same score and a smaller name; None for no member |
| KvSorted.RankCounts | zenith/engine/kv.py:520-526 | in the sorted listing the position of a member is the number of smaller pairs |
| KvSorted.RankIsSmaller | zenith/engine/kv.py:520-526 | that number is the rank, written out over scores and names |
| KvSorted.RankIsMonotone | zenith/engine/kv.py:520-558 | a member has a smaller score, or the same and a smaller name, exactly when its rank is smaller |
| KvSorted.Sort | zenith/engine/kv.py:543 | the items by ascending score, equal scores by ascending name |
| KvFields.SharedCells | zenith/engine/kv.py:183 | two keys' collections share a cell if and only if one key with a colon begins the other with a colon |
| KvFields.NoColonApart | zenith/engine/kv.py:183 | different keys without colons never share one |
| KvPurge.ApartUntouched | zenith/engine/kv.py:180-503 | a write to one collection leaves the collections of keys apart from it unchanged |
| KvPurge.ListUntouched | zenith/engine/kv.py:180-503 | a write to a hash, set or sorted set leaves every other key's list unchanged |
| FullText.FullTextIndex.IndexDocument | zenith/engine/text.py:196-226 | the document is replaced, or removed when its text has no token; postings and totals agree with the stored documents afterwards |
| FullText.FullTextIndex.DeleteDocument | zenith/engine/text.py:228-253 | the document with all its postings is gone and the totals agree again |
| FullText.NothingIndexed | zenith/engine/text.py:181-188 | an empty store is the index of no documents, with totals of zero |
| FullText.ClampsNeverFire | zenith/engine/text.py:246-249 | removing a stored document never takes a total below zero, and leaves the totals of the others |
| FullText.FullyPosted | zenith/engine/text.py:211-226 | with its postings written and the totals raised, exactly the new set of documents is indexed |
| FullText.Unposted | zenith/engine/text.py:236-249 | with its postings removed and the totals lowered, exactly the other documents are indexed |
| FullText.FullTextIndex.PutPostings | zenith/engine/text.py:219-221 | the loop gives every term of the text its exact count and touches nothing but postings |
| FullText.FullTextIndex.Tally | zenith/engine/text.py:207 | each token with its number of occurrences |
| FullText.PostIsInjective | zenith/engine/text.py:220 | a posting belongs to one term and one document |
| FullText.SumWithout | zenith/engine/text.py:248 | the total length does not depend on the order of documents |
| FullTextSearch.Search | zenith/engine/text.py:255-333 | exactly the documents that contain a term of the query, each once, with the BM25 sum computed from the stored texts, by descending score, cut at the limit, none left out that scores higher than one returned; all scores lie strictly between zero and the bound |
| FullTextSearch.Candidates | zenith/engine/text.py:276-288 | the table of candidates holds every positive count, and each term's document frequency is the number of stored documents that contain it |
| FullTextSearch.PostingScan | zenith/engine/text.py:278-287 | a scan finds each stored document with the term once, with its count |
| FullTextSearch.ScoreOne | zenith/engine/text.py:291-310 | a candidate always has a stored document, so none is skipped |
| FullTextSearch.ScoreCandidate | zenith/engine/text.py:299-308 | the loop over the query terms computes the score, and no denominator is zero |
| FullTextSearch.ScoreIsOkapi | zenith/engine/text.py:299-308 | a score is the sum over the query terms of ln(1 + (N - n + 0.5)/(n + 0.5)) * tf(k1 + 1)/(tf + k1(1 - b + b length/average)), with N, n, tf, length and average counted in the stored texts |
| FullTextSearch.MatchIsBounded | zenith/engine/text.py:299-308 | in every reachable index a matching document scores above zero and below k1 + 1 times the summed idf of the query |
| FullTextSearch.AverageIsAtLeastOne | zenith/engine/text.py:271 | the average length is at least one |
| FullTextSearch.FrequencyIsAtMostDocs | zenith/engine/text.py:288 | a document frequency is at most the number of documents |
| Bm25.ScoreIsBounded | zenith/engine/text.py:299-308 | over the reals with k1 > 0 and 0 <= b <= 1, any score is non-negative, positive when a term occurs, and below the bound |
| Bm25.WeightIsBounded | zenith/engine/text.py:305-307 | the weight of a term saturates below k1 + 1 |
| Bm25.RarerCountsMore | zenith/engine/text.py:304 | with an increasing logarithm, of two terms that occur equally often the one in fewer documents counts more |
| Bm25.OftenCountsMore | zenith/engine/text.py:305-307 | the more often a term occurs the more it counts |
| Bm25.LongerCountsLess | zenith/engine/text.py:305-307 | with b above zero the same count in a longer document counts less |
| Documents.GetNestedField | zenith/engine/doc.py:11-28 | follows the dotted path through dicts and, with Python's negative positions, lists; never returns null |
| Documents.NestedOfJoin | zenith/engine/doc.py:11-28 | a path can be followed in two stages, split at any dot |
| Documents.SplitOfJoin | zenith/engine/doc.py:13 | a joined path splits into the parts of both paths |
| Documents.FieldOfDict | zenith/engine/doc.py:16-17 | a token finds the value of that name in a dict, a null counting as missing |
| Documents.ItemOfList | zenith/engine/doc.py:18-25 | a number finds that position of a list, from the end if negative; other tokens find nothing, and nothing is found in a scalar |
| DocStore.DocumentStore.Insert | zenith/engine/doc.py:49-69 | the stored document has the given id under "_id" and every other field as given; index entries are again exactly those the stored documents call for |
| DocStore.DocumentStore.Update | zenith/engine/doc.py:81-90 | every field but "_id" has the value of the patch where it has one, else the old value; nothing changes for a missing document |
| DocStore.DocumentStore.Delete | zenith/engine/doc.py:92-100 | document and entries are gone |
| DocStore.DocumentStore.Get | zenith/engine/doc.py:71-79 | the stored document or None |
| DocStore.DocumentStore.CreateIndex | zenith/engine/doc.py:102-114 | exactly one indexed field is added; index entries agree with the stored documents afterwards if and only if no document past the first million needs an entry |
| DocStore.SmallCollection | zenith/engine/doc.py:109 | a collection of at most a million documents is always within that limit |
| DocStore.DocumentStore.Query | zenith/engine/doc.py:172-212 | of the documents that pass the filter function, by ascending id, those from position offset on, at most limit of them; negative ends count as in a Python slice |
| DocStore.DocumentStore.IndexDoc | zenith/engine/doc.py:116-123 | the loop over the indexed fields adds exactly the document's entries |
| DocStore.DocumentStore.UnindexDoc | zenith/engine/doc.py:125-132 | the loop removes exactly the document's entries |
| DocIndex.IdxIsInjective | zenith/engine/doc.py:43-47 | an index entry names one collection, field, value text and document, even when the text contains colons |
| DocIndex.EntriesAreWanted | zenith/engine/doc.py:116-132 | where index and documents agree there is an entry for a text exactly if the field is indexed and a stored document has that text there |
| DocIndex.NothingStored | zenith/engine/doc.py:34-41 | in an empty store index and documents agree |
| DocIndex.CreatedAgrees | zenith/engine/doc.py:108-114 | a new index is complete exactly when it reached every document that has the field |
| DocIndex.PositionIsRank | zenith/engine/doc.py:109 | the position of a document in the listing is the number of smaller ids |
| VectorIndex.VectorIndex.Insert | zenith/engine/vector.py:63-83 | stores the vector, or removes it when it packs to the tombstone constant, or fails exactly on a wrong dimension; empty metadata leaves the stored one; updating a stored id keeps the clusters complete |
| VectorIndex.VectorIndex.Get | zenith/engine/vector.py:85-99 | vector and metadata, or None |
| VectorIndex.VectorIndex.Delete | zenith/engine/vector.py:101-107 | vector and metadata are gone, and the clusters stay complete |
| VectorIndex.VectorIndex.Train | zenith/engine/vector.py:109-157 | the centroids are the sample after the iterations, each cluster holds exactly the ids nearest to its centroid, and every stored id is clustered |
| VectorIndex.TrainingPartitions | zenith/engine/vector.py:151-157 | after training every stored id lies once in the cluster of its nearest centroid, in no other, and no other id lies in any |
| VectorIndex.Refine | zenith/engine/vector.py:132-147 | one iteration: all vectors are assigned to the old centroids, then every non-empty cluster's centroid moves to its mean |
| VectorIndex.Assign | zenith/engine/vector.py:150-157 | every id joins the cluster of its nearest centroid |
| Vectors.Nearest | zenith/engine/vector.py:137-140 | the first index with the greatest cosine |
| Vectors.ClustersPartition | zenith/engine/vector.py:150-157 | each listed id lies once in the cluster of its nearest centroid and in no other |
| Vectors.CosineIsBounded | zenith/engine/vector.py:26-32 | a cosine lies between -1 and 1, and times both norms it is the dot product, with an exact square root |
| Vectors.DotIsBounded | zenith/engine/vector.py:16-18 | the inequality of Cauchy and Schwarz |
| Vectors.DotIsLinear | zenith/engine/vector.py:16-18 | the dot product is linear, and with a unit vector it is the coordinate |
| Vectors.DistanceIsMetric | zenith/engine/vector.py:35-37 | the squared distance is the one that dot products give, and the distance is zero between equal vectors only |
| Vectors.MetricsAreSymmetric | zenith/engine/vector.py:16-37 | every metric is symmetric |
| Vectors.NoneIsNearer | zenith/engine/vector.py:26-37 | nothing is nearer to a vector than itself: its cosine is 1, its distance 0 |
| Vectors.MeanIsCentre | zenith/engine/vector.py:144-147 | a moved centroid times the number of its points is their sum, and in every coordinate no other centre leaves a smaller sum of squared differences |
| VectorIndex.VectorIndex.Search | zenith/engine/vector.py:159-229 | exactly the stored vectors of its pool whose metadata agrees with every filter entry, each with its score, cut at top_k: for cosine and dot product scores do not increase and nothing left out has a greater one, for Euclidean distance they do not decrease and nothing left out has a smaller one; raises exactly when a candidate meets an unknown metric |
| VectorIndex.VectorIndex.Probe | zenith/engine/vector.py:176-184 | the pool is the union of the clusters of the nearest centroids, those of greatest cosine |
| VectorIndex.ProbeAllOrScan | zenith/engine/vector.py:176-217 | probing all clusters ranks the same candidates as the exact scan if and only if every candidate is clustered, and then the first k scores agree for every k |
| VectorCells.NothingStored | zenith/engine/vector.py:45-56 | an empty store holds no vectors |
| VectorCells.FullPool | zenith/engine/vector.py:176-184 | probing all clusters reaches exactly the clustered ids |
| VectorCells.RankedIsFound | zenith/engine/vector.py:186-217 | the ranked candidates are those vectors, with the score of the metric asked for |
| Ranking.SameScores | zenith/engine/vector.py:219-229 | two rankings of the same results carry the same scores, so their first k scores agree however ties were broken |
| Ranking.SortByScore | zenith/engine/vector.py:219-220 | the results by descending score when reversed, else by ascending score |
| Ranking.CutKeepsBest | zenith/engine/vector.py:219-229 | along the cut list scores fall, or rise, and nothing cut off is better |
| Numerals.ReadIntOfIntText | zenith/engine/kv.py:253-268 | reading the decimal text of any integer gives the integer |
| Numerals.CanonicalText | zenith/engine/kv.py:265-268 | the text of a number starts with a minus exactly if it is negative, and with a zero only if it is zero |
| Numerals.Blanks | zenith/protocol/resp.py:57-61 | the blanks that int() strips |
| Numerals.ReadIntOfSigned | zenith/protocol/resp.py:57-61 | blanks around a number and a sign before it are read as int() reads them |
| Numerals.DigitsOnly | zenith/protocol/resp.py:57-61 | a text of digits is read exactly if it starts and ends with a digit and holds nothing but digits and single underscores |
| ByteStrings.UnpackPack | zenith/storage/sstable.py:60 | unpacking a packed number gives it back exactly when it fits its field |

## Left out

- RespStream.RESPParser.ParseFrom: the limit on nested calls is a parameter, since it depends on the stack below the parser; the inline command fallback is one opaque value without its split into words, and `int` accepts ASCII digits only.
- SsTable.SSTableWriter.WriteEntry: says nothing about the writer after a failed call, which its caller abandons together with the temporary file.
- Store.KeyStore.Put: the engines run on this map with typed cells; TreeStore proves that the LSM tree meets the same contracts on bytes, but a put that raises is not carried into the engines.
- LsmTree.LSMTree.LoadTables: files are known by their numbers; names that carry no number, which the source skips, are not modelled, and from 10^8 on the source's listing by name differs (FileNames.NamesFollowNumbers).
- KvRuns.Run: commands on a key that has another type at that moment, and two hashes, sets or sorted sets whose cells are shared, are excluded; string commands are not part of the runs.
- KvEngine.KeyValueEngine.ZRange: the text of a score is a function of the number, and the ValueError of a score cell written by other means is not modelled.
- FullText.FullTextIndex.IndexDocument: document metadata, the ordering of ties and the rounding of scores in results are not modelled.
- DocStore.DocumentStore.Query: sorting and the filter operators are not modelled; the filter is any function of the document.
- DocStore.DocumentStore.CreateIndex: the in-memory list of indexed fields is lost on reopening, so agreement is a claim about one lifetime of the store.
- VectorIndex.VectorIndex.constructor: a reopened index over stored vectors must be given their dimension; without it the first insert fixes a new one.
- VectorIndex.VectorIndex.Train: nothing is said about how good the centroids are.
- String commands (`set`, `get`, `incrby`, `append`) and set algebra: thin layers over one cell or one member set.
- TTL arithmetic, `ttl` and the expiry heap: the clock is arbitrary here, and a deadline is its text.
- `zenith/engine/txn.py`: replay ignores transaction markers and reads go to the live tree, so atomicity and isolation are not kept by the code; only write-buffer facts would remain.
- The bundled single file, HTTP server, dashboard, command line, terminal, benchmark and command dispatch: I/O and plumbing.
- fsync, the "every_sec" mode, OS caching, failed removals and threads: appends are durable in order, removals succeed, and one lock makes operations atomic.
- JSON and UTF-8 codecs, regular expressions, stemming, Unicode normalisation, snippets and `fnmatch`: parameters or identities.
- Floating-point rounding, the Bloom filter's false-positive rate and the sizes computed from it: reals and parameters.
- Keys reused with another type without a delete between: the code does not separate these cases.
