# Hyperion tools: a model of the readers, codecs and scans, with proofs

The repository reads the append-only history a node leaves on disk: state-history logs and block logs,
which forks can leave with orphaned entries; serves and indexes what they hold; and speaks the
state-history protocol. This project models the strict reading side over byte sequences and state
machines, and proves what it is for.

- `Bytes`, `Varuint`, `Parsing`, `Search`: integers on the wire, counted lists, binary search.
- `ShipLog`, `ForkIndex`, `ForkHistory`, `LogWalk`, `ThreadSplit`: the state-history log under every
  history of appends and forks. The writer is a sequence of steps; the files are what it leaves; the
  index lookup, the sequential walk and the walk split over threads all agree on the surviving entries.
- `AcceptedLogs`, `AcceptedBlocks`: the other direction, that the strict readers accept nothing else.
- `Inflate`: the chunked inflater as an object over a decoder known only by its contract, which bounds
  what each call may consume, produce and report.
- `StoredBlocks`, `StoredEntries`, `StoredLarge`: a decoder for stored blocks (section 3.2.4 of RFC 1951)
  that works on the bytes it is given and meets that contract on all of them, and the log read and measured
  through it end to end.
- `DiskScan`, `DiskCheckpoint`, `DiskClaims`, `DiskResume`: workers, a shared 64-bit cursor and watermark that
  wrap, crashes and resumes as a step relation over whole histories of runs; when the checkpoint can fall; what
  the workers are handed; that an interrupted scan resumes and can always complete.
- `WireHistory`, `WireLaws`, `WireRecords`, `WireCatalog`: the Wire ABI scan, exactly what it accepts and
  records, and the catalog loaded from its records, against the ABI obtained by folding the chain.
- `LogCatalog`, `LargeEntries`: assembling files into one gap-free range, and listing the entries of a
  catalog that inflate to more than a threshold.
- `Trace`, `TraceLayout`, `TraceBounds`, `TraceCursor`: the trace walkers as functions, the layout they
  invert, the ranges they may report, and the cursor programs that compute them.
- `FcReaders`, `Protocol`, `ResultCodec`, `Names`, `Timestamp`, `TimestampText`: requests, results, names, dates
  and their text.
- `BlockHeaders`, `BlockLog`, `BlockLogWriter`: the block log, its header decoding and its layout.
- `FileCache`: the least-recently-used cache at the granularity of its lock.
- `TypeNames`, `Abis`, `Pruning`, `WireDecoding`: base types, ABI pruning by reachability, and the
  decoder that caches pruned ABIs.
- `Archive`, `ActionLookup`, `ActionBatch`, `WrittenLookup`: the archive server's block cache, single lookup and
  batch lookup, and their answers told from the transactions serialized.
- `Receipts`: grouping the receipts of a transaction into documents.

Files are byte sequences. Failure is `None`; error texts are not modelled. SHA-256 is a function
parameter. Clocks, deadlines and open failures are steps or parameters. Fixed-width arithmetic wraps or
saturates as it does in a release build.

## What does not hold as promised

Each has a concrete instance and an exact condition in the model.

- The inflating type documents that an error poisons the stream. After an error `next_chunk` still returns
  `Ok(true)` without bytes if and only if the error was an overrun of the declared size, or the call asks
  for no bytes while the output does not stand at that size (`Inflate.InflateStream.NextChunk`;
  `Inflate.OverlongIsNotPoisoned` and `Inflate.EmptyCallIsNotRefused` give the instances).
- The thread split gives every block to exactly one worker if and only if no worker start saturates at the
  largest block number (`ThreadSplit.ClampedSplitIsExact`; `ThreadSplit.SplitRepeatsLastBlock` gives the
  instance). The arithmetic alone would also fail on a range of all 2^32 numbers, but the clamps before it
  never produce that range (`ThreadSplit.ClampedIsNotAll`).
- `scan_disk` hands out a chunk twice, or one below its range, in some interleaving if and only if an
  overshooting claim wraps back to a value at or below the end; that takes a chunk size of about 2^64 divided
  by the thread count, or more (`DiskClaims.NoChunkRepeats`, `DiskClaims.RepeatsOtherwise`).
- Its checkpoint falls in some interleaving if and only if the start plus one chunk reaches 2^64
  (`DiskCheckpoint.CheckpointNeverFalls`, `DiskCheckpoint.CheckpointFallsOtherwise`). That every block below
  the checkpoint was scanned holds for every chunk size.
- Two spellings of one account name share a catalog entry. The catalog answers with the chain's ABI where no
  row spells the account differently (`WireCatalog.SelectMatchesChain`), and for every other spelling there is
  a history the scan completes in which it answers with the wrong one (`WireCatalog.SpellingsShareAnEntry`).
  Such a history needs a decoder that renders trailing dots, or a catalog file the scan did not write: names
  rendered canonically have one spelling each (`WireCatalog.CanonicalNamesHaveOneSpelling`).
- `build_get_blocks_request` asks for one block less if and only if the last block is 2^32 - 1
  (`Protocol.ClientRequestIsUnderstood`).
- `string_to_name` refuses the rendering of 0, and trailing dots are lost (`Names.EncodeOfRendered`,
  `Names.RenderOfEncoded`).
- `read_varuint` refuses lengths from 2^42 on, so `parse_result` gives nothing for such payloads
  (`ResultCodec.ParseInvertsResult`).

## Model

| member | source | states |
|---|---|---|
| `ForkHistory.OpensAfterEveryHistory` | crates/core/src/shiplog.rs:194-263 | after every history of appends and forks, opening the files the writer left succeeds and reports exactly the blocks from the first to the last written |
| `ForkHistory.HeaderIsTheSurvivor` | crates/core/src/shiplog.rs:320-324 | after every history, the header found for a block is its surviving entry, never an orphan, and blocks outside the range have none |
| `ForkHistory.SlotsHoldSurvivors` | crates/core/src/shiplog.rs:5-10 | truncating the index at each fork leaves one slot per block, each the offset of the last entry written for it, in file order |
| `ForkHistory.SurvivorIsOnTheChain` | crates/core/src/shiplog.rs:5-10 | the entry an index slot leads to is one no later fork went back behind |
| `ForkHistory.ReadsEntry` | crates/core/src/shiplog.rs:477-535 | an entry as the writer lays it out, inside any file, is accepted and gives back its id, payload place and end |
| `ForkHistory.TailOfRun` | crates/core/src/shiplog.rs:538-555 | the trailing position of a log leads back to the last entry written, whatever forks came before |
| `AcceptedLogs.ReadHeaderExactly` | crates/core/src/shiplog.rs:477-535 | a header is read at an offset if and only if an entry of that block stands there byte for byte, magic, size, preamble and trailer included |
| `AcceptedLogs.LookupExactly` | crates/core/src/shiplog.rs:320-324 | a lookup succeeds if and only if both files have their length and the slot of the block leads to such an entry |
| `AcceptedLogs.OpenExactly` | crates/core/src/shiplog.rs:194-263 | a log opens if and only if it starts with an entry, ends with one of the same or a later block, and the index has one slot per block and its last slot leads to that entry |
| `ForkIndex.OwnersByBlock` | crates/core/src/shiplog.rs:5-10 | the index holds one owner per block, consecutive in block number and in file order |
| `ForkIndex.OwnersSurvive` | crates/core/src/shiplog.rs:5-10 | every owner is a write that no later write at or below its number replaced |
| `LogWalk.Walk` | crates/action-proto/src/main.rs:971-1006 | the entry loop visits what the recursive walk visits and fails when it fails |
| `LogWalk.OffsetsOfRun` | crates/core/src/disk.rs:70-101 | the canonical offsets of a range are the offsets of its surviving entries, and the stop offset bounds them |
| `LogWalk.OrphanIsSkipped` | crates/action-proto/src/main.rs:971-1006 | an entry between two survivors is never taken for an indexed one |
| `LogWalk.WalkAgreesWithIndex` | crates/action-proto/src/main.rs:971-1006 | after every history, the sequential walk of a range visits exactly the entries the index lookup gives, once each, in block order |
| `LogWalk.CutPayloadIsRefused` | crates/action-proto/src/main.rs:971-1006 | a log cut inside the payload of any entry the walk comes to makes it fail |
| `ThreadSplit.Plan` | crates/action-proto/src/main.rs:1591-1596 | for every range and thread count, none included, the loop over workers produces the saturating chunk plan |
| `ThreadSplit.SplitIsExact` | crates/action-proto/src/main.rs:1591-1596 | the arithmetic of the split, on every pair of bounds: every block goes to exactly one worker if and only if no worker start saturates and the range is not all 2^32 numbers split over several threads |
| `ThreadSplit.SaturatedRepeats` | crates/action-proto/src/main.rs:1591-1596 | when a worker start saturates, two workers hold the last block |
| `ThreadSplit.ClampedIsNotAll` | crates/action-proto/src/main.rs:1502-1525 | whatever is asked for, and whatever the index and the block log hold, the clamped range is not all 2^32 numbers |
| `ThreadSplit.ClampedExactly` | crates/action-proto/src/main.rs:1502-1518 | a block is in the range if and only if it was asked for, the index holds it, and the block log, if there is one, reaches it |
| `ThreadSplit.ClampedSplitIsExact` | crates/action-proto/src/main.rs:1502-1525 | so for every range that arises, every block goes to exactly one worker if and only if no worker start saturates |
| `ThreadSplit.SplitRepeatsLastBlock` | crates/action-proto/src/main.rs:1591-1596 | the smallest instance: a log of the two highest block numbers, read whole by three threads, has its last block read twice |
| `ThreadSplit.AllWorkersReadTheChain` | crates/action-proto/src/main.rs:1523-1525 | over every fork history, all workers together read each block of the range once, in order, as the index gives it |
| `Inflate.EagerIsLawful` | crates/core/src/shiplog.rs:650-696 | the decoder contract can be met for every well-formed stream, so no result over it is vacuous |
| `StoredBlocks.DecoderIsLawful` | crates/core/src/shiplog.rs:650-696 | a decoder that looks only at the bytes given so far meets the contract on every byte sequence, well-formed or not |
| `StoredBlocks.StoreIsReadBack` | crates/core/src/shiplog.rs:650-696 | the stored-block stream of any content, whatever follows it, inflates to that content and ends at its own last byte |
| `StoredEntries.ReadBlock` | crates/core/src/shiplog.rs:320-368 | after every history of appends and forks, the index lookup and the inflater together give back the content last written for a block, if and only if nothing follows its stream, a declared size is right, and it is within the limit |
| `StoredEntries.CutBlockIsRefused` | crates/core/src/shiplog.rs:320-368 | an entry whose stream was cut short is refused |
| `Inflate.InflateStream.Pump` | crates/core/src/shiplog.rs:650-696 | fills the buffer unless the stream ends, appends the stream's own next bytes, fails only on streams that are not acceptable, and ends because unread input plus free room falls |
| `Inflate.InflateStream.Finish` | crates/core/src/shiplog.rs:698-714 | the end is accepted exactly when input and declared size are used up |
| `Inflate.InflateStream.Refill` | crates/core/src/shiplog.rs:650-696 | the window never runs past the payload and is empty only at its end |
| `Inflate.InflateStream.Feed` | crates/core/src/shiplog.rs:650-696 | one decoder call: bytes move from window to output, counts agree, the status is the stream's |
| `Inflate.InflateStream.Step` | crates/core/src/shiplog.rs:650-696 | one round either makes progress, stalls only without room, or fails rightly |
| `Inflate.InflateStream.Inflate` | crates/core/src/shiplog.rs:632-648 | an error poisons the stream; a poisoned stream gives nothing more |
| `Inflate.InflateStream.NextChunk` | crates/core/src/shiplog.rs:610-627 | a call that reports more adds exactly `max` bytes unless the stream has overrun; after an error a call succeeds if and only if the error was an overrun or it asks for no bytes away from the declared size, and then it adds nothing |
| `Inflate.ReadInline` | crates/core/src/shiplog.rs:333-368 | returns the whole output exactly for acceptable entries within the limit |
| `Inflate.VerifyCount` | crates/core/src/shiplog.rs:373-392 | succeeds exactly when reading inline does and returns the length |
| `Inflate.StreamAll` | crates/core/src/shiplog.rs:610-627 | under every schedule of positive chunk sizes the chunks concatenate to the same output, or fail together |
| `Inflate.OverlongIsNotPoisoned` | crates/core/src/shiplog.rs:610-627 | a stream longer than declared is refused once; later calls report success without bytes |
| `Inflate.EmptyCallIsNotRefused` | crates/core/src/shiplog.rs:610-627 | a stream refused for any other reason still reports success to a call for no bytes |
| `DiskScan.AdvanceWatermark` | crates/core/src/disk.rs:414-416 | the loop ends for every chunk size, wrap-around included, at the first value not completed |
| `DiskScan.WatermarkIsSafe` | crates/core/src/disk.rs:414-416 | wherever the watermark moves, every block below it within the range was scanned |
| `DiskCheckpoint.WatermarkIsFirstGap` | crates/core/src/disk.rs:414-416 | where it cannot wrap, the watermark is the first chunk start not completed |
| `DiskScan.StepKeeps` | crates/core/src/disk.rs:349-470 | every step of workers, monitor, crashes and resumes keeps the invariant, for every chunk size |
| `DiskScan.CheckpointIsSafe` | crates/core/src/disk.rs:480-488 | in every history of runs, of every chunk size, each block below the checkpoint lies in a chunk scanned successfully |
| `DiskCheckpoint.CheckpointNeverFalls` | crates/core/src/disk.rs:418-430 | no step moves the checkpoint back, where the start plus one chunk stays below 2^64 |
| `DiskCheckpoint.CheckpointFallsOtherwise` | crates/core/src/disk.rs:418-430 | where it does not, every such run can be driven to a state whose next store lowers the checkpoint: the condition is exact |
| `DiskCheckpoint.MonitorStoresTheGap` | crates/core/src/disk.rs:414-430 | in a run that cannot wrap, the monitor stores the first chunk start not completed, or the block past the end |
| `DiskClaims.ClaimsPartitionTheRange` | crates/core/src/disk.rs:443-470 | in every history, where no overshooting claim wraps back into the range: the k-th chunk handed out starts at start + k * chunk; the chunks are disjoint and together are exactly the blocks the cursor passed; each is completed, failed or with one worker, and only one of these |
| `DiskScan.CleanRunCompletes` | crates/core/src/disk.rs:480-488 | a run without failures stores end + 1 and has scanned everything, for every chunk size |
| `DiskScan.RerunIsNoOp` | crates/core/src/disk.rs:349-353 | the same command, or one for an earlier end, then changes nothing |
| `DiskResume.NothingToDo` | crates/core/src/disk.rs:349-353 | the command does nothing only if every block it asks for has been scanned |
| `DiskResume.ResumesWhereItStopped` | crates/core/src/disk.rs:349-360 | otherwise it starts at the checkpoint, or at its own start before any, and every block below has been scanned |
| `DiskResume.EveryRunCanComplete` | crates/core/src/disk.rs:443-488 | every run started, of every chunk size and thread count, can go on to store end + 1 with every block up to the end scanned |
| `DiskResume.EveryHistoryCanComplete` | crates/core/src/disk.rs:349-488 | so from every point of every history a crash and one more run can complete the scan |
| `DiskClaims.NoChunkRepeats` | crates/core/src/disk.rs:443-470 | where no overshooting claim wraps back into the range, nothing handed out is below it or was handed out before, failed chunks included |
| `DiskClaims.RepeatsOtherwise` | crates/core/src/disk.rs:443-470 | where one does, some interleaving hands a worker a chunk outside the range or one handed out before: the condition is exact |
| `DiskClaims.OrdinaryRunsFit` | crates/core/src/disk.rs:445-450 | the condition holds whenever end plus one chunk per worker and one more stays below 2^64 |
| `DiskClaims.HugeChunkDoesNotFit` | crates/core/src/disk.rs:445-450 | with the largest chunk size the second claim is handed block 1 of a range that starts at 2 |
| `WireHistory.TakeAction` | crates/core/src/wire_history.rs:438-463 | a receipt passes exactly when its sequence increases and its ABI revision is the number of earlier deployments; a deployment is recorded |
| `WireHistory.TakeActions` | crates/core/src/wire_history.rs:437-463 | the receipt loop of a block keeps revisions, last sequence, changes and records in step with the receipts so far |
| `WireHistory.CheckRow` | crates/core/src/wire_history.rs:470-493 | an account row passes exactly when the deployments or the earlier state explain it, and is recorded exactly when it differs |
| `WireHistory.TakeRows` | crates/core/src/wire_history.rs:464-495 | the row loop keeps the current states in step with the rows so far |
| `WireHistory.OrderActions` | crates/core/src/wire_history.rs:320-325 | the receipts of a block are put in order, or refused when two share a sequence |
| `WireHistory.SortActionsSorts` | crates/core/src/wire_history.rs:320-325 | ordering neither loses nor repeats a receipt |
| `WireHistory.SortAscends` | crates/core/src/wire_history.rs:320-325 | ordered receipts strictly increase if and only if no two of the block share a sequence |
| `WireHistory.ScanBlock` | crates/core/src/wire_history.rs:421-504 | one block passes exactly when all its receipts, rows and deployments are consistent with the history before it |
| `WireHistory.ReceiptsAreOrderedAndCounted` | crates/core/src/wire_history.rs:438-463 | the running checks on the ordered receipts pass if and only if, in the raw blocks, all sequences are distinct, those of an earlier block are smaller, and each primary receipt that is not a setabi carries the number of deployments to its account with a smaller sequence anywhere |
| `WireHistory.Scan` | crates/core/src/wire_history.rs:415-516 | the scan completes exactly on histories that are sound, as stated on the unordered blocks, and writes exactly their records |
| `WireLaws.NextBlockExactly` | crates/core/src/wire_history.rs:421-504 | the scan goes on over one more block if and only if its receipts fit, no account has two rows, and for every account a deployment shows in the state after it, and without one the state stays, the account goes, or it is first seen without an ABI |
| `WireLaws.QuietBlockExactly` | crates/core/src/wire_history.rs:470-484 | a row without a deployment is refused if and only if it is present, differs from the state before, and the account was known or the new ABI is not empty |
| `WireLaws.RepeatedRowsAreAccepted` | crates/core/src/wire_history.rs:464-495 | a further block whose rows repeat the known states is accepted and adds no record |
| `WireLaws.LastDeployedIsLatest` | crates/core/src/wire_history.rs:444-456 | the deployment that counts in a block is the one with the highest sequence |
| `WireLaws.FinalsAreTheChanges` | crates/core/src/wire_history.rs:485-494 | the block-final records are exactly the changes of state, first sights without an ABI left out, each with the number of deployments so far |
| `WireLaws.DeploymentsAreRecorded` | crates/core/src/wire_history.rs:444-456 | the deployment records are exactly the deployments, each with its number |
| `WireRecords.HistoryMatchesChain` | crates/core/src/wire_history.rs:464-495 | the last block-final record at or before a block gives the ABI obtained by folding all account deltas through it |
| `WireRecords.NewAbiWasDeployed` | crates/core/src/wire_history.rs:470-484 | after block 1 a new non-empty ABI comes only with a last deployment of exactly those bytes |
| `WireCatalog.Load` | crates/delta-proto/src/wire.rs:116-206 | loading succeeds exactly when every account name encodes, and the catalog then selects the latest record of each account and block |
| `WireCatalog.SelectEntry` | crates/delta-proto/src/wire.rs:209-217 | binary search finds what a linear search would |
| `WireCatalog.SelectMatchesChain` | crates/delta-proto/src/wire.rs:209-217 | for an account no row spells differently, the catalog of a completed scan finds an ABI exactly when the chain gave the account a non-empty one, and then that one |
| `WireCatalog.ScanLoadSelect` | crates/delta-proto/src/wire.rs:116-217 | scan, load and select composed succeed exactly on sound histories whose names encode, and answer with the chain's ABI where no row spells the account differently |
| `WireCatalog.CanonicalNamesHaveOneSpelling` | crates/delta-proto/src/wire.rs:92-114 | among canonical names, which is how the chain renders them, no two spell one account |
| `WireCatalog.SpellingsShareAnEntry` | crates/delta-proto/src/wire.rs:116-206 | for every account and every other spelling of it, some history the scan completes gives the account one ABI and makes the catalog answer with the other spelling's |
| `WireCatalog.TrailingDotIsASpelling` | crates/delta-proto/src/wire.rs:92-114 | there are such spellings: a trailing dot changes a name but not its value |
| `LogCatalog.SelectAndSort` | crates/core/src/catalog.rs:393-401 | the files that hold some block of the window, sorted by range with the finding order kept among equals |
| `LogCatalog.CandidatesHoldABlock` | crates/core/src/catalog.rs:393-399 | the candidates are the files that hold a block of the window, or all of them without one |
| `LogCatalog.AssembleSorted` | crates/core/src/catalog.rs:403-458 | the loop refuses only broken sequences and otherwise keeps one file per range, pairing every copy dropped with the one kept |
| `LogCatalog.Assemble` | crates/core/src/catalog.rs:387-459 | succeeds if and only if the candidates, copies aside, are disjoint and gap-free; the result holds the first-found copy of each, in block order |
| `LogCatalog.ContiguousExactly` | crates/core/src/catalog.rs:403-458 | its condition, block by block: two files hold one block only with equal ranges and known, equal ids, and no block between two files is missing |
| `LogCatalog.CatalogCoversCandidates` | crates/core/src/catalog.rs:113-126 | the catalog's range is exactly the blocks its candidates hold |
| `LogCatalog.Get` | crates/core/src/catalog.rs:122-126 | finds the unique file that holds a block, and none exactly outside the range |
| `LargeEntries.FindLarge` | crates/core/src/catalog.rs:349-383 | for every threshold and window the scan fails exactly when a block of the window has no sound header, or a stream that must be inflated and is not whole; otherwise it lists exactly the entries that inflate to more, with their sizes, in block order |
| `StoredLarge.FindStored` | crates/core/src/catalog.rs:349-383 | after every history of appends and forks, the scan succeeds and lists exactly the blocks of the window whose content in force is longer than the threshold, with its length, whether or not the entries declare it |
| `LargeEntries.ReadableExactly` | crates/core/src/catalog.rs:364-371 | an entry stops the scan if and only if it declares no size, its stream is long enough to exceed the threshold, and the stream is not whole |
| `LargeEntries.ShortIsNotLarge` | crates/core/src/catalog.rs:45-47 | with a decoder that yields at most 1032 bytes per byte, an entry passed over for its short stream is never a large one, saturation included |
| `LargeEntries.PageIsLookup` | crates/core/src/catalog.rs:359-364 | a slot read in a page leads to the header the index lookup gives |
| `LargeEntries.StoredBlocksAreFaithful` | crates/core/src/catalog.rs:45-47 | the stored-block decoder is lawful on all bytes and within that ratio |
| `Search.PartitionPoint` | crates/core/src/catalog.rs:122-126 | the binary search splits an increasing sequence at the right place |
| `TraceLayout.ParseInvertsLayout` | crates/core/src/trace.rs:10-22 | parsing the documented layout gives back every field, nested failed traces and any trailing bytes notwithstanding |
| `TraceLayout.RangesStand` | crates/core/src/trace.rs:107-112 | every data and return-value range of the result covers exactly the serialized bytes |
| `TraceLayout.TxOfBytes` | crates/core/src/trace.rs:138-175 | a transaction with its chain of failed traces is read back and stepped over exactly |
| `TraceLayout.ActOfBytes` | crates/core/src/trace.rs:177-252 | an action trace is read back, with its ranges over the right bytes |
| `TraceLayout.SkipPartialBytes` | crates/core/src/trace.rs:322-341 | a partial transaction is stepped over exactly, whatever its lists hold |
| `TraceLayout.SkipSignatureBytes` | crates/core/src/trace.rs:343-364 | a signature of every kind is stepped over exactly |
| `Trace.TxSkips` | crates/core/src/trace.rs:256-283 | on every input the skipping walk of a transaction fails or stops exactly where the parsing walk does |
| `Trace.ActSkips` | crates/core/src/trace.rs:285-320 | the same for an action trace |
| `Trace.ActsSkip` | crates/core/src/trace.rs:256-283 | the same for a list of action traces |
| `Trace.ReceiptSkips` | crates/core/src/trace.rs:285-298 | the same for an optional receipt |
| `Trace.TailSkips` | crates/core/src/trace.rs:304-320 | the same for the rest of an action trace |
| `TraceCursor.Parse` | crates/core/src/trace.rs:127-136 | on every payload the cursor program reports no range outside it; on the layout of any block, with anything after it, it gives back every field; and it computes the function the lemmas are about |
| `Names.EncodeOfRendered` | crates/core/src/trace.rs:367-378 | encoding a rendered name gives it back, if and only if it is not 0 |
| `Names.RenderOfEncoded` | crates/delta-proto/src/wire.rs:92-114 | rendering an encoded text gives it back, if and only if it has no trailing dot |
| `Names.EncodingIsInjective` | crates/delta-proto/src/wire.rs:92-114 | different canonical names have different values |
| `Names.RenderName` | crates/core/src/trace.rs:367-378 | the shifting loop renders the value |
| `Names.EncodeName` | crates/delta-proto/src/wire.rs:92-114 | the bit-placing loop encodes the text, or refuses it |
| `Names.KnownName` | crates/delta-proto/src/wire.rs:92-114 | the value of `eosio` |
| `BlockHeaders.DecodeInvertsLayout` | crates/core/src/blocklog.rs:362-391 | a stored header is read back and its id is the digest of exactly its bytes with the number written over, whatever follows |
| `BlockHeaders.DecodeExtends` | crates/core/src/blocklog.rs:362-391 | a header decoded from a prefix is the header of the whole body |
| `BlockHeaders.IdCarriesNumber` | crates/core/src/blocklog.rs:381-391 | the id carries the number, so the block that names it is numbered one more |
| `BlockHeaders.Read` | crates/core/src/blocklog.rs:362-391 | the reader program computes that decoding on every body |
| `BlockHeaders.ReadKeyRest` | crates/core/src/blocklog.rs:402-412 | the key reader stops where the variable part starts and gives its length |
| `BlockLog.HeaderAgreesWithBody` | crates/core/src/blocklog.rs:241-254 | decoding an 8192-byte probe first never shows: the result is that of the whole body, and its number is the block asked for |
| `BlockLog.ProbeIsWhole` | crates/core/src/blocklog.rs:241-254 | the probe decodes as the whole body does |
| `BlockLog.EntriesTile` | crates/core/src/blocklog.rs:262-304 | if every block passes its checks, the file after the preamble is exactly the blocks with their trailers, in order, without overlap |
| `BlockLog.EntryIsRecord` | crates/core/src/blocklog.rs:262-304 | an accepted block is followed by its own position |
| `AcceptedBlocks.EntryExactly` | crates/core/src/blocklog.rs:262-304 | a block is found if and only if the index puts it there, it lies inside the log with room for a header, and its own position follows it |
| `AcceptedBlocks.BodyExactly` | crates/core/src/blocklog.rs:221-229 | its bytes are given out if and only if they stand there and name the block before it as parent |
| `AcceptedBlocks.OpenExactly` | crates/core/src/blocklog.rs:133-188 | after its preamble a log opens if and only if its trailer leads to a last block, and the index has one slot per block and puts the first and the last where the log does |
| `BlockLogWriter.OpensWhatIsWritten` | crates/core/src/blocklog.rs:76-188 | a log of any version opens as written: version, first, last, chain id, size |
| `BlockLogWriter.PreambleOnlyIsEmpty` | crates/core/src/blocklog.rs:129-132 | a log with only its preamble opens as empty, whatever its index |
| `BlockLogWriter.PreambleIsReadBack` | crates/core/src/blocklog.rs:84-129 | the preamble of each version is read back |
| `BlockLogWriter.GenesisProbeSuffices` | crates/core/src/blocklog.rs:428-443 | sizing a genesis state from 512 bytes is sizing it from all that follows, on every file |
| `BlockLogWriter.BlocksAreReadBack` | crates/core/src/blocklog.rs:221-229 | every written block comes back byte for byte, and its header is the one its bytes decode to |
| `Protocol.RequestRoundTrip` | crates/core/src/protocol.rs:115-196 | decoding an encoded request with trailing bytes gives the request back, if and only if it has at most 2^20 positions |
| `Protocol.PrefixIsRefused` | crates/core/src/protocol.rs:115-162 | every proper prefix of a request is refused |
| `Protocol.RequestExtends` | crates/core/src/protocol.rs:115-162 | what a prefix of a message decodes to, all of it does |
| `Protocol.ClientRequestIsUnderstood` | crates/core/src/ship.rs:30-48 | the server decodes what the client meant, if and only if the last block is not the last block number |
| `Protocol.ClientAckIsUnderstood` | crates/core/src/ship.rs:50-55 | an acknowledgement is decoded as meant |
| `Protocol.Encode` | crates/core/src/protocol.rs:165-196 | the appending encoder writes the encoding of a request |
| `Protocol.Decode` | crates/core/src/protocol.rs:115-129 | the reader program computes the specified decoding, on every message |
| `Protocol.DecodePositions` | crates/core/src/protocol.rs:132-162 | the position loop |
| `FcReaders.FcReader.ReadVaruint32` | crates/core/src/binio.rs:311-321 | five bytes at most, low 32 bits, padding accepted |
| `FcReaders.FcReader.Bytes` | crates/core/src/binio.rs:280-294 | the next bytes, or an error that leaves the cursor |
| `FcReaders.FcReader.ReadBool` | crates/core/src/binio.rs:324-330 | a byte other than 0 or 1 is refused |
| `FcReaders.BoolExactly` | crates/core/src/binio.rs:324-330 | a flag is read if and only if the byte is 0 or 1, and as that |
| `Varuint.WideOfEncode` | crates/core/src/delta.rs:10-26 | the delta reader reads back a length if and only if it is below 2^42 |
| `Varuint.FcOfEncode` | crates/core/src/binio.rs:311-321 | the fc reader reads back every 32-bit number |
| `Varuint.NarrowOfEncode` | crates/core/src/trace.rs:87-102 | so does the trace reader |
| `Varuint.EncodeLength` | crates/core/src/protocol.rs:312-322 | the encoding has one byte per started group of seven bits |
| `Varuint.KnownEncodings` | crates/core/src/protocol.rs:312-322 | the bytes at the ends of one and two groups, and of 2000 |
| `Varuint.Put` | crates/core/src/protocol.rs:312-322 | the appending loop writes the encoding |
| `Varuint.ReadGroups` | crates/core/src/trace.rs:87-102 | the shared reading loop |
| `ResultCodec.ParseInvertsResult` | crates/core/src/delta.rs:34-72 | the client gets this block's number and the deltas from the server's message, if and only if its payloads are shorter than 2^42 bytes |
| `ResultCodec.IdleMessageGivesNothing` | crates/core/src/delta.rs:34-72 | a message without a block gives nothing |
| `ResultCodec.Parse` | crates/core/src/delta.rs:34-72 | the offset-moving parser |
| `Timestamp.DateIsRight` | crates/core/src/provider.rs:43-57 | for every day count, before or after the epoch, the date is a valid Gregorian date exactly that many days from 1 January 1970 |
| `TimestampText.TextIsTheInstant` | crates/core/src/provider.rs:43-65 | under every profile of four-digit years, the 23 characters of every 32-bit slot read as a valid date and a time of day that together are exactly the instant of the slot |
| `Timestamp.LaterSlotIsLater` | crates/core/src/provider.rs:37-57 | the instant is strictly monotone in the slot, for every profile and slot |
| `Timestamp.RendersLaterExactly` | crates/core/src/provider.rs:37-65 | for every profile, later slots render later if and only if the years are equal or their texts, sign and dash included, sort that way |
| `Timestamp.LaterSlotRendersLater` | crates/core/src/provider.rs:37-65 | so they do between years from 0 on that print in the same number of characters |
| `Timestamp.ProfileTimesSort` | crates/core/src/provider.rs:37-65 | under every profile whose 32-bit slots keep to four-digit years, as the source documents of all that can be built, every later slot renders later |
| `Timestamp.AntelopeYears` | crates/core/src/provider.rs:24-28 | every 32-bit slot of the Antelope profile lies in the years 2000 to 2068 |
| `Timestamp.AntelopeTimesSort` | crates/core/src/provider.rs:24-65 | so the Antelope profile is one of them |
| `FileCache.HoldsTheMostRecent` | crates/core/src/binio.rs:213-240 | under every interleaving, failed opens included, at most the cap is open, and open are exactly the paths used since which fewer than cap others were used |
| `FileCache.NextKeeps` | crates/core/src/binio.rs:213-240 | every locked section keeps the cache in step with the list of uses |
| `FileCache.RecentIsFront` | crates/core/src/binio.rs:162-181 | the move-to-front list and the count of later uses agree on recency |
| `FileCache.Lru.Touch` | crates/core/src/binio.rs:163-168 | a hit is stamped with the new clock; a miss only moves the clock |
| `FileCache.Lru.EvictOldest` | crates/core/src/binio.rs:171-180 | exactly a file with the least stamp is closed |
| `FileCache.Cache.Lookup` | crates/core/src/binio.rs:225-227 | the first locked section |
| `FileCache.Cache.Insert` | crates/core/src/binio.rs:229-239 | the second locked section: a raced file is returned, else room is made and the file added |
| `TypeNames.BaseTypeUnderSuffixes` | crates/core/src/wire_codec.rs:64-81 | however many suffixes a name carries, the type under them is found |
| `TypeNames.FindBaseType` | crates/core/src/wire_codec.rs:64-81 | the stripping loop finds it |
| `Abis.MentionsAreEdges` | crates/core/src/wire_codec.rs:118-140 | the names a definition adds to the worklist are its alias target, base, field types or variant types, in that precedence |
| `Abis.RestrictResolves` | crates/core/src/wire_codec.rs:145-165 | a kept name resolves in the pruned ABI as in the full one, and no other name resolves at all |
| `Pruning.Prune` | crates/core/src/wire_codec.rs:86-170 | for every ABI and root the worklist ends and gives the ABI restricted to exactly what the root reaches, or nothing exactly when that is malformed or lacks what must be copied |
| `Pruning.FindMentions` | crates/core/src/wire_codec.rs:118-140 | the pushes of one worklist round |
| `WireDecoding.PruningPreservesMeaning` | crates/core/src/wire_codec.rs:83-85 | a type unfolds identically, to every depth, in the pruned and the full ABI |
| `WireDecoding.PruningKeepsOnlyReached` | crates/core/src/wire_codec.rs:145-165 | nothing else is kept |
| `WireDecoding.NothingDangles` | crates/core/src/wire_codec.rs:118-165 | what a kept alias stands for, a kept struct's base and field types and a kept variant's types resolve as in the full ABI, and the descriptors are kept if one of them is protobuf |
| `WireDecoding.TreeDecodersFollowEdges` | crates/core/src/wire_codec.rs:32-61 | decoders that look as deep into a type as the bytes and the type seen so far ask for are among the codecs the decoder is proved for |
| `WireDecoding.PrunedDecodesSame` | crates/core/src/wire_codec.rs:83-85 | for every such codec that validates both, decoding any bytes as the type through the pruned ABI gives what the full one gives |
| `WireDecoding.WireDecoder.Decode` | crates/core/src/wire_codec.rs:32-61 | for every codec whose result depends on the ABI only through the type asked for, every call, cached or not, returns what the full ABI gives; a failure caches nothing |
| `TraceBounds.ParseIsInside` | crates/archive-server/src/main.rs:1094-1095 | on every payload, no range of a parsed block leaves it, so no slice can |
| `ActionLookup.BlockCache.Insert` | crates/archive-server/src/main.rs:338-352 | the ring stays within its bound, holds no block twice and only what the log holds |
| `ActionLookup.BlockCache.GetOrRead` | crates/archive-server/src/main.rs:356-362 | gives the block as the log holds it, cached or not, and fails exactly when reading it faults |
| `ActionLookup.FirstByPosition` | crates/archive-server/src/main.rs:703-718 | the action found is the first that answers, by position |
| `ActionLookup.FindAction` | crates/archive-server/src/main.rs:703-718 | the nested search loops find it |
| `ActionLookup.HandleAction` | crates/archive-server/src/main.rs:683-737 | the reply depends on the log alone, not on the cache |
| `WrittenLookup.LookupFindsTheAction` | crates/archive-server/src/main.rs:683-737 | for a block that holds the serialized transactions, the lookup answers with the contract, name and data bytes of the first action that ran under the sequence without an exception |
| `WrittenLookup.LookupFindsNothing` | crates/archive-server/src/main.rs:683-737 | and reports no action if there is none |
| `ActionBatch.GroupsAreTheBlocks` | crates/archive-server/src/main.rs:1037-1043 | the groups are exactly the requested blocks in range, ascending, each with its input positions |
| `ActionBatch.GroupItems` | crates/archive-server/src/main.rs:1037-1043 | the grouping loop |
| `ActionBatch.IndexBlock` | crates/archive-server/src/main.rs:1067-1087 | the index of a block holds the first action that answers each sequence, and nothing else |
| `ActionBatch.ResolveBlock` | crates/archive-server/src/main.rs:1054-1103 | a block answers its own positions as the single lookup would and leaves the others |
| `ActionBatch.HandleBatch` | crates/archive-server/src/main.rs:1029-1104 | for every cache state, the blocks reached are a prefix of the ascending distinct blocks; each item of a reached block gets, in its place, exactly what the single lookup finds; the others get nothing |
| `ActionBatch.HandleWhole` | crates/archive-server/src/main.rs:1029-1104 | a batch within the cap, and in time, answers every item as the single lookup does |
| `WrittenLookup.BatchFindsTheAction` | crates/archive-server/src/main.rs:1029-1104 | an item for such an action is resolved to its contract, name and data bytes |
| `Receipts.Emit` | crates/action-proto/src/main.rs:871-914 | the documents sent, the one-action shortcut included; for actions with distinct ordinals, one for each action that shares with none before it, carrying in order the receipts of those that share with it, where an action shares with the notifications of it and these with each other |
| `Receipts.LabelIsCanonical` | crates/action-proto/src/main.rs:885-893 | a notification is grouped under its creator's ordinal and any other action under its own |
| `Receipts.NotificationIsCarried` | crates/action-proto/src/main.rs:885-913 | the receipt of a notification goes out in the document of the action it repeats |
| `Receipts.ActionsStayApart` | crates/action-proto/src/main.rs:885-913 | two actions that are no notifications are never in one document |
| `Receipts.InlineStandsAlone` | crates/action-proto/src/main.rs:885-913 | an action whose creator has another digest or is absent shares only with notifications of it |
| `Receipts.DocumentOf` | crates/action-proto/src/main.rs:898-913 | every action is in the document of exactly one first action, and its receipt with it |
| `Receipts.ExactlyOneDocument` | crates/action-proto/src/main.rs:885-913 | each action belongs to exactly one document, shared exactly with the actions of equal digest and canonical ordinal |
| `Receipts.HeadsAscend` | crates/action-proto/src/main.rs:906-913 | documents follow first-occurrence order |
| `Receipts.HeadsAreFirsts` | crates/action-proto/src/main.rs:906-913 | an action heads a document exactly when no earlier one has its label |
| `Receipts.ReceiptsAreConserved` | crates/action-proto/src/main.rs:898-913 | all receipts together, counted with repetition, are the receipts of the transaction |
| `Receipts.KeyIsInjective` | crates/action-proto/src/main.rs:894-897 | the text key of a group determines digest and ordinal |
| `Receipts.IndexDigests` | crates/action-proto/src/main.rs:881-884 | the last action with an ordinal gives its digest |
| `Receipts.MakeKeys` | crates/action-proto/src/main.rs:885-897 | the keys of the actions, from their digests and canonical ordinals |
| `Receipts.GroupReceipts` | crates/action-proto/src/main.rs:898-904 | the receipts under each key, in order |

## Left out

- LargeEntries.FindLarge: takes the 1032:1 bound as a law of the decoder; it is proved for stored blocks only.
- DiskClaims.ClaimsPartitionTheRange: excludes chunk sizes for which an overshooting claim wraps back into the range, because the chunks then do repeat (`DiskClaims.RepeatsOtherwise`).
- WireCatalog.SelectMatchesChain: excludes accounts that some row spells differently, because such spellings share one entry; `WireCatalog.Load` states what is selected then.
- ResultCodec.ParseInvertsResult: covers version 0 result messages, the ones the client asks for.
- ActionBatch.HandleBatch: reading a block is a function of the frozen log, so a fault that comes and goes is not modelled; the wall clock is an arbitrary predicate of the block's index.
- FileCache.HoldsTheMostRecent: the clock is unbounded; the 64-bit clock is not modelled.
- Huffman-coded blocks (section 3.2.5 of RFC 1951 onwards): a decoder for them is known by its contract only. Failure to allocate memory.
- Durability of the scan's output: the checkpoint is about chunks scanned, not lines flushed.
- `worker_scan`, which walks without the canonical offsets, on forked logs.
- In the Wire scan: JSON decoding of rows and receipts, block-id comparison between the two logs, overflow of the 64-bit revision, publishing of files.
- `walk_deltas`, `parse_kv`, `for_each_account_row` and the `@`-field handlers: framing like that of the traces, and JSON reshaping.
- `Catalog::seams`, `classify`, `discover`: short loops over the catalog, file names and directories.
- `Registry::active`: the same binary search as `Search.PartitionPoint`.
- `FileCache::pinned` and platform-specific positional reads.
- Real files, threads, WebSocket, HTTP, Elasticsearch posting and progress printing.
- The `rs_abieos` and Wire protocol decoders: the codec is a parameter in `WireDecoding`.
- `crates/atomicdata`, `crates/light-api`, `crates/es-load` and the scripts.
