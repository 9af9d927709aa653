# NervusDB storage engine and expression parser, in Dafny

A model of NervusDB's storage crate, an LSM-style graph store behind a redo log, and of the
expression core of its Cypher parser, with proofs about both.

## What is modelled

- **Bytes and pages.** `Bytes`, `PropertyValues` and `WalRecords` are the codecs. `Pagers` is the page
  file with its meta page and allocation bitmap, `BlobStores` the chained pages, `CsrPages` segments on
  pages, `IdMapPages` the id map's records on consecutive pages, `SegmentPages` the durable segments next to them.
  `Format` writes every layout out byte by byte, and `Decoding` says for all bytes what they decode to.
- **The log.** `WalLog` is the redo log as bytes: framing, the record reader, replay, and truncation
  as the crash step. The checksum is an arbitrary function of the body.
- **Runs and segments.** `Graph` and `MemTables` are the write buffer, the frozen run, what commit logs
  and what replay rebuilds. `Csr` builds and looks up segments. `Neighbors` is the lazy merge iterator, in
  both directions, and `Compaction` says what a store of runs and segments means and what folding
  the runs does to it. `Transactions` says what scans and lookups return in terms of the operations that were committed.
- **The engine.** `Labels`, `Recovery`, `IdMaps`, `Durability` (runs, segments, labels, roots) and `NodeDurability` (the
  id map) say on values what every prefix of the log carries. `Engine` is the object over log, pages and id map:
  commit with its failures after logging, label creation, compaction with its page writes, close, crash and reopen.
  `GraphEngine.Valid` ties the file's bytes, the pages, the id map and the published view together after every prefix
  of the log; every operation keeps it, and so does reopening after a crash. `Manifests` and `NodeReplay` say what recovery
  takes from any log, `EngineReads` what readers of the reopened store get in terms of the committed operations, and
  `EngineCases` gives two stores that do not open again.
- **Readers.** `ReaderProtocol` is the state machine of one writer at a time against any number of
  readers that load the published fields one by one; `CommitHistory` says what commits and compactions make a query show.
- **Around the engine.** `Overlay` (properties over runs and store, sinking), `Vacuum`, `BulkLoad`.
- **The parser.** `Parser` is the Pratt parser with its binding powers, prefix and postfix operators,
  comparison chains, attempts at pattern predicates and step budget; `Parentheses` says exactly which parentheses it needs,
  and `Precedence` what it makes of operators side by side, as a ladder of levels.

Code that updates state in the source is a class or a loop here, proved against specification functions;
the two iterator classes, and the node and edge halves of the property code, are each one definition with a direction
or owner parameter.

## Where the code does not do what one would expect

Each of these is a theorem with the exact condition, beside a concrete instance where one helps.

- An edge deleted and created again in one transaction is published but lost on replay
  (`CommitReplayIff`, `RecreatedEdgeIsLost`, `DurableIff`).
- Compaction drops tombstones, so older segment edges they hid come back (`CompactionLaw`,
  `CompactionPreservesIff`); it can make queries into node 0 panic (`CompactionScan`, `ServedIff`, `StoredLookup`).
- An edge whose own run tombstones one endpoint shows from one side only (`DirectionDuality`).
- A torn log tail is kept on open and loses the next commit, or the whole log (`AppendAfterTornTail`, `CutThenAppendIff`,
  `ThreeTornBytes`); a record over 1 MiB is written and never read (`ReadableIff`, `UnreadableTx`).
- A snapshot taken while compaction has cleared the runs but not yet published the segment misses committed
  transactions; one taken across a whole compaction counts edges twice (`SnapshotIsMoment`, `SnapshotExcess`,
  `SnapshotExactIff`, `HalfPublishedRead`, `DoubledRead`).
- A node with external id 0 is not indexed on load, so a store whose log creates it again does not open; a label
  change of a missing node is refused only after it was logged, and blocks every later open, as does a node for which
  there is no page (`RecoveredIds`, `CrashOpens`, `MissingNodePoisonsLog`, `CommitAndCrash`, `ZeroIdBlocksReopen`,
  `RefusedChangeBlocksReopen`, `StuckNeverOpens`).
- Label changes under a checkpoint are lost (`CoveredLabelsIff`, `LabelsSurviveIff`, `CoveredLabelIsLost`).
- Replaying a label definition with a gap below its id does not end when a placeholder name of the gap is taken
  (`FillIff`, `GapReplayIff`, `TakenPlaceholder`).
- The id map takes its next consecutive page even when a blob or segment uses it (`CreateBesideBlob`,
  `SharedPageBreaksBlob`, `IntactIff`, `SegmentSurvivesIff`).
- An edge into node 4294967295 makes the reverse index overflow, so compaction fails (`BuildReverse`, `Compact`).
- Vacuum knows segment format 1 only and refuses every segment the engine writes
  (`LoadableSegmentsStopVacuum`, `MarkReachable`).
- The API property lookup shows a stored value under a removal in the runs (`RemovedKeyResurfaces`), sinking
  writes values removed since (`SinkPreservesIff`), and a key sunk again keeps its first value in the map lookup
  (`ResunkKeyDiverges`).
- A dash between two identifiers in parentheses is read as a relationship (`SubtractionReadAsPattern`,
  `ReadAsMeantIff`), and the attempts at patterns make long differences too complex (`LongDifferenceIff`).

## Model

| member | source | states |
|---|---|---|
| PropertyValues.ValueRoundTrip | nervusdb-api/src/lib.rs:82-258 | Decoding the encoding of any nested value, with any bytes behind it, returns the value and leaves exactly those bytes |
| PropertyValues.PrefixFree | nervusdb-api/src/lib.rs:82-258 | No encoding is a proper prefix of another |
| PropertyValues.EncodeInto | nervusdb-api/src/lib.rs:82-142 | The buffer-filling encoder appends exactly the specified encoding |
| PropertyValues.EncodeList | nervusdb-api/src/lib.rs:120-128 | The list loop writes the count and then every item |
| PropertyValues.EncodeMap | nervusdb-api/src/lib.rs:129-141 | The map loop writes the count and then every key and value in key order |
| PropertyValues.DecodeRecursive | nervusdb-api/src/lib.rs:151-258 | The position-advancing decoder returns what the specification returns, errors included |
| PropertyValues.DecodeItemsLoop | nervusdb-api/src/lib.rs:209-224 | The item loop of a list decodes the specified items |
| PropertyValues.DecodeEntriesLoop | nervusdb-api/src/lib.rs:225-255 | The entry loop of a map decodes the specified entries, later duplicates replacing earlier ones |
| Format.ValueFormat | nervusdb-api/src/lib.rs:82-142 | Every value is, byte by byte: its tag 0 to 8, then number, length and contents, least significant byte first, list items and map entries one after the other |
| Decoding.ValueDecodesIff | nervusdb-api/src/lib.rs:144-258 | For all bytes: the decoder returns a value and takes k bytes exactly when those bytes spell it; any byte but 0 is true, and of equal map keys the last counts, wherever it stands |
| WalRecords.BodyRoundTrip | nervusdb-storage/src/wal.rs:96-469 | Decoding an encoded record body gives back the record, for all 17 kinds |
| Format.RecordFormat | nervusdb-storage/src/wal.rs:96-320 | Every record body is, byte by byte: its type and then its fields at fixed places, least significant byte first, names behind their lengths |
| Decoding.RecordDecodesIff | nervusdb-storage/src/wal.rs:244-469 | For all bytes: a body decodes to a record exactly when it is laid out so; further bytes are passed over behind a manifest, a label name and a property value, and nowhere else |
| Format.FrameFormat | nervusdb-storage/src/wal.rs:498-513 | A frame is the length of the body, its checksum and the body |
| Format.ReaderFormat | nervusdb-storage/src/wal.rs:713-748 | For all bytes: the reader stops when fewer than eight are left, or fewer than the length says, or the checksum differs; it fails when the length is over 1 MiB; otherwise it takes the body |
| Bytes.Utf8Sound | nervusdb-storage/src/wal.rs:322-469 | Bytes that decode as a name are the UTF-8 encoding of a sequence of Unicode scalar values |
| Bytes.Utf8Complete | nervusdb-storage/src/wal.rs:322-469 | Every such encoding decodes as a name |
| WalLog.NextOfFrame | nervusdb-storage/src/wal.rs:498-513 | The reader takes a whole appended frame off the front of any bytes |
| WalLog.TornFrame | nervusdb-storage/src/wal.rs:713-748 | A frame cut anywhere reads as the end of the log |
| WalLog.TruncationRecoversPrefix | nervusdb-storage/src/wal.rs:623-656 | For every log of whole records, aborted transactions included, and every cut: replay recovers exactly the transactions whose commit frame survives whole |
| WalLog.ScanCut | nervusdb-storage/src/wal.rs:713-748 | Cut anywhere, the reader takes exactly the whole frames |
| WalLog.BracketsIff | nervusdb-storage/src/wal.rs:623-656 | Replay of whole records succeeds exactly when begins and commits pair up under the same id with no operation outside, and then gives for every commit the operations since the last begin |
| WalLog.WholeFramesExact | nervusdb-storage/src/wal.rs:713-748 | At least j records survive a cut exactly when the first j frames end at or before it |
| WalLog.DoneCounts | nervusdb-storage/src/wal.rs:623-656 | One committed transaction per commit record |
| WalLog.BoundaryCarries | nervusdb-storage/src/wal.rs:623-656 | What survives a cut on a record boundary is again a log |
| WalLog.WholeLog | nervusdb-storage/src/wal.rs:623-656 | An uncut log replays to all its transactions |
| WalLog.AppendCarries | nervusdb-storage/src/wal.rs:498-513 | A transaction appended after any record boundary, an unfinished transaction included, is recovered |
| WalLog.AppendAfterTornTail | nervusdb-storage/src/wal.rs:479-491 | For every log, every record torn at any byte and every transaction appended after it: unless the straddled checksum collides, replay gives the old log, or an error when the straddled length is too large; the transaction is recovered exactly when nothing was torn |
| WalLog.ThreeTornBytes | nervusdb-storage/src/wal.rs:479-491 | Three bytes of a torn begin record make the whole log unreadable once a transaction follows |
| WalLog.CutThenAppendIff | nervusdb-storage/src/wal.rs:479-491 | Cut a log anywhere and append: the surviving transactions and the new one are recovered exactly when the cut fell on a record boundary, checksum collisions aside |
| WalLog.AppendIsAtomic | nervusdb-storage/src/wal.rs:515-521 | A crash anywhere inside an append leaves the old log until the last byte is there, and then the transaction |
| WalLog.ReadableIff | nervusdb-storage/src/wal.rs:713-748 | A log that append accepted replays exactly when no record body exceeds 1 MiB |
| WalLog.UnreadableTx | nervusdb-storage/src/wal.rs:713-748 | A logged transaction with one record over 1 MiB makes the whole log fail to replay |
| WalLog.Wal.Append | nervusdb-storage/src/wal.rs:498-513 | One frame at the end of the file, or an error and no change when the body is too long for its length field |
| WalLog.Wal.AppendTx | nervusdb-storage/src/engine.rs:819-895 | Begin, operations and commit in order after the old bytes |
| WalLog.Wal.AppendDurably | nervusdb-storage/src/engine.rs:819-895 | After append and fsync, whatever a crash leaves of the file replays to the old log and the transaction; with an oversized record replay fails |
| WalLog.Wal.RewriteAsSnapshot | nervusdb-storage/src/wal.rs:523-575 | Whatever a crash leaves of the new file from then on replays to exactly the snapshot; an oversized one is unreadable |
| WalLog.Wal.ReplayLog | nervusdb-storage/src/wal.rs:623-656 | The reader loop with its open transaction computes the specified replay |
| MemTables.ApplyAllKeeps | nervusdb-storage/src/memtable.rs:23-112 | Every sequence of buffer operations keeps both adjacency maps mirrored and property tables well formed |
| MemTables.BufferedEdges | nervusdb-storage/src/memtable.rs:23-48 | After any sequence of operations a buffered edge has as many copies as it was created since its last tombstone, in both directions, and is tombstoned exactly if it ever was |
| MemTables.BufferedNode | nervusdb-storage/src/memtable.rs:29-72 | After any sequence of operations a node is tombstoned exactly if it ever was, and each of its properties is in the state its last mention left |
| MemTables.BufferedEdgeProperty | nervusdb-storage/src/memtable.rs:74-112 | The same for edge properties |
| MemTables.MemTable.Create | nervusdb-storage/src/memtable.rs:23-27 | The edge enters both adjacency maps |
| MemTables.MemTable.TombstoneOneEdge | nervusdb-storage/src/memtable.rs:33-48 | The edge is tombstoned and every buffered copy is dropped from both maps |
| MemTables.MemTable.SetNode | nervusdb-storage/src/memtable.rs:50-59 | A lookup gives the value, the removal mark is gone and every other key and owner is as before |
| MemTables.MemTable.RemoveNode | nervusdb-storage/src/memtable.rs:61-72 | A lookup gives nothing, the removal is marked and every other key and owner is as before |
| MemTables.MemTable.SetEdge | nervusdb-storage/src/memtable.rs:74-91 | The same for edge properties: value there, removal mark gone, all else unchanged |
| MemTables.MemTable.RemoveEdge | nervusdb-storage/src/memtable.rs:93-112 | The same for edge properties: value gone, removal marked, all else unchanged |
| MemTables.MemTable.ListForWal | nervusdb-storage/src/engine.rs:843-895 | The listing for the log holds every edge, tombstone, set and removed property once |
| MemTables.FreezeMirrored | nervusdb-storage/src/memtable.rs:166-202 | A frozen run has both adjacency maps mirrored and keeps every edge count; what else it says is in `FrozenTells` |
| MemTables.FrozenTells | nervusdb-storage/src/memtable.rs:166-202 | For every operation sequence, the frozen run tombstones exactly the nodes and edges the operations tombstone, holds every edge as often as it was created since its last tombstone, and marks each property as its last mention left it |
| MemTables.EmptyIff | nervusdb-storage/src/engine.rs:1091-1093 | Such a run is empty exactly when no operation creates an edge that lasts, tombstones anything or mentions a property |
| MemTables.FrozenOrder | nervusdb-storage/src/memtable.rs:166-178 | A frozen bucket lists its edges by source, type and destination, each as often as it was buffered |
| MemTables.FrozenPublishes | nervusdb-storage/src/engine.rs:1091-1093 | Publishing puts that run in front of the others, or nothing if it is empty |
| MemTables.CommitReplay | nervusdb-storage/src/engine.rs:809-895 | Replaying what commit logs, in any listing order, gives the published run minus exactly the edges its own edge tombstones name |
| MemTables.CommitReplayIff | nervusdb-storage/src/engine.rs:1113-1172 | The replayed run is the published run exactly when no published edge is in its own tombstones |
| MemTables.RecreatedEdgeIsLost | nervusdb-storage/src/engine.rs:843-859 | Delete and re-create an edge in one transaction: it is published, and replay loses it |
| Csr.BuildSegment | nervusdb-storage/src/engine.rs:601-656 | The built offsets partition exactly the input edges by source |
| Csr.BuildReverse | nervusdb-storage/src/csr.rs:89-146 | The reverse index partitions the same edges by destination; it overflows exactly when an edge goes into node 4294967295 |
| Csr.BuildAndIndex | nervusdb-storage/src/engine.rs:601-656 | Both indexes of the result serve exactly the input edges; none results exactly when an edge goes into node 4294967295 |
| Csr.RepresentsServes | nervusdb-storage/src/csr.rs:32-80 | An index grouped by endpoint answers every lookup with exactly the edges of that endpoint and type; `LookupMeans` states it with the type condition written out |
| Csr.StoredLookup | nervusdb-storage/src/csr.rs:57-80 | Lookups answer exactly the stored edges and panic in exactly one case: edges into node 0 of a segment without edges |
| Csr.LookupMeans | nervusdb-storage/src/csr.rs:32-80 | The four kinds of lookup, written out: from a node or into it, of one type or of all, each edge as often as it is stored |
| Neighbors.NeighborsIter.Next | nervusdb-storage/src/read_path_iters.rs:109-170 | Each call returns the first remaining edge of the scan, or the end, which is final |
| Neighbors.NeighborsIter.LoadRun | nervusdb-storage/src/read_path_iters.rs:69-95 | Moving to the next run changes nothing about what remains |
| Neighbors.NeighborsIter.ApplyPendingTombstones | nervusdb-storage/src/read_path_iters.rs:56-67 | A finished run blocks only older edges: what remains is unchanged |
| Neighbors.NeighborsIter.LoadSegment | nervusdb-storage/src/read_path_iters.rs:97-107 | Moving to the next segment changes nothing about what remains |
| Neighbors.NeighborsIter.TakeRunEdge | nervusdb-storage/src/read_path_iters.rs:154-167 | A blocked run edge is skipped, an unblocked one is the next of the scan |
| Neighbors.NeighborsIter.TakeSegmentEdge | nervusdb-storage/src/read_path_iters.rs:144-151 | The same for segment edges |
| Neighbors.Collect | nervusdb-storage/src/read_path_iters.rs:172-336 | Draining terminates and yields the newest-first concatenation filtered by strictly newer tombstones, in either direction, for every query that does not reach a panicking lookup; none is reached once the runs tombstone the start node |
| Compaction.ScanCounts | nervusdb-storage/src/read_path_neighbors.rs:7-64 | The multiplicity of every edge in a scan, from the runs and segments behind it; `ScanMeans` states it with endpoint and type written out |
| Compaction.ScanMeans | nervusdb-storage/src/read_path_iters.rs:56-336 | A scan from a node, or into it, returns an edge as often as runs and segments show it if that is its endpoint and its type is the one asked for, if any; all other edges not at all |
| Transactions.ScanOfTransactions | nervusdb-storage/src/read_path_iters.rs:56-336 | For all committed operation sequences over any segments: every scan, of one type or of all, returns an edge at the queried node as often as the operations left it: a transaction that deletes the edge or one of its ends takes away what is older, and adds its own copies unless it deletes the queried node |
| Transactions.CompactionOfTransactions | nervusdb-storage/src/engine.rs:578-656 | After compaction every scan returns the copies no transaction deleted since, own deletions included, and all copies in older segments, deleted or not |
| Transactions.NodePropertyOfTransactions | nervusdb-storage/src/read_path_overlay.rs:7-41 | The property lookup of a node gives what the latest transaction that mentions the property says last |
| Transactions.EdgePropertyOfTransactions | nervusdb-storage/src/read_path_overlay.rs:7-41 | The same for edges |
| Transactions.ReopenedCommitted | nervusdb-storage/src/engine.rs:76-150 | After reopening, the runs are those of the same transactions without the creations of edges the same transaction also tombstones |
| Transactions.ReopenedScan | nervusdb-storage/src/read_path_iters.rs:56-336 | So scans of the reopened store return the visible copies of what was kept, and property lookups answer as before |
| Compaction.ServedIff | nervusdb-storage/src/read_path_iters.rs:56-133 | A query panics exactly when it asks for the edges into node 0, some segment has no edges and the runs do not tombstone node 0 |
| Compaction.ScanRefinesGraph | nervusdb-storage/src/read_path_iters.rs:56-170 | Over clean runs the lazy merge shows the graph obtained by applying the transactions oldest first |
| Compaction.DirectionDuality | nervusdb-storage/src/read_path_iters.rs:172-336 | An edge is shown as often from its source as from its destination exactly when no run holds it with one tombstoned endpoint |
| Compaction.CleanIsNotLopsided | nervusdb-storage/src/memtable.rs:166-202 | Self-clean runs meet that condition |
| Compaction.FoldRuns | nervusdb-storage/src/engine.rs:578-599 | The newest-to-oldest fold keeps exactly the edges no tombstone so far hides |
| Compaction.CompactRuns | nervusdb-storage/src/engine.rs:578-656 | The segment built from the runs stores exactly the folded edges; none results exactly when a folded edge goes into node 4294967295 |
| Compaction.CompactionLaw | nervusdb-storage/src/engine.rs:355-372 | For all runs and segments: after equals before, plus older segment copies the dropped tombstones hid, minus copies their own run tombstoned |
| Compaction.CompactionScan | nervusdb-storage/src/engine.rs:476-483 | Over clean runs every query changes by exactly the resurfacing older segment edges; a query served before begins to panic exactly when it asks for the edges into node 0 and a segment without edges is new, or stood behind a tombstone of node 0 that compaction drops |
| Compaction.CompactionPreservesIff | nervusdb-storage/src/engine.rs:323-490 | Compaction of clean runs preserves every count exactly when no tombstone hides an older segment edge |
| Labels.LabelInterner.GetOrCreate | nervusdb-storage/src/label_interner.rs:123-132 | The existing id or the next one; ids handed out never change and the two maps stay inverse |
| Labels.LabelInterner.GetId | nervusdb-storage/src/label_interner.rs:102-104 | Found exactly for interned names |
| Labels.ReplayOne | nervusdb-storage/src/engine.rs:1185-1205 | One definition replayed: it succeeds exactly when the id is known under the same name or is new and no placeholder name of the gap below it is taken |
| Labels.FillIff | nervusdb-storage/src/engine.rs:1194-1201 | Filling a gap ends exactly when no placeholder name of the gap is taken, and then adds exactly the placeholders |
| Labels.PlaceholderInjective | nervusdb-storage/src/engine.rs:1194-1201 | Different ids have different placeholder names |
| Format.PlaceholderFormat | nervusdb-storage/src/engine.rs:1194-1201 | The placeholder name is `__placeholder_` and the id in decimal, without leading zeros |
| Labels.GapReplayIff | nervusdb-storage/src/engine.rs:1179-1210 | For every label table of which any definitions failed to reach the log: replay rebuilds it with placeholders for the lost ones exactly when no later or earlier name is one of those placeholders |
| Labels.TakenPlaceholder | nervusdb-storage/src/engine.rs:1194-1201 | A log of two definitions on which replay does not end |
| Labels.ReplayLabelTransactions | nervusdb-storage/src/engine.rs:1179-1210 | The replay loops compute the specified label table |
| Labels.DefinitionsReplay | nervusdb-storage/src/engine.rs:1179-1210 | Replaying the definitions of a label table rebuilds it |
| Recovery.ScanRecoveryState | nervusdb-storage/src/engine.rs:1221-1258 | The scan loop computes the specified manifest, checkpoint, roots and highest transaction id |
| Recovery.ReplayRuns | nervusdb-storage/src/engine.rs:1101-1176 | The rebuilt runs are those of the transactions past the checkpoint, newest first |
| Durability.RunsNewer | nervusdb-storage/src/engine.rs:1108-1111 | Raising the checkpoint leaves exactly the rebuilt runs above it |
| Durability.CommitRecovers | nervusdb-storage/src/engine.rs:809-895 | After a commit the log recovers the published view without the edges their own run tombstones |
| Durability.LabelRecovers | nervusdb-storage/src/engine.rs:227-268 | After a label creation the log recovers the extended label table |
| Durability.CompactRecovers | nervusdb-storage/src/engine.rs:451-473 | After a compaction up to any transaction id the log recovers the new manifest with exactly the runs above that id |
| Durability.SnapshotRecovers | nervusdb-storage/src/wal.rs:523-575 | A log of one snapshot transaction recovers the view it was written from |
| Durability.RewriteRecovers | nervusdb-storage/src/engine.rs:501-575 | With no runs, the rewritten log recovers the same labels, segments, roots and epoch as the full log, and its checkpoint is the given id |
| Durability.DurableIff | nervusdb-storage/src/engine.rs:843-859 | The log keeps a whole view exactly when no run tombstones an edge it holds |
| Durability.RecoversIff | nervusdb-storage/src/engine.rs:97-143 | Whatever the pages hold, recovery returns the view the log carries exactly when every segment of its manifest loads |
| Durability.CrashRecovers | nervusdb-storage/src/engine.rs:97-143 | For every cut of every log of the engine: replay gives the surviving transactions, and the durable view of that time is rebuilt exactly when its segments load |
| Manifests.StateMeans | nervusdb-storage/src/engine.rs:1221-1258 | For every log: epoch and segments are those of the last switch among those of the highest epoch, the checkpoint is the highest logged for that epoch after it, and the roots are the last ones logged for it |
| Manifests.NextTxidMeans | nervusdb-storage/src/engine.rs:143-143 | The next transaction id is 1 or one above the highest in the log, as long as there is one |
| Manifests.RunsMean | nervusdb-storage/src/engine.rs:1101-1176 | The runs are those of the transactions past the checkpoint that leave something, newest first, none missing |
| Durability.ReopenedStands | nervusdb-storage/src/engine.rs:97-143 | The rebuilt view is again one the log carries, so a second crash recovers the same |
| Durability.RestartStep | nervusdb-storage/src/engine.rs:97-143 | Log, segments and view of the reopened store satisfy the whole invariant again, with fresh transaction ids |
| NodeDurability.CommitNodes | nervusdb-storage/src/engine.rs:1071-1095 | A commit, also one refused half way, keeps the correspondence of every log prefix with a range of id-map records |
| NodeDurability.CompactNodes | nervusdb-storage/src/engine.rs:451-473 | A checkpoint at any transaction id moves exactly the covered node records out of the replayed part |
| NodeDurability.RewriteNodes | nervusdb-storage/src/engine.rs:501-575 | After the log is rewritten nothing is replayed over the records on disk |
| NodeDurability.CrashRecoversNodes | nervusdb-storage/src/engine.rs:1101-1135 | For every surviving prefix of the log and every prefix of the records on disk that holds the checkpointed ones: replay succeeds exactly when no record with external id 0 is met again and every label change names a node known by then; it then gives exactly those records, indexed, with first labels changed as the replayed log tells |
| NodeDurability.RestartNodes | nervusdb-storage/src/engine.rs:1101-1135 | The recovered id map satisfies the invariant again over the surviving log |
| NodeDurability.ReopenedLabelsIff | nervusdb-storage/src/engine.rs:1130-1135 | Reopening gives a node its live labels exactly when the label changes under the checkpoint net to its first label |
| Engine.GraphEngine.constructor | nervusdb-storage/src/engine.rs:76-150 | A new store satisfies the invariant with an empty log |
| Engine.GraphEngine.BeginWrite | nervusdb-storage/src/engine.rs:205-218 | The id taken lies above every logged and published one |
| Engine.GraphEngine.ApplyWrites | nervusdb-storage/src/engine.rs:1071-1084 | Creations then label changes reach the id map up to the first that fails; it succeeds exactly when the records have pages and every change names a node |
| Engine.GraphEngine.LogAndApply | nervusdb-storage/src/engine.rs:809-1084 | The transaction is durable before the id map changes; segments stay intact exactly when the new records grew over none of their pages |
| Engine.GraphEngine.Settle | nervusdb-storage/src/engine.rs:809-1084 | The invariant holds with the view that is about to be published, before it is |
| Engine.GraphEngine.Commit | nervusdb-storage/src/engine.rs:809-1098 | Fails, after logging, exactly when a record has no page or a label change names a missing node, and publishes nothing then; otherwise publishes a run that tells exactly its operations, or nothing if they leave nothing behind. The log carries the transaction either way; the invariant is kept unless pages run out, and then the store does not open again on the log and pages this leaves; an oversized record makes the log unreadable |
| Engine.StuckNeverOpens | nervusdb-storage/src/engine.rs:1071-1084 | A log whose creations ran out of pages cannot be opened over the records that did reach the disk |
| Engine.GraphEngine.GetOrCreateLabel | nervusdb-storage/src/engine.rs:227-268 | Same id for a known name and no change; otherwise logged, durable and published; a name over the record limit makes the log unreadable |
| Engine.GraphEngine.WriteCompaction | nervusdb-storage/src/engine.rs:323-450 | Folds the runs and writes segment, the pages sinking takes, and statistics to free pages; succeeds exactly when no edge goes into the largest id, sinking succeeded, the page ids fit the meta page and the pages suffice for all three |
| Engine.GraphEngine.Compact | nervusdb-storage/src/engine.rs:323-490 | Fails exactly under that condition with view and log unchanged; otherwise the runs become one new front segment holding their fold, loadable from its pages, logged before it is published. The record logged holds the new epoch, the pointers of all segments, both roots and the checkpoint of the newest run |
| Engine.GraphEngine.CheckpointOnClose | nervusdb-storage/src/engine.rs:501-575 | With no runs the log becomes the snapshot and the view stays; with runs the log stays. The snapshot defines every label under its id, then names epoch, segment pointers and roots |
| Engine.Open | nervusdb-storage/src/engine.rs:76-150 | Succeeds exactly when log, id-map records, manifest segments and labels are readable, the node records replay and their pages can be had; gives view, id map and next transaction id together |
| Engine.CrashOpens | nervusdb-storage/src/engine.rs:76-150 | In every reachable state, for every surviving prefix of log and records: open gives the durable view and the id map of that time exactly when the segments load, no zero id is met again, label changes name known nodes and pages suffice |
| EngineReads.CommittedNext | nervusdb-storage/src/engine.rs:1091-1093 | A commit adds its operations to the transactions the published runs tell |
| EngineReads.CrashKeepsTransactions | nervusdb-storage/src/engine.rs:76-150 | Crash at any time and reopen, when that is possible: scans and property lookups answer from exactly what is kept of the operations committed by then |
| Engine.CrashAndReopen | nervusdb-storage/src/engine.rs:76-150 | The same on the engine object for every byte at which the log is cut; an uncut log loses nothing |
| Engine.Reopen | nervusdb-storage/src/engine.rs:76-150 | After a crash on a record boundary the reopened engine satisfies the whole invariant again over the surviving log; its segments stay intact exactly when the records written by replay share no page with them |
| Engine.LabelsSurviveIff | nervusdb-storage/src/engine.rs:1130-1135 | In every reachable state without a refused commit, a node keeps its labels across a reopen exactly when its label changes under the checkpoint net to its first label |
| Engine.CompactedView | nervusdb-storage/src/engine.rs:323-490 | In every reachable state with clean runs, compaction changes a query by exactly the older edges that dropped tombstones hid, and makes it panic exactly under that condition |
| EngineCases.CommitAndCrash | nervusdb-storage/src/engine.rs:809-1098 | From a new store, for all label changes and creations on the id map's first page: whether the commit succeeds and whether the store opens again, as two exact conditions |
| EngineCases.ZeroIdBlocksReopen | nervusdb-storage/src/idmap.rs:60-68 | A node with external id 0 is committed, and the store does not open again |
| EngineCases.RefusedChangeBlocksReopen | nervusdb-storage/src/engine.rs:1071-1095 | A label change of a missing node is refused after it was logged, and the store does not open again |
| CommitHistory.ToldByCommits | nervusdb-storage/src/engine.rs:323-490 | However often compaction ran, runs over the current segments show what the first commits show by themselves, plus exactly what each compaction let resurface |
| CommitHistory.NoDrift | nervusdb-storage/src/engine.rs:323-490 | That surplus is nothing when no compaction dropped a tombstone over an older copy or a run's own tombstones |
| CommitHistory.LaterSegments | nervusdb-storage/src/engine.rs:476-483 | Runs read with later segments show exactly the edges folded in between once more, unless the runs hide them |
| ReaderProtocol.ExecutionInv | nervusdb-storage/src/engine.rs:188-218 | Every state of every interleaving of commit steps, compaction steps that publish the fold of the runs they clear, label creations and reader loads keeps the invariant |
| ReaderProtocol.SnapshotCovers | nervusdb-storage/src/engine.rs:1071-1095 | In every snapshot runs have strictly descending ids and the node-label vector covers every node their transactions created; while every commit used known label ids, so does the vector, when no label was published between the two label loads |
| ReaderProtocol.SnapshotKeepsProperties | nervusdb-storage/src/engine.rs:188-203 | In every snapshot of every interleaving each commit published before its runs were loaded is among those runs or sunk into the store its root names, the half-published window included |
| ReaderProtocol.SnapshotIsMoment | nervusdb-storage/src/engine.rs:476-483 | The pair of runs and segments is one point of history exactly when no compaction published between the loads or the runs were empty; it is no older than the read exactly when, further, the runs were not loaded in a half-published window |
| ReaderProtocol.SnapshotTells | nervusdb-storage/src/engine.rs:188-203 | When no compaction published between the loads, or the runs were empty, every query over the snapshot counts each edge as a prefix of the commit history does, with the compactions' resurfaced copies |
| ReaderProtocol.SnapshotExcess | nervusdb-storage/src/engine.rs:188-203 | Otherwise every query counts that plus exactly the edges folded between the loads that the runs do not hide |
| ReaderProtocol.SnapshotExactIff | nervusdb-storage/src/engine.rs:188-203 | A snapshot tells its moment on every query exactly when each edge folded between the loads is hidden by its runs |
| ReaderProtocol.HalfPublishedRead | nervusdb-storage/src/engine.rs:476-483 | An execution whose snapshot misses a transaction published before the read began |
| ReaderProtocol.DoubledRead | nervusdb-storage/src/engine.rs:188-203 | For every clean transaction an execution whose snapshot shows each of its edges exactly twice as often as it was committed |
| Pagers.MetaRoundTrip | nervusdb-storage/src/pager.rs:65-131 | The meta page decodes to itself exactly for this page size and epoch and a next id that is not defaulted |
| Format.MetaFormat | nervusdb-storage/src/pager.rs:65-80 | The meta page is, byte by byte: magic in sixteen bytes, version, page size, bitmap page, next page, id map, index catalog, format epoch, zeros |
| Format.MetaReads | nervusdb-storage/src/pager.rs:82-131 | For every page: opening reads next page, id map start, length and next id from it, the length standing in for a next id of zero, or gives the error for magic, page size or format, in this order |
| Format.BitmapFormat | nervusdb-storage/src/pager.rs:147-169 | A page is allocated exactly when bit p modulo 8 of byte p over 8 is set, counting from the lowest |
| Pagers.PutBitAt | nervusdb-storage/src/pager.rs:155-169 | Setting or clearing one bit changes that bit only |
| Pagers.Pager.Create | nervusdb-storage/src/pager.rs:198-221 | A new file has exactly pages 0 and 1 allocated |
| Pagers.Pager.SetAllocated | nervusdb-storage/src/pager.rs:151-169 | The bitmap bytes represent the allocation set with exactly that page changed |
| Pagers.Pager.FindFree | nervusdb-storage/src/pager.rs:171-178 | The least free data page below the bound, or none when all are taken |
| Pagers.Pager.Allocate | nervusdb-storage/src/pager.rs:378-395 | The least free data page, never a live page; fails exactly when every page is taken; no data page changes |
| Pagers.Pager.EnsureAllocated | nervusdb-storage/src/pager.rs:434-452 | The given data page becomes allocated, also when it already was; fails exactly out of range |
| Pagers.Pager.Free | nervusdb-storage/src/pager.rs:397-406 | Exactly that page is freed; fails exactly for a page that is no allocated data page |
| Pagers.Pager.Read | nervusdb-storage/src/pager.rs:408-417 | The page, or the error for a page out of range or not allocated |
| Pagers.Pager.Write | nervusdb-storage/src/pager.rs:419-427 | Only that page changes, and only when it is allocated |
| Pagers.Pager.SetIdMapMeta | nervusdb-storage/src/pager.rs:351-364 | The meta page on file follows the fields; no data page changes |
| Pagers.OpenFile | nervusdb-storage/src/pager.rs:223-241 | Errors of a short file and of the meta page; otherwise meta and bitmap as on file |
| Pagers.CloseAndOpen | nervusdb-storage/src/pager.rs:198-241 | After any operations, opening the file again gives the same pages, meta and allocation set |
| BlobStores.WriteDirect | nervusdb-storage/src/blob_store.rs:19-47 | Succeeds exactly when enough pages are free; then the blob reads back as the data, on pages that were free, and every page in use keeps its bytes |
| BlobStores.ZeroPage | nervusdb-storage/src/blob_store.rs:21-28 | The page of an empty blob is the all-zero page |
| Format.BlobFormat | nervusdb-storage/src/blob_store.rs:19-47 | A blob page is, byte by byte: next page, length, data, zeros |
| BlobStores.ReadDirect | nervusdb-storage/src/blob_store.rs:55-70 | Returns what following the chain gives: data, the first error, or no end on a chain that comes back to itself |
| BlobStores.Delete | nervusdb-storage/src/blob_store.rs:73-81 | Leaves allocated exactly what following the chain leaves, and ends on every page graph |
| BlobStores.ChainReads | nervusdb-storage/src/blob_store.rs:55-70 | A finished chain reads as its data |
| BlobStores.BlobMeans | nervusdb-storage/src/blob_store.rs:55-70 | For all pages: a blob reads as its data when following the next pages ends at 0, as the error of the first page that cannot be read or whose length is out of range, and for ever when it comes back to a page |
| BlobStores.UntouchedChain | nervusdb-storage/src/blob_store.rs:19-47 | Every other blob still reads the same after writes to free pages |
| BlobStores.ChainRewrittenIff | nervusdb-storage/src/blob_store.rs:55-70 | When one page is overwritten a chain survives exactly if the page is not among its pages or keeps its link, length and data |
| BlobStores.ChainDeletes | nervusdb-storage/src/blob_store.rs:73-81 | Deleting a blob frees exactly its chain |
| BlobStores.DeleteRestores | nervusdb-storage/src/blob_store.rs:73-81 | Writing a blob and deleting it restores the allocation set |
| CsrPages.WriteBlobPages | nervusdb-storage/src/csr.rs:379-395 | Succeeds exactly when enough pages are free; the listed pages then hold the bytes |
| CsrPages.ReadBlobPages | nervusdb-storage/src/csr.rs:397-404 | The listed pages in order, or the first error |
| CsrPages.SegmentMetaRoundTrip | nervusdb-storage/src/csr.rs:187-310 | An encoded segment meta page decodes to itself |
| Format.SegmentHeadFormat | nervusdb-storage/src/csr.rs:187-253 | The meta page of a segment begins with magic, ids, bounds, lengths and page counts at fixed places |
| Format.SegmentTailFormat | nervusdb-storage/src/csr.rs:187-253 | and goes on with the page ids of offsets, edges, reverse offsets and reverse edges in this order |
| CsrPages.OffsetsRoundTrip | nervusdb-storage/src/csr.rs:334-354 | Encoded offsets decode to themselves whatever follows |
| CsrPages.EdgesRoundTrip | nervusdb-storage/src/csr.rs:356-377 | Encoded edge records decode to themselves whatever follows |
| Format.IndexFormat | nervusdb-storage/src/csr.rs:334-377 | Offsets are eight bytes each; an edge record is its type and its far end, four bytes each |
| CsrPages.Persist | nervusdb-storage/src/csr.rs:148-181 | Succeeds exactly when the page ids fit the meta page and enough pages are free; load then returns the same segment and no page in use changes |
| CsrPages.Load | nervusdb-storage/src/csr.rs:82-87 | The segment a meta page stands for, or the first error |
| CsrPages.LoadUntouched | nervusdb-storage/src/csr.rs:82-87 | A segment loads unchanged after any writes to free pages |
| CsrPages.PersistEdges | nervusdb-storage/src/csr.rs:89-181 | Edges to pages and back: succeeds exactly when no edge goes into the largest id, the page ids fit the meta page and pages suffice; the loaded segment then serves exactly the edges, on pages that were free |
| CsrPages.PersistBuilt | nervusdb-storage/src/csr.rs:148-181 | A built segment persists exactly when the page ids fit the meta page and pages suffice, on pages that were free and no more than its edges ask for, and loads back unchanged |
| SegmentPages.ListedIff | nervusdb-storage/src/engine.rs:97-112 | Loading a manifest gives back exactly the given segments exactly when each loads from its page |
| SegmentPages.LoadManifest | nervusdb-storage/src/engine.rs:97-112 | The loading loop returns the listed segments in order, or the first error, for every manifest and every page file |
| SegmentPages.FootprintLive | nervusdb-storage/src/csr.rs:82-87 | A loadable segment sits on allocated pages |
| SegmentPages.LoadKept | nervusdb-storage/src/csr.rs:82-87 | A segment loads the same while its own pages keep their bytes |
| SegmentPages.IntactUntouched | nervusdb-storage/src/engine.rs:334-338 | Writes to free pages keep every durable segment |
| SegmentPages.IntactGains | nervusdb-storage/src/engine.rs:334-338 | A newly persisted segment joins them |
| SegmentPages.IntactIff | nervusdb-storage/src/idmap.rs:248-254 | When the id map grows, every durable segment still loads and has pages of its own exactly when the new records' pages are none of theirs; the loss itself is `SegmentPages.SegmentSurvivesIff` |
| SegmentPages.SegmentSurvivesIff | nervusdb-storage/src/idmap.rs:233-254 | An id-map record that changes the first word of a page breaks a segment exactly if the page is one of its pages |
| IdMaps.RecoveryIdempotent | nervusdb-storage/src/engine.rs:1115-1135 | Replaying a log over any longer prefix of its outcome already on disk ends in the same id map exactly when no record between has external id 0; otherwise the store no longer opens |
| IdMaps.RecoveredIds | nervusdb-storage/src/engine.rs:1101-1135 | Exactly when the replay of a log suffix over a loaded prefix of the records succeeds, and exactly the records, index and labels it then gives |
| NodeReplay.ReplayDecides | nervusdb-storage/src/engine.rs:1115-1135 | For every id map and every log: replay succeeds exactly when each creation repeats what is known or carries the next number at its first mention, and each label change names a node there is by then; then one node is added per fresh external id, in order of first mention |
| IdMaps.CoveredLabelsIff | nervusdb-storage/src/engine.rs:1130-1135 | Replaying only the later label changes gives a node the same labels exactly when the earlier ones net to its first label |
| IdMaps.RelabelMembers | nervusdb-storage/src/idmap.rs:191-223 | After any label changes a node has exactly the labels whose last change added them and the first ones that never changed |
| IdMaps.CheckpointRecoveryIff | nervusdb-storage/src/engine.rs:1101-1135 | Checkpointed recovery returns the whole id map with its labels exactly when no record on disk has external id 0 and every node's covered label changes net to its first label |
| IdMaps.CoveredLabelIsLost | nervusdb-storage/src/idmap.rs:60-68 | A label added under a checkpoint is gone after the recovery that follows: a concrete log |
| IdMaps.NodeWriter.CreateNode | nervusdb-storage/src/engine.rs:671-693 | Fails exactly for an external id known to the map or to the transaction; internal ids are dense |
| IdMaps.ReservedApply | nervusdb-storage/src/engine.rs:1071-1084 | Ids handed out under the write lock never fail the checks at commit |
| IdMaps.MissingNodePoisonsLog | nervusdb-storage/src/engine.rs:1130-1135 | What a commit logs replays exactly when every label change names a node that exists or is created by it |
| IdMapPages.RecordRoundTrip | nervusdb-storage/src/idmap.rs:20-37 | A record decodes to itself |
| Format.IdRecordFormat | nervusdb-storage/src/idmap.rs:226-254 | Record i lies on page start + i / 512, from byte 16 * (i mod 512) on: external id, label, flags |
| IdMapPages.IdMap.ApplyCreateNode | nervusdb-storage/src/idmap.rs:134-188 | Fails exactly when a check fails or the next consecutive page cannot be had; otherwise memory and disk hold the new record and only its page changed |
| IdMapPages.IdMap.WriteNext | nervusdb-storage/src/idmap.rs:233-246 | Sixteen bytes of the target page change and every earlier record stays |
| IdMapPages.IdMap.EnsureStart | nervusdb-storage/src/idmap.rs:153-161 | The first record takes a fresh start page |
| IdMapPages.Load | nervusdb-storage/src/idmap.rs:51-78 | The maps rebuilt from the records on the consecutive pages, or the first error |
| IdMapPages.Reload | nervusdb-storage/src/idmap.rs:51-78 | Loading what was applied gives back every record, its index but for id 0, and first labels |
| IdMapPages.IdMap.ApplyAddLabel | nervusdb-storage/src/idmap.rs:191-207 | Labels stay sorted and without duplicates, and exactly this one is a member besides the old ones; fails exactly for a missing node |
| IdMapPages.IdMap.ApplyRemoveLabel | nervusdb-storage/src/idmap.rs:210-223 | Labels stay sorted and without duplicates, and exactly this one is a member no more; fails exactly for a missing node |
| IdMapPages.IdMap.ApplyCreations | nervusdb-storage/src/engine.rs:1071-1079 | Succeeds exactly when the consecutive pages of the new records can be had |
| IdMapPages.IdMap.ApplyChanges | nervusdb-storage/src/engine.rs:1080-1084 | Applies label changes up to the first that names a missing node |
| IdMapPages.IdMap.ReplayRecord | nervusdb-storage/src/engine.rs:1115-1135 | One record replayed: it succeeds exactly when the specified step does and its page can be had |
| IdMapPages.IdMap.Replay | nervusdb-storage/src/engine.rs:1101-1135 | The replay loop succeeds exactly when the specified replay does and the consecutive pages of its outcome can be had; it then computes that outcome, with its records on disk |
| IdMapPages.Recover | nervusdb-storage/src/engine.rs:1115-1135 | Load and replay after a crash at any point of the application reach the same id map exactly when no reloaded record has external id 0 and the remaining pages can be had |
| IdMapPages.CreateBesideBlob | nervusdb-storage/src/idmap.rs:134-188 | Creating a node keeps a blob exactly when the record's page is not one of its pages or keeps link, length and data |
| IdMapPages.SharedPageBreaksBlob | nervusdb-storage/src/idmap.rs:248-254 | On a pager: the 513th node takes the page of any blob written before it, and the blob no longer reads |
| Vacuum.ScanWalRoots | nervusdb-storage/src/vacuum.rs:81-115 | The vacuum scan finds the epoch, segments and roots recovery finds, for every committed log |
| Vacuum.MarkBlobChain | nervusdb-storage/src/vacuum.rs:189-214 | Marking ends on every page graph, cyclic ones included |
| Vacuum.ChainMarks | nervusdb-storage/src/vacuum.rs:189-214 | A well-formed chain off the marked pages is marked exactly |
| Vacuum.MarkedIsChain | nervusdb-storage/src/vacuum.rs:189-214 | Marking succeeds only on such a chain |
| Vacuum.MarkIff | nervusdb-storage/src/vacuum.rs:189-214 | Marking a chain succeeds exactly on a well-formed chain off the marked pages |
| Vacuum.ApartIff | nervusdb-storage/src/vacuum.rs:117-187 | Marking chains one after the other succeeds exactly when they are well formed, pairwise disjoint and off the marked pages, whatever the order |
| Vacuum.MarkBlobs | nervusdb-storage/src/vacuum.rs:117-187 | Marking several chains succeeds exactly when they are well formed, pairwise disjoint and off the marked pages, and marks exactly their pages |
| Vacuum.MarkSegment | nervusdb-storage/src/vacuum.rs:216-253 | Marks the pages a version 1 meta page lists |
| Format.OldSegmentFormat | nervusdb-storage/src/vacuum.rs:216-253 | For every page: the pages it lists, read at their places behind the version 1 magic and the two counts |
| Vacuum.LoadableSegmentsStopVacuum | nervusdb-storage/src/vacuum.rs:221-226 | Every segment the engine can load makes marking fail |
| Vacuum.MarkI2e | nervusdb-storage/src/vacuum.rs:123-134 | Exactly the pages that hold id-map records are marked |
| Vacuum.MarkReachable | nervusdb-storage/src/vacuum.rs:117-187 | Succeeds exactly when the blobs are well formed, disjoint and off what is marked before, and every manifest segment is in the old format; then exactly the reachable pages are marked |
| Vacuum.WriteVacuumCopy | nervusdb-storage/src/pager.rs:243-307 | Succeeds exactly when marked pages are in range and allocated; the copy allocates exactly them with the same bytes |
| Vacuum.VacuumInPlace | nervusdb-storage/src/vacuum.rs:20-71 | Succeeds exactly when marking does and every reachable page can be copied; the opened copy then allocates exactly the reachable pages, and every reachable blob, id-map record and tree page reads the same |
| BulkLoad.Validate | nervusdb-storage/src/bulkload.rs:182-210 | Succeeds exactly for distinct external ids and edges between known nodes |
| BulkLoad.BuildNames | nervusdb-storage/src/bulkload.rs:170-179 | Every label and type is interned once, in the order in which the input first mentions them |
| BulkLoad.NamesInterned | nervusdb-storage/src/bulkload.rs:170-179 | The label table of an input is duplicate-free and holds exactly its labels and types |
| BulkLoad.NamesInOrder | nervusdb-storage/src/bulkload.rs:170-179 | Of two names in the table, the one listed first was mentioned before the other: node labels in input order, then relationship types |
| BulkLoad.BuildIdMap | nervusdb-storage/src/bulkload.rs:213-243 | Succeeds exactly when the file has room for the record pages; internal ids are then input positions, in memory and on disk |
| BulkLoad.ResolveEdges | nervusdb-storage/src/bulkload.rs:246-271 | Every edge becomes the ids of its endpoints and type |
| BulkLoad.ResolvesUnique | nervusdb-storage/src/bulkload.rs:256-267 | Those ids determine the edge and are determined by it |
| BulkLoad.InitializeWal | nervusdb-storage/src/bulkload.rs:438-488 | The log replays to one transaction that carries labels, segment and roots; it is unreadable exactly when a name is over the record limit |
| BulkLoad.LoadedOpens | nervusdb-storage/src/bulkload.rs:438-488 | Files with that log, segment and records open to exactly the loaded view and records |
| BulkLoad.Commit | nervusdb-storage/src/bulkload.rs:128-167 | Fails exactly on invalid input, page ids that overflow the meta page, or too little room; otherwise the files open with the input's nodes, found by external id, its labels, the property tree and the statistics under the roots, no runs, and one segment whose scans return exactly the input's edges |
| BulkLoad.LoadedFinds | nervusdb-storage/src/bulkload.rs:213-243 | The reopened id map finds every node by its external id, with its label, exactly unless the id is 0 |
| BulkLoad.LoadedScan | nervusdb-storage/src/bulkload.rs:246-329 | Every scan in either direction returns exactly the input edges asked for; it panics exactly without edges, into node 0 |
| BulkLoad.LoadedServes | nervusdb-storage/src/bulkload.rs:246-329 | The same with each query written out in terms of the input: a scan returns an edge as often as the input lists it between those external ids with that type |
| BulkLoad.KeysCount | nervusdb-storage/src/bulkload.rs:246-271 | A resolved edge occurs as often as the input lists an edge between the nodes at its positions with its type |
| Overlay.PropertyFromRuns | nervusdb-storage/src/read_path_overlay.rs:7-41 | The newest-first search finds what applying the runs oldest to newest leaves, and what the first run that sets or removes the key says |
| Overlay.MergeFromRuns | nervusdb-storage/src/read_path_overlay.rs:43-101 | The merged map is the runs applied oldest to newest, and holds for each key what the first run that sets or removes it says |
| Overlay.NewestIsApplied | nervusdb-storage/src/read_path_overlay.rs:7-101 | On every key, search and application agree; `FirstDecides` says which run decides |
| Overlay.FirstDecides | nervusdb-storage/src/read_path_overlay.rs:7-101 | A key set by the first run that mentions it has that value; removed there, it has none; mentioned nowhere, it has none |
| Overlay.NewestIsMark | nervusdb-storage/src/read_path_overlay.rs:7-101 | Value, removal or no mention: what the newest-first search finds is the first mark in the runs |
| Overlay.StoreKeyInjective | nervusdb-storage/src/read_path_property_store.rs:19-26 | Store keys of different owners or names differ |
| Format.StoreKeyFormat | nervusdb-storage/src/read_path_property_store.rs:19-26 | A store key is, byte by byte: tag, owner, length of the name, most significant byte first, and the name |
| Overlay.PrefixIff | nervusdb-storage/src/read_path_property_store.rs:93-107 | A key has an owner's prefix exactly when it is that owner's |
| Overlay.ReadIsFirst | nervusdb-storage/src/read_path_property_store.rs:7-77 | In an ordered store the point read returns the first entry of the key |
| Overlay.ExtendFromStore | nervusdb-storage/src/read_path_property_store.rs:79-181 | The prefix scan fetches exactly the owner's entries the map lacks, and gives up when one does not decode |
| Overlay.FilledIsLast | nervusdb-storage/src/read_path_property_store.rs:117-127 | A name the map lacks gets the value of its last entry |
| Overlay.PropertiesOf | nervusdb-storage/src/api.rs:210-247 | Merged runs extended by the store |
| Overlay.PointAgreesWithMap | nervusdb-storage/src/api.rs:179-247 | The two API lookups agree on a key exactly when the runs set it or its first and last store entries hold the same value |
| Overlay.DistinctFirstIsLast | nervusdb-storage/src/api.rs:179-247 | With distinct store keys that always holds |
| Overlay.RemovedKeyResurfaces | nervusdb-storage/src/api.rs:179-192 | The API lookup is right exactly unless the key is removed in the runs and still in the store |
| Overlay.CollectSunk | nervusdb-storage/src/engine.rs:355-372 | Sinking takes the newest value of every key, whatever was removed since |
| Overlay.SunkMeans | nervusdb-storage/src/engine.rs:355-372 | The value taken is that of the first run, newest first, that sets the key; none if no run does |
| Overlay.SinkAll | nervusdb-storage/src/engine.rs:374-412 | After the insertions every sunk key reads as its value, except keys the store held whose new entry landed behind an older one; every other key reads as before, and every key the store held keeps its last entry |
| Overlay.SinkPreservesIff | nervusdb-storage/src/engine.rs:354-412 | Sinking preserves a lookup exactly unless the newest mention is a removal over an older value the store does not hold, or a newest value landed behind a different older entry |
| Overlay.ResunkKeyDiverges | nervusdb-storage/src/index/btree.rs:463-491 | Sinking a key the store holds: the map lookup keeps the value it had, and the point lookup sees the new one exactly when it landed in front of the older entries |
| Parentheses.ParseRender | nervusdb-query/src/parser.rs:1003-1124 | For every expression, pattern predicates included, parsing its minimal rendering consumes it all and gives the expression back |
| Parentheses.RenderInjective | nervusdb-query/src/parser.rs:1586-1694 | Different expressions render differently |
| Precedence.LadderIsPowers | nervusdb-query/src/parser.rs:43-53 | The ladder of eight levels, from OR to power, orders every two operators as their powers do |
| Precedence.TwoOperators | nervusdb-query/src/parser.rs:1003-1068 | Without parentheses the operator on the higher level of the ladder takes the middle operand; on one level the left one does, and two comparisons in a row mean both, joined by AND |
| Precedence.NotAndOperator | nervusdb-query/src/parser.rs:1090-1124 | NOT takes comparisons and everything tighter, and leaves AND, XOR and OR outside |
| Precedence.MinusAndOperator | nervusdb-query/src/parser.rs:1090-1124 | A minus sign takes its operand alone, before every operator |
| Precedence.NotInside | nervusdb-query/src/parser.rs:1003-1124 | NOT as a right operand stands after any operator, and takes what follows as far as it does in front |
| Precedence.NullTestReads | nervusdb-query/src/parser.rs:1008-1021 | A null test takes the operand before it alone |
| Precedence.PlusIsNothing | nervusdb-query/src/parser.rs:1090-1124 | For all tokens and all minimum powers: a plus sign where an operand may begin changes nothing |
| Parentheses.FitsReads | nervusdb-query/src/parser.rs:1003-1124 | Tokens parenthesised wherever binding powers and what follows ask for it, with no parenthesis starting a pattern that is not meant, are read as meant, at every minimum power and before any tokens that stop it |
| Parentheses.ReadAsMeantIff | nervusdb-query/src/parser.rs:1003-1124 | A way of placing parentheses is read as it is meant exactly when every operand fits its place and no parenthesis starts a pattern |
| Parentheses.OnlyBeforeDash | nervusdb-query/src/parser.rs:1455-1468 | A parenthesis starts a pattern only around a bare identifier and before a dash |
| Parentheses.SubtractionReadAsPattern | nervusdb-query/src/parser.rs:676-752 | `(a) - (b)` has all the parentheses it needs and is read as a pattern predicate, not as a subtraction |
| Parentheses.PatternReads | nervusdb-query/src/parser.rs:574-616 | A pattern of any number of nodes is read as itself before anything but a dash |
| Parentheses.DropUnfits | nervusdb-query/src/parser.rs:43-53 | Every pair of parentheses in the minimal rendering is there because its operand would not fit without it, or is a pattern before a dash |
| Parentheses.RenderIsMinimal | nervusdb-query/src/parser.rs:1003-1124 | Dropping any one pair of parentheses from the rendering of an expression without pattern predicates changes what the parser reads |
| Parentheses.SamePlaces | nervusdb-query/src/parser.rs:1003-1124 | Two ways of placing parentheses with the same tokens and meaning are the same |
| Parentheses.ChainMeansPairs | nervusdb-query/src/parser.rs:1040-1062 | An unparenthesised chain of comparisons parses to the left-nested AND of its adjacent pairs |
| Parser.TokenParser.Advance | nervusdb-query/src/parser.rs:1898-1911 | One step and one token, unless at the end or over the budget |
| Parser.TokenParser.ParseExpressionBp | nervusdb-query/src/parser.rs:1003-1068 | As long as the step budget lasts the parser agrees with the specification, and its steps make up exactly the price of the tokens consumed |
| Parser.TokenParser.ParsePrefixExpression | nervusdb-query/src/parser.rs:1090-1124 | NOT, minus, the smallest integer, plus and primaries as specified, as long as the budget lasts |
| Parser.TokenParser.ParseInfixLoop | nervusdb-query/src/parser.rs:1023-1065 | The infix loop as specified, as long as the budget lasts |
| Parser.TokenParser.ParseChainLoop | nervusdb-query/src/parser.rs:1040-1058 | The chain loop as specified, as long as the budget lasts |
| Parser.TokenParser.ParseNullLoop | nervusdb-query/src/parser.rs:1008-1021 | The null-test loop as specified, as long as the budget lasts |
| Parser.TokenParser.TryPattern | nervusdb-query/src/parser.rs:1455-1468 | The attempt at a pattern finds what the specification finds, goes back otherwise, and takes exactly the specified steps |
| Parser.TokenParser.ParsePattern | nervusdb-query/src/parser.rs:574-616 | Node, then relationship and node as long as a dash follows, as specified |
| Parser.ParseExpression | nervusdb-query/src/parser.rs:998-1001 | The specified result, or the complexity error; tokens that are read to their end are refused exactly when the default budget does not cover their price |
| Parser.ShortIsAffordable | nervusdb-query/src/parser.rs:76-80 | Up to 2047 tokens the budget is never reached |
| Parentheses.LongDifferenceIff | nervusdb-query/src/parser.rs:86-92 | A difference of identifiers in parentheses is readable at any length and is refused for its complexity exactly from 4094 of them on |
| Parentheses.ParseRendering | nervusdb-query/src/parser.rs:998-1001 | Running the token parser on the minimal rendering of any expression returns the expression |

## Left out

- Engine.GraphEngine.Commit: when the pages for new records run out the invariant is not promised on; the store then does not open again.
- Engine.GraphEngine.Compact: the root sinking returned, the pages it took and the encoded statistics are given; `Overlay.SinkAll` states what sinking does. That sinking rewrites tree pages in place is not modelled.
- Engine.GraphEngine.WriteCompaction: the same.
- Engine.Open: the index catalog and the vector index that opening also loads or creates, and the pages they take, are left out.
- Engine.GraphEngine.constructor: the same.
- Engine.Reopen: covers a crash on a record boundary that left no record on disk ahead of the durable log; `Engine.CrashAndReopen` covers every cut and every surviving record prefix, and `WalLog.CutThenAppendIff` says why the next commit needs the boundary.
- Engine.LabelsSurviveIff: speaks of stores in which no commit was refused; after a refused commit the log tells label changes the running store never applied.
- Durability.CrashRecovers: runs, segments, labels and roots only; `Engine.CrashOpens` joins it with the id map.
- SegmentPages.SegmentSurvivesIff: speaks of a record that changes the first word of the page; one that repeats the old bytes changes nothing.
- WalLog.AppendAfterTornTail: excludes straddled bytes whose checksum collides, since the checksum is an arbitrary function.
- EngineCases.CommitAndCrash: at most 512 creations, which need one page; `Engine.CrashOpens` has no such bound.
- BulkLoad.Commit: fewer than 4294967295 nodes and edges together, so that every id is a 32-bit one; nodes and edges without properties; the empty property tree is one given page and the encoded statistics are given.
- Vacuum.MarkReachable: the pages of the index and property trees, and the blob ids they hold, are given.
- Vacuum.VacuumInPlace: the same.
- Overlay.SinkAll: the page ids returned by the blob store are given as fresh ids; equal keys are taken to be read from the first one, which a tree that spread them over several leaves need not do.
- Overlay.ResunkKeyDiverges: the same.
- Parentheses.ReadAsMeantIff: speaks of token trees without unparenthesised comparison chains, whose meaning `Parentheses.ChainMeansPairs` states, and without pattern predicates as operands, for which `Parentheses.FitsReads` states one direction.
- Parentheses.RenderIsMinimal: the same.
- ReaderProtocol.SnapshotKeepsProperties: which commits a property root covers; that older roots see later values because the tree is changed in place is not modelled.
- The B-tree itself: the property store is its cursor order with insertion among equal keys; page splits, the index catalog and ordered index keys are left out.
- Secondary-index maintenance in commit, the index catalog's pages and the HNSW vector index.
- Crashes between page writes: pages are taken to reach the file in program order, and a crash keeps a prefix of the id map's records.
- Real file operations, paths and platform branches; files are byte sequences or page sequences.
- `LabelInterner::merge`, `replay_into` with its page records, and backup: the engine code modelled here does not call them.
- Parser clauses, function calls, lists, maps, `CASE`, property access, and labels, properties, brackets and arrows in patterns: the tokens of the expression core only, with patterns of bare nodes and dashes.
- The C, Node and Python bindings, the CLI, the planner and the executor.
