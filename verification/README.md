# litestreampp in Dafny

A model of how litestream takes the pages of a SQLite database from its WAL into LTX files, onto a
replica, and back into a restored database, together with the connection pool and the hot/cold tiers
that litestreampp adds. `dafny verify dfyconfig.toml` checks all of it.

The two theorems at the top are about whole runs of the whole system: applications commit and the
WAL is checkpointed, local syncs write level-0 LTX files, the replica uploads them, one goroutine per
level compacts, snapshots are taken and retention deletes files, all interleaved step by step, and
each of these jobs can stop half way.

* `Restore.LatestRestores`: in every reachable state in which the replica holds anything, there is a
  restore plan and it reaches the highest TXID stored on any level.
* `Restore.RestoreExact` and `Restore.CaughtUpRestores`: what a restore yields is the database that
  was committed at the last TXID of its plan, as replaying the committed WAL frames one by one
  defines it, if and only if the base snapshot is not too new for that TXID; and when every commit
  has been synced and uploaded it is exactly the committed database.

Where a theorem about syncs or restores has a condition, `Examples` has a run (or files) on which it fails and the
result is wrong.

## How it fits together

| file | what it is |
|---|---|
| `Bytes`, `WalFormat`, `WalWriter` | the WAL as bytes: words, checksums, valid frames; a writer as the inverse of the reader |
| `Checksums` | the checksum as Fibonacci-weighted sums, and known headers and frames |
| `WalReader` | the reader object of wal_reader.go |
| `History` | committed frames, what an LTX file carries, the compactor as last-writer-wins merge |
| `LocalSync`, `Db` | `verify`, `sync`, the LTX writers, `checkpoint` and `SnapshotReader` of db.go, as functions on the files and as an object proved equal to them |
| `SyncRuns` | all runs of commits, WAL writes, checkpoints and syncs |
| `ReplicaClient`, `RestorePlan`, `Compaction`, `Upload` | the replica store and the operations on it, as they run |
| `PlanFacts`, `LevelFacts`, `RetentionFacts` | what plans are, what writing and removing files does to a level, what retention spares |
| `PlanExact`, `Targets` | exactly when planning succeeds for every kind of target, and what a restore to a time gives |
| `CompactionFacts` | when a compaction is refused, and that retention clears it |
| `ReplicaRuns`, `RestoreRuns`, `Restore`, `MethodRuns` | all runs of the whole system, their invariant, what a restore yields, and that the operations of the code are runs of these steps |
| `Lru`, `ConnectionPool` | the linked recency list and the pool |
| `HotCold` | write detector and hot/cold manager |
| `Examples` | runs that show that the conditions are needed |
| `Sequences` | sequences without repetitions, and the order of their elements |

## What is taken as given

* `superfly/ltx` is not part of this model. An LTX file is a database size and a map from page numbers
  to pages, a WAL range and salts in its header. Its compactor lets later files win, drops pages above
  the final size and refuses a hole between its inputs. Its decoder refuses to write a database from a
  file that lacks a page up to its size other than the lock page. Its encoder refuses a page above the size in
  the header, page zero and the lock page, and a header that ends at TXID 0. `MaxTXID` of a slice is the
  greatest one, or 0. `IsContiguous(prev, min, max)` is `min <= prev + 1 && max > prev`.
* `LTXFiles` yields ascending (min, max) order from `seek` on, as replica_client.go:18-20 asks and
  replica_client_test.go:90-109 checks; the file client relies on the iterator of `superfly/ltx` to sort.
* What SQLite does (`History.WellFormed`, `History.IsTransaction`, `SyncRuns.CanWrite`,
  `SyncRuns.CanBackfill`, `SyncRuns.CanRestart`): a transaction writes every page by which it grows the
  database, never the lock page, and no page above the size it commits; a checkpoint copies pages into
  the database file; a restart of the WAL follows a complete checkpoint and changes the salts. The
  page size is fixed, at least 512, a multiple of 8 and below 2^32 - 24.
* The WAL restarts only inside `checkpoint`, and no application commits between the sync at db.go:1023
  and the checkpoint at db.go:1029. The code takes no write lock there, so this is a hypothesis about
  the environment (`SyncRuns.CanRestart`). Likewise no checkpoint runs while a snapshot is being
  encoded: the lock at db.go:1129 is released when `SnapshotReader` returns, before its goroutine reads.
* Every modelled file carries, besides its content, the range of committed frames that the content
  stands for (`ReplicaClient.File.span`). It is bookkeeping for the proofs and no decision reads it.
* A restore lists the replica in one state. Files that a compaction has listed it has also opened.
* At most one `Replica.Sync` runs at a time. The code does not enforce it: `DB.Close` (db.go:311) and
  `demoteToCold` (litestreampp/hotcold_manager.go:296) call it while the monitor may be in it. A slow
  upload could then store a TXID again after retention has removed it, so that TXIDs would not be
  stored once each and level 0 would not be consecutive.
* An upload that fails ambiguously has either stored its file when it returns or never does.

## Findings

* A snapshot labelled TXID p can contain commits made after p, because the label is read first
  (db.go:1121-1143). Restoring a TXID e from it is exact when the snapshot was read no later than e was
  synced (`Restore.SyncedAfterReadIsExact`). Otherwise it is exact iff the pages that the other files
  of the plan do not rewrite did not change (`History.TooNewExact`) or, when the snapshot is the whole
  plan, iff the database is the same at both points (`History.LaterIsSame`). Both fail in reachable
  states: `Examples.LoneSnapshotExample`, `Examples.TooNewExample`.
* If such a snapshot was read after a shrink that is not synced, restoring an earlier TXID can fail
  altogether although there is a plan, until the shrink is synced and uploaded: `Restore.RestoreExact`
  says exactly when, `Examples.MissingPagesExample` is such a run.
* Planning for a TXID target at or above the oldest kept snapshot can fail while (or after) level-0
  files are removed one by one under a new level-1 file: `Examples.UnsettledExample`. It works for all
  such targets exactly when level 0 starts where a kept file ends (`RetentionFacts.SettledExact`),
  which a retention run that is not interrupted restores (`RetentionFacts.RetentionSettles`).
* A restore to a time can fail although the snapshot and level-0 files that end later were stored before
  that time, because the TXIDs between them have been compacted into a file that is newer and excluded
  by its own creation time (replica.go:519-521): `Examples.TimeExample`. Level 0 is settled there and
  retention complete, so no further retention repairs it. `Targets.TimeRestores` says exactly when it
  happens.
* The branch at db.go:712-718 asks for a snapshot but leaves the offset in place, so that the snapshot
  misses the skipped WAL frames unless they have been backfilled: `SyncRuns.MissingPageSnapshotExact`,
  `Examples.MissingPageExample`. No run of `SyncRuns` gets there (`SyncRuns.VerifyDecides`). The branch
  before it, db.go:700-703, leaves the offset in place too, but there the reader falls back to the header
  and the snapshot is right (`SyncRuns.SaltMismatchSnapshots`).
* An incremental sync over several transactions, of which a later one shrinks the database, fails in
  the encoder: `SyncRuns.SyncOutcome` says exactly when, `Examples.SyncFailsExample` is such a run.
* A compaction is refused while TXIDs below the oldest kept snapshot are missing between its inputs,
  until retention has removed what precedes them: `CompactionFacts.RefusedExactly`,
  `CompactionFacts.RetentionClears`. It happens when retention removes files that the next level has
  not compacted yet: `Examples.RefusedExample`.
* A promotion that fails leaves a database in neither tier and hot only for the detector:
  `HotCold.WriteDetector.PerformScan` says exactly when the two agree,
  `HotCold.FailedPromotionExample` is a scan after which they do not.
* A connection whose close fails during eviction stays in the pool but leaves the recency list:
  `ConnectionPool.ConnectionPool.Get` says exactly when pool and list stay in step,
  `ConnectionPool.FailedCloseExample` is a pool that is out of step.
* Where comments and code differ the model follows the code: eviction of hot databases is in map order
  although write_detector.go:173 says oldest first; `PageMap` without a commit returns offset 0, not the
  original offset (wal_reader.go:217-219).

## Model

| member | source | states |
|---|---|---|
| WalReader.WALChecksum | wal_reader.go:238-247 | from zero, over n 32-bit words x[i] given by their four bytes in either byte order, the second word is the sum of Fib(n-i) x[i] and the first that of Fib(n-1-i) x[i], mod 2^32 (section 4.2 of SQLite's Database File Format); from any start it is the recursive checksum |
| Checksums.ChecksumIsFibonacci | wal_reader.go:238-247 | the recursive checksum from zero is the pair of these Fibonacci sums, for any even number of words |
| Checksums.KnownChecksum | litestream_test.go:28-34 | the checksum of the WAL header in the tests is the one they expect |
| Checksums.KnownHeaderReads | wal_reader.go:89-128 | that header is read as little-endian with pages of 4096 bytes and these salts |
| Checksums.KnownWalReads | wal_reader.go:89-186 | a big-endian WAL given byte by byte is read as its header and its one committed frame |
| WalFormat.ChecksumConcat | wal_reader.go:238-247 | a checksum can be continued piece by piece: the sum of a concatenation of aligned pieces is the sum of the second started from the sum of the first |
| WalReader.Reader.ReadHeader | wal_reader.go:89-128 | accepts exactly the headers that the format defines, with EOF, bad magic and bad version told apart, and leaves the reader before frame 0 |
| WalFormat.HeaderCases | wal_reader.go:89-128 | which of EOF, bad magic and bad version comes when, by the bytes of the file, and where the fields of an accepted header lie |
| WalReader.Reader.ReadFrameAt | wal_reader.go:136-186 | a frame is returned iff the buffer fits, the file holds it, the salts match and (when verifying) the running checksum matches; then position and checksum advance; otherwise the position stays, and the checksum moves on only when it was the checksum that failed |
| WalReader.Reader.ReadFrame | wal_reader.go:130-134 | from a valid position, returns a frame iff the valid prefix of the WAL has one more, and keeps the reader valid |
| WalReader.Reader.Offset | wal_reader.go:79-86 | the offset of the last frame read, in closed form, equals the recursively defined frame offset; 0 before the first |
| WalReader.NewWALReader | wal_reader.go:32-39 | a reader before the first frame that sees the parsed header, or the header's error |
| WalReader.NewWALReaderWithOffset | wal_reader.go:41-74 | succeeds iff the header is good, the offset lies in the file after the header and a whole number of frames from it, and the bytes of the salts of the previous frame are those asked for; the reader is then valid at that frame |
| WalReader.OpenCases | wal_reader.go:41-74 | which error comes when, in terms of the offset, the remainder and the bytes of the file |
| WalReader.ResumeIsReadThrough | wal_reader.go:41-74 | a reader opened at the end of a valid frame with the salts of the header equals, in every field, a fresh reader that has read up to there |
| WalFormat.OffDivision | wal_reader.go:60-65 | the remainder test on offsets accepts exactly the starts of frames |
| WalReader.Reader.PageMap | wal_reader.go:188-235 | the map has exactly the pages with a frame up to the last commit, each at its latest such frame; the offset is the end of the last commit frame, or 0; uncommitted frames contribute nothing |
| WalFormat.OffsetMapPage | wal_reader.go:203-215 | the page map has a page iff some frame of the range writes it, at the offset of the latest such frame |
| WalFormat.ResumeOverlay | wal_reader.go:191-235 | a reader resumed at a commit point of the valid prefix ends at the same frame, commit and size as a full read, and the full map is the prefix map overlaid by its map |
| WalFormat.ValidEndResume | wal_reader.go:136-186 | reading on from inside the valid prefix ends where reading from the start ends |
| WalFormat.FreshReaderReadsLongestPrefix | wal_reader.go:89-186 | the frames a fresh reader accepts are exactly the longest prefix with matching salts and a checksum equal to one pass over header and frames (sections 4.1 and 4.2 of SQLite's Database File Format) |
| WalWriter.WalReadsBack | wal_reader.go:89-186 | round trip: the bytes of any header and any writes are read back as that header and exactly those writes, all valid |
| WalWriter.CanAlwaysCommit | wal_reader.go:136-186 | every transaction with pages of the right size can be appended to such a WAL, so the steps of the runs below are possible |
| WalWriter.CanAlwaysRestart | db.go:1027-1033 | once everything is synced the WAL can be restarted with any new salts |
| WalWriter.CanStart | db.go:641-644 | an empty database with a fresh WAL satisfies the invariant of the runs |
| History.StateIsReplay | db.go:924-969 | the database at a commit point, defined by latest frames, is what executing all frames one by one gives, with truncation at commits |
| History.StateComplete | db.go:928-966 | at a commit point the database has exactly the pages 1 to its size except the lock page |
| History.CompactorOfChain | db.go:1262-1268 | compacting files whose frame ranges form a chain gives the file of the union of the ranges, also when ranges overlap or a full snapshot is in the middle |
| History.TooNewExact | db.go:1116-1210 | replaying frames over a base newer than their end gives the right database iff the pages they do not rewrite did not change |
| History.LaterIsSame | db.go:1116-1210 | a base that is used alone gives the database of an earlier point iff its size is the same and no live page changed in between |
| Db.DB.LtxContains | db.go:725-743 | the scan finds a page iff the file has a page of this number with exactly this content |
| Db.DB.Verify | db.go:635-723 | the method computes the decision function on the files, error case included |
| Db.VerifyCases | db.go:635-723 | for any files, in terms of the bytes of the WAL: when verify fails, where it continues and with which salts, and that it asks for a snapshot iff there is no LTX file, the WAL is shorter than the offset, or under an unchanged header the frame before the offset has other salts or a page that the last LTX file lacks |
| Db.DB.WriteLtxFromDb | db.go:924-969 | the loop encodes every page up to the size except the one that holds byte 2^30 of the database, from the bytes of the WAL where the page map has it and else from the database file; it fails iff a needed page cannot be read |
| Db.LockIsByte2To30 | db.go:925-931 | the page that is left out is the one holding byte 2^30 |
| Db.DB.WriteLtxFromWal | db.go:971-998 | the loop encodes for every page in the map the bytes of the WAL at its offset, and no other page; it fails iff a page lies above the size or holds byte 2^30 |
| Db.DB.OpenReader | db.go:798-815 | which reader a sync gets: at the header, at the offset, or at the header again when the previous frame does not match |
| Db.DB.Sync | db.go:754-922 | appends exactly the LTX file that the function on the files defines, or nothing when it skips or fails; the asserted WAL size is never negative |
| Db.DB.VerifyAndSync | db.go:606-619 | verify then sync, as one function of the files |
| Db.DB.Checkpoint | db.go:1009-1067 | nothing while the lock is taken; else sync, restart by SQLite, and a second sync iff the header changed; where each error leaves the files; a failing first sync leaves everything as it was |
| Db.DB.SnapshotReader | db.go:1116-1210 | the local position, and the whole database read through a fresh WAL reader |
| SyncRuns.WalFileIsContent | db.go:971-998 | an incremental LTX file is exactly the file of the frames committed since the last sync |
| SyncRuns.SnapshotIsState | db.go:924-969 | a snapshot through a reader at the WAL header is exactly the committed database |
| SyncRuns.SuffixSnapshotExact | db.go:924-969 | a snapshot whose page map starts at frame k is the committed database iff its size is right and the skipped frames have been backfilled |
| SyncRuns.MissingPageSnapshotExact | db.go:712-718 | when verify misses the last page, sync fails if the offset is no frame boundary, and otherwise writes the committed database iff the skipped frames have been backfilled and, if nothing follows them, the database file has the right size |
| Examples.MissingPageExample | db.go:712-718 | files on which verify misses the last page and sync writes a stale database |
| SyncRuns.SaltMismatchSnapshots | db.go:700-703 | when the frame before the offset has other salts than the header, verify asks for a snapshot; sync fails if the offset is no frame boundary, and otherwise falls back to the header and always writes the committed database, in a file that covers the WAL from its header to the last commit |
| SyncRuns.VerifyDecides | db.go:635-723 | in every state of a run, verify asks for a snapshot iff this is the first sync or the WAL is now shorter than the last position; otherwise it continues at the first frame not yet synced |
| SyncRuns.AppendRunNeverSnapshots | db.go:689-720 | after a sync that wrote a file, whatever commits, uncommitted WAL writes and partial checkpoints follow, verify does not ask for a snapshot and continues where the file ends |
| SyncRuns.AppendedNeverSnapshots | db.go:689-720 | in every state of a run in which the salts of the WAL are those of the newest LTX file, verify continues at its end |
| SyncRuns.SyncOpens | wal_reader.go:60-71 | the reader always opens at the next frame, or at the header for a snapshot; the unaligned error cannot happen |
| SyncRuns.SyncReads | db.go:817-836 | a sync encodes exactly the frames from there to the last commit |
| SyncRuns.SyncFramesContent | db.go:861-889 | the content and salts of what a sync writes, and the WAL range it records, from the first new frame to the last commit |
| SyncRuns.SyncOutcome | db.go:826-922 | a sync fails iff it is incremental and a page since the last sync lies above the final size, skips only when nothing was committed, and otherwise writes the next TXID and catches up |
| Examples.SyncFailsExample | db.go:971-998 | a run after which the sync fails |
| SyncRuns.RunKeepsEnds | db.go:871-872 | in every run WALOffset + WALSize of every LTX file is 32 bytes plus k frames of the WAL it was copied from, where k is 0 or its last frame is the one that committed the TXID |
| SyncRuns.CommitBoundary | db.go:657-657 | a sync position inside the current WAL follows a commit frame |
| SyncRuns.WriteKeepsInv | db.go:754-836 | commits and uncommitted WAL writes keep the invariant |
| SyncRuns.BackfillKeepsInv | db.go:1027-1033 | a partial checkpoint keeps the invariant |
| SyncRuns.RestartKeepsInv | db.go:670-687 | a WAL restart after a sync keeps the invariant |
| SyncRuns.SyncKeepsInv | db.go:754-922 | a sync, whatever its outcome, keeps the invariant |
| SyncRuns.SyncCatchesUp | db.go:1022-1025 | after a sync that did not fail, the LTX files reach the last commit |
| SyncRuns.CheckpointCatchesUp | db.go:1009-1067 | a checkpoint that restarts the WAL loses nothing, and its second sync always succeeds and reaches the last commit |
| SyncRuns.RunKeepsInv | db.go:606-619 | every run keeps the invariant |
| SyncRuns.LocalChainReplays | db.go:754-922 | in every run, replaying local LTX files 1 to t gives exactly the database committed when TXID t was written, over all branches of verify and sync |
| ReplicaClient.Insert | file/replica_client.go:106-155 | a directory after a write holds the new file and all files of other names |
| ReplicaClient.Client.LTXFiles | file/replica_client.go:63-97 | the files from the seek TXID on, in order |
| ReplicaClient.ListingSuffix | replica_client.go:18-20 | a listing from a TXID is a suffix of the directory, cut exactly where files start at or after it |
| ReplicaClient.Client.WriteLTXFile | file/replica_client.go:106-155 | wherever the write fails, listings show nothing of it; once it succeeds every listing shows exactly this file and the files of other names, in order |
| ReplicaClient.Client.DeleteLTXFiles | file/replica_client.go:158-167 | removes the files in order up to the first failure |
| RestorePlan.FindLTXFiles | replica_client.go:38-65 | the loop returns what the filter takes, in order, up to where the filter stops or fails |
| RestorePlan.FindSelects | replica.go:508-520 | a filter that always goes on selects exactly the matching files |
| RestorePlan.FindStops | replica_client.go:38-65 | where a filter stops or fails: exactly the files it takes up to there are found, and the search fails iff it failed |
| RestorePlan.CalcRestorePlan | replica.go:481-550 | the nested loops compute the plan function, with each of its errors; what the plan is for each kind of target is stated by `PlanFacts`, `PlanExact`, `Restore` and `Targets` |
| PlanFacts.PlanHasNoHoles | replica.go:481-550 | for any TXID or time target, a returned plan consists of stored files within the target, covers every TXID from 1 to its end, and ends at the greatest TXID of any such file |
| PlanFacts.LatestPlanSucceeds | replica.go:502-547 | without a target, on a replica without holes above its oldest snapshot, planning succeeds whenever anything is stored and ends at the highest TXID |
| PlanFacts.TargetPlanSucceeds | replica.go:489-540 | with a TXID target at or above the oldest snapshot, planning succeeds iff level 0 starts above the target or joins a kept file within it |
| PlanExact.PlanSucceedsExactly | replica.go:481-550 | for any TXID, time or no target, on ordered levels: planning succeeds iff not both targets are given, some file is within the target, and on every level each TXID that it reaches within the target, and no higher level does, is in one of its files within the target |
| PlanExact.PlanErrors | replica.go:481-550 | which of the three errors comes when: both targets, nothing within the target, or a hole |
| PlanFacts.NoHoleCovers | replica.go:504-506 | a level without holes above a TXID stores everything above it up to its top |
| Compaction.MaxLTXFileInfo | replica.go:192-207 | the greatest TXID of a level, or 0 |
| Compaction.CompactInputs | db.go:1218-1257 | the inputs are the source files after the end of the destination, with their TXID bounds |
| Compaction.Compact | db.go:1215-1288 | writes the merged file iff there are inputs without a hole, and then removes level-0 files below a new level-1 file, as far as removals succeed |
| Compaction.EnforceRetentionByTXID | db.go:1355-1391 | removes the files below a TXID except the last file listed, first to last |
| Compaction.EnforceSnapshotRetention | db.go:1309-1351 | removes expired snapshots except the last, and returns the least end of those that have not expired, or 0 on an error |
| Compaction.EnforceStoreRetention | store.go:236-256 | snapshots first, then every level from 1 up by that TXID, until a removal fails; it reports success iff none does |
| LevelFacts.WriteAbove | db.go:1270-1273 | a compaction output above the top is appended and leaves no hole above the oldest snapshot |
| LevelFacts.OthersKeeps | db.go:1383-1388 | removing a file that is below the oldest snapshot and is not the last keeps order, top and boundaries of a level |
| LevelFacts.DoomedIsPrefix | db.go:1355-1391 | on an ordered level the files to remove are a prefix that ends at the first file reaching the TXID or before the last file |
| RetentionFacts.LevelRetentionSpares | db.go:1355-1391 | however far it gets, level retention keeps the highest file and every file reaching the TXID |
| RetentionFacts.LevelRetentionExact | db.go:1355-1391 | a complete run leaves exactly the files that reach the TXID, and the highest one |
| RetentionFacts.SnapshotRetentionSpares | db.go:1309-1351 | snapshot retention keeps the last snapshot and every snapshot that has not expired |
| RetentionFacts.SnapshotRetentionExact | db.go:1309-1351 | a complete run leaves exactly the unexpired snapshots and the last one |
| RetentionFacts.MinSnapshotIsLeast | db.go:1330-1334 | the TXID handed to level retention is the least end of an unexpired snapshot, and 0 iff all have expired |
| RetentionFacts.StoreRetentionSpares | store.go:236-256 | however far it gets, a level file is removed only if some snapshot has not expired and all such snapshots end after the file; the top of every level stays |
| RetentionFacts.StoreRetentionExact | store.go:236-256 | a run in which no removal fails leaves exactly: the unexpired snapshots and the last; on the levels it cleans the last file and every file that does not end before all unexpired snapshots; and everything on level 0 and the other levels |
| RetentionFacts.StoreRetentionStops | store.go:236-256 | where a removal fails, no later level is touched, and none at all if it was the removal of a snapshot |
| RetentionFacts.SettledExact | replica.go:489-540 | every TXID from the oldest snapshot on can be planned iff level 0 starts at or below it or where a kept file ends |
| RetentionFacts.RetentionSettles | db.go:1280-1285 | level-0 retention after a compaction, when not interrupted, leaves level 0 starting at the end of level 1 or one later |
| Examples.UnsettledExample | db.go:1280-1285 | a run that ends in the middle of level-0 retention, with a TXID above the oldest snapshot, stored on level 0, that cannot be restored |
| ReplicaRuns.StepKeepsShape | store.go:86-104 | every step of uploads, compactions, snapshots and retention, list and write or remove steps apart, keeps the levels ordered, without holes above the oldest snapshot, aligned with each other, and fit for the jobs under way |
| ReplicaRuns.StepWrites | store.go:86-104 | a file that a step adds to a level is the one that this step writes, created when it is written |
| ReplicaRuns.CompactListShape | db.go:1218-1257 | what a compaction lists continues its level and ends at a boundary of the source level |
| ReplicaRuns.NothingToCompact | db.go:1222-1257 | with the shape that every run keeps, a compaction finds no input iff the source level ends no later than the destination |
| ReplicaRuns.SkipIsSound | store.go:212-215 | the shortcut of `CompactDB` skips only compactions that would find no input |
| CompactionFacts.RefusedExactly | db.go:1262-1273 | a compaction is refused iff TXIDs are missing between its inputs; all of them lie below the oldest kept snapshot, and it never happens to level 1 |
| Examples.RefusedExample | db.go:1262-1273 | a run with retention between two compactions after which compacting level 2 into 3 is refused |
| CompactionFacts.RetentionClears | store.go:236-256 | after a retention run in which no removal fails and some snapshot has not expired, no compaction of a level it cleaned is refused |
| ReplicaRuns.CompactWriteShape | db.go:1270-1278 | writing it later, after any other steps, still fits |
| ReplicaRuns.RemoveLevel0Shape | db.go:1280-1285 | removing level-0 files one by one never opens a hole above level 1 |
| ReplicaRuns.RemoveSnapshotShape | db.go:1336-1348 | removing snapshots one by one keeps the levels restorable from those left |
| ReplicaRuns.RemoveFileShape | store.go:244-253 | so does removing level files one by one |
| ReplicaRuns.WriteSnapshotShape | db.go:1291-1306 | so does writing a snapshot |
| RestoreRuns.MergedOk | db.go:1239-1270 | a compaction output carries exactly the frames of its TXIDs, from the last commit of its last input down to at or before its first |
| RestoreRuns.SnapshotReadIsState | db.go:1116-1210 | the snapshot taken for the replica is exactly the database committed at that moment |
| RestoreRuns.StepKeepsGood | store.go:86-104 | every step keeps the content of every stored file, and of every file under way, right |
| RestoreRuns.RunKeepsGood | store.go:86-104 | every run keeps the whole invariant |
| Restore.RestoreDatabase | replica.go:396-478 | restore merges the files of the plan in order and decodes the result page by page; it fails without a plan or when a page up to the size other than the lock page is missing |
| Restore.PlanMerges | replica.go:424-461 | merging the files of a plan gives the database committed at its last TXID iff its base is not too new for it, and a decodable database iff the base is not from a time when the database was smaller by a page that the other files lack; a plan of one snapshot is included |
| Restore.RestoreExact | replica.go:481-550 | in every reachable state and for every target: a returned plan has no hole and ends at the greatest TXID within the target; restoring it gives the database committed at that TXID iff its base is not too new for it, and fails iff the base is too small for it |
| Restore.SyncedAfterReadIsExact | db.go:1116-1210 | a plan based on a snapshot restores exactly every TXID that was synced after the snapshot was read |
| Examples.LoneSnapshotExample | db.go:1121-1143 | a run after which restoring TXID 1 gives a later database: the plan is one snapshot that was read after a later commit |
| Examples.TooNewExample | db.go:1121-1143 | a run after which restoring the newest TXID from a snapshot and a level-0 file gives a later page |
| Examples.MissingPagesExample | replica.go:444-461 | a run after which there is a plan for the newest TXID and restoring it fails, because the snapshot was read after an unsynced shrink |
| Restore.LatestRestores | replica.go:481-550 | in every reachable state, planning without a target succeeds iff anything is stored and reaches the highest TXID stored on any level; exactly when the restore then succeeds, and when it gives the database of this TXID |
| Restore.CaughtUpRestores | replica.go:396-478 | in every reachable state in which all commits are synced and uploaded, restore gives exactly the committed database |
| Restore.TargetRestores | replica.go:489-540 | in every reachable state, a TXID at or above the oldest kept snapshot has a plan iff level 0 joins what is kept; the plan then ends at the greatest stored TXID up to it; exactly when the restore then succeeds, and when it gives the database of this TXID |
| Targets.TimeRestores | replica.go:489-540 | in every reachable state, a plan for a time uses only files created before it, reaches as far as any such file, and restores that TXID under the conditions of `RestoreExact`; there is one iff such a file exists and no level misses a TXID that it reaches with such files and no higher level does |
| Examples.TimeExample | replica.go:519-521 | a run with a complete retention after which a restore to a time fails although a snapshot and a level-0 file were stored before it |
| Targets.TargetWithoutSnapshot | replica.go:489-540 | in every reachable state without a snapshot, a TXID has a plan iff some file ends at or before it and level 0 is empty, starts above it or at TXID 1, or continues a file of a higher level within it |
| Restore.AllTargetsRestore | replica.go:489-540 | in every reachable state, all such TXIDs can be planned iff level 0 is settled |
| Restore.LevelsOfReachable | db.go:1218-1257 | in every reachable state each level 1 to 8 is disjoint and ascending, stores everything above the oldest snapshot up to its top, no file below straddles that top, and tops do not increase with the level |
| Restore.Level0OfReachable | replica.go:140-159 | in every reachable state level 0 holds single consecutive TXIDs with the content of the local files, and everything above level 1 |
| Upload.Replica.CalcPos | replica.go:182-188 | the position is the highest TXID at level 0 |
| Upload.Replica.UploadLTXFile | replica.go:161-179 | stores the local file of a TXID, unless it fails before that; it may also fail after it |
| Upload.Replica.Sync | replica.go:121-159 | whatever fails, the files stored are the next ones in order with the content of the local files; the position is cleared on an error; without failures the replica ends at the local position |
| Upload.UploadAllExtends | replica.go:140-159 | uploading a range appends exactly that range to level 0 and leaves other levels alone |
| Upload.UploadsFromEmpty | replica.go:121-206 | over every run with a cached position, failing and ambiguously failing uploads that clear it, lookups and retention in between, the TXIDs ever stored at level 0 are exactly 1, 2, ..., e, each once, with the content of the local files |
| Upload.SyncEndsAtLocalPosition | replica.go:140-159 | in every reachable state the position of a `Sync` under way is the end of level 0, it uploads while that is below the local position it read, and it ends without an error exactly there |
| Upload.SyncMakesProgress | replica.go:148-156 | whatever else happens, a `Sync` stores at most the files it is behind |
| Upload.StepMovesTop | db.go:1375-1378 | only an upload moves the end of level 0, by one, and it takes its TXID from the cached position, which is that end |
| MethodRuns.SyncIsRun | replica.go:121-159 | a `Sync` with any faults is a run of the steps |
| MethodRuns.CompactIsRun | db.go:1215-1288 | an undisturbed `Compact`, with its level-0 retention, is a run of the steps |
| MethodRuns.Snapshot | db.go:1291-1306 | stores the database as it is now under the TXID of the last local file, or nothing when there is no such file, it cannot be read or the write fails |
| MethodRuns.SnapshotIsRun | db.go:1291-1306 | an undisturbed `Snapshot` is a run of the steps |
| MethodRuns.RetentionIsRun | store.go:236-256 | a retention run of the store, however far it gets, is a run of the steps |
| Lru.LRUCache.RemoveItem | litestreampp/connection_pool.go:279-291 | unlinking keeps one doubly linked list, without that item |
| Lru.LRUCache.MoveToFront | litestreampp/connection_pool.go:266-277 | the item becomes the head of one doubly linked list of the same items |
| Lru.LRUCache.Add | litestreampp/connection_pool.go:222-239 | the key becomes the most recent of a duplicate-free sequence; pointers and map represent it |
| Lru.LRUCache.Touch | litestreampp/connection_pool.go:241-245 | a known key becomes the most recent; an unknown one changes nothing |
| Lru.LRUCache.Remove | litestreampp/connection_pool.go:247-252 | exactly that key leaves the sequence |
| Lru.LRUCache.Evict | litestreampp/connection_pool.go:254-264 | the last key leaves the sequence and is returned; "" if there is none |
| Lru.RecencyIsByUse | litestreampp/connection_pool.go:222-264 | after every series of calls the sequence is duplicate-free and ordered by last use, so that eviction takes the least recently used key |
| Lru.ApplyKeeps | litestreampp/connection_pool.go:222-264 | which keys each call leaves, and the order of any two of them |
| ConnectionPool.ConnectionPool.Get | litestreampp/connection_pool.go:52-98 | the exact new connections and recency; a new path displaces exactly the least recently used connection of a full pool, unless its close fails; opened minus closed equals open equals pooled, always; list and pool stay in step and within the limit iff no eviction fails to close and the path is not empty |
| ConnectionPool.FailedCloseExample | litestreampp/connection_pool.go:64-71 | a pool for one connection that has two open, one of them forgotten by the recency list |
| ConnectionPool.ConnectionPool.CloseConnectionLocked | litestreampp/connection_pool.go:119-144 | exactly that connection leaves pool and list, unless its close fails, which changes nothing |
| ConnectionPool.ConnectionPool.Close | litestreampp/connection_pool.go:111-116 | exactly that path leaves pool and recency list, unless the close fails; both stay in step |
| ConnectionPool.ConnectionPool.Release | litestreampp/connection_pool.go:101-108 | only the time of last use changes |
| ConnectionPool.ConnectionPool.Cleanup | litestreampp/connection_pool.go:147-163 | a connection stays, with its record unchanged, iff it was used within the idle timeout or its close fails; the recency list loses exactly the others and keeps its order |
| HotCold.HotColdManager.PromoteToHot | litestreampp/hotcold_manager.go:192-280 | the exact new tiers and replicas; tiers stay disjoint and every replica belongs to a hot database, also when opening fails |
| HotCold.HotColdManager.DemoteToCold | litestreampp/hotcold_manager.go:283-334 | the same for a demotion |
| HotCold.HotColdManager.TrackCold | litestreampp/hotcold_manager.go:344-370 | exactly the matches that are not hot become cold |
| HotCold.WriteDetector.ScanPath | litestreampp/write_detector.go:121-165 | one database: its new state, whether it is listed, how it moves between the tiers, and when the manager misses it |
| HotCold.WriteDetector.Evict | litestreampp/write_detector.go:167-185 | the first databases of the list are demoted on both sides |
| HotCold.WriteDetector.PerformScan | litestreampp/write_detector.go:110-201 | a database that was found with a later time or another size is hot until `now + hotDuration` with them recorded, and any other that was found is hot iff it was hot and `now <= hotUntil`, with nothing but the time of the check recorded, unless the limit is reached; a missing one is dropped and one that could not be looked at is unchanged. The hot list is duplicate-free, within the limit and names hot databases, always; it is all of them iff no hot database could not be looked at; detector and manager agree iff no failed promotion is hot; only a scan over the limit evicts; how databases move between the tiers and which replicas run |
| HotCold.ScanRecords | litestreampp/write_detector.go:110-201 | the same for the record of each database, whatever is evicted |
| HotCold.FailedPromotionExample | litestreampp/hotcold_manager.go:245-248 | a scan with a failing promotion after which detector and manager disagree |
| HotCold.WriteDetector.AddDatabase | litestreampp/write_detector.go:204-225 | a new database is tracked as not hot; agreement is kept |
| HotCold.WriteDetector.AddDatabases | litestreampp/hotcold_manager.go:337-376 | exactly the matches of the first glob that can be looked at are tracked, as not hot with their time and size; those of the second that are not hot become cold; agreement is kept |
| HotCold.WriteDetector.GetStatistics | litestreampp/write_detector.go:273-281 | the count of cold databases is never negative |
| HotCold.WriteDetector.IsHot | litestreampp/write_detector.go:284-292 | whether the database is tracked as hot; implied by the hot list and by the manager, the same as the list when it is complete, and as the manager when the two agree |

## Left out

- The s3, gcs, abs and sftp clients: network plumbing, and s3, gcs and abs treat `seek` as a key prefix, which the client interface does not allow. The file client is modelled.
- LTX encoding, LZ4, checksums of LTX files, age encryption and SQLite itself: foreign code, present only through the assumptions above.
- `init`, SQL for the read lock, file modes, ownership, logging, metrics, tickers and contexts: effects without a property.
- `CompactDB` in store.go:183-233 apart from its shortcut: when a compaction is attempted. The runs allow it at any time, so its guards and the cached file infos it reads cannot matter for safety. The shortcut compares with the first TXID of the destination's last file, so it skips less often than it could (store.go:213).
- compaction_level.go: time and level arithmetic that would only add easy members.
- Targets.TimeRestores: the time of a file is that of its last write to the replica, as in the code; the time of the commits in it is not modelled.
- Oldest-first eviction in the write detector: the code evicts in map order.
- Upload.UploadsFromEmpty: assumes one `Sync` at a time, as said above.
- Progress: that goroutines are scheduled.
- An upload that reports an error and stores its file only later, while the next attempt is under way.
- HotCold.HotColdManager: tiers and replicas are sets of paths; the `DynamicDB` objects, their callbacks and the path metadata of cold databases are not modelled.
- Db.DB.SnapshotReader: the database is read in one step, and the WAL range in the header of the snapshot, which nothing reads back, is not modelled.
- SyncRuns.MissingPageSnapshotExact: says nothing of a WAL in which valid frames follow the position although the frames before it are not valid; SQLite does not write such a WAL.
- ReplicaRuns.SkipIsSound: compares what is stored on the replica; the code compares cached file infos, which can be older.
- HotCold.WriteDetector.AddDatabases: the detector and the manager are updated without a scan in between; each update alone keeps the agreement, as `AddDatabase` and `TrackCold` say.
- ConnectionPool.ConnectionPool.Get: the SQL handle is not modelled, and whether opening or closing fails is a parameter.
- WalReader.Reader.ReadFrameAt: requires a frame size below 2^32, on which the code wraps around, and for a checked read a page size that is a multiple of 8, which the code asserts.
- WalReader.NewWALReaderWithOffset: requires a frame size below 2^32, on which the code wraps around.
- `ultrasimple`, `examples`, `demos`, `cmd/litestream`, `shared_resources.go`, `metrics_aggregated.go`, `internal`, `DynamicDB`: input and output, configuration or single-branch state.
