# Lux: a verified model of its durability, tiering, encryption and access rules

Lux is an in-memory database with a write-ahead journal, a cold tier on disk,
an encryption keyring and row-level grants. This project models those parts in
Dafny and proves what they promise. `dafny verify dfyconfig.toml` checks all of
it.

**Journal** (`Crc`, `WalFormat`, `WalScan`, `WalCodec`, `FileSystem`, `Journal`,
`WalReplay`, `WalNames`, `WalRun`, `WalCourse`). The LXW3 journal: guarded
frames, header, checkpoints, snapshots, rotation, recovery. `WalCourse.Drive` is
safety over whole runs: for every script of commits, checked commits, snapshots,
installs, rotations, restarts and power losses, with the process stopping
between any two file operations and writes failing part way, every event does
what `WalCourse.Moves` allows, and from that `WalCourse.CourseExplained` derives
what recovered memory is and which acknowledged records it may lack.
`WalNames.Sound` is the invariant behind it: what every journal and every
snapshot that a power loss may leave lead to.

**Cold tier** (`EntryCodec`, `ColdFormat`, `ColdStore`, `ColdShard`). The value
codec, the LXD1 data file, its index, and compaction under crashes.
`ColdShard.Serve` says that every run of put, get, remove and compact behaves as
a plain map with expiry, and what a crash with or without power loss leaves of
it; `ColdStore.Holds` is the invariant every step of compaction keeps, for each
kind of crash. `ColdStore.FoundExactly` says when startup finds given records
after every power loss. `ColdShard.ServeAndLose`, `ColdShard.CompactAndLose` and
`ColdShard.Restart` turn that into recovery.

**Encryption** (`Envelope`, `ValueCrypto`, `KeyFiles`, `Keyring`, `Vault`).
Envelopes, the keyring's life with a fault at every persistence boundary
(`Keyring.Life`), seal migration, and `Vault.Run`: through every run of writes,
re-encryptions, key changes and restarts the store does what `Vault.Lived` says,
every acknowledged value stays readable, and readable only where it was stored.
The cipher is a parameter with one law, opening what was sealed; what it must
not do is named where it matters (`ValueCrypto.Forged`, `Vault.Crossed`).

**Grants** (`Grants`, `WhereText`). Executing nested subqueries, rendering the
filter, and reading its text back: `WhereText.GrantText` connects a grant to the
rows a query accepts.

**Smaller parts** (`KeyCache`, `Eviction`, `Geohash`, `Commands`). The API-key
cache under every interleaving, eviction and its journal, geohashes over the
reals, and the normal form of commands.

Two things happen at a power loss (`FileSystem.PowerLoss`): a file keeps a
prefix of its bytes that includes what was synced, and each directory entry
keeps one of the values it had since the directory was last synced, each entry
by itself. Where it matters that a rename is one change,
`FileSystem.PowerLossWhole` lets the directory come back only as a whole in one
of its states. The keyring's two files may be in one directory or in two, and
the bytes of its seal file count as written only after their own sync;
`KeyFiles.Leaves` says what each kind of loss leaves of them.

Methods that touch files take the faults as a parameter: whether any may
strike, how far a write gets, or the fate of every single operation. They
return early at every point where the process may stop or an operation may
fail, their `ensures` hold there too, and without faults they succeed.

## What the proofs found

Each of these holds of the code as it is; the lemma named gives the failing
inputs and the exact condition.

- A journal restarted between the rename of a rotation and its directory sync may lose records acknowledged afterwards at the next power loss: `WalNames.UnsyncedRenameLosesAppends`. Every outcome of a power loss recovers every acknowledged record exactly if every directory state that may survive names a journal holding them on stable storage: `WalNames.RecoveredExactly`. Over whole runs an acknowledged record is missing only if a rotation under faults and a restart come before it and a power loss after it: `WalCourse.CourseExplained`. A save without faults ends that: `WalCourse.SaveSettles`.
- In the same situation a new snapshot makes it worse: a power loss may then bring back a journal that startup refuses (`WalNames.InstallStrands`). Some power loss does exactly if a directory state that may survive names a journal that a snapshot that may survive does not accept: `WalNames.StrandedExactly`.
- A payload over the frame limit can be written but not read back: `WalFormat.FrameRoundTrip`.
- A HyperLogLog entry is read back exactly if it has the right number of registers, each in range: `EntryCodec.RegistersRoundTrip`.
- A failed put truncates its bytes away and ignores it if that fails. The next put is then indexed in front of where it is written: `ColdShard.FailedStoreAnswers` is a run whose lookup returns the value of the put that failed. A put can be looked up, whatever it stores, exactly if the file is as long as the shard counts: `ColdShard.StoredExactly`.
- Restoring a compaction backup is safe between its rename and the directory sync exactly as far as directory changes survive as a whole; names that may fall back separately can both be missing, from every start: `ColdShard.RestoreExactly`.
- After a power loss that takes unsynced puts, startup keeps every synced record of a generation and a prefix of the others, or refuses a torn file beside its backup: `ColdShard.Restart`. Some power loss is refused exactly if a backup may be found beside a generation that is not entirely synced, as while a shard with new puts is compacted: `ColdShard.RefusedExactly`.
- `init` on a ring that has keys but no active key puts the new key in their place: `Vault.InitReplacesKeys`. Rotation does not.
- The check before retiring a key compares ids only. Retire a key, rotate to a new key with its id, retire the key in between, and a value is lost although every check passed: `Vault.ReusedIdStrands`. A value is readable exactly if the ring has one of its keys, id and secret: `Vault.ReadableExactly`.
- A power loss may undo a key change whose directory sync failed. Values written since stay readable exactly if the two rings share a key, so after a rotation or retirement and not after a first key: `Vault.ReadableAcross`, `Vault.UndoneChanges`.
- Startup can lock its own state out. `KeyFiles.Hazard` is the condition on the two files before the run, for each kind of crash. The seal file is missing and the environment has no seal, so that it will be created: beside state a stop leaves it torn, and without state it may be used before its bytes are synced. Or it is torn, and the environment's seal lets state be written beside it. Or it is not synced. Or it is the state's only seal, is removed for the environment's, and the two names fall back separately. From every such start some run locks out (`Keyring.RunLocksOut`); from every other none does (`Keyring.Lifecycle`).
- A location shares its associated data with another one exactly if its table, field or primary key holds a NUL byte; between locations with NUL-free tables and fields it never happens: `ValueCrypto.TwinExactly`, `ValueCrypto.AadInjective`.
- Values unfit for a membership list are dropped from subquery results. An enforced subquery means what it says, on every row, exactly if every value it selects is fit: `Grants.EnforcedExactly`. Dropping narrows every grant without a negated subquery (`Grants.DroppingNarrows`) and can widen one that has it (`Grants.NegationWidens`).
- A rendered filter reads back as itself exactly if no membership list contains `)` or starts with `SELECT`: `WhereText.TextBack`.
- A lookup that reads before a revocation and stores after its clear leaves the revoked key cached: `KeyCache.StoreAcrossClear`. With no clear to come, an entry is wrong only if its own lookup stored it across a clear (`KeyCache.WrongSpans`), and a store keeps the cache in agreement exactly if the table still answers what was read: `KeyCache.StoreExactly`.
- A journal record whose sync and rollback both failed stays in the journal without being applied, for evictions and client commands alike; replay is ahead by that one record and no other follows it: `Eviction.Serve`, `Eviction.ReplayAhead`.
- Coordinates at the closed upper end of their range wrap to the first cell: `Geohash.EncodeThenDecode`.

## Model

| member | source | states |
|---|---|---|
| Bytes.LeRoundTrip | src/disk.rs:1841-1868 | A number that fits the width is read back from its little-endian bytes. |
| Bytes.LeValueRoundTrip | src/disk.rs:1841-1868 | Bytes read as a number are written back unchanged, and the number fits the width. |
| Bytes.ReadPrefixedOf | src/disk.rs:1853-1888 | A length-prefixed string is read back and leaves exactly what follows it. |
| Crc.LookupIsSteps | src/disk.rs:37-56 | One table lookup and shift is eight bitwise steps of the register with the byte mixed in. |
| Crc.BuildTable | src/disk.rs:37-50 | Every slot of the table holds the eight bitwise CRC steps of its index. |
| Crc.ComputeCrc32 | src/disk.rs:35-57 | The table-driven loop computes the bit-serial CRC-32 of section 8.1.1.6.2 of ITU-T V.42, for every input. |
| Crc.FeedInjective | src/disk.rs:52-56 | Feeding the same bytes keeps different registers different, so damage before them cannot cancel. |
| Crc.WindowInjective | src/disk.rs:52-56 | From one register, two different messages of at most four bytes and equal length end in different registers. |
| Crc.BurstDetected | src/disk.rs:35-57 | Inputs of equal length that differ only within four adjacent bytes have different checksums. |
| WalFormat.BatchRoundTrip | src/disk.rs:1070-1114 | Every batch whose counts and lengths fit 32 bits is decoded to the same commands. |
| WalFormat.BatchInverse | src/disk.rs:1090-1114 | Whatever decodes as a batch is the encoding of what it decoded to, so no bytes are left over or ignored. |
| WalFormat.RecordRoundTrip | src/disk.rs:364-388 | A plain, batch or checked record decodes to its commands and its checked flag if and only if it is replayable: a plain command must not look like a wrapped one. |
| WalFormat.MarkerNotSelfEncoding | src/disk.rs:30-31 | The payload of a wrapped record never decodes as a plain command of its own. |
| WalFormat.FrameRoundTrip | src/disk.rs:390-400 | A frame followed by anything is read back whole if its payload is within the limit, and is reported corrupt if not. |
| WalFormat.TornFrame | src/disk.rs:576-642 | Every proper prefix of a frame reads as a torn append, never as corruption and never as data. |
| WalFormat.FrameInverse | src/disk.rs:576-642 | Whatever reads as a whole frame is the encoding of the payload it yields. |
| WalFormat.FrameDamageDetected | src/disk.rs:576-642 | Damage within four adjacent bytes of a frame, in its fields or in its payload, reads as corruption, whatever follows: never as another payload, never as a torn tail. |
| WalScan.HeaderRoundTrip | src/disk.rs:916-933 | A journal starting with a generation's header opens under that generation. |
| WalScan.HeaderDamageDetected | src/disk.rs:317-329 | Damage within four adjacent bytes of the generation or checksum fields makes open fail. |
| WalScan.CompleteIsLargest | src/disk.rs:540-561 | The number of records recovered from a cut file is the largest number that fits into it. |
| WalScan.PrefixRecovered | src/disk.rs:540-561 | For every log and every cut, the scan returns the commands of exactly the records that survived whole, where they end, and a checked tail only if the last record is checked and nothing follows it. |
| WalScan.DamageFailsScan | src/disk.rs:540-561 | A scan that reaches a damaged frame fails; it neither skips it nor stops quietly before it. |
| WalScan.DamageFailsReplay | src/disk.rs:506-561 | With a damaged frame anywhere in the file, recovery fails for every checkpoint: an offset behind the damage is refused, one in front of it scans into the damage. |
| WalScan.AcceptedExactly | src/disk.rs:506-537 | A surviving journal is accepted for a checkpoint exactly if it is the checkpoint's generation and the offset ends a whole record, or it is the authorized successor, or none was authorized. |
| WalScan.BoundaryOfRecords | src/disk.rs:693-719 | The end of every record is a valid checkpoint offset. |
| WalScan.BoundaryExactly | src/disk.rs:693-719 | The offset walk over a log cut anywhere accepts exactly the ends of the records that survived whole. |
| WalScan.ReplayAfterCheckpoint | src/disk.rs:506-561 | With a checkpoint after some records, the surviving file of the old generation or of its successor replays the records after it, once and in order, up to the last whole one. |
| WalScan.ReplayFromScratch | src/disk.rs:506-561 | Without a checkpoint the whole surviving log is replayed. |
| WalCodec.EncodeGuardedPayload | src/disk.rs:390-400 | The buffer gains exactly the guarded frame of the payload. |
| WalCodec.EncodeCommandBatch | src/disk.rs:1070-1088 | The loop produces the batch encoding, and fails exactly if a count or length does not fit 32 bits. |
| WalCodec.EncodeAppend | src/disk.rs:419-439 | No commands give no bytes, one a plain frame, several one batch frame or an error if they do not fit. |
| WalCodec.EncodeRecord | src/disk.rs:364-453 | Every record that fits in a frame is encoded, as the frame the recovery theorems are about. |
| WalCodec.EncodeChecked | src/disk.rs:444-453 | A checked command becomes the frame of a checked record. |
| WalCodec.ParseBatch | src/disk.rs:1090-1114 | The decoding loop agrees with the decoder the round trips are about, on every input. |
| WalCodec.DecodeWalPayload | src/disk.rs:837-884 | Unwrapping a payload agrees with the record decoder on every input, including malformed ones. |
| WalCodec.ReadNextFrame | src/disk.rs:576-642 | The sequence of length, magic, complement and checksum tests agrees with the frame reader on every input. |
| WalCodec.ValidateCheckpointOffset | src/disk.rs:693-719 | An offset is accepted exactly if whole frames lead to it. |
| WalCodec.ScanLoop | src/disk.rs:540-561 | The replay loop over a file position equals the scan the recovery theorems are about. |
| WalCodec.ReplayFrom | src/disk.rs:506-561 | Replay from a checkpoint equals the specification for every file and checkpoint. |
| FileSystem.SurvivingName | src/disk.rs:955-970 | A name that existed in every state since the last directory sync exists after a power loss, as one of the files it named. |
| FileSystem.PowerLossPossible | src/disk.rs:955-970 | Every disk has an outcome of a power loss, so the claims about all outcomes are not empty. |
| Journal.Appended | src/disk.rs:455-465 | Any written prefix of a new frame leaves a file recovery can still use for the longer log. |
| Journal.Synced | src/disk.rs:467-469 | After a sync every record may be acknowledged. |
| Journal.Lost | src/disk.rs:467-469 | Whatever prefix a power loss leaves still contains every acknowledged record. |
| Journal.Rotated | src/disk.rs:784-800 | Header plus retained frames is a whole journal of the authorized successor, for the same run. |
| Journal.RolledBack | src/disk.rs:489-494 | Cutting at the end of a record leaves the whole journal of the shorter log. |
| Journal.Recovered | src/disk.rs:506-561 | Any file a crash may leave opens under its generation and replays exactly the records after the snapshot up to some point at or after the last acknowledged one; the checked tail is reported exactly when it is one. |
| Journal.RecoveredFile | src/disk.rs:546-554 | With the torn bytes cut off the file is whole again, so later appends replay too. |
| WalReplay.Execute | src/store/mod.rs:3439-3529 | Commands are executed in order up to the first rejection. |
| WalReplay.ReplayOutcome | src/store/mod.rs:3439-3529 | Replaying a settled log over a snapshot gives the state of the whole log, or stops only at a last checked record the live handler rejected too. |
| WalRun.Wal.constructor | src/disk.rs:272-305 | A new journal is healthy, empty and durable under its name. |
| WalRun.Wal.Append | src/disk.rs:455-465 | After any partial write, failed truncation, failed sync or stop, recovery owes the old log or the log with the new record, nothing else. |
| WalRun.Wal.Withdraw | src/store/mod.rs:3366-3376 | A partial frame is cut off and the file synced; if either fails the journal is poisoned, with the frame's bytes in it or without. |
| WalRun.Wal.Fsync | src/disk.rs:467-469 | A sync keeps the journal usable and, if it succeeds, covers every byte. |
| WalRun.Wal.RollbackTo | src/disk.rs:489-494 | Cutting back to the end of a record shortens the log to it durably; a failure poisons the journal. |
| WalRun.Wal.Commit | src/store/mod.rs:3010-3024 | Commands logged as one record and executed: success means logged, executed and, if asked for, durable; an error leaves log and memory as they were or poisons the journal. |
| WalRun.Wal.CommitChecked | src/store/mod.rs:3026-3091 | A command its handler rejects is taken out of the log again; an accepted one stays; memory follows. |
| WalRun.Wal.CaptureSnapshot | src/disk.rs:477-487 | The checkpoint names the synced end of the journal and a generation never drawn before; every record is then durable. |
| WalRun.Wal.InstallSnapshot | src/snapshot.rs:325-385 | Rename and directory sync with every stop between them: the log and memory stay, either snapshot may survive until the sync, and success leaves the new one alone, authorizing a successor. |
| WalRun.Wal.CopyFrames | src/disk.rs:784-800 | The replacement gains exactly the frames after the checkpoint while the journal stays as it is. |
| WalRun.Wal.RotateAfter | src/disk.rs:726-834 | Rotation stopped anywhere leaves the old or the new generation in charge of the same run; only a fault behind the rename leaves the old one to fall back to; success settles the name; a checkpoint of another generation is refused without touching the disk. |
| WalRun.Wal.Survey | src/disk.rs:272-345 | The file under the journal's name is opened and scanned; the scan fails exactly if the installed snapshot refuses that generation. |
| WalRun.Wal.Reopen | src/disk.rs:506-561 | Reopening keeps a prefix of the log with every acknowledged record, yields the commands after the snapshot, reports a rejected checked tail if there is one, and succeeds without faults. |
| WalRun.Wal.Recover | src/store/mod.rs:3439-3529 | Recovery brings memory to the effect of the surviving log, keeps every acknowledged record of it, and succeeds without faults; a refused journal is an error every time and is left as it is. |
| WalCourse.Drive | src/store/mod.rs:3010-3091 | For every script the store goes through a course of moves, one per event; so memory is the effect of a log that holds every attempted record at most once and in order, and every acknowledged one that was not exposed. |
| WalCourse.CourseExplained | src/disk.rs:726-834 | In every course the log lacks an acknowledged record only if a rotation under faults and a restart precede it and a power loss follows it, and the store is refused only after such a rotation, a restart, an installed snapshot and a power loss. |
| WalCourse.SteadyKeepsAll | src/disk.rs:726-834 | With no faults in rotations nothing acknowledged is ever lost and the store is never refused. |
| WalCourse.SaveSettles | src/snapshot.rs:396-428 | Capture, install and rotation without faults leave the store up with every record durable and nothing to fall back to. |
| WalCourse.Outage | src/store/mod.rs:3439-3529 | A power loss with any outcome and a restart is a move of the course, and comes up without faults unless refused. |
| WalCourse.Try | src/store/mod.rs:3010-3091 | A command is journaled and executed without faults, acknowledged exactly if asked to sync and accepted, and otherwise logged at most once. |
| WalCourse.Maintain | src/snapshot.rs:396-428 | Capturing, installing and rotating never change the log or memory, and complete without faults. |
| WalNames.Rewritten | src/disk.rs:455-494 | A journal that goes on from its acknowledged records starts with every snapshot that may survive. |
| WalNames.Moved | src/disk.rs:815-834 | After the rename either journal leads to the same run. |
| WalNames.Renewed | src/snapshot.rs:360-385 | A new snapshot accepts the visible journal and refuses every other one the name may fall back to. |
| WalNames.Fallen | src/disk.rs:506-537 | Whatever journal and snapshot a power loss leaves, startup reaches what that journal held, or refuses. |
| WalNames.StrandedExactly | src/disk.rs:530-535 | Some power loss ends in a refused journal if and only if a surviving directory state names one that a surviving snapshot does not accept. |
| WalNames.InstallStrands | src/snapshot.rs:360-385 | A snapshot installed while an older journal may come back leaves a power loss that startup refuses. |
| WalRun.Wal.LosePower | src/disk.rs:955-970 | Any outcome of a power loss: the visible journal, one the name may fall back to, or a refused one, which needs a snapshot installed over an unsettled name. |
| WalNames.RecoveredExactly | src/disk.rs:815-834 | Every outcome of a power loss recovers every acknowledged record if and only if every directory state that may survive names a journal with all of them on stable storage. |
| WalNames.UnsyncedRenameLosesAppends | src/disk.rs:815-834 | With the old journal under one surviving state and the new one, holding an acknowledged record more, under the other, some power loss recovers without that record. |
| EntryCodec.WriteEach | src/disk.rs:1955-2056 | A counted list is written as its count and its elements in order. |
| EntryCodec.ReadEach | src/disk.rs:2058-2183 | The reading loop agrees with the list reader on every input, including short and invalid ones. |
| EntryCodec.NormalWrites | src/disk.rs:1955-2056 | An entry and its normal form are written as the same bytes. |
| EntryCodec.RegistersRoundTrip | src/disk.rs:2150-2155 | Registers are read back exactly if they are those of a HyperLogLog, and rejected otherwise. |
| EntryCodec.ValueRoundTrip | src/disk.rs:1955-2183 | Every value of every type is read back in normal form, leaving exactly what follows it. |
| EntryCodec.EntryRoundTrip | src/disk.rs:1955-2183 | Every entry, followed by anything, is read back as its normal form: TTL at or below zero as -1, delivery counts clamped, vectors unencrypted; nothing else changes. |
| ColdFormat.RecordRoundTrip | src/disk.rs:1357-1371 | A record is found again, normalized, by the startup scan and by lookups. |
| ColdFormat.TornRecord | src/disk.rs:1745-1770 | Every proper prefix of a record is recognized as incomplete. |
| ColdFormat.SplitJoined | src/disk.rs:1727-1770 | The scan cuts a file of records followed by an incomplete one into exactly those records. |
| ColdFormat.TornFile | src/disk.rs:1727-1770 | A file cut anywhere yields all records in front of the cut and none behind. |
| ColdFormat.AppendIndexOk | src/disk.rs:1379-1390 | Indexing an appended record keeps every other entry at the last record of its key. |
| ColdFormat.ChunkAt | src/disk.rs:1434-1436 | The bytes at a record's offset and length are that record. |
| ColdFormat.ChunksDisjoint | src/disk.rs:1379-1392 | Records of different positions do not overlap. |
| ColdFormat.ReadNext | src/disk.rs:1741-1786 | One turn of the scan agrees with the record reader on every input. |
| ColdFormat.RebuildIndex | src/disk.rs:1727-1806 | For every file: exactly the keys with a readable record are indexed, each at its last one; every rejected record is reported at its offset; header, live and dead bytes add up to the end of the valid prefix. |
| ColdStore.IndexedBytes | src/disk.rs:1429-1436 | What an index entry addresses is the last record of its key, complete and with its TTL. |
| ColdStore.Stored | src/disk.rs:1357-1394 | Appending and indexing a record keeps file, index and byte counts in agreement. |
| ColdStore.Dropped | src/disk.rs:1486-1490 | Dropping a key keeps file, index and byte counts in agreement and removes that key alone from the map. |
| ColdStore.GoodGeneration | src/disk.rs:1727-1770 | A shard's file is a generation from which every live record is recovered. |
| ColdStore.EnterHolds | src/disk.rs:1637-1670 | A directory change keeps the shard safe if the new state leads to a good generation and, where names may fall back separately, one of the two names is good throughout. |
| ColdStore.PowerHolds | src/disk.rs:1633-1670 | After any power loss startup finds every record of which enough was synced, and a shard whose generations were synced entirely is as safe as before. |
| ColdStore.HoldsExactly | src/disk.rs:1633-1670 | For generations on stable storage the invariant holds if and only if startup finds every live record after every power loss of its kind. |
| ColdStore.FoundExactly | src/disk.rs:1205-1295 | Whatever is synced: startup finds given records after every power loss of a kind if and only if every directory it may leave leads to a generation that has them however much of it survives. |
| ColdStore.AppendHolds | src/disk.rs:1357-1394 | A record appended to the open file endangers no record of another key, wherever the append is cut. |
| ColdStore.TrimmedRecords | src/disk.rs:1727-1770 | A generation cut by a power loss has a prefix of its records left, with every synced one in it. |
| ColdShard.ReadIndexedEntry | src/disk.rs:1429-1483 | The validated read agrees with its specification: length, checksum, key and no trailing bytes. |
| ColdShard.CopiedRecord | src/disk.rs:1587-1610 | Re-encoding a validated entry reproduces its record byte for byte. |
| ColdShard.DiskShard.Put | src/disk.rs:1357-1395 | On a file as long as the shard counts, a put replaces the key's value and lifetime in the map; a failed one never changes the map; when the bytes of a failed write stay behind, and what a later put then indexes, is stated exactly; other keys keep their bytes. |
| ColdShard.DiskShard.Get | src/disk.rs:1401-1424 | A lookup answers from the indexed bytes, as the map with expiry does, and drops the key exactly if it has expired. |
| ColdShard.DiskShard.Remove | src/disk.rs:1486-1490 | The key leaves the map and its bytes become dead. |
| ColdShard.DiskShard.RemoveArtifacts | src/disk.rs:1309-1344 | Leftovers are unlinked without ever endangering the canonical generation: a backup goes only once the canonical name is durable. |
| ColdShard.DiskShard.CopyOne | src/disk.rs:1584-1610 | A live record is validated and copied unchanged. |
| ColdShard.DiskShard.CopyLive | src/disk.rs:1575-1633 | The new generation stands for the same map, holds nothing else, has no dead bytes and is on stable storage. |
| ColdShard.DiskShard.LinkBackup | src/disk.rs:1637-1641 | After the directory sync the backup name leads to the old generation whatever a crash leaves. |
| ColdShard.DiskShard.Replace | src/disk.rs:1647-1648 | Replacing the canonical name is safe even if a crash in the middle finds no such name. |
| ColdShard.DiskShard.Retire | src/disk.rs:1663-1670 | The backup is dropped only after the new name is durable; success leaves one synced generation, a failure a shard ready for the next attempt. |
| ColdShard.DiskShard.Compact | src/disk.rs:1538-1688 | At every stop any records of the shard that were safe against a kind of crash still are, and are no less durable; if the process goes on, the open file is the one at the canonical path and stands for the same map; success leaves it alone and synced, and comes without faults if every live record validates. |
| ColdShard.DiskShard.Load | src/disk.rs:1228-1295 | An existing file is indexed, trimmed of a torn tail, or refused beside a backup without being touched, and nothing else without faults. |
| ColdShard.DiskShard.Open | src/disk.rs:1205-1295 | From a safe disk startup never refuses, finds every live record and succeeds without faults; it stays safe at every stop, except that between restoring a backup and the sync it is safe only where directory states survive whole; it refuses exactly a torn file beside a backup, or an unfinished generation alone, and leaves every file and its bytes in place. |
| ColdShard.DiskShard.Restore | src/disk.rs:1214-1216 | The rename and its directory sync, with every stop between them. |
| ColdShard.RebuildReproduces | src/disk.rs:1727-1806 | Rebuilding gives back every index entry up to its start time; keys dropped without a record may come back, and after compaction none do and the dead count agrees. |
| ColdShard.Serve | src/disk.rs:1357-1688 | Every run of put, get, remove and compact, with failures anywhere, behaves as the plain map with expiry until a put goes through behind the bytes of a failed one; with working truncations that never happens, the end of the process leaves every value of the map to be found, and a power loss every record that was durable at first and left alone. |
| ColdShard.StoredExactly | src/disk.rs:1357-1395 | What a put behind leftover bytes indexes, as its own contract gives it, is found again, whatever is stored, if and only if there are none. |
| ColdShard.FailedStoreAnswers | src/disk.rs:1371-1382 | A run of a failed put, a failed truncation and a put under the same key whose lookup returns the value of the failed put. |
| ColdShard.TornPut | src/disk.rs:1266-1285 | After a stop in the middle of a put startup finds the records before it. |
| ColdShard.Restart | src/disk.rs:1205-1295 | After any crash the shard was safe against: every live record is found if the process just ended or the generations were synced, and every one of which enough was synced; otherwise a prefix of a generation's records with every synced one, or a refusal with both generations untouched; always one of the two without faults. |
| ColdShard.CompactAndLose | src/disk.rs:1538-1688 | Compaction stopped anywhere, then any power loss, then startup: every live record of a synced shard is found; with unsynced puts a part of a generation that had them all, with everything synced of it, or a refusal. |
| ColdShard.ServeAndLose | src/disk.rs:1205-1688 | From a compacted shard, any requests, any power loss between them or inside a compaction, then startup: every record left alone is found, or startup refuses. |
| ColdShard.RefusedExactly | src/disk.rs:1266-1272 | Some power loss ends in a refusal if and only if a backup may be found beside a generation of which some bytes were not synced. |
| ColdShard.RestoreExactly | src/disk.rs:1214-1216 | Between the restoring rename and its sync the shard is as safe as before if directory states survive whole, and never if names may fall back separately: some power loss finds neither. |
| Envelope.RoundTrip | src/encryption.rs:568-581 | Writer, wraps, nonce and ciphertext of every envelope are recovered from its bytes. |
| Envelope.Inverse | src/encryption.rs:910-969 | Whatever the parser accepts prints back to the same bytes. |
| Envelope.ParseWraps | src/encryption.rs:928-955 | The loop over positions agrees with the wrap reader on every input and stays within bounds. |
| Envelope.ParseEnvelope | src/encryption.rs:910-969 | The parser agrees with its specification on every byte string, with the same error for each rejection. |
| ValueCrypto.AadInjective | src/encryption.rs:1148-1176 | With NUL-free tables, fields and key ids, different locations or writers have different associated data. |
| ValueCrypto.TwinExactly | src/encryption.rs:1156-1176 | Another location has the same associated data if and only if the table, field or primary key holds a NUL. |
| ValueCrypto.Decrypt | src/encryption.rs:584-627 | Decryption takes the data key from the first wrap that opens, and reports a bad envelope, a missing key or tampering apart. |
| ValueCrypto.Readable | src/encryption.rs:584-627 | An envelope made for a value decrypts to it while the ring has a key it was wrapped for. |
| ValueCrypto.ReadableIff | src/encryption.rs:584-627 | It decrypts to the value if and only if the ring has a key it was wrapped for. |
| ValueCrypto.OnlyAtHome | src/encryption.rs:584-627 | It decrypts at another location only if the cipher accepts, under other associated data, what was sealed for this one. |
| ValueCrypto.WrapEach | src/encryption.rs:544-563 | Every key of the ring, and no other, gets one wrap of the data key. |
| ValueCrypto.Encrypt | src/encryption.rs:512-582 | The envelope is made for the value under every key of the ring; encryption fails exactly without an active key or with more than 255 keys. |
| ValueCrypto.PrintEnvelope | src/encryption.rs:568-581 | The pushes into the buffer produce the envelope's bytes. |
| Keyring.CollectCandidates | src/encryption.rs:869-895 | Exactly the environment, previous and file seals, each once, the environment's first. |
| Keyring.LoadState | src/encryption.rs:661-728 | State is loaded exactly if one of the candidates sealed it and it is valid, and reports that seal. |
| Keyring.Rotated | src/encryption.rs:383-396 | Rotation keeps every key and secret and leaves only the new key able to encrypt. |
| KeyFiles.StartSafe | src/encryption.rs:209-267 | A pair of files is safe for a kind of crash exactly if it unlocks and is no hazard. |
| KeyFiles.StateSafe | src/encryption.rs:774-834 | State written under the current seal keeps every outcome of a crash openable. |
| KeyFiles.DropSafe | src/encryption.rs:255-264 | Removing the replaced seal file keeps every outcome of a crash openable. |
| Keyring.EncryptionKeyring.CurrentSeal | src/encryption.rs:855-864 | The current seal is the environment's or the seal file's, created in four steps with every stop between them; outside a hazard no crash locks out. |
| Keyring.EncryptionKeyring.PersistState | src/encryption.rs:730-835 | A fault before the rename leaves the old state file, one after it the new; outside a hazard every crash leaves an openable state; success means the name is durable. |
| Keyring.EncryptionKeyring.CommitState | src/encryption.rs:283-304 | Live keys and state file stay equal through every fault; success means installed and durable. |
| Keyring.EncryptionKeyring.Init | src/encryption.rs:348-368 | A ring with an active key is unchanged; otherwise it holds the one new key or is unchanged, and equals its file. |
| Keyring.EncryptionKeyring.Rotate | src/encryption.rs:370-398 | The ring is rotated or unchanged, and equals its file; an id in use is refused. |
| Keyring.EncryptionKeyring.Retire | src/encryption.rs:400-417 | The key is removed or the ring unchanged, and equals its file; the active key and unknown ids are refused. |
| Keyring.EncryptionKeyring.Open | src/encryption.rs:209-267 | Outside a hazard the state file can be opened after every crash at every stop; success leaves it under the current seal and equal to the live keys; the seal file goes only once the state is under the environment's seal; without faults a startable pair of files starts. |
| Keyring.EncryptionKeyring.Unseal | src/encryption.rs:221-250 | Opening with an older seal re-seals the same state under the current one. |
| Keyring.EncryptionKeyring.DropSeal | src/encryption.rs:255-264 | Only a seal file the environment replaces is removed; a failure leaves it in place and is ignored. |
| Keyring.Lifecycle | src/encryption.rs:209-417 | The ring goes through the life its events and faults determine; outside a hazard it stays openable, and while it is up it equals its file with its active key present and able to encrypt. |
| Keyring.LifeSafe | src/encryption.rs:209-417 | Through every run of startups, key changes and crashes that did not begin in a hazard no crash locks the state out. |
| Keyring.LifeStepOk | src/encryption.rs:209-417 | Every event keeps live keys and file together; without faults a ring that is up stays up and a startable one starts. |
| Keyring.StopLocksOut | src/encryption.rs:1086-1107 | Beside state under another seal, with no seal file and no environment seal, one stop inside startup leaves files that do not unlock. |
| Keyring.RunLocksOut | src/encryption.rs:209-398 | From every pair of files that unlocks and meets the hazard of a kind of crash, startups and key changes end where such a crash leaves files that do not unlock. |
| Keyring.UnsyncedLocksOut | src/encryption.rs:1067-1112 | From no files at all: a seal file is filled but not synced, the next attempt reads it and writes state under it, and a power loss tears it. |
| Keyring.BesideLocksOut | src/encryption.rs:869-895 | State beside a seal file that is torn, or that a power loss can tear because it was not synced, ends where it does not unlock. |
| Keyring.DroppedLocksOut | src/encryption.rs:221-264 | State under the seal file alone is re-sealed for the environment with a failed directory sync, the seal file is removed, and a power loss that lets names fall back separately leaves neither seal. |
| Vault.KeptReads | src/encryption.rs:584-627 | The invariant implies that every stored envelope decrypts to its plaintext. |
| Vault.KeptRotated | src/encryption.rs:370-398 | Rotation to a new id keeps every stored value readable. |
| Vault.KeptInitialized | src/encryption.rs:348-368 | A first key keeps every stored value readable, because without keys there are none. |
| Vault.KeptRetired | src/encryption.rs:437-447 | Retiring a key keeps every stored value readable if the check passes for every envelope. |
| Vault.InitReplacesKeys | src/encryption.rs:362-367 | On a ring with keys but no active one, init makes a readable value unreadable where rotation keeps it. |
| Vault.ReadableExactly | src/encryption.rs:437-447 | Whatever ring reads it, a value decrypts if and only if the ring has one of its keys by id and secret, while the retirement check passes if and only if it has one by id, unless the cipher opens a wrap with another key. |
| Vault.ReusedIdStrands | src/encryption.rs:437-447 | Retire, rotate to the same id, retire: every check passes and the value is lost. |
| Vault.ReadableAcross | src/encryption.rs:823-834 | A value written under one ring is readable under another that a power loss brings back if and only if they share a key. |
| Vault.UndoneChanges | src/encryption.rs:823-834 | An undone rotation or retirement shares every key of the smaller ring, an undone first key none. |
| Vault.KeptAtHome | src/encryption.rs:584-627 | A stored value opens at no other location, unless the cipher is forged. |
| Vault.EncryptedStore.Put | src/encryption.rs:512-582 | A written value is stored for every key of the ring and every other one unchanged; writing fails exactly without an active key or with too many keys. |
| Vault.EncryptedStore.Get | src/encryption.rs:584-627 | Every stored value is returned as it was last written; unknown locations give nothing. |
| Vault.EncryptedStore.Rewrap | src/encryption.rs:449-467 | Re-encryption changes no plaintext and wraps for exactly the keys of today; it fails exactly if there is no value or encryption is impossible. |
| Vault.EncryptedStore.Retire | src/store/mod.rs:2265-2341 | A key is retired exactly if every stored value has another of the ring's; every value stays readable. |
| Vault.EncryptedStore.Restart | src/encryption.rs:209-267 | A restart after any fault reads every value. |
| Vault.Run | src/encryption.rs:348-467 | The store goes through the run that events and faults determine and acknowledges exactly the writes taken; every value decrypts where it is stored, and at no other location unless the cipher is forged. |
| Vault.LastWrites | src/encryption.rs:512-582 | In every run each location holds its last acknowledged write. |
| Vault.VaultStepOk | src/encryption.rs:348-467 | Without faults a store that is up stays up through every key change. |
| Grants.ClausesMean | src/auth.rs:5582-5611 | The clauses of a condition accept its rows: a contradiction for an empty IN, nothing for an empty NOT IN. |
| Grants.ConjunctionFilter | src/auth.rs:5427-5472 | The rendered conjunction accepts exactly the rows satisfying every condition, for every comparison, table and row. |
| Grants.Scan | src/tables/select.rs:3166-3222 | The distinct fit values of exactly the matching rows; an error exactly for an unknown table or column or too many values. |
| Grants.Execute | src/auth.rs:5478-5519 | Subqueries nested to any depth become membership lists of exactly their values; it fails exactly if some subquery is reserved, unknown or too large. |
| Grants.ExecutedMeans | src/auth.rs:5478-5519 | An executed condition holds of the same rows as the condition. |
| Grants.Collapse | src/auth.rs:5697-5740 | Alternatives collapse exactly if all are equalities on one column, into the pool of their values. |
| Grants.CollapseMeans | src/auth.rs:5697-5740 | The collapsed condition holds of exactly the rows some alternative accepts. |
| Grants.RenderBranch | src/auth.rs:5626-5675 | One alternative becomes everything, nothing or one clause with its meaning, or is refused for having several. |
| Grants.RenderOr | src/auth.rs:5616-5695 | The rendered alternatives accept exactly the rows one of them accepts. |
| Grants.Render | src/auth.rs:5742-5750 | The filter of one or several alternatives accepts exactly the rows one of them accepts; it is refused only for several alternatives of which one is compound. |
| Grants.GrantFilter | src/auth.rs:5521-5531 | A rendered grant accepts a row exactly if some alternative's conditions all hold of it, for every store. |
| Grants.DroppingNothing | src/tables/select.rs:3199-3207 | A condition whose subqueries select only fit values, at every depth, is enforced as it is meant on every row. |
| Grants.EnforcedExactly | src/tables/select.rs:3155-3210 | An enforced subquery means the subquery on every row if and only if every value it selects is fit for a list, where the column's equality is equality and its own conditions are enforced as meant on the rows it reads. |
| Grants.InnerAgrees | src/tables/select.rs:3199-3207 | Conditions that are comparisons or select only fit values are together enforced as meant on every row of a table. |
| Grants.SafeSubquery | src/tables/select.rs:3155-3210 | A subquery whose own conditions are enforced as meant selects what it is meant to if and only if it is meant to select only fit values. |
| Grants.GrantAsMeant | src/auth.rs:5521-5531 | A grant whose subqueries select only fit values allows exactly the rows it says. |
| Grants.DroppingNarrows | src/tables/select.rs:3199-3207 | Without negated subqueries, leaving unfit values out can only reject more rows, at any depth. |
| Grants.NegationWidens | src/tables/select.rs:3199-3207 | With a negated subquery, leaving an unfit value out accepts a row the subquery excludes. |
| WhereText.Tokenize | src/tables/mod.rs:4389-4443 | The scan over characters agrees with the tokenizer of the round trip on every text. |
| WhereText.TextTokens | src/auth.rs:5564-5567 | Rendered text is tokenized into its pieces whatever the quoted values contain. |
| WhereText.ListBack | src/tables/mod.rs:4276-4302 | A membership list is parsed back exactly if it is legible. |
| WhereText.FilterBack | src/tables/mod.rs:4446-4469 | The tokens of a filter parse back to it, with its groups, exactly if all its lists are legible. |
| WhereText.TextBack | src/tables/mod.rs:4389-4469 | The text of a filter reads back as that filter exactly if all its lists are legible. |
| WhereText.GrantText | src/auth.rs:5774-5793 | A grant's text stands for a filter that accepts exactly the rows the grant allows; it is read back as that filter exactly if its lists are legible, and always if the grant tests equality with no closing parenthesis and none of those values or of the selected ones is SELECT. |
| KeyCache.KeyService.Begin | src/auth.rs:3357-3370 | A hash cached under five seconds ago is answered from the cache; otherwise a lookup begins. |
| KeyCache.KeyService.Finish | src/auth.rs:3372-3390 | What was read is stored and answered. |
| KeyCache.KeyService.Insert | src/auth.rs:3406-3418 | Above 1024 entries only live ones stay, and none if they are still too many; then the entry is added. |
| KeyCache.KeyService.Change | src/auth.rs:2852-2878 | A mint or a revocation changes the table for its hash, with its clear still to come. |
| KeyCache.KeyService.Clear | src/auth.rs:3422-3424 | Clearing leaves a cache that agrees with the table. |
| KeyCache.Interleave | src/auth.rs:3357-3424 | In every interleaving the service does exactly what the steps say, step by step and answer by answer, and so keeps what the lemmas promise of them. |
| KeyCache.AnswersTruthful | src/auth.rs:3357-3418 | Every answer from the cache is what the table said to a lookup of that hash which read it after it began and stored it under five seconds ago, with no clear since; every answer at the end of a lookup is what the table said to it. |
| KeyCache.WrongSpans | src/auth.rs:3357-3424 | With no clear to come, a cached entry that disagrees with the table was stored by a lookup that read before a clear and stored after it. |
| KeyCache.Coherent | src/auth.rs:3357-3424 | In every interleaving without such a lookup the cache agrees with the table whenever no clear is to come. |
| KeyCache.StoreExactly | src/auth.rs:3389-3390 | Storing what was read keeps the cache in agreement if and only if the table still says it. |
| KeyCache.CacheBounded | src/auth.rs:3406-3418 | The cache never holds more than 1025 entries. |
| KeyCache.StoreAcrossClear | src/auth.rs:3357-3424 | For every key in the table a run of five steps that leaves it cached and live after its revocation, with no clear to come. |
| Eviction.SampleShard | src/eviction.rs:149-169 | As many candidates as asked for are sampled and the oldest of them chosen; a clock at its maximum never is. |
| Eviction.PickLru | src/eviction.rs:127-181 | The first shard with a candidate decides, by its oldest sampled key; no key means no sample, or one of maximal clocks. |
| Eviction.PickRandom | src/eviction.rs:183-224 | A candidate is found exactly if some shard has one. |
| Eviction.EvictingStore.EvictSelected | src/eviction.rs:229-238 | In memory mode the delete is journaled before it happens, so replay is exact, or ahead by that delete after a crash or a poisoning; in tiered mode the key moves and the database is unchanged. |
| Eviction.EvictingStore.EvictIfNeeded | src/eviction.rs:85-125 | In memory mode at most 128 keys go, none if memory is within the limit; success means it is, running out means it is not, and without faults nothing else happens; a poisoned journal stops eviction; vectors and table keys stay; tiered mode changes placement only; disabled or replaying, nothing happens. |
| Eviction.Serve | src/eviction.rs:85-238 | Over every run of commands each one is handled in turn, and with journal failures anywhere replay gives the live contents; once the journal is poisoned or the process died it may be ahead by the last record, a client command or an eviction's delete, and nothing is journaled after it. |
| Eviction.Handle | src/eviction.rs:85-125 | A command finds memory within the limit after evicting what may be evicted and is executed, or is refused for lack of memory or by the journal; without faults only memory can stop it. |
| Eviction.EvictingStore.Journal | src/store/mod.rs:3354-3395 | A failed append leaves no record, or poisons the journal with or without the record in it; a poisoned journal takes no more. |
| Eviction.EvictingStore.Execute | src/store/mod.rs:3010-3024 | A client command is journaled and applied, or not applied at all; its record may then stay behind only once the journal is poisoned or the process died. |
| Eviction.ReplayAhead | src/store/mod.rs:3366-3395 | With the last record left behind, replay is the live contents with that one command applied. |
| Geohash.Interleave | src/geo.rs:73-80 | The bit loop computes the interleaving of the low 26 bits. |
| Geohash.Deinterleave | src/geo.rs:82-90 | The bit loop computes the two halves. |
| Geohash.Inverses | src/geo.rs:73-90 | Interleaving and deinterleaving are inverse on 26-bit pairs and 52-bit hashes; higher bits are dropped. |
| Geohash.CellBounds | src/geo.rs:63-71 | Every accepted coordinate is within half a cell of the middle of its cell, which is out of range exactly at the upper end. |
| Geohash.CellOfMiddle | src/geo.rs:92-106 | The middle of a cell lies in that cell. |
| Geohash.EncodeThenDecode | src/geo.rs:53-106 | Decoding an encoded point is within half a cell on an axis exactly below the upper end of that axis. |
| Geohash.DecodeThenEncode | src/geo.rs:63-106 | Encoding a decoded 52-bit hash gives the hash. |
| Commands.Eq | src/command.rs:1761-1776 | The byte loop decides equality up to ASCII case. |
| Commands.IntRoundTrip | src/command.rs:1515-1517 | Every integer in the range of its type is read back from its decimal text. |
| Commands.ArgsRoundTrip | src/command.rs:557-859 | Typed arguments survive printing and reading, and byte arguments are kept as they are. |
| Commands.OptionsRoundTrip | src/command.rs:868-892 | Every list of SET options is read back from its tokens. |
| Commands.ParseSetOptions | src/command.rs:868-892 | The index loop agrees with the option reader on every argument list. |
| Commands.WriteArgv | src/command.rs:1283-1501 | Lowering pushes exactly the canonical tokens. |
| Commands.NormalForm | src/command.rs:557-859 | Lowering a prepared command and preparing it again gives the same command, for every argv accepted. |

## Left out

- LXW1, LXW2 and headerless journals, and legacy data files without checksums: read-only formats of older versions.
- Damage to the four magic bytes of a journal, which selects another format.
- Damage that straddles the end of a frame's fields and its payload is not covered by `WalFormat.FrameDamageDetected` when it spans more than one byte.
- WalRun.Wal.InstallSnapshot: the bytes of the snapshot file; what is written and synced under a temporary name is taken as the captured state.
- WalCourse.Drive: the global journal only; per-shard journals of older versions are not part of this model. Generations are random, so one drawn before is not drawn again. Rotation follows only an installed and synced snapshot, as in `save_and_truncate_wal_observed`.
- ColdStore.HoldsExactly: assumes generations on stable storage; without that the exact condition is `ColdStore.FoundExactly`.
- EntryCodec.EntryRoundTrip: assumes lengths and counts below 2^32, and leaves out the cached count of a HyperLogLog, which is derived from its registers. Floats are their bit patterns.
- ColdShard.DiskShard.Put: assumes an entry below 4 GiB.
- ColdShard.Serve: a power loss promises nothing of records put since the shard was last settled, since puts are not synced. The run ends at the first put that goes through behind the bytes of a failed one; what single lookups answer from there on is `ColdShard.DiskShard.Get`.
- ColdShard.DiskShard.Open: permissions, symbolic links and locks are not modelled; numbers in staging names are not range-checked.
- Keyring.EncryptionKeyring.Open: JSON, base64 and the encryption of the state file are taken as opening with exactly the seal used.
- Vault.Run: restarts, not power losses; `Vault.ReadableAcross` says what an undone key change leaves readable. Ids are not given out twice, as `Vault.ReusedIdStrands` requires.
- Ciphers, key derivation, random numbers, blind indexes and the sealed-value wrapper are parameters or absent.
- Grants: parsing of grant text, resolution of `auth.*` operands, qualified columns of joined queries, write checks.
- WhereText.ListBack: the operators LIKE, ILIKE, CONTAINS and IS VALID, which grants do not produce, are not parsed; keywords are compared up to ASCII case.
- WhereText.GrantText: the condition on the grant's own values is sufficient; the exact one is on the lists of the rendered filter, since which value a list starts with depends on the order of the rows a subquery reads.
- Eviction: several threads evicting at once; the size estimate is the sum of item sizes.
- Geohash.EncodeThenDecode: reals instead of doubles, so rounding is not modelled.
- Commands.NormalForm: assumes the text of a float reads back as that float; NaN does not compare equal to itself.
- HTTP, RESP, Lua, pub/sub, tables, vectors, time series, authentication and clustering.
