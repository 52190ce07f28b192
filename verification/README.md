# Verified model of the scaffold archives and the exam slot pool

A Dafny model of two parts of the Catch-up exam platform, with proofs. `dafny verify dfyconfig.toml` checks it.

**The scaffold archive pipeline.** An uploaded ZIP or tar.gz is unpacked by hand-written readers, cleaned of junk,
freed of wrapper folders and written again by a hand-written ustar writer; the exam container unpacks the result.
`Bytes`, `Octal` and `Paths` are the vocabulary; `TarPack` is the writer, `TgzPreview` the tar reader, `TarRoundTrip`
what the two do together; `ZipExtract` is the ZIP reader and `ZipLayout` the layout of PKWARE's APPNOTE.TXT it is
proved against; `ScaffoldNormalize` is the whole operation and `NormalizeLaws` what it keeps. Files are byte strings;
methods fill the 512-byte header, move the offsets and run the loops as the source does, and are proved equal to
functions, about which the laws are proved. `NormalizeExample` is an upload whose second normalisation differs.
`TarContract`, `ZipContract` and `NormalizeContract` say what the writer, the readers and the operation do by bytes,
bits, positions and numbers alone, without the functions that the methods share with their specifications.

**The exam slot pool.** Attempts, slots, the FIFO entry queue, submissions, batches and the replica count are one
state (`ExamState`). Every transaction and every single UPDATE is one atomic step on it (`ExamSteps`), guarded by its
WHERE clause. A run is any sequence of steps. `AllocationInvariant` holds in every reachable state, `FifoOrder` and
`QueuePosition` are about whole runs of the queue, `SlotEpoch` and `PoolProgress` about the part of a run from a
batch's slot reset and registration to its next close or reset, and `DrainLoop` about the loop of a reconcile pass.
`ExamTables` is the mutable database with its queries, and `ExamService`, `AttemptService` and `ExamOps` are the
service methods that update it; each is proved to be a run of those steps, so every law above applies to it.

Where the code and the documentation differ, the model follows the code: docs/0-how-it-works.md:164 has recycled
slots become ready again, but no statement does that, so a recycling slot stays so until its batch is closed or reset.

Three results are negative, each with the exact condition and an input on which it bites. The tar reader does not
terminate on every input (`HaltsExactly`, `NegativeSizeStalls`, `GoingBackMayLoop`). Normalising a normalised archive
can change it (`RepeatsExactly`, `SecondPassDiffers`). A deadline can move earlier, by an assignment from the queue
after an extension or by a start that read the deadline before it was extended (`WhenDeadlinesMoveEarlier`,
`StaleStartTakesTime`, and the runs in `PoolExample`).

## Model

| member | source | states |
|---|---|---|
| Octal.OctalFieldRoundTrip | apps/web/lib/storage/tarPack.ts:15-17 | A field of width n holds every value below 8^(n-1): it is exactly n bytes and parses back to the value. |
| Octal.DigitsParse | apps/web/lib/storage/tgzPreview.ts:31-35 | Octal digits ended by NUL parse to their value, whatever follows in the field. |
| Octal.MaskedOrBits | apps/web/lib/storage/tarPack.ts:40 | The stored mode has exactly the low 12 bits that the given mode or the default has. |
| Octal.MaskedOrIdempotent | apps/web/lib/storage/tarPack.ts:39-40 | Granting the default permissions twice is granting them once. |
| TarPack.NameSplit | apps/web/lib/storage/tarPack.ts:20-33 | Sound and complete: an answer rejoins to the path with name at most 100 and prefix at most 155 bytes; refusal means that no slash after position 0 gives such a split. |
| TarPack.SplitWindow | apps/web/lib/storage/tarPack.ts:24-32 | The refused paths by shape: over 100 bytes, every slash after position 0 either too far from the end or beyond byte 155. |
| TarPack.SplitName | apps/web/lib/storage/tarPack.ts:20-33 | The backward scan finds that split, or refuses. |
| TarPack.HeaderFields | apps/web/lib/storage/tarPack.ts:35-50 | A header is 512 bytes with name, mode, size, type flag and prefix at their ustar positions. |
| TarPack.ChecksumParses | apps/web/lib/storage/tarPack.ts:46-53 | The checksum field is 8 bytes, parses to the byte sum of the final header with that field read as spaces, and the sum is below 8^6. |
| TarPack.FillHeader | apps/web/lib/storage/tarPack.ts:36-50 | Writing the fields in place gives the ustar layout, checksum field still spaces. |
| TarPack.SealHeader | apps/web/lib/storage/tarPack.ts:51-53 | The summing loop overwrites only the checksum field, with the byte sum. |
| TarPack.WriteHeader | apps/web/lib/storage/tarPack.ts:35-55 | The finished header, or refusal exactly when the stored name has no split. |
| TarPack.AddEntry | apps/web/lib/storage/tarPack.ts:60-67 | One turn of the loop appends header, data and padding to a 512-byte boundary; directories and empty files have no data block. |
| TarPack.CreateTar | apps/web/lib/storage/tarPack.ts:58-70 | The entries in order and two zero blocks; one unnameable entry refuses the archive, and only that does. |
| TgzPreview.AdvanceSign | apps/web/lib/storage/tgzPreview.ts:62-65 | The walk moves forward by at least a block exactly for sizes above -512, stays for -512 to -1023, and goes back by at least a block from -1024 on. |
| TgzPreview.HaltsExactly | apps/web/lib/storage/tgzPreview.ts:56-84 | Exactly when the reader terminates, on any bytes: the walk ends if and only if it ends within 2 * (length / 512) + 1 turns, and if and only if it meets no offset twice. |
| TgzPreview.StaysPut | apps/web/lib/storage/tgzPreview.ts:62-65 | A header reached with an advance of 0 holds the walk at its offset on every later turn; the reader does not terminate. |
| TgzPreview.NegativeSizeStalls | apps/web/lib/storage/tgzPreview.ts:31-35 | A first header with size field "-1000", whatever follows it: the walk is at offset 0 after any number of turns and never ends. |
| TgzPreview.GoingBackMayLoop | apps/web/lib/storage/tgzPreview.ts:62-83 | A size field "-2000" (-1024) after an empty member sends the walk back to that member, forever. |
| TgzPreview.GoingBackMayEnd | apps/web/lib/storage/tgzPreview.ts:61-83 | The same field after a member of 512 zero bytes sends the walk into them, where it ends: a size at or below -1024 decides nothing by itself. |
| TgzPreview.NextHeader | apps/web/lib/storage/tgzPreview.ts:60-82 | One turn of the walk, at any offset, also before the front: yields the next member (or consumes a long-name or pax header) and leaves exactly the rest to come. |
| TgzPreview.IterateTar | apps/web/lib/storage/tgzPreview.ts:56-84 | On every input on which it terminates, the walk over offsets yields exactly the members it passes, each entry pointing at its header and data. |
| TgzPreview.AdvancingHalts | apps/web/lib/storage/tgzPreview.ts:56-84 | If every size met is above -512 the reader terminates, and its list is the archive read block by block from the front. |
| TgzPreview.KeepEntry | apps/web/lib/storage/tgzPreview.ts:115-126 | Keeps an entry exactly if its path is not empty, has no ".." component and it is a directory or regular; with the data cut at the archive's end. |
| TgzPreview.ExtractTgzEntries | apps/web/lib/storage/tgzPreview.ts:112-128 | On every input on which it terminates: the kept members in order; refusal exactly above 128 MiB. |
| TgzPreview.ReadTgzEntry | apps/web/lib/storage/tgzPreview.ts:131-138 | On every input on which the walk ends: the data of the first regular member with exactly this path, or nothing when there is none. |
| TgzPreview.KeptAt | apps/web/lib/storage/tgzPreview.ts:116-123 | A member comes out as a file at a path exactly if it is regular, has that path, and the path is not empty, has no ".." and no trailing slash. |
| TgzPreview.ReadAgreesWithExtract | apps/web/lib/storage/tgzPreview.ts:112-138 | For every path: the single-file read agrees with the first file of that path in full extraction if the path is not empty, has no ".." and no trailing slash; for all other paths extraction has no such file. |
| TarRoundTrip.HeaderReadBack | apps/web/lib/storage/tgzPreview.ts:25-42 | The reader gets size, mode and kind of every written header back, and the name up to the first NUL in each of its two parts. |
| TarRoundTrip.BlockRead | apps/web/lib/storage/tgzPreview.ts:59-82 | Reading a written block, whatever its data and whatever follows, gives its member and then the members of what follows. |
| TarRoundTrip.ReadsBack | apps/web/lib/storage/tgzPreview.ts:112-128 | Reading a written archive reads every entry in order: zero blocks inside data end nothing early. |
| TarRoundTrip.AllSurvive | apps/web/lib/storage/tgzPreview.ts:45-47 | All entries come back with equal path, kind and data, and with the granted mode, if and only if every path is portable and free of NULs. |
| TarRoundTrip.TarRoundTrip | apps/web/lib/storage/tarPack.ts:15-70 | The round trip, for every list the writer accepts: extraction of the written archive is the list of entries, in order, with equal path and kind, data (none for directories) and mode (mode or default, 12 bits), if and only if every path is portable and free of NULs. |
| TarRoundTrip.PlainIsPortable | apps/web/lib/storage/tgzPreview.ts:45-47 | Paths without empty, "." or ".." components are portable. |
| TarContract.HeaderBytes | apps/web/lib/storage/tarPack.ts:35-50 | Every field of a header in bytes: name and prefix that rejoin to the path (with a slash for a directory), octal mode, uid 0, gid 0, size, mtime 0, type 0x30 or 0x35, "ustar" NUL "00", and zeros elsewhere. |
| TarContract.ChecksumBytes | apps/web/lib/storage/tarPack.ts:51-53 | The checksum is six octal digits, NUL and space, and denotes the sum of all other bytes and eight spaces. |
| TarContract.ArchiveBytes | apps/web/lib/storage/tarPack.ts:58-70 | The archive is header, data and zeros up to 512 bytes for each entry in order, then 1024 zeros. |
| TarContract.ArchiveModes | apps/web/lib/storage/tarPack.ts:39-41 | Every entry read back has bit j of its mode exactly if j < 12 and the given mode has it, or it was written as a directory and j is 0, 2, 3, 5, 6, 7 or 8, or as a file and j is 2, 5, 7 or 8. |
| TarContract.ArchiveContents | apps/web/lib/storage/tgzPreview.ts:112-128 | With portable paths free of NULs, the i-th entry read has the path, kind and data of the i-th written and exactly those mode bits. |
| TarContract.PortableByPosition | apps/web/lib/storage/tgzPreview.ts:45-47 | What portable means: no ".." between slashes, no leading "./", no trailing slash, and a file has a path. |
| TarContract.NumberField | apps/web/lib/storage/tgzPreview.ts:31-35 | A field of spaces, octal digits and anything else after them parses to the digits' value. |
| TarContract.SignedField | apps/web/lib/storage/tgzPreview.ts:31-35 | A sign before the digits is read, and a minus negates. |
| TarContract.TurnByType | apps/web/lib/storage/tgzPreview.ts:62-82 | One turn at a whole header, by the byte of its type: 0x4c sets the long name from the data without trailing NULs, 0x78 and 0x67 are skipped, anything else is a member named by the long name, or by prefix, slash and name; the next header is at the next block after the data. |
| TarContract.LongNameUsed | apps/web/lib/storage/tgzPreview.ts:67-79 | The member after a long-name header has the name in that header's data. |
| TarContract.KeptByBytes | apps/web/lib/storage/tgzPreview.ts:115-126 | A member is kept exactly if its path is not empty, has no ".." between slashes, and it ends with a slash or its type is 0x35, 0x30 or 0; kind, path, data and the low 12 mode bits of what is kept. |
| Paths.CleanPathMeans | apps/web/lib/storage/tgzPreview.ts:45-47 | "./" and all slashes after it go, so "./.gitignore" is ".gitignore"; any other path stays. |
| Paths.ComponentsByPosition | apps/web/lib/storage/tgzPreview.ts:116 | A component is what stands between slashes or the ends. |
| ZipExtract.FindEocd | apps/web/lib/storage/zipExtract.ts:29-35 | The last end record in the searched range of 65557 bytes, or none when there is none. |
| ZipExtract.Eocd | apps/web/lib/storage/zipExtract.ts:29-35 | No later position holds an end signature; nothing found means none from the lowest searched position on. |
| ZipExtract.ReadEntry | apps/web/lib/storage/zipExtract.ts:63-109 | One central record: its file, or the first reason of the source to refuse, and the next offset and running total; all reads stay in the buffer. |
| ZipExtract.ExtractZipEntries | apps/web/lib/storage/zipExtract.ts:51-112 | The walk over the central directory, on any bytes at all: terminates, reads only inside the buffer, and returns the entries or the first refusal. |
| ZipLayout.EndFound | apps/web/lib/storage/zipExtract.ts:52-54 | The end record of APPNOTE 4.3.16 is found, with its count and offset, if no signature comes later. |
| ZipLayout.NoCommentIsLast | apps/web/lib/storage/zipExtract.ts:30-33 | Without an archive comment no later signature is possible. |
| ZipLayout.EntryReads | apps/web/lib/storage/zipExtract.ts:63-109 | A central record (4.3.12) with its local record (4.3.7), whose names and extra fields may differ, reads as the listed entry. |
| ZipLayout.EntriesRead | apps/web/lib/storage/zipExtract.ts:62-110 | The records of a central directory read as the listed entries, in its order. |
| ZipLayout.ZipReads | apps/web/lib/storage/zipExtract.ts:51-112 | For every archive laid out per APPNOTE with stored or deflated unencrypted entries, local records in any order, within the limits and with no later end signature: exactly the listed entries in central-directory order, trailing slashes removed. |
| ZipContract.ZipYields | apps/web/lib/storage/zipExtract.ts:51-112 | For the same archives, entry i is a directory exactly if its name ends in a slash or 0x40000000 <= attributes < 0x50000000, else its data is the listed data; bit j of its mode is set exactly if j < 12, it was made on Unix (0x300 <= version < 0x400) and bit j + 16 of the attributes is set. |
| ZipContract.NoEndRefused | apps/web/lib/storage/zipExtract.ts:29-35 | On any bytes: refused as not a ZIP exactly if PK 5 6 stands nowhere in the last 65557 bytes. |
| ZipContract.LastEndCounts | apps/web/lib/storage/zipExtract.ts:52-56 | Else the last one counts: more than 2000 entries and an offset of ff ff ff ff are refused, and the directory starts there. |
| ZipContract.EntryRefusals | apps/web/lib/storage/zipExtract.ts:63-106 | The checks of one record in order, by byte positions: PK 1 2, bit 0 of the flags, PK 3 4 at the local offset, 134217728 bytes in all, and methods 0 and 8. |
| ScaffoldNormalize.UnwrapWeight | apps/web/lib/storage/scaffoldNormalize.ts:51-53 | Stripping a wrapper strictly lowers total path length plus entry count. |
| ScaffoldNormalize.Flatten | apps/web/lib/storage/scaffoldNormalize.ts:44-56 | At most 17 levels are stripped; stopping at 16 or fewer leaves no single top directory. |
| ScaffoldNormalize.GuardOnlyCuts | apps/web/lib/storage/scaffoldNormalize.ts:45-56 | Against the unlimited process, which terminates: the same result and depth up to 17 levels, else cut at 17. |
| ScaffoldNormalize.WrapperCheck | apps/web/lib/storage/scaffoldNormalize.ts:46-50 | With a single first component, the wrapper test fails only on a file named like it. |
| ScaffoldNormalize.FlattenWrappers | apps/web/lib/storage/scaffoldNormalize.ts:44-56 | The loop strips exactly those levels. |
| ScaffoldNormalize.UnpackExtracted | apps/web/lib/storage/scaffoldNormalize.ts:32-39 | Entries of either format have no trailing slash and data that fits a Buffer. |
| ScaffoldNormalize.NormalizeScaffoldArchive | apps/web/lib/storage/scaffoldNormalize.ts:31-64 | The whole operation with every refusal: format, gzip, size, ZIP, no files, name too long. |
| NormalizeLaws.FlattenConserves | apps/web/lib/storage/scaffoldNormalize.ts:45-56 | The result is the input with one common lead of exactly `flattened` components cut off; the only entries lost are directories the lead passes through. |
| NormalizeLaws.BelowFrom | apps/web/lib/storage/scaffoldNormalize.ts:51-53 | Every result is an input entry with equal data, kind and mode, and the lead cut off its path. |
| NormalizeLaws.BelowDistinct | apps/web/lib/storage/scaffoldNormalize.ts:51-53 | Distinct paths stay distinct. |
| NormalizeLaws.NormalizeConserves | apps/web/lib/storage/scaffoldNormalize.ts:41-56 | All of this for the junk-free entries of any archive, and no junk or empty path reappears. |
| NormalizeContract.NormalizePacks | apps/web/lib/storage/scaffoldNormalize.ts:41-63 | The whole operation by positions: an unpacked entry is dropped exactly if its path is empty or one of __MACOSX, .DS_Store, Thumbs.db, desktop.ini stands in it between slashes or the ends; the rest keep order, data, kind and mode; one lead with `flattened` slashes, at most 17, is cut off; what is lost with it are folders it passes through; up to 16 no folder is left that holds everything; `droppedJunk` and `fileCount` are those numbers. |
| NormalizeContract.WrappedMeans | apps/web/lib/storage/scaffoldNormalize.ts:45-50 | The loop goes on exactly if one folder holds everything else. |
| NormalizeContract.JunkByPosition | apps/web/lib/storage/scaffoldNormalize.ts:11 | The junk pattern by positions in the path. |
| NormalizeContract.UploadKinds | apps/web/lib/storage/scaffoldNormalize.ts:33-39 | The first bytes decide between ZIP, gzip and refusal. |
| NormalizeContract.GzipLimit | apps/web/lib/storage/tgzPreview.ts:17-23 | A gzip stream is refused exactly above 134217728 bytes. |
| NormalizeContract.RefusedAfterUnpacking | apps/web/lib/storage/scaffoldNormalize.ts:58-63 | After unpacking, an upload is refused exactly without files or with a name no header can hold. |
| NormalizeLaws.TarInjective | apps/web/lib/storage/tarPack.ts:58-70 | Equal archives come from entry lists of equal length, kinds and header names (which agree up to NULs at the end), in order; NULs in paths included. |
| NormalizeLaws.NormalizeIdempotent | apps/web/lib/storage/scaffoldNormalize.ts:31-64 | If the first pass stopped before the guard with portable paths, the second gives the byte-identical tar, nothing flattened or dropped and the same file count, or refuses it for its size. |
| NormalizeLaws.RepeatsExactly | apps/web/lib/storage/scaffoldNormalize.ts:31-64 | For every accepted upload: a second pass repeats the bytes with nothing to do if and only if gunzip accepts the size, every packed entry reads back as one that is written alike, none of the entries read is junk, and they have no wrapper left. |
| NormalizeLaws.SteadyMeans | apps/web/lib/storage/tgzPreview.ts:25-47 | An entry reads back as one written alike exactly if its name has NULs only at the end of its two parts, what is legible splits the same way, and it names an entry of the same kind with a portable path. |
| NormalizeLaws.RepeatablePaths | apps/web/lib/storage/scaffoldNormalize.ts:41-56 | Without NULs, the condition for repeating is: portable paths, and no wrapper that the guard left. |
| NormalizeExample.SecondPassDiffers | apps/web/lib/storage/scaffoldNormalize.ts:31-64 | A concrete ZIP with "./b" and "c" is accepted with nothing to do, and normalising the result does not repeat it. |
| NormalizeLaws.PlainStaysPortable | apps/web/lib/storage/scaffoldNormalize.ts:41-56 | Archives without empty, "." or ".." components, and without NUL, always leave portable paths. |
| NormalizeLaws.ZipToContainer | apps/web/lib/storage/scaffoldNormalize.ts:31-64 | End to end: the normalised archive of a well-formed ZIP unpacks to the listed entries, without junk and common wrapper folders, in order. |
| AllocationInvariant.AllReachable | db/migrations/0004_hosted.sql:5-15 | In every reachable state: no attempt holds two slots, none both waits and holds a slot, each waits at most once, slot and queue rows agree with their attempt's batch and only name started attempts, submitted_at is set exactly for submitted attempts, running ones have a start and a deadline, submitting and recycling slots and accepted submissions belong to submitted attempts, one file per kind. |
| AllocationInvariant.StepKeeps | apps/web/lib/services/examService.ts:83-118 | Every step keeps all of it. |
| AllocationInvariant.StartNeverViolates | apps/web/lib/services/examService.ts:99-109 | A direct start never breaks UNIQUE(attempt_id), and succeeds whenever a slot is ready. |
| AllocationInvariant.DrainNeverViolates | apps/web/lib/services/examOpsService.ts:346-359 | Nor does an assignment from the queue: it goes through exactly if somebody waits and a slot is ready. |
| AllocationInvariant.RunForward | apps/web/lib/db/repositories/attempts.ts:303-354 | Over any run submitted and void attempts never change again, and no attempt changes its batch, examinee or start. |
| AllocationInvariant.PutFileKeeps | apps/web/lib/db/repositories/submissions.ts:83-96 | Replacing a file keeps one per kind and leaves the other kind alone. |
| FifoOrder.GrantIsFifo | apps/web/lib/services/examService.ts:99-109 | Whatever step gives an attempt a slot, nobody of its batch was waiting before it, and it is the lowest ready slot; no other slot changes. |
| FifoOrder.NoOvertaking | apps/web/lib/db/repositories/entryQueue.ts:9-63 | Over any run: while x waits, no attempt of its batch that was not ahead of x is given a slot, from the queue or directly. |
| QueuePosition.PlaceNeverGrows | apps/web/lib/db/repositories/entryQueue.ts:23-38 | Over any run an examinee who stays in the queue never falls back. |
| QueuePosition.RowPlace | apps/web/lib/db/repositories/entryQueue.ts:24-30 | The count of earlier rows of the batch is the index in the waiting list. |
| SlotEpoch.EpochTenancy | apps/web/lib/db/repositories/slots.ts:66-163 | Within an epoch, whatever steps run: a slot has an attempt exactly when it is assigned, submitting or recycling; once set it never changes and the state only moves forward in that order. |
| PoolProgress.EpochFramed | apps/web/lib/services/examOpsService.ts:341-369 | Within an epoch every ready or busy slot is below the replicas, which are at most min(capacity, 50) and never fall. |
| PoolProgress.ScaleCovers | apps/web/lib/services/examOpsService.ts:364-369 | After scaling, the replicas cover used plus waiting, or the whole pool. |
| PoolProgress.DrainedDry | apps/web/lib/services/examOpsService.ts:346-359 | With all pods up, a pass that can drain no more has emptied the queue or filled the pool. |
| PoolProgress.QuietDemand | apps/web/lib/services/examService.ts:99-109 | No step raises the demand of a batch but a start in it of an attempt that neither waits nor has a slot; starts elsewhere and restarts do not. |
| PoolProgress.PoolMakesProgress | apps/web/lib/services/examOpsService.ts:341-369 | After one pass, with nobody new arriving and all ordered pods Ready, the next pass, interleaved with other requests, leaves the queue empty or all min(capacity, 50) slots busy. |
| DrainLoop.DrainIsZip | apps/web/lib/services/examOpsService.ts:346-359 | After k transactions the i-th oldest waiting attempt has the i-th lowest ready slot for i < k, exactly those k rows are gone, their live attempts have the full time from then, no other slot or attempt changed; the loop goes on exactly while somebody waits and a slot is ready. |
| ExamTables.Tables.StartRunning | apps/web/lib/db/repositories/attempts.ts:303-312 | Only ready or running attempts start; the first start time stays; no other row changes. |
| ExamTables.Tables.ListExpiredRunning | apps/web/lib/db/repositories/attempts.ts:369-381 | Exactly the running attempts past their deadline, of the batch if one is given, each once. |
| ExamTables.Tables.AssignReadySlot | apps/web/lib/db/repositories/slots.ts:66-86 | The first row of the batch that is ready becomes assigned to the attempt; none exactly if no row of the batch is ready; the violation only if the attempt has a slot; nothing else changes. |
| ExamTables.Tables.RegisterSlot | apps/web/lib/db/repositories/slots.ts:120-145 | The upsert adds one row at most; busy rows keep their state. |
| ExamTables.Tables.SyncReadySlots | apps/web/lib/db/repositories/slots.ts:151-163 | Row by row: the pods decide for slots of the batch nobody uses, and for no others. |
| ExamTables.Tables.LockHead | apps/web/lib/db/repositories/entryQueue.ts:53-63 | The row of the batch that no other row of the batch precedes, or none when the batch has no row. |
| ExamTables.Tables.Enqueue | apps/web/lib/db/repositories/entryQueue.ts:9-15 | A queued attempt keeps its place; a new one goes last; one row per attempt. |
| ExamTables.Tables.PositionOf | apps/web/lib/db/repositories/entryQueue.ts:23-38 | Nothing exactly for attempts not in the queue, else the place in the batch's waiting list, from 1. |
| ExamService.GiveOrQueue | apps/web/lib/services/examService.ts:99-109 | On the rows: a slot is kept; if a row of the batch waits or no slot of it is ready, the attempt goes last in the queue, once; else it gets the first ready slot; no roll-back is possible. |
| ExamService.CheckStart | apps/web/lib/services/examService.ts:74-81 | What is read before the transaction, without a lock: the present deadline, or now + 7200000 ms if there is none, or a refusal; nothing is changed. |
| ExamService.StartTransaction | apps/web/lib/services/examService.ts:83-118 | In whatever state the tables are by then, with whatever deadline was read: starts exactly a live attempt of an open batch and writes that deadline, after which it has a slot or waits; otherwise nothing changes. It is one start step. |
| ExamService.StartExam | apps/web/lib/services/examService.ts:72-125 | Succeeds exactly for the owner's ready or running attempt of an open batch; stored and returned deadline are the earlier one, or 7200000 ms after some moment of the call. |
| ExamService.RestartChangesNothing | apps/web/lib/services/examService.ts:80-109 | A second start right after a successful one leaves the same state: slot or place, start and deadline. |
| ExamService.WhenDeadlinesMoveEarlier | apps/web/lib/services/examService.ts:81-91 | For every step in every state: a deadline moves earlier exactly when a live attempt is given a slot from the queue while its deadline is more than 120 minutes away, or a start succeeds with a deadline below the present one. |
| ExamService.StaleStartTakesTime | apps/web/lib/services/examService.ts:74-91 | Over any run: a start whose deadline was read in an earlier state takes time exactly when it still succeeds and the deadline has since risen beyond the one read. |
| PoolExample.StaleStart | apps/web/lib/services/examService.ts:74-91 | A reachable state in which a start that read its deadline before a ten-minute extension takes those minutes away. |
| PoolExample.DrainAfterExtension | apps/web/lib/services/examOpsService.ts:353-354 | A reachable state in which an assignment from the queue takes the ten minutes away. |
| ExamService.RunReaches | apps/web/lib/services/examService.ts:83-118 | What runs lead to from reachable states is reachable and keeps the invariant. |
| ExamService.SubmitExam | apps/web/lib/services/examService.ts:137-153 | Exactly the owner's running attempt; it is submitted and its assigned slot waits for packaging; nothing else changes. |
| ExamService.AutoCollectAttempt | apps/web/lib/services/examService.ts:170-190 | Collects only a running attempt with a deadline up to the server's own clock, and always one with a deadline up to the beginning. |
| ExamService.SweepDeadlines | apps/web/lib/services/examService.ts:207-215 | Exactly the running attempts (of the batch) overdue when it began are submitted between begin and end, their assigned slots wait for packaging, all else is untouched, the count is their number, and no attempt stays overdue; if the database fails half-way, exactly those reached so far. |
| AttemptService.ForceSubmit | apps/web/lib/services/attemptService.ts:70-86 | Exactly ready or running attempts, otherwise nothing changes. |
| AttemptService.ExtendDeadline | apps/web/lib/services/attemptService.ts:48-66 | Any minutes above 0 up to 600, fractions included, on ready or running attempts; the base is the present deadline while that is in the future, else now; only the deadline changes. |
| AttemptService.RegisterPackage | apps/web/app/api/internal/submissions/package/route.ts:60-85 | Only for submitted attempts; however often repeated there is one file per kind, the sent artifact is there, an earlier chat log survives a callback without one, the acceptance time moves and the submission time stays, and exactly the attempt's assigned or submitting slots are recycling. |
| ExamOps.DrainOne | apps/web/lib/services/examOpsService.ts:347-357 | On the rows: the first row of the batch leaves the queue, its attempt gets the first ready slot and, if ready or running, 7200000 ms from now; nothing happens exactly if nobody waits or no slot is ready. |
| ExamOps.ReconcilePool | apps/web/lib/services/examOpsService.ts:326-369 | On an open batch: syncs, serves exactly the shorter of the queue and the ready slots, and keeps the invariant; the replicas become the larger of before and min(min(capacity, 50), max(warm count or all, slots in use + rows waiting)), counted after draining; other batches are left alone. |
| ExamOps.PassIsRun | apps/web/lib/services/examOpsService.ts:341-369 | A whole pass is a run of the protocol's steps, so all laws about runs hold for it. |
| ExamOps.PassServes | apps/web/lib/services/examOpsService.ts:341-369 | After a pass nobody waits or no slot is ready, and the replicas cover the demand up to the pool size. |
| ExamOps.TwoPassesServe | apps/web/lib/services/examOpsService.ts:341-369 | Two whole passes, with anything of the epoch but new arrivals between them and all ordered pods Ready at the second: nobody waits or all min(capacity, 50) slots are busy. |
| ExamOps.OpenEpoch | apps/web/lib/services/examOpsService.ts:148-160 | In whatever state the tables are after the waits: an epoch begins with the whole pool registered, down and free, nobody waiting, and other batches' slots untouched; work begun since the check loses its slots. |
| ExamOps.ProvisionBatch | apps/web/lib/services/examOpsService.ts:69-166 | Refused for unknown batches, capacity below 1 and while any slot anywhere is assigned or submitting; else min(capacity, 50) slots, and as many pods as asked for, by override, warm count or all, between 0 and that; the epoch begins. |
| ExamOps.CloseBatch | apps/web/lib/services/examOpsService.ts:177-225 | Collects exactly what is overdue (or what a sweep that fails half-way reached), then all slots of the batch are down with their attempts on record and the queue has none of its rows, whether or not sweep and teardown succeed. |

## Left out

- TarPack.CreateTar: data above 4 GiB is excluded, the largest Buffer of Node 18, so a size always fits its octal field.
- TgzPreview.IterateTar: requires that the walk ends, as a method must; `HaltsExactly` says when that is.
- TgzPreview.ExtractTgzEntries: starts from the bytes gunzip gives, compression being an inverse pair, and likewise requires that the walk ends.
- TgzPreview.ReadTgzEntry: likewise.
- ZipExtract.ExtractZipEntries: inflation is a parameter; names are bytes, without UTF-8 or EUC-KR decoding.
- ScaffoldNormalize.NormalizeScaffoldArchive: gzip, which is deterministic, is not modelled; equal tars stand for equal archives.
- PoolProgress.PoolMakesProgress: assumes that within the epoch no other batch scales the one StatefulSet or is provisioned, that only pods below the replicas report Ready or register, and that registering boots keep their slot ready during a pass.
- ExamOps.ReconcilePool: the advisory lock is represented by one pass at a time, and the unlocked status read by a batch that stays open during the pass; the steps it is made of are proved safe whatever the status.
- ExamService.StartExam: runs its two parts without a step between; `StartTransaction` and `StaleStartTakesTime` cover steps between them. The reconcile pass it triggers is a separate call.
- AttemptService.ExtendDeadline: NaN and infinite minutes, which are refused, and the rounding of binary fractions.
- ExamOps.ProvisionBatch: runs without a step between its check and its last part, where Kubernetes waits and may fail; `OpenEpoch` covers what happens meanwhile. Keys and routing.
- ExamOps.CloseBatch: the teardown and the failure of the sweep are parameters.
- Text: bytes that are not valid UTF-8, white space beyond ASCII around a number, `listTgzEntries` with its locale order, `isProbablyText`, archive file names.
- Row locks and SKIP LOCKED, except as atomic steps; the database clock and the server clock are one clock that never goes back.
- Kubernetes, LiteLLM, MinIO and Redis; endpoints, virtual keys, heartbeats and the event log.
- Deleting a batch, `markExpiredTx` and `startAttempt`, which no modelled caller uses.
- Roles, sessions, rosters, dashboards, pages and HTTP envelopes: only easy members.
