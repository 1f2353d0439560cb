# Verified model of llm-lsp-cli

A Dafny model of the parts of llm-lsp-cli whose correctness is not obvious from their code, with proofs of what they
promise. `dafny verify dfyconfig.toml` checks the whole project.

## What is modelled

- **Text edits** (`Lines`, `TextEdits`, `TextEditArrays`, `BottomUp`, `EditMeaning`, `OldText`). The rename engine
  splits a file into lines, sorts the edits by descending start and splices each into the list of lines. The
  reference is the section "TextEdit[]" of LSP 3.17: all edits address the original text and are applied at once,
  on flat offsets. The two agree for every array without overlaps and shared starts. Where starts are shared they
  agree exactly when, at every offset, what the loop makes of the edits there is the concatenation of their texts.
- **Rename transactions** (`FileSystem`, `WorkspaceEdits`, `RenameSessions`, `BackupManager`, `RenameService`). Backing up, editing,
  recording and restoring on a disk whose writes may fail and then leave anything in that one file, or be obstructed
  by a file or directory in the way. Where backups do not collide, applying is all-or-nothing, and a run of sessions
  rolled back in reverse gives the files back.
- **Message framing** (`Decimals`, `Framing`, `Streams`, `StdioReader`, `FrameLaws`). The printer, the server's buffer loop, the
  client's response loop and the line-based reader of the stdio transport, over bytes. What is delivered does not
  depend on the chunks, both framers read the same messages, and it is proved what each makes of a bad frame.
- **Concurrent state machines** (`Transport`, `FileLocks`, `DocumentSync`). Steps between suspension points, proved over
  every interleaving: request correlation, the lock table, and document opening and versions.
- **Caches** (`OpenStates`, `DiagnosticCache`, `DiagnosticRequests`, `PatternEngine`, `TestFilter`). Each is compared with the
  simple thing it replaces: the history of its writes, always asking the server, matching without a cache.
- **Recursive algorithms** (`PatternEngine`, `TreeRenderer`, `SymbolDepth`, `DeepMerge`). Glob matching against cuts of the
  path, tree rendering against a parser for it, truncation against paths, deep merge against precedence by path.

Classes that the code updates in place are classes here. Their methods are proved against functions on values (`Step`
functions for the state machines), and the theorems are about those functions over all runs.

## Where the code falls short of what one would expect

Each of these is a proved contract, and where it is a matter of a condition the contract says exactly which.

- Edits sharing a start are applied in array order from the bottom, so insertions at one position come out reversed
  and a replacement can swallow text inserted in front of it (`EditMeaning.EditedIsSimultaneousExactly`,
  `EditMeaning.AlwaysSimultaneousExactly`).
- Backups of files outside the workspace share a slot when they share a name, a root file called `manifest.json` or
  `request.json` has its backup overwritten, and a file outside the workspace that is named like a directory of
  affected files loses its backup, because it is copied into that directory (`RenameSessions.RollbackRestoresExactly`).
- A session whose id repeats replaces the earlier one, which can then not be rolled back
  (`RenameSessions.RepeatedIdLosesSession`).
- A failed rename is not undone, or restoring raises, in the same cases except that of the manifest
  (`RenameServices.FailureIsUndoneExactly`).
- A message whose body is null is taken for an incomplete one and blocks the buffer loop (`Streams.DeliveredExactly`).
- A path that is an alias of an open file is changed without having been opened itself, although the file was
  (`DocumentSync.OpenFirstExactly`).
- A second didOpen of a file is written by a change once the recorded mtime has grown
  (`DocumentSync.StaleChangeOpensAgain`), when an opening fails and is tried again (`DocumentSync.PathsOpenedOnceExactly`),
  when aliases open it (`DocumentSync.AlwaysOpenedOnceExactly`), by a change while a request opens the file
  (`DocumentSync.ChangeOpensAgain`), and after an eviction of the lock of a file that is being opened
  (`DocumentSync.EvictionOpensAgain`).
- An unchanged report has no URI in LSP 3.17; the client looks one up and answers with an empty list, right only if
  the cached list of the file is empty, and caches it (`DiagnosticRequests.UnchangedWithoutUri`). The comment that cached diagnostics
  are returned for unchanged reports holds only for servers that add a URI.
- An mtime that goes back, as rollback makes it, leaves the newer diagnostics in use. What is served from the cache
  is known to be right only if the file was answered with it at that mtime before
  (`DiagnosticRequests.HitIsRightExactly`); the same holds for published diagnostics.
- A bare `**` pattern does not match everything (`PatternEngine.BareGlobstarMatchesExactly`), although the comment in the code
  says that `**` matches any number of directory levels.
- A rendering can be read in two ways once symbols' lines may contain newlines: a newline can stand for a sibling
  (`TreeRenderer.NewlineMergesNodes`). Without newlines it cannot (`TreeRenderer.RenderTextIsInjective`).
- Layering is not associative when a middle layer hides an object behind a scalar
  (`DeepMerge.LayeringIsAssociativeExactly`).
- A pattern set with only include patterns counts as empty and is replaced by the defaults (`TestFilter.TestPaths.PatternsFor`).

## Model

| member | source | states |
|---|---|---|
| `TextEdits.ApplyEditReplaces` | src/llm_lsp_cli/domain/services/rename_service.py:478-507 | Splicing one edit into the list of lines replaces exactly the stretch of the joined text between its clipped flat offsets, for single-line and multi-line ranges and new texts with newlines |
| `TextEdits.ApplyEditSplices` | src/llm_lsp_cli/domain/services/rename_service.py:478-507 | For any range, also one that ends before it starts: the result is the text before its start, the new text and the text behind its end; an edit behind the last line changes nothing |
| `TextEdits.OffsetMonotone` | src/llm_lsp_cli/domain/services/rename_service.py:484-507 | Clipped positions keep their order as flat offsets |
| `TextEditArrays.AddBelow` | src/llm_lsp_cli/domain/services/rename_service.py:475-478 | In the simultaneous meaning, an edit below all others replaces its range in the text the others produce |
| `BottomUp.SortIsStable` | src/llm_lsp_cli/domain/services/rename_service.py:475-478 | The sort is descending and keeps the order of edits with the same start |
| `BottomUp.DescendingIsSimultaneous` | src/llm_lsp_cli/domain/services/rename_service.py:475-510 | Applying descending, separate edits to the lines gives their simultaneous replacement and leaves everything below the last start untouched |
| `BottomUp.MergeKeepsResult` | src/llm_lsp_cli/domain/services/rename_service.py:477-507 | Edits that share a start act like one edit whose text is what the earlier ones leave in front of the later one |
| `EditMeaning.EditedIsMerged` | src/llm_lsp_cli/domain/services/rename_service.py:467-510 | For every array LSP 3.17 allows, in any order, editing a file is the simultaneous replacement of the array with its shared starts merged |
| `EditMeaning.EditedIsSimultaneousExactly` | src/llm_lsp_cli/domain/services/rename_service.py:467-510 | A legal array gets its LSP meaning if and only if at every offset the merged texts are the concatenation of the texts that start there |
| `EditMeaning.EditedIsSimultaneous` | src/llm_lsp_cli/domain/services/rename_service.py:467-510 | Any content and any in-bounds array without overlaps and shared starts, in any order: editing is the simultaneous replacement on flat offsets |
| `EditMeaning.AlwaysSimultaneousExactly` | src/llm_lsp_cli/domain/services/rename_service.py:475-478 | A legal array of ranges gets its LSP meaning whatever its texts are if and only if no two edits share a start |
| `OldText.ExtractTextAtRange` | src/llm_lsp_cli/domain/services/rename_service.py:390-424 | The recorded old text is the flat substring between the offsets of the range, and empty for a range that ends before it starts |
| `OldText.EditedLength` | src/llm_lsp_cli/domain/services/rename_service.py:484-507 | Applying edits changes the length by the lengths of the new texts minus those of the old texts |
| `OldText.OldTextsChangeNothing` | src/llm_lsp_cli/domain/services/rename_service.py:390-424 | Writing the recorded old texts over their own ranges gives the original content |
| `OldText.OldTextsUndo` | src/llm_lsp_cli/domain/services/rename_service.py:390-424 | After an array of edits, replacing the new texts by the recorded old ones, from the first to the last, gives the original content |
| `WorkspaceEdits.ExtractedIsAssembled` | src/llm_lsp_cli/domain/services/rename_service.py:340-388 | Over the indices of the workspace edit: the edits extracted for a file are, one after another, those of exactly the entries without kind that name it and have edits; `changes` counts only without `documentChanges` |
| `WorkspaceEdits.AssembledOnce` | src/llm_lsp_cli/domain/services/rename_service.py:340-388 | No other list of edits is assembled so |
| `RenameServices.CreateEditRecords` | src/llm_lsp_cli/domain/services/rename_service.py:310-338 | One record for each edit, in order, with the text its range covers |
| `RenameServices.EditLines` | src/llm_lsp_cli/domain/services/rename_service.py:478-507 | The branches of the loop body compute the splice that ApplyEditReplaces is about |
| `RenameServices.EditContent` | src/llm_lsp_cli/domain/services/rename_service.py:470-510 | Split, stable descending sort, loop and join compute the function the edit theorems are about |
| `RenameServices.RenameService.ExtractEditRecords` | src/llm_lsp_cli/domain/services/rename_service.py:340-388 | The records of each file are exactly the edits the entries of the workspace edit make to it, in their order, each with its old text |
| `RenameServices.RenameService.ApplyEdits` | src/llm_lsp_cli/domain/services/rename_service.py:446-510 | Every existing file named by a record is fully edited and no other changes; after a failing write no file outside them has changed |
| `RenameServices.RenameService.GroupByFile` | src/llm_lsp_cli/domain/services/rename_service.py:458-464 | Grouping keeps the order of the edits of each file |
| `RenameServices.RenameService.EditAndRecord` | src/llm_lsp_cli/domain/services/rename_service.py:262-274 | Edits, then status, request and manifest; on failure only affected files and the two documents may differ, and a write failed or a document was obstructed |
| `RenameServices.RenameService.RecordSession` | src/llm_lsp_cli/domain/services/backup_manager.py:246-283 | Both documents are written in order; a failure touches only them |
| `RenameServices.RenameService.ApplyOrUndo` | src/llm_lsp_cli/domain/services/rename_service.py:264-285 | The try block with its handler: a backed up session is edited and recorded, or undone as far as its backups allow |
| `RenameServices.RenameService.BackUpAndApply` | src/llm_lsp_cli/domain/services/rename_service.py:255-285 | The backup and the try block as one transaction |
| `RenameServices.RenameService.ApplyFromEdit` | src/llm_lsp_cli/domain/services/rename_service.py:212-285 | A transaction. Returning means status applied, every file holding exactly the edits the workspace edit's own entries make to it and, if backups do not collide or obstruct each other, a session that can be rolled back. Raising out of the backup leaves every file outside the session directory and the status pending. Raising out of an edit whose write was the only one to fail, or out of an obstructed record without a failing write: if no slot is a directory the status is failed, and the files are as before if and only if files sharing a slot agree (and one in the place of the request holds the request); if some slot is a directory, restoring raises and the status is not failed. A single failing record write is undone where nothing collides or is obstructed |
| `RenameServices.FailureIsUndoneExactly` | src/llm_lsp_cli/domain/services/rename_service.py:275-285 | However far editing and recording got and whatever a failed write left, backups whose slots are no directories can be copied back, and that gives back every file outside the session directory if and only if files sharing a slot had the same content and a document in the place of a slot holds the content of its file |
| `RenameServices.FailedEditIsUndoneExactly` | src/llm_lsp_cli/domain/services/rename_service.py:275-285 | A session that failed while editing is undone if and only if files sharing a slot had the same content |
| `RenameServices.FailedRecordIsUndoneExactly` | src/llm_lsp_cli/domain/services/rename_service.py:269-285 | A session one of whose documents was obstructed is undone if and only if, besides, a file in the place of the request had the request as content |
| `RenameServices.AllOrNothing` | src/llm_lsp_cli/domain/services/rename_service.py:264-285 | Where backups do not collide and no slot is a directory, and either nothing fails but a document may be obstructed, or one write fails and nothing is obstructed, every affected file is edited or every file is as before |
| `RenameServices.AppliedAsAsked` | src/llm_lsp_cli/domain/services/rename_service.py:212-285 | What returning means in terms of the workspace edit alone: every file outside the session directory holds the edits of exactly the entries that name it |
| `RenameServices.AppliedFilesHaveTheirMeaning` | src/llm_lsp_cli/domain/services/rename_service.py:212-285 | After an applied session a file whose edits in the workspace edit neither overlap nor share a start holds their simultaneous replacement |
| `RenameSessions.OrdinaryFilesAreRecoverable` | src/llm_lsp_cli/domain/services/backup_manager.py:166-181 | Files of a consistent disk, inside the workspace, outside the sessions directory and not called like or below the session's documents, never collide or obstruct each other in a fresh session directory |
| `RenameSessions.OutsideSlotsCollideExactly` | src/llm_lsp_cli/domain/services/backup_manager.py:170-175 | Files outside the workspace are backed up under their bare names, so two of them share a slot if and only if their names are the same |
| `RenameSessions.RecoverableSessionIsApplied` | src/llm_lsp_cli/domain/services/backup_manager.py:151-182 | Without collisions the backups of an applied session hold the original contents |
| `RenameSessions.RollbackUndoesSession` | src/llm_lsp_cli/domain/services/backup_manager.py:196-235 | Rolling back by id from the manifest on disk gives the files before the session |
| `RenameSessions.RollbackRestoresExactly` | src/llm_lsp_cli/domain/services/backup_manager.py:172-181 | For any paths, rollback restores every affected file if and only if no slot is a directory, files sharing a slot had the same content and a file in the place of a session document had that document as content |
| `RenameSessions.RollbackUndoesRun` | src/llm_lsp_cli/domain/services/backup_manager.py:196-235 | Any number of sessions with distinct fresh ids, rolled back in reverse by id from disk, give the whole file system before the first one |
| `RenameSessions.RepeatedIdLosesSession` | src/llm_lsp_cli/domain/services/backup_manager.py:141-149 | A second session with the same id takes the place of the first: rolling back undoes the second, then finds no session, and the first is undone if and only if it had changed nothing |
| `RenameSessions.ManifestListsNoBackups` | src/llm_lsp_cli/domain/services/backup_manager.py:246-263 | No backup listed by the manifest of a session is also an original of it |
| `BackupManagers.AppliedSessionCanBeRestored` | src/llm_lsp_cli/domain/services/backup_manager.py:196-235 | For an applied session the premises of RestoreById hold and its result is the files before the session |
| `BackupManagers.FailedRollbackCanBeRepeated` | src/llm_lsp_cli/domain/services/backup_manager.py:229-235 | What a failed rollback of an applied session leaves still rolls back to the files before the session |
| `BackupManagers.BackupManager.CreateSession` | src/llm_lsp_cli/domain/services/backup_manager.py:85-126 | A pending session without files under its id and directory |
| `BackupManagers.BackupManager.BackupFiles` | src/llm_lsp_cli/domain/services/backup_manager.py:151-182 | Each existing file is copied to its slot, or one backup is lost because its slot is a directory; nothing outside the session directory changes, also when a copy fails; where nothing is obstructed only a failed write makes it raise |
| `BackupManagers.BackupManager.BackupFile` | src/llm_lsp_cli/domain/services/backup_manager.py:166-182 | One file is copied, into the slot if that is a directory, and recorded under its slot |
| `BackupManagers.BackupManager.CopyBack` | src/llm_lsp_cli/domain/services/backup_manager.py:190-192 | Every listed file takes the content of its backup if there is one; a backup that is a directory makes it raise; also then the session directory is as before and only originals may differ |
| `BackupManagers.BackupManager.Restore` | src/llm_lsp_cli/domain/services/backup_manager.py:184-194 | The files of the session take the contents of its backups and its status becomes rolled back; a failing copy leaves the status, the session directory and all files but originals |
| `BackupManagers.BackupManager.RestoreAndClean` | src/llm_lsp_cli/domain/services/backup_manager.py:229-235 | Restores the listed files and removes the session directory; if copying fails the directory stays as it was |
| `BackupManagers.BackupManager.RestoreById` | src/llm_lsp_cli/domain/services/backup_manager.py:196-235 | A known session is restored from memory; any other id by the manifest on disk, with the error that says what is missing and nothing changed, or restored with the directory removed; if copying fails the directory stays as it was and only originals may differ |
| `BackupManagers.BackupManager.WriteManifest` | src/llm_lsp_cli/domain/services/backup_manager.py:246-263 | The manifest lists the session's files; a failing write damages only the manifest |
| `BackupManagers.BackupManager.WriteRequestJson` | src/llm_lsp_cli/domain/services/backup_manager.py:265-283 | The request is written; a failing write damages only that file |
| `Decimals.ParsePrinted` | src/llm_lsp_cli/ipc/protocol.py:66 | Reading a printed length gives the length |
| `Decimals.ParseSigned` | src/llm_lsp_cli/ipc/protocol.py:183 | A printed number is read with its sign and whatever spaces stand around it |
| `Framing.ParsePrintedMessage` | src/llm_lsp_cli/ipc/protocol.py:62-66 | A printed message, whatever follows it, parses as that message and leaves what follows |
| `Framing.Parse` | src/llm_lsp_cli/ipc/protocol.py:163-205 | The loop over header lines and the body slices compute the parse the theorems are about: incomplete, invalid and null cases, and the last of several lengths |
| `Framing.DrainBuffer` | src/llm_lsp_cli/ipc/unix_server.py:147-160 | The inner loop delivers all complete messages of the buffer in order, and stops at an error |
| `Framing.HandleClient` | src/llm_lsp_cli/ipc/unix_server.py:112-176 | The outer loop computes the delivery of the chunks, up to the end of the stream |
| `Streams.ParseInLonger` | src/llm_lsp_cli/ipc/protocol.py:163-205 | A parse that has succeeded or failed stays the same when bytes are appended, which go to the remainder |
| `Streams.ChunkIndependent` | src/llm_lsp_cli/ipc/unix_server.py:146-160 | However a stream of natural lengths and non-null bodies is cut, the loop delivers and fails as on the whole stream |
| `Streams.DeliveredAsSent` | src/llm_lsp_cli/ipc/unix_server.py:146-160 | Any list of non-null messages, printed and cut into any chunks, is delivered in order without error and leaves an empty buffer |
| `Streams.DeliveredExactly` | src/llm_lsp_cli/ipc/unix_server.py:147-160 | Messages arrive whatever the chunks if and only if none of them is null |
| `Streams.NullIsNotDelivered` | src/llm_lsp_cli/ipc/unix_server.py:147-152 | A null body ends the loop and leaves what follows it unread |
| `Streams.ReadResponse` | src/llm_lsp_cli/ipc/unix_client.py:114-134 | The client's loop returns the first message found in the growing data, reading on after parse errors |
| `Streams.ResponseAsSent` | src/llm_lsp_cli/ipc/unix_client.py:114-134 | Whatever the chunks, the client gets exactly the response that was printed |
| `StdioReader.ReadBodies` | src/llm_lsp_cli/lsp/transport.py:395-431 | The reader loop computes the bodies of a byte stream |
| `StdioReader.ReaderYieldsBodies` | src/llm_lsp_cli/lsp/transport.py:395-448 | On well-formed frames with one Content-Length among any header lines, the reader yields the bodies in order |
| `StdioReader.ParserYieldsMessages` | src/llm_lsp_cli/ipc/protocol.py:172-199 | On the same frames repeated message parsing yields the messages in order |
| `StdioReader.FramersAgree` | src/llm_lsp_cli/lsp/transport.py:395-448 | The bodies of the reader decode to exactly the messages of the parser |
| `FrameLaws.BadHeaderIsMalformed` | src/llm_lsp_cli/ipc/protocol.py:172-191 | A header of any lines that is no UTF-8, has no Content-Length or has an unreadable one is an error, whatever follows |
| `FrameLaws.LastLengthDecides` | src/llm_lsp_cli/ipc/protocol.py:178-205 | Otherwise the last of several lengths decides: too few bytes are waited for, a body that does not decode is an error, a decoded one is the message with the rest remaining, unless it is null |
| `FrameLaws.NegativeLengthIsMalformed` | src/llm_lsp_cli/ipc/protocol.py:193-203 | A negative length that does not reach back beyond the data is an error |
| `FrameLaws.MalformedFails` | src/llm_lsp_cli/ipc/unix_server.py:147-160 | However the stream is cut, a malformed frame ends the connection after exactly the messages before it |
| `FrameLaws.BadHeaderFails` | src/llm_lsp_cli/ipc/unix_server.py:147-160 | So does a header without a readable Content-Length |
| `FrameLaws.BadBodyFails` | src/llm_lsp_cli/ipc/unix_server.py:147-160 | And a complete body that does not decode |
| `FrameLaws.NothingBehindEnd` | src/llm_lsp_cli/ipc/unix_server.py:139-146 | Nothing behind the end of the stream is read by the server |
| `FrameLaws.FirstResponseExactly` | src/llm_lsp_cli/ipc/unix_client.py:114-134 | The client returns the message of the first chunk behind which the data parses as one, and nothing if there is none |
| `FrameLaws.NoResponseBehindEnd` | src/llm_lsp_cli/ipc/unix_client.py:114-134 | Nor does the client read behind the end |
| `FrameLaws.BadHeaderIsSkipped` | src/llm_lsp_cli/lsp/transport.py:406-414 | The reader of the stdio transport skips a header that is no UTF-8 or has no Content-Length and goes on behind it |
| `FrameLaws.FirstLengthDecides` | src/llm_lsp_cli/lsp/transport.py:406-431 | Otherwise the first of several lengths decides: an unreadable one skips the header, a negative one or a body cut short ends reading, any other body is yielded |
| `Transport.StdioTransport.RegisterRequest` | src/llm_lsp_cli/lsp/transport.py:592-597 | A request takes the next id and registers its caller |
| `Transport.StdioTransport.NextRequestId` | src/llm_lsp_cli/lsp/transport.py:642-643 | A fire-and-forget request takes an id and registers nobody |
| `Transport.StdioTransport.HandleResponse` | src/llm_lsp_cli/lsp/transport.py:499-511 | A response removes its pending entry and settles a caller that still waits; an unknown id changes nothing |
| `Transport.StdioTransport.CancelOnTimeout` | src/llm_lsp_cli/lsp/transport.py:608-609 | A timeout cancels a future that is not done |
| `Transport.StdioTransport.ForgetAfterTimeout` | src/llm_lsp_cli/lsp/transport.py:610-612 | Only a timed-out caller removes its own entry |
| `Transport.StdioTransport.ClearPending` | src/llm_lsp_cli/lsp/transport.py:717-721 | Stop settles every pending caller that waits and empties the table |
| `Transport.RunKeepsInv` | src/llm_lsp_cli/lsp/transport.py:592-654 | In every interleaving ids are distinct and increasing, pending ids never exceed the counter and lead to the caller that sent them, and every waiting caller is pending |
| `Transport.CounterCountsRequests` | src/llm_lsp_cli/lsp/transport.py:592-643 | The counter is the number of requests of both kinds |
| `Transport.SettledByFirst` | src/llm_lsp_cli/lsp/transport.py:499-511 | In every interleaving a caller is settled at most once, by the first of a response with its own id, its own timeout and stop; no other response affects it |
| `Transport.PendingExactly` | src/llm_lsp_cli/lsp/transport.py:499-612 | In every interleaving a caller has its own pending entry exactly until a response with its id, its cleanup after a timeout, or stop |
| `FileLocks.LockTable.GetFileLock` | src/llm_lsp_cli/daemon/handler.py:120-145 | A hit moves to the end, a miss on a full table drops the older half; the lock returned is the last entry and the bound and distinctness hold |
| `FileLocks.TableIsRecent` | src/llm_lsp_cli/daemon/handler.py:136-145 | After any lookups the table holds at most 1000 distinct paths, the most recently looked up ones, in the order of their last lookups |
| `FileLocks.PathsNeverShareLocks` | src/llm_lsp_cli/daemon/handler.py:136-145 | After any lookups no two paths of the table have the same lock |
| `FileLocks.LockIsRetained` | src/llm_lsp_cli/daemon/handler.py:136-145 | A path keeps its lock while at most 500 distinct other paths are looked up |
| `FileLocks.OneMoreDistinctPathLosesLock` | src/llm_lsp_cli/daemon/handler.py:138-140 | With 501 distinct other paths the lock can be gone, so the bound is tight |
| `DocumentSync.Daemon.HandleDocSync` | src/llm_lsp_cli/daemon/handler.py:268-270 | A synchronised request queues for the lock of its path |
| `DocumentSync.Daemon.EnterContext` | src/llm_lsp_cli/daemon/document_sync.py:41-64 | With the lock, a didOpen is written exactly when the cached state is not open |
| `DocumentSync.Daemon.OpenDrained` | src/llm_lsp_cli/daemon/handler.py:470-480 | The file is marked open after the drain; the change handler then sends the next version |
| `DocumentSync.Daemon.HandleDidChange` | src/llm_lsp_cli/daemon/handler.py:452-480 | A change handler opens a closed or stale file, otherwise changes it, without a lock |
| `DocumentSync.Daemon.SendDidChange` | src/llm_lsp_cli/lsp/client.py:1246-1278 | The incremented version is the one written |
| `DocumentSync.Daemon.OnDidOpen` | src/llm_lsp_cli/lsp/cache.py:261-280 | Marks open and increments the version of that file only |
| `DocumentSync.Daemon.Answer` | src/llm_lsp_cli/daemon/handler.py:270-288 | The end of a request releases its lock and may record the mtime |
| `DocumentSync.VersionsAlwaysIncrease` | src/llm_lsp_cli/lsp/client.py:1246-1278 | In every interleaving the didChange versions of each file strictly increase and exceed the version 1 of didOpen |
| `DocumentSync.FilesAlwaysOpenedFirst` | src/llm_lsp_cli/daemon/handler.py:457-480 | In every interleaving, whatever the paths, no didChange of a file is written before a didOpen of that file |
| `DocumentSync.ChangesAlwaysFollowOpens` | src/llm_lsp_cli/daemon/handler.py:457-480 | In every interleaving whose own paths are no aliases of each other, each didChange follows a didOpen of its path |
| `DocumentSync.OpenFirstExactly` | src/llm_lsp_cli/daemon/handler.py:457-480 | For any set of paths, all runs over them open each path before changing it if and only if no two of the paths share a cache key |
| `DocumentSync.AliasIsNeverOpened` | src/llm_lsp_cli/daemon/handler.py:465-480 | The run in which an alias is changed and never opened |
| `DocumentSync.EveryOpenIsAccounted` | src/llm_lsp_cli/daemon/handler.py:465-476 | In every interleaving each didOpen of a path was followed by marking the file open, or by a failure, or is still being drained |
| `DocumentSync.EveryChangeIsSent` | src/llm_lsp_cli/daemon/handler.py:457-480 | In every interleaving a path is changed exactly once for each change that found its file open and not stale and for each change handler whose didOpen was drained |
| `DocumentSync.OpenedChangeIsSent` | src/llm_lsp_cli/daemon/handler.py:470-480 | A change handler that opened its file then sends one didChange, two versions on |
| `DocumentSync.FileStateExactly` | src/llm_lsp_cli/lsp/cache.py:261-313 | After every interleaving a file is open if and only if a didOpen of it was drained, its version is the number of these plus the didChanges written, and its mtime is the last one recorded |
| `DocumentSync.LocksAlwaysExclude` | src/llm_lsp_cli/daemon/handler.py:268-270 | In every interleaving a file lock has at most one holder |
| `DocumentSync.CanAlwaysFinish` | src/llm_lsp_cli/daemon/handler.py:268-288 | No interleaving deadlocks: granting locks, draining and answering end every handler, with its file open |
| `DocumentSync.OpenCountExactly` | src/llm_lsp_cli/daemon/document_sync.py:51-64 | When only synchronised requests run and no lock in use is evicted, a path was opened as often as its opening failed, plus once if it was marked open by this path or is being opened |
| `DocumentSync.PathsOpenedOnceExactly` | src/llm_lsp_cli/daemon/document_sync.py:51-64 | Under these premises each path is opened at most once if and only if none was opened again after its opening had failed |
| `DocumentSync.AlwaysOpenedOnceExactly` | src/llm_lsp_cli/daemon/handler.py:268-270 | For any set of paths, all runs of synchronised requests over them without a failed opening or an eviction of a lock in use open each file at most once if and only if no two of the paths share a cache key |
| `DocumentSync.OpenedAtMostOnce` | src/llm_lsp_cli/daemon/document_sync.py:51-64 | When only synchronised requests run, no lock in use is evicted, no opening fails and the paths of the run are no aliases of each other, at most one didOpen is ever written for each file |
| `DocumentSync.FewPathsKeepLocksInUse` | src/llm_lsp_cli/daemon/handler.py:136-145 | With at most 1000 distinct paths no lock in use is ever evicted |
| `DocumentSync.ChangeOpensAgain` | src/llm_lsp_cli/daemon/handler.py:465-476 | A change during a request's didOpen writes a second one |
| `DocumentSync.StaleChangeOpensAgain` | src/llm_lsp_cli/daemon/handler.py:459-476 | Without any race, a change of an open file writes a second didOpen if and only if its mtime has grown over the positive one recorded, otherwise a didChange with version 2 |
| `DocumentSync.FailureOpensAgain` | src/llm_lsp_cli/daemon/document_sync.py:54-59 | A failure between writing didOpen and marking the file lets the next request open it again |
| `DocumentSync.AliasesOpenTwice` | src/llm_lsp_cli/daemon/handler.py:268-270 | A run of two requests for aliases, the second after the first has its lock, that opens the file twice |
| `DocumentSync.EvictionOpensAgain` | src/llm_lsp_cli/daemon/handler.py:136-141 | A run from the start in which every request gets its free lock at once: while a path is being opened, requests for 1000 other paths open these and evict its lock, and the next request opens it again |
| `DiagnosticCaches.DiagnosticCache.UpdateDocumentDiagnostics` | src/llm_lsp_cli/lsp/cache.py:116-140 | Writes the document list and URI, and the result id only if there is one |
| `DiagnosticCaches.DiagnosticCache.UpdateWorkspaceDiagnostics` | src/llm_lsp_cli/lsp/cache.py:142-163 | Writes the workspace list, its flag and the URI |
| `DiagnosticCaches.DiagnosticCache.OnDidOpen` | src/llm_lsp_cli/lsp/cache.py:261-280 | Marks open, increments the version, and records an mtime only if there is one |
| `DiagnosticCaches.DiagnosticCache.SetMtime` | src/llm_lsp_cli/lsp/cache.py:282-295 | Writes the mtime of one file |
| `DiagnosticCaches.DiagnosticCache.IncrementVersion` | src/llm_lsp_cli/lsp/cache.py:297-313 | Increments the version of one file |
| `DiagnosticCaches.DiagnosticCache.UpdateDocumentVersion` | src/llm_lsp_cli/lsp/cache.py:315-331 | Sets a version that is not lower |
| `DiagnosticCaches.DiagnosticCache.IsStale` | src/llm_lsp_cli/lsp/cache.py:333-357 | Stale is a cached file with an older mtime |
| `DiagnosticCaches.DiagnosticCache.GetAllWorkspaceDiagnostics` | src/llm_lsp_cli/lsp/cache.py:359-391 | The loop over the dictionary computes the listing WorkspaceListing is about |
| `DiagnosticCaches.DocumentIsLastWritten` | src/llm_lsp_cli/lsp/cache.py:116-140 | After any operations a file's document list is that of its last document write, whatever else was written |
| `DiagnosticCaches.ResultIdIsLastGiven` | src/llm_lsp_cli/lsp/cache.py:138-139 | The result id is the last one given |
| `DiagnosticCaches.WorkspaceIsLastWritten` | src/llm_lsp_cli/lsp/cache.py:142-163 | The workspace list is that of the last workspace write, and the flag says whether there was one |
| `DiagnosticCaches.UriIsLastWritten` | src/llm_lsp_cli/lsp/cache.py:137 | The URI is that of the last list written |
| `DiagnosticCaches.OpenStateIsLastRecorded` | src/llm_lsp_cli/lsp/cache.py:261-295 | A file is open if and only if it was opened, and its mtime is the last one recorded |
| `DiagnosticCaches.VersionsNeverDecrease` | src/llm_lsp_cli/lsp/cache.py:261-331 | No operation lowers a version |
| `DiagnosticCaches.VersionExactly` | src/llm_lsp_cli/lsp/cache.py:261-331 | The version is the largest of counting up from 0 and from each version set, over the openings and increments since |
| `DiagnosticCaches.OrderIsFirstMention` | src/llm_lsp_cli/lsp/cache.py:371-373 | The keys are the files mentioned, in the order of their first mention |
| `DiagnosticCaches.WorkspaceListing` | src/llm_lsp_cli/lsp/cache.py:359-391 | The listing has exactly the files with a workspace write, in the order of first mention by any operation, each with its last list, last URI and version |
| `DiagnosticRequests.DiagnosticClient.BeginRequest` | src/llm_lsp_cli/lsp/client.py:336-372 | A request is answered from the cache, or sent with the cached result id |
| `DiagnosticRequests.DiagnosticClient.NormalizeReport` | src/llm_lsp_cli/lsp/client.py:987-1042 | The list and result id of each kind of report; entries that are no dictionaries are dropped |
| `DiagnosticRequests.DiagnosticClient.EndRequest` | src/llm_lsp_cli/lsp/client.py:373-384 | A report is cached with the mtime and returned; a failure returns the cached list |
| `DiagnosticRequests.CachedAnswersAreRight` | src/llm_lsp_cli/lsp/client.py:336-384 | Over every run with mtimes that never go back, at most one request to the server under way for each file, honest reports and no other document writes, every request that does not fail is answered with what the server computes for the file at the request's mtime |
| `DiagnosticRequests.HitIsRight` | src/llm_lsp_cli/lsp/client.py:357-363 | A cache hit returns what the server would |
| `DiagnosticRequests.ServerIsKnownExactly` | src/llm_lsp_cli/lsp/client.py:336-384 | A run determines what an honest server computes for a file at an mtime if and only if it answered the file at that mtime |
| `DiagnosticRequests.HitIsRightExactly` | src/llm_lsp_cli/lsp/client.py:357-363 | A cache hit at any mtime is right for every server the run is honest to if and only if the run already answered the file with this list at that mtime |
| `DiagnosticRequests.CacheHoldsLastAnswer` | src/llm_lsp_cli/lsp/client.py:376-384 | Whatever the server reports, the cache holds the last answer for each file |
| `DiagnosticRequests.FailureRepeatsLastAnswer` | src/llm_lsp_cli/lsp/client.py:382-384 | A failed request repeats the last answer and leaves the cache |
| `DiagnosticRequests.CacheHoldsLastReport` | src/llm_lsp_cli/lsp/client.py:373-381 | Whatever the reports, the cache holds the last result id given for each file, by full or unchanged reports, and the last known mtime it was reported at |
| `DiagnosticRequests.AskedExactly` | src/llm_lsp_cli/lsp/client.py:349-372 | A request is answered from the cache, with the last answer, if and only if its mtime is known and not newer than the one last reported at and a result id was given; any other is sent with the last result id given |
| `DiagnosticRequests.RepliedExactly` | src/llm_lsp_cli/lsp/client.py:365-384 | Each report is answered with its own list, or with the last answer of the file an unchanged report names; a failure with the last answer of the file |
| `DiagnosticRequests.TypedArePicked` | src/llm_lsp_cli/lsp/client.py:1021-1038 | The list of a report is its entries that are dictionaries, in their order |
| `DiagnosticRequests.UnchangedWithoutUri` | src/llm_lsp_cli/lsp/client.py:1014-1021 | Over the same runs, a report that is honest but for the missing URI is answered with the list cached for the empty URI, which is empty unless that URI was asked for; this is right if and only if the file has the same list cached, and every request up to that mtime then gets it from the cache |
| `DiagnosticRequests.OlderMtimeServesNewerList` | src/llm_lsp_cli/lsp/cache.py:356-357 | The run in which an mtime goes back and the newer list is served |
| `DiagnosticRequests.LateUnchangedServesNewerList` | src/llm_lsp_cli/lsp/client.py:365-378 | Whenever a request is under way, one more for the same file can be sent and answered first; all reports are honest and the late unchanged one is answered with the newer list |
| `DiagnosticRequests.PublishedListIsServed` | src/llm_lsp_cli/lsp/client.py:1364-1384 | A published list is served on the next hit; it is right for every server the run is honest to if and only if the file was already answered with it at that mtime |
| `PatternEngine.MatchesExactly` | src/llm_lsp_cli/file_filter/pattern_engine.py:79-96 | Segments match if and only if the path can be cut into one block for each part, any run for `**`, one matching segment for any other |
| `PatternEngine.GlobstarIsSuffixSearch` | src/llm_lsp_cli/file_filter/pattern_engine.py:67-68 | A leading `**` is a search over the suffixes that are not empty |
| `PatternEngine.GlobstarMatchesExactly` | src/llm_lsp_cli/file_filter/pattern_engine.py:58-68 | A pattern starting with `**` matches as `**` in front of the parts of the rest |
| `PatternEngine.GlobstarSlashMatchesExactly` | src/llm_lsp_cli/file_filter/pattern_engine.py:58-68 | For `**/rest` this is the meaning of the whole pattern |
| `PatternEngine.BareGlobstarMatchesExactly` | src/llm_lsp_cli/file_filter/pattern_engine.py:63-65 | A bare `**` matches if and only if the last segment matches the empty pattern |
| `PatternEngine.IsTestExactly` | src/llm_lsp_cli/file_filter/pattern_engine.py:40-114 | Fitting a path means a cut of its segments into blocks, for a pattern with a leading `**` with that globstar in front of its rest |
| `PatternEngine.Match` | src/llm_lsp_cli/file_filter/pattern_engine.py:186-258 | A test if and only if no include pattern fits the path (without a leading `file://`, lowered) and a directory pattern does, or a suffix or prefix pattern matches the name of the file; the pattern reported is the first of its kind that applies, and no pattern of an earlier kind does |
| `TestFilter.LanguageFilterRegistry.Configure` | src/llm_lsp_cli/file_filter/language_registry.py:39-48 | Replaces the configuration and drops all filters |
| `TestFilter.LanguageFilterRegistry.GetFilter` | src/llm_lsp_cli/file_filter/language_registry.py:50-100 | Returns the stored filter or creates and stores the configured one |
| `TestFilter.LanguageFilterRegistry.Forget` | src/llm_lsp_cli/file_filter/language_registry.py:102-109 | Drops the filter of one language |
| `TestFilter.TestPaths.PatternsFor` | src/llm_lsp_cli/file_filter/__init__.py:38-57 | The defaults without a language or for an empty filter, else the language's filter |
| `TestFilter.TestPaths.IsTestPathUncached` | src/llm_lsp_cli/file_filter/__init__.py:60-77 | The answer of the filter table, and which filter it creates |
| `TestFilter.TestPaths.IsTestPath` | src/llm_lsp_cli/file_filter/__init__.py:80-97 | A hit is moved to the end, a miss computed and stored, the oldest entry dropped at 4096 |
| `TestFilter.TestPaths.ReloadConfig` | src/llm_lsp_cli/file_filter/__init__.py:186-209 | Empties the answers, and configures what was loaded or, without patterns, the defaults |
| `TestFilter.AnswersAsComputed` | src/llm_lsp_cli/file_filter/__init__.py:60-97 | In every run, however the configuration changes, the cache is bounded, holds each query once and answers it as uncached matching does under the configuration in force when it was computed |
| `TestFilter.CachedUnderCurrent` | src/llm_lsp_cli/file_filter/__init__.py:186-209 | If the configuration changes only by reloading, everything cached was computed under the one in force |
| `TestFilter.AnswersAreUncached` | src/llm_lsp_cli/file_filter/__init__.py:60-97 | In every run whose configuration changes only by reloading, each answer is the uncached one under the configuration in force |
| `TestFilter.DecidedInOrder` | src/llm_lsp_cli/file_filter/language_registry.py:69-100 | An enabled configuration of the language decides alone, else enabled defaults, else the fallback; patterns that are only include patterns, or none, leave it to the built-in ones |
| `TestFilter.ReloadedExactly` | src/llm_lsp_cli/file_filter/__init__.py:186-209 | A reload empties answers and filters and puts in force what was loaded if it has a language or a default pattern, otherwise the built-in configuration |
| `TestFilter.CacheIsRecent` | src/llm_lsp_cli/file_filter/__init__.py:80-81 | The answers kept are those of the most recent queries since the last reload, in order, and none is dropped while there is room |
| `TestFilter.ConfigureKeepsOldAnswers` | src/llm_lsp_cli/file_filter/language_registry.py:39-48 | After configuring without a reload a cached query still gets the answer of the configuration it was computed under |
| `TreeRenderer.RenderTree` | src/llm_lsp_cli/output/text_renderer.py:90-128 | The loop with its connectors and prefixes computes the rendering that can be read back |
| `TreeRenderer.ParseRender` | src/llm_lsp_cli/output/text_renderer.py:90-128 | Reading the columns of the connectors gives back the forest, at any prefix |
| `TreeRenderer.DrawnAs` | src/llm_lsp_cli/output/text_renderer.py:108-126 | Lines come in preorder; the last sibling has a corner and a blank column below it, any other a tee and a bar |
| `TreeRenderer.RenderIsInjective` | src/llm_lsp_cli/output/text_renderer.py:90-128 | Forests with equal renderings are equal |
| `TreeRenderer.RenderTextLines` | src/llm_lsp_cli/output/text_renderer.py:131-162 | The text is the header, if any, and the rendering, joined by newlines; a message for no symbols |
| `TreeRenderer.ParseRenderText` | src/llm_lsp_cli/output/text_renderer.py:131-162 | Reading the lines of a text gives its forest back if and only if no symbol's line contains a newline |
| `TreeRenderer.RenderTextIsInjective` | src/llm_lsp_cli/output/text_renderer.py:131-162 | Under any header, different forests without a newline have different texts |
| `TreeRenderer.NewlineMergesNodes` | src/llm_lsp_cli/output/text_renderer.py:131-162 | A leaf and its next sibling, with another sibling behind them, have the text of a single node whose line contains a newline |
| `TreeRenderer.NoReaderForAllTexts` | src/llm_lsp_cli/output/text_renderer.py:131-162 | No function of the text gives every forest back |
| `SymbolDepth.TransformSymbol` | src/llm_lsp_cli/output/symbol_transformer.py:102-173 | Over paths of child indices: a node stands exactly where the input has a symbol within the limit, with its name, kind and true depth; values that are not symbols do not count |
| `SymbolDepth.TransformSymbols` | src/llm_lsp_cli/output/symbol_transformer.py:176-202 | The same for a list of symbols, from depth 0 |
| `SymbolDepth.TransformSymbolDict` | src/llm_lsp_cli/output/formatter.py:618-691 | The same for records, each with the name of the symbol above it as parent |
| `SymbolDepth.NodesAreSymbols` | src/llm_lsp_cli/output/symbol_transformer.py:149-173 | Nodes that are the truncated hierarchy are the symbols within the limit, each in its place |
| `SymbolDepth.RecordsAreSymbols` | src/llm_lsp_cli/output/formatter.py:665-691 | Records likewise, with the names of their parents |
| `SymbolDepth.SubsArePicked` | src/llm_lsp_cli/output/symbol_transformer.py:154-160 | The children counted are exactly those that are symbols, in order |
| `SymbolDepth.TruncationKeepsExactly` | src/llm_lsp_cli/output/symbol_transformer.py:149-161 | A limit keeps exactly the nodes no deeper than it, in place, with names and kinds; a negative limit keeps all |
| `SymbolDepth.TruncationsCompose` | src/llm_lsp_cli/output/symbol_transformer.py:149-161 | Two truncations are one at the smaller limit |
| `DeepMerge.MergeDicts` | src/llm_lsp_cli/config/merge.py:10-35 | The loop with its recursion computes the merge the theorems are about |
| `DeepMerge.MergeAt` | src/llm_lsp_cli/config/merge.py:24-35 | At every path the override decides where it has anything or a leaf on the way, elsewhere the base unless an object replaced a leaf on the way |
| `DeepMerge.LeafPrecedence` | src/llm_lsp_cli/config/merge.py:24-35 | A leaf of the result is the override's, or the base's where the override has nothing there and no leaf on the way |
| `DeepMerge.SameEverywhere` | src/llm_lsp_cli/config/merge.py:24-35 | Values that agree at every path are equal, so precedence determines the merge |
| `DeepMerge.MergeSelf` | src/llm_lsp_cli/config/merge.py:24-35 | Merging a layer into itself changes nothing |
| `DeepMerge.LayeringIsAssociativeExactly` | src/llm_lsp_cli/config/merge.py:24-35 | Layering is associative if and only if wherever a middle leaf hides an object and the top has an object again, that object has every key of the hidden one, all the way down |

## Left out

- Text and JSON: bodies, manifests and requests go through a codec with decode(encode(m)) = m; UTF-8 decoding of headers is a predicate; columns count characters, not UTF-16 units; newline translation is not modelled.
- File system: files are a map from absolute paths to contents, and a directory is a proper prefix of the path of a file. Empty directories, permissions, symbolic links, mtimes on disk, failures of reading and of removing a tree, and edits of paths that are directories are not modelled. A failing write leaves anything in its own file only.
- URIs: documents are named by path; conversion between URIs and paths is a function parameter or left out.
- Positions: lines and characters are natural numbers, as LSP's uinteger.
- OldText.ExtractTextAtRange: assumes LSP's uinteger; the integers of the code's `Position` type are not checked, and a negative one would count from the end of a line or file.
- RenameServices.EditLines: the same premise.
- BackupManagers.BackupManager.CreateSession: the session id is a parameter. The code derives it from the request and the minute, so it repeats for the same request within one minute (`RenameSessions.RepeatedIdLosesSession`); `RenameSessions.RollbackUndoesRun` requires ids to be distinct.
- BackupManagers.BackupManager.BackupFiles: says which backups exist only for files outside the session directory; where a slot is a directory it says that a backup is lost, not what landed in the directory.
- BackupManagers.BackupManager.CopyBack: which contents the originals get is promised when originals and backups are not in each other's way (`BackupManagers.CanRestore`), because otherwise it depends on the order of iteration.
- BackupManagers.BackupManager.Restore: the same premise.
- BackupManagers.BackupManager.RestoreById: the same premise, which holds for every applied session (`BackupManagers.AppliedSessionCanBeRestored`); the parent directories of missing originals are taken to exist.
- BackupManagers.BackupManager.WriteManifest: the timestamp field is not modelled.
- RenameServices.RenameService.ApplyFromEdit: promises restored files for at most one failing write, because a second one can hit the restoration itself, and for a failing record write only where nothing collides or is obstructed, because the write may leave anything in a document that is also a slot. It says nothing of workspace edits that name files in the session directory.
- RenameServices.RenameService.ApplyEdits: the order in which files are written is arbitrary, as is iteration over a set or dictionary elsewhere.
- RenameService `apply`, `preview` and `preview_from_edit`: the same extraction and editing on other inputs; only `apply_from_edit` is modelled.
- OldText.OldTextsUndo: the undo is a function of the model; the repository records old texts and does not undo with them.
- Framing.Parse: digits outside ASCII, which the host language's `int` also reads, are not modelled.
- FrameLaws: headers with empty lines or with carriage returns or line feeds inside a line are not covered. With several Content-Length lines the two framers differ by design: the reader takes the first, the parser the last.
- StdioReader.ReadBodies: the length limit of `readline` is not modelled.
- Transport.StdioTransport.RegisterRequest: a write that fails after registration leaves a future nobody waits for; that case is not modelled.
- Transport: error replies are replies; server requests, notifications, logging and masking are left out.
- DocumentSync.Daemon.EnterContext: waiting for a lock is any interleaving of acquisitions of a free lock; the fairness of the queue is not modelled.
- DocumentSync.OpenCountExactly: for runs with change handlers or evicted locks only the account of `DocumentSync.EveryOpenIsAccounted` is given, and the runs that open twice.
- DiagnosticRequests.CachedAnswersAreRight: one request to the server at a time for each file is a premise. The file lock gives it for requests by one path, not for aliases; without it a late unchanged report can be answered with a newer list (`DiagnosticRequests.LateUnchangedServesNewerList`). "Honest" lets a full report lack a result id only while the file has none. What the server computes depends on the file and its mtime, so effects of other files on a file's diagnostics are excluded by that premise. Mtimes are not negative.
- DiagnosticRequests: validation of listed diagnostics is left out.
- PatternEngine: lower-casing, fnmatch on one segment and the name of a path are parameters; compiling patterns from configuration lists is left out.
- TestFilter.AnswersAreUncached: threads are not modelled; a query computed during a reload on another thread is outside the model.
- TestFilter: the source recorded in a compiled pattern does not influence matching and is carried but not set by configuration level.
- SymbolDepth: ranges, tags, details, files and raw data are left out; the variant for typed document symbols is the same recursion without values to skip.
- TreeRenderer: how a symbol becomes one line of text is left out.
- Other output formats, command line, daemon start and stop, sockets, authentication, server lookup, root detection, progress handling and the legacy request methods of the client: they would add only easy members or depend on the environment.
