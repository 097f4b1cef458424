# LibreConnect: a verified model of its protocols and schedulers

LibreConnect joins a phone and a desktop: it lists and moves files over pooled TLS channels, runs
its features as modules with a life cycle, shows text messages, streams files into a drop target
and types text remotely.  This project models the parts of it in which state and arithmetic are
hardest to get right, in Dafny, and proves what they promise.

Each file is one component.  Where the source changes an object step by step, the file has a
`class` with the source's fields and loops, and every method is proved to compute what a function
on plain values says (`View()` gives the value of an object).  The properties are lemmas about those functions and about runs of them; the handlers
of the file manager also say themselves what they keep.  Where a promise does not hold of the code,
the code is kept as it is, a lemma gives an input for which it fails, and another says exactly when
it holds.

- **Wire format and transfers** — `Packable`, `FileEntry`, `DirectoryListing`, `FramingCost`,
  `FileTransfer`, `SafePath`, `TransferChannel`, `ChannelReuse`.  Listings travel as greedily packed
  frames in a 256 KiB buffer, directories as records of a header and a body, single files as one
  record.  The socket is the bytes still to be read and the bytes written; the buffers are arrays.
- **Life cycle** — `Lifecycle`.  Enable, Disable and Shutdown are coroutines; the code between two
  suspensions or hooks is one atomic step, and any number of them may be suspended at once.
- **Channel pool** — `ChannelPool`.  Borrowers race for channels by checking, reserving and
  checking again, while the pool may be reset.
- **File manager** — `RemotePath`, `Scheduler`, `Accounting`, `SchedulerRuns`, `VanishedDownload`,
  `Subsequences`, `Selection`, `DownloadOrder`, `Turns`, `QueueOrder`, `Tallies`, `Stranding`,
  `FileManager`, `IconQueue`, `IconAnswers`.  One transfer at a time, four queues, two batches, and
  functions that start the next piece of work by calling each other.
- **Messages** — `Characters`, `MessageParsing`, `Contacts`, `ContactDetails`, `MmsQueue`, `MmsShown`,
  `MmsFetching`.
- **Export and typing** — `RemoteFileBuffer`, `ExportProgress`, `ExportReading`, `ExportStream`, `Typing`.

## What does not hold without a condition

- A listing entry that no frame can hold makes the sender throw with its sending flag still set
  (`TransferChannels.TransferChannel.SendDirectoryEntries`).
- A directory transfer fails exactly when one of its headers is longer than 1024 bytes or one of its
  accepted files cannot be opened, and then for the first such record; what follows is lost
  (`FileTransfer.DirectoryReceived`).
- A header path such as `a/..` is accepted as the destination directory itself, and one such as `a/` as
  a path that ends with a separator: neither can be opened as a file, and it ends the transfer
  (`SafePath.AcceptedAsDestinationItself`, `FileTransfer.DestinationItselfFails`,
  `FileTransfer.UnopenableFile`).
- A throwing `OnInitialize` leaves a module initialising until it is shut down
  (`Lifecycle.RunIsAttendedExactly`, `Lifecycle.QuiescentIsStableExactly`).
- A completion that is no longer the module's own stores a state, when a later activity of its kind
  holds the module or, for an Enable that initialises it, when a shutdown has come in between; this
  never happens along a run exactly when no OnEnable and no OnDisable begins before an earlier one has
  ended and no shutdown comes while an Enable is in OnInitialize
  (`Lifecycle.StaleCompletionsWriteNothingExactly`, `Lifecycle.StaleEnableRun`).
- An OnInitialize that returns after a shutdown takes the state off the intended edges exactly when the
  module is uninitialised, disabled or enabled by then, and leaves one more OnEnable without its
  OnDisable exactly when the module is on or coming on (`Lifecycle.StateMovesOnEdgesExactly`,
  `Lifecycle.EnablesAndDisablesBalance`, `Lifecycle.OvertakenByShutdown`,
  `Lifecycle.OvertakenByInitialize`).
- A reservation guard that outlives a reset frees a newer reservation
  (`ChannelPool.RunIsExactly`, `ChannelPool.OutlivingGuardBreaksExclusion`).
- A transfer result that arrives while files are being deleted is taken for a queued download, and
  the progress shown rises above one (`SchedulerRuns.RunAccountsExactly`,
  `SchedulerRuns.MixUpOvershoots`).
- A pending download whose entry has vanished before it is started is dropped without being counted
  (`VanishedDownload.StartPendingActionAccountsExactly`).
- A vanished file at the head of the open or copy queue leaves uploads stranded
  (`Stranding.StrandsUploadsExactly`).
- Normalising a remote path twice can change it once more: exactly when white space stands before
  its final separators (`RemotePath.IdempotentExactly`).
- A failed reply for an attachment that has reached the disk leaves it loading
  (`MmsQueue.RunLiveExactly`).
- A received message is filed under the sender's own key, which an equivalent contact may not have
  (`Contacts.ReceivedIsFiledExactly`).
- Letters beyond ASCII whose lower case is ASCII, and digits beyond ASCII whose code modulo 256 falls on
  a key, type other characters or strike a modifier that is held
  (`Typing.TypingRoundTripExactly`, `Typing.TextCleanExactly`).

## Model

| member | source | states |
|---|---|---|
| Packable.BigEndianRoundTrip | utilities/system/inc/Packable.h:113-129 | numbers of any width are read back from their big-endian bytes |
| Packable.U64RoundTrip | utilities/system/inc/Packable.h:113-129 | a 64-bit number is read back from wherever it lies in a buffer, and the offset moves behind it |
| Packable.I64RoundTrip | utilities/system/inc/Packable.h:113-129 | the same for signed numbers, in two's complement |
| Packable.StringRoundTrip | utilities/system/inc/Packable.h:136-159 | a length-prefixed string of any bytes is read back, whatever follows it |
| Packable.OptionalRoundTrip | utilities/system/inc/Packable.h:213-233 | for every codec that round-trips, its optional form with a presence byte does too |
| Packable.Store | utilities/system/inc/Packable.h:19-23 | a write that does not fit changes nothing; one that fits changes exactly its own bytes |
| FileEntries.SizeIsLengthOfEncoding | utilities/file-system/src/FileEntry.cpp:72-79 | GetSerializedSize is the length of what Serialize writes, for every presence of the six optional fields |
| FileEntries.EntryRoundTrip | utilities/file-system/src/FileEntry.cpp:54-70 | Deserialize inverts Serialize at any offset of any buffer and ignores what follows |
| FileEntries.Serialize | utilities/file-system/src/FileEntry.cpp:54-61 | writing field by field succeeds exactly when the whole entry fits, and then leaves exactly its encoding in the buffer |
| DirectoryListing.FramesSplit | modules/common/src/TransferChannel.cpp:415-453 | the greedy frames are the entries in order, each within the buffer, none but the first empty |
| DirectoryListing.ReceiveOneFrame | modules/common/src/TransferChannel.cpp:500-545 | one turn of the receive loop consumes exactly one frame, whatever the buffer held, and goes on with the remaining count less the entries of the frame, which never underflows |
| DirectoryListing.FramesRoundTrip | modules/common/src/TransferChannel.cpp:500-545 | the receive loop, fed the bytes of any frames and any suffix, returns their entries and leaves exactly the suffix |
| DirectoryListing.ListingRoundTrip | modules/common/src/TransferChannel.cpp:386-554 | for every listing whose entries fit a frame, the empty one included, receiving what was sent followed by anything returns the listing and leaves exactly what followed |
| FramingCost.FullerFrame | modules/common/src/TransferChannel.cpp:415-453 | a fuller current frame needs no fewer frames for the rest, and at most one more |
| FramingCost.FramingIsOptimal | modules/common/src/TransferChannel.cpp:415-453 | no order-preserving split of a non-empty listing into frames that fit uses fewer frames than the sender |
| FramingCost.FramesAreHalfFull | modules/common/src/TransferChannel.cpp:415-453 | k frames with payload S in frames of capacity C satisfy (k - 1) * C <= 2 * S |
| SafePath.ComponentsOfJoin | modules/common/src/TransferChannel.cpp:19-34 | plain names joined by separators are read back as those names |
| SafePath.LexicallyNormal | modules/common/src/TransferChannel.cpp:25-28 | the stack algorithm computes the lexical normal form |
| SafePath.NormalClimbs | modules/common/src/TransferChannel.cpp:25-34 | a normal form keeps ".." exactly when walking the path leaves the destination at some point |
| SafePath.NormalDepth | modules/common/src/TransferChannel.cpp:25-34 | when the walk never climbs out, the normal form has as many names as the walk is deep at its end |
| SafePath.IsSubpath | modules/common/src/TransferChannel.cpp:14-17 | the mismatch loop decides whether the base is a prefix of the candidate |
| SafePath.BuildSafeReceivePath | modules/common/src/TransferChannel.cpp:19-47 | whatever it returns has the destination's components as a prefix, for every canonicalisation |
| SafePath.AcceptedIsWithin | modules/common/src/TransferChannel.cpp:19-47 | whatever the file system answers, an accepted path lies in the destination and its walk never leaves it |
| SafePath.AcceptedExactly | modules/common/src/TransferChannel.cpp:19-47 | without symbolic links a header path is accepted if and only if it is relative, not empty and never leaves the destination, and it names what its walk reaches |
| SafePath.PlainPath | modules/common/src/TransferChannel.cpp:19-47 | every relative path of plain names is accepted and names the destination followed by those names |
| SafePath.PlainPathNamesFile | modules/common/src/TransferChannel.cpp:19-47 | plain names joined by separators never name a directory in that sense |
| SafePath.AcceptedAsDestinationItself | modules/common/src/TransferChannel.cpp:19-47 | a header path is accepted as the destination directory itself if and only if it is relative, not empty, never climbs out and its walk ends at depth 0 |
| SafePath.DestinationItselfIsDirectory | modules/common/src/TransferChannel.cpp:19-47 | such a header path is "." in normal form or ends with a separator there, so that it names a directory |
| SafePath.DestinationItselfExample | modules/common/src/TransferChannel.cpp:19-47 | one such path is "a/.." |
| FileTransfer.HeaderRoundTrip | modules/common/src/TransferChannel.cpp:686-700 | a file header is read back from wherever it lies |
| FileTransfer.ReceiveOneRecord | modules/common/src/TransferChannel.cpp:210-248 | one turn of the loop on a record whose header fits and whose file, if accepted, can be opened consumes exactly that record, writing it or reading past it |
| FileTransfer.UnopenableFile | modules/common/src/TransferChannel.cpp:226-248 | an accepted file that cannot be opened ends the transfer, whatever follows; one whose path names a directory, such as "a/", never can |
| FileTransfer.NothingFailsExactly | modules/common/src/TransferChannel.cpp:210-248 | there is no first failing record exactly when every header fits and every accepted file can be opened when its turn comes |
| FileTransfer.RecordsReceived | modules/common/src/TransferChannel.cpp:210-248 | for any records the loop stores the accepted ones, drains the others and stops at the last byte, or fails for the first record whose header is too long or whose file cannot be opened |
| FileTransfer.DirectoryReceived | modules/common/src/TransferChannel.cpp:184-321 | for arbitrary header paths, those with a separator at their end included, and any destination: the transfer completes if and only if every header fits 1024 bytes and every accepted file names no directory and can be opened when its turn comes; then accepted files are stored, rejected ones drained, progress is the bytes of the accepted ones and the suffix stays unread; otherwise the failure is that of the first bad record |
| FileTransfer.DestinationItselfFails | modules/common/src/TransferChannel.cpp:184-248 | a record with header path "a/.." ends the transfer in every environment without links, whatever records follow it |
| FileTransfer.TreeStored | modules/common/src/TransferChannel.cpp:184-256 | storing a tree's records below the destination gives exactly the tree's files there |
| FileTransfer.DirectoryRoundTrip | modules/common/src/TransferChannel.cpp:184-321 | receiving what CoSendDirectory wrote recreates the same file map, counts exactly its bytes and leaves the suffix unread |
| FileTransfer.FileRoundTrip | modules/common/src/TransferChannel.cpp:323-384 | a single file arrives byte for byte with the stream still usable exactly when its destination can be opened, and the streaming receiver accepts it exactly when its size is the expected one |
| FileTransfer.NamedHeaderRefused | modules/common/src/TransferChannel.cpp:323-350 | a header that names a path is never read as that of a single file |
| TransferChannels.FramesSnoc | modules/common/src/TransferChannel.cpp:415-453 | adding an entry at the end extends the last frame or opens a new one: the loop's incremental framing is the recursive one |
| TransferChannels.TransferChannel.constructor | modules/common/src/TransferChannel.cpp:59-59 | two distinct buffers of the transfer size and nothing in use |
| TransferChannels.TransferChannel.SendFrame | modules/common/src/TransferChannel.cpp:417-456 | completes the buffered frame with its two counts in place and writes exactly its encoding |
| TransferChannels.TransferChannel.SendDirectoryEntries | modules/common/src/TransferChannel.cpp:386-466 | writes exactly the encoding of the listing if every entry fits; otherwise throws after the frames before the first that does not, with the flag still set |
| TransferChannels.TransferChannel.ReceiveFrame | modules/common/src/TransferChannel.cpp:500-545 | one frame through the reused buffer, refined to the receive function |
| TransferChannels.TransferChannel.ReceiveDirectoryEntries | modules/common/src/TransferChannel.cpp:468-554 | ends as the receive function says on every input whose announced count can be reserved, malformed and truncated ones included, and clears its flag |
| TransferChannels.TransferChannel.Send | modules/common/src/TransferChannel.cpp:619-661 | the chunked loop writes exactly the file's bytes |
| TransferChannels.TransferChannel.Receive | modules/common/src/TransferChannel.cpp:556-599 | the chunked loop stores exactly the announced number of bytes |
| TransferChannels.TransferChannel.DrainSocketBytes | modules/common/src/TransferChannel.cpp:49-56 | reads past exactly the requested number of bytes in buffer-sized pieces |
| TransferChannels.TransferChannel.SendDirectory | modules/common/src/TransferChannel.cpp:258-321 | writes exactly the encoding of the directory and clears its flag |
| TransferChannels.TransferChannel.ReceiveDirectory | modules/common/src/TransferChannel.cpp:184-256 | ends as the receive function says on every input, with progress equal to the accepted bytes |
| TransferChannels.TransferChannel.SendFile | modules/common/src/TransferChannel.cpp:352-384 | writes exactly the encoding of a single file |
| TransferChannels.TransferChannel.ReceiveFile | modules/common/src/TransferChannel.cpp:323-350 | ends as the receive function says on every input, the destination that cannot be opened included |
| TransferChannels.TransferChannel.ReceiveFileData | modules/common/src/TransferChannel.cpp:702-735 | hands the sink exactly the file's bytes, or fails as the receive function says; the flag is cleared either way |
| ChannelReuse.ChannelCanBeReused | modules/common/src/TransferChannel.cpp:184-554 | any sequence of listings, directories and files sent on one channel arrives in that order and unchanged, whatever earlier transfers left in the buffer, and the rest of the stream stays unread |
| Lifecycle.BaseModule.InitializeBegin | modules/common/inc/BaseModule.h:180-193 | Initialize up to its hook, with the generation it remembers |
| Lifecycle.BaseModule.InitializeEnd | modules/common/inc/BaseModule.h:193-198 | Initialize from its hook on: a lifecycle that has changed is left alone |
| Lifecycle.BaseModule.EnableBegin | modules/common/inc/BaseModule.h:229-258 | EnableAwaitable up to its first hook: OnInitialize of an uninitialised module, or OnEnable of a disabled one |
| Lifecycle.BaseModule.EnableInitializeEnd | modules/common/inc/BaseModule.h:237-258 | EnableAwaitable from the end of its OnInitialize, returning or throwing, without looking at the generation |
| Lifecycle.BaseModule.EnableEnd | modules/common/inc/BaseModule.h:259-279 | EnableAwaitable from the end of OnEnable, returning or throwing |
| Lifecycle.BaseModule.DisableBegin | modules/common/inc/BaseModule.h:281-300 | DisableAwaitable up to its suspension |
| Lifecycle.BaseModule.DisableEnd | modules/common/inc/BaseModule.h:301-320 | DisableAwaitable from the end of OnDisable, returning or throwing |
| Lifecycle.BaseModule.Shutdown | modules/common/inc/BaseModule.h:210-227 | Shutdown up to the spawned coroutine, with the state it is told |
| Lifecycle.StepOnEdgesExactly | modules/common/inc/BaseModule.h:180-350 | a step takes the state off the intended edges exactly when an OnInitialize returns to a module that is uninitialised, disabled or enabled, and nothing brings a trace back to them |
| Lifecycle.StateMovesOnEdgesExactly | modules/common/inc/BaseModule.h:180-350 | over every interleaving of any number of calls the state has moved along the intended edges only, if and only if no such return occurred |
| Lifecycle.EnablesAndDisablesBalance | modules/common/inc/BaseModule.h:210-350 | over every interleaving: enables started = disables started + OnDisable calls owed by shutdowns + enables rolled back + 1 if the module is on or coming on + the number of times an OnInitialize returned while it was; and disables started never exceed enables started |
| Lifecycle.RunIsKeptExactly | modules/common/inc/BaseModule.h:180-350 | along a run edges and balance are both kept throughout if and only if no OnInitialize returns to a module that is neither initialising nor being disabled |
| Lifecycle.OvertakenByShutdown | modules/common/inc/BaseModule.h:210-258 | a shutdown during the OnInitialize of an Enable: the uninitialised module is declared disabled and enabled |
| Lifecycle.OvertakenByInitialize | modules/common/inc/BaseModule.h:180-279 | an Initialize after that declares the module disabled while OnEnable runs, which is then never undone |
| Lifecycle.AttendedExactly | modules/common/inc/BaseModule.h:180-350 | a transitional state has a live activity that will leave it, and a step loses it exactly by a throw of the last OnInitialize that could end the initialisation |
| Lifecycle.RunIsAttendedExactly | modules/common/inc/BaseModule.h:180-350 | over every interleaving every transitional state has such an activity throughout a run if and only if no initialisation is lost |
| Lifecycle.AttendedAfterExactly | modules/common/inc/BaseModule.h:180-350 | after any run a transitional state has such an activity if and only if every lost initialisation was followed by a shutdown |
| Lifecycle.QuiescentIsStableExactly | modules/common/inc/BaseModule.h:180-350 | after any run from the start with nothing left in flight the module is uninitialised, disabled or enabled if and only if every lost initialisation was followed by a shutdown |
| Lifecycle.LostInitialization | modules/common/inc/BaseModule.h:229-258 | after an OnInitialize that threw every call but Shutdown is skipped |
| Lifecycle.StaleInitializeWritesNothing | modules/common/inc/BaseModule.h:180-198 | whatever happens while an Initialize is in its hook, its return stores a state if and only if no shutdown has taken effect since it began |
| Lifecycle.StaleCompletionWrites | modules/common/inc/BaseModule.h:258-320 | after any run, the completion of an Enable or Disable that no longer holds the module stores a state if and only if an activity of its kind that began later is in flight and holds the module |
| Lifecycle.OwnerCompletesExactly | modules/common/inc/BaseModule.h:258-320 | no completion of an Initialize, of an OnInitialize called by an Enable, of an Enable or of a Disable stores a state unless it is that of the activity begun last, if and only if that activity is alone of its kind |
| Lifecycle.StaleCompletionsWriteNothingExactly | modules/common/inc/BaseModule.h:180-320 | over every interleaving, stale completions of all four kinds write nothing throughout a run if and only if no OnEnable begins while another is in flight, no OnDisable while another is, and no shutdown comes while an Enable is in OnInitialize |
| Lifecycle.WithoutOverlapAllIsKept | modules/common/inc/BaseModule.h:180-350 | in such a run the states stay on the edges and every OnEnable is accounted for |
| Lifecycle.StaleEnableRun | modules/common/inc/BaseModule.h:229-320 | enable, disable, enable: the first completion declares the module enabled while the second OnEnable still runs |
| ChannelPool.TransferChannelPool.TryReserve | modules/common/src/TransferChannelPool.cpp:414-429 | reserves exactly a free index and otherwise changes nothing |
| ChannelPool.TransferChannelPool.DropGuard | modules/common/src/TransferChannelPool.cpp:421-427 | the deleter erases by index alone |
| ChannelPool.TransferChannelPool.ClearReservations | modules/common/src/TransferChannelPool.cpp:257-263 | forgets every reservation |
| ChannelPool.TransferChannelPool.BorrowPass | modules/common/src/TransferChannelPool.cpp:317-345 | one pass over the channels reserves the first that is free and usable before and after reserving, and leaks nothing for the others |
| ChannelPool.ExclusionExactly | modules/common/src/TransferChannelPool.cpp:210-237 | the reserved indices are those of the guards of the present epoch, one each, and one step loses this exactly: destroying a guard from before a reset whose index is reserved anew |
| ChannelPool.RunIsExactly | modules/common/src/TransferChannelPool.cpp:210-350 | along a run, resets included, reservations and live guards correspond throughout if and only if no guard that outlived a reset is destroyed after its index was reserved anew |
| ChannelPool.ExclusionBetweenResets | modules/common/src/TransferChannelPool.cpp:292-350 | between resets, under any interleaving of any borrowers, reserved indices and live guards correspond and no channel is held twice |
| ChannelPool.FailedRecheckUndoes | modules/common/src/TransferChannelPool.cpp:332-345 | reserving and failing the second check leaves the reservations as they were |
| ChannelPool.OutlivingGuardBreaksExclusion | modules/common/src/TransferChannelPool.cpp:421-427 | a run in which a guard that outlived a reset lets two borrowers hold one channel |
| RemotePath.ReplaceShortens | apps/desktop/src/FileManagerController.cpp:1713-1715 | each repetition of the replacement shortens a path that still has a double slash, so the loop ends |
| RemotePath.NormalizeRemotePath | apps/desktop/src/FileManagerController.cpp:1705-1722 | the repeated replacement equals reducing every run of slashes to one |
| RemotePath.NormalizeIsNormal | apps/desktop/src/FileManagerController.cpp:1705-1722 | the result has no backslash, no double slash and no final slash unless it is "/" |
| RemotePath.IdempotentExactly | apps/desktop/src/FileManagerController.cpp:1705-1722 | normalising again changes nothing if and only if the path, trimmed and without its final separators, is empty or does not end with white space |
| RemotePath.NotIdempotentExample | apps/desktop/src/FileManagerController.cpp:1705-1722 | "a /" becomes "a " and then "a" |
| RemotePath.NormalizeKeepsNames | apps/desktop/src/FileManagerController.cpp:1705-1722 | for every path, normalising keeps the names that the trimmed path consists of, in their order |
| RemotePath.ParentDropsLastName | apps/desktop/src/FileManagerController.cpp:1724-1737 | the parent of an absolute path consists of its names but the last |
| RemotePath.ParentOfChild | apps/desktop/src/FileManagerController.cpp:1724-1737 | the parent of a name in a folder is that folder, for every absolute folder in normal form and every name without separators that does not end with white space |
| RemotePath.RootReachedExactly | apps/desktop/src/FileManagerController.cpp:1724-1737 | from an absolute path none of whose names ends with white space, going up k times leaves its names but the last k, and reaches "/" after exactly as many steps as it has names |
| Accounting.StartNextQueuedActionAccounts | apps/desktop/src/FileManagerController.cpp:1225-1266 | the mutually recursive functions, which end on every queue and every answer of the disk, leave both batches adding up and no download waiting behind an idle scheduler |
| Accounting.StartPendingActionAccounts | apps/desktop/src/FileManagerController.cpp:1268-1421 | the same for startPendingActionIfReady, for an upload that has vanished too and for a download whose entry is present |
| Accounting.BeginDownloadAccounts | apps/desktop/src/FileManagerController.cpp:1423-1486 | the same for a download taken off the queue |
| Accounting.BeginUploadAccounts | apps/desktop/src/FileManagerController.cpp:1488-1548 | the same for an upload taken off the queue |
| Accounting.DownloadEntriesAccounts | apps/desktop/src/FileManagerController.cpp:331-414 | asking for downloads keeps total = completed + queued + in flight, failed <= completed, and the queue without duplicates |
| Accounting.UploadLocalEntryAccounts | apps/desktop/src/FileManagerController.cpp:800-834 | asking for an upload keeps the same for the uploads |
| Accounting.TransferEndedAccounts | apps/desktop/src/FileManagerController.cpp:1056-1162 | the result of any transfer other than during a deletion keeps the counts |
| Accounting.StartsFirstPresent | apps/desktop/src/FileManagerController.cpp:1423-1486 | what the recursion comes to: vanished paths at the head are counted as failed, the first path still present is fetched and the rest stays queued, and if all have vanished the batch ends and the other queues have their turn |
| VanishedDownload.StartPendingActionAccountsExactly | apps/desktop/src/FileManagerController.cpp:1268-1421 | startPendingActionIfReady keeps the counts of every action, but for exactly one case: the pending download of a batch has vanished, and not all the queued ones with it |
| SchedulerRuns.StepAccountsExactly | apps/desktop/src/FileManagerController.cpp:1056-1211 | every handler keeps the counts, but for exactly one case: a transfer result during a deletion while a queued download is still present |
| SchedulerRuns.RunAccountsExactly | apps/desktop/src/FileManagerController.cpp:915-1211 | along a run the counts hold throughout if and only if that case never occurs |
| SchedulerRuns.ProgressIsAFraction | apps/desktop/src/FileManagerController.h:54-65 | batchTransferProgress stays between 0 and 1 whenever the counts hold and the file's own progress does |
| SchedulerRuns.MixUpExample | apps/desktop/src/FileManagerController.cpp:1056-1160 | a run of three events in which the case occurs |
| SchedulerRuns.MixUpOvershoots | apps/desktop/src/FileManagerController.cpp:1109-1160 | the batch then counts one transfer too many, and during its last download the progress shown is above one |
| Selection.KnownMeans | apps/desktop/src/FileManagerController.cpp:345-359 | a path is selected if and only if it is the normal form of one that was given, not empty and in the folder; the selected paths stand in the order in which they were given first |
| Selection.UnaskedMeans | apps/desktop/src/FileManagerController.cpp:366-378 | the paths that are new are exactly those that are neither in progress nor queued, in their order |
| Selection.DownloadEntriesMeans | apps/desktop/src/FileManagerController.cpp:331-414 | with nothing in progress the first selected path is fetched and all others wait in a batch of all of them; otherwise all new ones wait at the end of the queue and the batch grows by their number |
| Selection.CopyEntriesMeans | apps/desktop/src/FileManagerController.cpp:473-554 | all selected paths are put on the clipboard, or wait as one request unless it waits or is in progress already |
| Selection.DeleteEntriesMeans | apps/desktop/src/FileManagerController.cpp:841-897 | exactly the selected paths are deleted, and only with nothing in progress |
| DownloadOrder.StepAdvances | apps/desktop/src/FileManagerController.cpp:915-1211 | one event fetches at most from the front: what it fetches and what then waits is an end part of what waited and of the selected paths that are new |
| DownloadOrder.FetchedInOrder | apps/desktop/src/FileManagerController.cpp:1423-1486 | over any run what was fetched, followed by what still waits, is what was selected and new, in that order, with some paths left out |
| Turns.StartsFirstExisting | apps/desktop/src/FileManagerController.cpp:1488-1548 | the first queued local file for which the disk says yes is posted to the current folder and the rest stays queued; those before it are counted as failed; with none the batch ends and the other queues have their turn |
| Turns.NextTurn | apps/desktop/src/FileManagerController.cpp:1225-1266 | with nothing in progress: the first download still in the folder is fetched, else the first file to be opened is opened, else the first copy request is served, else the first upload that exists is posted; exactly what was dealt with leaves the queues |
| QueueOrder.StepWorks | apps/desktop/src/FileManagerController.cpp:915-1211 | every event adds exactly what it asks for at the end of the queues of uploads, files to open and copy requests, and works them off from the front |
| QueueOrder.PostedInOrder | apps/desktop/src/FileManagerController.cpp:1488-1548 | over any run the local files posted, followed by those still waiting, are those asked for in that order with some left out |
| QueueOrder.WaitingInOrder | apps/desktop/src/FileManagerController.cpp:1225-1266 | over any run what waits to be opened or copied is an end part of what was asked for |
| QueueOrder.LoadDirectoryMeans | apps/desktop/src/FileManagerController.cpp:1550-1572 | the folder whose listing is asked for is the current one from then on; an empty path changes nothing |
| QueueOrder.ListedIsCurrent | apps/desktop/src/FileManagerController.cpp:1550-1572 | over any run the current folder is the one whose listing was asked for last |
| Tallies.StepTallies | apps/desktop/src/FileManagerController.cpp:915-1211 | every event keeps: the action in progress and the path whose result is accepted are those of the last call; the folder's content is the last listing of the current folder; and a batch that goes on grows by exactly what was asked for and its successes by those reported |
| Tallies.RunInProgress | apps/desktop/src/FileManagerController.cpp:915-1211 | over any run the action in progress is what was asked for last, and only its result is accepted |
| Tallies.UploadBatchCounts | apps/desktop/src/FileManagerController.cpp:1056-1109 | while a batch of uploads goes on, over any run, its size grows by the files taken on, and what it has completed less what it has failed by the successes reported |
| Tallies.DownloadBatchCounts | apps/desktop/src/FileManagerController.cpp:1111-1162 | the same for downloads, over runs in which the counts add up |
| Tallies.RunCopies | apps/desktop/src/FileManagerController.cpp:1056-1073 | over any run during a copy its progress is the number of results accepted, out of the number of files copied |
| Stranding.StrandsUploadsExactly | apps/desktop/src/FileManagerController.cpp:1225-1266 | the scheduler rests with uploads queued if and only if no queued download is left in the folder and the next open or copy request cannot be served |
| Stranding.StrandedExample | apps/desktop/src/FileManagerController.cpp:915-1266 | a run from the initial state at whose end an upload waits with nothing in progress |
| FileManager.FileManagerController.StartNextQueuedAction | apps/desktop/src/FileManagerController.cpp:1225-1266 | the method, calling the others, computes the scheduler's function and ends |
| FileManager.FileManagerController.StartPendingActionIfReady | apps/desktop/src/FileManagerController.cpp:1268-1421 | the pending action is requested from the module, or given up for the next one when its files have vanished, exactly as the scheduler's function says |
| FileManager.FileManagerController.BeginDownloadForPath | apps/desktop/src/FileManagerController.cpp:1423-1475 | a download is begun, or skipped and counted as failed when its path has vanished, exactly as the scheduler's function says |
| FileManager.FileManagerController.BeginUploadForLocalPath | apps/desktop/src/FileManagerController.cpp:1499-1548 | an upload is begun, or skipped and counted as failed when the file has vanished, exactly as the scheduler's function says |
| FileManager.FileManagerController.OpenEntry | apps/desktop/src/FileManagerController.cpp:416-466 | a file is opened, queued behind the action in progress, or refused as missing, a folder or already queued; the batch counts stay right |
| FileManager.FileManagerController.CopyEntries | apps/desktop/src/FileManagerController.cpp:473-554 | the distinct known paths are copied or queued, unless the same request is queued or in progress; the batch counts stay right |
| FileManager.FileManagerController.DownloadEntries | apps/desktop/src/FileManagerController.cpp:331-414 | the distinct known paths are fetched, or those not yet queued are queued and added to the batch; the batch counts stay right |
| FileManager.FileManagerController.UploadLocalEntry | apps/desktop/src/FileManagerController.cpp:800-834 | an existing file that is not yet queued is queued, counted and, with nothing in progress, begun; the batch counts stay right |
| FileManager.FileManagerController.DeleteEntries | apps/desktop/src/FileManagerController.cpp:841-897 | the distinct known paths are deleted, but only with nothing in progress; the batch counts stay right |
| FileManager.FileManagerController.LoadDirectory | apps/desktop/src/FileManagerController.cpp:1550-1572 | the normalised path becomes the current one and is listed; the batch counts stay right |
| FileManager.FileManagerController.OnDisconnected | apps/desktop/src/FileManagerController.cpp:917-940 | every queue is emptied and both batches end, whatever was in progress; the batch counts stay right |
| FileManager.FileManagerController.OnDirectoryEntries | apps/desktop/src/FileManagerController.cpp:958-999 | a listing of the current folder replaces what is known of it and starts waiting work; any other is ignored; the batch counts stay right |
| FileManager.FileManagerController.OnEntryTransferResult | apps/desktop/src/FileManagerController.cpp:1056-1162 | the result is ignored or counted for the action in progress, whatever that is, and the next piece of work is started; the batch counts stay right unless it is mixed up with a queued download during a deletion |
| FileManager.FileManagerController.OnEntriesCopyResult | apps/desktop/src/FileManagerController.cpp:1164-1185 | a copy in progress ends and waiting work is started; otherwise nothing changes; the batch counts stay right |
| FileManager.FileManagerController.OnEntriesDeleteResult | apps/desktop/src/FileManagerController.cpp:1187-1211 | a deletion in progress ends, the folder is listed again after a success, and waiting work is started; the batch counts stay right |
| FileManager.FileManagerController.Handle | apps/desktop/src/FileManagerController.cpp:915-1211 | whatever arrives, the object does what the step function says, and its counts stay right if and only if it is not a mixed-up result |
| FileManager.FileManagerController.HandleAll | apps/desktop/src/FileManagerController.cpp:915-1211 | the object after any events is what the run function says, so every property of runs is one of the object; its counts are right if no result was mixed up |
| IconQueue.IconRequests.QueueEntryIconRequest | apps/desktop/src/FileManagerController.cpp:1574-1594 | queues a path exactly if it is a file whose icon is not known, queued or on its way |
| IconQueue.IconRequests.ProcessQueuedIconRequests | apps/desktop/src/FileManagerController.cpp:1596-1630 | the loop computes the queue function |
| IconQueue.IconRequests.RequestEntryIcon | apps/desktop/src/FileManagerController.cpp:899-913 | queues and processes |
| IconQueue.IconRequests.OnFetchEntryIconResult | apps/desktop/src/FileManagerController.cpp:1001-1022 | records the answer and processes |
| IconQueue.RunKeeps | apps/desktop/src/FileManagerController.cpp:958-1022 | over any run the queued set is the queue's elements without duplicates, disjoint from what is in flight, at most two requests are in flight, and while the module is enabled none is held back that could be made |
| IconQueue.RunAsksOnce | apps/desktop/src/FileManagerController.cpp:1574-1630 | over any run the icon of a path is asked for at most once more than the connection was lost |
| IconAnswers.RunReports | apps/desktop/src/FileManagerController.cpp:1001-1022 | over any run the icon of a path is the one reported last, whatever failed afterwards, and it counts as one without exactly when its last answer had none |
| IconAnswers.RunAsksInOrder | apps/desktop/src/FileManagerController.cpp:1574-1630 | over any run icons are asked for in the order in which they were wanted |
| IconAnswers.RunHeeds | apps/desktop/src/FileManagerController.cpp:899-1022 | over any run in one folder and with one connection, every file whose icon was wanted waits, has been asked for or has been answered |
| MessageParsing.ParseDecimal | apps/desktop/src/SmsBridgeController.cpp:44-47 | toInt and toLongLong invert the decimal notation over their whole range |
| MessageParsing.ExtractMmsAttachmentTargets | apps/desktop/src/SmsBridgeController.cpp:65-92 | the loop over the candidates computes the attachment list |
| MessageParsing.SplitJoin | apps/desktop/src/SmsBridgeController.cpp:78-91 | targets that are trimmed and free of separators survive joining and splitting |
| MessageParsing.SmsRoundTrip | apps/desktop/src/SmsBridgeController.cpp:760-808 | every v2 record, as line 235 of SmsUtils.kt forms it, is read as it was written, whatever the body contains; a timestamp that is not positive is replaced by the default |
| MessageParsing.MmsRoundTrip | apps/desktop/src/SmsBridgeController.cpp:21-92 | every mms record, as line 269 of SmsUtils.kt forms it, is read as it was written, whatever the body contains, with exactly its attachments |
| Contacts.NotTransitive | apps/desktop/src/SmsBridgeController.cpp:740-758 | equivalence of phone keys is not transitive |
| Contacts.ContactList.FindEquivalentContactIndex | apps/desktop/src/SmsBridgeController.cpp:1052-1061 | the loop finds the first equivalent contact, or none exists |
| Contacts.ContactList.EnsureContactExists | apps/desktop/src/SmsBridgeController.cpp:970-1011 | updates the contact that stands for a key or adds one, and moves the selection |
| Contacts.EnsureKeepsIndependent | apps/desktop/src/SmsBridgeController.cpp:970-1011 | no two keys become equivalent, no key changes, and the ensured key is covered |
| Contacts.RunStandsFor | apps/desktop/src/SmsBridgeController.cpp:970-1071 | after any run, whatever orders sorting produced, no two contacts are equivalent, every contact was mentioned, and everyone mentioned is equivalent to a contact |
| Contacts.FetchedAreFiled | apps/desktop/src/SmsBridgeController.cpp:353-381 | fetched messages are filed under the key of a contact |
| Contacts.ReceivedIsFiledExactly | apps/desktop/src/SmsBridgeController.cpp:434-454 | a received message is filed under a contact's key if and only if every contact equivalent to its sender has the sender's own key |
| Contacts.MisfiledExample | apps/desktop/src/SmsBridgeController.cpp:434-454 | a contact written with a plus does not get the message sent without it |
| ContactDetails.EnsureMeans | apps/desktop/src/SmsBridgeController.cpp:970-1011 | the contact with that very key, or else the first with an equivalent one, learns what is heard and all others stay as they are; with none a contact is added that has the key, the number, and the name or else the number as its name |
| ContactDetails.NumberIsBest | apps/desktop/src/SmsBridgeController.cpp:990-994 | whatever is heard, the number of a contact is the first with a plus of all it has had and heard, or else the first that is not empty |
| ContactDetails.NameIsLastProper | apps/desktop/src/SmsBridgeController.cpp:984-988 | a contact is called by the last name heard that is not just its number again, and keeps a proper name while only numbers and empty names are heard |
| ContactDetails.NameWasHeard | apps/desktop/src/SmsBridgeController.cpp:984-988 | a contact that has a name does not lose it, and every name it comes to have was heard |
| ContactDetails.RunLearns | apps/desktop/src/SmsBridgeController.cpp:970-1071 | over any run without a new connection, whatever orders sorting produced, a contact stays and has learnt exactly what was heard about it |
| MmsQueue.RunFlows | apps/desktop/src/SmsBridgeController.cpp:474-669 | over any run every requested target is being fetched or waiting, nothing waits while nothing is fetched, and the busy flag is right |
| MmsQueue.StepLiveExactly | apps/desktop/src/SmsBridgeController.cpp:353-558 | every handler keeps every loading attachment requested, but for exactly one case: a failed reply for a target that is on disk by then |
| MmsQueue.ContentReceivedLiveExactly | apps/desktop/src/SmsBridgeController.cpp:474-558 | that case for the handler of replies: not in the cache, not retried, on disk, and shown by some message |
| MmsQueue.RunLiveExactly | apps/desktop/src/SmsBridgeController.cpp:353-558 | along a run no attachment is stuck loading if and only if that case never occurs |
| MmsQueue.StickExample | apps/desktop/src/SmsBridgeController.cpp:474-558 | a run in which it occurs |
| MmsQueue.OneRetry | apps/desktop/src/SmsBridgeController.cpp:474-492 | over any run a target is retried at most once between successes and new connections |
| MmsShown.ReplyMeans | apps/desktop/src/SmsBridgeController.cpp:474-558 | after a reply with a URL every attachment of its target is loaded and shows that URL; after a failure it shows what the cache has, or is loading once more, or has failed and shows nothing; all other attachments are as before |
| MmsShown.ReplyCaches | apps/desktop/src/SmsBridgeController.cpp:474-500 | the cache gets the URL of a reply, or on a retry the one found on disk, and nothing else |
| MmsShown.RunShows | apps/desktop/src/SmsBridgeController.cpp:353-558 | over any run an attachment that is neither loading nor failed shows what the cache has for its target, and that is a URL |
| MmsShown.RunKeepsMessages | apps/desktop/src/SmsBridgeController.cpp:353-558 | after any run a conversation has the messages fetched last, with their attachments in order, behind those sent and received since |
| MmsShown.RunInOrder | apps/desktop/src/SmsBridgeController.cpp:622-669 | over any run with one connection attachments are fetched in the order in which they were queued, none is passed over, and the one being fetched is the last that was asked for |
| MmsShown.BusyExactly | apps/desktop/src/SmsBridgeController.cpp:933-947 | after any run the controller is busy exactly while contacts, messages of a conversation or the result of a sent message are still to come or an attachment is being fetched |
| MmsFetching.SmsBridgeController.QueueMmsContentFetch | apps/desktop/src/SmsBridgeController.cpp:622-658 | a target is queued unless it is requested already; one found in the cache or on disk is shown by all its attachments instead |
| MmsFetching.SmsBridgeController.StartNextMmsContentFetch | apps/desktop/src/SmsBridgeController.cpp:660-669 | the first waiting target is fetched, but only with no fetch in progress |
| MmsFetching.SmsBridgeController.UseCachedMmsContent | apps/desktop/src/SmsBridgeController.cpp:589-620 | fills the cache from the disk and tells whether the target is cached |
| MmsFetching.SmsBridgeController.RequestMmsContentFetches | apps/desktop/src/SmsBridgeController.cpp:563-587 | the nested loops request, in order, every attachment that needs it, and show those that are cached by then |
| MmsFetching.SmsBridgeController.ApplyCachedMmsContent | apps/desktop/src/SmsBridgeController.cpp:671-688 | the nested loops take from the cache what it has |
| MmsFetching.SmsBridgeController.ChangeAttachments | apps/desktop/src/SmsBridgeController.cpp:507-551 | the loops over all conversations change exactly the attachments of one target |
| MmsFetching.SmsBridgeController.OnMessageList | apps/desktop/src/SmsBridgeController.cpp:353-381 | the new messages replace the conversation, with their attachments cached or requested |
| MmsFetching.SmsBridgeController.OnMmsContentReceived | apps/desktop/src/SmsBridgeController.cpp:474-558 | a reply ends the fetch, is cached or retried, changes every attachment of its target, and starts the next fetch |
| MmsFetching.SmsBridgeController.ClearConversationState | apps/desktop/src/SmsBridgeController.cpp:896-931 | everything is forgotten and the busy flag goes out |
| MmsFetching.SmsBridgeController.UpdateBusyState | apps/desktop/src/SmsBridgeController.cpp:933-947 | the flag says whether anything is refreshing, being fetched, being sent or waiting |
| RemoteFileBuffers.RingWriteAppends | modules/file-share/desktop/inc/RemoteFileBuffer.h:20-30 | writing in two parts around the end of the array appends to what the ring holds |
| RemoteFileBuffers.RingReadsTwoParts | modules/file-share/desktop/inc/RemoteFileBuffer.h:32-43 | reading in two parts gives the oldest bytes in order |
| RemoteFileBuffers.RemoteFileBuffer.TryWrite | modules/file-share/desktop/inc/RemoteFileBuffer.h:20-30 | all or nothing: accepts exactly what fits an unfinished buffer, and appends it |
| RemoteFileBuffers.RemoteFileBuffer.Read | modules/file-share/desktop/inc/RemoteFileBuffer.h:32-43 | hands over the oldest bytes, at most the room given, and reports the end when nothing is left |
| RemoteFileBuffers.RemoteFileBuffer.Finish | modules/file-share/desktop/inc/RemoteFileBuffer.h:45-52 | a failure drops what is held; a success keeps it |
| RemoteFileBuffers.RemoteFileBuffer.Cancel | modules/file-share/desktop/inc/RemoteFileBuffer.h:71-84 | has no effect after a success |
| RemoteFileBuffers.FirstInFirstOut | modules/file-share/desktop/inc/RemoteFileBuffer.h:18-84 | over any run the bytes handed out are the first of those accepted, without a gap, and unless it failed the rest is still held |
| RemoteFileBuffers.FailureIsFinal | modules/file-share/desktop/inc/RemoteFileBuffer.h:20-84 | a failed buffer accepts and hands out nothing more |
| RemoteFileBuffers.EndsAndFailsExactly | modules/file-share/desktop/inc/RemoteFileBuffer.h:45-84 | over any run a buffer has ended exactly when it was finished or cancelled, and has failed exactly when a failure was reported at any time or it was cancelled before it had ended |
| RemoteFileBuffers.AcceptsAndDeliversExactly | modules/file-share/desktop/inc/RemoteFileBuffer.h:18-43 | after any run a write is accepted exactly when nothing has ended the buffer and the bytes fit beside those not yet handed out, and a read hands out those as far as there is room |
| ExportProgress.ReportStaysWithin | apps/desktop/src/WindowsVirtualFileDrag.cpp:52-65 | a report never lowers the completed bytes and never takes them above the total |
| ExportProgress.CompletedMeans | apps/desktop/src/WindowsVirtualFileDrag.cpp:52-65 | after any reports the completed bytes are the sum over the files of the furthest position reported, clamped to the size |
| ExportProgress.ExportState.AddSizes | apps/desktop/src/WindowsVirtualFileDrag.cpp:389-407 | the manifest is ready if and only if it is not empty and the sizes add up below 2^64, and the total is their sum |
| ExportProgress.ExportState.Report | apps/desktop/src/WindowsVirtualFileDrag.cpp:52-65 | shows the sum of the positions; what was shown never decreases and never exceeds the total |
| ExportReading.ReadExactly | apps/desktop/src/WindowsVirtualFileDrag.cpp:95-149 | a read fails if and only if the export was cancelled or failed before, a look finds it cancelled or comes too late before the end is found, the transfer has failed or has ended at another size than the file's, or no look is left; otherwise it delivers all that was asked for or stops at the end of the file |
| ExportReading.CopyCompletes | apps/desktop/src/WindowsVirtualFileDrag.cpp:167-196 | if no look finds the export cancelled or is late, nothing fails, the bytes that come add up to the size, and the target takes what it is given, then copying to the end or beyond succeeds and has read and written all that was left |
| ExportReading.ReadReports | apps/desktop/src/WindowsVirtualFileDrag.cpp:95-149 | only positions already read are reported, for this file alone; the end of the file is always reported, and where a read stands when a report is due |
| ExportStream.RemoteFileStream.Read | apps/desktop/src/WindowsVirtualFileDrag.cpp:95-149 | ends as the function that `ExportReading` is about says, failures included; the bytes delivered are exactly the next of those the ring buffer has accepted; S_OK means all that were asked for, S_FALSE that the position is the size and that nothing the buffer accepted is missing |
| ExportStream.RemoteFileStream.CopyTo | apps/desktop/src/WindowsVirtualFileDrag.cpp:167-196 | ends as its function says, failures included; unless it fails the target has got exactly the next bytes that came over the network, read = written, S_OK means all requested and S_FALSE the end, with every byte that came delivered; even when it fails the target has got the first of them |
| Typing.MobileRemoteInputController.SendMappedKey | apps/mobile/src/MobileRemoteInputController.cpp:711-750 | sends a stroke inside its modifiers, pressed and released as brackets |
| Typing.MobileRemoteInputController.SendCharacter | apps/mobile/src/MobileRemoteInputController.cpp:752-759 | sends the burst of a character, or nothing for one that has no key |
| Typing.MobileRemoteInputController.SendText | apps/mobile/src/MobileRemoteInputController.cpp:303-308 | the loop sends the events of the text |
| Typing.AsciiIsRight | apps/mobile/src/MobileRemoteInputController.cpp:906-995 | every ASCII code has the key and shift that produce it on a keyboard, and both line ends the Enter key |
| Typing.TypingRoundTripExactly | apps/mobile/src/MobileRemoteInputController.cpp:303-308 | replayed on a keyboard without modifiers, text produces exactly its printable ASCII characters and line ends, if and only if it has no letter beyond ASCII with lower case a to z and no decimal digit beyond ASCII whose code less 22, modulo 256, is the number of a key with a character; no key stays down |
| Typing.StrayProduces | apps/mobile/src/MobileRemoteInputController.cpp:906-920 | such a code unit produces one character, and every other one beyond ASCII none |
| Typing.StrayExamples | apps/mobile/src/MobileRemoteInputController.cpp:906-920 | the Tibetan digit zero types k, and so does the Kelvin sign |
| Typing.BurstCleanExactly | apps/mobile/src/MobileRemoteInputController.cpp:711-750 | with any modifiers a burst leaves no key down and is well nested if and only if the key is not one of the modifiers it holds |
| Typing.TextCleanExactly | apps/mobile/src/MobileRemoteInputController.cpp:303-308 | with any modifiers a text leaves no key down, and its events are well nested if and only if it has no decimal digit, not a letter, whose code less 22, modulo 256, is the number of a modifier held |
| Typing.ClashesExactly | apps/mobile/src/MobileRemoteInputController.cpp:906-995 | exactly such a digit is mapped to one of the modifiers held for it |
| Typing.AsciiIsClean | apps/mobile/src/MobileRemoteInputController.cpp:906-995 | ASCII text never strikes a modifier |
| Typing.ClashExample | apps/mobile/src/MobileRemoteInputController.cpp:917-920 | the Thai digit one strikes the Super key while it is held |

## Left out

- Sockets, TLS, multicast, timers, threads and logging: the network is two byte sequences, and a read
  fails only when the stream has ended; failing writes and the disconnection that follows a failed
  receive are not modelled.
- TransferChannels.TransferChannel.ReceiveDirectoryEntries: the reservation of room for the announced
  count, which throws before any frame is read when the count is too large for it.
- The file system: `exists` and look-ups are answered by the environment, canonicalisation is a
  parameter, and so is which files can be opened, given those written so far (directories are not
  modelled as such).  Paths are POSIX paths; of a separator at the end of a received path only that
  it cannot be opened is modelled.  Files left half-written by a failed receive are not modelled.
- `m_progress` and the other byte counters are unbounded; the remaining count of the listing
  receiver wraps as a size_t does.
- A presence or boolean byte other than 0 and 1 counts as true.
- Races below the granularity of one coroutine stretch, such as the separate load and store of one
  atomic: each stretch is one atomic step.
- The outer polling of BorrowTransferChannel and the connection of channels; a borrower may look at
  any index at any time instead.
- FileManagerController while the file-share module is not enabled, browsing while waiting for it,
  and drag export: runs are those in which the module stays enabled and no drag export is made.
- The local download directory: one has been chosen, so that no download is refused for want of it.
- The sorting and composition of listed entries; a listing is the map of its paths.
- FileManager.FileManagerController.BatchTransferProgress: real numbers instead of doubles.
- The separate members for the pending action and for each batch of FileManagerController are the
  fields of one record each, which the methods update in place.
- What attachments and messages carry besides the target and its display state (names, previews, file
  paths derived from the URL), and the part of the message handlers that selects and notifies.
- normalizeNumber, buildPreview and contact summaries: keys, names and numbers are given.
- Concurrent writers of one RemoteFileBuffer are serialised by its mutex: what the network does falls
  between two looks of the stream at the buffer, in any order and amount; the stream's deadline
  passes when no look is left, and the buffer is given at its construction, not at the first Read.
- The cancel action of a RemoteFileBuffer, and the cancelling of the other streams' buffers when an
  export fails; COM plumbing, null arguments and seeking of the export
  stream.
- Lock keys, keyboard layouts other than US, and the special keys of sendQtKeyEvent; letters beyond
  ASCII are known only through what QChar answers, which is a parameter.
- User interface, status messages, signals, media control and everything on the Kotlin side but the
  form of the message records.
