/** FileManagerController of apps/desktop/src/FileManagerController.cpp as the object it is: every
    method updates the fields as the source does and is proved to compute the state that Scheduler
    gives for it.  The mutual recursion of the methods ends for the same reason. */
module FileManager {
  import RemotePath
  import opened Scheduler
  import Accounting
  import SchedulerRuns

  /** The m_pending... fields of the action in progress, and m_activeEntryPath. */
  datatype Pending = Pending(
    action: Action, entryPath: string, localPath: string, copyPaths: seq<string>, activeEntryPath: string)

  datatype ExportBatch = ExportBatch(total: nat, completed: nat)

  class FileManagerController {
    /** The local disk: the n-th look is answered by disk(n). */
    const disk: Disk
    var looks: nat
    /** What the file-share module has been asked to do. */
    var moduleCalls: seq<Call>

    var entryLookup: map<string, bool>
    var currentRemotePath: string
    var pendingDownloadQueue: seq<string>
    var pendingOpenQueue: seq<string>
    var pendingCopyQueue: seq<seq<string>>
    var pendingUploadQueue: seq<string>
    var pending: Pending
    var downloadBatch: Batch
    var uploadBatch: Batch
    var exportBatch: ExportBatch

    ghost function View(): State
      reads this
    {
      State(pending.action, entryLookup, currentRemotePath, pendingDownloadQueue, pendingOpenQueue, pendingCopyQueue,
        pendingUploadQueue, pending.entryPath, pending.localPath, pending.copyPaths, pending.activeEntryPath,
        downloadBatch, uploadBatch, exportBatch.total, exportBatch.completed, looks, moduleCalls)
    }

    constructor (disk: Disk, currentRemotePath: string)
      ensures this.disk == disk
      ensures View() == State(Idle, map[], currentRemotePath, [], [], [], [], "", "", [], "", NO_BATCH, NO_BATCH, 0, 0,
        0, [])
    {
      this.disk := disk;
      looks, moduleCalls := 0, [];
      entryLookup := map[];
      this.currentRemotePath := currentRemotePath;
      pendingDownloadQueue, pendingOpenQueue, pendingCopyQueue, pendingUploadQueue := [], [], [], [];
      pending := Pending(Idle, "", "", [], "");
      downloadBatch, uploadBatch, exportBatch := NO_BATCH, NO_BATCH, ExportBatch(0, 0);
    }

    method Exists(localPath: string) returns (exists_: bool)
      modifies this`looks
      ensures exists_ == disk(old(looks)) && looks == old(looks) + 1
    {
      exists_ := disk(looks);
      looks := looks + 1;
    }

    // -------------------------------------------------------------------------------------
    // Starting work
    // -------------------------------------------------------------------------------------

    method StartNextQueuedAction()
      modifies this
      ensures View() == Scheduler.StartNextQueuedAction(old(View()), disk)
      decreases Queued(View()), 1
    {
      hide StartPendingAction, Scheduler.StartNextQueuedDownload, Scheduler.StartNextQueuedUpload, Scheduler.OpenEntry,
        Scheduler.CopyEntries;
      if pending.action != Idle {
        return;
      }
      if pendingDownloadQueue != [] {
        if !downloadBatch.active {
          downloadBatch := Batch(true, |pendingDownloadQueue|, 0, 0);
        }
        StartNextQueuedDownload();
        return;
      }
      if pendingOpenQueue != [] {
        var nextPath := pendingOpenQueue[0];
        pendingOpenQueue := pendingOpenQueue[1..];
        OpenEntry(nextPath);
        return;
      }
      if pendingCopyQueue != [] {
        var nextPaths := pendingCopyQueue[0];
        pendingCopyQueue := pendingCopyQueue[1..];
        CopyEntries(nextPaths);
        return;
      }
      if pendingUploadQueue != [] {
        if !uploadBatch.active {
          uploadBatch := uploadBatch.(active := true);
          if uploadBatch.total == 0 {
            uploadBatch := uploadBatch.(total := |pendingUploadQueue|);
          }
        }
        StartNextQueuedUpload();
      }
    }

    method StartPendingActionIfReady()
      modifies this
      ensures View() == StartPendingAction(old(View()), disk)
      decreases Queued(View()), 2
    {
      hide Scheduler.StartNextQueuedAction, Scheduler.StartNextQueuedUpload, Present;
      if pending.action == Idle {
        return;
      }
      if pending.action == Upload {
        StartPendingUpload();
      } else if pending.action == Copy && pending.copyPaths != [] {
        StartPendingCopy();
      } else if pending.entryPath != "" {
        if pending.entryPath !in entryLookup {
          pending := pending.(action := Idle);
          StartNextQueuedAction();
        } else if pending.action == Open {
          moduleCalls := moduleCalls + [OpenFile(pending.entryPath)];
        } else if pending.action == Copy {
          moduleCalls := moduleCalls + [CopyToClipboard([pending.entryPath])];
        } else {
          moduleCalls := moduleCalls + [Fetch(pending.entryPath)];
        }
      }
    }

    /** The branch of startPendingActionIfReady for an upload. */
    method StartPendingUpload()
      requires pending.action == Upload
      modifies this
      ensures View() == StartPendingAction(old(View()), disk)
      decreases Queued(View()), 2, 0
    {
      hide Scheduler.StartNextQueuedAction, Scheduler.StartNextQueuedUpload, Present;
      if pending.localPath == "" {
        if pendingUploadQueue != [] {
          StartNextQueuedUpload();
          return;
        }
        pending := pending.(action := Idle);
        uploadBatch := NO_BATCH;
        StartNextQueuedAction();
        return;
      }
      var present := Exists(pending.localPath);
      if !present {
        uploadBatch := uploadBatch.(completed := uploadBatch.completed + 1, failed := uploadBatch.failed + 1);
        if pendingUploadQueue != [] {
          StartNextQueuedUpload();
          return;
        }
        pending := pending.(action := Idle);
        uploadBatch := NO_BATCH;
        StartNextQueuedAction();
        return;
      }
      moduleCalls := moduleCalls + [Post(pending.localPath, currentRemotePath)];
    }

    /** The entries of the pending copy that the folder still has. */
    method PresentEntries() returns (entries: seq<string>)
      ensures entries == Present(entryLookup, pending.copyPaths)
    {
      entries := [];
      var i := 0;
      while i < |pending.copyPaths|
        invariant 0 <= i <= |pending.copyPaths|
        invariant Present(entryLookup, pending.copyPaths) == entries + Present(entryLookup, pending.copyPaths[i..])
      {
        assert pending.copyPaths[i..][1..] == pending.copyPaths[i + 1..];
        if pending.copyPaths[i] in entryLookup {
          entries := entries + [pending.copyPaths[i]];
        }
        i := i + 1;
      }
    }

    /** The branch of startPendingActionIfReady for several entries to copy. */
    method StartPendingCopy()
      requires pending.action == Copy && pending.copyPaths != []
      modifies this
      ensures View() == StartPendingAction(old(View()), disk)
      decreases Queued(View()), 2, 0
    {
      hide Scheduler.StartNextQueuedAction, Scheduler.StartNextQueuedUpload, Present;
      var entries := PresentEntries();
      if entries == [] {
        pending := pending.(action := Idle);
        StartNextQueuedAction();
        return;
      }
      moduleCalls := moduleCalls + [CopyToClipboard(entries)];
    }

    method BeginDownloadForPath(normalizedPath: string, partOfBatch: bool)
      modifies this
      ensures View() == BeginDownload(old(View()), normalizedPath, partOfBatch, disk)
      decreases Queued(View()), 3
    {
      hide Scheduler.StartNextQueuedAction, Scheduler.StartNextQueuedDownload, StartPendingAction;
      if normalizedPath !in entryLookup {
        if partOfBatch {
          downloadBatch := downloadBatch.(completed := downloadBatch.completed + 1, failed := downloadBatch.failed + 1);
          if pendingDownloadQueue != [] {
            StartNextQueuedDownload();
          } else {
            pending := pending.(entryPath := "", localPath := "", activeEntryPath := "", action := Idle);
            pendingDownloadQueue := [];
            downloadBatch := NO_BATCH;
            StartNextQueuedAction();
          }
        }
        return;
      }
      pending := pending.(entryPath := normalizedPath, localPath := "",
        activeEntryPath := normalizedPath, action := Download);
      StartPendingActionIfReady();
    }

    method StartNextQueuedDownload()
      modifies this
      ensures View() == Scheduler.StartNextQueuedDownload(old(View()), disk)
      decreases Queued(View()), 0
    {
      hide BeginDownload;
      if pendingDownloadQueue == [] {
        return;
      }
      var nextPath := pendingDownloadQueue[0];
      pendingDownloadQueue := pendingDownloadQueue[1..];
      BeginDownloadForPath(nextPath, true);
    }

    method StartNextQueuedUpload()
      modifies this
      ensures View() == Scheduler.StartNextQueuedUpload(old(View()), disk)
      decreases Queued(View()), 0
    {
      hide BeginUpload;
      if pendingUploadQueue == [] {
        return;
      }
      var nextPath := pendingUploadQueue[0];
      pendingUploadQueue := pendingUploadQueue[1..];
      BeginUploadForLocalPath(nextPath);
    }

    method BeginUploadForLocalPath(localPath: string)
      modifies this
      ensures View() == BeginUpload(old(View()), localPath, disk)
      decreases Queued(View()), 3
    {
      hide Scheduler.StartNextQueuedAction, Scheduler.StartNextQueuedUpload, StartPendingAction, RemotePath.Normalize;
      var present := Exists(localPath);
      if !present {
        uploadBatch := uploadBatch.(completed := uploadBatch.completed + 1, failed := uploadBatch.failed + 1);
        if pendingUploadQueue != [] {
          StartNextQueuedUpload();
          return;
        }
        pending := pending.(action := Idle, localPath := "", activeEntryPath := "");
        uploadBatch := NO_BATCH;
        pendingUploadQueue := [];
        StartNextQueuedAction();
        return;
      }
      var activeEntryPath := RemotePath.NormalizeRemotePath(localPath);
      pending := pending.(localPath := localPath, entryPath := "",
        activeEntryPath := activeEntryPath, action := Upload);
      StartPendingActionIfReady();
    }

    method OpenEntry(remotePath: string)
      modifies this
      ensures View() == Scheduler.OpenEntry(old(View()), remotePath, disk)
      ensures Accounting.Accounted(old(View())) ==> Accounting.Accounted(View())
      decreases Queued(View()), 3
    {
      Kept(View(), SchedulerRuns.AskOpen(remotePath), disk);
      hide StartPendingAction, RemotePath.Normalize;
      var normalizedPath := RemotePath.NormalizeRemotePath(remotePath);
      if normalizedPath == "" || normalizedPath !in entryLookup || entryLookup[normalizedPath] {
        return;
      }
      if pending.action != Idle {
        if normalizedPath == pending.entryPath || normalizedPath == pending.activeEntryPath
           || normalizedPath in pendingOpenQueue {
          return;
        }
        pendingOpenQueue := pendingOpenQueue + [normalizedPath];
        return;
      }
      pending := pending.(entryPath := normalizedPath, localPath := "",
        activeEntryPath := normalizedPath, action := Open);
      StartPendingActionIfReady();
    }

    /** The loop with which downloadEntries, copyEntries and deleteEntries begin. */
    method KnownPaths(remotePaths: seq<string>) returns (paths: seq<string>)
      ensures paths == Known(entryLookup, remotePaths, [])
    {
      paths := [];
      var i := 0;
      while i < |remotePaths|
        invariant 0 <= i <= |remotePaths|
        invariant Known(entryLookup, remotePaths, []) == Known(entryLookup, remotePaths[i..], paths)
      {
        assert remotePaths[i..][1..] == remotePaths[i + 1..];
        var normalizedPath := RemotePath.NormalizeRemotePath(remotePaths[i]);
        if normalizedPath != "" && normalizedPath !in paths && normalizedPath in entryLookup {
          paths := paths + [normalizedPath];
        }
        i := i + 1;
      }
    }

    method CopyEntries(remotePaths: seq<string>)
      modifies this
      ensures View() == Scheduler.CopyEntries(old(View()), remotePaths)
      ensures Accounting.Accounted(old(View())) ==> Accounting.Accounted(View())
      decreases Queued(View()), 3
    {
      Kept(View(), SchedulerRuns.AskCopies(remotePaths), disk);
      hide Known;
      var uniquePaths := KnownPaths(remotePaths);
      if uniquePaths == [] {
        return;
      }
      if pending.action != Idle {
        var duplicateQueueRequest := pending.action == Copy && pending.copyPaths == uniquePaths;
        if !duplicateQueueRequest {
          var i := 0;
          while i < |pendingCopyQueue| && !duplicateQueueRequest
            invariant 0 <= i <= |pendingCopyQueue|
            invariant duplicateQueueRequest <==> uniquePaths in pendingCopyQueue[..i]
          {
            assert pendingCopyQueue[..i + 1] == pendingCopyQueue[..i] + [pendingCopyQueue[i]];
            if pendingCopyQueue[i] == uniquePaths {
              duplicateQueueRequest := true;
            }
            i := i + 1;
          }
          assert duplicateQueueRequest <==> uniquePaths in pendingCopyQueue by {
            assert pendingCopyQueue[..|pendingCopyQueue|] == pendingCopyQueue;
          }
        }
        if !duplicateQueueRequest {
          pendingCopyQueue := pendingCopyQueue + [uniquePaths];
        }
        return;
      }
      var entryPath := if |uniquePaths| == 1 then uniquePaths[0] else "";
      pending := Pending(Copy, entryPath, "", uniquePaths, entryPath);
      exportBatch := ExportBatch(|uniquePaths|, 0);
      moduleCalls := moduleCalls + [CopyToClipboard(uniquePaths)];
    }

    // -------------------------------------------------------------------------------------
    // What the user and the module do
    // -------------------------------------------------------------------------------------

    /** The branch of downloadEntries for a request made while an action is in progress. */
    method QueueDownloads(queue: seq<string>)
      requires queue != [] && pending.action != Idle
      modifies this
      ensures View() ==
        var s := old(View());
        var downloads := Enqueued(s.downloads, s.pendingEntry, s.activeEntry, queue);
        var added := |downloads| - |s.downloads|;
        if added == 0 then s
        else s.(downloads := downloads,
                download :=
                  if s.download.active then s.download.(total := s.download.total + added)
                  else Batch(true, if s.action == Download then 1 + added else added, 0, 0))
    {
      var queuedCount := 0;
      ghost var before := pendingDownloadQueue;
      var i := 0;
      while i < |queue|
        invariant 0 <= i <= |queue|
        invariant View() == old(View()).(downloads := pendingDownloadQueue)
        invariant |pendingDownloadQueue| == |before| + queuedCount && before <= pendingDownloadQueue
        invariant Enqueued(before, pending.entryPath, pending.activeEntryPath, queue)
               == Enqueued(pendingDownloadQueue, pending.entryPath, pending.activeEntryPath, queue[i..])
      {
        assert queue[i..][1..] == queue[i + 1..];
        var path := queue[i];
        if !(path == pending.entryPath || path == pending.activeEntryPath || path in pendingDownloadQueue) {
          pendingDownloadQueue := pendingDownloadQueue + [path];
          queuedCount := queuedCount + 1;
        }
        i := i + 1;
      }
      if queuedCount == 0 {
        return;
      }
      if !downloadBatch.active {
        downloadBatch := Batch(true, if pending.action == Download then 1 + queuedCount else queuedCount, 0, 0);
      } else {
        downloadBatch := downloadBatch.(total := downloadBatch.total + queuedCount);
      }
    }

    method DownloadEntries(remotePaths: seq<string>)
      modifies this
      ensures View() == Scheduler.DownloadEntries(old(View()), remotePaths, disk)
      ensures Accounting.Accounted(old(View())) ==> Accounting.Accounted(View())
    {
      Kept(View(), SchedulerRuns.AskDownloads(remotePaths), disk);
      hide Known, Enqueued, BeginDownload, Scheduler.StartNextQueuedDownload;
      var queue := KnownPaths(remotePaths);
      if queue == [] {
        return;
      }
      if pending.action != Idle {
        QueueDownloads(queue);
        return;
      }
      if |queue| == 1 {
        pendingDownloadQueue := [];
        downloadBatch := Batch(false, 1, 0, 0);
        BeginDownloadForPath(queue[0], false);
        return;
      }
      pendingDownloadQueue := queue;
      downloadBatch := Batch(true, |pendingDownloadQueue|, 0, 0);
      StartNextQueuedDownload();
    }

    method UploadLocalEntry(rawPath: string)
      modifies this
      ensures View() == Scheduler.UploadLocalEntry(old(View()), rawPath, disk)
      ensures Accounting.Accounted(old(View())) ==> Accounting.Accounted(View())
    {
      Kept(View(), SchedulerRuns.AskUpload(rawPath), disk);
      hide RemotePath.Trimmed, Scheduler.StartNextQueuedUpload;
      var localPath := RemotePath.Trimmed(rawPath);
      if localPath == "" {
        return;
      }
      var present := Exists(localPath);
      if !present {
        return;
      }
      if localPath in pendingUploadQueue || pending.localPath == localPath {
        return;
      }
      if !uploadBatch.active {
        uploadBatch := Batch(true, 0, 0, 0);
      }
      pendingUploadQueue := pendingUploadQueue + [localPath];
      uploadBatch := uploadBatch.(total := uploadBatch.total + 1);
      if pending.action != Idle {
        return;
      }
      StartNextQueuedUpload();
    }

    method DeleteEntries(remotePaths: seq<string>)
      modifies this
      ensures View() == Scheduler.DeleteEntries(old(View()), remotePaths)
      ensures Accounting.Accounted(old(View())) ==> Accounting.Accounted(View())
    {
      Kept(View(), SchedulerRuns.AskDeletes(remotePaths), disk);
      hide Known;
      var uniquePaths := KnownPaths(remotePaths);
      if uniquePaths == [] || pending.action != Idle {
        return;
      }
      pending := pending.(action := Delete);
      moduleCalls := moduleCalls + [DeleteFiles(uniquePaths)];
    }

    method LoadDirectory(remotePath: string)
      modifies this
      ensures View() == Scheduler.LoadDirectory(old(View()), remotePath)
      ensures Accounting.Accounted(old(View())) ==> Accounting.Accounted(View())
    {
      Kept(View(), SchedulerRuns.AskBrowse(remotePath), disk);
      hide RemotePath.Normalize;
      var normalizedPath := RemotePath.NormalizeRemotePath(remotePath);
      if normalizedPath == "" {
        return;
      }
      currentRemotePath := normalizedPath;
      moduleCalls := moduleCalls + [List(normalizedPath)];
    }

    method ClearQueues()
      modifies this`pendingDownloadQueue, this`pendingUploadQueue, this`pendingCopyQueue, this`pendingOpenQueue
      ensures pendingDownloadQueue == [] && pendingUploadQueue == [] && pendingCopyQueue == [] && pendingOpenQueue == []
    {
      pendingDownloadQueue := [];
      pendingUploadQueue := [];
      pendingCopyQueue := [];
      pendingOpenQueue := [];
    }

    method OnDisconnected()
      modifies this
      ensures View() == Disconnected(old(View()))
      ensures Accounting.Accounted(old(View())) ==> Accounting.Accounted(View())
    {
      Kept(View(), SchedulerRuns.Disconnect, disk);
      ClearQueues();
      pending := pending.(action := Idle, entryPath := "", localPath := "", activeEntryPath := "");
      downloadBatch := downloadBatch.(active := false);
      uploadBatch := uploadBatch.(active := false);
      entryLookup := map[];
    }

    method OnDirectoryEntries(path: string, entries: map<string, bool>)
      modifies this
      ensures View() == DirectoryListed(old(View()), path, entries, disk)
      ensures Accounting.Accounted(old(View())) ==> Accounting.Accounted(View())
    {
      Kept(View(), SchedulerRuns.Listed(path, entries), disk);
      hide Scheduler.StartNextQueuedAction, RemotePath.Normalize;
      var eventPath := RemotePath.NormalizeRemotePath(path);
      if eventPath != currentRemotePath {
        return;
      }
      entryLookup := entries;
      StartNextQueuedAction();
    }

    method OnEntryTransferResult(entryPath: string, success: bool)
      modifies this
      ensures View() == TransferEnded(old(View()), entryPath, success, disk)
      ensures Accounting.Accounted(old(View())) ==>
        (Accounting.Accounted(View()) <==> !SchedulerRuns.MixesUp(old(View()),
          SchedulerRuns.Transferred(entryPath, success)))
    {
      Kept(View(), SchedulerRuns.Transferred(entryPath, success), disk);
      hide Scheduler.StartNextQueuedAction, Scheduler.StartNextQueuedUpload, Scheduler.StartNextQueuedDownload,
        DownloadEnded, RemotePath.Normalize;
      if pending.action == Idle {
        return;
      }
      var completedAction := pending.action;
      if pending.activeEntryPath != "" && entryPath != pending.activeEntryPath {
        return;
      }
      if pending.action == Copy {
        exportBatch := exportBatch.(completed := exportBatch.completed + 1);
        return;
      }
      if pending.action == Upload {
        OnUploadResult(success);
      } else if pending.action == Open {
        pending := Pending(Idle, "", "", [], "");
        StartNextQueuedAction();
      } else {
        OnDownloadResult(success, completedAction);
      }
    }

    /** The handling of a transfer result while uploading. */
    method OnUploadResult(success: bool)
      requires pending.action == Upload
      modifies this
      ensures View() ==
        var counted := old(View()).(upload := Counted(old(View()).upload, success));
        var refreshed := if success then Scheduler.LoadDirectory(counted, counted.currentPath) else counted;
        if refreshed.uploads != [] then Scheduler.StartNextQueuedUpload(refreshed, disk)
        else Scheduler.StartNextQueuedAction(Settled(refreshed).(upload := NO_BATCH), disk)
    {
      hide Scheduler.StartNextQueuedAction, Scheduler.StartNextQueuedUpload, RemotePath.Normalize;
      uploadBatch := uploadBatch.(completed := uploadBatch.completed + 1);
      if !success {
        uploadBatch := uploadBatch.(failed := uploadBatch.failed + 1);
      }
      if success {
        LoadDirectory(currentRemotePath);
      }
      if pendingUploadQueue != [] {
        StartNextQueuedUpload();
        return;
      }
      pending := Pending(Idle, "", "", [], "");
      pendingUploadQueue := [];
      uploadBatch := NO_BATCH;
      StartNextQueuedAction();
    }

    /** The handling of a transfer result in every other case. */
    method OnDownloadResult(success: bool, completedAction: Action)
      modifies this
      ensures View() == DownloadEnded(old(View()), success, disk, completedAction == Download)
    {
      hide Scheduler.StartNextQueuedAction, Scheduler.StartNextQueuedDownload;
      if downloadBatch.active {
        downloadBatch := downloadBatch.(completed := downloadBatch.completed + 1);
        if !success {
          downloadBatch := downloadBatch.(failed := downloadBatch.failed + 1);
        }
        if pendingDownloadQueue != [] {
          StartNextQueuedDownload();
          return;
        }
      }
      pending := Pending(Idle, "", "", [], "");
      if completedAction == Download {
        pendingDownloadQueue := [];
        downloadBatch := NO_BATCH;
      }
      StartNextQueuedAction();
    }

    method OnEntriesCopyResult()
      modifies this
      ensures View() == CopyEnded(old(View()), disk)
      ensures Accounting.Accounted(old(View())) ==> Accounting.Accounted(View())
    {
      Kept(View(), SchedulerRuns.Copied, disk);
      hide Scheduler.StartNextQueuedAction;
      if pending.action != Copy {
        return;
      }
      pending := Pending(Idle, "", "", [], "");
      StartNextQueuedAction();
    }

    method OnEntriesDeleteResult(success: bool)
      modifies this
      ensures View() == DeleteEnded(old(View()), success, disk)
      ensures Accounting.Accounted(old(View())) ==> Accounting.Accounted(View())
    {
      Kept(View(), SchedulerRuns.Deleted(success), disk);
      hide Scheduler.StartNextQueuedAction, RemotePath.Normalize;
      if pending.action != Delete {
        return;
      }
      if success {
        LoadDirectory(currentRemotePath);
      }
      pending := Pending(Idle, "", "", [], "");
      StartNextQueuedAction();
    }

    /** One event, from the user or from the file-share module. */
    method Handle(e: SchedulerRuns.Event)
      modifies this
      ensures View() == SchedulerRuns.Step(old(View()), e, disk)
      ensures Accounting.Accounted(old(View())) ==>
        (Accounting.Accounted(View()) <==> !SchedulerRuns.MixesUp(old(View()), e))
    {
      hide Accounting.Accounted, SchedulerRuns.MixesUp;
      Kept(View(), e, disk);
      match e {
        case AskDownloads(paths) => DownloadEntries(paths);
        case AskUpload(rawPath) => UploadLocalEntry(rawPath);
        case AskOpen(path) => OpenEntry(path);
        case AskCopies(paths) => CopyEntries(paths);
        case AskDeletes(paths) => DeleteEntries(paths);
        case AskBrowse(path) => LoadDirectory(path);
        case Disconnect => OnDisconnected();
        case Listed(path, entries) => OnDirectoryEntries(path, entries);
        case Transferred(entry, success) => OnEntryTransferResult(entry, success);
        case Copied => OnEntriesCopyResult();
        case Deleted(success) => OnEntriesDeleteResult(success);
      }
    }

    /** A run of events: the object keeps its counts as long as no transfer result is mixed up. */
    method HandleAll(events: seq<SchedulerRuns.Event>)
      modifies this
      ensures View() == SchedulerRuns.Run(old(View()), events, disk)
      ensures Accounting.Accounted(old(View())) && SchedulerRuns.NeverMixesUp(old(View()), events, disk) ==>
        Accounting.Accounted(View())
    {
      hide Accounting.Accounted, SchedulerRuns.MixesUp, SchedulerRuns.Step;
      ghost var start := View();
      if Accounting.Accounted(start) {
        SchedulerRuns.RunAccountsExactly(start, events, disk);
      }
      assert events[0..] == events;
      var i := 0;
      while i < |events|
        invariant 0 <= i <= |events|
        invariant SchedulerRuns.Run(start, events, disk) == SchedulerRuns.Run(View(), events[i..], disk)
      {
        assert events[i..][1..] == events[i + 1..];
        Handle(events[i]);
        i := i + 1;
      }
    }

    /** batchTransferProgress, over the reals. */
    function BatchTransferProgress(transferProgress: real): (shown: real)
      reads this
      ensures shown == SchedulerRuns.BatchTransferProgress(View(), transferProgress)
    {
      if downloadBatch.active && downloadBatch.total > 0 then
        (downloadBatch.completed as real + transferProgress) / downloadBatch.total as real
      else if uploadBatch.active && uploadBatch.total > 0 then
        (uploadBatch.completed as real + transferProgress) / uploadBatch.total as real
      else if pending.action == Copy && exportBatch.total > 0 then
        var part := (exportBatch.completed as real + transferProgress) / exportBatch.total as real;
        if part < 1.0 then part else 1.0
      else transferProgress
    }
  }

  // ---------------------------------------------------------------------------------------
  // What the handlers keep
  // ---------------------------------------------------------------------------------------

  /** The counts after an event, as SchedulerRuns has them. */
  lemma Kept(s: State, e: SchedulerRuns.Event, disk: Disk)
    ensures Accounting.Accounted(s) ==>
      (Accounting.Accounted(SchedulerRuns.Step(s, e, disk)) <==> !SchedulerRuns.MixesUp(s, e))
    ensures !e.Transferred? ==> !SchedulerRuns.MixesUp(s, e)
  {
    if Accounting.Accounted(s) {
      hide Accounting.Accounted;
      SchedulerRuns.StepAccountsExactly(s, e, disk);
    }
  }
}
