/** Runs of the transfer scheduler: any sequence of what the user asks for and what the file-share
    module reports.  The counts add up along a run exactly when no transfer result is mistaken for
    one of the queued downloads, and the progress shown is a fraction as long as they do. */
module SchedulerRuns {
  import RemotePath
  import opened Scheduler
  import opened Accounting

  datatype Event =
    | AskDownloads(paths: seq<string>)
    | AskUpload(rawPath: string)
    | AskOpen(path: string)
    | AskCopies(paths: seq<string>)
    | AskDeletes(paths: seq<string>)
    | AskBrowse(path: string)
    | Disconnect
    | Listed(path: string, entries: map<string, bool>)
    | Transferred(entry: string, success: bool)
    | Copied
    | Deleted(success: bool)

  function Step(s: State, e: Event, disk: Disk): State {
    match e
    case AskDownloads(paths) => DownloadEntries(s, paths, disk)
    case AskUpload(rawPath) => UploadLocalEntry(s, rawPath, disk)
    case AskOpen(path) => OpenEntry(s, path, disk)
    case AskCopies(paths) => CopyEntries(s, paths)
    case AskDeletes(paths) => DeleteEntries(s, paths)
    case AskBrowse(path) => LoadDirectory(s, path)
    case Disconnect => Disconnected(s)
    case Listed(path, entries) => DirectoryListed(s, path, entries, disk)
    case Transferred(entry, success) => TransferEnded(s, entry, success, disk)
    case Copied => CopyEnded(s, disk)
    case Deleted(success) => DeleteEnded(s, success, disk)
  }

  // ---------------------------------------------------------------------------------------
  // The counts along a run
  // ---------------------------------------------------------------------------------------

  /** A transfer result arrives while files are being deleted, downloads have been queued
      meanwhile, and the folder still has one of them. */
  predicate MixesUp(s: State, e: Event) {
    && e.Transferred? && s.action == Delete && Accepted(s, e.entry)
    && s.download.active && FirstPresent(s.lookup, s.downloads) < |s.downloads|
  }

  lemma TransferDuringDeletion(s: State, entry: string, success: bool, disk: Disk)
    requires Accounted(s) && s.action == Delete
    ensures Accounted(TransferEnded(s, entry, success, disk)) <==> !MixesUp(s, Transferred(entry, success))
  {
    assert Distinct([]) && Named([]);
    hide Distinct, StartNextQueuedAction, StartNextQueuedUpload, StartNextQueuedDownload;
    if Accepted(s, entry) {
      if s.download.active {
        var counted := s.(download := Counted(s.download, success));
        StartsFirstPresent(counted, disk);
        if FirstPresent(s.lookup, s.downloads) == |s.downloads| {
          StartNextQueuedActionAccounts(DownloadsOver(counted), disk);
        }
      } else {
        StartNextQueuedActionAccounts(Settled(s), disk);
      }
    }
  }

  lemma StepAccountsExactly(s: State, e: Event, disk: Disk)
    requires Accounted(s)
    ensures Accounted(Step(s, e, disk)) <==> !MixesUp(s, e)
  {
    hide Distinct, Named, StartNextQueuedAction, StartNextQueuedUpload, StartNextQueuedDownload, DownloadEntries,
      UploadLocalEntry, OpenEntry, CopyEntries, TransferEnded, FirstPresent;
    match e
    case AskDownloads(paths) => DownloadEntriesAccounts(s, paths, disk);
    case AskUpload(rawPath) => UploadLocalEntryAccounts(s, rawPath, disk);
    case AskOpen(path) => OpenEntryAccounts(s, path, disk);
    case AskCopies(paths) => CopyEntriesAccounts(s, paths);
    case AskDeletes(paths) =>
    case AskBrowse(path) =>
    case Disconnect => DisconnectedAccounts(s);
    case Listed(path, entries) =>
      if RemotePath.Normalize(path) == s.currentPath {
        StartNextQueuedActionAccounts(s.(lookup := entries), disk);
      }
    case Transferred(entry, success) =>
      if s.action == Delete {
        TransferDuringDeletion(s, entry, success, disk);
      } else {
        TransferEndedAccounts(s, entry, success, disk);
      }
    case Copied =>
      if s.action == Copy {
        StartNextQueuedActionAccounts(Settled(s), disk);
      }
    case Deleted(success) =>
      if s.action == Delete {
        StartNextQueuedActionAccounts(Settled(if success then LoadDirectory(s, s.currentPath) else s), disk);
      }
  }

  function Run(s: State, events: seq<Event>, disk: Disk): State
    decreases |events|
  {
    if events == [] then s else Run(Step(s, events[0], disk), events[1..], disk)
  }

  predicate AlwaysAccounted(s: State, events: seq<Event>, disk: Disk)
    decreases |events|
  {
    Accounted(s) && (events != [] ==> AlwaysAccounted(Step(s, events[0], disk), events[1..], disk))
  }

  predicate NeverMixesUp(s: State, events: seq<Event>, disk: Disk)
    decreases |events|
  {
    events != [] ==> !MixesUp(s, events[0]) && NeverMixesUp(Step(s, events[0], disk), events[1..], disk)
  }

  /** The accounting claim, for every run: it holds throughout exactly when nothing is mixed up. */
  lemma {:induction false} RunAccountsExactly(s: State, events: seq<Event>, disk: Disk)
    requires Accounted(s)
    ensures AlwaysAccounted(s, events, disk) <==> NeverMixesUp(s, events, disk)
    ensures NeverMixesUp(s, events, disk) ==> Accounted(Run(s, events, disk))
    decreases |events|
  {
    hide Step, Accounted, MixesUp;
    if events != [] {
      StepAccountsExactly(s, events[0], disk);
      var next := Step(s, events[0], disk);
      if !MixesUp(s, events[0]) {
        RunAccountsExactly(next, events[1..], disk);
      }
    }
  }

  function Initial(currentPath: string): State {
    State(Idle, map[], currentPath, [], [], [], [], "", "", [], "", NO_BATCH, NO_BATCH, 0, 0, 0, [])
  }

  lemma InitiallyAccounted(currentPath: string)
    ensures Accounted(Initial(currentPath))
  {
  }

  // ---------------------------------------------------------------------------------------
  // The progress shown
  // ---------------------------------------------------------------------------------------

  function BatchTransferProgress(s: State, transferProgress: real): real {
    if s.download.active && s.download.total > 0 then
      (s.download.completed as real + transferProgress) / s.download.total as real
    else if s.upload.active && s.upload.total > 0 then
      (s.upload.completed as real + transferProgress) / s.upload.total as real
    else if s.action == Copy && s.exportTotal > 0 then
      var shown := (s.exportCompleted as real + transferProgress) / s.exportTotal as real;
      if shown < 1.0 then shown else 1.0
    else transferProgress
  }

  lemma Fraction(completed: int, progress: real, total: int)
    requires 0 <= completed < total && 0.0 <= progress <= 1.0
    ensures 0.0 <= (completed as real + progress) / total as real <= 1.0
  {
    var part, whole := completed as real + progress, total as real;
    assert 0.0 <= part <= whole && 0.0 < whole;
    assert part / whole * whole == part;
  }

  lemma ProgressIsAFraction(s: State, transferProgress: real)
    requires Accounted(s) && 0.0 <= transferProgress <= 1.0
    ensures 0.0 <= BatchTransferProgress(s, transferProgress) <= 1.0
  {
    if s.download.active {
      Fraction(s.download.completed, transferProgress, s.download.total);
    } else if s.upload.active {
      Fraction(s.upload.completed, transferProgress, s.upload.total);
    } else if s.action == Copy && s.exportTotal > 0 {
      var part, whole := s.exportCompleted as real + transferProgress, s.exportTotal as real;
      assert part / whole * whole == part;
    }
  }

  lemma RunFirst(s: State, e: Event, rest: seq<Event>, disk: Disk)
    ensures Run(s, [e] + rest, disk) == Run(Step(s, e, disk), rest, disk)
  {
    hide Step;
    assert ([e] + rest)[1..] == rest;
  }

  lemma KnownAlone(lookup: map<string, bool>, path: string)
    requires path in lookup && RemotePath.InNormalForm(path) && path != "" && !RemotePath.IsSpace(path[|path| - 1])
    ensures Known(lookup, [path], []) == [path]
  {
    RemotePath.NormalFormIsFixed(path);
    hide RemotePath.Normalize;
    assert [path][1..] == [];
  }

  function Deleting(): State {
    Initial("/").(lookup := map["/a" := false, "/b" := false], action := Delete, calls := [DeleteFiles(["/a"])])
  }

  function DeletingWithQueue(): State {
    Deleting().(downloads := ["/b"], download := Batch(true, 1, 0, 0))
  }

  lemma QueuedBehindDeletion(disk: Disk)
    ensures Step(Initial("/").(lookup := map["/a" := false, "/b" := false]), AskDeletes(["/a"]), disk) == Deleting()
  {
    KnownAlone(map["/a" := false, "/b" := false], "/a");
    hide Known, RemotePath.Normalize;
  }

  lemma EnqueuedAlone(path: string)
    requires path != ""
    ensures Enqueued([], "", "", [path]) == [path]
  {
    assert [path][1..] == [];
    assert Enqueued([path], "", "", []) == [path];
  }

  lemma QueuesBehindDeletion(disk: Disk)
    ensures Step(Deleting(), AskDownloads(["/b"]), disk) == DeletingWithQueue()
  {
    hide Known, Enqueued, RemotePath.Normalize, RemotePath.InNormalForm, BeginDownload, StartNextQueuedDownload;
    SlashNameIsNormal();
    KnownAlone(map["/a" := false, "/b" := false], "/b");
    EnqueuedAlone("/b");
  }

  lemma SlashNameIsNormal()
    ensures RemotePath.InNormalForm("/b") && !RemotePath.IsSpace('b')
  {
  }

  /** A mix-up can happen: while one file is deleted, the download of another is asked for, and
      a late transfer result arrives. */
  lemma MixUpExample(disk: Disk)
    ensures var s := Initial("/").(lookup := map["/a" := false, "/b" := false]);
      MixesUp(Run(s, [AskDeletes(["/a"]), AskDownloads(["/b"])], disk), Transferred("/x", false))
  {
    var s := Initial("/").(lookup := map["/a" := false, "/b" := false]);
    QueuedBehindDeletion(disk);
    QueuesBehindDeletion(disk);
    RunFirst(s, AskDeletes(["/a"]), [AskDownloads(["/b"])], disk);
    RunFirst(Deleting(), AskDownloads(["/b"]), [], disk);
    assert [AskDeletes(["/a"])] + [AskDownloads(["/b"])] == [AskDeletes(["/a"]), AskDownloads(["/b"])];
    assert [AskDownloads(["/b"])] + [] == [AskDownloads(["/b"])];
    hide Step;
    assert FirstPresent(DeletingWithQueue().lookup, ["/b"]) == 0;
  }

  lemma AboveOne(part: real, whole: real)
    requires part > whole > 0.0
    ensures part / whole > 1.0
  {
    var q := part / whole;
    assert q * whole == part;
    assert (q - 1.0) * whole > 0.0;
  }

  /** After a mix-up the batch counts one transfer too many, and when the last queued download is
      the one that was started, the progress shown is above one while it runs. */
  lemma MixUpOvershoots(s: State, e: Event, transferProgress: real, disk: Disk)
    requires Accounted(s) && MixesUp(s, e) && 0.0 < transferProgress
    ensures var t := Step(s, e, disk);
      && t.action == Download && t.download.active
      && t.download.total == t.download.completed + |t.downloads|
      && (t.downloads == [] ==> BatchTransferProgress(t, transferProgress) > 1.0)
  {
    var counted := s.(download := Counted(s.download, e.success));
    StartsFirstPresent(counted, disk);
    hide Distinct, Named, StartNextQueuedDownload, StartNextQueuedAction, FirstPresent;
    var t := Step(s, e, disk);
    var part, whole := t.download.completed as real + transferProgress, t.download.total as real;
    if t.downloads == [] {
      AboveOne(part, whole);
    }
  }
}
