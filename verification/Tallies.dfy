/** What the transfer scheduler has in progress is what it asked for last, and what its batches have
    counted is what was asked for and what succeeded. */
module Tallies {
  import RemotePath
  import opened Scheduler
  import opened Accounting
  import opened Selection
  import opened SchedulerRuns
  import opened Turns
  import opened DownloadOrder
  import opened QueueOrder

  // ---------------------------------------------------------------------------------------
  // What is in progress
  // ---------------------------------------------------------------------------------------

  /** The last call that is not for a listing, if there is one. */
  function LastWork(calls: seq<Call>): Call {
    if calls == [] then List("")
    else
      var last := calls[|calls| - 1];
      if last.List? then LastWork(calls[..|calls| - 1]) else last
  }

  lemma LastOfMore(calls: seq<Call>, c: Call)
    ensures LastWork(calls + [c]) == if c.List? then LastWork(calls) else c
  {
    assert (calls + [c])[..|calls|] == calls;
  }

  /** The action in progress, and the path whose result is accepted, are those of the last call. */
  predicate InProgress(s: State) {
    var work := LastWork(s.calls);
    match s.action
    case Idle => true
    case Download => s.pendingEntry != "" && s.activeEntry == s.pendingEntry && work == Fetch(s.pendingEntry)
    case Open => s.pendingEntry != "" && s.activeEntry == s.pendingEntry && work == OpenFile(s.pendingEntry)
    case Copy =>
      && s.pendingCopies != [] && work == CopyToClipboard(s.pendingCopies) && s.exportTotal == |s.pendingCopies|
      && s.activeEntry == if |s.pendingCopies| == 1 then s.pendingCopies[0] else ""
    case Upload =>
      && s.pendingLocal != "" && work.Post? && work.local == s.pendingLocal
      && s.activeEntry == RemotePath.Normalize(s.pendingLocal)
    case Delete => work.DeleteFiles?
  }

  /** What waits has a name and belongs to a batch. */
  predicate Queues(s: State) {
    && Named(s.downloads) && Named(s.uploads)
    && (s.downloads != [] ==> s.download.active) && (s.uploads != [] ==> s.upload.active)
  }

  // ---------------------------------------------------------------------------------------
  // What a batch has counted
  // ---------------------------------------------------------------------------------------

  /** If the batch is still going on, it has `added` more transfers and `succeeded` more successes. */
  predicate Tally(a: Batch, b: Batch, added: int, succeeded: int) {
    b.active ==> && a.active && b.total == a.total + added
                 && b.completed - b.failed == a.completed - a.failed + succeeded
  }

  /** The batches and the folder's content are as they were, but for what has been passed over. */
  predicate Carried(s: State, t: State) {
    Tally(s.download, t.download, 0, 0) && Tally(s.upload, t.upload, 0, 0) && t.lookup == s.lookup
  }

  predicate Begun(s: State, t: State) {
    Carried(s, t) && Queues(t) && InProgress(t)
  }

  /** The folder's content is what came last for it, and nothing after a lost connection. */
  function Folder(s: State, e: Event): map<string, bool> {
    match e
    case Listed(path, entries) => if RemotePath.Normalize(path) == s.currentPath then entries else s.lookup
    case Disconnect => map[]
    case _ => s.lookup
  }

  predicate Orderly(s: State, e: Event, t: State) {
    Queues(t) && InProgress(t) && t.lookup == Folder(s, e)
  }

  lemma BegunOn(s: State, m: State, t: State)
    requires Carried(s, m) && Begun(m, t)
    ensures Begun(s, t)
  {
    hide Queues, InProgress;
  }

  // ---------------------------------------------------------------------------------------
  // Starting work
  // ---------------------------------------------------------------------------------------

  lemma ActionBegins(s: State, disk: Disk)
    requires Queues(s) && InProgress(s)
    ensures Begun(s, StartNextQueuedAction(s, disk))
    decreases |s.downloads| + |s.uploads|, 1
  {
    hide StartNextQueuedDownload, StartNextQueuedUpload, OpenEntry, CopyEntries, Named, LastWork, RemotePath.Normalize;
    if s.action == Idle {
      if s.downloads != [] {
        DownloadBegins(s, disk);
      } else if s.opens != [] {
        OpenBegins(s.(opens := s.opens[1..]), s.opens[0], disk);
      } else if s.copies != [] {
        CopyBegins(s.(copies := s.copies[1..]), s.copies[0]);
      } else if s.uploads != [] {
        UploadBegins(s, disk);
      }
    }
  }

  lemma OpenBegins(s: State, remotePath: string, disk: Disk)
    requires Queues(s) && InProgress(s)
    ensures Begun(s, OpenEntry(s, remotePath, disk))
  {
    hide Named, LastWork, RemotePath.Normalize, StartPendingAction;
    if s.action == Idle {
      OpensAtOnce(s, remotePath, disk);
      LastOfMore(s.calls, OpenFile(RemotePath.Normalize(remotePath)));
    }
  }

  lemma CopyBegins(s: State, paths: seq<string>)
    requires Queues(s) && InProgress(s)
    ensures Begun(s, CopyEntries(s, paths))
  {
    hide Named, LastWork, Known, RemotePath.Normalize;
    LastOfMore(s.calls, CopyToClipboard(Known(s.lookup, paths, [])));
  }

  lemma DownloadBegins(s: State, disk: Disk)
    requires Queues(s) && s.downloads != []
    ensures Begun(s, StartNextQueuedDownload(s, disk))
    decreases |s.downloads| + |s.uploads|, 0
  {
    hide FirstPresent, StartNextQueuedDownload, StartNextQueuedAction, LastWork, RemotePath.Normalize;
    StartsFirstPresent(s, disk);
    var k := FirstPresent(s.lookup, s.downloads);
    if k < |s.downloads| {
      var path, rest := s.downloads[k], s.downloads[k + 1..];
      assert Named(rest) && path != "" by { assert forall i :: 0 <= i < |rest| ==> rest[i] == s.downloads[k + 1 + i]; }
      hide Named;
      LastOfMore(s.calls, Fetch(path));
    } else {
      assert Named([]);
      hide Named;
      ActionBegins(DownloadsOver(s), disk);
      assert Carried(s, DownloadsOver(s));
      BegunOn(s, DownloadsOver(s), StartNextQueuedAction(DownloadsOver(s), disk));
    }
  }

  lemma UploadBegins(s: State, disk: Disk)
    requires Queues(s) && s.uploads != []
    ensures Begun(s, StartNextQueuedUpload(s, disk))
    decreases |s.downloads| + |s.uploads|, 0
  {
    hide FirstExisting, StartNextQueuedUpload, StartNextQueuedAction, LastWork, RemotePath.Normalize;
    var over := StartsFirstExisting(s, disk);
    var k := FirstExisting(|s.uploads|, s.clock, disk);
    if k < |s.uploads| {
      var local, rest := s.uploads[k], s.uploads[k + 1..];
      assert Named(rest) && local != "" by { assert forall i :: 0 <= i < |rest| ==> rest[i] == s.uploads[k + 1 + i]; }
      hide Named;
      LastOfMore(s.calls, Post(local, s.currentPath));
    } else {
      assert Named([]);
      hide Named;
      ActionBegins(over, disk);
      BegunOn(s, over, StartNextQueuedAction(over, disk));
    }
  }

  // ---------------------------------------------------------------------------------------
  // One event
  // ---------------------------------------------------------------------------------------

  /** A result is accepted and says that the transfer succeeded. */
  function Succeeded(s: State, e: Event, during: set<Action>): nat {
    if e.Transferred? && e.success && Accepted(s, e.entry) && s.action in during then 1 else 0
  }

  /** The batch that goes on, or is begun; a single download that is running joins the batch. */
  function Base(b: Batch, running: nat): Batch {
    if b.active then b else Batch(true, running, 0, 0)
  }

  predicate UploadsTally(s: State, e: Event, t: State, disk: Disk) {
    Tally(Base(s.upload, 0), t.upload, |AskedUploads(s, e, disk)|, Succeeded(s, e, {Upload}))
  }

  /** While files are being deleted results are counted for the downloads, too. */
  predicate DownloadsTally(s: State, e: Event, t: State) {
    Tally(Base(s.download, Running(s, Download)), t.download, |Requested(s, e)|, Succeeded(s, e, {Download, Delete}))
  }

  /** No upload and no download is asked for, and none has succeeded. */
  lemma Uncounted(s: State, e: Event, t: State, disk: Disk)
    requires !e.AskUpload? && !e.AskDownloads? && !e.Transferred?
    requires Tally(s.download, t.download, 0, 0) && Tally(s.upload, t.upload, 0, 0)
    ensures UploadsTally(s, e, t, disk) && DownloadsTally(s, e, t)
  {
  }

  lemma DownloadsTallied(s: State, paths: seq<string>, disk: Disk)
    requires Queues(s) && InProgress(s)
    ensures var e, t := AskDownloads(paths), DownloadEntries(s, paths, disk);
      Orderly(s, e, t) && UploadsTally(s, e, t, disk) && (Accounted(s) ==> DownloadsTally(s, e, t))
  {
    hide RemotePath.Normalize, LastWork, StartNextQueuedDownload, BeginDownload, Normalized, Enqueued, Known, Unasked,
      Selected, Distinct, DownloadEntries;
    var selected := Selected(s.lookup, Normalized(paths));
    SelectedDistinct(s.lookup, paths);
    if s.action == Idle {
      DownloadsAtOnce(s, paths, disk);
      if selected != [] {
        assert Named(selected[1..]) by {
          assert forall i :: 0 <= i < |selected[1..]| ==> selected[1..][i] == selected[i + 1];
        }
        LastOfMore(s.calls, Fetch(selected[0]));
      }
    } else {
      BusyDownloads(s, paths, disk);
    }
  }

  /** Downloads asked for while something is in progress. */
  lemma BusyDownloads(s: State, paths: seq<string>, disk: Disk)
    requires Queues(s) && InProgress(s) && s.action != Idle
    ensures var e, t := AskDownloads(paths), DownloadEntries(s, paths, disk);
      Orderly(s, e, t) && UploadsTally(s, e, t, disk) && DownloadsTally(s, e, t)
  {
    hide RemotePath.Normalize, LastWork, StartNextQueuedDownload, BeginDownload, Normalized, Enqueued, Known,
      Selected, Distinct;
    var selected := Selected(s.lookup, Normalized(paths));
    SelectedDistinct(s.lookup, paths);
    EnqueuedIs(s.downloads, s.pendingEntry, s.activeEntry, selected);
    RequestedIsNamed(s, AskDownloads(paths));
    var unasked := Unasked(s.downloads, s.pendingEntry, s.activeEntry, selected);
    assert Requested(s, AskDownloads(paths)) == unasked;
    assert Named(s.downloads + unasked);
    assert selected == [] ==> unasked == [];
    hide Named;
    if |unasked| == 0 {
      assert s.downloads + unasked == s.downloads;
    }
  }

  lemma UploadTallied(s: State, rawPath: string, disk: Disk)
    requires Queues(s) && InProgress(s)
    ensures var e, t := AskUpload(rawPath), UploadLocalEntry(s, rawPath, disk);
      Orderly(s, e, t) && UploadsTally(s, e, t, disk) && DownloadsTally(s, e, t)
  {
    hide RemotePath.Normalize, RemotePath.Trimmed, LastWork, Named, StartNextQueuedUpload;
    var local := RemotePath.Trimmed(rawPath);
    if AskedUploads(s, AskUpload(rawPath), disk) != [] {
      var batch := if s.upload.active then s.upload else Batch(true, 0, 0, 0);
      var queued := Looked(s).(uploads := s.uploads + [local], upload := batch.(total := batch.total + 1));
      assert Named(queued.uploads) by { OneMoreName(s.uploads, local); }
      if s.action == Idle {
        UploadBegins(queued, disk);
      }
    }
  }

  lemma TransferTallied(s: State, entry: string, success: bool, disk: Disk)
    requires Queues(s) && InProgress(s)
    ensures var e, t := Transferred(entry, success), TransferEnded(s, entry, success, disk);
      Orderly(s, e, t) && UploadsTally(s, e, t, disk) && DownloadsTally(s, e, t)
  {
    hide Queues, InProgress, StartNextQueuedUpload, StartNextQueuedAction, DownloadEnded, LoadDirectory;
    if Accepted(s, entry) {
      if s.action == Copy {
        CopyTallied(s);
      } else if s.action == Upload {
        UploadEndTallied(s, success, disk);
      } else if s.action == Open {
        OpenEndTallied(s, disk);
      } else {
        DownloadEndTallied(s, success, disk, s.action == Download);
      }
    }
  }

  lemma CopyTallied(s: State)
    requires Queues(s) && InProgress(s)
    ensures var t := s.(exportCompleted := s.exportCompleted + 1); Queues(t) && InProgress(t)
  {
    hide RemotePath.Normalize, LastWork, Named;
  }

  lemma OpenEndTallied(s: State, disk: Disk)
    requires Queues(s)
    ensures Begun(s, StartNextQueuedAction(Settled(s), disk))
  {
    hide RemotePath.Normalize, LastWork, Named, StartNextQueuedAction;
    ActionBegins(Settled(s), disk);
  }

  lemma UploadEndTallied(s: State, success: bool, disk: Disk)
    requires Queues(s)
    ensures var counted := s.(upload := Counted(s.upload, success));
      var refreshed := if success then LoadDirectory(counted, s.currentPath) else counted;
      var t := if s.uploads != [] then StartNextQueuedUpload(refreshed, disk)
               else StartNextQueuedAction(Settled(refreshed).(upload := NO_BATCH), disk);
      && Queues(t) && InProgress(t) && t.lookup == s.lookup && Tally(s.download, t.download, 0, 0)
      && Tally(s.upload, t.upload, 0, if success then 1 else 0)
  {
    hide RemotePath.Normalize, LastWork, Named, StartNextQueuedUpload, StartNextQueuedAction;
    var counted := s.(upload := Counted(s.upload, success));
    var refreshed := if success then LoadDirectory(counted, s.currentPath) else counted;
    if s.uploads != [] {
      UploadBegins(refreshed, disk);
    } else {
      ActionBegins(Settled(refreshed).(upload := NO_BATCH), disk);
    }
  }

  lemma DownloadEndTallied(s: State, success: bool, disk: Disk, wasDownload: bool)
    requires Queues(s)
    ensures var t := DownloadEnded(s, success, disk, wasDownload);
      && Queues(t) && InProgress(t) && t.lookup == s.lookup && Tally(s.upload, t.upload, 0, 0)
      && Tally(s.download, t.download, 0, if success then 1 else 0)
  {
    assert Named([]) by { NoNames(); }
    hide RemotePath.Normalize, LastWork, Named, StartNextQueuedDownload, StartNextQueuedAction;
    var counted := if s.download.active then s.(download := Counted(s.download, success)) else s;
    if s.download.active && s.downloads != [] {
      DownloadBegins(counted, disk);
    } else {
      var settled := Settled(counted);
      ActionBegins(if wasDownload then settled.(downloads := [], download := NO_BATCH) else settled, disk);
    }
  }

  lemma LoadKeeps(s: State, remotePath: string)
    requires Queues(s) && InProgress(s)
    ensures Begun(s, LoadDirectory(s, remotePath))
  {
    hide RemotePath.Normalize, LastWork, Named;
    LastOfMore(s.calls, List(RemotePath.Normalize(remotePath)));
  }

  lemma DeleteBegins(s: State, paths: seq<string>)
    requires Queues(s) && InProgress(s)
    ensures Begun(s, DeleteEntries(s, paths))
  {
    hide RemotePath.Normalize, LastWork, Named, Known;
    LastOfMore(s.calls, DeleteFiles(Known(s.lookup, paths, [])));
  }

  /** From a state with the same batches and queues, in which nothing is in progress any more. */
  lemma NextTallied(s: State, from: State, disk: Disk)
    requires Queues(s) && InProgress(from) && from.downloads == s.downloads && from.uploads == s.uploads
    requires from.download == s.download && from.upload == s.upload
    ensures Begun(from, StartNextQueuedAction(from, disk))
    ensures from.lookup == s.lookup ==> Begun(s, StartNextQueuedAction(from, disk))
  {
    hide Named, StartNextQueuedAction, LastWork, RemotePath.Normalize;
    ActionBegins(from, disk);
  }

  /** In every step that the event takes, what is in progress is what was asked for last, and the
      batches count what was asked for and what succeeded. */
  lemma StepTallies(s: State, e: Event, disk: Disk)
    requires Queues(s) && InProgress(s)
    ensures var t := Step(s, e, disk);
      Orderly(s, e, t) && UploadsTally(s, e, t, disk) && (Accounted(s) ==> DownloadsTally(s, e, t))
  {
    assert Named([]) by { NoNames(); }
    hide Named, RemotePath.Normalize, LastWork, StartNextQueuedAction, DownloadEntries, UploadLocalEntry, OpenEntry,
      CopyEntries, DeleteEntries, LoadDirectory, TransferEnded, UploadsTally, DownloadsTally, Accounted;
    var t := Step(s, e, disk);
    match e
    case AskDownloads(paths) => DownloadsTallied(s, paths, disk);
    case AskUpload(rawPath) => UploadTallied(s, rawPath, disk);
    case Transferred(entry, success) => TransferTallied(s, entry, success, disk);
    case _ =>
      RestBegins(s, e, disk);
      Uncounted(s, e, t, disk);
  }

  lemma RestBegins(s: State, e: Event, disk: Disk)
    requires Queues(s) && InProgress(s) && !e.AskUpload? && !e.AskDownloads? && !e.Transferred?
    ensures var t := Step(s, e, disk);
      Orderly(s, e, t) && Tally(s.download, t.download, 0, 0) && Tally(s.upload, t.upload, 0, 0)
  {
    assert Named([]) by { NoNames(); }
    hide Named, RemotePath.Normalize, LastWork, StartNextQueuedAction, OpenEntry, CopyEntries, DeleteEntries,
      LoadDirectory, DeleteEnded;
    match e
    case AskOpen(path) => OpenBegins(s, path, disk);
    case AskCopies(paths) => CopyBegins(s, paths);
    case AskDeletes(paths) => DeleteBegins(s, paths);
    case AskBrowse(path) => LoadKeeps(s, path);
    case Disconnect =>
    case Listed(path, entries) =>
      if RemotePath.Normalize(path) == s.currentPath { NextTallied(s, s.(lookup := entries), disk); }
    case Copied => if s.action == Copy { NextTallied(s, Settled(s), disk); }
    case Deleted(success) => DeleteEndBegins(s, success, disk);
  }

  lemma DeleteEndBegins(s: State, success: bool, disk: Disk)
    requires Queues(s) && InProgress(s)
    ensures Begun(s, DeleteEnded(s, success, disk))
  {
    hide Named, RemotePath.Normalize, LastWork, StartNextQueuedAction, LoadDirectory;
    if s.action == Delete {
      LoadKeeps(s, s.currentPath);
      var listed := if success then LoadDirectory(s, s.currentPath) else s;
      NextTallied(listed, Settled(listed), disk);
      BegunOn(s, listed, StartNextQueuedAction(Settled(listed), disk));
    }
  }

  /** While files are being copied, nothing but the end of it or of the connection changes which, and
      the copies count as many results as were accepted. */
  lemma StepCopies(s: State, e: Event, disk: Disk)
    requires s.action == Copy && !e.Copied? && !e.Disconnect?
    ensures var t := Step(s, e, disk);
      && t.action == Copy && t.pendingCopies == s.pendingCopies && t.exportTotal == s.exportTotal
      && t.exportCompleted == s.exportCompleted + if e.Transferred? && Accepted(s, e.entry) then 1 else 0
  {
    hide RemotePath.Normalize, RemotePath.Trimmed, Known, Enqueued, StartNextQueuedUpload, StartNextQueuedDownload,
      BeginDownload, StartPendingAction;
  }

  // ---------------------------------------------------------------------------------------
  // Over a run
  // ---------------------------------------------------------------------------------------

  /** After any run from an orderly state, what is in progress is what was asked for last. */
  lemma {:induction false} RunInProgress(s: State, events: seq<Event>, disk: Disk)
    requires Queues(s) && InProgress(s)
    ensures Queues(Run(s, events, disk)) && InProgress(Run(s, events, disk))
    decreases |events|
  {
    hide Step, Queues, InProgress, UploadsTally, DownloadsTally, Accounted;
    if events != [] {
      StepTallies(s, events[0], disk);
      RunInProgress(Step(s, events[0], disk), events[1..], disk);
    }
  }

  function Accepts(s: State, events: seq<Event>, disk: Disk): nat
    decreases |events|
  {
    if events == [] then 0
    else
      (if events[0].Transferred? && Accepted(s, events[0].entry) then 1 else 0)
      + Accepts(Step(s, events[0], disk), events[1..], disk)
  }

  /** Over any run during a copy, its progress counts the results accepted. */
  lemma {:induction false} RunCopies(s: State, events: seq<Event>, disk: Disk)
    requires s.action == Copy && forall i :: 0 <= i < |events| ==> !events[i].Copied? && !events[i].Disconnect?
    ensures var t := Run(s, events, disk);
      && t.action == Copy && t.pendingCopies == s.pendingCopies && t.exportTotal == s.exportTotal
      && t.exportCompleted == s.exportCompleted + Accepts(s, events, disk)
    decreases |events|
  {
    hide Step, Accepted;
    if events != [] {
      StepCopies(s, events[0], disk);
      assert forall i :: 0 <= i < |events[1..]| ==> events[1..][i] == events[i + 1];
      RunCopies(Step(s, events[0], disk), events[1..], disk);
    }
  }

  predicate UploadsGoOn(s: State, events: seq<Event>, disk: Disk)
    decreases |events|
  {
    s.upload.active && (events != [] ==> UploadsGoOn(Step(s, events[0], disk), events[1..], disk))
  }

  predicate DownloadsGoOn(s: State, events: seq<Event>, disk: Disk)
    decreases |events|
  {
    s.download.active && (events != [] ==> DownloadsGoOn(Step(s, events[0], disk), events[1..], disk))
  }

  function AllSucceeded(s: State, events: seq<Event>, during: set<Action>, disk: Disk): nat
    decreases |events|
  {
    if events == [] then 0
    else Succeeded(s, events[0], during) + AllSucceeded(Step(s, events[0], disk), events[1..], during, disk)
  }

  /** While a batch of uploads goes on, its size is that of all that was asked for, and its transfers that
      did not fail are those of which a success was reported. */
  lemma {:induction false} UploadBatchCounts(s: State, events: seq<Event>, disk: Disk)
    requires Queues(s) && InProgress(s) && UploadsGoOn(s, events, disk)
    ensures Tally(s.upload, Run(s, events, disk).upload,
      |AllUploads(s, events, disk)|, AllSucceeded(s, events, {Upload}, disk))
    decreases |events|
  {
    hide Step, Queues, InProgress, DownloadsTally, Accounted, AskedUploads, Succeeded;
    if events != [] {
      StepTallies(s, events[0], disk);
      UploadBatchCounts(Step(s, events[0], disk), events[1..], disk);
    }
  }

  /** The same for downloads. */
  lemma {:induction false} DownloadBatchCounts(s: State, events: seq<Event>, disk: Disk)
    requires Queues(s) && InProgress(s) && DownloadsGoOn(s, events, disk) && AlwaysAccounted(s, events, disk)
    ensures Tally(s.download, Run(s, events, disk).download,
      |AllRequested(s, events, disk)|, AllSucceeded(s, events, {Download, Delete}, disk))
    decreases |events|
  {
    hide Step, Queues, InProgress, UploadsTally, Accounted, Requested, Succeeded;
    if events != [] {
      StepTallies(s, events[0], disk);
      DownloadBatchCounts(Step(s, events[0], disk), events[1..], disk);
    }
  }
}
