/** What every function and handler of the transfer scheduler keeps: the counts of a batch add up,
    and an idle scheduler has no download waiting.  Also what the mutual recursion comes to. */
module Accounting {
  import RemotePath
  import opened Scheduler

  // ---------------------------------------------------------------------------------------
  // The invariant
  // ---------------------------------------------------------------------------------------

  predicate Distinct(q: seq<string>) {
    forall i, j :: 0 <= i < j < |q| ==> q[i] != q[j]
  }

  predicate Named(q: seq<string>) {
    forall i :: 0 <= i < |q| ==> q[i] != ""
  }

  /** A batch over `queue` with `running` of its transfers in flight. */
  predicate Adds(b: Batch, queue: seq<string>, running: nat) {
    && 0 <= b.failed <= b.completed
    && b.total == b.completed + |queue| + running
  }

  predicate DownloadsAdd(s: State, running: nat) {
    && Distinct(s.downloads) && Named(s.downloads)
    && (s.download.active ==> Adds(s.download, s.downloads, running) && |s.downloads| + running > 0)
    && (!s.download.active ==> s.downloads == [])
  }

  predicate UploadsAdd(s: State, running: nat) {
    && Distinct(s.uploads) && Named(s.uploads)
    && (s.upload.active ==> Adds(s.upload, s.uploads, running) && |s.uploads| + running > 0)
    && (!s.upload.active ==> s.uploads == [] && running == 0)
  }

  function Running(s: State, a: Action): nat {
    if s.action == a then 1 else 0
  }

  /** Between handlers: both batches add up, and an idle scheduler has no download waiting. */
  predicate Accounted(s: State) {
    || (s.action == Idle && s.downloads == [] && DownloadsAdd(s, 0) && UploadsAdd(s, 0))
    || (s.action != Idle && DownloadsAdd(s, Running(s, Download)) && UploadsAdd(s, Running(s, Upload))
        && (s.action == Upload ==> s.pendingLocal != ""))
  }

  // ---------------------------------------------------------------------------------------
  // Starting work keeps the counts
  // ---------------------------------------------------------------------------------------

  lemma Shorter(q: seq<string>)
    requires q != [] && Distinct(q) && Named(q)
    ensures Distinct(q[1..]) && Named(q[1..]) && q[0] != ""
  {
    assert forall i :: 0 <= i < |q[1..]| ==> q[1..][i] == q[i + 1];
  }

  lemma StartNextQueuedActionAccounts(s: State, disk: Disk)
    requires if s.action == Idle then DownloadsAdd(s, 0) && UploadsAdd(s, 0) else Accounted(s)
    ensures Accounted(StartNextQueuedAction(s, disk))
    decreases Queued(s), 1
  {
    hide Distinct, Named;
    if s.action != Idle {
    } else if s.downloads != [] {
      StartNextQueuedDownloadAccounts(s, disk);
    } else if s.opens != [] {
      OpenEntryAccounts(s.(opens := s.opens[1..]), s.opens[0], disk);
    } else if s.copies != [] {
      CopyEntriesAccounts(s.(copies := s.copies[1..]), s.copies[0]);
    } else if s.uploads != [] {
      StartNextQueuedUploadAccounts(s, disk);
    }
  }

  /** The action to be started is already counted as running.  Whatever has vanished meanwhile is
      passed over, except that a download is known to be present when it is started. */
  lemma StartPendingActionAccounts(s: State, disk: Disk)
    requires Accounted(s) && (s.action == Download ==> s.pendingEntry in s.lookup)
    ensures Accounted(StartPendingAction(s, disk))
    decreases Queued(s), 2
  {
    hide Distinct, Named, Present;
    if s.action == Upload {
      StartPendingUploadAccounts(s, disk);
    } else if s.action == Copy && s.pendingCopies != [] {
      if Present(s.lookup, s.pendingCopies) == [] {
        StartNextQueuedActionAccounts(s.(action := Idle), disk);
      }
    } else if s.action != Idle && s.pendingEntry != "" && s.pendingEntry !in s.lookup {
      StartNextQueuedActionAccounts(s.(action := Idle), disk);
    }
  }

  lemma StartPendingUploadAccounts(s: State, disk: Disk)
    requires Accounted(s) && s.action == Upload
    ensures Accounted(StartPendingAction(s, disk))
    decreases Queued(s), 2, 0
  {
    hide Distinct, Named, StartPendingAction, StartNextQueuedUpload, StartNextQueuedAction;
    PendingUploadIs(s, disk);
    if !disk(s.clock) {
      if s.uploads != [] {
        StartNextQueuedUploadAccounts(NotStarted(s), disk);
      } else {
        StartNextQueuedActionAccounts(NotStarted(s).(action := Idle, upload := NO_BATCH), disk);
      }
    }
  }

  lemma BeginDownloadAccounts(s: State, path: string, disk: Disk)
    requires s.action in {Idle, Download} && UploadsAdd(s, 0) && path != ""
    requires s.download.active && DownloadsAdd(s, 1)
    ensures Accounted(BeginDownload(s, path, true, disk))
    decreases Queued(s), 3
  {
    hide Distinct, Named;
    if path !in s.lookup {
      var download := s.download;
      var skipped := s.(download := download.(completed := download.completed + 1, failed := download.failed + 1));
      if s.downloads != [] {
        StartNextQueuedDownloadAccounts(skipped, disk);
      } else {
        StartNextQueuedActionAccounts(
          s.(pendingEntry := "", pendingLocal := "", activeEntry := "", download := NO_BATCH, action := Idle), disk);
      }
    } else {
      StartPendingActionAccounts(s.(pendingEntry := path, pendingLocal := "", activeEntry := path, action := Download),
        disk);
    }
  }

  /** The previous download, if there was one, is counted as completed already. */
  lemma StartNextQueuedDownloadAccounts(s: State, disk: Disk)
    requires s.action in {Idle, Download} && UploadsAdd(s, 0)
    requires s.download.active && s.downloads != [] && DownloadsAdd(s, 0)
    ensures Accounted(StartNextQueuedDownload(s, disk))
    decreases Queued(s), 0
  {
    Shorter(s.downloads);
    hide Distinct, Named;
    BeginDownloadAccounts(s.(downloads := s.downloads[1..]), s.downloads[0], disk);
  }

  lemma StartNextQueuedUploadAccounts(s: State, disk: Disk)
    requires s.action in {Idle, Upload} && DownloadsAdd(s, 0)
    requires s.upload.active && s.uploads != [] && UploadsAdd(s, 0)
    ensures Accounted(StartNextQueuedUpload(s, disk))
    decreases Queued(s), 0
  {
    Shorter(s.uploads);
    hide Distinct, Named;
    BeginUploadAccounts(s.(uploads := s.uploads[1..]), s.uploads[0], disk);
  }

  lemma BeginUploadAccounts(s: State, local: string, disk: Disk)
    requires s.action in {Idle, Upload} && DownloadsAdd(s, 0) && local != ""
    requires s.upload.active && UploadsAdd(s, 1)
    ensures Accounted(BeginUpload(s, local, disk))
    decreases Queued(s), 3
  {
    hide Distinct, Named;
    var seen := Looked(s);
    if !disk(s.clock) {
      var skipped := seen.(upload := s.upload.(completed := s.upload.completed + 1, failed := s.upload.failed + 1));
      if s.uploads != [] {
        StartNextQueuedUploadAccounts(skipped, disk);
      } else {
        StartNextQueuedActionAccounts(seen.(action := Idle, upload := NO_BATCH, pendingLocal := "", activeEntry := ""),
          disk);
      }
    } else {
      StartPendingActionAccounts(
        seen.(pendingLocal := local, pendingEntry := "", activeEntry := RemotePath.Normalize(local), action := Upload),
        disk);
    }
  }

  lemma OpenEntryAccounts(s: State, remotePath: string, disk: Disk)
    requires if s.action == Idle then s.downloads == [] && DownloadsAdd(s, 0) && UploadsAdd(s, 0) else Accounted(s)
    ensures Accounted(OpenEntry(s, remotePath, disk))
    decreases Queued(s), 3
  {
    hide Distinct, Named;
    var path := RemotePath.Normalize(remotePath);
    if path != "" && path in s.lookup && !s.lookup[path] && s.action == Idle {
      StartPendingActionAccounts(s.(pendingEntry := path, pendingLocal := "", activeEntry := path, action := Open),
        disk);
    }
  }

  lemma CopyEntriesAccounts(s: State, remotePaths: seq<string>)
    requires if s.action == Idle then s.downloads == [] && DownloadsAdd(s, 0) && UploadsAdd(s, 0) else Accounted(s)
    ensures Accounted(CopyEntries(s, remotePaths))
  {
    hide Distinct, Named;
  }

  // ---------------------------------------------------------------------------------------
  // The handlers keep the counts
  // ---------------------------------------------------------------------------------------

  /** What the user selects becomes a list of distinct paths of the current folder. */
  lemma {:induction false} KnownIsDistinct(lookup: map<string, bool>, remotePaths: seq<string>, soFar: seq<string>)
    requires Distinct(soFar) && Named(soFar) && forall p <- soFar :: p in lookup
    ensures var k := Known(lookup, remotePaths, soFar);
      Distinct(k) && Named(k) && soFar <= k && forall p <- k :: p in lookup
    decreases |remotePaths|
  {
    if remotePaths != [] {
      var path := RemotePath.Normalize(remotePaths[0]);
      KnownIsDistinct(lookup, remotePaths[1..],
        if path == "" || path in soFar || path !in lookup then soFar else soFar + [path]);
    }
  }

  lemma {:induction false} EnqueuedIsDistinct(queue: seq<string>, pendingEntry: string, activeEntry: string,
      paths: seq<string>)
    requires Distinct(queue) && Named(queue) && Named(paths)
    ensures var q := Enqueued(queue, pendingEntry, activeEntry, paths);
      Distinct(q) && Named(q) && queue <= q
    decreases |paths|
  {
    if paths != [] {
      assert Named(paths[1..]) by {
        assert forall i :: 0 <= i < |paths[1..]| ==> paths[1..][i] == paths[i + 1];
      }
      EnqueuedIsDistinct(
        if paths[0] == pendingEntry || paths[0] == activeEntry || paths[0] in queue then queue else queue + [paths[0]],
        pendingEntry, activeEntry, paths[1..]);
    }
  }

  lemma DownloadEntriesAccounts(s: State, remotePaths: seq<string>, disk: Disk)
    requires Accounted(s)
    ensures Accounted(DownloadEntries(s, remotePaths, disk))
  {
    var paths := Known(s.lookup, remotePaths, []);
    KnownIsDistinct(s.lookup, remotePaths, []);
    assert |paths| == 1 ==> paths[0] != "" && paths[0] in paths;
    hide Accounted, Distinct, Named, Known, Enqueued, BeginDownload, StartNextQueuedDownload;
    if paths != [] {
      if s.action != Idle {
        QueuedDownloadsAccount(s, remotePaths, paths, disk);
      } else if |paths| == 1 {
        DownloadAloneAccounts(s, paths[0], disk);
      } else {
        DownloadSeveralAccounts(s, paths, disk);
      }
    }
  }

  lemma QueuedDownloadsAccount(s: State, remotePaths: seq<string>, paths: seq<string>, disk: Disk)
    requires Accounted(s) && s.action != Idle && paths == Known(s.lookup, remotePaths, []) && Named(paths)
    ensures Accounted(DownloadEntries(s, remotePaths, disk))
  {
    hide Distinct, Named, Known, Enqueued;
    EnqueuedIsDistinct(s.downloads, s.pendingEntry, s.activeEntry, paths);
  }

  lemma DownloadSeveralAccounts(s: State, paths: seq<string>, disk: Disk)
    requires Accounted(s) && s.action == Idle && Distinct(paths) && Named(paths) && |paths| > 1
    ensures Accounted(StartNextQueuedDownload(s.(downloads := paths, download := Batch(true, |paths|, 0, 0)), disk))
  {
    hide Distinct, Named, StartNextQueuedDownload;
    StartNextQueuedDownloadAccounts(s.(downloads := paths, download := Batch(true, |paths|, 0, 0)), disk);
  }

  lemma DownloadAloneAccounts(s: State, path: string, disk: Disk)
    requires Accounted(s) && s.action == Idle && path in s.lookup && path != ""
    ensures Accounted(BeginDownload(s.(downloads := [], download := Batch(false, 1, 0, 0)), path, false, disk))
  {
    hide Distinct, Named, StartPendingAction;
    var alone := s.(downloads := [], download := Batch(false, 1, 0, 0));
    StartPendingActionAccounts(
      alone.(pendingEntry := path, pendingLocal := "", activeEntry := path, action := Download), disk);
  }

  lemma OneMore(queue: seq<string>, path: string)
    requires Distinct(queue) && Named(queue) && path !in queue && path != ""
    ensures Distinct(queue + [path]) && Named(queue + [path])
  {
  }

  lemma UploadLocalEntryAccounts(s: State, rawPath: string, disk: Disk)
    requires Accounted(s)
    ensures Accounted(UploadLocalEntry(s, rawPath, disk))
  {
    hide Distinct, Named, RemotePath.Trimmed, StartNextQueuedUpload;
    var local := RemotePath.Trimmed(rawPath);
    if local != "" && disk(s.clock) && local !in s.uploads && s.pendingLocal != local {
      OneMore(s.uploads, local);
      var batch := if s.upload.active then s.upload else Batch(true, 0, 0, 0);
      var queued := Looked(s).(uploads := s.uploads + [local], upload := batch.(total := batch.total + 1));
      if s.action == Idle {
        StartNextQueuedUploadAccounts(queued, disk);
      }
    }
  }

  lemma DisconnectedAccounts(s: State)
    ensures Accounted(Disconnected(s))
  {
  }

  /** The transfers after one that has ended, when it was not taken for the end of a deletion. */
  lemma TransferEndedAccounts(s: State, entry: string, success: bool, disk: Disk)
    requires Accounted(s) && s.action != Delete
    ensures Accounted(TransferEnded(s, entry, success, disk))
  {
    hide Distinct, Named;
    if Accepted(s, entry) {
      match s.action
      case Copy =>
      case Upload =>
        var counted := s.(upload := Counted(s.upload, success));
        var refreshed := if success then LoadDirectory(counted, s.currentPath) else counted;
        if s.uploads != [] {
          StartNextQueuedUploadAccounts(refreshed, disk);
        } else {
          StartNextQueuedActionAccounts(Settled(refreshed).(upload := NO_BATCH), disk);
        }
      case Open =>
        StartNextQueuedActionAccounts(Settled(s), disk);
      case Download =>
        var counted := if s.download.active then s.(download := Counted(s.download, success)) else s;
        if s.download.active && s.downloads != [] {
          StartNextQueuedDownloadAccounts(counted, disk);
        } else {
          StartNextQueuedActionAccounts(Settled(counted).(downloads := [], download := NO_BATCH), disk);
        }
    }
  }

  // ---------------------------------------------------------------------------------------
  // Downloads are started in the order of the queue
  // ---------------------------------------------------------------------------------------

  /** The index of the first queued path that the folder still has, or the length of the queue. */
  function FirstPresent(lookup: map<string, bool>, queue: seq<string>): (k: nat)
    ensures k <= |queue| && (k < |queue| ==> queue[k] in lookup)
    ensures forall i :: 0 <= i < k ==> queue[i] !in lookup
  {
    if queue == [] || queue[0] in lookup then 0 else 1 + FirstPresent(lookup, queue[1..])
  }

  function Skipped(b: Batch, n: nat): Batch {
    b.(completed := b.completed + n, failed := b.failed + n)
  }

  function Fetching(s: State, path: string): State {
    Request(s.(pendingEntry := path, pendingLocal := "", activeEntry := path, action := Download), Fetch(path))
  }

  function DownloadsOver(s: State): State {
    s.(downloads := [], pendingEntry := "", pendingLocal := "", activeEntry := "", download := NO_BATCH, action := Idle)
  }

  /** What the mutual recursion comes to: vanished paths are counted as failed and passed over, the
      first path still present is fetched and the rest stays queued; when all have vanished, the
      batch is over and the other queues have their turn. */
  lemma {:induction false} StartsFirstPresent(s: State, disk: Disk)
    requires s.downloads != [] && Named(s.downloads)
    ensures var k := FirstPresent(s.lookup, s.downloads);
      StartNextQueuedDownload(s, disk) ==
        if k < |s.downloads| then
          Fetching(s.(downloads := s.downloads[k + 1..], download := Skipped(s.download, k)), s.downloads[k])
        else StartNextQueuedAction(DownloadsOver(s), disk)
    decreases |s.downloads|
  {
    var path, rest := s.downloads[0], s.downloads[1..];
    assert Named(rest) by {
      assert forall i :: 0 <= i < |rest| ==> rest[i] == s.downloads[i + 1];
    }
    var popped := s.(downloads := rest);
    assert StartNextQueuedDownload(s, disk) == BeginDownload(popped, path, true, disk);
    hide Named;
    if path in s.lookup {
      assert path != "";
      BeginPresent(popped, path, true, disk);
      hide StartNextQueuedDownload, BeginDownload, StartNextQueuedAction;
      assert Skipped(s.download, 0) == s.download;
    } else if rest == [] {
      hide StartNextQueuedAction, StartPendingAction;
      assert FirstPresent(s.lookup, rest) == 0;
    } else {
      var skipped := popped.(download := Skipped(s.download, 1));
      assert BeginDownload(popped, path, true, disk) == StartNextQueuedDownload(skipped, disk);
      StartsFirstPresent(skipped, disk);
      hide StartNextQueuedDownload, BeginDownload, StartNextQueuedAction;
      var k := FirstPresent(s.lookup, rest);
      assert FirstPresent(s.lookup, s.downloads) == k + 1;
      if k < |rest| {
        assert rest[k + 1..] == s.downloads[k + 2..];
      }
    }
  }

  lemma BeginPresent(s: State, path: string, partOfBatch: bool, disk: Disk)
    requires path in s.lookup && path != ""
    ensures BeginDownload(s, path, partOfBatch, disk) == Fetching(s, path)
  {
    hide StartNextQueuedAction, StartNextQueuedDownload, StartNextQueuedUpload;
    var pending := s.(pendingEntry := path, pendingLocal := "", activeEntry := path, action := Download);
    assert StartPendingAction(pending, disk) == Request(pending, Fetch(path));
  }

  /** The state from which a pending upload that cannot start goes on. */
  function NotStarted(s: State): State {
    if s.pendingLocal == "" then s
    else Looked(s).(upload := s.upload.(completed := s.upload.completed + 1, failed := s.upload.failed + 1))
  }

  lemma PendingUploadIs(s: State, disk: Disk)
    requires s.action == Upload
    ensures StartPendingAction(s, disk) ==
      if s.pendingLocal != "" && disk(s.clock) then Request(Looked(s), Post(s.pendingLocal, s.currentPath))
      else if s.uploads != [] then StartNextQueuedUpload(NotStarted(s), disk)
      else StartNextQueuedAction(NotStarted(s).(action := Idle, upload := NO_BATCH), disk)
  {
    hide StartNextQueuedUpload, StartNextQueuedAction, Present;
    if s.pendingLocal == "" {
      assert NotStarted(s) == s;
    } else if disk(s.clock) {
      assert Looked(s).pendingLocal == s.pendingLocal;
    } else {
      assert NotStarted(s).uploads == s.uploads;
    }
  }

  /** With no action in progress a file that can be opened is opened at once. */
  lemma OpensAtOnce(s: State, remotePath: string, disk: Disk)
    requires s.action == Idle
    ensures var path := RemotePath.Normalize(remotePath);
      OpenEntry(s, remotePath, disk) ==
        if path == "" || path !in s.lookup || s.lookup[path] then s
        else Request(s.(pendingEntry := path, pendingLocal := "", activeEntry := path, action := Open), OpenFile(path))
  {
    hide StartNextQueuedAction, StartNextQueuedUpload, RemotePath.Normalize;
    var path := RemotePath.Normalize(remotePath);
    if path != "" && path in s.lookup {
      var pending := s.(pendingEntry := path, pendingLocal := "", activeEntry := path, action := Open);
      assert StartPendingAction(pending, disk) == Request(pending, OpenFile(path));
    }
  }
}
