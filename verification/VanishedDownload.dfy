/** What happens to a download whose entry has vanished by the time startPendingActionIfReady looks
    at it: it is dropped without being counted. */
module VanishedDownload {
  import RemotePath
  import opened Scheduler
  import opened Accounting

  /** From s to t the downloads have not been touched. */
  predicate LeavesDownloads(s: State, t: State) {
    (t.download, t.downloads, t.action == Download) == (s.download, [], false)
  }

  lemma ActionLeaves(s: State, disk: Disk)
    requires s.action == Idle && s.downloads == []
    ensures LeavesDownloads(s, StartNextQueuedAction(s, disk))
    decreases Queued(s), 1
  {
    hide StartNextQueuedDownload, StartNextQueuedUpload, OpenEntry, CopyEntries;
    if s.opens != [] {
      OpenLeaves(s.(opens := s.opens[1..]), s.opens[0], disk);
    } else if s.copies != [] {
      CopyLeaves(s.(copies := s.copies[1..]), s.copies[0]);
    } else if s.uploads != [] {
      UploadLeaves(
        if s.upload.active then s
        else s.(upload := s.upload.(active := true,
               total := if s.upload.total == 0 then |s.uploads| else s.upload.total)),
        disk);
    }
  }

  lemma OpenLeaves(s: State, path: string, disk: Disk)
    requires s.action == Idle && s.downloads == []
    ensures LeavesDownloads(s, OpenEntry(s, path, disk))
  {
    hide OpenEntry, RemotePath.Normalize;
    OpensAtOnce(s, path, disk);
  }

  lemma CopyLeaves(s: State, paths: seq<string>)
    requires s.action == Idle && s.downloads == []
    ensures LeavesDownloads(s, CopyEntries(s, paths))
  {
    hide Known;
  }

  lemma UploadLeaves(s: State, disk: Disk)
    requires s.action in {Idle, Upload} && s.downloads == []
    ensures LeavesDownloads(s, StartNextQueuedUpload(s, disk))
    decreases Queued(s), 0
  {
    hide BeginUpload;
    if s.uploads != [] {
      BeginLeaves(s.(uploads := s.uploads[1..]), s.uploads[0], disk);
    }
  }

  lemma BeginLeaves(s: State, local: string, disk: Disk)
    requires s.action in {Idle, Upload} && s.downloads == []
    ensures LeavesDownloads(s, BeginUpload(s, local, disk))
    decreases Queued(s), 3
  {
    hide StartNextQueuedUpload, StartNextQueuedAction, StartPendingAction, RemotePath.Normalize;
    var seen := Looked(s);
    if disk(s.clock) {
      PendingLeaves(
        seen.(pendingLocal := local, pendingEntry := "", activeEntry := RemotePath.Normalize(local), action := Upload),
        disk);
    } else if s.uploads != [] {
      UploadLeaves(seen.(upload := s.upload.(completed := s.upload.completed + 1, failed := s.upload.failed + 1)),
        disk);
    } else {
      ActionLeaves(seen.(action := Idle, upload := NO_BATCH, pendingLocal := "", activeEntry := ""), disk);
    }
  }

  lemma PendingLeaves(s: State, disk: Disk)
    requires s.action == Upload && s.downloads == []
    ensures LeavesDownloads(s, StartPendingAction(s, disk))
    decreases Queued(s), 2
  {
    hide StartNextQueuedUpload, StartNextQueuedAction, StartPendingAction;
    PendingUploadIs(s, disk);
    if s.pendingLocal == "" || !disk(s.clock) {
      if s.uploads != [] {
        UploadLeaves(NotStarted(s), disk);
      } else {
        ActionLeaves(NotStarted(s).(action := Idle, upload := NO_BATCH), disk);
      }
    }
  }

  /** The pending download of a batch has vanished, and it is not so that all the queued ones have
      vanished as well. */
  predicate Drops(s: State) {
    && s.action == Download && s.download.active && s.pendingEntry != "" && s.pendingEntry !in s.lookup
    && (s.downloads == [] || FirstPresent(s.lookup, s.downloads) < |s.downloads|)
  }

  lemma VanishedIs(s: State, disk: Disk)
    requires s.action == Download && s.pendingEntry != "" && s.pendingEntry !in s.lookup
    ensures StartPendingAction(s, disk) == StartNextQueuedAction(s.(action := Idle), disk)
  {
    hide StartNextQueuedAction, StartNextQueuedUpload;
  }

  lemma DroppedFromQueue(s: State, disk: Disk)
    requires s.action == Idle && s.download.active && s.downloads != []
    requires DownloadsAdd(s, 1) && UploadsAdd(s, 0)
    ensures Accounted(StartNextQueuedAction(s, disk)) <==> FirstPresent(s.lookup, s.downloads) == |s.downloads|
  {
    assert Distinct([]) && Named([]);
    StartsFirstPresent(s, disk);
    assert StartNextQueuedAction(s, disk) == StartNextQueuedDownload(s, disk);
    hide Distinct, Named, StartNextQueuedAction, StartNextQueuedDownload, FirstPresent;
    if FirstPresent(s.lookup, s.downloads) == |s.downloads| {
      StartNextQueuedActionAccounts(DownloadsOver(s), disk);
    }
  }

  /** startPendingActionIfReady keeps the counts of every action, vanished entries included, but for
      exactly this case. */
  lemma StartPendingActionAccountsExactly(s: State, disk: Disk)
    requires Accounted(s)
    ensures Accounted(StartPendingAction(s, disk)) <==> !Drops(s)
  {
    hide Distinct, Named, StartNextQueuedAction, StartPendingAction, FirstPresent;
    if s.action == Download && s.pendingEntry != "" && s.pendingEntry !in s.lookup {
      VanishedIs(s, disk);
      var idle := s.(action := Idle);
      if !s.download.active {
        StartNextQueuedActionAccounts(idle, disk);
      } else if s.downloads == [] {
        ActionLeaves(idle, disk);
      } else {
        DroppedFromQueue(idle, disk);
      }
    } else if s.action == Download && s.pendingEntry == "" {
      assert StartPendingAction(s, disk) == s by { NothingPending(s, disk); }
    } else {
      StartPendingActionAccounts(s, disk);
    }
  }

  lemma NothingPending(s: State, disk: Disk)
    requires s.action == Download && s.pendingEntry == ""
    ensures StartPendingAction(s, disk) == s
  {
    hide StartNextQueuedAction, StartNextQueuedUpload;
  }
}
