/** The order in which the transfer scheduler starts downloads, and what it leaves behind. */
module DownloadOrder {
  import Packable
  import RemotePath
  import opened Scheduler
  import opened Accounting
  import opened SchedulerRuns
  import opened Selection
  import opened Subsequences

  function Fetched(calls: seq<Call>): seq<string> {
    if calls == [] then []
    else
      var last := calls[|calls| - 1];
      Fetched(calls[..|calls| - 1]) + if last.Fetch? then [last.path] else []
  }

  lemma FetchedOneMore(calls: seq<Call>, c: Call)
    ensures Fetched(calls + [c]) == Fetched(calls) + if c.Fetch? then [c.path] else []
  {
    assert (calls + [c])[..|calls|] == calls;
  }

  /** From s to t, what has been fetched and what is still queued is an end part of `waiting`. */
  predicate Advances(s: State, t: State, waiting: seq<string>) {
    var before, after := Fetched(s.calls), Fetched(t.calls);
    before <= after && IsSuffix(after[|before|..] + t.downloads, waiting)
  }

  lemma SameDownloads(s: State, t: State)
    requires t.downloads == s.downloads && Fetched(t.calls) == Fetched(s.calls)
    ensures Advances(s, t, s.downloads)
  {
    hide Fetched;
    assert Fetched(t.calls)[|Fetched(s.calls)|..] + t.downloads == s.downloads;
  }

  /** Only the calls made so far matter where the advance starts. */
  lemma FromSameCalls(s: State, from: State, t: State, waiting: seq<string>)
    requires s.calls == from.calls && Advances(s, t, waiting)
    ensures Advances(from, t, waiting)
  {
  }

  /** Fetching the k-th path of the queue and keeping those behind it. */
  lemma FetchingAdvances(s: State, k: nat, download: Batch)
    requires k < |s.downloads|
    ensures Advances(s, Fetching(s.(downloads := s.downloads[k + 1..], download := download), s.downloads[k]),
      s.downloads)
  {
    hide Fetched;
    FetchedOneMore(s.calls, Fetch(s.downloads[k]));
    assert [s.downloads[k]] + s.downloads[k + 1..] == s.downloads[k..];
  }

  lemma NothingWaits(s: State, t: State)
    requires Advances(s, t, [])
    ensures Advances(s, t, s.downloads)
  {
  }

  lemma StartNextQueuedDownloadAdvances(s: State, disk: Disk)
    requires s.downloads != [] && Named(s.downloads)
    ensures Advances(s, StartNextQueuedDownload(s, disk), s.downloads)
    decreases Queued(s), 0
  {
    hide StartNextQueuedAction, StartNextQueuedDownload, FirstPresent, Fetching, Fetched, Named, Advances;
    StartsFirstPresent(s, disk);
    var k := FirstPresent(s.lookup, s.downloads);
    if k < |s.downloads| {
      FetchingAdvances(s, k, Skipped(s.download, k));
    } else {
      NoNames();
      StartNextQueuedActionAdvances(DownloadsOver(s), disk);
      FromSameCalls(DownloadsOver(s), s, StartNextQueuedDownload(s, disk), []);
      NothingWaits(s, StartNextQueuedDownload(s, disk));
    }
  }

  lemma NoNames()
    ensures Named([])
  {
  }

  lemma StartNextQueuedActionAdvances(s: State, disk: Disk)
    requires Named(s.downloads)
    ensures Advances(s, StartNextQueuedAction(s, disk), s.downloads)
    decreases Queued(s), 1
  {
    hide Advances, Fetched, Named, StartNextQueuedDownload, StartNextQueuedUpload, OpenEntry, CopyEntries;
    if s.action != Idle {
      SameDownloads(s, s);
    } else if s.downloads != [] {
      var begun := if s.download.active then s else s.(download := Batch(true, |s.downloads|, 0, 0));
      StartNextQueuedDownloadAdvances(begun, disk);
      FromSameCalls(begun, s, StartNextQueuedDownload(begun, disk), s.downloads);
    } else if s.opens != [] {
      var popped := s.(opens := s.opens[1..]);
      OpenEntryAdvances(popped, s.opens[0], disk);
      FromSameCalls(popped, s, OpenEntry(popped, s.opens[0], disk), s.downloads);
    } else if s.copies != [] {
      var popped := s.(copies := s.copies[1..]);
      CopyEntriesAdvances(popped, s.copies[0]);
      FromSameCalls(popped, s, CopyEntries(popped, s.copies[0]), s.downloads);
    } else if s.uploads != [] {
      var begun := if s.upload.active then s
        else s.(upload := s.upload.(active := true,
               total := if s.upload.total == 0 then |s.uploads| else s.upload.total));
      StartNextQueuedUploadAdvances(begun, disk);
      FromSameCalls(begun, s, StartNextQueuedUpload(begun, disk), s.downloads);
    } else {
      SameDownloads(s, s);
    }
  }

  lemma StartNextQueuedUploadAdvances(s: State, disk: Disk)
    requires Named(s.downloads)
    ensures Advances(s, StartNextQueuedUpload(s, disk), s.downloads)
    decreases Queued(s), 0
  {
    hide Advances, Fetched, Named, BeginUpload, StartNextQueuedAction;
    if s.uploads == [] {
      SameDownloads(s, s);
    } else {
      var popped := s.(uploads := s.uploads[1..]);
      BeginUploadAdvances(popped, s.uploads[0], disk);
      FromSameCalls(popped, s, BeginUpload(popped, s.uploads[0], disk), s.downloads);
    }
  }

  lemma BeginUploadAdvances(s: State, local: string, disk: Disk)
    requires Named(s.downloads)
    ensures Advances(s, BeginUpload(s, local, disk), s.downloads)
    decreases Queued(s), 3
  {
    hide Advances, Fetched, Named, StartNextQueuedUpload, StartNextQueuedAction, StartPendingAction;
    var seen := Looked(s);
    var skipped := seen.(upload := s.upload.(completed := s.upload.completed + 1, failed := s.upload.failed + 1));
    var over := seen.(action := Idle, upload := NO_BATCH, pendingLocal := "", activeEntry := "");
    var pending := seen.(pendingLocal := local, pendingEntry := "",
      activeEntry := RemotePath.Normalize(local), action := Upload);
    if disk(s.clock) {
      StartPendingUploadAdvances(pending, disk);
      FromSameCalls(pending, s, StartPendingAction(pending, disk), s.downloads);
    } else if s.uploads != [] {
      StartNextQueuedUploadAdvances(skipped, disk);
      FromSameCalls(skipped, s, StartNextQueuedUpload(skipped, disk), s.downloads);
    } else {
      StartNextQueuedActionAdvances(over, disk);
      FromSameCalls(over, s, StartNextQueuedAction(over, disk), s.downloads);
    }
  }

  lemma StartPendingUploadAdvances(s: State, disk: Disk)
    requires Named(s.downloads) && s.action == Upload
    ensures Advances(s, StartPendingAction(s, disk), s.downloads)
    decreases Queued(s), 2
  {
    hide Advances, Fetched, Named, StartNextQueuedUpload, StartNextQueuedAction, StartPendingAction;
    PendingUploadIs(s, disk);
    var t := StartPendingAction(s, disk);
    if s.pendingLocal != "" && disk(s.clock) {
      FetchedOneMore(s.calls, Post(s.pendingLocal, s.currentPath));
      SameDownloads(s, t);
    } else if s.uploads != [] {
      StartNextQueuedUploadAdvances(NotStarted(s), disk);
      FromSameCalls(NotStarted(s), s, t, s.downloads);
    } else {
      var over := NotStarted(s).(action := Idle, upload := NO_BATCH);
      StartNextQueuedActionAdvances(over, disk);
      FromSameCalls(over, s, t, s.downloads);
    }
  }

  lemma OpenEntryAdvances(s: State, remotePath: string, disk: Disk)
    ensures Advances(s, OpenEntry(s, remotePath, disk), s.downloads)
  {
    FetchedOneMore(s.calls, OpenFile(RemotePath.Normalize(remotePath)));
    if s.action == Idle {
      OpensAtOnce(s, remotePath, disk);
      hide Advances, Fetched, RemotePath.Normalize, OpenEntry;
      SameDownloads(s, OpenEntry(s, remotePath, disk));
    } else {
      hide Advances, Fetched, RemotePath.Normalize, StartPendingAction;
      SameDownloads(s, OpenEntry(s, remotePath, disk));
    }
  }

  lemma CopyEntriesAdvances(s: State, remotePaths: seq<string>)
    ensures Advances(s, CopyEntries(s, remotePaths), s.downloads)
  {
    hide Advances, Fetched, Known;
    var c := CopyToClipboard(Known(s.lookup, remotePaths, []));
    FetchedOneMore(s.calls, c);
    var t := CopyEntries(s, remotePaths);
    assert t.calls == s.calls || t.calls == s.calls + [c];
    SameDownloads(s, t);
  }

  // ---------------------------------------------------------------------------------------
  // First asked for, first fetched
  // ---------------------------------------------------------------------------------------

  /** The downloads that an event adds: the selected paths that were not waiting already. */
  function Requested(s: State, e: Event): seq<string> {
    if !e.AskDownloads? then []
    else
      var selected := Selected(s.lookup, Normalized(e.paths));
      if s.action == Idle then selected else Unasked(s.downloads, s.pendingEntry, s.activeEntry, selected)
  }

  lemma DownloadEntriesAdvances(s: State, paths: seq<string>, disk: Disk)
    ensures Advances(s, DownloadEntries(s, paths, disk), s.downloads + Requested(s, AskDownloads(paths)))
  {
    hide Fetched, Selected, DownloadEntries, Unasked;
    DownloadEntriesMeans(s, paths, disk);
    var selected := Selected(s.lookup, Normalized(paths));
    var requested, t := Requested(s, AskDownloads(paths)), DownloadEntries(s, paths, disk);
    if s.action == Idle && selected != [] {
      FetchedOneMore(s.calls, Fetch(selected[0]));
      assert Fetched(t.calls)[|Fetched(s.calls)|..] + t.downloads == requested;
      assert (s.downloads + requested)[|s.downloads|..] == requested;
    } else {
      assert Fetched(t.calls)[|Fetched(s.calls)|..] + t.downloads == s.downloads + requested;
    }
  }

  /** An end part of `back` is one of `front + back`. */
  lemma Later(s: State, t: State, front: seq<string>, back: seq<string>)
    requires Advances(s, t, back)
    ensures Advances(s, t, front + back)
  {
    var a := Fetched(t.calls)[|Fetched(s.calls)|..] + t.downloads;
    assert (front + back)[|front + back| - |a|..] == back[|back| - |a|..];
  }

  lemma LoadDirectoryFetchesNothing(s: State, path: string)
    ensures Fetched(LoadDirectory(s, path).calls) == Fetched(s.calls) && LoadDirectory(s, path).downloads == s.downloads
  {
    hide Fetched, RemotePath.Normalize;
    FetchedOneMore(s.calls, List(RemotePath.Normalize(path)));
  }

  lemma TransferEndedAdvances(s: State, entry: string, success: bool, disk: Disk)
    requires Named(s.downloads)
    ensures Advances(s, TransferEnded(s, entry, success, disk), s.downloads)
  {
    var t := TransferEnded(s, entry, success, disk);
    hide Named, RemotePath.Normalize, StartNextQueuedAction, StartNextQueuedUpload, StartNextQueuedDownload, Advances,
      Fetched;
    if !Accepted(s, entry) || s.action == Copy {
      SameDownloads(s, t);
    } else if s.action == Upload {
      var counted := s.(upload := Counted(s.upload, success));
      var refreshed := if success then LoadDirectory(counted, s.currentPath) else counted;
      LoadDirectoryFetchesNothing(counted, s.currentPath);
      if s.uploads != [] {
        StartNextQueuedUploadAdvances(refreshed, disk);
        Further(s, refreshed, t);
      } else {
        var settled := Settled(refreshed).(upload := NO_BATCH);
        StartNextQueuedActionAdvances(settled, disk);
        FromSameCalls(settled, refreshed, t, s.downloads);
        Further(s, refreshed, t);
      }
    } else if s.action == Open {
      StartNextQueuedActionAdvances(Settled(s), disk);
      FromSameCalls(Settled(s), s, t, s.downloads);
    } else {
      DownloadEndedAdvances(s, success, disk, s.action == Download);
    }
  }

  lemma DownloadEndedAdvances(s: State, success: bool, disk: Disk, wasDownload: bool)
    requires Named(s.downloads)
    ensures Advances(s, DownloadEnded(s, success, disk, wasDownload), s.downloads)
  {
    NoNames();
    var t := DownloadEnded(s, success, disk, wasDownload);
    hide Named, StartNextQueuedAction, StartNextQueuedDownload;
    var counted := if s.download.active then s.(download := Counted(s.download, success)) else s;
    if s.download.active && s.downloads != [] {
      StartNextQueuedDownloadAdvances(counted, disk);
      FromSameCalls(counted, s, t, s.downloads);
    } else {
      var settled := Settled(counted);
      var from := if wasDownload then settled.(downloads := [], download := NO_BATCH) else settled;
      StartNextQueuedActionAdvances(from, disk);
      if wasDownload {
        Later(from, t, s.downloads, []);
        assert s.downloads + [] == s.downloads;
      }
    }
  }

  /** A step that fetches nothing and keeps the queue, before one that advances. */
  lemma Further(s: State, m: State, t: State)
    requires Fetched(m.calls) == Fetched(s.calls) && m.downloads == s.downloads && Advances(m, t, m.downloads)
    ensures Advances(s, t, s.downloads)
  {
  }

  lemma StepAdvances(s: State, e: Event, disk: Disk)
    requires Named(s.downloads)
    ensures Advances(s, Step(s, e, disk), s.downloads + Requested(s, e))
  {
    hide Advances, Fetched, Named, RemotePath.Normalize, StartNextQueuedAction, UploadLocalEntry, DownloadEntries,
      OpenEntry, CopyEntries, TransferEnded, LoadDirectory, Selected, Known;
    assert s.downloads + [] == s.downloads;
    var t := Step(s, e, disk);
    match e
    case AskDownloads(paths) => DownloadEntriesAdvances(s, paths, disk);
    case AskUpload(rawPath) => UploadAdvances(s, rawPath, disk);
    case AskOpen(path) => OpenEntryAdvances(s, path, disk);
    case AskCopies(paths) => CopyEntriesAdvances(s, paths);
    case AskDeletes(paths) =>
      FetchedOneMore(s.calls, DeleteFiles(Known(s.lookup, paths, [])));
      SameDownloads(s, t);
    case AskBrowse(path) =>
      LoadDirectoryFetchesNothing(s, path);
      SameDownloads(s, t);
    case Disconnect => DisconnectedAdvances(s);
    case Listed(path, entries) =>
      if RemotePath.Normalize(path) == s.currentPath {
        StartNextQueuedActionAdvances(s.(lookup := entries), disk);
        FromSameCalls(s.(lookup := entries), s, t, s.downloads);
      } else {
        SameDownloads(s, t);
      }
    case Transferred(entry, success) => TransferEndedAdvances(s, entry, success, disk);
    case Copied =>
      if s.action == Copy {
        StartNextQueuedActionAdvances(Settled(s), disk);
        FromSameCalls(Settled(s), s, t, s.downloads);
      } else {
        SameDownloads(s, t);
      }
    case Deleted(success) =>
      if s.action == Delete {
        var listed := if success then LoadDirectory(s, s.currentPath) else s;
        LoadDirectoryFetchesNothing(s, s.currentPath);
        StartNextQueuedActionAdvances(Settled(listed), disk);
        FromSameCalls(Settled(listed), listed, t, s.downloads);
        Further(s, listed, t);
      } else {
        SameDownloads(s, t);
      }
  }

  lemma UploadAdvances(s: State, rawPath: string, disk: Disk)
    requires Named(s.downloads)
    ensures Advances(s, UploadLocalEntry(s, rawPath, disk), s.downloads)
  {
    var local := RemotePath.Trimmed(rawPath);
    var t := UploadLocalEntry(s, rawPath, disk);
    hide Advances, Fetched, Named, RemotePath.Trimmed, StartNextQueuedUpload;
    if local == "" || !disk(s.clock) || local in s.uploads || s.pendingLocal == local || s.action != Idle {
      SameDownloads(s, t);
    } else {
      var batch := if s.upload.active then s.upload else Batch(true, 0, 0, 0);
      var queued := Looked(s).(uploads := s.uploads + [local], upload := batch.(total := batch.total + 1));
      StartNextQueuedUploadAdvances(queued, disk);
      FromSameCalls(queued, s, t, s.downloads);
    }
  }

  lemma DisconnectedAdvances(s: State)
    ensures Advances(s, Disconnected(s), s.downloads)
  {
    assert s.downloads[|s.downloads|..] == [];
  }

  // ---------------------------------------------------------------------------------------
  // Over a run
  // ---------------------------------------------------------------------------------------

  function AllRequested(s: State, events: seq<Event>, disk: Disk): seq<string>
    decreases |events|
  {
    if events == [] then []
    else Requested(s, events[0]) + AllRequested(Step(s, events[0], disk), events[1..], disk)
  }

  lemma StepKeepsNames(s: State, e: Event, disk: Disk)
    requires Named(s.downloads)
    ensures Named(Step(s, e, disk).downloads)
  {
    hide Step, Fetched;
    StepAdvances(s, e, disk);
    RequestedIsNamed(s, e);
    var waiting, t := s.downloads + Requested(s, e), Step(s, e, disk);
    assert Named(waiting);
    var part := Fetched(t.calls)[|Fetched(s.calls)|..];
    forall i | 0 <= i < |t.downloads| ensures t.downloads[i] != "" {
      assert t.downloads[i] == (part + t.downloads)[|part| + i];
    }
  }

  lemma RequestedIsNamed(s: State, e: Event)
    ensures Named(Requested(s, e))
  {
    if e.AskDownloads? {
      var selected := Selected(s.lookup, Normalized(e.paths));
      SelectedDistinct(s.lookup, e.paths);
      UnaskedMeans(s.downloads, s.pendingEntry, s.activeEntry, selected);
      hide Selected, Unasked, Subsequence;
      var unasked := Unasked(s.downloads, s.pendingEntry, s.activeEntry, selected);
      forall i | 0 <= i < |unasked| ensures unasked[i] != "" {
        assert unasked[i] in unasked;
      }
    }
  }

  /** Over any run, what is fetched followed by what is still waiting is what was asked for, in
      that order, without the paths that had vanished or were dropped by a lost connection. */
  lemma {:induction false} FetchedInOrder(s: State, events: seq<Event>, disk: Disk)
    requires Named(s.downloads)
    ensures var t := Run(s, events, disk);
      && Fetched(s.calls) <= Fetched(t.calls)
      && Subsequence(Fetched(t.calls)[|Fetched(s.calls)|..] + t.downloads, s.downloads + AllRequested(s, events, disk))
    decreases |events|
  {
    hide Step, Fetched, Named, Requested;
    var t := Run(s, events, disk);
    if events == [] {
      SuffixIsSubsequence(s.downloads, s.downloads);
      assert Fetched(t.calls)[|Fetched(s.calls)|..] + t.downloads == s.downloads == s.downloads + [];
    } else {
      var m := Step(s, events[0], disk);
      StepAdvances(s, events[0], disk);
      StepKeepsNames(s, events[0], disk);
      FetchedInOrder(m, events[1..], disk);
      var f0, f1, f2 := Fetched(s.calls), Fetched(m.calls), Fetched(t.calls);
      Chained(f1[|f0|..], f2[|f1|..] + t.downloads, s.downloads, m.downloads, Requested(s, events[0]),
        AllRequested(m, events[1..], disk));
      assert f2[|f0|..] + t.downloads == f1[|f0|..] + (f2[|f1|..] + t.downloads);
    }
  }

  lemma Chained(first: seq<string>, rest: seq<string>, q0: seq<string>, q1: seq<string>, r1: seq<string>,
      r2: seq<string>)
    requires IsSuffix(first + q1, q0 + r1) && Subsequence(rest, q1 + r2)
    ensures Subsequence(first + rest, q0 + (r1 + r2))
  {
    SuffixIsSubsequence(first + q1, q0 + r1);
    hide Subsequence, IsSuffix;
    SubsequenceBefore(first + q1, q0 + r1, r2);
    SubsequenceAfter(first, rest, q1 + r2);
    Packable.Associative(first, q1, r2);
    Packable.Associative(q0, r1, r2);
    SubsequenceTransitive(first + rest, first + (q1 + r2), q0 + (r1 + r2));
  }
}
