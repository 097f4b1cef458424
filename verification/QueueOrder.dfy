/** In what order the transfer scheduler works off its queues of uploads, files to open and copy
    requests, over any run; and that the folder shown is the one listed last. */
module QueueOrder {
  import RemotePath
  import opened Scheduler
  import opened Accounting
  import opened Selection
  import opened SchedulerRuns
  import opened Turns
  import opened Subsequences
  import DownloadOrder

  /** The local files that have been posted. */
  function Posted(calls: seq<Call>): seq<string> {
    if calls == [] then []
    else
      var last := calls[|calls| - 1];
      Posted(calls[..|calls| - 1]) + if last.Post? then [last.local] else []
  }

  /** The folders of which listings have been asked for. */
  function Listings(calls: seq<Call>): seq<string> {
    if calls == [] then []
    else
      var last := calls[|calls| - 1];
      Listings(calls[..|calls| - 1]) + if last.List? then [last.directory] else []
  }

  lemma OneMoreCall(calls: seq<Call>, c: Call)
    ensures Posted(calls + [c]) == Posted(calls) + if c.Post? then [c.local] else []
    ensures Listings(calls + [c]) == Listings(calls) + if c.List? then [c.directory] else []
  {
    assert (calls + [c])[..|calls|] == calls;
  }

  /** From s to t only front parts of these queues have been worked off: of the uploads, what has been
      posted and what waits is an end part, and of the others what waits. */
  predicate Works(s: State, t: State, uploads: seq<string>, opens: seq<string>, copies: seq<seq<string>>) {
    var before, after := Posted(s.calls), Posted(t.calls);
    && before <= after && IsSuffix(after[|before|..] + t.uploads, uploads)
    && IsSuffix(t.opens, opens) && IsSuffix(t.copies, copies)
  }

  /** No listing has been asked for, and the folder is the same. */
  predicate Stays(s: State, t: State) {
    t.currentPath == s.currentPath && Listings(t.calls) == Listings(s.calls)
  }

  predicate WorksOff(s: State, t: State) {
    Works(s, t, s.uploads, s.opens, s.copies) && Stays(s, t)
  }

  predicate SameQueues(s: State, t: State) {
    t.uploads == s.uploads && t.opens == s.opens && t.copies == s.copies
  }

  lemma NothingPosted(s: State, t: State)
    requires SameQueues(s, t) && Posted(t.calls) == Posted(s.calls)
    ensures Works(s, t, s.uploads, s.opens, s.copies)
  {
    hide Posted;
    assert Posted(t.calls)[|Posted(s.calls)|..] + t.uploads == s.uploads;
  }

  /** A step that posts nothing and keeps these queues, before one that works them off. */
  lemma Then(s: State, m: State, t: State)
    requires SameQueues(s, m) && Posted(m.calls) == Posted(s.calls) && WorksOff(m, t)
    ensures Works(s, t, s.uploads, s.opens, s.copies)
    ensures Stays(s, m) ==> WorksOff(s, t)
  {
  }

  lemma TurnWorks(s: State, t: State, disk: Disk)
    requires TurnTaken(s, t, disk)
    ensures WorksOff(s, t)
  {
    hide QueuesAfter, Posted, Listings, NextCalls, NextPosts, IsSuffix;
    TurnPosts(s, t, disk);
    TurnTakes(s, t, disk);
    assert t.currentPath == s.currentPath by { SameFolder(s, t, disk); }
    assert Posted(t.calls)[|Posted(s.calls)|..] == NextPosts(s, disk);
  }

  lemma SameFolder(s: State, t: State, disk: Disk)
    requires QueuesAfter(s, t, disk)
    ensures t.currentPath == s.currentPath
  {
  }

  lemma TurnTakes(s: State, t: State, disk: Disk)
    requires QueuesAfter(s, t, disk)
    ensures IsSuffix(NextPosts(s, disk) + t.uploads, s.uploads)
    ensures IsSuffix(t.opens, s.opens) && IsSuffix(t.copies, s.copies)
  {
    hide FirstExisting, FirstPresent, IsSuffix;
    RestIsSuffix(s.opens, 0);
    RestIsSuffix(s.copies, 0);
    if s.opens != [] { RestIsSuffix(s.opens, 1); }
    if s.copies != [] { RestIsSuffix(s.copies, 1); }
    TurnTakesUploads(s, t, disk);
  }

  lemma TurnTakesUploads(s: State, t: State, disk: Disk)
    requires QueuesAfter(s, t, disk)
    ensures IsSuffix(NextPosts(s, disk) + t.uploads, s.uploads)
  {
    hide QueuesAfter, NextPosts, FirstExisting, IsSuffix;
    UploadsTaken(s, t, disk);
    NothingOrOneTaken(s.uploads, FirstExisting(|s.uploads|, s.clock, disk));
  }

  lemma UploadsTaken(s: State, t: State, disk: Disk)
    requires QueuesAfter(s, t, disk)
    ensures var u := FirstExisting(|s.uploads|, s.clock, disk);
      || (NextPosts(s, disk) == [] && t.uploads in {s.uploads, []})
      || (u < |s.uploads| && NextPosts(s, disk) == [s.uploads[u]] && t.uploads == s.uploads[u + 1..])
  {
    hide FirstExisting, FirstPresent;
  }

  lemma NothingOrOneTaken(queue: seq<string>, k: nat)
    requires k <= |queue|
    ensures IsSuffix([] + queue, queue) && IsSuffix([] + [], queue)
    ensures k < |queue| ==> IsSuffix([queue[k]] + queue[k + 1..], queue)
  {
    assert [] + queue == queue;
    if k < |queue| {
      assert [queue[k]] + queue[k + 1..] == queue[k..];
    }
  }

  lemma TurnPosts(s: State, t: State, disk: Disk)
    requires t.calls == s.calls + NextCalls(s, disk)
    ensures Listings(t.calls) == Listings(s.calls)
    ensures Posted(t.calls) == Posted(s.calls) + NextPosts(s, disk)
  {
    hide FirstExisting, FirstPresent, Selected, RemotePath.Normalize, Posted, Listings;
    var calls := NextCalls(s, disk);
    if calls == [] {
      assert s.calls + calls == s.calls && Posted(s.calls) + [] == Posted(s.calls);
    } else {
      OneMoreCall(s.calls, calls[0]);
      assert calls == [calls[0]];
    }
  }

  /** The upload that is posted in that turn. */
  function NextPosts(s: State, disk: Disk): seq<string> {
    var u := FirstExisting(|s.uploads|, s.clock, disk);
    if FirstPresent(s.lookup, s.downloads) == |s.downloads| && s.opens == [] && s.copies == [] && u < |s.uploads|
    then [s.uploads[u]] else []
  }

  lemma ActionWorks(s: State, disk: Disk)
    requires Named(s.downloads) && Named(s.uploads)
    ensures WorksOff(s, StartNextQueuedAction(s, disk))
  {
    hide Named, TurnTaken, Works, Stays, Posted, Listings;
    if s.action == Idle {
      NextTurn(s, disk);
      TurnWorks(s, StartNextQueuedAction(s, disk), disk);
    } else {
      hide StartNextQueuedDownload, StartNextQueuedUpload;
      NothingPosted(s, s);
      assert Stays(s, s) by { Unmoved(s); }
    }
  }

  lemma Unmoved(s: State)
    ensures Stays(s, s)
  {
  }

  lemma UploadWorks(s: State, disk: Disk)
    requires s.uploads != [] && Named(s.downloads) && Named(s.uploads)
    ensures WorksOff(s, StartNextQueuedUpload(s, disk))
  {
    hide Named, FirstExisting, StartNextQueuedUpload, StartNextQueuedAction, Posted, Listings, RemotePath.Normalize;
    var over := StartsFirstExisting(s, disk);
    var k := FirstExisting(|s.uploads|, s.clock, disk);
    if k < |s.uploads| {
      OneMoreCall(s.calls, Post(s.uploads[k], s.currentPath));
      var t := Posting(s, k, disk);
      assert Posted(t.calls)[|Posted(s.calls)|..] == [s.uploads[k]];
      assert [s.uploads[k]] + s.uploads[k + 1..] == s.uploads[k..];
    } else {
      assert Named(over.uploads) by { DownloadOrder.NoNames(); }
      ActionWorks(over, disk);
    }
  }

  lemma DownloadWorks(s: State, disk: Disk)
    requires s.downloads != [] && Named(s.downloads) && Named(s.uploads)
    ensures WorksOff(s, StartNextQueuedDownload(s, disk))
  {
    hide Named, FirstPresent, StartNextQueuedDownload, StartNextQueuedAction, Works, Stays, Posted, Listings;
    StartsFirstPresent(s, disk);
    DownloadOrder.NoNames();
    var k := FirstPresent(s.lookup, s.downloads);
    if k < |s.downloads| {
      OneMoreCall(s.calls, Fetch(s.downloads[k]));
      FetchingWorks(s, s.downloads[k + 1..], Skipped(s.download, k), s.downloads[k]);
    } else {
      ActionWorks(DownloadsOver(s), disk);
      Unmoved(s);
      OverStays(s);
      Then(s, DownloadsOver(s), StartNextQueuedDownload(s, disk));
    }
  }

  lemma FetchingWorks(s: State, rest: seq<string>, download: Batch, path: string)
    ensures WorksOff(s, Fetching(s.(downloads := rest, download := download), path))
  {
    hide Posted, Listings;
    OneMoreCall(s.calls, Fetch(path));
    NothingPosted(s, Fetching(s.(downloads := rest, download := download), path));
  }

  lemma OverStays(s: State)
    ensures Stays(s, DownloadsOver(s)) && SameQueues(s, DownloadsOver(s)) && DownloadsOver(s).calls == s.calls
  {
  }

  // ---------------------------------------------------------------------------------------
  // One event
  // ---------------------------------------------------------------------------------------

  /** A local file is taken on if it exists and is neither queued nor the one uploaded last. */
  function AskedUploads(s: State, e: Event, disk: Disk): seq<string> {
    if !e.AskUpload? then []
    else
      var local := RemotePath.Trimmed(e.rawPath);
      if local == "" || !disk(s.clock) || local in s.uploads || local == s.pendingLocal then [] else [local]
  }

  /** A file of the folder waits to be opened if something is in progress that is not about it. */
  function AskedOpens(s: State, e: Event): seq<string> {
    if !e.AskOpen? then []
    else
      var path := RemotePath.Normalize(e.path);
      if s.action == Idle || path !in s.lookup || s.lookup[path] || path in {"", s.pendingEntry, s.activeEntry}
         || path in s.opens
      then [] else [path]
  }

  function AskedCopies(s: State, e: Event): seq<seq<string>> {
    if !e.AskCopies? then []
    else
      var selected := Selected(s.lookup, Normalized(e.paths));
      if s.action == Idle || selected == [] || selected in s.copies || (s.action == Copy && selected == s.pendingCopies)
      then [] else [selected]
  }

  /** A listing that is asked for is of the folder that is current from then on. */
  predicate Follows(s: State, t: State) {
    Stays(s, t) || Listings(t.calls) == Listings(s.calls) + [t.currentPath]
  }

  predicate StepDone(s: State, e: Event, t: State, disk: Disk) {
    && Works(s, t, s.uploads + AskedUploads(s, e, disk), s.opens + AskedOpens(s, e), s.copies + AskedCopies(s, e))
    && Follows(s, t)
  }

  /** An event that asks for nothing that waits. */
  lemma AsksNothing(s: State, e: Event, t: State, disk: Disk)
    requires AskedUploads(s, e, disk) == AskedOpens(s, e) == [] && AskedCopies(s, e) == []
    requires Works(s, t, s.uploads, s.opens, s.copies) && Follows(s, t)
    ensures StepDone(s, e, t, disk)
  {
    hide Works, Follows, AskedUploads, AskedOpens, AskedCopies;
    assert s.uploads + [] == s.uploads && s.opens + [] == s.opens && s.copies + [] == s.copies;
  }

  lemma DownloadsDone(s: State, paths: seq<string>, disk: Disk)
    ensures StepDone(s, AskDownloads(paths), DownloadEntries(s, paths, disk), disk)
  {
    hide Posted, Listings, Selected, Unasked, DownloadEntries, Works, Stays, StepDone;
    var t := DownloadEntries(s, paths, disk);
    DownloadEntriesMeans(s, paths, disk);
    var selected := Selected(s.lookup, Normalized(paths));
    if s.action == Idle && selected != [] { OneMoreCall(s.calls, Fetch(selected[0])); }
    NothingPosted(s, t);
    SameListings(s, t);
    AsksNothing(s, AskDownloads(paths), t, disk);
  }

  lemma SameListings(s: State, t: State)
    requires t.currentPath == s.currentPath && Listings(t.calls) == Listings(s.calls)
    ensures Stays(s, t)
  {
  }

  lemma UploadDone(s: State, rawPath: string, disk: Disk)
    requires Named(s.downloads) && Named(s.uploads)
    ensures StepDone(s, AskUpload(rawPath), UploadLocalEntry(s, rawPath, disk), disk)
  {
    hide Posted, Listings, RemotePath.Trimmed, Named, StartNextQueuedUpload;
    var local := RemotePath.Trimmed(rawPath);
    var t := UploadLocalEntry(s, rawPath, disk);
    assert s.opens + [] == s.opens && s.copies + [] == s.copies;
    if AskedUploads(s, AskUpload(rawPath), disk) == [] {
      NothingPosted(s, t);
      assert s.uploads + [] == s.uploads;
    } else if s.action != Idle {
      assert Posted(t.calls)[|Posted(s.calls)|..] + t.uploads == s.uploads + [local];
    } else {
      var batch := if s.upload.active then s.upload else Batch(true, 0, 0, 0);
      var queued := Looked(s).(uploads := s.uploads + [local], upload := batch.(total := batch.total + 1));
      assert Named(queued.uploads) by { OneMoreName(s.uploads, local); }
      UploadWorks(queued, disk);
    }
  }

  lemma OneMoreName(queue: seq<string>, name: string)
    requires Named(queue) && name != ""
    ensures Named(queue + [name])
  {
  }

  lemma OpenDone(s: State, remotePath: string, disk: Disk)
    ensures StepDone(s, AskOpen(remotePath), OpenEntry(s, remotePath, disk), disk)
  {
    hide Posted, Listings, RemotePath.Normalize, StartPendingAction;
    OneMoreCall(s.calls, OpenFile(RemotePath.Normalize(remotePath)));
    var t := OpenEntry(s, remotePath, disk);
    if s.action == Idle { OpensAtOnce(s, remotePath, disk); }
    assert Posted(t.calls)[|Posted(s.calls)|..] + t.uploads == s.uploads + [];
    assert t.opens == s.opens + AskedOpens(s, AskOpen(remotePath));
    assert s.copies + [] == s.copies;
  }

  lemma CopyDone(s: State, paths: seq<string>, disk: Disk)
    ensures StepDone(s, AskCopies(paths), CopyEntries(s, paths), disk)
  {
    hide Posted, Listings, Selected, Normalized, CopyEntries;
    var t := CopyEntries(s, paths);
    CopyEntriesMeans(s, paths);
    OneMoreCall(s.calls, CopyToClipboard(Selected(s.lookup, Normalized(paths))));
    assert Posted(t.calls)[|Posted(s.calls)|..] + t.uploads == s.uploads + [];
    assert t.copies == s.copies + AskedCopies(s, AskCopies(paths)) && s.opens + [] == s.opens;
  }

  /** loadDirectory asks for the listing of the folder that it makes the current one. */
  lemma LoadDirectoryMeans(s: State, remotePath: string)
    ensures var path, t := RemotePath.Normalize(remotePath), LoadDirectory(s, remotePath);
      && (path == "" ==> t == s)
      && (path != "" ==> t == s.(currentPath := path, calls := s.calls + [List(path)]))
      && SameQueues(s, t) && Posted(t.calls) == Posted(s.calls) && Follows(s, t)
  {
    hide Posted, Listings, RemotePath.Normalize;
    OneMoreCall(s.calls, List(RemotePath.Normalize(remotePath)));
  }

  lemma ThenFollows(s: State, m: State, t: State)
    requires Follows(s, m) && Stays(m, t)
    ensures Follows(s, t)
  {
  }

  lemma TransferDone(s: State, entry: string, success: bool, disk: Disk)
    requires Named(s.downloads) && Named(s.uploads)
    ensures var t := TransferEnded(s, entry, success, disk);
      Works(s, t, s.uploads, s.opens, s.copies) && Follows(s, t)
  {
    var t := TransferEnded(s, entry, success, disk);
    hide Named, Posted, Listings, Works, Stays, RemotePath.Normalize, StartNextQueuedAction, StartNextQueuedUpload,
      StartNextQueuedDownload, LoadDirectory;
    Unmoved(s);
    if !Accepted(s, entry) || s.action == Copy {
      NothingPosted(s, t);
      SameListings(s, t);
    } else if s.action == Upload {
      var counted := s.(upload := Counted(s.upload, success));
      var refreshed := if success then LoadDirectory(counted, s.currentPath) else counted;
      UploadEndDone(s, counted, refreshed, success, disk);
    } else if s.action == Open {
      ActionWorks(Settled(s), disk);
      FromSame(s, Settled(s), t);
    } else {
      DownloadEndDone(s, success, disk, s.action == Download);
    }
  }

  lemma FromSame(s: State, from: State, t: State)
    requires SameQueues(s, from) && from.calls == s.calls && from.currentPath == s.currentPath && WorksOff(from, t)
    ensures WorksOff(s, t)
  {
  }

  lemma UploadEndDone(s: State, counted: State, refreshed: State, success: bool, disk: Disk)
    requires Named(s.downloads) && Named(s.uploads) && counted == s.(upload := counted.upload)
    requires refreshed == if success then LoadDirectory(counted, s.currentPath) else counted
    ensures var t := if s.uploads != [] then StartNextQueuedUpload(refreshed, disk)
                     else StartNextQueuedAction(Settled(refreshed).(upload := NO_BATCH), disk);
      Works(s, t, s.uploads, s.opens, s.copies) && Follows(s, t)
  {
    hide Named, Posted, Listings, Works, RemotePath.Normalize, StartNextQueuedAction, StartNextQueuedUpload;
    LoadDirectoryMeans(counted, s.currentPath);
    var t := if s.uploads != [] then StartNextQueuedUpload(refreshed, disk)
             else StartNextQueuedAction(Settled(refreshed).(upload := NO_BATCH), disk);
    assert refreshed.downloads == s.downloads && SameQueues(s, refreshed) && Follows(s, refreshed);
    hide Stays, LoadDirectory;
    if s.uploads != [] {
      UploadWorks(refreshed, disk);
    } else {
      var settled := Settled(refreshed).(upload := NO_BATCH);
      ActionWorks(settled, disk);
      FromSame(refreshed, settled, t);
    }
    Then(s, refreshed, t);
    ThenFollows(s, refreshed, t);
  }

  lemma DownloadEndDone(s: State, success: bool, disk: Disk, wasDownload: bool)
    requires Named(s.downloads) && Named(s.uploads)
    ensures WorksOff(s, DownloadEnded(s, success, disk, wasDownload))
  {
    hide Named, Posted, Listings, Works, Stays, StartNextQueuedAction, StartNextQueuedDownload;
    var t := DownloadEnded(s, success, disk, wasDownload);
    DownloadOrder.NoNames();
    var counted := if s.download.active then s.(download := Counted(s.download, success)) else s;
    if s.download.active && s.downloads != [] {
      DownloadWorks(counted, disk);
      FromSame(s, counted, t);
    } else {
      var from := if wasDownload then Settled(counted).(downloads := [], download := NO_BATCH) else Settled(counted);
      ActionWorks(from, disk);
      FromSame(s, from, t);
    }
  }

  lemma RestDone(s: State, e: Event, disk: Disk)
    requires e.AskDeletes? || e.AskBrowse? || e.Disconnect?
    ensures StepDone(s, e, Step(s, e, disk), disk)
  {
    hide Posted, Listings, Selected, RemotePath.Normalize, LoadDirectory, DeleteEntries;
    var t := Step(s, e, disk);
    if e.AskDeletes? {
      DeleteEntriesMeans(s, e.paths);
      OneMoreCall(s.calls, DeleteFiles(Selected(s.lookup, Normalized(e.paths))));
      NothingPosted(s, t);
    } else if e.AskBrowse? {
      LoadDirectoryMeans(s, e.path);
      NothingPosted(s, t);
    }
    AsksNothing(s, e, t, disk);
  }

  /** A deletion that has ended. */
  lemma DeletedDone(s: State, success: bool, disk: Disk)
    requires Named(s.downloads) && Named(s.uploads)
    ensures var t := DeleteEnded(s, success, disk); Works(s, t, s.uploads, s.opens, s.copies) && Follows(s, t)
  {
    hide Named, Posted, Listings, Works, RemotePath.Normalize, StartNextQueuedAction;
    var t := DeleteEnded(s, success, disk);
    if s.action != Delete {
      NothingPosted(s, s);
    } else {
      LoadDirectoryMeans(s, s.currentPath);
      var listed := if success then LoadDirectory(s, s.currentPath) else s;
      assert SameQueues(s, listed) && Follows(s, listed) && listed.downloads == s.downloads;
      hide Stays, LoadDirectory;
      ActionWorks(Settled(listed), disk);
      FromSame(listed, Settled(listed), t);
      Then(s, listed, t);
      ThenFollows(s, listed, t);
    }
  }

  /** From a state with the same queues and calls, startNextQueuedAction works the queues off. */
  lemma NextDone(s: State, from: State, disk: Disk)
    requires Named(s.downloads) && Named(s.uploads) && from.downloads == s.downloads
    requires SameQueues(s, from) && from.calls == s.calls && from.currentPath == s.currentPath
    ensures var t := StartNextQueuedAction(from, disk); Works(s, t, s.uploads, s.opens, s.copies) && Follows(s, t)
  {
    hide Named, Works, Stays, StartNextQueuedAction;
    ActionWorks(from, disk);
    FromSame(s, from, StartNextQueuedAction(from, disk));
  }

  /** Every event adds what it asks for at the end of the queues, and works them off from the front. */
  lemma StepWorks(s: State, e: Event, disk: Disk)
    requires Named(s.downloads) && Named(s.uploads)
    ensures StepDone(s, e, Step(s, e, disk), disk)
  {
    hide StepDone, Works, Stays, Named, RemotePath.Normalize, StartNextQueuedAction, DownloadEntries, UploadLocalEntry,
      OpenEntry, CopyEntries, DeleteEntries, LoadDirectory, TransferEnded, DeleteEnded;
    var t := Step(s, e, disk);
    match e
    case AskDownloads(paths) => DownloadsDone(s, paths, disk);
    case AskUpload(rawPath) => UploadDone(s, rawPath, disk);
    case AskOpen(path) => OpenDone(s, path, disk);
    case AskCopies(paths) => CopyDone(s, paths, disk);
    case AskDeletes(paths) => RestDone(s, e, disk);
    case AskBrowse(path) => RestDone(s, e, disk);
    case Disconnect => RestDone(s, e, disk);
    case Listed(path, entries) =>
      NothingPosted(s, s);
      Unmoved(s);
      NextDone(s, s.(lookup := entries), disk);
      AsksNothing(s, e, t, disk);
    case Transferred(entry, success) =>
      TransferDone(s, entry, success, disk);
      AsksNothing(s, e, t, disk);
    case Copied =>
      NothingPosted(s, s);
      Unmoved(s);
      NextDone(s, Settled(s), disk);
      AsksNothing(s, e, t, disk);
    case Deleted(success) =>
      DeletedDone(s, success, disk);
      AsksNothing(s, e, t, disk);
  }

  lemma StepKeepsUploadsNamed(s: State, e: Event, disk: Disk)
    requires Named(s.downloads) && Named(s.uploads)
    ensures Named(Step(s, e, disk).uploads)
  {
    hide Step, Posted, RemotePath.Trimmed;
    StepWorks(s, e, disk);
    var waiting, t := s.uploads + AskedUploads(s, e, disk), Step(s, e, disk);
    assert Named(waiting);
    var part := Posted(t.calls)[|Posted(s.calls)|..];
    forall i | 0 <= i < |t.uploads| ensures t.uploads[i] != "" {
      assert t.uploads[i] == (part + t.uploads)[|part| + i];
    }
  }

  // ---------------------------------------------------------------------------------------
  // Over a run
  // ---------------------------------------------------------------------------------------

  function AllUploads(s: State, events: seq<Event>, disk: Disk): seq<string>
    decreases |events|
  {
    if events == [] then []
    else AskedUploads(s, events[0], disk) + AllUploads(Step(s, events[0], disk), events[1..], disk)
  }

  function AllOpens(s: State, events: seq<Event>, disk: Disk): seq<string>
    decreases |events|
  {
    if events == [] then [] else AskedOpens(s, events[0]) + AllOpens(Step(s, events[0], disk), events[1..], disk)
  }

  function AllCopies(s: State, events: seq<Event>, disk: Disk): seq<seq<string>>
    decreases |events|
  {
    if events == [] then [] else AskedCopies(s, events[0]) + AllCopies(Step(s, events[0], disk), events[1..], disk)
  }

  /** Over any run, the local files posted followed by those still waiting are the files asked for, in
      that order, without some that had vanished or were dropped by a lost connection. */
  lemma {:induction false} PostedInOrder(s: State, events: seq<Event>, disk: Disk)
    requires Named(s.downloads) && Named(s.uploads)
    ensures var t := Run(s, events, disk);
      && Posted(s.calls) <= Posted(t.calls)
      && Subsequence(Posted(t.calls)[|Posted(s.calls)|..] + t.uploads, s.uploads + AllUploads(s, events, disk))
    decreases |events|
  {
    hide Step, Posted, Listings, Named, AskedUploads, AskedOpens, AskedCopies;
    var t := Run(s, events, disk);
    if events == [] {
      SuffixIsSubsequence(s.uploads, s.uploads);
      assert Posted(t.calls)[|Posted(s.calls)|..] + t.uploads == s.uploads == s.uploads + [];
    } else {
      var m := Step(s, events[0], disk);
      StepWorks(s, events[0], disk);
      DownloadOrder.StepKeepsNames(s, events[0], disk);
      StepKeepsUploadsNamed(s, events[0], disk);
      PostedInOrder(m, events[1..], disk);
      var f0, f1, f2 := Posted(s.calls), Posted(m.calls), Posted(t.calls);
      DownloadOrder.Chained(f1[|f0|..], f2[|f1|..] + t.uploads, s.uploads, m.uploads,
        AskedUploads(s, events[0], disk), AllUploads(m, events[1..], disk));
      assert f2[|f0|..] + t.uploads == f1[|f0|..] + (f2[|f1|..] + t.uploads);
    }
  }

  lemma SuffixChained<T>(a: seq<T>, q0: seq<T>, r1: seq<T>, q1: seq<T>, r2: seq<T>)
    requires IsSuffix(q1, q0 + r1) && IsSuffix(a, q1 + r2)
    ensures IsSuffix(a, q0 + (r1 + r2))
  {
    var whole := q0 + (r1 + r2);
    assert whole == q0 + r1 + r2;
    assert whole[|whole| - |q1 + r2|..] == q1 + r2;
    assert whole[|whole| - |a|..] == (q1 + r2)[|q1 + r2| - |a|..];
  }

  /** Over any run, what waits to be opened and to be copied is an end part of what was asked for: both
      queues are worked off strictly from the front. */
  lemma {:induction false} WaitingInOrder(s: State, events: seq<Event>, disk: Disk)
    requires Named(s.downloads) && Named(s.uploads)
    ensures var t := Run(s, events, disk);
      && IsSuffix(t.opens, s.opens + AllOpens(s, events, disk))
      && IsSuffix(t.copies, s.copies + AllCopies(s, events, disk))
    decreases |events|
  {
    hide Step, Posted, Listings, Named, AskedUploads, AskedOpens, AskedCopies;
    if events == [] {
      assert s.opens + [] == s.opens && s.copies + [] == s.copies;
    } else {
      var m, t := Step(s, events[0], disk), Run(s, events, disk);
      StepWorks(s, events[0], disk);
      DownloadOrder.StepKeepsNames(s, events[0], disk);
      StepKeepsUploadsNamed(s, events[0], disk);
      WaitingInOrder(m, events[1..], disk);
      hide IsSuffix;
      SuffixChained(t.opens, s.opens, AskedOpens(s, events[0]), m.opens, AllOpens(m, events[1..], disk));
      SuffixChained(t.copies, s.copies, AskedCopies(s, events[0]), m.copies, AllCopies(m, events[1..], disk));
    }
  }

  /** Over any run the current folder is the one whose listing was asked for last. */
  lemma {:induction false} ListedIsCurrent(s: State, events: seq<Event>, disk: Disk)
    requires Named(s.downloads) && Named(s.uploads)
    ensures var t := Run(s, events, disk);
      var before, after := Listings(s.calls), Listings(t.calls);
      && before <= after && t.currentPath == if after == before then s.currentPath else after[|after| - 1]
    decreases |events|
  {
    hide Step, Posted, Listings, Named, Works;
    if events != [] {
      StepWorks(s, events[0], disk);
      DownloadOrder.StepKeepsNames(s, events[0], disk);
      StepKeepsUploadsNamed(s, events[0], disk);
      ListedIsCurrent(Step(s, events[0], disk), events[1..], disk);
    }
  }
}
