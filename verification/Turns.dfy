/** Whose turn it is: what the transfer scheduler does next when nothing is in progress, which of the
    queued uploads that is, and in what order the queues are worked off over a run. */
module Turns {
  import RemotePath
  import opened Scheduler
  import opened Accounting
  import opened Selection
  import opened SchedulerRuns
  import opened Subsequences

  // ---------------------------------------------------------------------------------------
  // The next upload
  // ---------------------------------------------------------------------------------------

  /** A queued upload is begun when the disk answers yes twice in a row; a first no costs one look. */
  predicate Exists(clock: nat, disk: Disk) {
    disk(clock) && disk(clock + 1)
  }

  function Looks(clock: nat, disk: Disk): nat {
    if disk(clock) then 2 else 1
  }

  /** The first of n queued uploads whose file exists when its turn comes, or n. */
  function FirstExisting(n: nat, clock: nat, disk: Disk): (k: nat)
    ensures k <= n
  {
    if n == 0 || Exists(clock, disk) then 0 else 1 + FirstExisting(n - 1, clock + Looks(clock, disk), disk)
  }

  function ClockAt(k: nat, clock: nat, disk: Disk): nat {
    if k == 0 then clock else ClockAt(k - 1, clock + Looks(clock, disk), disk)
  }

  function Posting(s: State, k: nat, disk: Disk): State
    requires k < |s.uploads|
  {
    Request(s.(uploads := s.uploads[k + 1..], upload := Skipped(s.upload, k), clock := ClockAt(k, s.clock, disk) + 2,
               pendingLocal := s.uploads[k], pendingEntry := "", activeEntry := RemotePath.Normalize(s.uploads[k]),
               action := Upload),
            Post(s.uploads[k], s.currentPath))
  }

  /** All queued uploads have vanished. */
  predicate UploadsGone(s: State, over: State) {
    && over.action == Idle && over.uploads == [] && over.upload == NO_BATCH
    && over.calls == s.calls && over.lookup == s.lookup && over.currentPath == s.currentPath
    && over.downloads == s.downloads && over.opens == s.opens && over.copies == s.copies
    && over.download == s.download
  }

  /** The files that have vanished are counted as failed and passed over, the first that exists is
      posted to the current folder and the rest stays queued; when none exists the batch is over. */
  lemma {:induction false} StartsFirstExisting(s: State, disk: Disk) returns (over: State)
    requires s.uploads != [] && Named(s.uploads)
    ensures var k := FirstExisting(|s.uploads|, s.clock, disk);
      if k < |s.uploads| then StartNextQueuedUpload(s, disk) == Posting(s, k, disk)
      else UploadsGone(s, over) && StartNextQueuedUpload(s, disk) == StartNextQueuedAction(over, disk)
    decreases |s.uploads|
  {
    hide Named, StartNextQueuedUpload, BeginUpload, StartNextQueuedAction, RemotePath.Normalize, Posting;
    var local, rest := s.uploads[0], s.uploads[1..];
    var popped := s.(uploads := rest);
    RestNamed(s.uploads);
    UploadUnfolds(s, disk);
    over := s;
    if Exists(s.clock, disk) {
      BeginExisting(popped, local, disk);
      PostingFirst(s, disk);
    } else {
      var next := BeginVanished(popped, local, disk);
      if rest == [] {
        over := next;
        assert FirstExisting(0, s.clock + Looks(s.clock, disk), disk) == 0;
      } else {
        over := StartsFirstExisting(next, disk);
        var k := FirstExisting(|rest|, next.clock, disk);
        assert FirstExisting(|s.uploads|, s.clock, disk) == k + 1;
        if k < |rest| {
          PostingLater(s, next, k, disk);
        }
      }
    }
  }

  lemma RestNamed(q: seq<string>)
    requires q != [] && Named(q)
    ensures Named(q[1..]) && q[0] != ""
  {
    assert forall i :: 0 <= i < |q[1..]| ==> q[1..][i] == q[i + 1];
  }

  lemma UploadUnfolds(s: State, disk: Disk)
    requires s.uploads != []
    ensures StartNextQueuedUpload(s, disk) == BeginUpload(s.(uploads := s.uploads[1..]), s.uploads[0], disk)
  {
    hide BeginUpload;
  }

  lemma PostingFirst(s: State, disk: Disk)
    requires s.uploads != [] && Exists(s.clock, disk)
    ensures Posting(s, 0, disk) ==
      Request(s.(uploads := s.uploads[1..], clock := s.clock + 2, pendingLocal := s.uploads[0], pendingEntry := "",
                activeEntry := RemotePath.Normalize(s.uploads[0]), action := Upload),
              Post(s.uploads[0], s.currentPath))
  {
    hide RemotePath.Normalize;
    assert Skipped(s.upload, 0) == s.upload;
  }

  /** Passing over the first file changes nothing else about what is posted. */
  lemma PostingLater(s: State, next: State, k: nat, disk: Disk)
    requires s.uploads != [] && k < |s.uploads| - 1
    requires next == s.(uploads := s.uploads[1..], clock := s.clock + Looks(s.clock, disk),
      upload := Skipped(s.upload, 1), action := next.action, pendingLocal := next.pendingLocal,
      pendingEntry := next.pendingEntry, activeEntry := next.activeEntry)
    ensures Posting(next, k, disk) == Posting(s, k + 1, disk)
  {
    hide RemotePath.Normalize;
    assert s.uploads[1..][k + 1..] == s.uploads[k + 2..];
  }

  lemma BeginExisting(s: State, local: string, disk: Disk)
    requires Exists(s.clock, disk) && local != ""
    ensures BeginUpload(s, local, disk) ==
      Request(Looked(Looked(s)).(pendingLocal := local, pendingEntry := "",
                activeEntry := RemotePath.Normalize(local), action := Upload),
              Post(local, s.currentPath))
  {
    hide StartNextQueuedUpload, StartNextQueuedAction, StartPendingAction, RemotePath.Normalize;
    var pending := Looked(s).(pendingLocal := local, pendingEntry := "",
      activeEntry := RemotePath.Normalize(local), action := Upload);
    PendingUploadIs(pending, disk);
  }

  /** A file that has vanished is counted; `next` is the state from which the others go on. */
  lemma BeginVanished(s: State, local: string, disk: Disk) returns (next: State)
    requires !Exists(s.clock, disk) && local != ""
    ensures BeginUpload(s, local, disk) ==
      if s.uploads != [] then StartNextQueuedUpload(next, disk) else StartNextQueuedAction(next, disk)
    ensures s.uploads != [] ==>
      next == s.(clock := s.clock + Looks(s.clock, disk), upload := Skipped(s.upload, 1), action := next.action,
                 pendingLocal := next.pendingLocal, pendingEntry := next.pendingEntry, activeEntry := next.activeEntry)
    ensures s.uploads == [] ==> UploadsGone(s, next)
  {
    hide StartNextQueuedUpload, StartNextQueuedAction, StartPendingAction, RemotePath.Normalize;
    var pending := Looked(s).(pendingLocal := local, pendingEntry := "",
      activeEntry := RemotePath.Normalize(local), action := Upload);
    PendingUploadIs(pending, disk);
    if disk(s.clock) {
      next := if s.uploads != [] then NotStarted(pending)
              else NotStarted(pending).(action := Idle, upload := NO_BATCH);
    } else if s.uploads != [] {
      next := Looked(s).(upload := Skipped(s.upload, 1));
    } else {
      next := Looked(s).(action := Idle, upload := NO_BATCH, pendingLocal := "", activeEntry := "");
    }
  }

  // ---------------------------------------------------------------------------------------
  // The next turn
  // ---------------------------------------------------------------------------------------

  /** What is asked of the module next: the first queued download that the folder still has, else the
      first file to be opened, else the files of the first copy request, else the first queued upload
      that exists.  A first file that cannot be opened, and a first copy request of which nothing is
      left, use up the turn. */
  function NextCalls(s: State, disk: Disk): seq<Call> {
    var d, u := FirstPresent(s.lookup, s.downloads), FirstExisting(|s.uploads|, s.clock, disk);
    if d < |s.downloads| then [Fetch(s.downloads[d])]
    else if s.opens != [] then
      var path := RemotePath.Normalize(s.opens[0]);
      if path != "" && path in s.lookup && !s.lookup[path] then [OpenFile(path)] else []
    else if s.copies != [] then
      var selected := Selected(s.lookup, Normalized(s.copies[0]));
      if selected != [] then [CopyToClipboard(selected)] else []
    else if u < |s.uploads| then [Post(s.uploads[u], s.currentPath)]
    else []
  }

  /** The queues after that turn; the folder is the same. */
  predicate QueuesAfter(s: State, t: State, disk: Disk) {
    var d, u := FirstPresent(s.lookup, s.downloads), FirstExisting(|s.uploads|, s.clock, disk);
    var opening := d == |s.downloads| && s.opens != [];
    var copying := d == |s.downloads| && s.opens == [] && s.copies != [];
    var uploading := d == |s.downloads| && s.opens == [] && s.copies == [];
    && t.lookup == s.lookup && t.currentPath == s.currentPath
    && t.downloads == (if d < |s.downloads| then s.downloads[d + 1..] else [])
    && t.opens == (if opening then s.opens[1..] else s.opens)
    && t.copies == (if copying then s.copies[1..] else s.copies)
    && t.uploads == (if !uploading then s.uploads else if u < |s.uploads| then s.uploads[u + 1..] else [])
  }

  predicate TurnTaken(s: State, t: State, disk: Disk) {
    t.calls == s.calls + NextCalls(s, disk) && QueuesAfter(s, t, disk)
  }

  lemma TurnWithoutDownloads(s: State, disk: Disk)
    requires s.action == Idle && s.downloads == [] && Named(s.uploads)
    ensures TurnTaken(s, StartNextQueuedAction(s, disk), disk)
  {
    hide Named, Selected, RemotePath.Normalize, OpenEntry, CopyEntries, StartNextQueuedUpload, StartNextQueuedDownload,
      FirstExisting;
    if s.opens != [] {
      OpensAtOnce(s.(opens := s.opens[1..]), s.opens[0], disk);
    } else if s.copies != [] {
      CopyEntriesMeans(s.(copies := s.copies[1..]), s.copies[0]);
    } else if s.uploads != [] {
      UploadTurn(s, disk);
    }
  }

  lemma UploadTurn(s: State, disk: Disk)
    requires s.action == Idle && s.downloads == s.opens == [] && s.copies == [] && s.uploads != [] && Named(s.uploads)
    ensures TurnTaken(s, StartNextQueuedAction(s, disk), disk)
  {
    hide Named, StartNextQueuedUpload, FirstExisting, RemotePath.Normalize;
    var begun := if s.upload.active then s
      else
        s.(upload := s.upload.(active := true, total := if s.upload.total == 0 then |s.uploads| else s.upload.total));
    var over := StartsFirstExisting(begun, disk);
  }

  /** With nothing in progress, startNextQueuedAction asks for exactly this and takes exactly what it
      has dealt with off the queues; what has vanished is passed over. */
  lemma NextTurn(s: State, disk: Disk)
    requires s.action == Idle && Named(s.downloads) && Named(s.uploads)
    ensures TurnTaken(s, StartNextQueuedAction(s, disk), disk)
  {
    hide TurnTaken, Named, StartNextQueuedAction, StartNextQueuedDownload, FirstPresent, DownloadsOver;
    if s.downloads == [] {
      TurnWithoutDownloads(s, disk);
    } else {
      var begun := if s.download.active then s else s.(download := Batch(true, |s.downloads|, 0, 0));
      DownloadTurnUnfolds(s, disk);
      StartsFirstPresent(begun, disk);
      var k := FirstPresent(s.lookup, s.downloads);
      if k < |s.downloads| {
        FetchingTurn(s, begun, disk);
      } else {
        DownloadsOverTurn(s, begun, disk);
      }
    }
  }

  lemma DownloadTurnUnfolds(s: State, disk: Disk)
    requires s.action == Idle && s.downloads != []
    ensures StartNextQueuedAction(s, disk) ==
      StartNextQueuedDownload(if s.download.active then s else s.(download := Batch(true, |s.downloads|, 0, 0)), disk)
  {
    hide StartNextQueuedDownload;
  }

  lemma FetchingTurn(s: State, begun: State, disk: Disk)
    requires begun == s.(download := begun.download) && FirstPresent(s.lookup, s.downloads) < |s.downloads|
    ensures var k := FirstPresent(s.lookup, s.downloads);
      var rest := begun.(downloads := s.downloads[k + 1..], download := Skipped(begun.download, k));
      TurnTaken(s, Fetching(rest, s.downloads[k]), disk)
  {
    hide FirstPresent, FirstExisting, Selected, RemotePath.Normalize;
  }

  lemma DownloadsOverTurn(s: State, begun: State, disk: Disk)
    requires begun == s.(download := begun.download) && FirstPresent(s.lookup, s.downloads) == |s.downloads|
    requires Named(s.uploads)
    ensures TurnTaken(s, StartNextQueuedAction(DownloadsOver(begun), disk), disk)
  {
    hide FirstExisting, Selected, RemotePath.Normalize, StartNextQueuedAction, Named;
    TurnWithoutDownloads(DownloadsOver(begun), disk);
    assert FirstPresent(s.lookup, []) == 0;
  }
}
