/** When the transfer scheduler comes to rest with uploads still queued. */
module Stranding {
  import RemotePath
  import opened Scheduler
  import opened Accounting
  import opened SchedulerRuns
  import opened Selection
  import opened Turns

  /** The next file to open is missing or a folder, or, with nothing to open, every file of the
      next copy request is missing. */
  predicate Blocked(s: State) {
    if s.opens != [] then
      var path := RemotePath.Normalize(s.opens[0]);
      path == "" || path !in s.lookup || s.lookup[path]
    else s.copies != [] && AllMissing(s.lookup, s.copies[0])
  }

  predicate AllMissing(lookup: map<string, bool>, paths: seq<string>) {
    forall i :: 0 <= i < |paths| ==> Missing(lookup, RemotePath.Normalize(paths[i]))
  }

  predicate Missing(lookup: map<string, bool>, path: string) {
    path == "" || path !in lookup
  }

  lemma NothingKnownExactly(lookup: map<string, bool>, paths: seq<string>)
    ensures Known(lookup, paths, []) == [] <==> AllMissing(lookup, paths)
  {
    KnownMeans(lookup, paths);
    hide Known, RemotePath.Normalize, FirstAt, Selected;
    var names, known := Normalized(paths), Known(lookup, paths, []);
    if known != [] {
      assert known[0] in known && known[0] in names;
    } else {
      forall i | 0 <= i < |paths| ensures Missing(lookup, RemotePath.Normalize(paths[i])) {
        assert names[i] in names && names[i] !in known;
      }
    }
  }

  predicate OnlyUploads(s: State) {
    s.downloads == [] && s.opens == [] && s.copies == []
  }

  /** With nothing but uploads queued the scheduler rests only when none is left. */
  predicate Finishes(t: State) {
    t.action == Idle ==> t.uploads == []
  }

  lemma ActionFinishes(s: State, disk: Disk)
    requires s.action == Idle && OnlyUploads(s)
    ensures Finishes(StartNextQueuedAction(s, disk))
    decreases Queued(s), 1
  {
    hide StartNextQueuedUpload;
    if s.uploads != [] {
      UploadFinishes(
        if s.upload.active then s
        else s.(upload := s.upload.(active := true,
               total := if s.upload.total == 0 then |s.uploads| else s.upload.total)),
        disk);
    }
  }

  lemma UploadFinishes(s: State, disk: Disk)
    requires OnlyUploads(s) && s.uploads != []
    ensures Finishes(StartNextQueuedUpload(s, disk))
    decreases Queued(s), 0
  {
    hide BeginUpload;
    BeginFinishes(s.(uploads := s.uploads[1..]), s.uploads[0], disk);
  }

  lemma BeginFinishes(s: State, local: string, disk: Disk)
    requires OnlyUploads(s)
    ensures Finishes(BeginUpload(s, local, disk))
    decreases Queued(s), 3
  {
    hide StartNextQueuedUpload, StartNextQueuedAction, StartPendingAction, RemotePath.Normalize;
    var seen := Looked(s);
    if disk(s.clock) {
      PendingFinishes(
        seen.(pendingLocal := local, pendingEntry := "", activeEntry := RemotePath.Normalize(local), action := Upload),
        disk);
    } else if s.uploads != [] {
      UploadFinishes(seen.(upload := s.upload.(completed := s.upload.completed + 1, failed := s.upload.failed + 1)),
        disk);
    } else {
      ActionFinishes(seen.(action := Idle, upload := NO_BATCH, pendingLocal := "", activeEntry := ""), disk);
    }
  }

  lemma PendingFinishes(s: State, disk: Disk)
    requires s.action == Upload && OnlyUploads(s)
    ensures Finishes(StartPendingAction(s, disk))
    decreases Queued(s), 2
  {
    hide StartNextQueuedUpload, StartNextQueuedAction, StartPendingAction;
    PendingUploadIs(s, disk);
    if s.pendingLocal == "" || !disk(s.clock) {
      if s.uploads != [] {
        UploadFinishes(NotStarted(s), disk);
      } else {
        ActionFinishes(NotStarted(s).(action := Idle, upload := NO_BATCH), disk);
      }
    }
  }

  /** Called with no action in progress, the scheduler rests with uploads left exactly when it has
      uploads, none of the queued downloads is still there, and the next open or copy request
      cannot be served. */
  lemma StrandsUploadsExactly(s: State, disk: Disk)
    requires s.action == Idle && Named(s.downloads)
    ensures var t := StartNextQueuedAction(s, disk);
      (t.action == Idle && t.uploads != []) <==>
        (s.uploads != [] && FirstPresent(s.lookup, s.downloads) == |s.downloads| && Blocked(s))
    decreases |s.downloads|
  {
    hide StartNextQueuedDownload, StartNextQueuedAction, Named, AllMissing, RemotePath.Normalize;
    if s.downloads != [] {
      var begun := if s.download.active then s else s.(download := Batch(true, |s.downloads|, 0, 0));
      StartsFirstPresent(begun, disk);
      DownloadTurnUnfolds(s, disk);
      NothingIsNamed();
      if FirstPresent(s.lookup, s.downloads) == |s.downloads| {
        StrandsUploadsExactly(DownloadsOver(begun), disk);
        assert FirstPresent(s.lookup, []) == 0 == |DownloadsOver(begun).downloads|;
      }
    } else {
      StrandsWithoutDownloads(s, disk);
    }
  }

  lemma NothingIsNamed()
    ensures Named([])
  {
  }

  lemma StrandsWithoutDownloads(s: State, disk: Disk)
    requires s.action == Idle && s.downloads == []
    ensures var t := StartNextQueuedAction(s, disk);
      (t.action == Idle && t.uploads != []) <==> (s.uploads != [] && Blocked(s))
  {
    if s.opens != [] {
      hide StartNextQueuedUpload, StartNextQueuedDownload, OpenEntry, RemotePath.Normalize;
      var popped := s.(opens := s.opens[1..]);
      assert StartNextQueuedAction(s, disk) == OpenEntry(popped, s.opens[0], disk);
      OpensAtOnce(popped, s.opens[0], disk);
    } else if s.copies != [] {
      hide StartNextQueuedUpload, StartNextQueuedDownload, Known, AllMissing;
      NothingKnownExactly(s.lookup, s.copies[0]);
    } else if s.uploads != [] {
      ActionFinishes(s, disk);
    }
  }

  // ---------------------------------------------------------------------------------------
  // It does happen
  // ---------------------------------------------------------------------------------------

  function TwoFiles(): map<string, bool> {
    map["/a" := false, "/b" := false]
  }

  function OpeningOne(): State {
    Initial("/").(lookup := TwoFiles(), pendingEntry := "/b", activeEntry := "/b", action := Open,
      calls := [OpenFile("/b")])
  }

  function WaitingBehind(): State {
    OpeningOne().(opens := ["/a"], uploads := ["/u"], upload := Batch(true, 1, 0, 0), clock := 1)
  }

  lemma PlainPathsAreFixed()
    ensures RemotePath.Normalize("/") == "/" && RemotePath.Normalize("/a") == "/a" && RemotePath.Normalize("/b") == "/b"
    ensures RemotePath.Trimmed("/u") == "/u"
  {
    RemotePath.NormalFormIsFixed("/");
    RemotePath.NormalFormIsFixed("/a");
    RemotePath.NormalFormIsFixed("/b");
  }

  lemma StrandedStart(disk: Disk)
    ensures Step(Initial("/"), Listed("/", TwoFiles()), disk) == Initial("/").(lookup := TwoFiles())
    ensures Step(Initial("/").(lookup := TwoFiles()), AskOpen("/b"), disk) == OpeningOne()
  {
    hide RemotePath.Normalize;
    PlainPathsAreFixed();
    OpensAtOnce(Initial("/").(lookup := TwoFiles()), "/b", disk);
  }

  lemma StrandedMiddle(disk: Disk)
    requires disk(0)
    ensures Step(Step(OpeningOne(), AskOpen("/a"), disk), AskUpload("/u"), disk) == WaitingBehind()
  {
    hide RemotePath.Normalize, RemotePath.Trimmed, StartNextQueuedAction, StartNextQueuedUpload, StartPendingAction;
    PlainPathsAreFixed();
    assert Step(OpeningOne(), AskOpen("/a"), disk) == OpeningOne().(opens := ["/a"]);
  }

  lemma StrandedEnd(disk: Disk)
    ensures Step(WaitingBehind(), Listed("/", map[]), disk) == WaitingBehind().(lookup := map[])
    ensures var t := Step(WaitingBehind().(lookup := map[]), Transferred("/b", true), disk);
      t.action == Idle && t.uploads == ["/u"]
  {
    hide RemotePath.Normalize, StartNextQueuedUpload, StartNextQueuedDownload;
    PlainPathsAreFixed();
    var settled := Settled(WaitingBehind().(lookup := map[]));
    OpensAtOnce(settled.(opens := []), "/a", disk);
    assert ["/a"][1..] == [];
    assert StartNextQueuedAction(settled, disk) == OpenEntry(settled.(opens := []), "/a", disk);
  }

  function StrandingEvents(): seq<Event> {
    [Listed("/", TwoFiles()), AskOpen("/b"), AskOpen("/a"), AskUpload("/u"), Listed("/", map[]),
     Transferred("/b", true)]
  }

  /** A file is being opened, another waits to be opened and an upload waits behind it.  The folder
      changes, the first file opens, and the upload is left behind with nothing in progress. */
  lemma StrandedExample(disk: Disk)
    requires disk(0)
    ensures var t := Run(Initial("/"), StrandingEvents(), disk);
      t.action == Idle && t.uploads == ["/u"]
  {
    hide Step, Run;
    StrandedStart(disk);
    StrandedMiddle(disk);
    StrandedEnd(disk);
    var e1, e2, e3, e4, e5, e6 := Listed("/", TwoFiles()), AskOpen("/b"), AskOpen("/a"), AskUpload("/u"),
      Listed("/", map[]), Transferred("/b", true);
    RunSix(Initial("/"), e1, e2, e3, e4, e5, e6, disk);
  }

  lemma RunSix(s: State, a: Event, b: Event, c: Event, d: Event, e: Event, f: Event, disk: Disk)
    ensures Run(s, [a, b, c, d, e, f], disk)
      == Step(Step(Step(Step(Step(Step(s, a, disk), b, disk), c, disk), d, disk), e, disk), f, disk)
  {
    hide Step;
    var s1 := Step(s, a, disk);
    var s2 := Step(s1, b, disk);
    var s3 := Step(s2, c, disk);
    var s4 := Step(s3, d, disk);
    var s5 := Step(s4, e, disk);
    RunFirst(s, a, [b, c, d, e, f], disk);
    RunFirst(s1, b, [c, d, e, f], disk);
    RunFirst(s2, c, [d, e, f], disk);
    RunFirst(s3, d, [e, f], disk);
    RunFirst(s4, e, [f], disk);
    RunFirst(s5, f, [], disk);
    assert [a] + [b, c, d, e, f] == [a, b, c, d, e, f] && [b] + [c, d, e, f] == [b, c, d, e, f];
    assert [c] + [d, e, f] == [c, d, e, f] && [d] + [e, f] == [d, e, f] && [e] + [f] == [e, f] && [f] + [] == [f];
  }
}
