/** The transfer scheduler of apps/desktop/src/FileManagerController.cpp as functions on its state:
    one action at a time, four queues, a batch of downloads and one of uploads.  The file-share
    module is enabled throughout and no drag export is running.  What the controller asks of the
    module is recorded in `calls`.  Each look at the local disk consumes one answer of `disk`. */
module Scheduler {
  import RemotePath

  datatype Action = Idle | Download | Open | Copy | Upload | Delete

  datatype Batch = Batch(active: bool, total: int, completed: int, failed: int)

  const NO_BATCH: Batch := Batch(false, 0, 0, 0)

  datatype Call =
    | Fetch(path: string)
    | OpenFile(path: string)
    | CopyToClipboard(paths: seq<string>)
    | Post(local: string, remoteDirectory: string)
    | DeleteFiles(paths: seq<string>)
    | List(directory: string)

  /** `lookup` maps the paths of the current folder to whether they are folders. */
  datatype State = State(
    action: Action,
    lookup: map<string, bool>,
    currentPath: string,
    downloads: seq<string>,
    opens: seq<string>,
    copies: seq<seq<string>>,
    uploads: seq<string>,
    pendingEntry: string,
    pendingLocal: string,
    pendingCopies: seq<string>,
    activeEntry: string,
    download: Batch,
    upload: Batch,
    exportTotal: nat,
    exportCompleted: nat,
    clock: nat,
    calls: seq<Call>)

  type Disk = nat -> bool

  function Queued(s: State): nat {
    |s.downloads| + |s.opens| + |s.copies| + |s.uploads|
  }

  function Request(s: State, c: Call): State {
    s.(calls := s.calls + [c])
  }

  /** One look at the disk. */
  function Looked(s: State): State {
    s.(clock := s.clock + 1)
  }

  // ---------------------------------------------------------------------------------------
  // Starting work
  // ---------------------------------------------------------------------------------------

  function StartNextQueuedAction(s: State, disk: Disk): State
    decreases Queued(s), 1
  {
    if s.action != Idle then s
    else if s.downloads != [] then
      StartNextQueuedDownload(
        if s.download.active then s else s.(download := Batch(true, |s.downloads|, 0, 0)), disk)
    else if s.opens != [] then
      OpenEntry(s.(opens := s.opens[1..]), s.opens[0], disk)
    else if s.copies != [] then
      CopyEntries(s.(copies := s.copies[1..]), s.copies[0])
    else if s.uploads != [] then
      StartNextQueuedUpload(
        if s.upload.active then s
        else s.(upload := s.upload.(active := true,
               total := if s.upload.total == 0 then |s.uploads| else s.upload.total)),
        disk)
    else s
  }

  function Present(lookup: map<string, bool>, paths: seq<string>): seq<string> {
    if paths == [] then []
    else (if paths[0] in lookup then [paths[0]] else []) + Present(lookup, paths[1..])
  }

  function StartPendingAction(s: State, disk: Disk): State
    decreases Queued(s), 2
  {
    if s.action == Idle then s
    else if s.action == Upload then
      if s.pendingLocal == "" then
        if s.uploads != [] then StartNextQueuedUpload(s, disk)
        else StartNextQueuedAction(s.(action := Idle, upload := NO_BATCH), disk)
      else
        var seen := Looked(s);
        if !disk(s.clock) then
          var skipped := seen.(upload := s.upload.(completed := s.upload.completed + 1, failed := s.upload.failed + 1));
          if s.uploads != [] then StartNextQueuedUpload(skipped, disk)
          else StartNextQueuedAction(skipped.(action := Idle, upload := NO_BATCH), disk)
        else Request(seen, Post(s.pendingLocal, s.currentPath))
    else if s.action == Copy && s.pendingCopies != [] then
      var found := Present(s.lookup, s.pendingCopies);
      if found == [] then StartNextQueuedAction(s.(action := Idle), disk)
      else Request(s, CopyToClipboard(found))
    else if s.pendingEntry == "" then s
    else if s.pendingEntry !in s.lookup then
      StartNextQueuedAction(s.(action := Idle), disk)
    else if s.action == Open then Request(s, OpenFile(s.pendingEntry))
    else if s.action == Copy then Request(s, CopyToClipboard([s.pendingEntry]))
    else Request(s, Fetch(s.pendingEntry))
  }

  function BeginDownload(s: State, path: string, partOfBatch: bool, disk: Disk): State
    decreases Queued(s), 3
  {
    if path !in s.lookup then
      if !partOfBatch then s
      else
        var download := s.download;
        var skipped := s.(download := download.(completed := download.completed + 1, failed := download.failed + 1));
        if s.downloads != [] then StartNextQueuedDownload(skipped, disk)
        else
          StartNextQueuedAction(
            s.(pendingEntry := "", pendingLocal := "", activeEntry := "", download := NO_BATCH, action := Idle), disk)
    else
      StartPendingAction(s.(pendingEntry := path, pendingLocal := "", activeEntry := path, action := Download), disk)
  }

  function StartNextQueuedDownload(s: State, disk: Disk): State
    decreases Queued(s), 0
  {
    if s.downloads == [] then s
    else BeginDownload(s.(downloads := s.downloads[1..]), s.downloads[0], true, disk)
  }

  function StartNextQueuedUpload(s: State, disk: Disk): State
    decreases Queued(s), 0
  {
    if s.uploads == [] then s
    else BeginUpload(s.(uploads := s.uploads[1..]), s.uploads[0], disk)
  }

  function BeginUpload(s: State, local: string, disk: Disk): State
    decreases Queued(s), 3
  {
    var seen := Looked(s);
    if !disk(s.clock) then
      var skipped := seen.(upload := s.upload.(completed := s.upload.completed + 1, failed := s.upload.failed + 1));
      if s.uploads != [] then StartNextQueuedUpload(skipped, disk)
      else
        StartNextQueuedAction(
          seen.(action := Idle, upload := NO_BATCH, pendingLocal := "", activeEntry := ""), disk)
    else
      StartPendingAction(
        seen.(pendingLocal := local, pendingEntry := "", activeEntry := RemotePath.Normalize(local), action := Upload),
        disk)
  }

  function OpenEntry(s: State, remotePath: string, disk: Disk): State
    decreases Queued(s), 3
  {
    var path := RemotePath.Normalize(remotePath);
    if path == "" || path !in s.lookup || s.lookup[path] then s
    else if s.action != Idle then
      if path == s.pendingEntry || path == s.activeEntry || path in s.opens then s
      else s.(opens := s.opens + [path])
    else
      StartPendingAction(s.(pendingEntry := path, pendingLocal := "", activeEntry := path, action := Open), disk)
  }

  /** The distinct normalised paths that the current folder has, in the order given. */
  function Known(lookup: map<string, bool>, remotePaths: seq<string>, soFar: seq<string>): seq<string>
    decreases |remotePaths|
  {
    if remotePaths == [] then soFar
    else
      var path := RemotePath.Normalize(remotePaths[0]);
      Known(lookup, remotePaths[1..], if path == "" || path in soFar || path !in lookup then soFar else soFar + [path])
  }

  function CopyEntries(s: State, remotePaths: seq<string>): State {
    var paths := Known(s.lookup, remotePaths, []);
    if paths == [] then s
    else if s.action != Idle then
      if (s.action == Copy && s.pendingCopies == paths) || paths in s.copies then s
      else s.(copies := s.copies + [paths])
    else
      var entry := if |paths| == 1 then paths[0] else "";
      Request(s.(pendingCopies := paths, pendingEntry := entry, pendingLocal := "", activeEntry := entry,
                 action := Copy, exportTotal := |paths|, exportCompleted := 0),
              CopyToClipboard(paths))
  }

  // ---------------------------------------------------------------------------------------
  // What the user and the module do
  // ---------------------------------------------------------------------------------------

  /** The paths of `paths` that are neither being downloaded nor queued, added to the queue. */
  function Enqueued(queue: seq<string>, pendingEntry: string, activeEntry: string, paths: seq<string>): (q: seq<string>)
    ensures queue <= q
    decreases |paths|
  {
    if paths == [] then queue
    else
      Enqueued(
        if paths[0] == pendingEntry || paths[0] == activeEntry || paths[0] in queue then queue else queue + [paths[0]],
        pendingEntry, activeEntry, paths[1..])
  }

  function DownloadEntries(s: State, remotePaths: seq<string>, disk: Disk): State {
    var paths := Known(s.lookup, remotePaths, []);
    if paths == [] then s
    else if s.action != Idle then
      var queue := Enqueued(s.downloads, s.pendingEntry, s.activeEntry, paths);
      var added := |queue| - |s.downloads|;
      if added == 0 then s
      else s.(downloads := queue,
              download :=
                if s.download.active then s.download.(total := s.download.total + added)
                else Batch(true, if s.action == Download then 1 + added else added, 0, 0))
    else if |paths| == 1 then
      BeginDownload(s.(downloads := [], download := Batch(false, 1, 0, 0)), paths[0], false, disk)
    else
      StartNextQueuedDownload(s.(downloads := paths, download := Batch(true, |paths|, 0, 0)), disk)
  }

  function UploadLocalEntry(s: State, rawPath: string, disk: Disk): State {
    var local := RemotePath.Trimmed(rawPath);
    if local == "" then s
    else
      var seen := Looked(s);
      if !disk(s.clock) || local in s.uploads || s.pendingLocal == local then seen
      else
        var batch := if s.upload.active then s.upload else Batch(true, 0, 0, 0);
        var queued := seen.(uploads := s.uploads + [local], upload := batch.(total := batch.total + 1));
        if s.action != Idle then queued else StartNextQueuedUpload(queued, disk)
  }

  function DeleteEntries(s: State, remotePaths: seq<string>): State {
    var paths := Known(s.lookup, remotePaths, []);
    if paths == [] || s.action != Idle then s
    else Request(s.(action := Delete), DeleteFiles(paths))
  }

  /** loadDirectory. */
  function LoadDirectory(s: State, remotePath: string): State {
    var path := RemotePath.Normalize(remotePath);
    if path == "" then s else Request(s.(currentPath := path), List(path))
  }

  function Disconnected(s: State): State {
    s.(action := Idle, lookup := map[], downloads := [], uploads := [], copies := [], opens := [],
       pendingEntry := "", pendingLocal := "", activeEntry := "",
       download := s.download.(active := false), upload := s.upload.(active := false))
  }

  function DirectoryListed(s: State, path: string, entries: map<string, bool>, disk: Disk): State {
    if RemotePath.Normalize(path) != s.currentPath then s
    else StartNextQueuedAction(s.(lookup := entries), disk)
  }

  /** The result of a transfer is taken for the one in progress. */
  predicate Accepted(s: State, entry: string) {
    s.action != Idle && (s.activeEntry == "" || entry == s.activeEntry)
  }

  function Settled(s: State): State {
    s.(pendingEntry := "", pendingLocal := "", activeEntry := "", pendingCopies := [], action := Idle)
  }

  function Counted(b: Batch, success: bool): Batch {
    b.(completed := b.completed + 1, failed := b.failed + if success then 0 else 1)
  }

  function TransferEnded(s: State, entry: string, success: bool, disk: Disk): State {
    if !Accepted(s, entry) then s
    else match s.action
      case Copy => s.(exportCompleted := s.exportCompleted + 1)
      case Upload =>
        var counted := s.(upload := Counted(s.upload, success));
        var refreshed := if success then LoadDirectory(counted, s.currentPath) else counted;
        if s.uploads != [] then StartNextQueuedUpload(refreshed, disk)
        else StartNextQueuedAction(Settled(refreshed).(upload := NO_BATCH), disk)
      case Open => StartNextQueuedAction(Settled(s), disk)
      case Download => DownloadEnded(s, success, disk, true)
      case _ => DownloadEnded(s, success, disk, false)
  }

  /** The last branch of the handler, which is also taken while files are being deleted. */
  function DownloadEnded(s: State, success: bool, disk: Disk, wasDownload: bool): State {
    var counted := if s.download.active then s.(download := Counted(s.download, success)) else s;
    if s.download.active && s.downloads != [] then StartNextQueuedDownload(counted, disk)
    else
      var settled := Settled(counted);
      StartNextQueuedAction(if wasDownload then settled.(downloads := [], download := NO_BATCH) else settled, disk)
  }

  function CopyEnded(s: State, disk: Disk): State {
    if s.action != Copy then s else StartNextQueuedAction(Settled(s), disk)
  }

  function DeleteEnded(s: State, success: bool, disk: Disk): State {
    if s.action != Delete then s
    else StartNextQueuedAction(Settled(if success then LoadDirectory(s, s.currentPath) else s), disk)
  }
}
