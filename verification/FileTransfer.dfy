/** The wire protocols of whole directories and single files (modules/common/src/TransferChannel.cpp,
    CoSendDirectory/CoReceiveDirectory, CoSendFile/CoReceiveFile, CoReceiveFileData and the
    FileHeader codec), as functions on byte sequences. */
module FileTransfer {
  import opened Packable
  import opened SafePath

  // ---------------------------------------------------------------------------------------
  // File headers
  // ---------------------------------------------------------------------------------------

  datatype FileHeader = FileHeader(relativePath: seq<byte>, fileSize: u64, last: bool)

  function HeaderSize(path: seq<byte>): nat {
    8 + |path| + 8 + 1
  }

  function EncHeader(h: FileHeader): (e: seq<byte>)
    requires ValidString(h.relativePath)
    ensures |e| == HeaderSize(h.relativePath)
  {
    EncString(h.relativePath) + (EncU64(h.fileSize) + EncBool(h.last))
  }

  function DecHeader(b: seq<byte>, o: nat): (r: Parsed<FileHeader>)
    ensures r.Ok? ==> r.next == o + HeaderSize(r.value.relativePath) <= |b|
  {
    match DecString(b, o)
    case OutOfBounds => OutOfBounds
    case Ok(path, o1) =>
      match DecU64(b, o1)
      case OutOfBounds => OutOfBounds
      case Ok(size, o2) =>
        match DecBool(b, o2)
        case OutOfBounds => OutOfBounds
        case Ok(last, o3) => Ok(FileHeader(path, size, last), o3)
  }

  lemma BoolAt(x: bool, b: seq<byte>, o: nat)
    requires At(b, o, EncBool(x))
    ensures DecBool(b, o) == Ok(x, o + 1)
  {
    assert b[o] == b[o..o + 1][0];
  }

  lemma HeaderRoundTrip(h: FileHeader, b: seq<byte>, o: nat)
    requires ValidString(h.relativePath) && At(b, o, EncHeader(h))
    ensures DecHeader(b, o) == Ok(h, o + HeaderSize(h.relativePath))
  {
    hide DecU64, DecBool, EncU64, EncBool, EncString;
    var p := EncString(h.relativePath);
    AtSplit(b, o, p, EncU64(h.fileSize) + EncBool(h.last));
    AtSplit(b, o + |p|, EncU64(h.fileSize), EncBool(h.last));
    StringRoundTrip(h.relativePath, b, o);
    U64RoundTrip(h.fileSize, b, o + |p|);
    BoolAt(h.last, b, o + |p| + 8);
  }

  // ---------------------------------------------------------------------------------------
  // Directories: the sender
  // ---------------------------------------------------------------------------------------

  const MAX_HEADER: nat := 1024

  /** A file as the sender sees it: its path relative to the sent directory and its bytes. */
  datatype Record = Record(path: seq<byte>, content: seq<byte>)

  ghost predicate Sendable(r: Record) {
    ValidString(r.path) && HeaderSize(r.path) < TWO_64 && |r.content| < TWO_64
  }

  ghost predicate AllSendable(rs: seq<Record>) {
    forall i :: 0 <= i < |rs| ==> Sendable(rs[i])
  }

  function EncRecordHeader(path: seq<byte>, size: u64, last: bool): seq<byte>
    requires ValidString(path) && HeaderSize(path) < TWO_64
  {
    EncU64(HeaderSize(path)) + EncHeader(FileHeader(path, size, last))
  }

  ghost function EncRecord(r: Record, last: bool): seq<byte>
    requires Sendable(r)
  {
    EncRecordHeader(r.path, |r.content|, last) + r.content
  }

  ghost function EncRecords(rs: seq<Record>): seq<byte>
    requires AllSendable(rs)
  {
    if rs == [] then [] else EncRecord(rs[0], |rs| == 1) + EncRecords(rs[1..])
  }

  /** Everything CoSendDirectory writes: a header and a body for each file, or the terminator
      header alone when there is no file. */
  ghost function EncDirectory(rs: seq<Record>): seq<byte>
    requires AllSendable(rs)
  {
    if rs == [] then EncRecordHeader([], 0, true) else EncRecords(rs)
  }

  // ---------------------------------------------------------------------------------------
  // Directories: the receiver
  // ---------------------------------------------------------------------------------------

  datatype Failure = EndOfStream | HeaderTooLarge | MalformedHeader | CannotOpen | UnexpectedHeader

  type Files = map<Path, seq<byte>>

  /** What the receiving side meets: the destination, the canonicalisation of paths, and which
      paths can be opened for writing, which may depend on the files written so far. */
  datatype Destination = Destination(base: Path, canonical: Path -> Option<Path>, openable: (Files, Path) -> bool)
  {
    function Target(headerPath: seq<byte>): Option<Path> {
      SafeReceivePath(base, headerPath, canonical)
    }
  }

  datatype DirectoryOutcome =
    | Completed(files: Files, progress: nat, unread: seq<byte>)
    | Failed(failure: Failure)

  function FreshHeaderBuffer(): (buffer: seq<byte>)
    ensures |buffer| == MAX_HEADER
  {
    seq(MAX_HEADER, _ => 0)
  }

  /** The header of the next record, read through the receiver's 1024-byte header buffer, which
      still holds the end of the previous header; also the new buffer and what is left. */
  datatype HeaderRead = Header(header: FileHeader, buffer: seq<byte>, unread: seq<byte>) | NoHeader(failure: Failure)

  function ReadHeader(buffer: seq<byte>, input: seq<byte>): (r: HeaderRead)
    requires |buffer| == MAX_HEADER
    ensures r.Header? ==> |r.buffer| == MAX_HEADER && |r.unread| < |input|
  {
    if |input| < 8 then NoHeader(EndOfStream)
    else
      var size := DecU64(input[..8], 0).value;
      if size > MAX_HEADER then NoHeader(HeaderTooLarge)
      else if |input| - 8 < size then NoHeader(EndOfStream)
      else
        var filled := Splice(buffer, 0, input[8..8 + size]);
        match DecHeader(filled, 0)
        case OutOfBounds => NoHeader(MalformedHeader)
        case Ok(header, _) => Header(header, filled, input[8 + size..])
  }

  predicate IsTerminator(h: FileHeader) {
    h.last && h.fileSize == 0 && h.relativePath == []
  }

  /** The receive loop: rejected files are read past, accepted ones are written. */
  function ReceiveRecords(d: Destination, buffer: seq<byte>, input: seq<byte>, files: Files,
      progress: nat): DirectoryOutcome
    requires |buffer| == MAX_HEADER
    decreases |input|
  {
    match ReadHeader(buffer, input)
    case NoHeader(failure) => Failed(failure)
    case Header(h, filled, body) =>
      if IsTerminator(h) then Completed(files, progress, body)
      else match d.Target(h.relativePath)
           case None =>
             if |body| < h.fileSize then Failed(EndOfStream)
             else if h.last then Completed(files, progress, body[h.fileSize..])
             else ReceiveRecords(d, filled, body[h.fileSize..], files, progress)
           case Some(target) =>
             if NamesDirectory(h.relativePath) || !d.openable(files, target) then Failed(CannotOpen)
             else if |body| < h.fileSize then Failed(EndOfStream)
             else
               var written := files[target := body[..h.fileSize]];
               if h.last then Completed(written, progress + h.fileSize, body[h.fileSize..])
               else ReceiveRecords(d, filled, body[h.fileSize..], written, progress + h.fileSize)
  }

  // ---------------------------------------------------------------------------------------
  // Directories: what a transfer amounts to
  // ---------------------------------------------------------------------------------------

  /** The files after the records have been received in order; a later file with the same target
      replaces an earlier one. */
  function Stored(d: Destination, files: Files, rs: seq<Record>): Files
    decreases |rs|
  {
    if rs == [] then files
    else match d.Target(rs[0].path)
         case None => Stored(d, files, rs[1..])
         case Some(target) => Stored(d, files[target := rs[0].content], rs[1..])
  }

  function AcceptedBytes(d: Destination, rs: seq<Record>): nat {
    if rs == [] then 0
    else (if d.Target(rs[0].path).Some? then |rs[0].content| else 0) + AcceptedBytes(d, rs[1..])
  }

  /** A path that names a directory cannot be opened as a file, whatever the environment answers. */
  predicate Openable(d: Destination, files: Files, path: seq<byte>) {
    d.Target(path).Some? ==> !NamesDirectory(path) && d.openable(files, d.Target(path).value)
  }

  /** Each accepted file can be opened when its turn comes. */
  predicate AllOpenable(d: Destination, files: Files, rs: seq<Record>)
    decreases |rs|
  {
    rs == [] || (Openable(d, files, rs[0].path) && AllOpenable(d, Stored(d, files, [rs[0]]), rs[1..]))
  }

  ghost predicate HeadersFit(rs: seq<Record>) {
    forall i :: 0 <= i < |rs| ==> HeaderSize(rs[i].path) <= MAX_HEADER
  }

  lemma ReadHeaderOf(path: seq<byte>, size: u64, last: bool, buffer: seq<byte>, body: seq<byte>)
    requires ValidString(path) && HeaderSize(path) < TWO_64 && |buffer| == MAX_HEADER
    ensures var r := ReadHeader(buffer, EncRecordHeader(path, size, last) + body);
            if HeaderSize(path) <= MAX_HEADER
            then r.Header? && r.header == FileHeader(path, size, last) && r.unread == body
            else r == NoHeader(HeaderTooLarge)
  {
    hide EncHeader, EncU64, DecU64, DecHeader;
    var h := FileHeader(path, size, last);
    var input := EncRecordHeader(path, size, last) + body;
    assert input[..8] == EncU64(HeaderSize(path));
    U64RoundTrip(HeaderSize(path), input[..8], 0);
    if HeaderSize(path) <= MAX_HEADER {
      assert input[8..8 + HeaderSize(path)] == EncHeader(h);
      assert input[8 + HeaderSize(path)..] == body;
      HeaderRoundTrip(h, Splice(buffer, 0, EncHeader(h)), 0);
    }
  }

  /** One turn of the receive loop on a record the sender wrote. */
  lemma ReceiveOneRecord(d: Destination, r: Record, last: bool, buffer: seq<byte>, after: seq<byte>,
                         files: Files, progress: nat) returns (filled: seq<byte>)
    requires Sendable(r) && |buffer| == MAX_HEADER && HeaderSize(r.path) <= MAX_HEADER
    requires Openable(d, files, r.path)
    ensures |filled| == MAX_HEADER
    ensures ReceiveRecords(d, buffer, EncRecord(r, last) + after, files, progress)
            == if last then Completed(Stored(d, files, [r]), progress + AcceptedBytes(d, [r]), after)
               else ReceiveRecords(d, filled, after, Stored(d, files, [r]), progress + AcceptedBytes(d, [r]))
  {
    hide EncRecordHeader, ReadHeader, SafeReceivePath, HeaderSize;
    var input := EncRecord(r, last) + after;
    var body := r.content + after;
    assert input == EncRecordHeader(r.path, |r.content|, last) + body;
    ReadHeaderOf(r.path, |r.content|, last, buffer, body);
    filled := ReadHeader(buffer, input).buffer;
    assert body[..|r.content|] == r.content && body[|r.content|..] == after;
    assert [r][1..] == [];
    if r.path == [] {
      NoTargetForEmptyPath(d);
    }
  }

  lemma NoTargetForEmptyPath(d: Destination)
    ensures d.Target([]) == None
  {
  }

  lemma StoredCons(d: Destination, files: Files, r: Record, rs: seq<Record>)
    ensures Stored(d, files, [r] + rs) == Stored(d, Stored(d, files, [r]), rs)
    ensures AcceptedBytes(d, [r] + rs) == AcceptedBytes(d, [r]) + AcceptedBytes(d, rs)
  {
    assert ([r] + rs)[1..] == rs && [r][1..] == [];
  }

  /** What stops the receiver first: a header longer than its buffer, or an accepted file that
      cannot be opened. */
  function FirstFailure(d: Destination, files: Files, rs: seq<Record>): Option<Failure>
    decreases |rs|
  {
    if rs == [] then None
    else if HeaderSize(rs[0].path) > MAX_HEADER then Some(HeaderTooLarge)
    else if !Openable(d, files, rs[0].path) then Some(CannotOpen)
    else FirstFailure(d, Stored(d, files, [rs[0]]), rs[1..])
  }

  lemma {:induction false} NothingFailsExactly(d: Destination, files: Files, rs: seq<Record>)
    ensures FirstFailure(d, files, rs).None? <==> HeadersFit(rs) && AllOpenable(d, files, rs)
    decreases |rs|
  {
    hide HeaderSize, Openable, Stored;
    if rs != [] {
      FirstHeaderFits(rs);
      NothingFailsExactly(d, Stored(d, files, [rs[0]]), rs[1..]);
    }
  }

  lemma FirstHeaderFits(rs: seq<Record>)
    requires rs != []
    ensures HeadersFit(rs) <==> HeaderSize(rs[0].path) <= MAX_HEADER && HeadersFit(rs[1..])
  {
    hide HeaderSize;
    assert forall i :: 0 <= i < |rs[1..]| ==> rs[1..][i] == rs[i + 1];
    assert forall i :: 1 <= i < |rs| ==> rs[i] == rs[1..][i - 1];
  }

  lemma {:induction false} RecordsReceived(d: Destination, rs: seq<Record>, buffer: seq<byte>, suffix: seq<byte>,
                                           files: Files, progress: nat)
    requires rs != [] && AllSendable(rs) && |buffer| == MAX_HEADER
    ensures ReceiveRecords(d, buffer, EncRecords(rs) + suffix, files, progress)
            == match FirstFailure(d, files, rs)
               case None => Completed(Stored(d, files, rs), progress + AcceptedBytes(d, rs), suffix)
               case Some(failure) => Failed(failure)
    decreases |rs|
  {
    hide EncRecord, ReceiveRecords, SafeReceivePath, Stored, AcceptedBytes, HeaderSize, Openable;
    var r, later := rs[0], rs[1..];
    var after := EncRecords(later) + suffix;
    assert EncRecords(rs) + suffix == EncRecord(r, |rs| == 1) + after;
    if HeaderSize(r.path) > MAX_HEADER {
      OversizedHeader(d, r, |rs| == 1, buffer, after, files, progress);
    } else if !Openable(d, files, r.path) {
      UnopenableFile(d, r, |rs| == 1, buffer, after, files, progress);
    } else {
      var filled := ReceiveOneRecord(d, r, |rs| == 1, buffer, after, files, progress);
      assert rs == [r] + later;
      if later == [] {
        assert after == suffix && rs == [r];
      } else {
        StoredCons(d, files, r, later);
        LaterRecords(rs);
        RecordsReceived(d, later, filled, suffix, Stored(d, files, [r]), progress + AcceptedBytes(d, [r]));
      }
    }
  }

  lemma UnopenableFile(d: Destination, r: Record, last: bool, buffer: seq<byte>, after: seq<byte>,
                       files: Files, progress: nat)
    requires Sendable(r) && |buffer| == MAX_HEADER && HeaderSize(r.path) <= MAX_HEADER && !Openable(d, files, r.path)
    ensures ReceiveRecords(d, buffer, EncRecord(r, last) + after, files, progress) == Failed(CannotOpen)
  {
    hide EncRecordHeader, ReadHeader, SafeReceivePath, HeaderSize;
    ReadHeaderOf(r.path, |r.content|, last, buffer, r.content + after);
    assert EncRecord(r, last) + after == EncRecordHeader(r.path, |r.content|, last) + (r.content + after);
    NoTargetForEmptyPath(d);
  }

  lemma OversizedHeader(d: Destination, r: Record, last: bool, buffer: seq<byte>, after: seq<byte>,
                        files: Files, progress: nat)
    requires Sendable(r) && |buffer| == MAX_HEADER && HeaderSize(r.path) > MAX_HEADER
    ensures ReceiveRecords(d, buffer, EncRecord(r, last) + after, files, progress) == Failed(HeaderTooLarge)
  {
    hide EncRecordHeader, ReadHeader, HeaderSize;
    ReadHeaderOf(r.path, |r.content|, last, buffer, r.content + after);
    assert EncRecord(r, last) + after == EncRecordHeader(r.path, |r.content|, last) + (r.content + after);
  }

  lemma LaterRecords(rs: seq<Record>)
    requires rs != [] && AllSendable(rs)
    ensures AllSendable(rs[1..])
  {
    hide Sendable;
    assert forall i :: 0 <= i < |rs[1..]| ==> rs[1..][i] == rs[i + 1];
  }

  /** Arbitrary header paths: whatever the receiver accepts is written, whatever it rejects is
      read past, so that every later record is still understood, and the transfer stops on the
      byte after the last record.  It completes exactly when every header fits the buffer and
      every accepted file can be opened when its turn comes, and otherwise fails for the first
      record of which this is not so. */
  lemma DirectoryReceived(d: Destination, rs: seq<Record>, buffer: seq<byte>, suffix: seq<byte>)
    requires AllSendable(rs) && |buffer| == MAX_HEADER
    ensures var r := ReceiveRecords(d, buffer, EncDirectory(rs) + suffix, map[], 0);
            && (r.Completed? <==> HeadersFit(rs) && AllOpenable(d, map[], rs))
            && (r.Completed? ==> r == Completed(Stored(d, map[], rs), AcceptedBytes(d, rs), suffix))
            && (r.Failed? ==> FirstFailure(d, map[], rs) == Some(r.failure))
  {
    hide ReceiveRecords, EncRecords, Stored, AcceptedBytes, HeadersFit, AllOpenable;
    NothingFailsExactly(d, map[], rs);
    if rs == [] {
      EmptyDirectoryReceived(d, buffer, suffix);
    } else {
      RecordsReceived(d, rs, buffer, suffix, map[], 0);
    }
  }

  lemma EmptyDirectoryReceived(d: Destination, buffer: seq<byte>, suffix: seq<byte>)
    requires |buffer| == MAX_HEADER
    ensures ReceiveRecords(d, buffer, EncDirectory([]) + suffix, map[], 0) == Completed(map[], 0, suffix)
    ensures Stored(d, map[], []) == map[] && AcceptedBytes(d, []) == 0
  {
    hide ReadHeader, EncRecordHeader;
    ReadHeaderOf([], 0, true, buffer, suffix);
  }

  /** The header path "a/.." is accepted as the destination directory itself, which no environment
      opens as a file: the transfer fails there, and every record behind it is lost. */
  lemma DestinationItselfFails(d: Destination, content: seq<byte>, later: seq<Record>, buffer: seq<byte>,
      suffix: seq<byte>)
    requires NoDots(d.base) && d.canonical == WithoutLinks
    requires |content| < TWO_64 && AllSendable(later) && |buffer| == MAX_HEADER
    ensures var rs := [Record([97, SLASH, 46, 46], content)] + later;
      AllSendable(rs) && ReceiveRecords(d, buffer, EncDirectory(rs) + suffix, map[], 0) == Failed(CannotOpen)
  {
    hide ReceiveRecords, EncRecords, SafeReceivePath, HeadersFit, AllOpenable;
    var bad := Record([97, SLASH, 46, 46], content);
    var rs := [bad] + later;
    assert Sendable(bad);
    assert forall i :: 0 <= i < |rs| ==> rs[i] == if i == 0 then bad else later[i - 1];
    DestinationItselfExample(d.base);
    DestinationItselfIsDirectory(d.base, bad.path);
    assert FirstFailure(d, map[], rs) == Some(CannotOpen);
    NothingFailsExactly(d, map[], rs);
    DirectoryReceived(d, rs, buffer, suffix);
  }

  // ---------------------------------------------------------------------------------------
  // Directories: the round trip
  // ---------------------------------------------------------------------------------------

  /** A file of the sent tree. */
  datatype TreeFile = TreeFile(path: Path, content: seq<byte>)

  ghost predicate Tree(t: seq<TreeFile>) {
    && (forall i :: 0 <= i < |t| ==> t[i].path != [] && AllPlain(t[i].path))
    && (forall i, j :: 0 <= i < j < |t| ==> t[i].path != t[j].path)
  }

  function RecordOf(f: TreeFile): Record {
    Record(Join(f.path), f.content)
  }

  function RecordsOf(t: seq<TreeFile>): (rs: seq<Record>)
    ensures |rs| == |t| && forall i :: 0 <= i < |t| ==> rs[i] == RecordOf(t[i])
  {
    seq(|t|, i requires 0 <= i < |t| => RecordOf(t[i]))
  }

  function ContentSize(t: seq<TreeFile>): nat {
    if t == [] then 0 else |t[0].content| + ContentSize(t[1..])
  }

  /** The tree `t` copied below `base`, on top of `files`. */
  ghost predicate CopiedBelow(base: Path, t: seq<TreeFile>, files: Files, result: Files) {
    && (forall i :: 0 <= i < |t| ==> base + t[i].path in result && result[base + t[i].path] == t[i].content)
    && (forall p :: p in result && p !in files ==> exists i :: 0 <= i < |t| && p == base + t[i].path)
    && (forall p :: p in files && (forall i :: 0 <= i < |t| ==> p != base + t[i].path) ==>
          p in result && result[p] == files[p])
  }

  lemma {:induction false} TreeStored(base: Path, d: Destination, t: seq<TreeFile>, files: Files)
    requires NoDots(base) && Tree(t) && d.base == base && d.canonical == WithoutLinks
    ensures CopiedBelow(base, t, files, Stored(d, files, RecordsOf(t)))
    ensures AcceptedBytes(d, RecordsOf(t)) == ContentSize(t)
    decreases |t|
  {
    hide SafeReceivePath, Join, AllPlain, NoDots;
    if t != [] {
      var f, later := t[0], t[1..];
      PlainPath(base, f.path);
      var target := base + f.path;
      assert d.Target(Join(f.path)) == Some(target);
      assert RecordsOf(t)[1..] == RecordsOf(later);
      LaterTree(t);
      TreeStored(base, d, later, files[target := f.content]);
      CopiedStep(base, t, files, Stored(d, files[target := f.content], RecordsOf(later)));
    }
  }

  lemma LaterTree(t: seq<TreeFile>)
    requires Tree(t) && t != []
    ensures Tree(t[1..])
  {
    hide AllPlain;
    assert forall i :: 0 <= i < |t[1..]| ==> t[1..][i] == t[i + 1];
  }

  lemma CopiedStep(base: Path, t: seq<TreeFile>, files: Files, result: Files)
    requires Tree(t) && t != []
    requires CopiedBelow(base, t[1..], files[base + t[0].path := t[0].content], result)
    ensures CopiedBelow(base, t, files, result)
  {
    hide AllPlain;
    var target, later := base + t[0].path, t[1..];
    assert forall i :: 0 <= i < |later| ==> later[i] == t[i + 1];
    forall i | 0 <= i < |later| ensures base + later[i].path != target {
      assert (base + later[i].path)[|base|..] == later[i].path && target[|base|..] == t[0].path;
    }
    forall i | 0 <= i < |t| ensures base + t[i].path in result && result[base + t[i].path] == t[i].content {
      if i > 0 { assert t[i] == later[i - 1]; }
    }
    forall p | p in result && p !in files ensures exists i :: 0 <= i < |t| && p == base + t[i].path {
      if p != target {
        var i :| 0 <= i < |later| && p == base + later[i].path;
        assert p == base + t[i + 1].path;
      }
    }
    forall p | p in files && (forall i :: 0 <= i < |t| ==> p != base + t[i].path)
      ensures p in result && result[p] == files[p]
    {
      assert p != base + t[0].path;
      forall i | 0 <= i < |later| ensures p != base + later[i].path { assert p != base + t[i + 1].path; }
    }
  }

  /** Sending a directory tree and receiving it elsewhere recreates exactly its files, counts
      exactly their bytes, and leaves whatever follows on the stream unread. */
  lemma DirectoryRoundTrip(d: Destination, t: seq<TreeFile>, buffer: seq<byte>, suffix: seq<byte>)
    requires NoDots(d.base) && d.canonical == WithoutLinks && |buffer| == MAX_HEADER
    requires Tree(t) && AllSendable(RecordsOf(t)) && HeadersFit(RecordsOf(t)) && AllOpenable(d, map[], RecordsOf(t))
    ensures var r := ReceiveRecords(d, buffer, EncDirectory(RecordsOf(t)) + suffix, map[], 0);
            && r.Completed? && r.unread == suffix && r.progress == ContentSize(t)
            && CopiedBelow(d.base, t, map[], r.files)
  {
    hide ReceiveRecords, EncDirectory, CopiedBelow;
    DirectoryReceived(d, RecordsOf(t), buffer, suffix);
    TreeStored(d.base, d, t, map[]);
  }

  // ---------------------------------------------------------------------------------------
  // Single files
  // ---------------------------------------------------------------------------------------

  ghost function EncFile(content: seq<byte>): seq<byte>
    requires |content| < TWO_64
  {
    EncHeader(FileHeader([], |content|, true)) + content
  }

  datatype FileOutcome = FileReceived(content: seq<byte>, unread: seq<byte>) | FileFailed(failure: Failure)

  /** Both receivers of a single file read a header of exactly the size of an empty one. */
  const EMPTY_HEADER: nat := 17

  function ReceiveSized(h: FileHeader, body: seq<byte>): FileOutcome {
    if |body| < h.fileSize then FileFailed(EndOfStream)
    else FileReceived(body[..h.fileSize], body[h.fileSize..])
  }

  /** CoReceiveFile; `openable` says whether the destination can be opened for writing. */
  function ReceivedFile(openable: bool, input: seq<byte>): FileOutcome {
    if |input| < EMPTY_HEADER then FileFailed(EndOfStream)
    else match DecHeader(input[..EMPTY_HEADER], 0)
         case OutOfBounds => FileFailed(MalformedHeader)
         case Ok(h, _) => if openable then ReceiveSized(h, input[EMPTY_HEADER..]) else FileFailed(CannotOpen)
  }

  /** CoReceiveFileData: the size is known beforehand and must be confirmed by the header. */
  function ReceivedFileData(expected: u64, input: seq<byte>): FileOutcome {
    if |input| < EMPTY_HEADER then FileFailed(EndOfStream)
    else match DecHeader(input[..EMPTY_HEADER], 0)
         case OutOfBounds => FileFailed(MalformedHeader)
         case Ok(h, _) =>
           if h.fileSize != expected || h.relativePath != [] || !h.last then FileFailed(UnexpectedHeader)
           else ReceiveSized(h, input[EMPTY_HEADER..])
  }

  lemma FileHeaderRead(content: seq<byte>, suffix: seq<byte>)
    requires |content| < TWO_64
    ensures var input := EncFile(content) + suffix;
            && |input| >= EMPTY_HEADER && input[EMPTY_HEADER..] == content + suffix
            && DecHeader(input[..EMPTY_HEADER], 0) == Ok(FileHeader([], |content|, true), EMPTY_HEADER)
  {
    hide EncHeader, DecHeader;
    var h := FileHeader([], |content|, true);
    var input := EncFile(content) + suffix;
    assert input[..EMPTY_HEADER] == EncHeader(h) && input[EMPTY_HEADER..] == content + suffix;
    HeaderRoundTrip(h, input[..EMPTY_HEADER], 0);
  }

  /** A file arrives byte for byte and the stream stays usable, exactly when its destination can be
      opened; the streaming receiver accepts it exactly when its size is the announced one. */
  lemma FileRoundTrip(openable: bool, content: seq<byte>, suffix: seq<byte>, expected: u64)
    requires |content| < TWO_64
    ensures ReceivedFile(openable, EncFile(content) + suffix)
            == if openable then FileReceived(content, suffix) else FileFailed(CannotOpen)
    ensures ReceivedFileData(expected, EncFile(content) + suffix)
            == if expected == |content| then FileReceived(content, suffix) else FileFailed(UnexpectedHeader)
  {
    hide DecHeader, EncFile;
    FileHeaderRead(content, suffix);
    var body := content + suffix;
    assert body[..|content|] == content && body[|content|..] == suffix;
  }

  /** A header that names a path cannot be mistaken for one of a single file: it does not fit the
      bytes the receiver reads for the header. */
  lemma NamedHeaderRefused(openable: bool, path: seq<byte>, size: u64, last: bool, rest: seq<byte>)
    requires ValidString(path) && path != []
    ensures ReceivedFile(openable, EncHeader(FileHeader(path, size, last)) + rest) == FileFailed(MalformedHeader)
  {
    hide DecU64, EncU64, DecBool, EncBool;
    var input := EncHeader(FileHeader(path, size, last)) + rest;
    assert input[..EMPTY_HEADER][0..8] == EncU64(|path|);
    U64RoundTrip(|path|, input[..EMPTY_HEADER], 0);
  }
}
