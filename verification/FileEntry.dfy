/** utilities/file-system/src/FileEntry.cpp: an entry of a directory listing, six optional
    fields written one after the other. */
module FileEntries {
  import opened Packable

  /** `kind` is the byte of the FileType enumeration. */
  datatype FileEntry = FileEntry(
    name: Option<seq<byte>>,
    path: Option<seq<byte>>,
    size: Option<u64>,
    kind: Option<byte>,
    lastModTime: Option<i64>,
    creationTime: Option<i64>)
  {
    predicate Valid() {
      && (name.Some? ==> ValidString(name.value))
      && (path.Some? ==> ValidString(path.value))
    }
  }

  function EncOptString(s: Option<seq<byte>>): (e: seq<byte>)
    requires s.Some? ==> ValidString(s.value)
    ensures |e| == 1 + if s.Some? then 8 + |s.value| else 0
  {
    EncOptional(EncString, s)
  }

  function EncOptU64(n: Option<u64>): (e: seq<byte>)
    ensures |e| == 1 + if n.Some? then 8 else 0
  {
    EncOptional(EncU64, n)
  }

  function EncOptU8(x: Option<byte>): (e: seq<byte>)
    ensures |e| == 1 + if x.Some? then 1 else 0
  {
    EncOptional(EncU8, x)
  }

  function EncOptI64(n: Option<i64>): (e: seq<byte>)
    ensures |e| == 1 + if n.Some? then 8 else 0
  {
    EncOptional(EncI64, n)
  }

  function EncNamePath(e: FileEntry): seq<byte>
    requires e.Valid()
  {
    EncOptString(e.name) + EncOptString(e.path)
  }

  function EncSizeKind(e: FileEntry): seq<byte> {
    EncOptU64(e.size) + EncOptU8(e.kind)
  }

  function EncTimes(e: FileEntry): seq<byte> {
    EncOptI64(e.lastModTime) + EncOptI64(e.creationTime)
  }

  /** The six fields in declaration order. */
  function EncEntry(e: FileEntry): seq<byte>
    requires e.Valid()
  {
    EncNamePath(e) + (EncSizeKind(e) + EncTimes(e))
  }

  /** GetSerializedSize: the sum of the sizes of the fields. */
  function SerializedSize(e: FileEntry): (n: nat) {
    (1 + if e.name.Some? then 8 + |e.name.value| else 0)
    + (1 + if e.path.Some? then 8 + |e.path.value| else 0)
    + (1 + if e.size.Some? then 8 else 0)
    + (1 + if e.kind.Some? then 1 else 0)
    + (1 + if e.lastModTime.Some? then 8 else 0)
    + (1 + if e.creationTime.Some? then 8 else 0)
  }

  lemma SizeIsLengthOfEncoding(e: FileEntry)
    requires e.Valid()
    ensures SerializedSize(e) == |EncEntry(e)|
  {
  }

  function DecNamePath(b: seq<byte>, o: nat): Parsed<(Option<seq<byte>>, Option<seq<byte>>)> {
    match DecOptional(DecString, b, o)
    case OutOfBounds => OutOfBounds
    case Ok(name, o1) =>
      match DecOptional(DecString, b, o1)
      case OutOfBounds => OutOfBounds
      case Ok(path, o2) => Ok((name, path), o2)
  }

  function DecSizeKind(b: seq<byte>, o: nat): Parsed<(Option<u64>, Option<byte>)> {
    match DecOptional(DecU64, b, o)
    case OutOfBounds => OutOfBounds
    case Ok(size, o1) =>
      match DecOptional(DecU8, b, o1)
      case OutOfBounds => OutOfBounds
      case Ok(kind, o2) => Ok((size, kind), o2)
  }

  function DecTimes(b: seq<byte>, o: nat): Parsed<(Option<i64>, Option<i64>)> {
    match DecOptional(DecI64, b, o)
    case OutOfBounds => OutOfBounds
    case Ok(modified, o1) =>
      match DecOptional(DecI64, b, o1)
      case OutOfBounds => OutOfBounds
      case Ok(created, o2) => Ok((modified, created), o2)
  }

  function DecEntry(b: seq<byte>, o: nat): Parsed<FileEntry> {
    match DecNamePath(b, o)
    case OutOfBounds => OutOfBounds
    case Ok(first, o1) =>
      match DecSizeKind(b, o1)
      case OutOfBounds => OutOfBounds
      case Ok(second, o2) =>
        match DecTimes(b, o2)
        case OutOfBounds => OutOfBounds
        case Ok(third, o3) => Ok(FileEntry(first.0, first.1, second.0, second.1, third.0, third.1), o3)
  }

  lemma OptStringRoundTrip(s: Option<seq<byte>>, b: seq<byte>, o: nat)
    requires s.Some? ==> ValidString(s.value)
    requires At(b, o, EncOptString(s))
    ensures DecOptional(DecString, b, o) == Ok(s, o + |EncOptString(s)|)
  {
    if s.Some? && At(b, o + 1, EncString(s.value)) { StringRoundTrip(s.value, b, o + 1); }
    OptionalRoundTrip(EncString, DecString, s, b, o);
  }

  lemma OptU64RoundTrip(n: Option<u64>, b: seq<byte>, o: nat)
    requires At(b, o, EncOptU64(n))
    ensures DecOptional(DecU64, b, o) == Ok(n, o + |EncOptU64(n)|)
  {
    if n.Some? && At(b, o + 1, EncU64(n.value)) { U64RoundTrip(n.value, b, o + 1); }
    OptionalRoundTrip(EncU64, DecU64, n, b, o);
  }

  lemma OptI64RoundTrip(n: Option<i64>, b: seq<byte>, o: nat)
    requires At(b, o, EncOptI64(n))
    ensures DecOptional(DecI64, b, o) == Ok(n, o + |EncOptI64(n)|)
  {
    if n.Some? && At(b, o + 1, EncI64(n.value)) { I64RoundTrip(n.value, b, o + 1); }
    OptionalRoundTrip(EncI64, DecI64, n, b, o);
  }

  lemma OptU8RoundTrip(x: Option<byte>, b: seq<byte>, o: nat)
    requires At(b, o, EncOptU8(x))
    ensures DecOptional(DecU8, b, o) == Ok(x, o + |EncOptU8(x)|)
  {
    if x.Some? && At(b, o + 1, EncU8(x.value)) {
      assert b[o + 1] == b[o + 1..o + 1 + |EncU8(x.value)|][0];
    }
    OptionalRoundTrip(EncU8, DecU8, x, b, o);
  }

  lemma BothStringsRoundTrip(x: Option<seq<byte>>, y: Option<seq<byte>>, b: seq<byte>, o: nat, o1: nat)
    requires (x.Some? ==> ValidString(x.value)) && (y.Some? ==> ValidString(y.value))
    requires At(b, o, EncOptString(x)) && o1 == o + |EncOptString(x)| && At(b, o1, EncOptString(y))
    ensures DecOptional(DecString, b, o) == Ok(x, o1)
    ensures DecOptional(DecString, b, o1) == Ok(y, o1 + |EncOptString(y)|)
  {
    OptStringRoundTrip(x, b, o);
    OptStringRoundTrip(y, b, o1);
  }

  lemma NamePathRoundTrip(e: FileEntry, b: seq<byte>, o: nat)
    requires e.Valid() && At(b, o, EncNamePath(e))
    ensures DecNamePath(b, o) == Ok((e.name, e.path), o + |EncNamePath(e)|)
  {
    hide At, EncOptString, DecOptional;
    var p, q := EncOptString(e.name), EncOptString(e.path);
    AtSplit(b, o, p, q);
    BothStringsRoundTrip(e.name, e.path, b, o, o + |p|);
  }

  lemma SizeKindRoundTrip(e: FileEntry, b: seq<byte>, o: nat)
    requires At(b, o, EncSizeKind(e))
    ensures DecSizeKind(b, o) == Ok((e.size, e.kind), o + |EncSizeKind(e)|)
  {
    AtSplit(b, o, EncOptU64(e.size), EncOptU8(e.kind));
    OptU64RoundTrip(e.size, b, o);
    OptU8RoundTrip(e.kind, b, o + |EncOptU64(e.size)|);
  }

  lemma TimesRoundTrip(e: FileEntry, b: seq<byte>, o: nat)
    requires At(b, o, EncTimes(e))
    ensures DecTimes(b, o) == Ok((e.lastModTime, e.creationTime), o + |EncTimes(e)|)
  {
    AtSplit(b, o, EncOptI64(e.lastModTime), EncOptI64(e.creationTime));
    OptI64RoundTrip(e.lastModTime, b, o);
    OptI64RoundTrip(e.creationTime, b, o + |EncOptI64(e.lastModTime)|);
  }

  /** An entry is read back from wherever its encoding lies, whatever surrounds it. */
  lemma EntryRoundTrip(e: FileEntry, b: seq<byte>, o: nat)
    requires e.Valid() && At(b, o, EncEntry(e))
    ensures DecEntry(b, o) == Ok(e, o + SerializedSize(e))
  {
    hide EncNamePath, EncSizeKind, EncTimes, DecNamePath, DecSizeKind, DecTimes, SerializedSize, At;
    Associative(EncNamePath(e), EncSizeKind(e), EncTimes(e));
    AtSplit(b, o, EncNamePath(e), EncSizeKind(e) + EncTimes(e));
    AtSplit(b, o + |EncNamePath(e)|, EncSizeKind(e), EncTimes(e));
    NamePathRoundTrip(e, b, o);
    SizeKindRoundTrip(e, b, o + |EncNamePath(e)|);
    TimesRoundTrip(e, b, o + |EncNamePath(e)| + |EncSizeKind(e)|);
    SizeIsLengthOfEncoding(e);
  }

  function Fields(e: FileEntry): (fields: seq<seq<byte>>)
    requires e.Valid()
  {
    [EncOptString(e.name), EncOptString(e.path), EncOptU64(e.size),
     EncOptU8(e.kind), EncOptI64(e.lastModTime), EncOptI64(e.creationTime)]
  }

  /** Serialize: six fields in turn.  The space is checked field by field, so an entry that does
      not fit is reported after its first fields may already have been written. */
  method Serialize(e: FileEntry, buffer: array<byte>, offset: nat) returns (next: Option<nat>)
    requires e.Valid() && offset <= buffer.Length
    modifies buffer
    ensures |EncEntry(e)| == SerializedSize(e)
    ensures offset + SerializedSize(e) <= buffer.Length ==>
              && next == Some(offset + SerializedSize(e))
              && buffer[..] == Splice(old(buffer[..]), offset, EncEntry(e))
    ensures offset + SerializedSize(e) > buffer.Length ==> next == None
    ensures buffer[..offset] == old(buffer[..offset])
  {
    SizeIsLengthOfEncoding(e);
    FieldsJoined(e);
    next := StoreAll(Fields(e), buffer, offset);
  }

  /** Consecutive writes: all of them succeed exactly when their total length fits. */
  method StoreAll(parts: seq<seq<byte>>, buffer: array<byte>, offset: nat) returns (next: Option<nat>)
    requires offset <= buffer.Length
    modifies buffer
    ensures offset + |Joined(parts)| <= buffer.Length ==>
              && next == Some(offset + |Joined(parts)|)
              && buffer[..] == Splice(old(buffer[..]), offset, Joined(parts))
    ensures offset + |Joined(parts)| > buffer.Length ==> next == None
    ensures buffer[..offset] == old(buffer[..offset])
  {
    var at := offset;
    var i := 0;
    while i < |parts|
      invariant 0 <= i <= |parts| && at == offset + |Joined(parts[..i])| <= buffer.Length
      invariant buffer[..] == Splice(old(buffer[..]), offset, Joined(parts[..i]))
    {
      JoinedStep(parts, i);
      JoinedPrefix(parts, i + 1);
      var stored := Store(parts[i], buffer, at);
      if stored.None? {
        return None;
      }
      SpliceTwice(old(buffer[..]), offset, Joined(parts[..i]), parts[i]);
      at := stored.value;
      i := i + 1;
    }
    assert parts[..i] == parts;
    return Some(at);
  }

  function Joined(parts: seq<seq<byte>>): seq<byte> {
    if parts == [] then [] else parts[0] + Joined(parts[1..])
  }

  lemma {:induction false} JoinedStep(parts: seq<seq<byte>>, i: nat)
    requires i < |parts|
    ensures Joined(parts[..i + 1]) == Joined(parts[..i]) + parts[i]
  {
    if i == 0 {
      assert parts[..1][1..] == [];
    } else {
      JoinedStep(parts[1..], i - 1);
      assert parts[..i + 1][1..] == parts[1..][..i] && parts[..i][1..] == parts[1..][..i - 1];
      assert Joined(parts[..i + 1]) == parts[0] + (Joined(parts[..i][1..]) + parts[i]);
    }
  }

  lemma {:induction false} JoinedPrefix(parts: seq<seq<byte>>, i: nat)
    requires i <= |parts|
    ensures |Joined(parts[..i])| <= |Joined(parts)|
    decreases |parts| - i
  {
    if i < |parts| {
      JoinedStep(parts, i);
      JoinedPrefix(parts, i + 1);
    } else {
      assert parts[..i] == parts;
    }
  }

  lemma JoinedCons(p: seq<byte>, rest: seq<seq<byte>>)
    ensures Joined([p] + rest) == p + Joined(rest)
  {
    assert ([p] + rest)[1..] == rest;
  }

  lemma SixJoined(p1: seq<byte>, p2: seq<byte>, p3: seq<byte>, p4: seq<byte>, p5: seq<byte>, p6: seq<byte>)
    ensures Joined([p1, p2, p3, p4, p5, p6]) == p1 + p2 + (p3 + p4 + (p5 + p6))
  {
    JoinedCons(p1, [p2, p3, p4, p5, p6]);
    JoinedCons(p2, [p3, p4, p5, p6]);
    JoinedCons(p3, [p4, p5, p6]);
    JoinedCons(p4, [p5, p6]);
    JoinedCons(p5, [p6]);
    JoinedCons(p6, []);
    assert [p6] + [] == [p6] && [p5] + [p6] == [p5, p6] && [p4] + [p5, p6] == [p4, p5, p6];
    assert [p3] + [p4, p5, p6] == [p3, p4, p5, p6] && [p2] + [p3, p4, p5, p6] == [p2, p3, p4, p5, p6];
    assert [p1] + [p2, p3, p4, p5, p6] == [p1, p2, p3, p4, p5, p6];
  }

  lemma FieldsJoined(e: FileEntry)
    requires e.Valid()
    ensures Joined(Fields(e)) == EncEntry(e)
  {
    SixJoined(EncOptString(e.name), EncOptString(e.path), EncOptU64(e.size),
              EncOptU8(e.kind), EncOptI64(e.lastModTime), EncOptI64(e.creationTime));
  }
}
