/** The wire protocol of a directory listing (modules/common/src/TransferChannel.cpp,
    CoSendDirectoryEntries and CoReceiveDirectoryEntries), as functions on byte sequences: a
    count, then frames that each hold a payload size, an entry count and the packed entries.
    `room` is the payload a frame can carry: the buffer less the two numbers of its header. */
module DirectoryListing {
  import opened Packable
  import opened FileEntries

  const FRAME_HEADER_SIZE: nat := 16

  ghost predicate AllValid(es: seq<FileEntry>) {
    forall i :: 0 <= i < |es| ==> es[i].Valid()
  }

  predicate Fits(room: nat, e: FileEntry) {
    SerializedSize(e) <= room
  }

  predicate AllFit(room: nat, es: seq<FileEntry>) {
    forall i :: 0 <= i < |es| ==> Fits(room, es[i])
  }

  function PayloadSize(es: seq<FileEntry>): nat {
    if es == [] then 0 else PayloadSize(es[..|es| - 1]) + SerializedSize(es[|es| - 1])
  }

  ghost function EncEntries(es: seq<FileEntry>): seq<byte>
    requires AllValid(es)
  {
    if es == [] then [] else EncEntries(es[..|es| - 1]) + EncEntry(es[|es| - 1])
  }

  lemma {:induction false} PayloadIsLength(es: seq<FileEntry>)
    requires AllValid(es)
    ensures |EncEntries(es)| == PayloadSize(es)
  {
    if es != [] {
      PayloadIsLength(es[..|es| - 1]);
      SizeIsLengthOfEncoding(es[|es| - 1]);
    }
  }

  lemma AppendEntry(es: seq<FileEntry>, e: FileEntry)
    ensures PayloadSize(es + [e]) == PayloadSize(es) + SerializedSize(e)
    ensures AllValid(es) && e.Valid() ==>
              AllValid(es + [e]) && EncEntries(es + [e]) == EncEntries(es) + EncEntry(e)
  {
    assert (es + [e])[..|es|] == es;
  }

  // ---------------------------------------------------------------------------------------
  // The sender's framing
  // ---------------------------------------------------------------------------------------

  /** The frames the sender emits when `current` is already in its buffer. */
  function Frames(room: nat, current: seq<FileEntry>, rest: seq<FileEntry>): (fs: seq<seq<FileEntry>>)
    ensures |fs| >= 1
    decreases |rest|
  {
    if rest == [] then [current]
    else if PayloadSize(current) + SerializedSize(rest[0]) > room then
      [current] + Frames(room, [rest[0]], rest[1..])
    else
      Frames(room, current + [rest[0]], rest[1..])
  }

  ghost predicate Frameable(room: nat, f: seq<FileEntry>) {
    AllValid(f) && PayloadSize(f) <= room && |f| < TWO_64
  }

  ghost predicate AllFrameable(room: nat, fs: seq<seq<FileEntry>>) {
    forall i :: 0 <= i < |fs| ==> Frameable(room, fs[i])
  }

  ghost function EncFrame(room: nat, f: seq<FileEntry>): seq<byte>
    requires room < TWO_64 && Frameable(room, f)
  {
    EncU64(PayloadSize(f)) + EncU64(|f|) + EncEntries(f)
  }

  ghost function EncFrames(room: nat, fs: seq<seq<FileEntry>>): seq<byte>
    requires room < TWO_64 && AllFrameable(room, fs)
  {
    if fs == [] then [] else EncFrame(room, fs[0]) + EncFrames(room, fs[1..])
  }

  lemma {:induction false} EncFramesAppend(room: nat, fs: seq<seq<FileEntry>>, gs: seq<seq<FileEntry>>)
    requires room < TWO_64 && AllFrameable(room, fs) && AllFrameable(room, gs)
    ensures AllFrameable(room, fs + gs)
    ensures EncFrames(room, fs + gs) == EncFrames(room, fs) + EncFrames(room, gs)
  {
    hide EncFrame, Frameable;
    if fs == [] {
      assert fs + gs == gs;
    } else {
      var rest := fs[1..];
      assert (fs + gs)[1..] == rest + gs && (fs + gs)[0] == fs[0];
      EncFramesAppend(room, rest, gs);
      Associative(EncFrame(room, fs[0]), EncFrames(room, rest), EncFrames(room, gs));
    }
  }

  lemma EncFramesOne(room: nat, f: seq<FileEntry>)
    requires room < TWO_64 && Frameable(room, f)
    ensures EncFrames(room, [f]) == EncFrame(room, f)
  {
    assert [f][1..] == [];
    assert EncFrame(room, f) + [] == EncFrame(room, f);
  }

  function Flatten(fs: seq<seq<FileEntry>>): seq<FileEntry> {
    if fs == [] then [] else fs[0] + Flatten(fs[1..])
  }

  lemma FlattenCons(f: seq<FileEntry>, fs: seq<seq<FileEntry>>)
    ensures Flatten([f] + fs) == f + Flatten(fs)
  {
    assert ([f] + fs)[1..] == fs;
  }

  ghost predicate LaterFramesNonEmpty(fs: seq<seq<FileEntry>>) {
    forall i :: 1 <= i < |fs| ==> fs[i] != []
  }

  lemma PrependFrame(room: nat, f: seq<FileEntry>, fs: seq<seq<FileEntry>>)
    requires Frameable(room, f) && AllFrameable(room, fs) && LaterFramesNonEmpty(fs)
    requires |fs| >= 1 && fs[0] != []
    ensures AllFrameable(room, [f] + fs) && LaterFramesNonEmpty([f] + fs)
    ensures Flatten([f] + fs) == f + Flatten(fs)
  {
    hide Frameable;
    FlattenCons(f, fs);
    forall i | 0 <= i < |[f] + fs| ensures Frameable(room, ([f] + fs)[i]) && (i >= 1 ==> ([f] + fs)[i] != []) {
      if i >= 1 {
        assert ([f] + fs)[i] == fs[i - 1];
        assert Frameable(room, fs[i - 1]);
      }
    }
  }

  lemma OneMore(room: nat, current: seq<FileEntry>, e: FileEntry)
    requires AllValid(current) && e.Valid() && |current| + 1 < TWO_64
    requires PayloadSize(current) + SerializedSize(e) <= room
    ensures Frameable(room, current + [e])
  {
    AppendEntry(current, e);
  }

  lemma AllFitRest(room: nat, es: seq<FileEntry>)
    requires AllFit(room, es) && AllValid(es) && es != []
    ensures AllFit(room, es[1..]) && AllValid(es[1..]) && Fits(room, es[0]) && es[0].Valid()
  {
    hide Fits;
    forall i | 0 <= i < |es[1..]| ensures Fits(room, es[1..][i]) { assert Fits(room, es[i + 1]); }
  }

  /** The frames split the listing: nothing is lost, reordered or repeated, each frame fits,
      and every frame but the first holds at least one entry. */
  lemma {:induction false} FramesSplit(room: nat, current: seq<FileEntry>, rest: seq<FileEntry>)
    requires Frameable(room, current) && AllValid(rest) && AllFit(room, rest)
    requires |current| + |rest| < TWO_64
    ensures Flatten(Frames(room, current, rest)) == current + rest
    ensures AllFrameable(room, Frames(room, current, rest))
    ensures LaterFramesNonEmpty(Frames(room, current, rest))
    ensures current != [] ==> Frames(room, current, rest)[0] != []
    decreases |rest|
  {
    hide SerializedSize, PayloadSize, Frameable, AllFit, AllValid, LaterFramesNonEmpty;
    if rest == [] {
      FlattenCons(current, []);
      assert [current] + [] == [current] && current + Flatten([]) == current + rest;
      Alone(room, current);
    } else {
      AllFitRest(room, rest);
      if PayloadSize(current) + SerializedSize(rest[0]) > room {
        FirstOfFrame(room, rest[0]);
        FramesSplit(room, [rest[0]], rest[1..]);
        PrependFrame(room, current, Frames(room, [rest[0]], rest[1..]));
        assert [rest[0]] + rest[1..] == rest;
      } else {
        FrameableIsValid(room, current);
        OneMore(room, current, rest[0]);
        FramesSplit(room, current + [rest[0]], rest[1..]);
        assert current + [rest[0]] + rest[1..] == current + rest;
      }
    }
  }

  lemma Alone(room: nat, f: seq<FileEntry>)
    requires Frameable(room, f)
    ensures AllFrameable(room, [f]) && LaterFramesNonEmpty([f])
  {
  }

  lemma FirstOfFrame(room: nat, e: FileEntry)
    requires Fits(room, e) && e.Valid()
    ensures Frameable(room, [e])
  {
    OneMore(room, [], e);
    assert [] + [e] == [e];
  }

  lemma FrameableIsValid(room: nat, f: seq<FileEntry>)
    requires Frameable(room, f)
    ensures AllValid(f)
  {
  }

  ghost predicate Listable(room: nat, es: seq<FileEntry>) {
    AllValid(es) && AllFit(room, es) && |es| < TWO_64
  }

  /** Everything CoSendDirectoryEntries writes for a listing whose entries each fit a frame. */
  ghost function EncListing(room: nat, es: seq<FileEntry>): seq<byte>
    requires room < TWO_64 && Listable(room, es)
  {
    FramesSplit(room, [], es);
    assert [] + es == es;
    EncU64(|es|) + EncFrames(room, Frames(room, [], es))
  }

  // ---------------------------------------------------------------------------------------
  // The receiver
  // ---------------------------------------------------------------------------------------

  /** How CoReceiveDirectoryEntries ends: all announced entries arrived and `unread` is what is
      left on the socket; a frame announced more than the buffer holds, which stops the receiver
      without an error; an entry could not be decoded; or the stream ended early. */
  datatype Outcome =
    | Received(entries: seq<FileEntry>, unread: seq<byte>)
    | PayloadTooLarge(soFar: seq<FileEntry>, unread: seq<byte>)
    | Malformed
    | EndOfStream

  /** `count` entries decoded one after the other from offset `o` of the whole buffer, appended
      to `soFar`.  The bound is the buffer, not the payload of the frame. */
  function DecEntries(b: seq<byte>, o: nat, count: nat, soFar: seq<FileEntry>): Parsed<seq<FileEntry>>
    decreases count
  {
    if count == 0 then Ok(soFar, o)
    else match DecEntry(b, o)
         case OutOfBounds => OutOfBounds
         case Ok(e, next) => DecEntries(b, next, count - 1, soFar + [e])
  }

  /** The receive loop.  `buffer` is the content of the input buffer, which still holds the bytes
      of earlier frames behind the current one; the remaining count is a size_t and wraps. */
  function ReceiveFrames(room: nat, buffer: seq<byte>, input: seq<byte>, remaining: u64, soFar: seq<FileEntry>): Outcome
    requires |buffer| == FRAME_HEADER_SIZE + room
    decreases |input|
  {
    if |input| < FRAME_HEADER_SIZE then EndOfStream
    else
      var withHeader := Splice(buffer, 0, input[..FRAME_HEADER_SIZE]);
      var payload, count := DecU64(withHeader, 0).value, DecU64(withHeader, 8).value;
      if payload > room then PayloadTooLarge(soFar, input[FRAME_HEADER_SIZE..])
      else if |input| - FRAME_HEADER_SIZE < payload then EndOfStream
      else
        var end := FRAME_HEADER_SIZE + payload;
        var filled := Splice(withHeader, FRAME_HEADER_SIZE, input[FRAME_HEADER_SIZE..end]);
        match DecEntries(filled, FRAME_HEADER_SIZE, count, soFar)
        case OutOfBounds => Malformed
        case Ok(entries, _) =>
          var left := (remaining - count) % TWO_64;
          if left == 0 then Received(entries, input[end..])
          else ReceiveFrames(room, filled, input[end..], left, entries)
  }

  function ReceiveListing(room: nat, buffer: seq<byte>, input: seq<byte>): Outcome
    requires |buffer| == FRAME_HEADER_SIZE + room
  {
    if |input| < 8 then EndOfStream
    else
      var filled := Splice(buffer, 0, input[..8]);
      ReceiveFrames(room, filled, input[8..], DecU64(filled, 0).value, [])
  }

  // ---------------------------------------------------------------------------------------
  // Round trip
  // ---------------------------------------------------------------------------------------

  lemma EncEntriesFirst(es: seq<FileEntry>)
    requires AllValid(es) && es != []
    ensures EncEntries(es) == EncEntry(es[0]) + EncEntries(es[1..])
    decreases |es|
  {
    hide EncEntry, SerializedSize, DecEntry;
    var n := |es| - 1;
    if n == 0 {
      assert es[..0] == [] && es[1..] == [];
      assert [] + EncEntry(es[0]) == EncEntry(es[0]) == EncEntry(es[0]) + [];
    } else {
      EncEntriesFirst(es[..n]);
      var middle := es[1..][..n - 1];
      assert es[..n][1..] == middle && es[1..][n - 1] == es[n] && es[..n][0] == es[0];
      Associative(EncEntry(es[0]), EncEntries(middle), EncEntry(es[n]));
    }
  }

  lemma {:induction false} EntriesRoundTrip(es: seq<FileEntry>, b: seq<byte>, o: nat, soFar: seq<FileEntry>)
    requires AllValid(es) && At(b, o, EncEntries(es))
    ensures DecEntries(b, o, |es|, soFar) == Ok(soFar + es, o + |EncEntries(es)|)
    decreases |es|
  {
    hide EncEntry, SerializedSize, DecEntry;
    if es == [] {
      assert soFar + es == soFar;
    } else {
      EncEntriesFirst(es);
      AtSplit(b, o, EncEntry(es[0]), EncEntries(es[1..]));
      EntryRoundTrip(es[0], b, o);
      SizeIsLengthOfEncoding(es[0]);
      EntriesRoundTrip(es[1..], b, o + SerializedSize(es[0]), soFar + [es[0]]);
      assert soFar + [es[0]] + es[1..] == soFar + es;
    }
  }

  /** One frame fills the buffer so that its header and its entries can be read back. */
  lemma FrameFills(room: nat, f: seq<FileEntry>, buffer: seq<byte>, input: seq<byte>)
    requires room < TWO_64 && Frameable(room, f) && |buffer| == FRAME_HEADER_SIZE + room
    requires EncFrame(room, f) <= input
    ensures |EncFrame(room, f)| == FRAME_HEADER_SIZE + PayloadSize(f) <= |input|
    ensures var h := Splice(buffer, 0, input[..FRAME_HEADER_SIZE]);
            && DecU64(h, 0) == Ok(PayloadSize(f), 8) && DecU64(h, 8) == Ok(|f|, 16)
            && At(Splice(h, FRAME_HEADER_SIZE, input[FRAME_HEADER_SIZE..FRAME_HEADER_SIZE + PayloadSize(f)]),
                  FRAME_HEADER_SIZE, EncEntries(f))
  {
    PayloadIsLength(f);
    var e := EncFrame(room, f);
    var header := EncU64(PayloadSize(f)) + EncU64(|f|);
    assert e == header + EncEntries(f) && input[..|e|] == e;
    assert input[..FRAME_HEADER_SIZE] == e[..FRAME_HEADER_SIZE] == header;
    assert input[FRAME_HEADER_SIZE..|e|] == e[FRAME_HEADER_SIZE..] == EncEntries(f);
    var h := Splice(buffer, 0, header);
    AtSplit(h, 0, EncU64(PayloadSize(f)), EncU64(|f|));
    U64RoundTrip(PayloadSize(f), h, 0);
    U64RoundTrip(|f|, h, 8);
  }

  /** One turn of the receive loop on a well-formed frame: it consumes the frame and nothing
      else, and it goes on with the count that is left. */
  lemma ReceiveOneFrame(room: nat, f: seq<FileEntry>, buffer: seq<byte>, after: seq<byte>,
                        remaining: u64, soFar: seq<FileEntry>) returns (filled: seq<byte>)
    requires room < TWO_64 && Frameable(room, f) && |buffer| == FRAME_HEADER_SIZE + room
    requires |f| <= remaining
    ensures |filled| == FRAME_HEADER_SIZE + room
    ensures ReceiveFrames(room, buffer, EncFrame(room, f) + after, remaining, soFar)
            == if remaining == |f| then Received(soFar + f, after)
               else ReceiveFrames(room, filled, after, remaining - |f|, soFar + f)
  {
    hide EncEntry, SerializedSize, DecEntry, DecU64, EncU64, EncEntries, PayloadSize, DecEntries, EncFrame;
    var input := EncFrame(room, f) + after;
    FrameFills(room, f, buffer, input);
    var end := FRAME_HEADER_SIZE + PayloadSize(f);
    assert input[end..] == after;
    var h := Splice(buffer, 0, input[..FRAME_HEADER_SIZE]);
    filled := Splice(h, FRAME_HEADER_SIZE, input[FRAME_HEADER_SIZE..end]);
    FrameableIsValid(room, f);
    EntriesRoundTrip(f, filled, FRAME_HEADER_SIZE, soFar);
  }

  lemma {:induction false} FramesRoundTrip(room: nat, fs: seq<seq<FileEntry>>, buffer: seq<byte>,
                                           suffix: seq<byte>, soFar: seq<FileEntry>)
    requires room < TWO_64 && |buffer| == FRAME_HEADER_SIZE + room
    requires |fs| >= 1 && AllFrameable(room, fs) && LaterFramesNonEmpty(fs)
    requires |Flatten(fs)| < TWO_64
    ensures ReceiveFrames(room, buffer, EncFrames(room, fs) + suffix, |Flatten(fs)|, soFar)
            == Received(soFar + Flatten(fs), suffix)
    decreases |fs|
  {
    hide EncFrame, Frameable, ReceiveFrames;
    var f, later := fs[0], fs[1..];
    var after := EncFrames(room, later) + suffix;
    assert EncFrames(room, fs) + suffix == EncFrame(room, f) + after;
    assert Flatten(fs) == f + Flatten(later);
    var filled := ReceiveOneFrame(room, f, buffer, after, |Flatten(fs)|, soFar);
    if later == [] {
      assert soFar + Flatten(fs) == soFar + f;
      assert after == suffix;
    } else {
      LaterCounts(fs);
      FramesRoundTrip(room, later, filled, suffix, soFar + f);
      assert soFar + f + Flatten(later) == soFar + Flatten(fs);
    }
  }

  lemma LaterCounts(fs: seq<seq<FileEntry>>)
    requires |fs| > 1 && LaterFramesNonEmpty(fs)
    ensures LaterFramesNonEmpty(fs[1..]) && |Flatten(fs[1..])| > 0
  {
    assert fs[1..][0] == fs[1];
    forall i | 1 <= i < |fs[1..]| ensures fs[1..][i] != [] { assert fs[i + 1] != []; }
  }

  /** The receiver, fed what the sender wrote followed by anything, returns exactly the listing
      and leaves exactly what followed: the stream can be used for the next transfer.  Whatever
      the buffer still held from earlier frames plays no part. */
  lemma ListingRoundTrip(room: nat, es: seq<FileEntry>, buffer: seq<byte>, suffix: seq<byte>)
    requires room < TWO_64 && Listable(room, es) && |buffer| == FRAME_HEADER_SIZE + room
    ensures ReceiveListing(room, buffer, EncListing(room, es) + suffix) == Received(es, suffix)
  {
    hide Frames, EncFrames, ReceiveFrames;
    FramesSplit(room, [], es);
    assert [] + es == es;
    var fs := Frames(room, [], es);
    var input := EncListing(room, es) + suffix;
    assert input[..8] == EncU64(|es|) && input[8..] == EncFrames(room, fs) + suffix;
    var filled := Splice(buffer, 0, input[..8]);
    U64RoundTrip(|es|, filled, 0);
    FramesRoundTrip(room, fs, filled, suffix, []);
    assert [] + Flatten(fs) == es;
  }
}
