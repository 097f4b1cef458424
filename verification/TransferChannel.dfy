/** modules/common/src/TransferChannel.cpp: the channel object.  The socket is the bytes still to
    be read and the bytes written so far; a transfer's loops move data through the two fixed
    buffers.  Each method is proved against the functions of DirectoryListing and FileTransfer. */
module TransferChannels {
  import opened Packable
  import opened FileEntries
  import opened DirectoryListing
  import FT = FileTransfer
  import opened SafePath

  const TRANSFER_BUFFER_SIZE: nat := 1024 * 256
  const ROOM: nat := TRANSFER_BUFFER_SIZE - FRAME_HEADER_SIZE

  datatype SendResult = Skipped | Sent | Threw

  datatype ListingResult = Unavailable | Finished(outcome: Outcome)

  datatype DirectoryResult = DirectoryUnavailable | DirectoryFinished(outcome: FT.DirectoryOutcome)

  datatype FileResult = FileUnavailable | FileFinished(outcome: FT.FileOutcome)

  // ---------------------------------------------------------------------------------------
  // Framing, one entry at a time
  // ---------------------------------------------------------------------------------------

  /** Adding an entry at the end either extends the last frame or opens a new one. */
  lemma {:induction false} FramesSnoc(room: nat, current: seq<FileEntry>, es: seq<FileEntry>, e: FileEntry)
    ensures var fs := Frames(room, current, es);
            var last := fs[|fs| - 1];
            Frames(room, current, es + [e])
            == if PayloadSize(last) + SerializedSize(e) > room then fs + [[e]]
               else fs[..|fs| - 1] + [last + [e]]
    decreases |es|
  {
    hide SerializedSize, PayloadSize;
    if es == [] {
      assert (es + [e])[0] == e && (es + [e])[1..] == [];
    } else {
      assert (es + [e])[1..] == es[1..] + [e] && (es + [e])[0] == es[0];
      FramesSnoc(room, [es[0]], es[1..], e);
      FramesSnoc(room, current + [es[0]], es[1..], e);
      SnocBehind(current, Frames(room, [es[0]], es[1..]), e);
    }
  }

  lemma SnocBehind(current: seq<FileEntry>, fs: seq<seq<FileEntry>>, e: FileEntry)
    requires fs != []
    ensures var all, last := [current] + fs, fs[|fs| - 1];
      && all[|all| - 1] == last
      && [current] + (fs + [[e]]) == all + [[e]]
      && [current] + (fs[..|fs| - 1] + [last + [e]]) == all[..|all| - 1] + [last + [e]]
  {
    assert ([current] + fs)[..|fs|] == [current] + fs[..|fs| - 1];
  }

  ghost predicate FirstMisfit(es: seq<FileEntry>, k: nat) {
    k < |es| && AllFit(ROOM, es[..k]) && !Fits(ROOM, es[k])
  }

  /** The sender has handled `done`: the frames `sent` are on the wire, `current` is in the buffer. */
  ghost predicate Framed(done: seq<FileEntry>, sent: seq<seq<FileEntry>>, current: seq<FileEntry>) {
    && Listable(ROOM, done)
    && Frames(ROOM, [], done) == sent + [current]
    && AllFrameable(ROOM, sent + [current]) && AllFrameable(ROOM, sent) && Frameable(ROOM, current)
    && AllValid(current)
  }

  lemma FramedStart()
    ensures Framed([], [], [])
    ensures PayloadSize([]) == 0 && EncEntries([]) == [] && EncFrames(ROOM, []) == []
  {
    var none: seq<seq<FileEntry>>, empty: seq<FileEntry> := [], [];
    assert none + [empty] == [empty];
  }

  lemma FramedWire(done: seq<FileEntry>, sent: seq<seq<FileEntry>>, current: seq<FileEntry>)
    requires Framed(done, sent, current)
    ensures EncFrames(ROOM, sent + [current]) == EncFrames(ROOM, sent) + EncFrame(ROOM, current)
  {
    hide Frameable, EncFrame, EncFrames, Listable, Frames;
    EncFramesAppend(ROOM, sent, [current]);
    EncFramesOne(ROOM, current);
  }

  lemma NothingIsFrameable()
    ensures Frameable(ROOM, [])
  {
  }

  lemma FramedExtend(done: seq<FileEntry>, sent: seq<seq<FileEntry>>, current: seq<FileEntry>, e: FileEntry)
    requires Framed(done, sent, current) && e.Valid() && Fits(ROOM, e) && |done| + 1 < TWO_64
    ensures if PayloadSize(current) + SerializedSize(e) > ROOM
            then Framed(done + [e], sent + [current], [e]) else Framed(done + [e], sent, current + [e])
  {
    hide Frames, PayloadSize, SerializedSize, EncFrame, Frameable, Fits;
    FramesSnoc(ROOM, [], done, e);
    var fs := sent + [current];
    assert fs[|fs| - 1] == current && fs[..|fs| - 1] == sent;
    assert Listable(ROOM, done + [e]);
    NothingIsFrameable();
    FramesSplit(ROOM, [], done + [e]);
    assert [] + (done + [e]) == done + [e];
    if PayloadSize(current) + SerializedSize(e) > ROOM {
      LastFrame(fs, [e]);
    } else {
      LastFrame(sent, current + [e]);
    }
  }

  lemma LastFrame(fs: seq<seq<FileEntry>>, f: seq<FileEntry>)
    requires AllFrameable(ROOM, fs + [f])
    ensures AllFrameable(ROOM, fs) && Frameable(ROOM, f)
  {
    assert forall i :: 0 <= i < |fs| ==> (fs + [f])[i] == fs[i];
    assert (fs + [f])[|fs|] == f;
  }

  lemma MisfitAt(es: seq<FileEntry>, i: nat)
    requires i < |es| && AllFit(ROOM, es[..i]) && SerializedSize(es[i]) > ROOM
    ensures FirstMisfit(es, i) && !AllFit(ROOM, es)
  {
    assert !Fits(ROOM, es[i]);
  }

  /** Serialising an entry behind a frame's entries leaves the longer frame in the buffer. */
  lemma Appended(before: seq<byte>, after: seq<byte>, frame: seq<FileEntry>, e: FileEntry, offset: nat)
    requires AllValid(frame) && e.Valid()
    requires FRAME_HEADER_SIZE <= offset && offset + |EncEntry(e)| <= |before|
    requires before[FRAME_HEADER_SIZE..offset] == EncEntries(frame)
    requires after == Splice(before, offset, EncEntry(e))
    ensures AllValid(frame + [e])
    ensures after[FRAME_HEADER_SIZE..offset + |EncEntry(e)|] == EncEntries(frame + [e])
    ensures PayloadSize(frame + [e]) == PayloadSize(frame) + SerializedSize(e)
  {
    hide EncEntry, EncEntries, SerializedSize;
    AppendEntry(frame, e);
    assert after[FRAME_HEADER_SIZE..offset] == before[FRAME_HEADER_SIZE..offset];
  }

  /** What the send loop may rely on without looking into `Framed`. */
  ghost predicate Sending(sent: seq<seq<FileEntry>>, current: seq<FileEntry>) {
    AllFrameable(ROOM, sent) && AllFrameable(ROOM, sent + [current]) && Frameable(ROOM, current) && AllValid(current)
  }

  lemma FramedSending(done: seq<FileEntry>, sent: seq<seq<FileEntry>>, current: seq<FileEntry>)
    requires Framed(done, sent, current)
    ensures Sending(sent, current)
  {
  }

  lemma FramedListing(es: seq<FileEntry>, sent: seq<seq<FileEntry>>, current: seq<FileEntry>)
    requires Framed(es, sent, current)
    ensures Listable(ROOM, es)
    ensures AllFrameable(ROOM, sent + [current])
    ensures EncListing(ROOM, es) == EncU64(|es|) + EncFrames(ROOM, sent + [current])
  {
  }

  lemma ThrownAt(es: seq<FileEntry>, i: nat, sent: seq<seq<FileEntry>>, current: seq<FileEntry>)
    requires i < |es| && Framed(es[..i], sent, current) && SerializedSize(es[i]) > ROOM
    ensures FirstMisfit(es, i) && !AllFit(ROOM, es) && Listable(ROOM, es[..i])
    ensures AllFrameable(ROOM, sent + [current])
    ensures Frames(ROOM, [], es[..i]) == sent + [current]
  {
    MisfitAt(es, i);
  }

  class TransferChannel {
    const m_bufferIn: array<byte>
    const m_bufferOut: array<byte>
    var m_connected: bool
    var m_send: bool
    var m_receive: bool
    var m_progress: nat
    var m_currentFileProgress: nat
    var m_currentFileSize: nat
    var incoming: seq<byte>
    var outgoing: seq<byte>

    ghost predicate Valid()
      reads this
    {
      && m_bufferIn != m_bufferOut
      && m_bufferIn.Length == m_bufferOut.Length == TRANSFER_BUFFER_SIZE
    }

    constructor ()
      ensures Valid() && fresh(m_bufferIn) && fresh(m_bufferOut)
      ensures !m_connected && !m_send && !m_receive && incoming == outgoing == []
    {
      m_bufferIn := new byte[TRANSFER_BUFFER_SIZE](_ => 0);
      m_bufferOut := new byte[TRANSFER_BUFFER_SIZE](_ => 0);
      m_connected, m_send, m_receive := false, false, false;
      m_progress, m_currentFileProgress, m_currentFileSize := 0, 0, 0;
      incoming, outgoing := [], [];
    }

    // -------------------------------------------------------------------------------------
    // The socket
    // -------------------------------------------------------------------------------------

    /** async_read of exactly `count` bytes into the input buffer; fails when the stream ends. */
    method AsyncRead(offset: nat, count: nat) returns (ok: bool)
      requires Valid() && offset + count <= TRANSFER_BUFFER_SIZE
      modifies this`incoming, m_bufferIn
      ensures ok == (count <= |old(incoming)|)
      ensures ok ==> incoming == old(incoming)[count..]
      ensures |incoming| <= |old(incoming)|
      ensures ok ==> m_bufferIn[..] == Splice(old(m_bufferIn[..]), offset, old(incoming)[..count])
    {
      if count > |incoming| {
        return false;
      }
      var stored := Store(incoming[..count], m_bufferIn, offset);
      incoming := incoming[count..];
      return true;
    }

    method SendBuffer(size: nat)
      requires Valid() && size <= TRANSFER_BUFFER_SIZE
      modifies this`outgoing, this`m_progress
      ensures outgoing == old(outgoing) + m_bufferOut[..size]
      ensures m_progress == old(m_progress) + size
    {
      outgoing := outgoing + m_bufferOut[..size];
      m_progress := m_progress + size;
    }

    // -------------------------------------------------------------------------------------
    // Directory listings
    // -------------------------------------------------------------------------------------

    /** Completes the frame in the output buffer with its header and sends it. */
    method SendFrame(ghost frame: seq<FileEntry>, offset: nat, count: nat)
      requires Valid() && Frameable(ROOM, frame) && count == |frame|
      requires offset == FRAME_HEADER_SIZE + PayloadSize(frame)
      requires m_bufferOut[FRAME_HEADER_SIZE..offset] == EncEntries(frame)
      modifies this`outgoing, this`m_progress, m_bufferOut
      ensures outgoing == old(outgoing) + EncFrame(ROOM, frame)
      ensures m_progress == old(m_progress) + |EncFrame(ROOM, frame)|
    {
      hide EncEntries, PayloadSize;
      assert count < TWO_64 && offset - FRAME_HEADER_SIZE < TWO_64;
      ghost var before := m_bufferOut[..];
      ghost var size := EncU64(offset - FRAME_HEADER_SIZE);
      var next := Store(EncU64(offset - FRAME_HEADER_SIZE), m_bufferOut, 0);
      next := Store(EncU64(count), m_bufferOut, 8);
      SpliceTwice(before, 0, size, EncU64(count));
      assert m_bufferOut[..offset] == EncFrame(ROOM, frame) by {
        assert m_bufferOut[FRAME_HEADER_SIZE..offset] == before[FRAME_HEADER_SIZE..offset];
        assert m_bufferOut[..FRAME_HEADER_SIZE] == size + EncU64(count);
        assert m_bufferOut[..offset] == m_bufferOut[..FRAME_HEADER_SIZE] + m_bufferOut[FRAME_HEADER_SIZE..offset];
      }
      SendBuffer(offset);
    }

    /** CoSendDirectoryEntries.  An entry that no frame can hold makes the serialisation throw;
        nothing then clears the sending flag. */
    method SendDirectoryEntries(entries: seq<FileEntry>) returns (result: SendResult)
      requires Valid() && AllValid(entries) && |entries| < TWO_64
      modifies this`m_send, this`m_progress, this`outgoing, m_bufferOut
      ensures !m_connected || old(m_send) ==>
                result == Skipped && outgoing == old(outgoing) && m_send == old(m_send)
      ensures m_connected && !old(m_send) && AllFit(ROOM, entries) ==>
                && result == Sent && !m_send
                && outgoing == old(outgoing) + EncListing(ROOM, entries)
                && m_progress == |EncListing(ROOM, entries)|
      ensures m_connected && !old(m_send) && !AllFit(ROOM, entries) ==>
                && result == Threw && m_send
                && exists k: nat :: FirstMisfit(entries, k) && Listable(ROOM, entries[..k])
                    && AllFrameable(ROOM, Frames(ROOM, [], entries[..k]))
                    && outgoing == old(outgoing) + EncU64(|entries|) + EncFrames(ROOM, Frames(ROOM, [], entries[..k]))
    {
      hide SerializedSize, EncEntry, EncListing, EncFrame, EncFrames, EncEntries, PayloadSize, EncU64, Framed,
        Frames, Listable,
        AllFit, FirstMisfit, Splice;
      if !m_connected || m_send {
        return Skipped;
      }
      m_send := true;
      m_progress := 0;
      var stored := Store(EncU64(|entries|), m_bufferOut, 0);
      SendBuffer(8);
      ghost var announced := outgoing;
      assert announced == old(outgoing) + EncU64(|entries|);

      ghost var sent: seq<seq<FileEntry>> := [];
      ghost var current: seq<FileEntry> := [];
      var offset := FRAME_HEADER_SIZE;
      var count := 0;
      FramedStart();
      for i := 0 to |entries|
        invariant Framed(entries[..i], sent, current) && Sending(sent, current)
        invariant m_send && count == |current|
          && offset == FRAME_HEADER_SIZE + PayloadSize(current) <= TRANSFER_BUFFER_SIZE
        invariant m_bufferOut[FRAME_HEADER_SIZE..offset] == EncEntries(current)
        invariant outgoing == announced + EncFrames(ROOM, sent)
        invariant m_progress == 8 + |EncFrames(ROOM, sent)|
      {
        var entry := entries[i];
        assert entries[..i + 1] == entries[..i] + [entry];
        var entrySize := SerializedSize(entry);
        ghost var flushed := offset + entrySize > TRANSFER_BUFFER_SIZE;
        if offset + entrySize > TRANSFER_BUFFER_SIZE {
          SendFrame(current, offset, count);
          FramedWire(entries[..i], sent, current);
          offset := FRAME_HEADER_SIZE;
          count := 0;
          FramedStart();
        }
        ghost var frame := if flushed then [] else current;
        ghost var buffered := m_bufferOut[..];
        var next := Serialize(entry, m_bufferOut, offset);
        if next.None? {
          ThrownAt(entries, i, sent, current);
          return Threw;
        }
        FramedExtend(entries[..i], sent, current, entry);
        Appended(buffered, m_bufferOut[..], frame, entry, offset);
        assert [] + [entry] == [entry];
        sent := if flushed then sent + [current] else sent;
        current := frame + [entry];
        FramedSending(entries[..i + 1], sent, current);
        offset := next.value;
        count := count + 1;
      }
      assert entries[..|entries|] == entries;
      SendFrame(current, offset, count);
      FramedWire(entries, sent, current);
      FramedListing(entries, sent, current);
      m_send := false;
      return Sent;
    }

    /** The inner loop of the receiver: `count` entries from the buffer, behind those `soFar`. */
    method DeserializeEntries(count: nat, soFar: seq<FileEntry>) returns (decoded: Parsed<seq<FileEntry>>)
      ensures decoded == DecEntries(m_bufferIn[..], FRAME_HEADER_SIZE, count, soFar)
    {
      hide DecEntry;
      var entries := soFar;
      var offset := FRAME_HEADER_SIZE;
      for i := 0 to count
        invariant DecEntries(m_bufferIn[..], FRAME_HEADER_SIZE, count, soFar)
                  == DecEntries(m_bufferIn[..], offset, count - i, entries)
      {
        var entry := DecEntry(m_bufferIn[..], offset);
        if entry.OutOfBounds? {
          return OutOfBounds;
        }
        entries := entries + [entry.value];
        offset := entry.next;
      }
      return Ok(entries, offset);
    }

    /** One frame of a listing: either it ends the reception, or `left` entries are still to come. */
    method ReceiveFrame(totalCount: u64, soFar: seq<FileEntry>)
      returns (done: bool, outcome: Outcome, left: u64, entries: seq<FileEntry>)
      requires Valid()
      modifies this`incoming, m_bufferIn
      ensures ReceiveFrames(ROOM, old(m_bufferIn[..]), old(incoming), totalCount, soFar)
              == if done then outcome else ReceiveFrames(ROOM, m_bufferIn[..], incoming, left, entries)
      ensures done && (outcome.Received? || outcome.PayloadTooLarge?) ==> incoming == outcome.unread
      ensures !done ==> |incoming| < |old(incoming)|
    {
      hide DecEntry, DecU64, Splice, DecEntries;
      done, outcome, left, entries := true, EndOfStream, 0, soFar;
      var ok := AsyncRead(0, FRAME_HEADER_SIZE);
      if !ok {
        return;
      }
      var payloadSize, count := DecU64(m_bufferIn[..], 0).value, DecU64(m_bufferIn[..], 8).value;
      if payloadSize > ROOM {
        outcome := PayloadTooLarge(entries, incoming);
        return;
      }
      ghost var payload := incoming;
      ok := AsyncRead(FRAME_HEADER_SIZE, payloadSize);
      if !ok {
        return;
      }
      assert payload[..payloadSize] == old(incoming)[FRAME_HEADER_SIZE..FRAME_HEADER_SIZE + payloadSize];
      var decoded := DeserializeEntries(count, soFar);
      if decoded.OutOfBounds? {
        outcome := Malformed;
        return;
      }
      entries := decoded.value;
      left := (totalCount - count) % TWO_64;
      if left == 0 {
        outcome := Received(entries, incoming);
      } else {
        done := false;
      }
    }

    /** CoReceiveDirectoryEntries. */
    method ReceiveDirectoryEntries() returns (result: ListingResult)
      requires Valid()
      modifies this`m_receive, this`m_progress, this`incoming, m_bufferIn
      ensures !m_connected || old(m_receive) ==>
                result == Unavailable && m_receive == old(m_receive) && incoming == old(incoming)
      ensures m_connected && !old(m_receive) ==>
                && result == Finished(ReceiveListing(ROOM, old(m_bufferIn[..]), old(incoming)))
                && !m_receive
                && (result.outcome.Received? || result.outcome.PayloadTooLarge? ==> incoming == result.outcome.unread)
    {
      hide DecU64, ReceiveFrames, Splice;
      if !m_connected || m_receive {
        return Unavailable;
      }
      m_receive := true;
      m_progress := 0;
      ghost var promised := ReceiveListing(ROOM, m_bufferIn[..], incoming);
      var ok := AsyncRead(0, 8);
      if !ok {
        m_receive := false;
        return Finished(EndOfStream);
      }
      var totalCount: u64 := DecU64(m_bufferIn[..], 0).value;
      var entries: seq<FileEntry> := [];
      var done, outcome := false, EndOfStream;
      while !done
        invariant Valid() && m_receive
        invariant promised ==
          if done then outcome else ReceiveFrames(ROOM, m_bufferIn[..], incoming, totalCount, entries)
        invariant done && (outcome.Received? || outcome.PayloadTooLarge?) ==> incoming == outcome.unread
        decreases !done, |incoming|
      {
        done, outcome, totalCount, entries := ReceiveFrame(totalCount, entries);
      }
      m_receive := false;
      return Finished(outcome);
    }

    // -------------------------------------------------------------------------------------
    // File contents
    // -------------------------------------------------------------------------------------

    /** Send: the file passes through the output buffer piece by piece. */
    method Send(content: seq<byte>)
      requires Valid()
      modifies this`outgoing, this`m_progress, this`m_currentFileProgress, this`m_currentFileSize, m_bufferOut
      ensures outgoing == old(outgoing) + content
      ensures m_progress == old(m_progress) + |content|
      ensures m_currentFileProgress == m_currentFileSize == |content|
    {
      hide Splice;
      m_currentFileProgress := 0;
      m_currentFileSize := |content|;
      var offset := 0;
      while offset < |content|
        invariant 0 <= offset <= |content| && Valid()
        invariant outgoing == old(outgoing) + content[..offset]
        invariant m_progress == old(m_progress) + offset
        invariant m_currentFileProgress == offset && m_currentFileSize == |content|
      {
        var bufferSize := if TRANSFER_BUFFER_SIZE <= |content| - offset then TRANSFER_BUFFER_SIZE
          else |content| - offset;
        var start := offset;
        offset := offset + bufferSize;
        ghost var piece := content[start..offset];
        var stored := Store(content[start..offset], m_bufferOut, 0);
        assert m_bufferOut[..bufferSize] == piece;
        assert content[..start] + content[start..offset] == content[..offset];
        SendBuffer(bufferSize);
        m_currentFileProgress := offset;
      }
    }

    /** Receive: exactly `length` bytes are moved from the stream to the file, or the stream ends
        first.  The accumulated `content` is what the file holds. */
    method Receive(length: nat) returns (ok: bool, content: seq<byte>)
      requires Valid()
      modifies this`incoming, this`m_progress, this`m_currentFileProgress, this`m_currentFileSize, m_bufferIn
      ensures ok == (length <= |old(incoming)|)
      ensures ok ==> content == old(incoming)[..length] && incoming == old(incoming)[length..]
      ensures ok ==> m_progress == old(m_progress) + length && m_currentFileProgress == m_currentFileSize == length
      ensures |incoming| <= |old(incoming)|
    {
      hide Splice;
      m_currentFileProgress := 0;
      m_currentFileSize := length;
      content := [];
      var offset := 0;
      while offset < length
        invariant 0 <= offset <= length && offset <= |old(incoming)| && Valid()
        invariant content == old(incoming)[..offset] && incoming == old(incoming)[offset..]
        invariant m_progress == old(m_progress) + offset
        invariant m_currentFileProgress == offset && m_currentFileSize == length
      {
        var bufferSize := if TRANSFER_BUFFER_SIZE <= length - offset then TRANSFER_BUFFER_SIZE else length - offset;
        ghost var piece := old(incoming)[offset..];
        var read := AsyncRead(0, bufferSize);
        if !read {
          return false, content;
        }
        assert m_bufferIn[..bufferSize] == piece[..bufferSize];
        content := content + m_bufferIn[..bufferSize];
        offset := offset + bufferSize;
        m_progress := m_progress + bufferSize;
        m_currentFileProgress := offset;
      }
      return true, content;
    }

    /** DrainSocketBytes: the bytes are read through the input buffer and dropped. */
    method DrainSocketBytes(bytesToDrain: nat) returns (ok: bool)
      requires Valid()
      modifies this`incoming, m_bufferIn
      ensures ok == (bytesToDrain <= |old(incoming)|)
      ensures ok ==> incoming == old(incoming)[bytesToDrain..]
      ensures |incoming| <= |old(incoming)|
    {
      var drainedBytes := 0;
      while drainedBytes < bytesToDrain
        invariant 0 <= drainedBytes <= bytesToDrain && drainedBytes <= |old(incoming)| && Valid()
        invariant incoming == old(incoming)[drainedBytes..]
      {
        var left := bytesToDrain - drainedBytes;
        var chunkSize := if TRANSFER_BUFFER_SIZE <= left then TRANSFER_BUFFER_SIZE else left;
        ok := AsyncRead(0, chunkSize);
        if !ok {
          return;
        }
        drainedBytes := drainedBytes + chunkSize;
      }
      return true;
    }

    // -------------------------------------------------------------------------------------
    // Directories
    // -------------------------------------------------------------------------------------

    /** Writes the header of one file, preceded by its size. */
    method SendRecordHeader(path: seq<byte>, size: u64, last: bool)
      requires ValidString(path) && FT.HeaderSize(path) < TWO_64
      modifies this`outgoing
      ensures outgoing == old(outgoing) + FT.EncRecordHeader(path, size, last)
    {
      outgoing := outgoing + FT.EncRecordHeader(path, size, last);
    }

    /** CoSendDirectory, given the regular files below the sent directory. */
    method SendDirectory(fileList: seq<FT.Record>) returns (result: SendResult)
      requires Valid() && FT.AllSendable(fileList)
      modifies this`m_send, this`outgoing, this`m_progress, this`m_currentFileProgress, this`m_currentFileSize,
        m_bufferOut
      ensures !m_connected || old(m_send) ==>
                result == Threw && m_send == old(m_send) && outgoing == old(outgoing)
      ensures m_connected && !old(m_send) ==>
                && result == Sent && !m_send
                && outgoing == old(outgoing) + FT.EncDirectory(fileList)
    {
      hide FT.EncRecordHeader;
      if !m_connected || m_send {
        return Threw;
      }
      m_send := true;
      m_progress, m_currentFileSize, m_currentFileProgress := 0, 0, 0;
      if fileList == [] {
        SendRecordHeader([], 0, true);
      }
      ghost var before := outgoing;
      for i := 0 to |fileList|
        invariant Valid() && m_connected && m_send
        invariant outgoing + FT.EncRecords(fileList[i..]) == before + FT.EncRecords(fileList)
      {
        ghost var start := outgoing;
        SendRecordHeader(fileList[i].path, |fileList[i].content|, i == |fileList| - 1);
        Send(fileList[i].content);
        assert fileList[i..][0] == fileList[i] && fileList[i..][1..] == fileList[i + 1..];
        assert outgoing == start + FT.EncRecord(fileList[i], |fileList[i..]| == 1);
      }
      assert fileList[|fileList|..] == [] && fileList[0..] == fileList;
      assert outgoing == before + FT.EncRecords(fileList) by { assert outgoing + [] == outgoing; }
      m_send := false;
      return Sent;
    }

    /** CoReceiveDirectory into `d`; `files` is the content of the disk below it. */
    method ReceiveDirectory(d: FT.Destination, files: FT.Files) returns (result: DirectoryResult)
      requires Valid()
      modifies this`m_receive, this`incoming, this`m_progress, this`m_currentFileProgress, this`m_currentFileSize,
        m_bufferIn
      ensures !m_connected || old(m_receive) ==>
                result == DirectoryUnavailable && m_receive == old(m_receive) && incoming == old(incoming)
      ensures m_connected && !old(m_receive) ==>
                && !m_receive
                && result == DirectoryFinished(FT.ReceiveRecords(d, FT.FreshHeaderBuffer(), old(incoming), files, 0))
                && (result.outcome.Completed? ==>
                    incoming == result.outcome.unread && m_progress == result.outcome.progress)
    {
      hide DecU64, FT.DecHeader, SafeReceivePath;
      if !m_connected || m_receive {
        return DirectoryUnavailable;
      }
      m_receive := true;
      m_progress, m_currentFileSize, m_currentFileProgress := 0, 0, 0;
      var buffer := FT.FreshHeaderBuffer();
      var stored := files;
      ghost var promised := FT.ReceiveRecords(d, buffer, incoming, stored, 0);
      while true
        invariant Valid() && |buffer| == FT.MAX_HEADER && m_connected && m_receive
        invariant FT.ReceiveRecords(d, buffer, incoming, stored, m_progress) == promised
        decreases |incoming|
      {
        var read := FT.ReadHeader(buffer, incoming);
        if read.NoHeader? {
          m_receive := false;
          return DirectoryFinished(FT.Failed(read.failure));
        }
        buffer, incoming := read.buffer, read.unread;
        var fileHeader := read.header;
        if FT.IsTerminator(fileHeader) {
          break;
        }
        var filePath := BuildSafeReceivePath(d.base, fileHeader.relativePath, d.canonical);
        if filePath.None? {
          var drained := DrainSocketBytes(fileHeader.fileSize);
          if !drained {
            m_receive := false;
            return DirectoryFinished(FT.Failed(FT.EndOfStream));
          }
        } else if NamesDirectory(fileHeader.relativePath) || !d.openable(stored, filePath.value) {
          m_receive := false;
          return DirectoryFinished(FT.Failed(FT.CannotOpen));
        } else {
          var ok, content := Receive(fileHeader.fileSize);
          if !ok {
            m_receive := false;
            return DirectoryFinished(FT.Failed(FT.EndOfStream));
          }
          stored := stored[filePath.value := content];
        }
        if fileHeader.last {
          break;
        }
      }
      m_receive := false;
      return DirectoryFinished(FT.Completed(stored, m_progress, incoming));
    }

    // -------------------------------------------------------------------------------------
    // Single files
    // -------------------------------------------------------------------------------------

    /** CoSendFile. */
    method SendFile(content: seq<byte>) returns (result: SendResult)
      requires Valid() && |content| < TWO_64
      modifies this`m_send, this`outgoing, this`m_progress, this`m_currentFileProgress, this`m_currentFileSize,
        m_bufferOut
      ensures !m_connected || old(m_send) ==>
                result == Threw && m_send == old(m_send) && outgoing == old(outgoing)
      ensures m_connected && !old(m_send) ==>
                && result == Sent && !m_send
                && outgoing == old(outgoing) + FT.EncFile(content) && m_progress == |content|
    {
      if !m_connected || m_send {
        return Threw;
      }
      m_send := true;
      m_progress, m_currentFileSize, m_currentFileProgress := 0, 0, 0;
      ghost var start := outgoing;
      outgoing := outgoing + FT.EncHeader(FT.FileHeader([], |content|, true));
      Send(content);
      assert outgoing == start + FT.EncFile(content);
      m_send := false;
      return Sent;
    }

    /** CoReceiveFile: the file ends up with `content`, if it can be opened. */
    method ReceiveFile(openable: bool) returns (result: FileResult)
      requires Valid()
      modifies this`m_receive, this`incoming, this`m_progress, this`m_currentFileProgress, this`m_currentFileSize,
        m_bufferIn
      ensures !m_connected || old(m_receive) ==>
                result == FileUnavailable && m_receive == old(m_receive) && incoming == old(incoming)
      ensures m_connected && !old(m_receive) ==>
                && result == FileFinished(FT.ReceivedFile(openable, old(incoming))) && !m_receive
                && (result.outcome.FileReceived? ==>
                      incoming == result.outcome.unread && m_progress == |result.outcome.content|)
    {
      hide FT.DecHeader;
      if !m_connected || m_receive {
        return FileUnavailable;
      }
      m_receive := true;
      m_progress, m_currentFileSize, m_currentFileProgress := 0, 0, 0;
      if |incoming| < FT.EMPTY_HEADER {
        m_receive := false;
        return FileFinished(FT.FileFailed(FT.EndOfStream));
      }
      var header := FT.DecHeader(incoming[..FT.EMPTY_HEADER], 0);
      incoming := incoming[FT.EMPTY_HEADER..];
      if header.OutOfBounds? {
        m_receive := false;
        return FileFinished(FT.FileFailed(FT.MalformedHeader));
      }
      if !openable {
        m_receive := false;
        return FileFinished(FT.FileFailed(FT.CannotOpen));
      }
      var ok, content := Receive(header.value.fileSize);
      m_receive := false;
      return FileFinished(if ok then FT.FileReceived(content, incoming) else FT.FileFailed(FT.EndOfStream));
    }

    /** CoReceiveFileData: every piece read is handed to the sink, whose bytes are `sunk`.  The
        source exits by throwing on every failure, and the flag is cleared in all cases. */
    method ReceiveFileData(expectedSize: u64) returns (result: FileResult, sunk: seq<byte>)
      requires Valid()
      modifies this`m_receive, this`incoming, this`m_progress, this`m_currentFileProgress, this`m_currentFileSize,
        m_bufferIn
      ensures !m_connected || old(m_receive) ==>
                result == FileUnavailable && m_receive == old(m_receive) && incoming == old(incoming)
      ensures m_connected && !old(m_receive) ==>
                && result == FileFinished(FT.ReceivedFileData(expectedSize, old(incoming))) && !m_receive
                && (result.outcome.FileReceived? ==>
                      sunk == result.outcome.content && incoming == result.outcome.unread
                      && m_progress == m_currentFileProgress == m_currentFileSize == expectedSize)
    {
      hide FT.DecHeader, Splice;
      sunk := [];
      if !m_connected || m_receive {
        return FileUnavailable, sunk;
      }
      m_receive := true;
      m_progress, m_currentFileProgress, m_currentFileSize := 0, 0, expectedSize;
      if |incoming| < FT.EMPTY_HEADER {
        m_receive := false;
        return FileFinished(FT.FileFailed(FT.EndOfStream)), sunk;
      }
      var header := FT.DecHeader(incoming[..FT.EMPTY_HEADER], 0);
      incoming := incoming[FT.EMPTY_HEADER..];
      ghost var body := incoming;
      if header.OutOfBounds? {
        m_receive := false;
        return FileFinished(FT.FileFailed(FT.MalformedHeader)), sunk;
      }
      if header.value.fileSize != expectedSize || header.value.relativePath != [] || !header.value.last {
        m_receive := false;
        return FileFinished(FT.FileFailed(FT.UnexpectedHeader)), sunk;
      }
      var received := 0;
      while received < expectedSize
        invariant 0 <= received <= expectedSize && received <= |body| && Valid()
        invariant sunk == body[..received] && incoming == body[received..]
        invariant m_progress == m_currentFileProgress == received && m_currentFileSize == expectedSize
      {
        var count := if TRANSFER_BUFFER_SIZE <= expectedSize - received then TRANSFER_BUFFER_SIZE
          else expectedSize - received;
        ghost var left := incoming;
        var ok := AsyncRead(0, count);
        if !ok {
          m_receive := false;
          return FileFinished(FT.FileFailed(FT.EndOfStream)), sunk;
        }
        assert m_bufferIn[..count] == left[..count] == body[received..received + count];
        assert body[..received + count] == body[..received] + body[received..received + count];
        sunk := sunk + m_bufferIn[..count];
        received := received + count;
        m_progress := received;
        m_currentFileProgress := received;
      }
      m_receive := false;
      return FileFinished(FT.FileReceived(sunk, incoming)), sunk;
    }
  }
}
