/** RemoteFileStream of apps/desktop/src/WindowsVirtualFileDrag.cpp: reading a remote file through its
    ring buffer, and copying it to the target of a drop. */
module ExportStream {
  import opened Packable
  import opened ExportProgress
  import opened ExportReading
  import RB = RemoteFileBuffers

  /** The target of CopyTo; it may fail or take less than it is given. */
  class Target {
    var stored: seq<byte>
    var answers: seq<(bool, nat)>

    method Write(bytes: seq<byte>) returns (failed: bool, saved: nat)
      modifies this
      ensures (failed, saved) == Reply(old(answers), |bytes|) && answers == Rest(old(answers))
      ensures saved <= |bytes| && stored == old(stored) + bytes[..saved]
    {
      failed, saved := false, |bytes|;
      if answers != [] {
        failed := answers[0].0;
        saved := ExportReading.Min(saved, answers[0].1);
        answers := answers[1..];
      }
      stored := stored + bytes[..saved];
    }
  }

  /** The files and positions that the progress callback has been told. */
  function Positions(progress: seq<Shown>): (told: seq<(nat, nat)>)
    ensures |told| == |progress|
  {
    seq(|progress|, i requires 0 <= i < |progress| => (progress[i].index, progress[i].position))
  }

  class RemoteFileStream {
    const state: ExportState
    const index: nat
    /** The buffer that StreamExportFile gives at the first Read. */
    const buffer: RB.RemoteFileBuffer
    var streaming: bool
    var position: nat
    /** What the next looks at the buffer find; when none is left, the deadline passes. */
    var polls: seq<Poll>
    ghost var accepted: seq<byte>

    ghost predicate Valid()
      reads this, state, buffer, buffer.data
    {
      && state.Valid() && index < |state.entries| && !state.entries[index].directory
      && buffer.Valid() && position <= |accepted| && Follows(buffer.View(), accepted, position)
      && (!streaming ==> position == 0)
    }

    ghost function Value(): Source
      requires buffer.Valid()
      reads this, state, buffer, buffer.data
    {
      Source(buffer.View(), accepted, position, polls, state.failed || state.cancelled, streaming, index,
        Positions(state.progress))
    }

    function Size(): nat
      requires index < |state.entries|
    {
      state.entries[index].size
    }

    constructor (state: ExportState, index: nat, capacity: nat, polls: seq<Poll>)
      requires state.Valid() && index < |state.entries| && !state.entries[index].directory
      ensures Valid() && this.state == state && this.index == index && position == 0 && accepted == []
      ensures !streaming && this.polls == polls && buffer.View().held == [] && !buffer.View().finished
      ensures fresh(buffer) && fresh(buffer.data)
    {
      var b := new RB.RemoteFileBuffer(capacity);
      this.state, this.index, this.polls := state, index, polls;
      buffer, streaming, position, accepted := b, false, 0, [];
    }

    /** One thing that the network does. */
    method Produce(p: Production)
      requires Valid()
      modifies this`accepted, buffer, buffer.data
      ensures Valid() && Value() == Produced(old(Value()), p)
    {
      hide Follows, RB.Ring, RB.Written, RB.Finished, RB.Cancelled, RB.Accepts, Within, Sum, Total, Positions;
      match p {
        case Arrives(bytes) =>
          WriteFollows(buffer.View(), accepted, position, bytes);
          var ok := buffer.TryWrite(bytes);
          accepted := if ok then accepted + bytes else accepted;
        case Ends(success) =>
          EndFollows(buffer.View(), accepted, position, success);
          buffer.Finish(success);
        case Cancels =>
          EndFollows(buffer.View(), accepted, position, false);
          buffer.Cancel();
      }
    }

    method ProduceAll(ps: seq<Production>)
      requires Valid()
      modifies this`accepted, buffer, buffer.data
      ensures Valid() && Value() == ProducedAll(old(Value()), ps) && old(accepted) <= accepted
    {
      hide Follows, RB.Ring, Within, Sum, Total, Produced, Positions;
      ghost var start := Value();
      assert ps[0..] == ps;
      var i := 0;
      while i < |ps|
        invariant 0 <= i <= |ps| && Valid()
        invariant ProducedAll(Value(), ps[i..]) == ProducedAll(start, ps)
      {
        assert ps[i..][1..] == ps[i + 1..];
        Produce(ps[i]);
        i := i + 1;
      }
      ProductionKeeps(start, ps);
    }

    method Fail() returns (hr: Result)
      requires Valid()
      modifies state`failed, state`cancelled
      ensures hr == ReadFault && Valid() && Value() == old(Value()).(broken := true)
    {
      hide Follows, RB.Ring, Positions;
      state.failed := true;
      state.Cancel();
      hr := ReadFault;
    }

    method Report()
      requires Valid()
      modifies state`positions, state`progress
      ensures Valid() && Value() == Told(old(Value())) && old(state.progress) <= state.progress
    {
      hide Follows, RB.Ring, Within, Sum, Total, Reported;
      ghost var before := state.progress;
      state.Report(index, position);
      assert Positions(state.progress) == Positions(before) + [(index, position)];
    }

    /** A look at the buffer: the next bytes go to data from `from` on. */
    method ReadBuffer(data: array<byte>, from: nat, room: nat) returns (result: RB.ReadResult)
      requires Valid() && streaming && data != buffer.data && from + room <= data.Length
      modifies this`position, buffer, data
      ensures Valid() && position == old(position) + result.bytes && result.bytes <= room
      ensures data[..] == Splice(old(data[..]), from, accepted[old(position)..position])
      ensures Value() == ReadOff(old(Value()), room)
      ensures result.failed == Value().b.failed && result.finished == Exhausted(Value().b)
    {
      hide Follows, Splice, RB.Ring, Within, Sum, Total, Positions;
      ghost var before := buffer.View();
      ReadFollows(before, accepted, position, room);
      TakenIsSmall(before, room);
      result := buffer.Read(data, from, room);
      position := position + result.bytes;
    }

    /** One round of the loop of Read.  `done` says that Read returns `hr`. */
    method Round(data: array<byte>, copied: nat, count: nat) returns (bytes: nat, done: bool, hr: Result)
      requires Valid() && streaming && data != buffer.data && copied < count <= data.Length && polls != []
      modifies this`position, this`polls, this`accepted, buffer, buffer.data, data, state
      ensures Valid() && |polls| < |old(polls)| && old(accepted) <= accepted
      ensures position == old(position) + bytes && copied + bytes <= count
      ensures data[..] == Splice(old(data[..]), copied, accepted[old(position)..position])
      ensures old(state.progress) <= state.progress
      ensures ReadOn(old(Value()), Size(), count, copied) ==
        if done then Outcome(Value(), hr, copied + bytes) else ReadOn(Value(), Size(), count, copied + bytes)
    {
      hide Follows, Splice, RB.Ring, RB.ReadOff, RB.Taken, ProducedAll, Exhausted, Within, Sum, Total, Positions,
        ReadOn, ExportState.Valid, RB.RemoteFileBuffer.Valid;
      var poll := polls[0];
      ghost var start := Value();
      polls := polls[1..];
      ProduceAll(poll.produced);
      var result := ReadBuffer(data, copied, count - copied);
      bytes := result.bytes;
      ghost var looked := Value();
      assert looked == Fetched(start, count - copied);
      done, hr := AfterBuffer(poll, result, copied + bytes, count);
      RoundMeans(start, Size(), count, copied);
    }

    /** What Read does with the result of a look at the buffer. */
    method AfterBuffer(poll: Poll, result: RB.ReadResult, copied: nat, count: nat) returns (done: bool, hr: Result)
      requires Valid() && result.failed == Value().b.failed && result.finished == Exhausted(Value().b)
      modifies state
      ensures Valid() && old(state.progress) <= state.progress
      ensures (Value(), done, hr) == Judged(old(Value()), poll, result.bytes, Size(), copied, count)
    {
      hide Follows, RB.Ring, Within, Sum, Total, Told, Positions;
      if result.failed || poll.cancelled {
        hr := Fail();
        return true, hr;
      }
      if result.bytes != 0 && (poll.due || position == Size()) {
        Report();
      }
      if result.finished {
        if position != Size() {
          hr := Fail();
          return true, hr;
        }
        Report();
        return true, if copied == count then Done else EndOfFile;
      }
      if poll.late {
        hr := Fail();
        return true, hr;
      }
      return false, Done;
    }

    /** A round, where data held `before` when the read began at the position `start`. */
    method NextRound(data: array<byte>, copied: nat, count: nat, ghost before: seq<byte>, ghost start: nat)
      returns (bytes: nat, done: bool, hr: Result)
      requires Valid() && streaming && data != buffer.data && copied < count <= data.Length && polls != []
      requires start + copied == position && |before| == data.Length
      requires data[..] == Splice(before, 0, accepted[start..position])
      modifies this`position, this`polls, this`accepted, buffer, buffer.data, data, state
      ensures Valid() && |polls| < |old(polls)| && old(accepted) <= accepted
      ensures position == old(position) + bytes && copied + bytes <= count
      ensures data[..] == Splice(before, 0, accepted[start..position])
      ensures old(state.progress) <= state.progress
      ensures ReadOn(old(Value()), Size(), count, copied) ==
        if done then Outcome(Value(), hr, copied + bytes) else ReadOn(Value(), Size(), count, copied + bytes)
    {
      hide Follows, Splice, RB.Ring, Within, Sum, Total, ReadOn, Positions;
      ghost var middle, earlier := position, accepted;
      bytes, done, hr := Round(data, copied, count);
      assert earlier[start..middle] == accepted[start..middle];
      SplicedFurther(before, accepted, start, middle, position);
    }

    /** The loop of Read. */
    method ReadLoop(data: array<byte>, count: nat) returns (hr: Result, read: nat)
      requires Valid() && streaming && data != buffer.data && count <= data.Length
      modifies this`position, this`polls, this`accepted, buffer, buffer.data, data, state
      ensures Valid() && position == old(position) + read && read <= count && old(accepted) <= accepted
      ensures data[..] == Splice(old(data[..]), 0, accepted[old(position)..position])
      ensures old(state.progress) <= state.progress
      ensures Outcome(Value(), hr, read) == ReadOn(old(Value()), Size(), count, 0)
    {
      hide Follows, Splice, RB.Ring, Within, Sum, Total, ReadOn, Positions;
      ghost var before, start, first := data[..], position, Value();
      NothingSpliced(before, accepted[start..position]);
      read := 0;
      while read < count
        invariant Valid() && position == start + read && read <= count && old(accepted) <= accepted
        invariant data[..] == Splice(before, 0, accepted[start..position])
        invariant old(state.progress) <= state.progress
        invariant ReadOn(Value(), Size(), count, read) == ReadOn(first, Size(), count, 0)
        decreases |polls|
      {
        ReadOnEnds(Value(), Size(), count, read);
        if polls == [] {
          hr := Fail();
          return;
        }
        var bytes, done;
        bytes, done, hr := NextRound(data, read, count, before, start);
        read := read + bytes;
        if done {
          return;
        }
      }
      ReadOnEnds(Value(), Size(), count, read);
      hr := Done;
    }

    /** Read delivers the next of the bytes that the buffer has accepted, and fails exactly when its
        function does. */
    method Read(data: array<byte>, count: nat) returns (hr: Result, read: nat)
      requires Valid() && data != buffer.data && count <= data.Length
      modifies this`streaming, this`position, this`polls, this`accepted, buffer, buffer.data, data, state
      ensures Valid() && position == old(position) + read && read <= count && old(accepted) <= accepted
      ensures data[..] == Splice(old(data[..]), 0, accepted[old(position)..position])
      ensures old(state.progress) <= state.progress
      ensures Outcome(Value(), hr, read) == ReadAll(old(Value()), Size(), count)
      ensures hr == EndOfFile ==> position == Size() == |accepted|
    {
      hide Follows, Splice, RB.Ring, Within, Sum, Total, ReadOn, Positions;
      NothingSpliced(data[..], accepted[position..position]);
      ReadEnds(Value(), Size(), count);
      if count == 0 {
        return Done, 0;
      }
      if state.cancelled || state.failed {
        return ReadFault, 0;
      }
      if !streaming {
        // The position moves only once there is a buffer, so the early S_FALSE is never returned.
        assert !(position == Size() && Size() != 0);
        Report();
        streaming := true;
      }
      hr, read := ReadLoop(data, count);
      AllRead(Value());
    }

    /** One block of CopyTo. */
    method CopyBlock(bytes: array<byte>, target: Target, count: nat) returns (hr: Result, received: nat, saved: nat)
      requires Valid() && bytes != buffer.data && count <= bytes.Length
      modifies this`streaming, this`position, this`polls, this`accepted, buffer, buffer.data, bytes, state, target
      ensures Valid() && position == old(position) + received && saved <= received <= count && old(accepted) <= accepted
      ensures target.stored == old(target.stored) + accepted[old(position)..old(position) + saved]
      ensures old(state.progress) <= state.progress
      ensures Block(old(Value()), old(target.answers), Size(), count) ==
        CopyOutcome(Value(), target.answers, hr, received, saved)
      ensures hr == EndOfFile ==> position == Size() == |accepted|
    {
      hide Follows, Splice, RB.Ring, Within, Sum, Total, ReadAll, Positions;
      ghost var start := position;
      hr, received := Read(bytes, count);
      if hr == ReadFault {
        assert target.stored + accepted[start..start] == target.stored;
        return hr, received, 0;
      }
      SplicedFront(bytes[..], accepted[start..position]);
      var failed;
      failed, saved := target.Write(bytes[..received]);
      assert accepted[start..position][..saved] == accepted[start..start + saved];
      if failed || saved != received {
        hr := WriteFault;
      }
    }

    /** One round of CopyTo, with what is left of the copy afterwards; `stored` is what the target had
        before the copy, which began at the position `start`. */
    method CopyRound(bytes: array<byte>, target: Target, remaining: nat, ghost stored: seq<byte>, ghost start: nat)
      returns (hr: Result, received: nat, saved: nat, done: bool)
      requires Valid() && bytes != buffer.data && bytes.Length == BLOCK && remaining > 0
      requires start <= position && target.stored == stored + accepted[start..position]
      modifies this`streaming, this`position, this`polls, this`accepted, buffer, buffer.data, bytes, state, target
      ensures Valid() && position == old(position) + received && old(accepted) <= accepted
      ensures saved <= received <= remaining && (!done ==> saved == received > 0)
      ensures target.stored == stored + accepted[start..old(position) + saved]
      ensures old(state.progress) <= state.progress
      ensures done ==> hr != Done && (hr == EndOfFile ==> saved == received && position == Size() == |accepted|)
      ensures CopyOn(old(Value()), old(target.answers), Size(), remaining) ==
        if done then CopyOutcome(Value(), target.answers, hr, received, saved)
        else Further(CopyOn(Value(), target.answers, Size(), remaining - received), received, saved)
    {
      hide Follows, RB.Ring, Within, Sum, Total, Positions, Block, CopyOn;
      CopyUnfolds(Value(), target.answers, Size(), remaining);
      ghost var middle, earlier := position, accepted;
      hr, received, saved := CopyBlock(bytes, target, ExportReading.Min(remaining, BLOCK));
      assert earlier[start..middle] == accepted[start..middle];
      Appended(stored, accepted, start, middle, middle + saved);
      done := hr != Done || received == 0;
      if hr == Done && received == 0 {
        hr := EndOfFile;
      }
    }

    /** Unless it fails, CopyTo has given the target exactly the next bytes that came over the network
        and counted them as read and as written; at the end of the file nothing that came is missing;
        and whatever happens, the target has got the first of them.  It fails exactly when its function
        does. */
    method CopyTo(target: Target, requested: nat) returns (hr: Result, read: nat, written: nat)
      requires Valid()
      modifies this`streaming, this`position, this`polls, this`accepted, buffer, buffer.data, state, target
      ensures Valid() && position == old(position) + read && written <= read <= requested && old(accepted) <= accepted
      ensures target.stored == old(target.stored) + accepted[old(position)..old(position) + written]
      ensures old(state.progress) <= state.progress
      ensures CopyOutcome(Value(), target.answers, hr, read, written) ==
        CopyOn(old(Value()), old(target.answers), Size(), requested)
      ensures
        || (hr == Done && written == read == requested)
        || (hr == EndOfFile && written == read && position == Size() == |accepted|)
        || hr == ReadFault || hr == WriteFault
    {
      hide Follows, Splice, RB.Ring, Within, Sum, Total, Positions, CopyOn, Value, ExportState.Valid,
        RB.RemoteFileBuffer.Valid;
      read, written := 0, 0;
      var bytes := new byte[BLOCK];
      var remaining := requested;
      ghost var start, stored := position, target.stored;
      ghost var promised := CopyOn(Value(), target.answers, Size(), requested);
      assert stored + accepted[start..start] == stored;
      while remaining != 0
        invariant Valid() && fresh(bytes) && bytes.Length == BLOCK && old(accepted) <= accepted
        invariant written == read == requested - remaining && position == start + read
        invariant target.stored == stored + accepted[start..position]
        invariant old(state.progress) <= state.progress
        invariant promised == Further(CopyOn(Value(), target.answers, Size(), remaining), read, written)
        decreases remaining
      {
        var received, saved, done;
        hr, received, saved, done := CopyRound(bytes, target, remaining, stored, start);
        read := read + received;
        written := written + saved;
        if done {
          return;
        }
        remaining := remaining - received;
      }
      NothingToCopy(Value(), target.answers, Size());
      hr := Done;
    }
  }

  lemma TakenIsSmall(b: RB.Buffer, room: nat)
    ensures RB.Taken(b, room) <= room && RB.Taken(b, room) <= |b.held|
  {
  }

  lemma NothingSpliced(data: seq<byte>, nothing: seq<byte>)
    requires nothing == []
    ensures Splice(data, 0, nothing) == data
  {
  }

  lemma SplicedFurther(data: seq<byte>, file: seq<byte>, start: nat, middle: nat, end: nat)
    requires start <= middle <= end <= |file| && end - start <= |data|
    ensures Splice(Splice(data, 0, file[start..middle]), middle - start, file[middle..end]) ==
      Splice(data, 0, file[start..end])
  {
    assert file[start..middle] + file[middle..end] == file[start..end];
    SpliceTwice(data, 0, file[start..middle], file[middle..end]);
  }

  lemma SplicedFront(data: seq<byte>, piece: seq<byte>)
    requires At(data, 0, piece)
    ensures |piece| <= |data| && data[..|piece|] == piece
  {
  }

  lemma Appended(stored: seq<byte>, file: seq<byte>, start: nat, middle: nat, end: nat)
    requires start <= middle <= end <= |file|
    ensures stored + file[start..middle] + file[middle..end] == stored + file[start..end]
  {
    assert file[start..middle] + file[middle..end] == file[start..end];
  }
}
