/** What a read of RemoteFileStream and a copy to a drop target come to, as functions on values: of the
    ring buffer, of what the network does to it, and of what the target answers
    (apps/desktop/src/WindowsVirtualFileDrag.cpp, Read and CopyTo).  When they fail, and when not. */
module ExportReading {
  import opened Packable
  import RB = RemoteFileBuffers

  /** What the network does to the buffer. */
  datatype Production = Arrives(bytes: seq<byte>) | Ends(success: bool) | Cancels

  /** One look of Read at the buffer: what the network does before it, whether the export is seen to
      be cancelled, whether a report is due, and whether the deadline has passed or the connection
      is lost. */
  datatype Poll = Poll(produced: seq<Production>, cancelled: bool, due: bool, late: bool)

  /** S_OK, S_FALSE, STG_E_READFAULT and STG_E_WRITEFAULT or the target's own error. */
  datatype Result = Done | EndOfFile | ReadFault | WriteFault

  const BLOCK: nat := 64 * 1024

  /** A stream: its buffer, all that the buffer has accepted, how much of it has been read, what the
      next looks find, whether the export has failed or been cancelled, whether reading has begun, the
      number of the file, and the progress that has been reported, as files and positions. */
  datatype Source = Source(b: RB.Buffer, accepted: seq<byte>, position: nat, polls: seq<Poll>, broken: bool,
                           streaming: bool, index: nat, reported: seq<(nat, nat)>)

  function Min(a: nat, b: nat): nat {
    if a < b then a else b
  }

  function Produced(s: Source, p: Production): Source {
    match p
    case Arrives(bytes) =>
      s.(b := RB.Written(s.b, bytes), accepted := if RB.Accepts(s.b, bytes) then s.accepted + bytes else s.accepted)
    case Ends(success) => s.(b := RB.Finished(s.b, success))
    case Cancels => s.(b := RB.Cancelled(s.b))
  }

  function ProducedAll(s: Source, ps: seq<Production>): Source
    decreases |ps|
  {
    if ps == [] then s else ProducedAll(Produced(s, ps[0]), ps[1..])
  }

  lemma {:induction false} ProductionKeeps(s: Source, ps: seq<Production>)
    ensures var t := ProducedAll(s, ps);
      s.accepted <= t.accepted && t == s.(b := t.b, accepted := t.accepted)
    decreases |ps|
  {
    if ps != [] { ProductionKeeps(Produced(s, ps[0]), ps[1..]); }
  }

  function ReadOff(s: Source, room: nat): Source {
    s.(b := RB.ReadOff(s.b, room), position := s.position + RB.Taken(s.b, room))
  }

  function Told(s: Source): Source {
    s.(reported := s.reported + [(s.index, s.position)])
  }

  /** What a look at the buffer takes, at most `room` bytes. */
  function Fetched(s: Source, room: nat): Source
    requires s.polls != []
  {
    ReadOff(ProducedAll(s.(polls := s.polls[1..]), s.polls[0].produced), room)
  }

  predicate FailsAt(s: Source, t: Source)
    requires s.polls != []
  {
    t.b.failed || s.polls[0].cancelled
  }

  /** A look at the buffer: bytes that go well are reported when it is time, and always at the size. */
  function Looked(s: Source, size: nat, room: nat): Source
    requires s.polls != []
  {
    var t := Fetched(s, room);
    if !FailsAt(s, t) && t.position != s.position && (s.polls[0].due || t.position == size) then Told(t) else t
  }

  lemma LookedKeeps(s: Source, size: nat, room: nat)
    requires s.polls != []
    ensures var t := Looked(s, size, room);
      && s.position <= t.position <= s.position + room && t.polls == s.polls[1..] && t.broken == s.broken
      && s.accepted <= t.accepted && (t.b.held != [] ==> t.position == s.position + room)
  {
    ProductionKeeps(s.(polls := s.polls[1..]), s.polls[0].produced);
  }

  /** The transfer has ended and everything has been read. */
  predicate Exhausted(b: RB.Buffer) {
    b.finished && b.held == []
  }

  datatype Outcome = Outcome(source: Source, hr: Result, read: nat)

  function Failing(s: Source, read: nat): Outcome {
    Outcome(s.(broken := true), ReadFault, read)
  }

  /** The loop of Read, when `copied` of `count` bytes have been read; the file has `size` bytes. */
  function ReadOn(s: Source, size: nat, count: nat, copied: nat): (o: Outcome)
    requires copied <= count
    ensures copied <= o.read <= count
    decreases |s.polls|
  {
    if copied == count then Outcome(s, Done, copied)
    else if s.polls == [] then Failing(s, copied)
    else
      LookedKeeps(s, size, count - copied);
      var t := Looked(s, size, count - copied);
      var now := copied + t.position - s.position;
      if FailsAt(s, t) then Failing(t, now)
      else if Exhausted(t.b) then
        if t.position != size then Failing(t, now) else Outcome(Told(t), if now == count then Done else EndOfFile, now)
      else if s.polls[0].late then Failing(t, now)
      else ReadOn(t, size, count, now)
  }

  /** The first read reports that nothing has been read yet. */
  function Begun(s: Source): Source {
    if s.streaming then s else s.(streaming := true, reported := s.reported + [(s.index, 0)])
  }

  function ReadAll(s: Source, size: nat, count: nat): (o: Outcome)
    ensures o.read <= count
  {
    if count == 0 then Outcome(s, Done, 0)
    else if s.broken then Outcome(s, ReadFault, 0)
    else ReadOn(Begun(s), size, count, 0)
  }

  /** How a round of the loop ends after a look that has brought `bytes`: what is told, whether Read
      returns, and what. */
  function Judged(t: Source, poll: Poll, bytes: nat, size: nat, copied: nat, count: nat): (Source, bool, Result) {
    if t.b.failed || poll.cancelled then (t.(broken := true), true, ReadFault)
    else
      var r := if bytes != 0 && (poll.due || t.position == size) then Told(t) else t;
      if Exhausted(t.b) then
        if t.position != size then (r.(broken := true), true, ReadFault)
        else (Told(r), true, if copied == count then Done else EndOfFile)
      else if poll.late then (r.(broken := true), true, ReadFault)
      else (r, false, Done)
  }

  lemma RoundMeans(s: Source, size: nat, count: nat, copied: nat)
    requires copied < count && s.polls != []
    ensures var t := Fetched(s, count - copied);
      && s.position <= t.position <= s.position + count - copied
      && var bytes := t.position - s.position;
         var (r, done, hr) := Judged(t, s.polls[0], bytes, size, copied + bytes, count);
         ReadOn(s, size, count, copied) ==
           if done then Outcome(r, hr, copied + bytes) else ReadOn(r, size, count, copied + bytes)
  {
    hide Fetched, Exhausted;
    LookedKeeps(s, size, count - copied);
  }

  /** The loop ends when all has been read, and fails when no look is left. */
  lemma ReadOnEnds(s: Source, size: nat, count: nat, copied: nat)
    requires copied <= count
    ensures copied == count ==> ReadOn(s, size, count, copied) == Outcome(s, Done, copied)
    ensures copied < count && s.polls == [] ==> ReadOn(s, size, count, copied) == Failing(s, copied)
  {
    hide Looked, Exhausted;
  }

  /** What the target does with `count` bytes: whether it fails, and how many it takes. */
  function Reply(answers: seq<(bool, nat)>, count: nat): (r: (bool, nat))
    ensures r.1 <= count
  {
    if answers == [] then (false, count) else (answers[0].0, Min(count, answers[0].1))
  }

  function Rest(answers: seq<(bool, nat)>): seq<(bool, nat)> {
    if answers == [] then [] else answers[1..]
  }

  datatype CopyOutcome = CopyOutcome(source: Source, answers: seq<(bool, nat)>, hr: Result, read: nat, written: nat)

  /** CopyTo: blocks are read and written until all that was requested has been copied. */
  function CopyOn(s: Source, answers: seq<(bool, nat)>, size: nat, requested: nat): CopyOutcome
    decreases requested
  {
    if requested == 0 then CopyOutcome(s, answers, Done, 0, 0)
    else
      var o := ReadAll(s, size, Min(requested, BLOCK));
      var (failed, saved) := Reply(answers, o.read);
      if o.hr == ReadFault then CopyOutcome(o.source, answers, ReadFault, o.read, 0)
      else if failed || saved != o.read then CopyOutcome(o.source, Rest(answers), WriteFault, o.read, saved)
      else if o.hr == EndOfFile || o.read == 0 then CopyOutcome(o.source, Rest(answers), EndOfFile, o.read, saved)
      else
        var c := CopyOn(o.source, Rest(answers), size, requested - o.read);
        c.(read := o.read + c.read, written := saved + c.written)
  }

  /** One block of it. */
  function Block(s: Source, answers: seq<(bool, nat)>, size: nat, count: nat): CopyOutcome {
    var o := ReadAll(s, size, count);
    var (failed, saved) := Reply(answers, o.read);
    if o.hr == ReadFault then CopyOutcome(o.source, answers, ReadFault, o.read, 0)
    else CopyOutcome(o.source, Rest(answers), if failed || saved != o.read then WriteFault else o.hr, o.read, saved)
  }

  lemma NothingToCopy(s: Source, answers: seq<(bool, nat)>, size: nat)
    ensures CopyOn(s, answers, size, 0) == CopyOutcome(s, answers, Done, 0, 0)
  {
  }

  function Further(c: CopyOutcome, read: nat, written: nat): CopyOutcome {
    c.(read := read + c.read, written := written + c.written)
  }

  lemma CopyUnfolds(s: Source, answers: seq<(bool, nat)>, size: nat, requested: nat)
    requires requested > 0
    ensures var b := Block(s, answers, size, Min(requested, BLOCK));
      && b.written <= b.read <= requested
      && (b.hr in {Done, EndOfFile} ==> b.written == b.read) && (b.hr == Done ==> b.read > 0)
      && CopyOn(s, answers, size, requested) ==
           if b.hr != Done then b
           else Further(CopyOn(b.source, b.answers, size, requested - b.read), b.read, b.written)
  {
    ReadExactly(s, size, Min(requested, BLOCK));
    hide ReadAll;
  }

  // ---------------------------------------------------------------------------------------
  // What has been accepted, what has been read and what is held
  // ---------------------------------------------------------------------------------------

  /** The first `position` of the accepted bytes have been read, and the rest is held unless the
      transfer has failed. */
  ghost predicate Follows(b: RB.Buffer, accepted: seq<byte>, position: nat)
    requires position <= |accepted|
  {
    && RB.Sound(b)
    && (!b.failed ==> accepted[position..] == b.held)
  }

  ghost predicate InStep(s: Source) {
    s.position <= |s.accepted| && Follows(s.b, s.accepted, s.position)
  }

  lemma WriteFollows(b: RB.Buffer, accepted: seq<byte>, position: nat, bytes: seq<byte>)
    requires position <= |accepted| && Follows(b, accepted, position)
    ensures Follows(RB.Written(b, bytes), if RB.Accepts(b, bytes) then accepted + bytes else accepted, position)
  {
    assert (accepted + bytes)[position..] == accepted[position..] + bytes;
  }

  lemma EndFollows(b: RB.Buffer, accepted: seq<byte>, position: nat, success: bool)
    requires position <= |accepted| && Follows(b, accepted, position)
    ensures Follows(RB.Finished(b, success), accepted, position) && Follows(RB.Cancelled(b), accepted, position)
  {
  }

  lemma ReadFollows(b: RB.Buffer, accepted: seq<byte>, position: nat, room: nat)
    requires position <= |accepted| && Follows(b, accepted, position)
    ensures var n := RB.Taken(b, room);
      && position + n <= |accepted| && b.held[..n] == accepted[position..position + n]
      && Follows(RB.ReadOff(b, room), accepted, position + n)
      && (!b.failed && RB.ReadOff(b, room).held == [] ==> position + n == |accepted|)
  {
    var n := RB.Taken(b, room);
    if !b.failed {
      assert accepted[position..position + n] == accepted[position..][..n];
      assert accepted[position + n..] == accepted[position..][n..];
    } else {
      assert accepted[position..position] == [];
    }
  }

  lemma ProducedInStep(s: Source, p: Production)
    requires InStep(s)
    ensures InStep(Produced(s, p))
  {
    hide Follows, RB.Written, RB.Finished, RB.Cancelled;
    match p
    case Arrives(bytes) => WriteFollows(s.b, s.accepted, s.position, bytes);
    case Ends(success) => EndFollows(s.b, s.accepted, s.position, success);
    case Cancels => EndFollows(s.b, s.accepted, s.position, false);
  }

  lemma {:induction false} ProductionInStep(s: Source, ps: seq<Production>)
    requires InStep(s)
    ensures InStep(ProducedAll(s, ps))
    decreases |ps|
  {
    hide InStep, Produced;
    if ps != [] {
      ProducedInStep(s, ps[0]);
      ProductionInStep(Produced(s, ps[0]), ps[1..]);
    }
  }

  lemma LookedInStep(s: Source, size: nat, room: nat)
    requires s.polls != [] && InStep(s)
    ensures var t := Looked(s, size, room); InStep(t) && (!t.b.failed && t.b.held == [] ==> t.position == |t.accepted|)
  {
    hide ProducedAll, Follows;
    var p := ProducedAll(s.(polls := s.polls[1..]), s.polls[0].produced);
    assert InStep(s.(polls := s.polls[1..]));
    ProductionInStep(s.(polls := s.polls[1..]), s.polls[0].produced);
    ReadFollows(p.b, p.accepted, p.position, room);
  }

  // ---------------------------------------------------------------------------------------
  // When a read fails
  // ---------------------------------------------------------------------------------------

  /** None of the looks finds the export cancelled, and none is late but a last one that finds the end. */
  predicate Undisturbed(used: seq<Poll>, b: RB.Buffer) {
    forall i :: 0 <= i < |used| ==>
      !used[i].cancelled && (used[i].late ==> i == |used| - 1 && Exhausted(b))
  }

  /** The looks that a read has used up. */
  function Used(before: seq<Poll>, after: seq<Poll>): seq<Poll> {
    if |after| <= |before| then before[..|before| - |after|] else []
  }

  /** What the outcome of a read says about the looks and the buffer. */
  predicate Means(s: Source, size: nat, count: nat, copied: nat, o: Outcome) {
    var t := o.source;
    && |t.polls| <= |s.polls| && t.polls == s.polls[|s.polls| - |t.polls|..]
    && o.read == copied + t.position - s.position
    && (|t.polls| == |s.polls| ==> o.read == copied && t.b == s.b)
    && (o.hr != ReadFault <==> Succeeds(s, size, count, o))
    && (o.hr == Done ==> o.read == count) && (o.hr == EndOfFile ==> o.read < count && Exhausted(t.b))
    && o.hr != WriteFault
  }

  predicate Succeeds(s: Source, size: nat, count: nat, o: Outcome) {
    var t := o.source;
    && |t.polls| < |s.polls| && Undisturbed(Used(s.polls, t.polls), t.b)
    && !t.b.failed && (Exhausted(t.b) ==> t.position == size) && (o.read == count || Exhausted(t.b))
  }

  lemma OneLook(poll: Poll, b: RB.Buffer)
    ensures Undisturbed([poll], b) <==> !poll.cancelled && (poll.late ==> Exhausted(b))
  {
    assert [poll][0] == poll;
  }

  lemma MoreLooks(poll: Poll, later: seq<Poll>, b: RB.Buffer)
    requires later != []
    ensures Undisturbed([poll] + later, b) <==> !poll.cancelled && !poll.late && Undisturbed(later, b)
  {
    var used := [poll] + later;
    assert forall i :: 0 <= i < |later| ==> used[i + 1] == later[i];
    assert used[0] == poll;
    if Undisturbed(used, b) {
      forall i | 0 <= i < |later| ensures !later[i].cancelled && (later[i].late ==> i == |later| - 1 && Exhausted(b)) {
        assert used[i + 1] == later[i];
      }
    }
  }

  /** A look that is the last one. */
  lemma LastLook(s: Source, next: Source, size: nat, count: nat, copied: nat, o: Outcome)
    requires s.polls != [] && next.polls == s.polls[1..] && s.position <= next.position
    requires o.source.b == next.b && o.source.polls == next.polls && o.source.position == next.position
    requires copied < count && o.read == copied + next.position - s.position <= count
    requires o.hr == if next.b.failed || s.polls[0].cancelled then ReadFault
                     else if Exhausted(next.b) then
                       if next.position != size then ReadFault else if o.read == count then Done else EndOfFile
                     else if s.polls[0].late || o.read < count then ReadFault
                     else Done
    requires o.read == count || Exhausted(next.b) || next.b.failed || s.polls[0].cancelled || s.polls[0].late
    ensures Means(s, size, count, copied, o)
  {
    hide Undisturbed, Exhausted;
    assert Used(s.polls, next.polls) == [s.polls[0]];
    OneLook(s.polls[0], next.b);
  }

  /** A look after which the read goes on. */
  lemma LookBefore(s: Source, next: Source, size: nat, count: nat, copied: nat, o: Outcome)
    requires s.polls != [] && next.polls == s.polls[1..] && s.position <= next.position
    requires !s.polls[0].cancelled && !s.polls[0].late && !Exhausted(next.b)
    requires copied + next.position - s.position < count
    requires Means(next, size, count, copied + next.position - s.position, o)
    ensures Means(s, size, count, copied, o)
  {
    hide Undisturbed, Exhausted;
    var later := Used(next.polls, o.source.polls);
    assert Used(s.polls, o.source.polls) == [s.polls[0]] + later;
    if later != [] {
      MoreLooks(s.polls[0], later, o.source.b);
    }
  }

  /** No look is left. */
  lemma NoLook(s: Source, size: nat, count: nat, copied: nat)
    requires |s.polls| == 0 && copied < count
    ensures Means(s, size, count, copied, Failing(s, copied))
  {
    hide Exhausted, Succeeds;
    NotSucceeding(s, size, count, Failing(s, copied));
    assert s.polls[0..] == s.polls;
  }

  lemma NotSucceeding(s: Source, size: nat, count: nat, o: Outcome)
    requires |s.polls| == 0
    ensures !Succeeds(s, size, count, o)
  {
  }

  lemma {:induction false} ReadOnExactly(s: Source, size: nat, count: nat, copied: nat)
    requires copied < count
    ensures Means(s, size, count, copied, ReadOn(s, size, count, copied))
    decreases |s.polls|
  {
    hide Looked, Means, Exhausted;
    if s.polls == [] {
      NoLook(s, size, count, copied);
    } else {
      LookedKeeps(s, size, count - copied);
      var next := Looked(s, size, count - copied);
      var now := copied + next.position - s.position;
      var o := ReadOn(s, size, count, copied);
      if next.b.failed || s.polls[0].cancelled || Exhausted(next.b) || s.polls[0].late || now == count {
        LastLook(s, next, size, count, copied, o);
      } else {
        ReadOnExactly(next, size, count, now);
        LookBefore(s, next, size, count, copied, o);
      }
    }
  }

  /** A read that finds the end of the file has read all that the buffer accepted. */
  lemma AllRead(t: Source)
    requires InStep(t)
    ensures !t.b.failed && Exhausted(t.b) ==> t.position == |t.accepted|
  {
  }

  lemma ReadEnds(s: Source, size: nat, count: nat)
    ensures var o := ReadAll(s, size, count);
      o.hr == EndOfFile ==> o.source.position == size && !o.source.b.failed && Exhausted(o.source.b)
  {
    hide ReadAll;
    if count > 0 {
      ReadExactly(s, size, count);
    } else {
      ReadNothing(s, size);
    }
  }

  lemma ReadNothing(s: Source, size: nat)
    ensures ReadAll(s, size, 0) == Outcome(s, Done, 0)
  {
  }

  /** A read fails exactly when the export was broken before it, a look finds it cancelled or is late
      before the end is found, the transfer has failed or ended at another size than the file's, or no
      look is left; otherwise it reads all that was asked for or up to the end of the file. */
  lemma ReadExactly(s: Source, size: nat, count: nat)
    requires count > 0
    ensures var o := ReadAll(s, size, count);
      var t := o.source;
      && (o.hr != ReadFault <==>
            && !s.broken && Undisturbed(Used(s.polls, t.polls), t.b) && |t.polls| < |s.polls|
            && !t.b.failed && (Exhausted(t.b) ==> t.position == size) && (o.read == count || Exhausted(t.b)))
      && (o.hr == Done ==> o.read == count)
      && (o.hr == EndOfFile ==> o.read < count && t.position == size && Exhausted(t.b))
      && o.hr != WriteFault
  {
    hide Undisturbed, Exhausted, ReadOn;
    if !s.broken { ReadOnExactly(Begun(s), size, count, 0); }
  }

  // ---------------------------------------------------------------------------------------
  // When a copy succeeds
  // ---------------------------------------------------------------------------------------

  /** Only bytes arrive, and the transfer ends with success. */
  predicate Friendly(ps: seq<Production>) {
    forall i :: 0 <= i < |ps| ==> ps[i].Arrives? || ps[i] == Ends(true)
  }

  predicate AllQuiet(polls: seq<Poll>) {
    forall i :: 0 <= i < |polls| ==> !polls[i].cancelled && !polls[i].late && Friendly(polls[i].produced)
  }

  predicate HasEnd(ps: seq<Production>) {
    exists i :: 0 <= i < |ps| && ps[i].Ends?
  }

  /** The transfer has ended, or does so before one of the next n looks. */
  predicate EndsWithin(finished: bool, polls: seq<Poll>, n: nat) {
    finished || exists i :: 0 <= i < n && i < |polls| && HasEnd(polls[i].produced)
  }

  /** Nothing stands in the way, and there are looks for the n that it takes until the end, one for each
      byte still to be read, and one to find the end. */
  ghost predicate Ready(s: Source, size: nat, n: nat) {
    && InStep(s) && !s.b.failed && !s.broken && AllQuiet(s.polls) && EndsWithin(s.b.finished, s.polls, n)
    && s.position <= size && |s.polls| > n + size - s.position
  }

  /** By the time the transfer has ended the buffer has accepted as many bytes as the file has. */
  predicate AddsUp(s: Source, size: nat) {
    |s.accepted| <= size && (s.b.finished ==> |s.accepted| == size)
  }

  lemma {:induction false} FriendlyProduction(s: Source, ps: seq<Production>)
    requires Friendly(ps) && !s.b.failed
    ensures var t := ProducedAll(s, ps);
      && !t.b.failed && (s.b.finished || HasEnd(ps) ==> t.b.finished)
      && (s.b.finished ==> t.accepted == s.accepted && t.b.held == s.b.held)
    decreases |ps|
  {
    if ps != [] {
      assert forall i :: 0 <= i < |ps[1..]| ==> ps[1..][i] == ps[i + 1];
      FriendlyProduction(Produced(s, ps[0]), ps[1..]);
      if HasEnd(ps) && !ps[0].Ends? {
        var i :| 0 <= i < |ps| && ps[i].Ends?;
        assert ps[1..][i - 1].Ends?;
      }
    }
  }

  /** What is known before a look that goes well. */
  lemma QuietLook(s: Source, size: nat, n: nat, room: nat) returns (m: nat)
    requires Ready(s, size, n) && room > 0
    ensures s.polls != [] && !s.polls[0].cancelled && !s.polls[0].late
    ensures var t := Looked(s, size, room);
      && InStep(t) && !t.b.failed && AllQuiet(t.polls) && EndsWithin(t.b.finished, t.polls, m) && !t.broken
      && (Exhausted(t.b) ==> t.position == |t.accepted|)
      && ((!Exhausted(t.b) || t.position > s.position) && t.position <= size ==> Ready(t, size, m))
  {
    hide Follows, ProducedAll, Friendly, HasEnd;
    var t := Looked(s, size, room);
    LookedKeeps(s, size, room);
    LookedInStep(s, size, room);
    FriendlyProduction(s.(polls := s.polls[1..]), s.polls[0].produced);
    assert forall i :: 0 <= i < |t.polls| ==> t.polls[i] == s.polls[i + 1];
    if t.b.finished {
      m := 0;
    } else {
      m := n - 1;
      EndsLater(s, t, n);
    }
  }

  lemma EndsLater(s: Source, t: Source, n: nat)
    requires s.polls != [] && t.polls == s.polls[1..] && EndsWithin(s.b.finished, s.polls, n) && !t.b.finished
    requires s.b.finished || HasEnd(s.polls[0].produced) ==> t.b.finished
    ensures n > 0 && EndsWithin(t.b.finished, t.polls, n - 1)
  {
    hide HasEnd;
    var i :| 0 <= i < n && i < |s.polls| && HasEnd(s.polls[i].produced);
    assert t.polls[i - 1] == s.polls[i];
  }

  /** The last word on what the buffer accepts. */
  lemma {:induction false} FinishedStays(s: Source, size: nat, count: nat, copied: nat)
    requires copied <= count
    ensures var t := ReadOn(s, size, count, copied).source; s.accepted <= t.accepted
    ensures s.b.finished ==>
      var t := ReadOn(s, size, count, copied).source; t.accepted == s.accepted && t.b.finished
    decreases |s.polls|
  {
    hide Exhausted, Looked;
    if copied < count && s.polls != [] {
      LookedKeeps(s, size, count - copied);
      FinishedLook(s, size, count - copied);
      var next := Looked(s, size, count - copied);
      var now := copied + next.position - s.position;
      FinishedStays(next, size, count, now);
    }
  }

  lemma {:induction false} FinishedProduction(s: Source, ps: seq<Production>)
    requires s.b.finished
    ensures var t := ProducedAll(s, ps); t.accepted == s.accepted && t.b.finished
    decreases |ps|
  {
    if ps != [] { FinishedProduction(Produced(s, ps[0]), ps[1..]); }
  }

  lemma FinishedLook(s: Source, size: nat, room: nat)
    requires s.polls != []
    ensures s.b.finished ==> var t := Looked(s, size, room); t.accepted == s.accepted && t.b.finished
  {
    hide ProducedAll;
    if s.b.finished { FinishedProduction(s.(polls := s.polls[1..]), s.polls[0].produced); }
  }

  /** A read that nothing disturbs goes well. */
  lemma {:induction false} ReadOnSucceeds(s: Source, size: nat, count: nat, copied: nat, n: nat) returns (m: nat)
    requires copied <= count && Ready(s, size, n) && AddsUp(ReadOn(s, size, count, copied).source, size)
    ensures var o := ReadOn(s, size, count, copied);
      && o.read == copied + o.source.position - s.position
      && ((o.hr == Done && o.read == count && Ready(o.source, size, m))
          || (o.hr == EndOfFile && o.source.position == size))
    decreases |s.polls|
  {
    hide Looked, EndsWithin, AllQuiet, Follows;
    if copied == count {
      m := n;
    } else {
      var room := count - copied;
      m := QuietLook(s, size, n, room);
      LookedKeeps(s, size, room);
      var next := Looked(s, size, room);
      var now := copied + next.position - s.position;
      AcceptedBounds(s, next, size, count, copied);
      if !Exhausted(next.b) {
        m := ReadOnSucceeds(next, size, count, now, m);
      }
    }
  }

  /** What the next look finds, seen from the end. */
  lemma AcceptedBounds(s: Source, next: Source, size: nat, count: nat, copied: nat)
    requires copied < count && s.polls != [] && next == Looked(s, size, count - copied) && InStep(next)
    requires !next.b.failed && !s.polls[0].cancelled && !s.polls[0].late
    requires Exhausted(next.b) ==> next.position == |next.accepted|
    requires AddsUp(ReadOn(s, size, count, copied).source, size)
    ensures next.position <= size && (Exhausted(next.b) ==> next.position == size)
  {
    hide Looked, Follows;
    LookedKeeps(s, size, count - copied);
    var now := copied + next.position - s.position;
    if !Exhausted(next.b) {
      FinishedStays(next, size, count, now);
    }
  }

  lemma {:induction false} CopyFinishedStays(s: Source, answers: seq<(bool, nat)>, size: nat, requested: nat)
    ensures var t := CopyOn(s, answers, size, requested).source;
      s.accepted <= t.accepted && (s.b.finished ==> t.accepted == s.accepted && t.b.finished)
    decreases requested
  {
    hide ReadOn;
    if requested > 0 {
      var o := ReadAll(s, size, Min(requested, BLOCK));
      FinishedStays(Begun(s), size, Min(requested, BLOCK), 0);
      if o.read > 0 {
        CopyFinishedStays(o.source, Rest(answers), size, requested - o.read);
      }
    }
  }

  /** If no look finds the export cancelled or is late, nothing ends in failure, what the buffer has
      accepted by the end of the transfer is as long as the file, and the target takes all that it is
      given, then copying to the end of the file or beyond succeeds, and the target has got all that
      was left of the file. */
  lemma {:induction false} CopyCompletes(s: Source, size: nat, requested: nat, n: nat)
    requires Ready(s, size, n) && size <= s.position + requested
    requires AddsUp(CopyOn(s, [], size, requested).source, size)
    ensures var c := CopyOn(s, [], size, requested);
      c.hr in {Done, EndOfFile} && c.read == c.written == size - s.position && c.source.position == size
    decreases requested
  {
    hide ReadOn, EndsWithin, AllQuiet, Follows, Undisturbed, Exhausted;
    if requested > 0 {
      var block := Min(requested, BLOCK);
      var o := ReadAll(s, size, block);
      ReadExactly(s, size, block);
      if o.hr == Done {
        CopyFinishedStays(o.source, [], size, requested - o.read);
      }
      var m := ReadOnSucceeds(Begun(s), size, block, 0, n);
      if o.hr == Done {
        CopyCompletes(o.source, size, requested - o.read, m);
      }
    }
  }

  // ---------------------------------------------------------------------------------------
  // What is reported
  // ---------------------------------------------------------------------------------------

  /** From s to t positions of this file have been reported, none beyond what has been read. */
  predicate Reports(s: Source, t: Source) {
    && s.reported <= t.reported && s.position <= t.position && t.index == s.index
    && forall i :: |s.reported| <= i < |t.reported| ==> t.reported[i].0 == s.index && t.reported[i].1 <= t.position
  }

  predicate ReportedLast(t: Source, position: nat) {
    t.reported != [] && t.reported[|t.reported| - 1] == (t.index, position)
  }

  /** At the last look that was used up a report was due. */
  predicate DueLast(before: seq<Poll>, after: seq<Poll>) {
    |after| < |before| && before[|before| - |after| - 1].due
  }

  lemma LookedReports(s: Source, size: nat, room: nat)
    requires s.polls != []
    ensures var t := Looked(s, size, room);
      && Reports(s, t)
      && (!FailsAt(s, t) && t.position != s.position && (s.polls[0].due || t.position == size) ==>
            ReportedLast(t, t.position))
  {
    hide ProducedAll;
    ProductionKeeps(s.(polls := s.polls[1..]), s.polls[0].produced);
  }

  lemma ReportsTransitive(s: Source, m: Source, t: Source)
    requires Reports(s, m) && Reports(m, t)
    ensures Reports(s, t)
  {
    forall i | |s.reported| <= i < |t.reported| ensures t.reported[i].0 == s.index && t.reported[i].1 <= t.position {
      if i < |m.reported| {
        assert t.reported[i] == m.reported[i];
      }
    }
  }

  lemma ToldReports(s: Source)
    ensures Reports(s, Told(s)) && ReportedLast(Told(s), s.position)
  {
  }

  lemma {:induction false} ReadOnReports(s: Source, size: nat, count: nat, copied: nat)
    requires copied <= count
    ensures var o := ReadOn(s, size, count, copied);
      && Reports(s, o.source)
      && (o.hr == EndOfFile ==> ReportedLast(o.source, size))
      && (o.hr == Done && copied < count && DueLast(s.polls, o.source.polls) ==>
            ReportedLast(o.source, o.source.position))
    decreases |s.polls|
  {
    hide Looked, Reports, ReportedLast, Undisturbed, Exhausted, FailsAt;
    if copied == count || s.polls == [] {
      NothingReported(s);
    } else {
      var next := Looked(s, size, count - copied);
      var now := copied + next.position - s.position;
      LookedKeeps(s, size, count - copied);
      LookedReports(s, size, count - copied);
      ToldReports(next);
      ReportsTransitive(s, next, Told(next));
      NothingReported(next);
      if !FailsAt(s, next) && !Exhausted(next.b) && !s.polls[0].late {
        ReadOnReports(next, size, count, now);
        if now < count {
          ReadOnExactly(next, size, count, now);
        }
        ReportsTransitive(s, next, ReadOn(next, size, count, now).source);
      } else {
        FailingReports(s, next, now);
      }
    }
  }

  lemma NothingReported(s: Source)
    ensures Reports(s, s) && Reports(s, s.(broken := true))
  {
  }

  lemma FailingReports(s: Source, t: Source, read: nat)
    requires Reports(s, t)
    ensures Reports(s, Failing(t, read).source)
  {
  }

  /** Reports are of this file and never ahead of what has been read; a read that finds the end of the
      file reports its size last, and one that ends with a look at which a report was due, where it
      stands. */
  lemma ReadReports(s: Source, size: nat, count: nat)
    ensures var o := ReadAll(s, size, count);
      && Reports(s, o.source)
      && (o.hr == EndOfFile ==> ReportedLast(o.source, size))
      && (o.hr == Done && count > 0 && DueLast(s.polls, o.source.polls) ==>
            ReportedLast(o.source, o.source.position))
  {
    hide ReportedLast, ReadOn;
    ReadOnReports(Begun(s), size, count, 0);
    hide Reports;
    if count > 0 && !s.broken {
      BegunReports(s);
      ReportsTransitive(s, Begun(s), ReadOn(Begun(s), size, count, 0).source);
    } else {
      NothingReported(s);
    }
  }

  lemma BegunReports(s: Source)
    ensures Reports(s, Begun(s))
  {
  }
}
