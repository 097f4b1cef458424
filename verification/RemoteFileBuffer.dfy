/** The ring buffer of modules/file-share/desktop/inc/RemoteFileBuffer.h, through which the bytes of
    a remote file pass from the network to the drop target. */
module RemoteFileBuffers {
  import opened Packable

  /** What a buffer holds, oldest byte first. */
  datatype Buffer = Buffer(capacity: nat, held: seq<byte>, finished: bool, failed: bool)

  datatype ReadResult = ReadResult(bytes: nat, finished: bool, failed: bool)

  predicate Accepts(b: Buffer, bytes: seq<byte>) {
    !b.finished && |bytes| <= b.capacity - |b.held|
  }

  function Written(b: Buffer, bytes: seq<byte>): Buffer {
    if Accepts(b, bytes) then b.(held := b.held + bytes) else b
  }

  function Taken(b: Buffer, count: nat): nat {
    if count < |b.held| then count else |b.held|
  }

  function ReadOff(b: Buffer, count: nat): Buffer {
    b.(held := b.held[Taken(b, count)..])
  }

  function Finished(b: Buffer, success: bool): Buffer {
    var failed := b.failed || !success;
    b.(finished := true, failed := failed, held := if failed then [] else b.held)
  }

  function Cancelled(b: Buffer): Buffer {
    if b.finished && !b.failed then b else b.(finished := true, failed := true, held := [])
  }

  // ---------------------------------------------------------------------------------------
  // The ring
  // ---------------------------------------------------------------------------------------

  /** The place of the k-th byte after `begin` in a ring of n places. */
  function Place(begin: nat, k: nat, n: nat): (p: nat)
    requires begin < n && k <= n
    ensures p < n
  {
    (begin + k) % n
  }

  lemma PlaceWraps(begin: nat, k: nat, n: nat)
    requires begin < n && k <= n
    ensures Place(begin, k, n) == if begin + k < n then begin + k else begin + k - n
  {
    Remainder(begin + k, n, if begin + k < n then 0 else 1);
  }

  lemma Remainder(x: nat, n: nat, q: nat)
    requires 0 < n && q <= 1 && q * n <= x < (q + 1) * n
    ensures x % n == x - q * n
  {
    assert x == x / n * n + x % n && 0 <= x % n < n;
  }

  function Ring(data: seq<byte>, begin: nat, size: nat): (held: seq<byte>)
    requires begin < |data| && size <= |data|
    ensures |held| == size
  {
    seq(size, k requires 0 <= k < size => data[Place(begin, k, |data|)])
  }

  /** Writing `bytes` behind the ring's last byte, in two parts when they run over the end. */
  function RingWrite(data: seq<byte>, begin: nat, size: nat, bytes: seq<byte>): (r: seq<byte>)
    requires begin < |data| && size + |bytes| <= |data|
    ensures |r| == |data|
  {
    var position := Place(begin, size, |data|);
    var first := if |bytes| < |data| - position then |bytes| else |data| - position;
    Splice(Splice(data, position, bytes[..first]), 0, bytes[first..])
  }

  lemma RingWriteAppends(data: seq<byte>, begin: nat, size: nat, bytes: seq<byte>)
    requires begin < |data| && size + |bytes| <= |data|
    ensures Ring(RingWrite(data, begin, size, bytes), begin, size + |bytes|) == Ring(data, begin, size) + bytes
  {
    hide Place, RingWrite;
    var after := RingWrite(data, begin, size, bytes);
    forall k | 0 <= k < size + |bytes|
      ensures after[Place(begin, k, |data|)] == if k < size then data[Place(begin, k, |data|)] else bytes[k - size]
    {
      RingWriteAt(data, begin, size, bytes, k);
    }
  }

  lemma RingWriteAt(data: seq<byte>, begin: nat, size: nat, bytes: seq<byte>, k: nat)
    requires begin < |data| && size + |bytes| <= |data| && k < size + |bytes|
    ensures RingWrite(data, begin, size, bytes)[Place(begin, k, |data|)] ==
      if k < size then data[Place(begin, k, |data|)] else bytes[k - size]
  {
    hide Place, Splice;
    PlaceWraps(begin, size, |data|);
    PlaceWraps(begin, k, |data|);
    var position := Place(begin, size, |data|);
    var first := if |bytes| < |data| - position then |bytes| else |data| - position;
    TwoSplicesAt(data, position, bytes, first, Place(begin, k, |data|));
  }

  lemma TwoSplicesAt(data: seq<byte>, position: nat, bytes: seq<byte>, first: nat, i: nat)
    requires first <= |bytes| <= |data| && position + first <= |data| && i < |data|
    ensures Splice(Splice(data, position, bytes[..first]), 0, bytes[first..])[i] ==
      if i < |bytes| - first then bytes[first + i]
      else if position <= i < position + first then bytes[i - position]
      else data[i]
  {
    hide Splice;
    SplicedAt(data, position, bytes[..first], i);
    SplicedAt(Splice(data, position, bytes[..first]), 0, bytes[first..], i);
  }

  lemma SplicedAt(b: seq<byte>, o: nat, bytes: seq<byte>, i: nat)
    requires o + |bytes| <= |b| && i < |b|
    ensures Splice(b, o, bytes)[i] == if o <= i < o + |bytes| then bytes[i - o] else b[i]
  {
  }

  /** The first `count` bytes of the ring are read from where it begins, and from the front of the
      array when they run over the end. */
  lemma RingReadsTwoParts(data: seq<byte>, begin: nat, size: nat, count: nat)
    requires begin < |data| && count <= size <= |data|
    ensures var first := if count < |data| - begin then count else |data| - begin;
      data[begin..begin + first] + data[..count - first] == Ring(data, begin, size)[..count]
  {
    hide Place;
    forall k | 0 <= k < count
      ensures Place(begin, k, |data|) == if begin + k < |data| then begin + k else begin + k - |data|
    {
      PlaceWraps(begin, k, |data|);
    }
  }

  lemma RingDrops(data: seq<byte>, begin: nat, size: nat, count: nat)
    requires begin < |data| && count <= size <= |data|
    ensures Ring(data, Place(begin, count, |data|), size - count) == Ring(data, begin, size)[count..]
  {
    hide Place;
    var n, later := |data|, Place(begin, count, |data|);
    PlaceWraps(begin, count, n);
    forall k | 0 <= k < size - count ensures Place(later, k, n) == Place(begin, count + k, n) {
      PlaceWraps(later, k, n);
      PlaceWraps(begin, count + k, n);
    }
  }

  class RemoteFileBuffer {
    const data: array<byte>
    var begin: nat
    var size: nat
    var finished: bool
    var failed: bool

    ghost predicate Valid()
      reads this, data
    {
      begin < data.Length && size <= data.Length
    }

    ghost function View(): Buffer
      requires Valid()
      reads this, data
    {
      Buffer(data.Length, Ring(data[..], begin, size), finished, failed)
    }

    constructor (capacity: nat)
      ensures Valid() && fresh(data)
      ensures View() == Buffer(if capacity < 1 then 1 else capacity, [], false, false)
    {
      data := new byte[if capacity < 1 then 1 else capacity](_ => 0);
      begin, size, finished, failed := 0, 0, false, false;
    }

    /** The two copies of TryWrite. */
    method CopyIn(bytes: seq<byte>)
      requires Valid() && size + |bytes| <= data.Length
      modifies data
      ensures data[..] == RingWrite(old(data[..]), begin, size, bytes)
    {
      hide Splice;
      var position := (begin + size) % data.Length;
      var first := if |bytes| < data.Length - position then |bytes| else data.Length - position;
      Copy(bytes[..first], data, position);
      Copy(bytes[first..], data, 0);
    }

    method TryWrite(bytes: seq<byte>) returns (ok: bool)
      requires Valid()
      modifies this, data
      ensures Valid() && ok == Accepts(old(View()), bytes) && View() == Written(old(View()), bytes)
    {
      hide Ring, RingWrite;
      if finished || |bytes| > data.Length - size {
        return false;
      }
      RingWriteAppends(data[..], begin, size, bytes);
      CopyIn(bytes);
      size := size + |bytes|;
      return true;
    }

    /** The two copies of Read. */
    method CopyOut(destination: array<byte>, from: nat, count: nat)
      requires Valid() && destination != data && from + count <= destination.Length && count <= size
      modifies destination
      ensures destination[..] == Splice(old(destination[..]), from, Ring(data[..], begin, size)[..count])
    {
      hide Ring, Splice;
      var first := if count < data.Length - begin then count else data.Length - begin;
      RingReadsTwoParts(data[..], begin, size, count);
      ghost var before := destination[..];
      SpliceTwice(before, from, data[begin..begin + first], data[..count - first]);
      Copy(data[begin..begin + first], destination, from);
      Copy(data[..count - first], destination, from + first);
      assert data[..][begin..begin + first] == data[begin..begin + first]
        && data[..][..count - first] == data[..count - first];
    }

    method Read(destination: array<byte>, from: nat, room: nat) returns (result: ReadResult)
      requires Valid() && destination != data && from + room <= destination.Length
      modifies this, destination
      ensures Valid() && View() == ReadOff(old(View()), room)
      ensures result == ReadResult(Taken(old(View()), room), finished && size == 0, failed)
      ensures destination[..] == Splice(old(destination[..]), from, old(View()).held[..result.bytes])
    {
      hide Ring, Splice;
      var count := if room < size then room else size;
      RingDrops(data[..], begin, size, count);
      CopyOut(destination, from, count);
      if count != 0 {
        begin := (begin + count) % data.Length;
        size := size - count;
      } else {
        assert Ring(data[..], begin, size)[0..] == Ring(data[..], begin, size);
      }
      result := ReadResult(count, finished && size == 0, failed);
    }

    method Finish(success: bool)
      requires Valid()
      modifies this
      ensures Valid() && View() == Finished(old(View()), success)
    {
      finished := true;
      failed := failed || !success;
      if failed {
        size := 0;
      }
    }

    method Cancel()
      requires Valid()
      modifies this
      ensures Valid() && View() == Cancelled(old(View()))
    {
      if finished && !failed {
        return;
      }
      finished := true;
      failed := true;
      size := 0;
    }
  }

  // ---------------------------------------------------------------------------------------
  // What goes in comes out
  // ---------------------------------------------------------------------------------------

  datatype Op = Write(bytes: seq<byte>) | Read(room: nat) | Finish(success: bool) | Cancel

  function Step(b: Buffer, op: Op): Buffer {
    match op
    case Write(bytes) => Written(b, bytes)
    case Read(room) => ReadOff(b, room)
    case Finish(success) => Finished(b, success)
    case Cancel => Cancelled(b)
  }

  function Run(b: Buffer, ops: seq<Op>): Buffer
    decreases |ops|
  {
    if ops == [] then b else Run(Step(b, ops[0]), ops[1..])
  }

  /** The bytes of the accepted writes, and those handed out by reads. */
  function Accepted(b: Buffer, ops: seq<Op>): seq<byte>
    decreases |ops|
  {
    if ops == [] then []
    else
      (if ops[0].Write? && Accepts(b, ops[0].bytes) then ops[0].bytes else [])
      + Accepted(Step(b, ops[0]), ops[1..])
  }

  function Delivered(b: Buffer, ops: seq<Op>): seq<byte>
    decreases |ops|
  {
    if ops == [] then []
    else
      (if ops[0].Read? then b.held[..Taken(b, ops[0].room)] else [])
      + Delivered(Step(b, ops[0]), ops[1..])
  }

  predicate Sound(b: Buffer) {
    |b.held| <= b.capacity && (b.failed ==> b.finished && b.held == [])
  }

  lemma StepIsSound(b: Buffer, op: Op)
    requires Sound(b)
    ensures Sound(Step(b, op)) && Step(b, op).capacity == b.capacity
  {
  }

  /** Over any run the bytes handed out are the first of those accepted, in order and without a gap,
      and unless the transfer has failed the rest is still held. */
  lemma {:induction false} FirstInFirstOut(b: Buffer, ops: seq<Op>)
    requires Sound(b)
    ensures var after, delivered, accepted := Run(b, ops), Delivered(b, ops), b.held + Accepted(b, ops);
      && Sound(after) && delivered <= accepted
      && (!after.failed ==> delivered + after.held == accepted)
    decreases |ops|
  {
    if ops == [] {
    } else {
      var op, next := ops[0], Step(b, ops[0]);
      StepIsSound(b, op);
      FirstInFirstOut(next, ops[1..]);
      if next.failed {
        FailureIsFinal(next, ops[1..]);
      }
      hide Run, Delivered, Accepted;
      Shifted(b, op, Delivered(next, ops[1..]), Accepted(next, ops[1..]), Run(next, ops[1..]));
      RunUnfolds(b, ops);
    }
  }

  lemma RunUnfolds(b: Buffer, ops: seq<Op>)
    requires ops != []
    ensures var next := Step(b, ops[0]);
      && Run(b, ops) == Run(next, ops[1..])
      && Accepted(b, ops) == (if ops[0].Write? && Accepts(b, ops[0].bytes) then ops[0].bytes else [])
        + Accepted(next, ops[1..])
      && Delivered(b, ops) == (if ops[0].Read? then b.held[..Taken(b, ops[0].room)] else []) + Delivered(next, ops[1..])
  {
  }

  /** One step before a run for which the claim holds. */
  lemma Shifted(b: Buffer, op: Op, delivered: seq<byte>, accepted: seq<byte>, after: Buffer)
    requires Sound(b) && delivered <= Step(b, op).held + accepted
    requires !after.failed ==> delivered + after.held == Step(b, op).held + accepted
    requires Step(b, op).failed ==> delivered == [] && after.failed
    ensures var d := (if op.Read? then b.held[..Taken(b, op.room)] else []) + delivered;
      var a := b.held + ((if op.Write? && Accepts(b, op.bytes) then op.bytes else []) + accepted);
      d <= a && (!after.failed ==> d + after.held == a)
  {
    var next := Step(b, op);
    if op.Read? {
      var front := b.held[..Taken(b, op.room)];
      assert b.held == front + next.held;
      assert front + (next.held + accepted) == b.held + ([] + accepted);
      assert !after.failed ==> front + delivered + after.held == front + (delivered + after.held);
    } else if op.Write? && Accepts(b, op.bytes) {
      assert next.held + accepted == b.held + (op.bytes + accepted);
    } else {
      assert [] + delivered == delivered && [] + accepted == accepted;
    }
  }

  /** A failed transfer stays failed and hands out nothing more. */
  lemma {:induction false} FailureIsFinal(b: Buffer, ops: seq<Op>)
    requires Sound(b) && b.failed
    ensures Run(b, ops).failed && Delivered(b, ops) == [] && Accepted(b, ops) == []
    decreases |ops|
  {
    if ops != [] {
      StepIsSound(b, ops[0]);
      FailureIsFinal(Step(b, ops[0]), ops[1..]);
    }
  }

  // ---------------------------------------------------------------------------------------
  // When it has ended, when it has failed, and what it accepts and hands out until then
  // ---------------------------------------------------------------------------------------

  predicate Ends(op: Op) {
    op.Finish? || op.Cancel?
  }

  predicate EndsIn(ops: seq<Op>) {
    exists i :: 0 <= i < |ops| && Ends(ops[i])
  }

  /** A failure was reported, or the transfer was cancelled before anything had ended it. */
  predicate FailsAt(ended: bool, ops: seq<Op>, i: nat) {
    i < |ops| && (ops[i] == Finish(false) || (ops[i].Cancel? && !ended && forall k :: 0 <= k < i ==> !Ends(ops[k])))
  }

  predicate FailsIn(ended: bool, ops: seq<Op>) {
    exists i: nat :: i < |ops| && FailsAt(ended, ops, i)
  }

  lemma EndsLater(ops: seq<Op>)
    requires ops != []
    ensures EndsIn(ops) <==> Ends(ops[0]) || EndsIn(ops[1..])
  {
    if i :| 0 <= i < |ops| && Ends(ops[i]) {
      if i > 0 { assert Ends(ops[1..][i - 1]); }
    }
    if i :| 0 <= i < |ops[1..]| && Ends(ops[1..][i]) {
      assert Ends(ops[i + 1]);
    }
  }

  lemma FailsLater(ended: bool, ops: seq<Op>)
    requires ops != []
    ensures FailsIn(ended, ops) <==>
      ops[0] == Finish(false) || (ops[0].Cancel? && !ended) || FailsIn(ended || Ends(ops[0]), ops[1..])
  {
    var rest, later := ops[1..], ended || Ends(ops[0]);
    assert forall k :: 0 <= k < |rest| ==> rest[k] == ops[k + 1];
    if FailsIn(ended, ops) {
      var i: nat :| i < |ops| && FailsAt(ended, ops, i);
      if i > 0 {
        assert FailsAt(later, rest, i - 1);
      }
    }
    if FailsIn(later, rest) {
      var i: nat :| i < |rest| && FailsAt(later, rest, i);
      assert FailsAt(ended, ops, i + 1) by {
        if rest[i] != Finish(false) {
          forall k | 0 <= k < i + 1 ensures !Ends(ops[k]) {
            if k > 0 { assert ops[k] == rest[k - 1]; }
          }
        }
      }
    }
    if ops[0] == Finish(false) || (ops[0].Cancel? && !ended) {
      assert FailsAt(ended, ops, 0);
    }
  }

  /** Over any run the buffer has ended exactly when it was finished or cancelled, and has failed exactly
      when a failure was reported at any time or a cancellation came before any end. */
  lemma {:induction false} EndsAndFailsExactly(b: Buffer, ops: seq<Op>)
    requires Sound(b)
    ensures Run(b, ops).finished <==> b.finished || EndsIn(ops)
    ensures Run(b, ops).failed <==> b.failed || FailsIn(b.finished, ops)
    decreases |ops|
  {
    hide FailsIn, EndsIn;
    if ops == [] {
      NothingEnds(b.finished);
    } else {
      StepIsSound(b, ops[0]);
      EndsLater(ops);
      FailsLater(b.finished, ops);
      EndsAndFailsExactly(Step(b, ops[0]), ops[1..]);
    }
  }

  lemma NothingEnds(ended: bool)
    ensures !EndsIn([]) && !FailsIn(ended, [])
  {
  }

  const EMPTY: Buffer := Buffer(1, [], false, false)

  /** After any run on an empty buffer a write is accepted exactly when nothing has ended it and the bytes
      fit beside those accepted but not handed out; and a read hands out those as far as there is room
      for them, or nothing after a failure. */
  lemma AcceptsAndDeliversExactly(capacity: nat, ops: seq<Op>, bytes: seq<byte>, room: nat)
    ensures var b := EMPTY.(capacity := capacity);
      var waiting := |Accepted(b, ops)| - |Delivered(b, ops)|;
      && (Accepts(Run(b, ops), bytes) <==> !EndsIn(ops) && waiting + |bytes| <= capacity)
      && Taken(Run(b, ops), room) == if FailsIn(false, ops) then 0 else if room < waiting then room else waiting
  {
    var b := EMPTY.(capacity := capacity);
    FirstInFirstOut(b, ops);
    EndsAndFailsExactly(b, ops);
    CapacityStays(b, ops);
    assert [] + Accepted(b, ops) == Accepted(b, ops);
  }

  lemma {:induction false} CapacityStays(b: Buffer, ops: seq<Op>)
    requires Sound(b)
    ensures Run(b, ops).capacity == b.capacity && Sound(Run(b, ops))
    decreases |ops|
  {
    if ops != [] {
      StepIsSound(b, ops[0]);
      CapacityStays(Step(b, ops[0]), ops[1..]);
    }
  }
}
