/** modules/common/src/TransferChannelPool.cpp: borrowers look for a free channel, reserve it and
    check it again.  IsReserved, TryReserve, the release of a guard and ClearReservations each
    hold the reservation mutex and are atomic; borrowers interleave between them. */
module ChannelPool {

  // ---------------------------------------------------------------------------------------
  // The pool object
  // ---------------------------------------------------------------------------------------

  /** TryReserve on the reserved indices, and whether a guard is handed out. */
  function Reserving(reserved: set<nat>, index: nat): (set<nat>, bool) {
    if index in reserved then (reserved, false) else (reserved + {index}, true)
  }

  /** What the deleter of a guard does; all it knows is the index. */
  function Releasing(reserved: set<nat>, index: nat): set<nat> {
    reserved - {index}
  }

  class TransferChannelPool {
    var m_reservedIncomingPostChannels: set<nat>

    ghost function View(): set<nat>
      reads this
    {
      m_reservedIncomingPostChannels
    }

    constructor ()
      ensures View() == INITIAL.reserved
    {
      m_reservedIncomingPostChannels := {};
    }

    method IsReserved(index: nat) returns (reserved: bool)
      ensures reserved <==> index in View()
    {
      return index in m_reservedIncomingPostChannels;
    }

    method TryReserve(index: nat) returns (guarded: bool)
      modifies this
      ensures (View(), guarded) == Reserving(old(View()), index)
    {
      if index in m_reservedIncomingPostChannels {
        return false;
      }
      m_reservedIncomingPostChannels := m_reservedIncomingPostChannels + {index};
      return true;
    }

    method DropGuard(index: nat)
      modifies this
      ensures View() == Releasing(old(View()), index)
    {
      m_reservedIncomingPostChannels := m_reservedIncomingPostChannels - {index};
    }

    method ClearReservations()
      modifies this
      ensures View() == {}
    {
      m_reservedIncomingPostChannels := {};
    }

    /** One undisturbed pass of BorrowTransferChannel over the channels: `usable` is what it sees
        first and `stillUsable` what it sees after reserving.  The first channel that passes both
        checks is reserved, and nothing else is. */
    method BorrowPass(usable: seq<bool>, stillUsable: seq<bool>) returns (granted: bool, index: nat)
      requires |usable| == |stillUsable|
      modifies this
      ensures granted ==>
                && index < |usable| && Borrowable(old(View()), usable, stillUsable, index)
                && (forall j :: 0 <= j < index ==> !Borrowable(old(View()), usable, stillUsable, j))
                && View() == old(View()) + {index}
      ensures !granted ==>
                && (forall j :: 0 <= j < |usable| ==> !Borrowable(old(View()), usable, stillUsable, j))
                && View() == old(View())
    {
      for i := 0 to |usable|
        invariant forall j :: 0 <= j < i ==> !Borrowable(old(View()), usable, stillUsable, j)
        invariant View() == old(View())
      {
        var reserved := IsReserved(i);
        if reserved || !usable[i] {
          continue;
        }
        var guarded := TryReserve(i);
        if !guarded {
          continue;
        }
        if stillUsable[i] {
          return true, i;
        }
        DropGuard(i);
      }
      return false, 0;
    }
  }

  predicate Borrowable(reserved: set<nat>, usable: seq<bool>, stillUsable: seq<bool>, i: nat)
    requires |usable| == |stillUsable|
  {
    i < |usable| && i !in reserved && usable[i] && stillUsable[i]
  }

  // ---------------------------------------------------------------------------------------
  // Borrowers racing for channels
  // ---------------------------------------------------------------------------------------

  /** A live guard: the index it will erase, and how many Resets had happened when it was made. */
  datatype Guard = Guard(index: nat, epoch: nat)

  /** Where a borrower is: looking, past the first check of an index, holding a guard that still
      has to pass the second check, or in possession of the channel. */
  datatype Phase = Looking | SawFree(index: nat) | Rechecking(guard: nat) | Granted(guard: nat)

  datatype Pool = Pool(reserved: set<nat>, epoch: nat, guards: map<nat, Guard>, next: nat, borrowers: map<nat, Phase>)

  datatype Event =
    | Peek(borrower: nat, index: nat)
    | Reserve(borrower: nat)
    | Recheck(borrower: nat, ok: bool)
    | GiveBack(borrower: nat)
    | Reset

  const INITIAL: Pool := Pool({}, 0, map[], 0, map[])

  function PhaseOf(s: Pool, b: nat): Phase {
    if b in s.borrowers then s.borrowers[b] else Looking
  }

  /** The guard that an event destroys. */
  function Dropped(s: Pool, e: Event): set<nat> {
    match e
    case Recheck(b, ok) => if PhaseOf(s, b).Rechecking? && !ok then {PhaseOf(s, b).guard} else {}
    case GiveBack(b) => if PhaseOf(s, b).Granted? then {PhaseOf(s, b).guard} else {}
    case _ => {}
  }

  function Drop(s: Pool, b: nat, g: nat): Pool {
    if g in s.guards then
      s.(reserved := Releasing(s.reserved, s.guards[g].index), guards := s.guards - {g},
        borrowers := s.borrowers[b := Looking])
    else s.(borrowers := s.borrowers[b := Looking])
  }

  function Step(s: Pool, e: Event): Pool {
    match e
    case Peek(b, i) =>
      if PhaseOf(s, b) == Looking && i !in s.reserved then s.(borrowers := s.borrowers[b := SawFree(i)]) else s
    case Reserve(b) =>
      if !PhaseOf(s, b).SawFree? then s
      else
        var i := PhaseOf(s, b).index;
        var (reserved, guarded) := Reserving(s.reserved, i);
        if !guarded then s.(borrowers := s.borrowers[b := Looking])
        else s.(reserved := reserved, guards := s.guards[s.next := Guard(i, s.epoch)], next := s.next + 1,
                borrowers := s.borrowers[b := Rechecking(s.next)])
    case Recheck(b, ok) =>
      if !PhaseOf(s, b).Rechecking? then s
      else if ok then s.(borrowers := s.borrowers[b := Granted(PhaseOf(s, b).guard)])
      else Drop(s, b, PhaseOf(s, b).guard)
    case GiveBack(b) =>
      if PhaseOf(s, b).Granted? then Drop(s, b, PhaseOf(s, b).guard) else s
    case Reset => s.(reserved := {}, epoch := s.epoch + 1)
  }

  function Run(s: Pool, events: seq<Event>): Pool
    decreases |events|
  {
    if events == [] then s else Run(Step(s, events[0]), events[1..])
  }

  // ---------------------------------------------------------------------------------------
  // Exclusion
  // ---------------------------------------------------------------------------------------

  ghost predicate Current(s: Pool, g: nat) {
    g in s.guards && s.guards[g].epoch == s.epoch
  }

  predicate Holds(s: Pool, b: nat, g: nat) {
    PhaseOf(s, b) == Rechecking(g) || PhaseOf(s, b) == Granted(g)
  }

  /** The bookkeeping of guards: each is held by one borrower, and none comes from the future. */
  ghost predicate WellFormed(s: Pool) {
    && (forall g :: g in s.guards ==> g < s.next && s.guards[g].epoch <= s.epoch)
    && (forall b, g :: Holds(s, b, g) ==> g in s.guards)
    && (forall b, c, g :: Holds(s, b, g) && Holds(s, c, g) ==> b == c)
    && (forall g :: g in s.guards ==> exists b :: Holds(s, b, g))
  }

  /** The reserved indices are those of the guards made since the last Reset, one guard each. */
  ghost predicate Exact(s: Pool) {
    && (forall g :: Current(s, g) ==> s.guards[g].index in s.reserved)
    && (forall i :: i in s.reserved ==> exists g :: Current(s, g) && s.guards[g].index == i)
    && (forall g, h :: Current(s, g) && Current(s, h) && s.guards[g].index == s.guards[h].index ==> g == h)
  }

  lemma StepWellFormed(s: Pool, e: Event)
    requires WellFormed(s)
    ensures WellFormed(Step(s, e))
  {
    var r := Step(s, e);
    if !e.Reset? {
      var b := e.borrower;
      var mine := PhaseOf(s, b);
      assert mine.Rechecking? || mine.Granted? ==> Holds(s, b, mine.guard);
      forall c, g | Holds(r, c, g) ensures g in r.guards && (c != b ==> Holds(s, c, g)) {
        assert c != b ==> Holds(s, c, g);
      }
      forall c, d, g | Holds(r, c, g) && Holds(r, d, g) ensures c == d {
        assert c != b ==> Holds(s, c, g);
        assert d != b ==> Holds(s, d, g);
      }
      forall g | g in r.guards ensures exists c :: Holds(r, c, g) {
        if g !in s.guards {
          assert Holds(r, b, g);
        } else {
          var c :| Holds(s, c, g);
          assert Holds(r, c, g);
        }
      }
    } else {
      assert forall c, g :: Holds(r, c, g) <==> Holds(s, c, g);
    }
  }

  /** The event destroys a guard from before the last Reset whose index has been reserved again. */
  predicate FreesNewerReservation(s: Pool, e: Event) {
    exists g | g in Dropped(s, e) :: g in s.guards && s.guards[g].epoch != s.epoch && s.guards[g].index in s.reserved
  }

  lemma DroppedGuard(s: Pool, b: nat, g: nat)
    requires WellFormed(s) && Exact(s) && g in s.guards
    ensures Exact(Drop(s, b, g)) <==> !(s.guards[g].epoch != s.epoch && s.guards[g].index in s.reserved)
  {
    hide WellFormed;
    var r := Drop(s, b, g);
    var i := s.guards[g].index;
    assert forall h :: Current(r, h) <==> Current(s, h) && h != g;
    if s.guards[g].epoch == s.epoch {
      assert Current(s, g);
      forall j | j in r.reserved ensures exists h :: Current(r, h) && r.guards[h].index == j {
        var h :| Current(s, h) && s.guards[h].index == j;
        assert Current(r, h);
      }
    } else if i in s.reserved {
      var h :| Current(s, h) && s.guards[h].index == i;
      assert Current(r, h) && r.guards[h].index !in r.reserved;
    } else {
      forall j | j in r.reserved ensures exists h :: Current(r, h) && r.guards[h].index == j {
        var h :| Current(s, h) && s.guards[h].index == j;
        assert Current(r, h);
      }
    }
  }

  lemma SameReservations(s: Pool, r: Pool)
    requires r.reserved == s.reserved && r.guards == s.guards && r.epoch == s.epoch
    ensures Exact(s) <==> Exact(r)
  {
    assert forall g :: Current(s, g) <==> Current(r, g);
  }

  lemma ReservedGuard(s: Pool, b: nat)
    requires WellFormed(s) && Exact(s) && PhaseOf(s, b).SawFree? && PhaseOf(s, b).index !in s.reserved
    ensures Exact(Step(s, Reserve(b)))
  {
    var r := Step(s, Reserve(b));
    var i := PhaseOf(s, b).index;
    assert s.next !in s.guards;
    assert forall g :: Current(r, g) <==> Current(s, g) || g == s.next;
    forall j | j in r.reserved ensures exists g :: Current(r, g) && r.guards[g].index == j {
      if j == i {
        assert Current(r, s.next) && r.guards[s.next].index == j;
      } else {
        var g :| Current(s, g) && s.guards[g].index == j;
        assert Current(r, g) && r.guards[g].index == j;
      }
    }
  }

  /** Exclusion is lost by exactly one kind of step: a guard that outlived a Reset is destroyed
      after its index was reserved anew. */
  lemma ExclusionExactly(s: Pool, e: Event)
    requires WellFormed(s) && Exact(s)
    ensures Exact(Step(s, e)) <==> !FreesNewerReservation(s, e)
  {
    var r := Step(s, e);
    match e
    case Peek(b, i) => SameReservations(s, r);
    case Reserve(b) =>
      if PhaseOf(s, b).SawFree? && PhaseOf(s, b).index !in s.reserved {
        ReservedGuard(s, b);
      } else {
        SameReservations(s, r);
      }
    case Recheck(b, ok) =>
      if PhaseOf(s, b).Rechecking? && !ok {
        assert Holds(s, b, PhaseOf(s, b).guard);
        assert Dropped(s, e) == {PhaseOf(s, b).guard};
        DroppedGuard(s, b, PhaseOf(s, b).guard);
      } else {
        SameReservations(s, r);
      }
    case GiveBack(b) =>
      if PhaseOf(s, b).Granted? {
        assert Holds(s, b, PhaseOf(s, b).guard);
        assert Dropped(s, e) == {PhaseOf(s, b).guard};
        DroppedGuard(s, b, PhaseOf(s, b).guard);
      }
    case Reset =>
      assert forall g :: !Current(r, g);
  }

  ghost predicate NeverFreesNewer(s: Pool, events: seq<Event>)
    decreases |events|
  {
    events == [] || (!FreesNewerReservation(s, events[0]) && NeverFreesNewer(Step(s, events[0]), events[1..]))
  }

  ghost predicate AlwaysExact(s: Pool, events: seq<Event>)
    decreases |events|
  {
    Exact(s) && (events != [] ==> AlwaysExact(Step(s, events[0]), events[1..]))
  }

  /** Along a run, resets included, reservations and live guards correspond throughout exactly when
      no guard that outlived a Reset is destroyed after its index was reserved anew. */
  lemma {:induction false} RunIsExactly(s: Pool, events: seq<Event>)
    requires WellFormed(s) && Exact(s)
    ensures AlwaysExact(s, events) <==> NeverFreesNewer(s, events)
    ensures NeverFreesNewer(s, events) ==> WellFormed(Run(s, events)) && Exact(Run(s, events))
    decreases |events|
  {
    hide WellFormed, Exact, Step, FreesNewerReservation;
    if events != [] {
      StepWellFormed(s, events[0]);
      ExclusionExactly(s, events[0]);
      if !FreesNewerReservation(s, events[0]) {
        RunIsExactly(Step(s, events[0]), events[1..]);
      }
    }
  }

  ghost predicate NoReset(events: seq<Event>) {
    forall i :: 0 <= i < |events| ==> events[i] != Reset
  }

  ghost predicate NoOldGuard(s: Pool) {
    forall g :: g in s.guards ==> s.guards[g].epoch == s.epoch
  }

  lemma {:induction false} WithoutResetNothingIsOld(s: Pool, events: seq<Event>)
    requires NoOldGuard(s) && NoReset(events)
    ensures NeverFreesNewer(s, events)
    decreases |events|
  {
    if events != [] {
      assert events[0] != Reset;
      assert forall i :: 0 <= i < |events[1..]| ==> events[1..][i] == events[i + 1];
      assert NoOldGuard(Step(s, events[0]));
      WithoutResetNothingIsOld(Step(s, events[0]), events[1..]);
    }
  }

  /** Between Resets, under any interleaving of any number of borrowers: the reserved indices are
      exactly those with a live guard, no index has two, and no two borrowers hold one channel.
      Nothing leaks either: behind every reserved index there is a borrower, one that has the
      channel or one that is about to check it again. */
  lemma ExclusionBetweenResets(s: Pool, events: seq<Event>, b: nat, c: nat, g: nat, h: nat)
    requires WellFormed(s) && Exact(s) && NoOldGuard(s) && NoReset(events)
    ensures Exact(Run(s, events))
    ensures var r := Run(s, events);
            (Holds(r, b, g) && Holds(r, c, h) && Current(r, g) && Current(r, h)
             && r.guards[g].index == r.guards[h].index) ==> b == c
    ensures var r := Run(s, events);
            forall i :: i in r.reserved ==> exists d, k :: Holds(r, d, k) && Current(r, k) && r.guards[k].index == i
  {
    WithoutResetNothingIsOld(s, events);
    RunIsExactly(s, events);
    HeldByABorrower(Run(s, events));
  }

  lemma HeldByABorrower(r: Pool)
    requires WellFormed(r) && Exact(r)
    ensures forall i :: i in r.reserved ==> exists d, k :: Holds(r, d, k) && Current(r, k) && r.guards[k].index == i
  {
    forall i | i in r.reserved ensures exists d, k :: Holds(r, d, k) && Current(r, k) && r.guards[k].index == i {
      var k :| Current(r, k) && r.guards[k].index == i;
      var d :| Holds(r, d, k);
    }
  }

  /** A failed second check undoes its reservation. */
  lemma FailedRecheckUndoes(s: Pool, b: nat)
    requires WellFormed(s) && PhaseOf(s, b).SawFree? && PhaseOf(s, b).index !in s.reserved
    ensures var r := Step(Step(s, Reserve(b)), Recheck(b, false));
            r.reserved == s.reserved && r.guards == s.guards && r.epoch == s.epoch && PhaseOf(r, b) == Looking
  {
    var m := Step(s, Reserve(b));
    assert s.next !in s.guards;
    assert PhaseOf(m, b) == Rechecking(s.next);
    assert m.guards - {s.next} == s.guards;
    assert m.reserved - {PhaseOf(s, b).index} == s.reserved;
  }

  // ---------------------------------------------------------------------------------------
  // A guard that outlives a Reset
  // ---------------------------------------------------------------------------------------

  function Borrow(b: nat, i: nat): seq<Event> {
    [Peek(b, i), Reserve(b), Recheck(b, true)]
  }

  lemma {:induction false} RunAppend(s: Pool, xs: seq<Event>, ys: seq<Event>)
    ensures Run(s, xs + ys) == Run(Run(s, xs), ys)
    decreases |xs|
  {
    hide Step;
    if xs == [] {
      assert xs + ys == ys;
    } else {
      assert (xs + ys)[1..] == xs[1..] + ys;
      RunAppend(Step(s, xs[0]), xs[1..], ys);
    }
  }

  lemma BorrowRun(s: Pool, b: nat, i: nat)
    requires PhaseOf(s, b) == Looking && i !in s.reserved
    ensures Run(s, Borrow(b, i)) ==
            s.(reserved := s.reserved + {i}, guards := s.guards[s.next := Guard(i, s.epoch)], next := s.next + 1,
               borrowers := s.borrowers[b := Granted(s.next)])
  {
    var es := Borrow(b, i);
    var s1 := Step(s, es[0]);
    var s2 := Step(s1, es[1]);
    var s3 := Step(s2, es[2]);
    RunThree(s, es);
    assert PhaseOf(s1, b) == SawFree(i) && PhaseOf(s2, b) == Rechecking(s.next);
  }

  lemma RunOne(s: Pool, e: Event)
    ensures Run(s, [e]) == Step(s, e)
  {
    hide Step;
    assert [e][1..] == [];
  }

  lemma RunThree(s: Pool, es: seq<Event>)
    requires |es| == 3
    ensures Run(s, es) == Step(Step(Step(s, es[0]), es[1]), es[2])
  {
    hide Step;
    var t := es[1..];
    assert t[1..][1..] == [] && t[0] == es[1] && t[1..][0] == es[2];
    assert Run(s, es) == Run(Step(s, es[0]), t) == Run(Step(Step(s, es[0]), t[0]), t[1..]);
    assert Run(Step(Step(s, es[0]), t[0]), t[1..]) == Run(Step(Step(Step(s, es[0]), t[0]), es[2]), []);
  }

  /** Borrower 0 keeps channel 0 over a Reset, borrower 1 gets it in the new epoch, and when
      borrower 0 gives it back, borrower 2 is given the channel that borrower 1 still holds. */
  lemma OutlivingGuardBreaksExclusion()
    ensures var s := Run(INITIAL, Borrow(0, 0) + [Reset] + Borrow(1, 0) + [GiveBack(0)] + Borrow(2, 0));
            && PhaseOf(s, 1) == Granted(1) && PhaseOf(s, 2) == Granted(2)
            && s.guards == map[1 := Guard(0, 1), 2 := Guard(0, 1)] && s.epoch == 1
  {
    hide Step;
    RunAppend(INITIAL, Borrow(0, 0) + [Reset] + Borrow(1, 0) + [GiveBack(0)], Borrow(2, 0));
    RunAppend(INITIAL, Borrow(0, 0) + [Reset] + Borrow(1, 0), [GiveBack(0)]);
    RunAppend(INITIAL, Borrow(0, 0) + [Reset], Borrow(1, 0));
    RunAppend(INITIAL, Borrow(0, 0), [Reset]);
    BorrowRun(INITIAL, 0, 0);
    var s1 := Run(INITIAL, Borrow(0, 0));
    assert s1 == Pool({0}, 0, map[0 := Guard(0, 0)], 1, map[0 := Granted(0)]);
    var s2 := Run(s1, [Reset]);
    AfterReset(s1, s2);
    BorrowRun(s2, 1, 0);
    var s3 := Run(s2, Borrow(1, 0));
    assert s3 == Pool({0}, 1, map[0 := Guard(0, 0), 1 := Guard(0, 1)], 2, map[0 := Granted(0), 1 := Granted(1)]);
    var s4 := Run(s3, [GiveBack(0)]);
    AfterGiveBack(s3, s4);
    BorrowRun(s4, 2, 0);
  }

  lemma AfterReset(s: Pool, r: Pool)
    requires r == Run(s, [Reset])
    ensures r == Pool({}, s.epoch + 1, s.guards, s.next, s.borrowers)
  {
    hide Run;
    RunOne(s, Reset);
  }

  lemma AfterGiveBack(s: Pool, r: Pool)
    requires r == Run(s, [GiveBack(0)])
    requires s == Pool({0}, 1, map[0 := Guard(0, 0), 1 := Guard(0, 1)], 2, map[0 := Granted(0), 1 := Granted(1)])
    ensures r == Pool({}, 1, map[1 := Guard(0, 1)], 2, map[0 := Looking, 1 := Granted(1)])
  {
    hide Run;
    RunOne(s, GiveBack(0));
    assert s.guards - {0} == map[1 := Guard(0, 1)];
    assert s.borrowers[0 := Looking] == map[0 := Looking, 1 := Granted(1)];
  }
}
