/** modules/common/inc/BaseModule.h: the life cycle of a module.  Enable, Disable and Shutdown are
    coroutines; the stretch of code between two suspensions is one atomic step, and any number of
    coroutines may be suspended at once.  Other threads can act while OnInitialize runs, so that
    Initialize, and Enable where it initialises the module first, are split at that hook as well.
    Every hook either returns or throws. */
module Lifecycle {

  datatype ModuleState = Uninitialized | Initializing | Enabling | Enabled | Disabling | Disabled

  datatype FailReason = NoFailure | InternalError

  /** The fields of the module; `trace` is every value ever stored in its state, in order. */
  datatype Module = Module(state: ModuleState, generation: nat, failReason: FailReason, trace: seq<ModuleState>)

  function Store(m: Module, state: ModuleState): Module {
    m.(state := state, trace := m.trace + [state])
  }

  // ---------------------------------------------------------------------------------------
  // The atomic stretches
  // ---------------------------------------------------------------------------------------

  datatype Started = Skipped | InHook | Suspended

  function InitializeBegins(m: Module): (Module, Started) {
    if m.state != Uninitialized then (m, Skipped)
    else (Store(m.(generation := m.generation + 1), Initializing), InHook)
  }

  function InitializeEnds(m: Module, generation: nat, throws: bool): Module {
    if throws || m.generation != generation then m else Store(m, Disabled)
  }

  function EnableBegins(m: Module): (Module, Started) {
    if m.state == Uninitialized then (Store(m, Initializing), InHook)
    else if m.state != Disabled then (m, Skipped)
    else (Store(m, Enabling), Suspended)
  }

  /** Enable after the OnInitialize that it called; the generation is not looked at. */
  function EnableInitialized(m: Module, throws: bool): Module {
    if throws then m else Store(Store(m, Disabled), Enabling)
  }

  function EnableEnds(m: Module, throws: bool): Module {
    var r := if m.state != Enabling then m else Store(m, if throws then Disabled else Enabled);
    if throws then r.(failReason := InternalError) else r
  }

  function DisableBegins(m: Module): (Module, Started) {
    if m.state != Enabled && m.state != Enabling then (m, Skipped)
    else (Store(m, Disabling), Suspended)
  }

  function DisableEnds(m: Module, throws: bool): Module {
    var r := if m.state != Disabling then m else Store(m, Disabled);
    if throws then r.(failReason := InternalError) else r
  }

  function ShutsDown(m: Module): (Module, Started) {
    if m.state == Uninitialized then (m, Skipped)
    else (Store(m.(generation := m.generation + 1), Uninitialized), Suspended)
  }

  class BaseModule {
    var m_state: ModuleState
    var m_lifecycleGeneration: nat
    var m_failReason: FailReason
    ghost var trace: seq<ModuleState>

    ghost function View(): Module
      reads this
    {
      Module(m_state, m_lifecycleGeneration, m_failReason, trace)
    }

    constructor ()
      ensures View() == Module(Uninitialized, 0, NoFailure, [Uninitialized])
    {
      m_state, m_lifecycleGeneration, m_failReason := Uninitialized, 0, NoFailure;
      trace := [Uninitialized];
    }

    method SetModuleState(state: ModuleState)
      modifies this
      ensures View() == Store(old(View()), state)
    {
      m_state := state;
      trace := trace + [state];
    }

    method ProcessError(reason: FailReason)
      modifies this`m_failReason
      ensures m_failReason == reason
    {
      m_failReason := reason;
    }

    /** Initialize up to its hook; the generation it remembers is returned. */
    method InitializeBegin() returns (started: Started, generation: nat)
      modifies this
      ensures (View(), started) == InitializeBegins(old(View()))
      ensures started == InHook ==> generation == m_lifecycleGeneration
    {
      generation := 0;
      if m_state != Uninitialized {
        return Skipped, generation;
      }
      m_lifecycleGeneration := m_lifecycleGeneration + 1;
      generation := m_lifecycleGeneration;
      SetModuleState(Initializing);
      return InHook, generation;
    }

    /** Initialize from the return of its hook. */
    method InitializeEnd(generation: nat, throws: bool)
      modifies this
      ensures View() == InitializeEnds(old(View()), generation, throws)
    {
      if throws {
        return;
      }
      if m_lifecycleGeneration != generation {
        return;
      }
      SetModuleState(Disabled);
    }

    /** EnableAwaitable up to its suspension in OnEnable, or up to OnInitialize. */
    method EnableBegin() returns (started: Started)
      modifies this
      ensures (View(), started) == EnableBegins(old(View()))
    {
      var state := m_state;
      if state == Uninitialized {
        SetModuleState(Initializing);
        return InHook;
      }
      if state != Disabled {
        return Skipped;
      }
      SetModuleState(Enabling);
      return Suspended;
    }

    /** EnableAwaitable from the end of its OnInitialize up to its suspension in OnEnable. */
    method EnableInitializeEnd(throws: bool)
      modifies this
      ensures View() == EnableInitialized(old(View()), throws)
    {
      if throws {
        return;
      }
      SetModuleState(Disabled);
      SetModuleState(Enabling);
    }

    /** EnableAwaitable from the end of OnEnable. */
    method EnableEnd(throws: bool)
      modifies this
      ensures View() == EnableEnds(old(View()), throws)
    {
      if !throws {
        if m_state != Enabling {
          return;
        }
        SetModuleState(Enabled);
      } else {
        if m_state == Enabling {
          SetModuleState(Disabled);
        }
        ProcessError(InternalError);
      }
    }

    /** DisableAwaitable up to its suspension in OnDisable. */
    method DisableBegin() returns (started: Started)
      modifies this
      ensures (View(), started) == DisableBegins(old(View()))
    {
      if m_state != Enabled && m_state != Enabling {
        return Skipped;
      }
      SetModuleState(Disabling);
      return Suspended;
    }

    /** DisableAwaitable from the end of OnDisable. */
    method DisableEnd(throws: bool)
      modifies this
      ensures View() == DisableEnds(old(View()), throws)
    {
      if !throws {
        if m_state != Disabling {
          return;
        }
        SetModuleState(Disabled);
      } else {
        if m_state == Disabling {
          SetModuleState(Disabled);
        }
        ProcessError(InternalError);
      }
    }

    /** Shutdown, up to the spawning of ShutdownAwaitable, which is told the state it leaves. */
    method Shutdown() returns (started: Started, left: ModuleState)
      modifies this
      ensures (View(), started) == ShutsDown(old(View())) && left == old(m_state)
    {
      left := m_state;
      if left == Uninitialized {
        return Skipped, left;
      }
      m_lifecycleGeneration := m_lifecycleGeneration + 1;
      SetModuleState(Uninitialized);
      return Suspended, left;
    }
  }

  // ---------------------------------------------------------------------------------------
  // The module together with everything in flight
  // ---------------------------------------------------------------------------------------

  /** An activity that has not ended.  An Enable that runs OnInitialize has not begun its OnEnable.
      A spawned shutdown first runs OnDisable if the module it shut down was enabled or being
      enabled; until then it owes that call. */
  datatype Task =
    | InitializeTask(generation: nat)
    | EnableInitializing
    | EnableTask
    | DisableTask
    | ShutdownTask(owesDisable: bool)
    | ShutdownDisabling
    | ShutdownFinishing

  /** Activities are numbered as they begin, an Enable anew when its OnEnable begins; `owner` is the
      latest of them.  `onEnables` and `onDisables` count the calls of those hooks, `rolledBack` the
      enables undone by an exception. */
  datatype System = System(m: Module, flight: map<nat, Task>, next: nat, owner: nat,
                           onEnables: nat, onDisables: nat, rolledBack: nat)

  datatype Event =
    | BeginInitialize
    | EndInitialize(id: nat, throws: bool)
    | StartEnable
    | EndEnableInitialize(id: nat, throws: bool)
    | FinishEnable(id: nat, throws: bool)
    | StartDisable
    | FinishDisable(id: nat, throws: bool)
    | CallShutdown
    | RunShutdown(id: nat)
    | FinishShutdownDisable(id: nat)
    | FinishShutdown(id: nat)

  const INITIAL: System :=
    System(Module(Uninitialized, 0, NoFailure, [Uninitialized]), map[], 0, 0, 0, 0, 0)

  function Spawn(s: System, m: Module, t: Task): System {
    s.(m := m, flight := s.flight[s.next := t], next := s.next + 1, owner := s.next)
  }

  function Ended(s: System, m: Module, id: nat): System {
    s.(m := m, flight := s.flight - {id})
  }

  predicate InFlight(s: System, id: nat, t: Task) {
    id in s.flight && s.flight[id] == t
  }

  /** One step; an event whose activity is not in flight changes nothing. */
  function Step(s: System, e: Event): System {
    match e
    case BeginInitialize =>
      var (m, started) := InitializeBegins(s.m);
      if started == InHook then Spawn(s, m, InitializeTask(m.generation)) else s
    case EndInitialize(id, throws) =>
      if id in s.flight && s.flight[id].InitializeTask? then
        Ended(s, InitializeEnds(s.m, s.flight[id].generation, throws), id)
      else s
    case StartEnable =>
      var (m, started) := EnableBegins(s.m);
      if started == Suspended then Spawn(s, m, EnableTask).(onEnables := s.onEnables + 1)
      else if started == InHook then Spawn(s, m, EnableInitializing)
      else s
    case EndEnableInitialize(id, throws) =>
      if !InFlight(s, id, EnableInitializing) then s
      else
        var ended := Ended(s, EnableInitialized(s.m, throws), id);
        if throws then ended else Spawn(ended, ended.m, EnableTask).(onEnables := s.onEnables + 1)
    case FinishEnable(id, throws) =>
      if InFlight(s, id, EnableTask) then
        Ended(s, EnableEnds(s.m, throws), id)
          .(rolledBack := s.rolledBack + if throws && s.m.state == Enabling then 1 else 0)
      else s
    case StartDisable =>
      var (m, started) := DisableBegins(s.m);
      if started == Suspended then Spawn(s, m, DisableTask).(onDisables := s.onDisables + 1) else s
    case FinishDisable(id, throws) =>
      if InFlight(s, id, DisableTask) then Ended(s, DisableEnds(s.m, throws), id) else s
    case CallShutdown =>
      var (m, started) := ShutsDown(s.m);
      if started == Suspended then Spawn(s, m, ShutdownTask(s.m.state == Enabled || s.m.state == Enabling)) else s
    case RunShutdown(id) =>
      if InFlight(s, id, ShutdownTask(true)) then
        s.(flight := s.flight[id := ShutdownDisabling], onDisables := s.onDisables + 1)
      else if InFlight(s, id, ShutdownTask(false)) then s.(flight := s.flight[id := ShutdownFinishing])
      else s
    case FinishShutdownDisable(id) =>
      if InFlight(s, id, ShutdownDisabling) then s.(flight := s.flight[id := ShutdownFinishing]) else s
    case FinishShutdown(id) =>
      if InFlight(s, id, ShutdownFinishing) then Ended(s, s.m, id) else s
  }

  function Run(s: System, events: seq<Event>): System
    decreases |events|
  {
    if events == [] then s else Run(Step(s, events[0]), events[1..])
  }

  // ---------------------------------------------------------------------------------------
  // The intended edges
  // ---------------------------------------------------------------------------------------

  predicate Edge(a: ModuleState, b: ModuleState) {
    match (a, b)
    case (Uninitialized, Initializing) => true
    case (Initializing, Disabled) => true
    case (Disabled, Enabling) => true
    case (Enabling, Enabled) => true
    case (Enabling, Disabled) => true
    case (Enabling, Disabling) => true
    case (Enabled, Disabling) => true
    case (Disabling, Disabled) => true
    case (_, Uninitialized) => a != Uninitialized
    case _ => false
  }

  ghost predicate OnEdges(trace: seq<ModuleState>) {
    forall i :: 0 < i < |trace| ==> Edge(trace[i - 1], trace[i])
  }

  /** The trace ends with the present state. */
  ghost predicate Traced(m: Module) {
    m.trace != [] && m.trace[|m.trace| - 1] == m.state
  }

  /** An OnInitialize returns, and what called it goes on: an Enable, which does not look whether the
      module has been taken from it, or an Initialize of the current generation. */
  predicate Returns(s: System, e: Event) {
    match e
    case EndInitialize(id, throws) => !throws && InFlight(s, id, InitializeTask(s.m.generation))
    case EndEnableInitialize(id, throws) => !throws && InFlight(s, id, EnableInitializing)
    case _ => false
  }

  predicate LeavesEdges(s: System, e: Event) {
    Returns(s, e) && s.m.state in {Uninitialized, Disabled, Enabled}
  }

  /** A trace that has left the edges does not come back to them. */
  lemma StoreExactly(m: Module, state: ModuleState)
    requires Traced(m)
    ensures Traced(Store(m, state))
    ensures OnEdges(Store(m, state).trace) <==> OnEdges(m.trace) && Edge(m.state, state)
  {
    var longer := m.trace + [state];
    assert forall i :: 0 <= i < |m.trace| ==> longer[i] == m.trace[i];
    if OnEdges(longer) {
      assert Edge(longer[|m.trace| - 1], longer[|m.trace|]);
      forall i | 0 < i < |m.trace| ensures Edge(m.trace[i - 1], m.trace[i]) {
        assert Edge(longer[i - 1], longer[i]);
      }
    }
  }

  lemma EnableInitializedExactly(m: Module, throws: bool)
    requires Traced(m)
    ensures var r := EnableInitialized(m, throws);
      Traced(r) && (OnEdges(r.trace) <==> OnEdges(m.trace) && (throws || Edge(m.state, Disabled)))
  {
    hide OnEdges;
    StoreExactly(m, Disabled);
    StoreExactly(Store(m, Disabled), Enabling);
  }

  lemma EnableEndsOnEdges(m: Module, throws: bool)
    requires Traced(m)
    ensures var r := EnableEnds(m, throws); Traced(r) && (OnEdges(r.trace) <==> OnEdges(m.trace))
  {
    hide OnEdges;
    StoreExactly(m, if throws then Disabled else Enabled);
  }

  lemma DisableEndsOnEdges(m: Module, throws: bool)
    requires Traced(m)
    ensures var r := DisableEnds(m, throws); Traced(r) && (OnEdges(r.trace) <==> OnEdges(m.trace))
  {
    hide OnEdges;
    StoreExactly(m, Disabled);
  }

  /** A step leaves the edges exactly when an OnInitialize returns to a module that is uninitialised,
      disabled or enabled. */
  lemma StepOnEdgesExactly(s: System, e: Event)
    requires Traced(s.m)
    ensures var r := Step(s, e);
      Traced(r.m) && (OnEdges(r.m.trace) <==> OnEdges(s.m.trace) && !LeavesEdges(s, e))
  {
    hide OnEdges, EnableInitialized, EnableEnds, DisableEnds;
    var later := s.m.(generation := s.m.generation + 1);
    match e
    case BeginInitialize => StoreExactly(later, Initializing);
    case EndInitialize(id, throws) => StoreExactly(s.m, Disabled);
    case StartEnable =>
      StoreExactly(s.m, Initializing);
      StoreExactly(s.m, Enabling);
    case EndEnableInitialize(id, throws) => EnableInitializedExactly(s.m, throws);
    case FinishEnable(id, throws) => EnableEndsOnEdges(s.m, throws);
    case StartDisable => StoreExactly(s.m, Disabling);
    case FinishDisable(id, throws) => DisableEndsOnEdges(s.m, throws);
    case CallShutdown => StoreExactly(later, Uninitialized);
    case _ =>
  }

  ghost predicate NeverLeavesEdges(s: System, events: seq<Event>)
    decreases |events|
  {
    events != [] ==> !LeavesEdges(s, events[0]) && NeverLeavesEdges(Step(s, events[0]), events[1..])
  }

  lemma {:induction false} RunOnEdgesExactly(s: System, events: seq<Event>)
    requires Traced(s.m)
    ensures OnEdges(Run(s, events).m.trace) <==> OnEdges(s.m.trace) && NeverLeavesEdges(s, events)
    decreases |events|
  {
    hide OnEdges, Traced, LeavesEdges, Step;
    if events != [] {
      StepOnEdgesExactly(s, events[0]);
      RunOnEdgesExactly(Step(s, events[0]), events[1..]);
    }
  }

  /** Over every interleaving the state has moved along the intended edges only, exactly when no
      OnInitialize returned to a module that was uninitialised, disabled or enabled. */
  lemma StateMovesOnEdgesExactly(events: seq<Event>)
    ensures OnEdges(Run(INITIAL, events).m.trace) <==> NeverLeavesEdges(INITIAL, events)
  {
    RunOnEdgesExactly(INITIAL, events);
  }

  // ---------------------------------------------------------------------------------------
  // Enables and disables
  // ---------------------------------------------------------------------------------------

  /** The owner is the activity begun last. */
  ghost predicate Numbered(s: System) {
    && (forall id :: id in s.flight ==> id < s.next)
    && (s.next > 0 ==> s.owner == s.next - 1)
  }

  lemma StepIsNumbered(s: System, e: Event)
    requires Numbered(s)
    ensures Numbered(Step(s, e))
  {
  }

  ghost function Owing(flight: map<nat, Task>): set<nat> {
    set id | id in flight && flight[id] == ShutdownTask(true)
  }

  function EnabledBit(state: ModuleState): nat {
    if state == Enabling || state == Enabled then 1 else 0
  }

  /** The calls of OnEnable that nothing accounts for: neither an OnDisable that ran, nor one that a
      shutdown still owes, nor a roll-back, nor the module being on. */
  ghost function Surplus(s: System): int {
    s.onEnables - (s.onDisables + |Owing(s.flight)| + s.rolledBack + EnabledBit(s.m.state))
  }

  /** An OnInitialize returns to a module that is on or coming on, whose OnEnable is forgotten. */
  predicate Forgets(s: System, e: Event) {
    Returns(s, e) && s.m.state in {Enabling, Enabled}
  }

  lemma OwingWith(flight: map<nat, Task>, id: nat, t: Task)
    requires id in flight ==> t != ShutdownTask(true)
    ensures |Owing(flight[id := t])| == |Owing(flight)|
      + (if t == ShutdownTask(true) then 1 else 0)
      - (if id in flight && flight[id] == ShutdownTask(true) then 1 else 0)
  {
    var before := Owing(flight);
    if t == ShutdownTask(true) {
      assert Owing(flight[id := t]) == before + {id};
    } else if id in flight && flight[id] == ShutdownTask(true) {
      assert Owing(flight[id := t]) == before - {id};
    } else {
      assert Owing(flight[id := t]) == before;
    }
  }

  lemma OwingWithout(flight: map<nat, Task>, id: nat)
    requires id in flight && flight[id] != ShutdownTask(true)
    ensures Owing(flight - {id}) == Owing(flight)
  {
  }

  lemma OwingAfter(s: System, e: Event)
    requires Numbered(s)
    ensures |Owing(Step(s, e).flight)| ==
            |Owing(s.flight)|
            + (if e.CallShutdown? then EnabledBit(s.m.state) else 0)
            - (if e.RunShutdown? && InFlight(s, e.id, ShutdownTask(true)) then 1 else 0)
  {
    hide OnEdges, Owing, EnableEnds, DisableEnds, InitializeEnds, EnableInitialized;
    match e
    case BeginInitialize => OwingWith(s.flight, s.next, InitializeTask(s.m.generation + 1));
    case StartEnable =>
      OwingWith(s.flight, s.next, EnableTask);
      OwingWith(s.flight, s.next, EnableInitializing);
    case StartDisable => OwingWith(s.flight, s.next, DisableTask);
    case CallShutdown => OwingWith(s.flight, s.next, ShutdownTask(s.m.state == Enabled || s.m.state == Enabling));
    case RunShutdown(id) =>
      OwingWith(s.flight, id, ShutdownDisabling);
      OwingWith(s.flight, id, ShutdownFinishing);
    case FinishShutdownDisable(id) => OwingWith(s.flight, id, ShutdownFinishing);
    case EndInitialize(id, _) => if id in s.flight && s.flight[id].InitializeTask? { OwingWithout(s.flight, id); }
    case EndEnableInitialize(id, _) =>
      if InFlight(s, id, EnableInitializing) {
        OwingWithout(s.flight, id);
        OwingWith(s.flight - {id}, s.next, EnableTask);
      }
    case FinishEnable(id, _) => if InFlight(s, id, EnableTask) { OwingWithout(s.flight, id); }
    case FinishDisable(id, _) => if InFlight(s, id, DisableTask) { OwingWithout(s.flight, id); }
    case FinishShutdown(id) => if InFlight(s, id, ShutdownFinishing) { OwingWithout(s.flight, id); }
  }

  lemma StepSurplus(s: System, e: Event)
    requires Numbered(s)
    ensures Surplus(Step(s, e)) == Surplus(s) + if Forgets(s, e) then 1 else 0
  {
    OwingAfter(s, e);
    hide Owing;
  }

  function Forgotten(s: System, events: seq<Event>): nat
    decreases |events|
  {
    if events == [] then 0
    else (if Forgets(s, events[0]) then 1 else 0) + Forgotten(Step(s, events[0]), events[1..])
  }

  lemma {:induction false} RunSurplus(s: System, events: seq<Event>)
    requires Numbered(s)
    ensures Surplus(Run(s, events)) == Surplus(s) + Forgotten(s, events)
    decreases |events|
  {
    hide Numbered, Surplus, Forgets, Step;
    if events != [] {
      StepIsNumbered(s, events[0]);
      StepSurplus(s, events[0]);
      RunSurplus(Step(s, events[0]), events[1..]);
    }
  }

  lemma InitialIsGood()
    ensures Traced(INITIAL.m) && OnEdges(INITIAL.m.trace) && Numbered(INITIAL) && Surplus(INITIAL) == 0
  {
    assert Owing(map[]) == {};
  }

  /** Over every interleaving each OnEnable is accounted for once: by an OnDisable that ran, by one a
      shutdown still owes, by a roll-back, by the module being on, or by an OnInitialize that returned
      while the module was on or coming on.  OnDisable never runs twice for one OnEnable. */
  lemma EnablesAndDisablesBalance(events: seq<Event>)
    ensures var s := Run(INITIAL, events);
            && s.onEnables == s.onDisables + |Owing(s.flight)| + s.rolledBack + EnabledBit(s.m.state)
                              + Forgotten(INITIAL, events)
            && s.onDisables <= s.onEnables
  {
    hide Forgotten, Run, Owing;
    InitialIsGood();
    RunSurplus(INITIAL, events);
  }

  /** Both at once: the states are on the edges and every OnEnable is accounted for. */
  ghost predicate Kept(s: System) {
    Traced(s.m) && OnEdges(s.m.trace) && Numbered(s) && Surplus(s) == 0
  }

  predicate Breaks(s: System, e: Event) {
    Returns(s, e) && s.m.state in {Uninitialized, Disabled, Enabling, Enabled}
  }

  lemma KeptExactly(s: System, e: Event)
    requires Kept(s)
    ensures Kept(Step(s, e)) <==> !Breaks(s, e)
  {
    hide Traced, OnEdges, Numbered, Surplus, Returns, Step;
    StepOnEdgesExactly(s, e);
    StepIsNumbered(s, e);
    StepSurplus(s, e);
  }

  ghost predicate AlwaysKept(s: System, events: seq<Event>)
    decreases |events|
  {
    Kept(s) && (events != [] ==> AlwaysKept(Step(s, events[0]), events[1..]))
  }

  ghost predicate NeverBreaks(s: System, events: seq<Event>)
    decreases |events|
  {
    events != [] ==> !Breaks(s, events[0]) && NeverBreaks(Step(s, events[0]), events[1..])
  }

  /** Along a run edges and balance are kept throughout exactly when no OnInitialize returns to a
      module that is neither initialising nor being disabled. */
  lemma {:induction false} RunIsKeptExactly(s: System, events: seq<Event>)
    requires Kept(s)
    ensures AlwaysKept(s, events) <==> NeverBreaks(s, events)
    decreases |events|
  {
    hide Kept, Breaks, Step;
    if events != [] {
      KeptExactly(s, events[0]);
      if !Breaks(s, events[0]) {
        RunIsKeptExactly(Step(s, events[0]), events[1..]);
      }
    }
  }

  // ---------------------------------------------------------------------------------------
  // A live activity for every transitional state
  // ---------------------------------------------------------------------------------------

  /** Some Initialize of the current generation is in its hook. */
  ghost predicate InitializeHolds(s: System) {
    exists id :: InFlight(s, id, InitializeTask(s.m.generation))
  }

  /** Some Enable is in OnInitialize. */
  ghost predicate EnableInitializes(s: System) {
    exists id :: InFlight(s, id, EnableInitializing)
  }

  /** A transitional state has an activity in flight which will leave it. */
  ghost predicate Attended(s: System) {
    match s.m.state
    case Initializing => InitializeHolds(s) || EnableInitializes(s)
    case Enabling => InFlight(s, s.owner, EnableTask)
    case Disabling => InFlight(s, s.owner, DisableTask)
    case _ => true
  }

  /** Initialising, with nothing in flight that would end it. */
  ghost predicate Abandoned(s: System) {
    s.m.state == Initializing && !InitializeHolds(s) && !EnableInitializes(s)
  }

  /** The last OnInitialize that could end the initialisation throws. */
  ghost predicate InitializationLost(s: System, e: Event) {
    match e
    case EndInitialize(id, throws) =>
      && throws && s.m.state == Initializing && InFlight(s, id, InitializeTask(s.m.generation))
      && !InitializeHolds(Ended(s, s.m, id)) && !EnableInitializes(s)
    case EndEnableInitialize(id, throws) =>
      && throws && s.m.state == Initializing && InFlight(s, id, EnableInitializing)
      && !InitializeHolds(s) && !EnableInitializes(Ended(s, s.m, id))
    case _ => false
  }

  /** Ending one activity leaves the others in flight. */
  lemma EndedFlight(s: System, m: Module, id: nat, t: Task)
    ensures forall k :: InFlight(Ended(s, m, id), k, t) <==> InFlight(s, k, t) && k != id
  {
  }

  lemma EndInitializeAttended(s: System, id: nat, throws: bool)
    requires Attended(s)
    ensures var e := EndInitialize(id, throws);
      && (Attended(Step(s, e)) <==> !InitializationLost(s, e))
      && (InitializationLost(s, e) ==> Abandoned(Step(s, e)))
  {
    var m := s.m;
    EndedFlight(s, m, id, InitializeTask(m.generation));
    EndedFlight(s, m, id, EnableInitializing);
    EndedFlight(s, m, id, EnableTask);
    EndedFlight(s, m, id, DisableTask);
  }

  lemma EndEnableInitializeAttended(s: System, id: nat, throws: bool)
    requires Numbered(s) && Attended(s)
    ensures var e := EndEnableInitialize(id, throws);
      && (Attended(Step(s, e)) <==> !InitializationLost(s, e))
      && (InitializationLost(s, e) ==> Abandoned(Step(s, e)))
  {
    if InFlight(s, id, EnableInitializing) && throws {
      assert Step(s, EndEnableInitialize(id, throws)) == Ended(s, s.m, id);
      EndedFlight(s, s.m, id, InitializeTask(s.m.generation));
      EndedFlight(s, s.m, id, EnableInitializing);
    }
  }

  lemma OtherStepAttended(s: System, e: Event)
    requires Numbered(s) && Attended(s) && !e.EndInitialize? && !e.EndEnableInitialize?
    ensures Attended(Step(s, e))
  {
    var r := Step(s, e);
    forall k, g | InFlight(s, k, InitializeTask(g)) ensures InFlight(r, k, InitializeTask(g)) {
    }
    forall k | InFlight(s, k, EnableInitializing) ensures InFlight(r, k, EnableInitializing) {
    }
    if e.BeginInitialize? && s.m.state == Uninitialized {
      assert InFlight(r, s.next, InitializeTask(r.m.generation));
    }
    if e.StartEnable? && s.m.state == Uninitialized {
      assert InFlight(r, s.next, EnableInitializing);
    }
  }

  /** An attended module is left unattended by exactly one kind of step. */
  lemma AttendedExactly(s: System, e: Event)
    requires Numbered(s) && Attended(s)
    ensures Attended(Step(s, e)) <==> !InitializationLost(s, e)
    ensures InitializationLost(s, e) ==> Abandoned(Step(s, e))
  {
    hide Numbered, Attended, Step, Abandoned;
    match e
    case EndInitialize(id, throws) => EndInitializeAttended(s, id, throws);
    case EndEnableInitialize(id, throws) => EndEnableInitializeAttended(s, id, throws);
    case _ => OtherStepAttended(s, e);
  }

  /** Only a shutdown leads out of an abandoned initialisation. */
  lemma AbandonedExactly(s: System, e: Event)
    requires Abandoned(s)
    ensures if e.CallShutdown? then Attended(Step(s, e)) else Abandoned(Step(s, e))
  {
    var r := Step(s, e);
    if e.EndInitialize? && e.id in s.flight && s.flight[e.id].InitializeTask? {
      assert !InFlight(s, e.id, InitializeTask(s.m.generation));
    }
    assert e.EndEnableInitialize? ==> !InFlight(s, e.id, EnableInitializing);
    forall id | InFlight(r, id, EnableInitializing) ensures InFlight(s, id, EnableInitializing) {
    }
    forall id, g | InFlight(r, id, InitializeTask(g)) && !e.CallShutdown? ensures InFlight(s, id, InitializeTask(g)) {
    }
  }

  ghost predicate AlwaysAttended(s: System, events: seq<Event>)
    decreases |events|
  {
    Attended(s) && (events != [] ==> AlwaysAttended(Step(s, events[0]), events[1..]))
  }

  ghost predicate NothingLost(s: System, events: seq<Event>)
    decreases |events|
  {
    events != [] ==> !InitializationLost(s, events[0]) && NothingLost(Step(s, events[0]), events[1..])
  }

  /** Over every interleaving a transitional state is attended throughout a run exactly when no
      initialisation is lost. */
  lemma {:induction false} RunIsAttendedExactly(s: System, events: seq<Event>)
    requires Numbered(s) && Attended(s)
    ensures AlwaysAttended(s, events) <==> NothingLost(s, events)
    decreases |events|
  {
    hide Numbered, Step, Attended, InitializationLost, Abandoned;
    if events != [] {
      StepIsNumbered(s, events[0]);
      AttendedExactly(s, events[0]);
      if !InitializationLost(s, events[0]) {
        RunIsAttendedExactly(Step(s, events[0]), events[1..]);
      }
    }
  }

  /** Whether an initialisation has been lost that no shutdown has followed yet. */
  ghost predicate StillLost(s: System, events: seq<Event>, lost: bool)
    decreases |events|
  {
    if events == [] then lost
    else
      StillLost(Step(s, events[0]), events[1..],
        if lost then !events[0].CallShutdown? else InitializationLost(s, events[0]))
  }

  /** After any run the state is attended or abandoned, and attended exactly when no initialisation is
      still lost. */
  lemma {:induction false} AttendedAfterExactly(s: System, events: seq<Event>)
    requires Numbered(s) && (Attended(s) || Abandoned(s))
    ensures Numbered(Run(s, events)) && (Attended(Run(s, events)) || Abandoned(Run(s, events)))
    ensures Attended(Run(s, events)) <==> !StillLost(s, events, Abandoned(s))
    decreases |events|
  {
    hide Numbered, Step, InitializationLost, InitializeHolds, EnableInitializes;
    if events != [] {
      StepIsNumbered(s, events[0]);
      if Abandoned(s) {
        AbandonedExactly(s, events[0]);
      } else {
        AttendedExactly(s, events[0]);
      }
      AttendedAfterExactly(Step(s, events[0]), events[1..]);
    }
  }

  /** After every run with nothing left in flight the module is uninitialised, disabled or enabled
      exactly when no initialisation is still lost. */
  lemma QuiescentIsStableExactly(events: seq<Event>)
    requires Run(INITIAL, events).flight == map[]
    ensures Run(INITIAL, events).m.state in {Uninitialized, Disabled, Enabled} <==> !StillLost(INITIAL, events, false)
  {
    hide Run, Step, StillLost;
    AttendedAfterExactly(INITIAL, events);
  }

  // ---------------------------------------------------------------------------------------
  // Stale completions
  // ---------------------------------------------------------------------------------------

  /** The step stores a state. */
  predicate Writes(s: System, e: Event) {
    Step(s, e).m.trace != s.m.trace
  }

  /** What makes a completion store a state, in each of the four kinds. */
  lemma CompletionWrites(s: System, id: nat, throws: bool)
    ensures Writes(s, EndInitialize(id, throws)) <==> Returns(s, EndInitialize(id, throws))
    ensures Writes(s, EndEnableInitialize(id, throws)) <==> Returns(s, EndEnableInitialize(id, throws))
    ensures Writes(s, FinishEnable(id, throws)) <==> InFlight(s, id, EnableTask) && s.m.state == Enabling
    ensures Writes(s, FinishDisable(id, throws)) <==> InFlight(s, id, DisableTask) && s.m.state == Disabling
  {
    assert forall x: ModuleState :: |s.m.trace + [x]| > |s.m.trace|;
    assert forall x: ModuleState, y: ModuleState :: |s.m.trace + [x] + [y]| > |s.m.trace|;
  }

  /** Completions of Enable and Disable are recognised by the state alone: after any run, one that is
      not the owner's stores a state exactly when an activity of its kind that began later holds the
      module. */
  lemma StaleCompletionWrites(events: seq<Event>, id: nat, throws: bool)
    ensures var s := Run(INITIAL, events);
      id != s.owner ==>
        && (InFlight(s, id, EnableTask) ==>
              (Writes(s, FinishEnable(id, throws)) <==>
                 s.m.state == Enabling && InFlight(s, s.owner, EnableTask) && id < s.owner))
        && (InFlight(s, id, DisableTask) ==>
              (Writes(s, FinishDisable(id, throws)) <==>
                 s.m.state == Disabling && InFlight(s, s.owner, DisableTask) && id < s.owner))
  {
    hide Run, Step, Writes;
    AttendedAfterExactly(INITIAL, events);
    CompletionWrites(Run(INITIAL, events), id, throws);
  }

  /** No completion but that of the activity begun last stores a state. */
  ghost predicate OnlyOwnerCanComplete(s: System) {
    forall id, throws :: id != s.owner ==>
      && !Writes(s, EndInitialize(id, throws)) && !Writes(s, EndEnableInitialize(id, throws))
      && !Writes(s, FinishEnable(id, throws)) && !Writes(s, FinishDisable(id, throws))
  }

  /** The holder of a transitional state is alone of its kind. */
  ghost predicate OwnerIsAlone(s: System) {
    && (forall id :: InFlight(s, id, InitializeTask(s.m.generation)) ==> id == s.owner)
    && (forall id :: InFlight(s, id, EnableInitializing) ==> id == s.owner)
    && (s.m.state == Enabling ==> forall id :: InFlight(s, id, EnableTask) ==> id == s.owner)
    && (s.m.state == Disabling ==> forall id :: InFlight(s, id, DisableTask) ==> id == s.owner)
  }

  lemma OwnerCompletesExactly(s: System)
    ensures OnlyOwnerCanComplete(s) <==> OwnerIsAlone(s)
  {
    hide Step, Writes, InFlight;
    forall id, throws
      ensures Writes(s, EndInitialize(id, throws)) <==> Returns(s, EndInitialize(id, throws))
      ensures Writes(s, EndEnableInitialize(id, throws)) <==> Returns(s, EndEnableInitialize(id, throws))
      ensures Writes(s, FinishEnable(id, throws)) <==> InFlight(s, id, EnableTask) && s.m.state == Enabling
      ensures Writes(s, FinishDisable(id, throws)) <==> InFlight(s, id, DisableTask) && s.m.state == Disabling
    {
      CompletionWrites(s, id, throws);
    }
    if OnlyOwnerCanComplete(s) {
      forall id | id != s.owner
        ensures !InFlight(s, id, InitializeTask(s.m.generation)) && !InFlight(s, id, EnableInitializing)
        ensures InFlight(s, id, EnableTask) ==> s.m.state != Enabling
        ensures InFlight(s, id, DisableTask) ==> s.m.state != Disabling
      {
        assert !Writes(s, EndInitialize(id, false)) && !Writes(s, EndEnableInitialize(id, false));
        assert !Writes(s, FinishEnable(id, false)) && !Writes(s, FinishDisable(id, false));
      }
    }
  }

  /** Generations only grow, and an OnInitialize of the owner runs while the module is initialising. */
  ghost predicate Orderly(s: System) {
    && Numbered(s)
    && (forall id :: id in s.flight && s.flight[id].InitializeTask? ==> s.flight[id].generation <= s.m.generation)
    && (InFlight(s, s.owner, EnableInitializing) || InFlight(s, s.owner, InitializeTask(s.m.generation)) ==>
          s.m.state == Initializing)
  }

  /** An OnEnable or OnDisable begins while an earlier one of its kind has not ended, or a shutdown
      comes while an Enable is in OnInitialize. */
  ghost predicate Overlaps(s: System, e: Event) {
    match e
    case StartEnable => s.m.state == Disabled && exists id :: InFlight(s, id, EnableTask)
    case EndEnableInitialize(id, throws) =>
      !throws && InFlight(s, id, EnableInitializing) && exists k :: InFlight(s, k, EnableTask)
    case StartDisable => s.m.state in {Enabling, Enabled} && exists id :: InFlight(s, id, DisableTask)
    case CallShutdown => exists id :: InFlight(s, id, EnableInitializing)
    case _ => false
  }

  /** An activity that begins is alone. */
  lemma BeginningIsAlone(s: System, e: Event)
    requires Orderly(s) && OwnerIsAlone(s) && !Overlaps(s, e)
    requires e in {BeginInitialize, StartEnable, StartDisable, CallShutdown}
    ensures Orderly(Step(s, e)) && OwnerIsAlone(Step(s, e))
  {
    var r := Step(s, e);
    forall id, t | InFlight(r, id, t) && id != s.next ensures InFlight(s, id, t) {
    }
  }

  lemma GoingOnIsAlone(s: System, id: nat, throws: bool)
    requires Orderly(s) && OwnerIsAlone(s) && !Overlaps(s, EndEnableInitialize(id, throws))
    ensures var r := Step(s, EndEnableInitialize(id, throws)); Orderly(r) && OwnerIsAlone(r)
  {
    var r := Step(s, EndEnableInitialize(id, throws));
    forall k, t | InFlight(r, k, t) && k != s.next ensures InFlight(s, k, t) {
    }
  }

  lemma EndingIsAlone(s: System, e: Event)
    requires Orderly(s) && OwnerIsAlone(s)
    requires e.EndInitialize? || e.FinishEnable? || e.FinishDisable?
    ensures Orderly(Step(s, e)) && OwnerIsAlone(Step(s, e))
  {
    var r := Step(s, e);
    assert e.EndInitialize? && InFlight(s, e.id, InitializeTask(s.m.generation)) ==> e.id == s.owner;
    forall id, t | InFlight(r, id, t) ensures InFlight(s, id, t) {
    }
  }

  lemma ShuttingDownIsAlone(s: System, e: Event)
    requires Orderly(s) && OwnerIsAlone(s)
    requires e.RunShutdown? || e.FinishShutdownDisable? || e.FinishShutdown?
    ensures Orderly(Step(s, e)) && OwnerIsAlone(Step(s, e))
  {
    var r := Step(s, e);
    forall id, t | InFlight(r, id, t) && !t.ShutdownDisabling? && !t.ShutdownFinishing? ensures InFlight(s, id, t) {
    }
  }

  lemma StepIsAloneUnlessOverlaps(s: System, e: Event)
    requires Orderly(s) && OwnerIsAlone(s) && !Overlaps(s, e)
    ensures Orderly(Step(s, e)) && OwnerIsAlone(Step(s, e))
  {
    hide Orderly, OwnerIsAlone, Overlaps, Step;
    match e
    case EndInitialize(id, throws) => EndingIsAlone(s, e);
    case FinishEnable(id, throws) => EndingIsAlone(s, e);
    case FinishDisable(id, throws) => EndingIsAlone(s, e);
    case EndEnableInitialize(id, throws) => GoingOnIsAlone(s, id, throws);
    case RunShutdown(id) => ShuttingDownIsAlone(s, e);
    case FinishShutdownDisable(id) => ShuttingDownIsAlone(s, e);
    case FinishShutdown(id) => ShuttingDownIsAlone(s, e);
    case _ => BeginningIsAlone(s, e);
  }

  lemma OverlapIsNotAlone(s: System, e: Event)
    requires Orderly(s) && OwnerIsAlone(s) && Overlaps(s, e)
    ensures !OwnerIsAlone(Step(s, e))
  {
    var r := Step(s, e);
    if e.StartDisable? {
      var id :| InFlight(s, id, DisableTask);
      assert InFlight(r, id, DisableTask) && id != r.owner;
    } else if e.CallShutdown? {
      var id :| InFlight(s, id, EnableInitializing);
      assert InFlight(r, id, EnableInitializing) && id != r.owner;
    } else {
      var id :| InFlight(s, id, EnableTask);
      assert InFlight(r, id, EnableTask) && id != r.owner;
    }
  }

  ghost predicate AlwaysOnlyOwnerCompletes(s: System, events: seq<Event>)
    decreases |events|
  {
    OnlyOwnerCanComplete(s) && (events != [] ==> AlwaysOnlyOwnerCompletes(Step(s, events[0]), events[1..]))
  }

  ghost predicate NeverOverlaps(s: System, events: seq<Event>)
    decreases |events|
  {
    events != [] ==> !Overlaps(s, events[0]) && NeverOverlaps(Step(s, events[0]), events[1..])
  }

  lemma {:induction false} RunOwnerIsAloneExactly(s: System, events: seq<Event>)
    requires Orderly(s) && OwnerIsAlone(s)
    ensures AlwaysOnlyOwnerCompletes(s, events) <==> NeverOverlaps(s, events)
    ensures NeverOverlaps(s, events) ==> NeverBreaks(s, events)
    decreases |events|
  {
    hide Orderly, OnlyOwnerCanComplete, OwnerIsAlone, Overlaps, Breaks, Step;
    OwnerCompletesExactly(s);
    if events != [] {
      var next := Step(s, events[0]);
      if Overlaps(s, events[0]) {
        OverlapIsNotAlone(s, events[0]);
        OwnerCompletesExactly(next);
      } else {
        StepIsAloneUnlessOverlaps(s, events[0]);
        AloneBreaksNothing(s, events[0]);
        RunOwnerIsAloneExactly(next, events[1..]);
      }
    }
  }

  lemma AloneBreaksNothing(s: System, e: Event)
    requires Orderly(s) && OwnerIsAlone(s)
    ensures !Breaks(s, e)
  {
  }

  /** Over every interleaving, no completion but that of the activity begun last stores a state
      throughout a run, exactly when no OnEnable and no OnDisable begins before the earlier ones of its
      kind have ended and no shutdown comes while an Enable is in OnInitialize. */
  lemma StaleCompletionsWriteNothingExactly(events: seq<Event>)
    ensures AlwaysOnlyOwnerCompletes(INITIAL, events) <==> NeverOverlaps(INITIAL, events)
  {
    RunOwnerIsAloneExactly(INITIAL, events);
  }

  /** In such a run the states stay on the edges and every OnEnable is accounted for. */
  lemma WithoutOverlapAllIsKept(events: seq<Event>)
    requires NeverOverlaps(INITIAL, events)
    ensures AlwaysKept(INITIAL, events)
  {
    hide NeverOverlaps, AlwaysKept, NeverBreaks;
    InitialIsGood();
    RunOwnerIsAloneExactly(INITIAL, events);
    RunIsKeptExactly(INITIAL, events);
  }

  // ---------------------------------------------------------------------------------------
  // What the generation tells an Initialize
  // ---------------------------------------------------------------------------------------

  /** A shutdown takes effect in the run. */
  predicate ShutDown(s: System, events: seq<Event>)
    decreases |events|
  {
    events != [] &&
    ((events[0] == CallShutdown && s.m.state != Uninitialized) || ShutDown(Step(s, events[0]), events[1..]))
  }

  lemma {:induction false} GenerationsGrow(s: System, events: seq<Event>)
    ensures Run(s, events).m.generation >= s.m.generation
    decreases |events|
  {
    if events != [] {
      GenerationsGrow(Step(s, events[0]), events[1..]);
    }
  }

  lemma {:induction false} GenerationTells(s: System, events: seq<Event>)
    requires s.m.state != Uninitialized
    ensures Run(s, events).m.generation == s.m.generation <==> !ShutDown(s, events)
    decreases |events|
  {
    if events != [] {
      var next := Step(s, events[0]);
      if events[0] == CallShutdown {
        GenerationsGrow(next, events[1..]);
      } else {
        GenerationTells(next, events[1..]);
      }
    }
  }

  lemma StepRemembers(s: System, e: Event, id: nat, generation: nat)
    requires Numbered(s) && id < s.next && (id in s.flight ==> InFlight(s, id, InitializeTask(generation)))
    ensures var r := Step(s, e);
      Numbered(r) && id < r.next && (id in r.flight ==> InFlight(r, id, InitializeTask(generation)))
  {
  }

  lemma {:induction false} TaskRemembers(s: System, events: seq<Event>, id: nat, generation: nat)
    requires Numbered(s) && id < s.next && (id in s.flight ==> InFlight(s, id, InitializeTask(generation)))
    ensures id in Run(s, events).flight ==> InFlight(Run(s, events), id, InitializeTask(generation))
    decreases |events|
  {
    hide Numbered, Step;
    if events != [] {
      StepRemembers(s, events[0], id, generation);
      TaskRemembers(Step(s, events[0]), events[1..], id, generation);
    }
  }

  /** Whatever happens while an Initialize is in its hook, its return stores a state exactly when no
      shutdown has taken effect since it began. */
  lemma StaleInitializeWritesNothing(s: System, events: seq<Event>)
    requires Numbered(s) && s.m.state == Uninitialized && s.next in Run(Step(s, BeginInitialize), events).flight
    ensures var begun := Step(s, BeginInitialize);
      Writes(Run(begun, events), EndInitialize(s.next, false)) <==> !ShutDown(begun, events)
  {
    var begun := Step(s, BeginInitialize);
    TaskRemembers(begun, events, s.next, begun.m.generation);
    GenerationTells(begun, events);
    CompletionWrites(Run(begun, events), s.next, false);
  }

  // ---------------------------------------------------------------------------------------
  // It does happen
  // ---------------------------------------------------------------------------------------

  /** A throwing OnInitialize leaves the module initialising with nothing in flight, and from then
      on every call but Shutdown is skipped. */
  lemma LostInitialization()
    ensures var s := Run(INITIAL, [StartEnable, EndEnableInitialize(0, true)]);
            && s.m.state == Initializing && s.flight == map[]
            && forall e: Event :: e != CallShutdown ==> Step(s, e) == s
  {
    RunTwo(INITIAL, StartEnable, EndEnableInitialize(0, true));
    var s1 := Step(INITIAL, StartEnable);
    assert s1.flight == map[0 := EnableInitializing];
    assert Step(s1, EndEnableInitialize(0, true)).flight == map[];
  }

  /** Enable initialises the module, a shutdown comes in between, and the Enable goes on: the
      module goes from uninitialised to disabled. */
  lemma OvertakenByShutdown()
    ensures var s := Run(INITIAL, [StartEnable, CallShutdown, EndEnableInitialize(0, false)]);
            !OnEdges(s.m.trace) && s.m.state == Enabling
  {
    hide Run;
    RunThree(INITIAL, StartEnable, CallShutdown, EndEnableInitialize(0, false));
    var s1 := Step(INITIAL, StartEnable);
    var s2 := Step(s1, CallShutdown);
    var s3 := Step(s2, EndEnableInitialize(0, false));
    assert s2.flight == map[0 := EnableInitializing, 1 := ShutdownTask(false)];
    assert s3.m.trace == [Uninitialized, Initializing, Uninitialized, Disabled, Enabling];
    assert !Edge(s3.m.trace[2], s3.m.trace[3]);
  }

  /** An Initialize comes in as well and declares the module disabled while OnEnable runs: it is
      never undone. */
  lemma OvertakenByInitialize()
    ensures var s := Run(INITIAL, [StartEnable, CallShutdown, BeginInitialize, EndEnableInitialize(0, false),
                                   EndInitialize(2, false), FinishEnable(3, false)]);
            && s.m.state == Disabled && s.flight == map[1 := ShutdownTask(false)]
            && s.onEnables == 1 && s.onDisables == s.rolledBack == 0
  {
    hide Run, Step;
    RunSix(INITIAL, StartEnable, CallShutdown, BeginInitialize, EndEnableInitialize(0, false), EndInitialize(2, false),
      FinishEnable(3, false));
    OvertakenStart();
    OvertakenEnd(Step(Step(Step(INITIAL, StartEnable), CallShutdown), BeginInitialize));
  }

  /** Enable, disable and enable again while the first OnEnable is still running;
      its completion then declares the module enabled although the second OnEnable is not done. */
  lemma StaleEnableRun()
    ensures var s := Run(INITIAL, [StartEnable, EndEnableInitialize(0, false), StartDisable, FinishDisable(2, false),
                                   StartEnable, FinishEnable(1, false)]);
            s.m.state == Enabled && s.owner == 3 && s.flight == map[3 := EnableTask]
  {
    hide Run, Step;
    RunSix(INITIAL, StartEnable, EndEnableInitialize(0, false), StartDisable, FinishDisable(2, false), StartEnable,
      FinishEnable(1, false));
    StaleEnableStart();
    StaleEnableEnd(
      Step(Step(Step(Step(INITIAL, StartEnable), EndEnableInitialize(0, false)), StartDisable),
        FinishDisable(2, false)));
  }

  lemma OvertakenStart()
    ensures var s := Step(Step(Step(INITIAL, StartEnable), CallShutdown), BeginInitialize);
      && s.flight == map[0 := EnableInitializing, 1 := ShutdownTask(false), 2 := InitializeTask(2)]
      && s.next == 3 && s.m.state == Initializing && s.m.generation == 2
      && s.onEnables == s.onDisables == s.rolledBack == 0
  {
    var s1 := Step(INITIAL, StartEnable);
    assert s1.flight == map[0 := EnableInitializing];
    var s2 := Step(s1, CallShutdown);
    assert s2.flight == map[0 := EnableInitializing, 1 := ShutdownTask(false)];
  }

  lemma OvertakenEnd(s: System)
    requires s.flight == map[0 := EnableInitializing, 1 := ShutdownTask(false), 2 := InitializeTask(2)]
    requires s.next == 3 && s.m.state == Initializing && s.m.generation == 2
    requires s.onEnables == s.onDisables == s.rolledBack == 0
    ensures var t := Step(Step(Step(s, EndEnableInitialize(0, false)), EndInitialize(2, false)),
      FinishEnable(3, false));
      && t.m.state == Disabled && t.flight == map[1 := ShutdownTask(false)]
      && t.onEnables == 1 && t.onDisables == t.rolledBack == 0
  {
    var s4 := Step(s, EndEnableInitialize(0, false));
    assert s4.flight == map[1 := ShutdownTask(false), 2 := InitializeTask(2), 3 := EnableTask];
    var s5 := Step(s4, EndInitialize(2, false));
    assert s5.flight == map[1 := ShutdownTask(false), 3 := EnableTask] && s5.m.state == Disabled;
    assert Step(s5, FinishEnable(3, false)).flight == map[1 := ShutdownTask(false)];
  }

  lemma StaleEnableStart()
    ensures var s :=
        Step(Step(Step(Step(INITIAL, StartEnable), EndEnableInitialize(0, false)), StartDisable),
          FinishDisable(2, false));
      s.m.state == Disabled && s.next == 3 && s.flight == map[1 := EnableTask]
  {
    var s1 := Step(INITIAL, StartEnable);
    assert s1.m.state == Initializing && s1.flight == map[0 := EnableInitializing];
    var s2 := Step(s1, EndEnableInitialize(0, false));
    assert s2.m.state == Enabling && s2.flight == map[1 := EnableTask];
    var s3 := Step(s2, StartDisable);
    assert s3.m.state == Disabling && s3.flight == map[1 := EnableTask, 2 := DisableTask];
    assert Step(s3, FinishDisable(2, false)).flight == map[1 := EnableTask];
  }

  lemma StaleEnableEnd(s: System)
    requires s.m.state == Disabled && s.next == 3 && s.flight == map[1 := EnableTask]
    ensures var t := Step(Step(s, StartEnable), FinishEnable(1, false));
      t.m.state == Enabled && t.owner == 3 && t.flight == map[3 := EnableTask]
  {
    var s4 := Step(s, StartEnable);
    assert s4.m.state == Enabling && s4.flight == map[1 := EnableTask, 3 := EnableTask];
    assert Step(s4, FinishEnable(1, false)).flight == map[3 := EnableTask];
  }

  lemma RunFirst(s: System, e: Event, rest: seq<Event>)
    ensures Run(s, [e] + rest) == Run(Step(s, e), rest)
  {
    hide Step;
    assert ([e] + rest)[1..] == rest;
  }

  lemma RunTwo(s: System, a: Event, b: Event)
    ensures Run(s, [a, b]) == Step(Step(s, a), b)
  {
    hide Step;
    RunFirst(s, a, [b]);
    RunFirst(Step(s, a), b, []);
    assert [a] + [b] == [a, b] && [b] + [] == [b];
  }

  lemma RunThree(s: System, a: Event, b: Event, c: Event)
    ensures Run(s, [a, b, c]) == Step(Step(Step(s, a), b), c)
  {
    hide Step;
    RunFirst(s, a, [b, c]);
    RunTwo(Step(s, a), b, c);
    assert [a] + [b, c] == [a, b, c];
  }

  lemma RunSix(s: System, a: Event, b: Event, c: Event, d: Event, e: Event, f: Event)
    ensures Run(s, [a, b, c, d, e, f]) == Step(Step(Step(Step(Step(Step(s, a), b), c), d), e), f)
  {
    hide Step;
    RunFirst(s, a, [b, c, d, e, f]);
    RunFirst(Step(s, a), b, [c, d, e, f]);
    RunFirst(Step(Step(s, a), b), c, [d, e, f]);
    RunThree(Step(Step(Step(s, a), b), c), d, e, f);
    assert [a] + [b, c, d, e, f] == [a, b, c, d, e, f] && [b] + [c, d, e, f] == [b, c, d, e, f];
    assert [c] + [d, e, f] == [c, d, e, f];
  }
}
