/** The icon requests of apps/desktop/src/FileManagerController.cpp: a queue of paths whose icons
    are wanted, at most two requests in flight, and what is known already. */
module IconQueue {
  import RemotePath

  const MAX_ICON_REQUESTS_IN_FLIGHT: nat := 2

  /** `lookup` maps the paths of the current folder to whether they are folders; `requests` is what
      the file-share module has been asked for. */
  datatype Icons = Icons(
    queue: seq<string>,
    queued: set<string>,
    inFlight: set<string>,
    sources: map<string, string>,
    without: set<string>,
    lookup: map<string, bool>,
    requests: seq<string>)

  predicate Known(s: Icons, path: string) {
    path in s.sources || path in s.without
  }

  function QueueRequest(s: Icons, path: string, isFolder: bool): Icons {
    if path == "" || isFolder || Known(s, path) || path in s.inFlight || path in s.queued then s
    else s.(queued := s.queued + {path}, queue := s.queue + [path])
  }

  /** Taking the first path off the queue. */
  function Taken(s: Icons): Icons
    requires s.queue != []
  {
    var path := s.queue[0];
    var rest := s.(queue := s.queue[1..], queued := s.queued - {path});
    if Known(s, path) || path in s.inFlight || path !in s.lookup || s.lookup[path] then rest
    else rest.(inFlight := s.inFlight + {path}, requests := s.requests + [path])
  }

  function Process(s: Icons, enabled: bool): Icons
    decreases |s.queue|
  {
    if !enabled || s.queue == [] || |s.inFlight| >= MAX_ICON_REQUESTS_IN_FLIGHT then s else Process(Taken(s), enabled)
  }

  function RequestIcon(s: Icons, remotePath: string, enabled: bool): Icons {
    var path := RemotePath.Normalize(remotePath);
    if path == "" || path !in s.lookup then s
    else Process(QueueRequest(s, path, s.lookup[path]), enabled)
  }

  function Answered(s: Icons, path: string, success: bool, icon: string, enabled: bool): Icons {
    if path == "" then s
    else
      var landed := s.(inFlight := s.inFlight - {path});
      Process(
        if success && icon != "" then landed.(without := s.without - {path}, sources := s.sources[path := icon])
        else landed.(without := s.without + {path}),
        enabled)
  }

  function Listed(s: Icons, entries: map<string, bool>): Icons {
    s.(lookup := entries, queue := [], queued := {})
  }

  function Disconnected(s: Icons): Icons {
    s.(queue := [], queued := {}, inFlight := {}, lookup := map[])
  }

  // ---------------------------------------------------------------------------------------
  // The object
  // ---------------------------------------------------------------------------------------

  class IconRequests {
    var pendingIconQueue: seq<string>
    var queuedIconRequests: set<string>
    var iconRequestsInFlight: set<string>
    var iconSourceByPath: map<string, string>
    var entriesWithoutReportedIcon: set<string>
    var entryLookup: map<string, bool>
    var fetchCalls: seq<string>

    ghost function View(): Icons
      reads this
    {
      Icons(pendingIconQueue, queuedIconRequests, iconRequestsInFlight, iconSourceByPath, entriesWithoutReportedIcon,
        entryLookup, fetchCalls)
    }

    constructor ()
      ensures View() == Icons([], {}, {}, map[], {}, map[], [])
    {
      pendingIconQueue, queuedIconRequests, iconRequestsInFlight := [], {}, {};
      iconSourceByPath, entriesWithoutReportedIcon, entryLookup, fetchCalls := map[], {}, map[], [];
    }

    method QueueEntryIconRequest(fullPath: string, isFolder: bool)
      modifies this
      ensures View() == QueueRequest(old(View()), fullPath, isFolder)
    {
      if fullPath == "" || isFolder {
        return;
      }
      if fullPath in iconSourceByPath || fullPath in iconRequestsInFlight || fullPath in queuedIconRequests
         || fullPath in entriesWithoutReportedIcon {
        return;
      }
      queuedIconRequests := queuedIconRequests + {fullPath};
      pendingIconQueue := pendingIconQueue + [fullPath];
    }

    /** One round of the loop of processQueuedIconRequests. */
    method TakeFirst()
      requires pendingIconQueue != []
      modifies this
      ensures View() == Taken(old(View()))
    {
      var fullPath := pendingIconQueue[0];
      pendingIconQueue := pendingIconQueue[1..];
      queuedIconRequests := queuedIconRequests - {fullPath};
      if fullPath in iconSourceByPath || fullPath in iconRequestsInFlight || fullPath in entriesWithoutReportedIcon {
        return;
      }
      if fullPath !in entryLookup || entryLookup[fullPath] {
        return;
      }
      iconRequestsInFlight := iconRequestsInFlight + {fullPath};
      fetchCalls := fetchCalls + [fullPath];
    }

    method ProcessQueuedIconRequests(enabled: bool)
      modifies this
      ensures View() == Process(old(View()), enabled)
    {
      if !enabled {
        return;
      }
      while pendingIconQueue != [] && |iconRequestsInFlight| < MAX_ICON_REQUESTS_IN_FLIGHT
        invariant Process(View(), enabled) == Process(old(View()), enabled)
        decreases |pendingIconQueue|
      {
        TakeFirst();
      }
    }

    method RequestEntryIcon(remotePath: string, enabled: bool)
      modifies this
      ensures View() == RequestIcon(old(View()), remotePath, enabled)
    {
      hide Process, RemotePath.Normalize;
      var normalizedPath := RemotePath.NormalizeRemotePath(remotePath);
      if normalizedPath == "" || normalizedPath !in entryLookup {
        return;
      }
      QueueEntryIconRequest(normalizedPath, entryLookup[normalizedPath]);
      ProcessQueuedIconRequests(enabled);
    }

    method OnFetchEntryIconResult(entryPath: string, success: bool, iconPath: string, enabled: bool)
      modifies this
      ensures View() == Answered(old(View()), entryPath, success, iconPath, enabled)
    {
      hide Process;
      if entryPath == "" {
        return;
      }
      iconRequestsInFlight := iconRequestsInFlight - {entryPath};
      if success && iconPath != "" {
        entriesWithoutReportedIcon := entriesWithoutReportedIcon - {entryPath};
        iconSourceByPath := iconSourceByPath[entryPath := iconPath];
      } else {
        entriesWithoutReportedIcon := entriesWithoutReportedIcon + {entryPath};
      }
      ProcessQueuedIconRequests(enabled);
    }

    method OnDirectoryEntries(entries: map<string, bool>)
      modifies this
      ensures View() == Listed(old(View()), entries)
    {
      entryLookup := entries;
      pendingIconQueue := [];
      queuedIconRequests := {};
    }

    method OnDisconnected()
      modifies this
      ensures View() == Disconnected(old(View()))
    {
      pendingIconQueue := [];
      queuedIconRequests := {};
      iconRequestsInFlight := {};
      entryLookup := map[];
    }
  }

  // ---------------------------------------------------------------------------------------
  // The invariant
  // ---------------------------------------------------------------------------------------

  /** The queued set is the set of the queue's elements, none of them twice and none in flight,
      and at most two requests are in flight. */
  predicate Consistent(s: Icons) {
    && s.queued == (set p | p in s.queue)
    && (forall i, j :: 0 <= i < j < |s.queue| ==> s.queue[i] != s.queue[j])
    && s.queued !! s.inFlight
    && |s.inFlight| <= MAX_ICON_REQUESTS_IN_FLIGHT
  }

  /** No request that could be made is held back. */
  predicate Saturated(s: Icons) {
    s.queue == [] || |s.inFlight| == MAX_ICON_REQUESTS_IN_FLIGHT
  }

  lemma QueueRequestKeeps(s: Icons, path: string, isFolder: bool)
    requires Consistent(s)
    ensures Consistent(QueueRequest(s, path, isFolder))
  {
  }

  lemma TakenKeeps(s: Icons)
    requires Consistent(s) && s.queue != [] && |s.inFlight| < MAX_ICON_REQUESTS_IN_FLIGHT
    ensures Consistent(Taken(s))
  {
    var path, rest := s.queue[0], s.queue[1..];
    assert forall i :: 0 <= i < |rest| ==> rest[i] == s.queue[i + 1];
    assert s.queue == [path] + rest;
    assert forall p :: p in s.queue <==> p == path || p in rest;
    assert path !in rest;
  }

  lemma {:induction false} ProcessKeeps(s: Icons, enabled: bool)
    requires Consistent(s)
    ensures Consistent(Process(s, enabled))
    ensures enabled ==> Saturated(Process(s, enabled))
    decreases |s.queue|
  {
    hide Taken, Consistent;
    assert |s.inFlight| <= MAX_ICON_REQUESTS_IN_FLIGHT by { ConsistentBound(s); }
    if enabled && s.queue != [] && |s.inFlight| < MAX_ICON_REQUESTS_IN_FLIGHT {
      TakenKeeps(s);
      TakenShortens(s);
      ProcessKeeps(Taken(s), enabled);
    }
  }

  lemma ConsistentBound(s: Icons)
    requires Consistent(s)
    ensures |s.inFlight| <= MAX_ICON_REQUESTS_IN_FLIGHT
  {
  }

  lemma TakenShortens(s: Icons)
    requires s.queue != []
    ensures |Taken(s).queue| == |s.queue| - 1
  {
  }

  datatype Event =
    | Want(remotePath: string)
    | Answer(path: string, success: bool, icon: string)
    | List(entries: map<string, bool>)
    | Disconnect

  /** One event, with the module's state while it is handled. */
  function Step(s: Icons, e: Event, enabled: bool): Icons {
    match e
    case Want(remotePath) => RequestIcon(s, remotePath, enabled)
    case Answer(path, success, icon) => Answered(s, path, success, icon, enabled)
    case List(entries) => Listed(s, entries)
    case Disconnect => Disconnected(s)
  }

  lemma StepKeeps(s: Icons, e: Event, enabled: bool)
    requires Consistent(s)
    ensures Consistent(Step(s, e, enabled))
    ensures enabled && Saturated(s) ==> Saturated(Step(s, e, enabled))
  {
    hide RemotePath.Normalize, Process;
    match e
    case Want(remotePath) =>
      var path := RemotePath.Normalize(remotePath);
      if path != "" && path in s.lookup {
        QueueRequestKeeps(s, path, s.lookup[path]);
        ProcessKeeps(QueueRequest(s, path, s.lookup[path]), enabled);
      }
    case Answer(path, success, icon) =>
      if path != "" {
        var landed := s.(inFlight := s.inFlight - {path});
        ProcessKeeps(
          if success && icon != "" then landed.(without := s.without - {path}, sources := s.sources[path := icon])
          else landed.(without := s.without + {path}),
          enabled);
      }
    case List(entries) =>
    case Disconnect =>
  }

  function Run(s: Icons, events: seq<(Event, bool)>): Icons
    decreases |events|
  {
    if events == [] then s else Run(Step(s, events[0].0, events[0].1), events[1..])
  }

  lemma {:induction false} RunKeeps(s: Icons, events: seq<(Event, bool)>)
    requires Consistent(s)
    ensures Consistent(Run(s, events))
    ensures Saturated(s) && (forall i :: 0 <= i < |events| ==> events[i].1) ==> Saturated(Run(s, events))
    decreases |events|
  {
    hide Step, Consistent, Saturated;
    if events != [] {
      StepKeeps(s, events[0].0, events[0].1);
      assert forall i :: 0 <= i < |events[1..]| ==> events[1..][i] == events[i + 1];
      RunKeeps(Step(s, events[0].0, events[0].1), events[1..]);
    }
  }

  // ---------------------------------------------------------------------------------------
  // Nothing is asked for twice
  // ---------------------------------------------------------------------------------------

  function Times(path: string, requests: seq<string>): nat {
    if requests == [] then 0
    else Times(path, requests[..|requests| - 1]) + if requests[|requests| - 1] == path then 1 else 0
  }

  lemma TimesOneMore(path: string, requests: seq<string>, last: string)
    ensures Times(path, requests + [last]) == Times(path, requests) + if last == path then 1 else 0
  {
    assert (requests + [last])[..|requests|] == requests;
  }

  /** A path may have been asked for once more than the connection was lost, and then its icon is
      known, known to be missing, or on its way. */
  predicate AskedOnce(s: Icons, path: string, losses: nat) {
    Times(path, s.requests) <= losses + if Known(s, path) || path in s.inFlight then 1 else 0
  }

  lemma TakenAsksOnce(s: Icons, path: string, losses: nat)
    requires s.queue != [] && AskedOnce(s, path, losses)
    ensures AskedOnce(Taken(s), path, losses)
  {
    hide Times;
    TimesOneMore(path, s.requests, s.queue[0]);
  }

  lemma {:induction false} ProcessAsksOnce(s: Icons, enabled: bool, path: string, losses: nat)
    requires AskedOnce(s, path, losses)
    ensures AskedOnce(Process(s, enabled), path, losses)
    decreases |s.queue|
  {
    hide Taken, AskedOnce;
    if enabled && s.queue != [] && |s.inFlight| < MAX_ICON_REQUESTS_IN_FLIGHT {
      TakenAsksOnce(s, path, losses);
      TakenShortens(s);
      ProcessAsksOnce(Taken(s), enabled, path, losses);
    }
  }

  function Losses(events: seq<(Event, bool)>): nat {
    if events == [] then 0 else (if events[0].0.Disconnect? then 1 else 0) + Losses(events[1..])
  }

  lemma StepAsksOnce(s: Icons, e: Event, enabled: bool, path: string, losses: nat)
    requires AskedOnce(s, path, losses)
    ensures AskedOnce(Step(s, e, enabled), path, losses + if e.Disconnect? then 1 else 0)
  {
    hide RemotePath.Normalize, Process, Times;
    match e
    case Want(remotePath) =>
      var wanted := RemotePath.Normalize(remotePath);
      if wanted != "" && wanted in s.lookup {
        ProcessAsksOnce(QueueRequest(s, wanted, s.lookup[wanted]), enabled, path, losses);
      }
    case Answer(answered, success, icon) =>
      if answered != "" {
        var landed := s.(inFlight := s.inFlight - {answered});
        ProcessAsksOnce(
          if success && icon != "" then
            landed.(without := s.without - {answered}, sources := s.sources[answered := icon])
          else landed.(without := s.without + {answered}),
          enabled, path, losses);
      }
    case List(entries) =>
    case Disconnect =>
  }

  /** Over any run the icon of a path is asked for at most once between losses of the connection. */
  lemma {:induction false} RunAsksOnce(s: Icons, events: seq<(Event, bool)>, path: string, losses: nat)
    requires AskedOnce(s, path, losses)
    ensures AskedOnce(Run(s, events), path, losses + Losses(events))
    ensures Times(path, Run(s, events).requests) <= losses + Losses(events) + 1
    decreases |events|
  {
    hide Step, Times, Known;
    if events != [] {
      var more := if events[0].0.Disconnect? then 1 else 0;
      StepAsksOnce(s, events[0].0, events[0].1, path, losses);
      RunAsksOnce(Step(s, events[0].0, events[0].1), events[1..], path, losses + more);
    }
  }
}
