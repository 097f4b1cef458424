/** What the icon requests of apps/desktop/src/FileManagerController.cpp come to over a run: which
    icon a file has, in what order icons are asked for, and that no wish is lost. */
module IconAnswers {
  import RemotePath
  import opened IconQueue
  import opened Subsequences

  type Events = seq<(Event, bool)>

  lemma RunLast(s: Icons, events: Events)
    requires events != []
    ensures var last := events[|events| - 1]; Run(s, events) == Step(Run(s, events[..|events| - 1]), last.0, last.1)
    decreases |events|
  {
    hide Step;
    if |events| > 1 {
      RunLast(Step(s, events[0].0, events[0].1), events[1..]);
      assert events[1..][..|events| - 2] == events[..|events| - 1][1..];
    }
  }

  // ---------------------------------------------------------------------------------------
  // The icon of a file
  // ---------------------------------------------------------------------------------------

  const NOTHING: Icons := Icons([], {}, {}, map[], {}, map[], [])

  predicate Succeeds(e: Event) {
    e.Answer? && e.success && e.icon != ""
  }

  /** The icon in the last answer for the path that has one, or "". */
  function LastIcon(events: Events, path: string): string {
    if events == [] then ""
    else
      var e := events[|events| - 1].0;
      if Succeeds(e) && e.path == path then e.icon else LastIcon(events[..|events| - 1], path)
  }

  /** The last answer for the path has no icon. */
  predicate LastFails(events: Events, path: string) {
    events != [] &&
    var e := events[|events| - 1].0;
    if e.Answer? && e.path == path then !Succeeds(e) else LastFails(events[..|events| - 1], path)
  }

  /** The sources and the set without icons after one event. */
  lemma StepReports(s: Icons, e: Event, enabled: bool)
    ensures var t := Step(s, e, enabled);
      if e.Answer? && e.path != "" then
        if Succeeds(e) then t.sources == s.sources[e.path := e.icon] && t.without == s.without - {e.path}
        else t.sources == s.sources && t.without == s.without + {e.path}
      else t.sources == s.sources && t.without == s.without
  {
    hide RemotePath.Normalize, Process;
    match e
    case Want(remotePath) =>
      var path := RemotePath.Normalize(remotePath);
      if path != "" && path in s.lookup {
        ProcessKeepsReports(QueueRequest(s, path, s.lookup[path]), enabled);
      }
    case Answer(path, success, icon) =>
      var landed := s.(inFlight := s.inFlight - {path});
      ProcessKeepsReports(
        if success && icon != "" then landed.(without := s.without - {path}, sources := s.sources[path := icon])
        else landed.(without := s.without + {path}),
        enabled);
    case _ =>
  }

  lemma {:induction false} ProcessKeepsReports(s: Icons, enabled: bool)
    ensures var t := Process(s, enabled); t.sources == s.sources && t.without == s.without && t.lookup == s.lookup
    decreases |s.queue|
  {
    if enabled && s.queue != [] && |s.inFlight| < MAX_ICON_REQUESTS_IN_FLIGHT {
      ProcessKeepsReports(Taken(s), enabled);
    }
  }

  /** After any run the icon of a path is the one reported last, whatever failed afterwards, and a path
      counts as one without an icon exactly when its last answer failed. */
  lemma {:induction false} RunReports(events: Events, path: string)
    requires path != ""
    ensures var t := Run(NOTHING, events);
      && (path in t.sources <==> LastIcon(events, path) != "")
      && (path in t.sources ==> t.sources[path] == LastIcon(events, path))
      && (path in t.without <==> LastFails(events, path))
    decreases |events|
  {
    hide Step;
    if events != [] {
      var front, last := events[..|events| - 1], events[|events| - 1];
      RunReports(front, path);
      RunLast(NOTHING, events);
      hide Run;
      StepReports(Run(NOTHING, front), last.0, last.1);
    }
  }

  // ---------------------------------------------------------------------------------------
  // First wanted, first asked for
  // ---------------------------------------------------------------------------------------

  /** The paths whose icons are wanted. */
  function Wishes(events: Events): seq<string> {
    if events == [] then []
    else (if events[0].0.Want? then [RemotePath.Normalize(events[0].0.remotePath)] else []) + Wishes(events[1..])
  }

  /** What is asked for from s to t, followed by what waits then, is from `wishes` and in their order. */
  predicate Asks(s: Icons, t: Icons, wishes: seq<string>) {
    s.requests <= t.requests && Subsequence(t.requests[|s.requests|..] + t.queue, wishes)
  }

  lemma TakenAsks(s: Icons)
    requires s.queue != []
    ensures Asks(s, Taken(s), s.queue)
  {
    var t := Taken(s);
    assert s.queue == [s.queue[0]] + s.queue[1..];
    if t.requests == s.requests {
      assert t.requests[|s.requests|..] + t.queue == s.queue[1..];
      RestIsSuffix(s.queue, 1);
      SuffixIsSubsequence(s.queue[1..], s.queue);
    } else {
      assert t.requests[|s.requests|..] + t.queue == s.queue;
      RestIsSuffix(s.queue, 0);
      SuffixIsSubsequence(s.queue, s.queue);
    }
  }

  lemma NothingAsked(s: Icons, t: Icons, wishes: seq<string>)
    requires t.requests == s.requests && Subsequence(t.queue, wishes)
    ensures Asks(s, t, wishes)
  {
    assert t.requests[|s.requests|..] + t.queue == t.queue;
  }

  lemma Same(q: seq<string>)
    ensures Subsequence(q, q)
  {
    RestIsSuffix(q, 0);
    SuffixIsSubsequence(q, q);
  }

  lemma AsksOn(s: Icons, m: Icons, t: Icons, wishes: seq<string>, more: seq<string>)
    requires Asks(s, m, wishes) && Asks(m, t, m.queue + more)
    ensures Asks(s, t, wishes + more)
  {
    hide Subsequence;
    var first, second := m.requests[|s.requests|..], t.requests[|m.requests|..];
    assert t.requests[|s.requests|..] + t.queue == first + (second + t.queue);
    SubsequenceAfter(first, second + t.queue, m.queue + more);
    assert first + (m.queue + more) == (first + m.queue) + more;
    SubsequenceBefore(first + m.queue, wishes, more);
    SubsequenceTransitive(t.requests[|s.requests|..] + t.queue, first + m.queue + more, wishes + more);
  }

  lemma {:induction false} ProcessAsks(s: Icons, enabled: bool)
    ensures Asks(s, Process(s, enabled), s.queue)
    decreases |s.queue|
  {
    hide Taken, Asks;
    if enabled && s.queue != [] && |s.inFlight| < MAX_ICON_REQUESTS_IN_FLIGHT {
      TakenAsks(s);
      TakenShortens(s);
      ProcessAsks(Taken(s), enabled);
      assert Taken(s).queue + [] == Taken(s).queue && s.queue + [] == s.queue;
      AsksOn(s, Taken(s), Process(Taken(s), enabled), s.queue, []);
    } else {
      Same(s.queue);
      NothingAsked(s, s, s.queue);
    }
  }

  lemma ThenProcess(s: Icons, m: Icons, enabled: bool, wishes: seq<string>)
    requires m.requests == s.requests && Subsequence(m.queue, wishes)
    ensures Asks(s, Process(m, enabled), wishes)
  {
    hide Subsequence, Process;
    NothingAsked(s, m, wishes);
    ProcessAsks(m, enabled);
    assert m.queue + [] == m.queue && wishes + [] == wishes;
    AsksOn(s, m, Process(m, enabled), wishes, []);
  }

  lemma StepAsks(s: Icons, e: Event, enabled: bool)
    ensures Asks(s, Step(s, e, enabled), s.queue + Wishes([(e, enabled)]))
  {
    hide RemotePath.Normalize, Process, Asks, Wishes;
    Same(s.queue);
    match e
    case Want(remotePath) =>
      var path := RemotePath.Normalize(remotePath);
      OneWish(e, enabled);
      SuffixIsSubsequence([], [path]);
      SubsequenceAfter(s.queue, [], [path]);
      assert s.queue + [] == s.queue;
      Same(s.queue + [path]);
      hide Subsequence;
      if path != "" && path in s.lookup {
        ThenProcess(s, QueueRequest(s, path, s.lookup[path]), enabled, s.queue + [path]);
      } else {
        NothingAsked(s, s, s.queue + [path]);
      }
    case Answer(path, success, icon) =>
      OneWish(e, enabled);
      assert s.queue + [] == s.queue;
      hide Subsequence;
      if path == "" {
        NothingAsked(s, s, s.queue);
      } else {
        var landed := s.(inFlight := s.inFlight - {path});
        ThenProcess(s,
          if success && icon != "" then landed.(without := s.without - {path}, sources := s.sources[path := icon])
          else landed.(without := s.without + {path}),
          enabled, s.queue);
      }
    case _ =>
      OneWish(e, enabled);
      assert s.queue + [] == s.queue;
      NothingAsked(s, Step(s, e, enabled), s.queue);
  }

  lemma OneWish(e: Event, enabled: bool)
    ensures Wishes([(e, enabled)]) == if e.Want? then [RemotePath.Normalize(e.remotePath)] else []
  {
    assert Wishes([(e, enabled)][1..]) == [];
  }

  /** Over any run icons are asked for in the order in which they were wanted. */
  lemma {:induction false} RunAsksInOrder(s: Icons, events: Events)
    ensures Asks(s, Run(s, events), s.queue + Wishes(events))
    decreases |events|
  {
    hide Step, Asks, RemotePath.Normalize;
    if events == [] {
      Same(s.queue);
      assert s.queue + [] == s.queue;
      NothingAsked(s, s, s.queue);
    } else {
      var (e, enabled) := events[0];
      StepAsks(s, e, enabled);
      OneWish(e, enabled);
      var next := Step(s, e, enabled);
      RunAsksInOrder(next, events[1..]);
      AsksOn(s, next, Run(next, events[1..]), s.queue + Wishes([(e, enabled)]), Wishes(events[1..]));
      assert s.queue + Wishes(events) == s.queue + Wishes([(e, enabled)]) + Wishes(events[1..]);
    }
  }

  // ---------------------------------------------------------------------------------------
  // No wish is lost
  // ---------------------------------------------------------------------------------------

  /** The path is waiting or has been asked for, or there is nothing to be asked: it is known, or not
      a file of the folder. */
  predicate Heeded(s: Icons, path: string) {
    path in s.queue || path in s.inFlight || Known(s, path) || path !in s.lookup || s.lookup[path]
  }

  /** What is on its way has been asked for. */
  predicate Asked(s: Icons) {
    forall path <- s.inFlight :: path in s.requests
  }

  lemma TakenHeeds(s: Icons, path: string)
    requires s.queue != []
    ensures Heeded(s, path) ==> Heeded(Taken(s), path)
    ensures Asked(s) ==> Asked(Taken(s))
  {
    assert s.queue == [s.queue[0]] + s.queue[1..];
  }

  lemma {:induction false} ProcessHeeds(s: Icons, enabled: bool, path: string)
    ensures Heeded(s, path) ==> Heeded(Process(s, enabled), path)
    ensures Asked(s) ==> Asked(Process(s, enabled))
    decreases |s.queue|
  {
    hide Taken, Heeded, Asked;
    if enabled && s.queue != [] && |s.inFlight| < MAX_ICON_REQUESTS_IN_FLIGHT {
      TakenHeeds(s, path);
      TakenShortens(s);
      ProcessHeeds(Taken(s), enabled, path);
    }
  }

  /** A wish is heeded, and stays so in the folder while the connection lasts. */
  lemma StepHeeds(s: Icons, e: Event, enabled: bool, path: string)
    requires Consistent(s)
    ensures Asked(s) ==> Asked(Step(s, e, enabled))
    ensures e.Want? && path == RemotePath.Normalize(e.remotePath) != "" ==> Heeded(Step(s, e, enabled), path)
    ensures Heeded(s, path) && (e.Want? || e.Answer?) ==> Heeded(Step(s, e, enabled), path)
  {
    hide RemotePath.Normalize, Process;
    match e
    case Want(remotePath) =>
      var wanted := RemotePath.Normalize(remotePath);
      if wanted != "" && wanted in s.lookup {
        ProcessHeeds(QueueRequest(s, wanted, s.lookup[wanted]), enabled, path);
      }
    case Answer(answered, success, icon) =>
      if answered != "" {
        var landed := s.(inFlight := s.inFlight - {answered});
        ProcessHeeds(
          if success && icon != "" then
            landed.(without := s.without - {answered}, sources := s.sources[answered := icon])
          else landed.(without := s.without + {answered}),
          enabled, path);
      }
    case _ =>
  }

  /** After any run in one folder and with one connection, every file whose icon was wanted is waiting,
      has been asked for, or has been answered. */
  lemma {:induction false} RunHeeds(s: Icons, events: Events, path: string)
    requires Consistent(s) && Asked(s) && path != "" && (Heeded(s, path) || path in Wishes(events))
    requires forall i :: 0 <= i < |events| ==> events[i].0.Want? || events[i].0.Answer?
    ensures Heeded(Run(s, events), path) && Asked(Run(s, events))
    decreases |events|
  {
    hide Step, Heeded, Asked, Consistent, RemotePath.Normalize;
    if events != [] {
      var (e, enabled) := events[0];
      StepHeeds(s, e, enabled, path);
      StepKeeps(s, e, enabled);
      assert forall i :: 0 <= i < |events[1..]| ==> events[1..][i] == events[i + 1];
      RunHeeds(Step(s, e, enabled), events[1..], path);
    }
  }
}
