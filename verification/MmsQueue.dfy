/** The fetching of MMS attachments in apps/desktop/src/SmsBridgeController.cpp: a queue with one
    fetch in progress and one automatic retry, the attachments it serves, and the busy flag.

    `disk` stands for GetMMSContentPath: the URLs of the attachments the module has on disk while
    one event is handled. */
module MmsQueue {

  datatype Attachment = Attachment(target: string, loading: bool, failed: bool, fileUrl: string)

  type Message = seq<Attachment>

  /** What happens to every attachment of one target. */
  datatype Change = Show(url: string) | KeepLoading | Fail

  datatype State = State(
    messages: map<string, seq<Message>>,
    cache: map<string, string>,
    requested: set<string>,
    retried: set<string>,
    waiting: seq<string>,
    active: string,
    fetches: seq<string>,
    contactsRefreshing: bool,
    messageFetches: set<string>,
    sending: map<string, string>,
    busy: bool)

  function Changed(a: Attachment, target: string, c: Change): Attachment {
    if a.target != target then a
    else match c
      case Show(url) => a.(loading := false, failed := false, fileUrl := url)
      case KeepLoading => a.(loading := true, failed := false)
      case Fail => a.(loading := false, failed := true, fileUrl := "")
  }

  function MessageChanged(m: Message, target: string, c: Change): (r: Message)
    ensures |r| == |m|
  {
    seq(|m|, i requires 0 <= i < |m| => Changed(m[i], target, c))
  }

  function ConversationChanged(ms: seq<Message>, target: string, c: Change): (r: seq<Message>)
    ensures |r| == |ms|
  {
    seq(|ms|, i requires 0 <= i < |ms| => MessageChanged(ms[i], target, c))
  }

  function AllChanged(messages: map<string, seq<Message>>, target: string, c: Change): map<string, seq<Message>> {
    map key | key in messages :: ConversationChanged(messages[key], target, c)
  }

  predicate IsBusy(s: State) {
    s.contactsRefreshing || s.messageFetches != {} || s.sending != map[] || s.waiting != [] || s.active != ""
  }

  function UpdateBusy(s: State): State {
    s.(busy := IsBusy(s))
  }

  function StartNext(s: State): State {
    if s.active != "" || s.waiting == [] then s
    else s.(active := s.waiting[0], waiting := s.waiting[1..], fetches := s.fetches + [s.waiting[0]])
  }

  /** useCachedMmsContent, whose answer is whether the target is in the cache afterwards. */
  function UseCached(s: State, target: string, disk: map<string, string>): State {
    if target == "" || target in s.cache || target !in disk || disk[target] == "" then s
    else s.(cache := s.cache[target := disk[target]])
  }

  function Queue(s: State, target: string, disk: map<string, string>): State {
    if target == "" || target in s.requested then s
    else
      var c := UseCached(s, target, disk);
      if target in c.cache then c.(messages := AllChanged(c.messages, target, Show(c.cache[target])))
      else StartNext(UpdateBusy(c.(requested := c.requested + {target}, waiting := c.waiting + [target])))
  }

  function WithCache(m: Message, cache: map<string, string>): (r: Message)
    ensures |r| == |m|
  {
    seq(|m|, i requires 0 <= i < |m| =>
      if m[i].target in cache then Changed(m[i], m[i].target, Show(cache[m[i].target])) else m[i])
  }

  function AllWithCache(ms: seq<Message>, cache: map<string, string>): (r: seq<Message>)
    ensures |r| == |ms|
  {
    seq(|ms|, i requires 0 <= i < |ms| => WithCache(ms[i], cache))
  }

  predicate NeedsFetch(s: State, a: Attachment) {
    a.target != "" && a.loading && a.fileUrl == "" && a.target !in s.requested
  }

  function RequestOne(s: State, a: Attachment, disk: map<string, string>): (State, Attachment) {
    if !NeedsFetch(s, a) then (s, a)
    else
      var c := UseCached(s, a.target, disk);
      if a.target in c.cache then (c, Changed(a, a.target, Show(c.cache[a.target])))
      else (Queue(c, a.target, disk), a)
  }

  function RequestMessage(s: State, m: Message, disk: map<string, string>): (State, Message)
    decreases |m|
  {
    if m == [] then (s, [])
    else
      var (s1, a) := RequestOne(s, m[0], disk);
      var (s2, rest) := RequestMessage(s1, m[1..], disk);
      (s2, [a] + rest)
  }

  function RequestAll(s: State, ms: seq<Message>, disk: map<string, string>): (State, seq<Message>)
    decreases |ms|
  {
    if ms == [] then (s, [])
    else
      var (s1, m) := RequestMessage(s, ms[0], disk);
      var (s2, rest) := RequestAll(s1, ms[1..], disk);
      (s2, [m] + rest)
  }

  function Parsed(targets: seq<string>): (m: Message)
    ensures |m| == |targets|
  {
    seq(|targets|, i requires 0 <= i < |targets| => Attachment(targets[i], true, false, ""))
  }

  function AllParsed(targets: seq<seq<string>>): (ms: seq<Message>)
    ensures |ms| == |targets|
  {
    seq(|targets|, i requires 0 <= i < |targets| => Parsed(targets[i]))
  }

  // ---------------------------------------------------------------------------------------
  // The handlers
  // ---------------------------------------------------------------------------------------

  /** The messages of a conversation arrive; `targets` are the attachments of each of them. */
  function MessagesFetched(s: State, key: string, targets: seq<seq<string>>, disk: map<string, string>): State {
    var landed := UpdateBusy(s.(messageFetches := s.messageFetches - {key}));
    var (next, messages) := RequestAll(landed, AllWithCache(AllParsed(targets), landed.cache), disk);
    next.(messages := next.messages[key := messages])
  }

  /** The change that a reply for `target` makes to its attachments; an empty url is a failure. */
  function ReplyChange(s: State, target: string, url: string): Change {
    if url != "" then Show(url)
    else if target in s.cache then Show(s.cache[target])
    else if target != "" && target !in s.retried then KeepLoading
    else Fail
  }

  function ContentReceived(s: State, target: string, url: string, disk: map<string, string>): State {
    var idle := s.(active := if s.active == target then "" else s.active, requested := s.requested - {target});
    var next :=
      if url != "" then idle.(retried := s.retried - {target}, cache := s.cache[target := url])
      else if ReplyChange(s, target, url).KeepLoading? then
        Queue(idle.(retried := s.retried + {target}), target, disk)
      else idle;
    UpdateBusy(StartNext(next.(messages := AllChanged(next.messages, target, ReplyChange(s, target, url)))))
  }

  /** A message without attachments is put first, when one is sent or received. */
  function Prepend(s: State, key: string): State {
    s.(messages := s.messages[key := [[]] + if key in s.messages then s.messages[key] else []])
  }

  function Clear(s: State): State {
    UpdateBusy(State(map[], map[], {}, {}, [], "", s.fetches, false, {}, map[], s.busy))
  }

  datatype Event =
    | RefreshContacts
    | ContactsLoaded
    | FetchMessages(key: string)
    | Messages(key: string, targets: seq<seq<string>>)
    | Send(id: string, key: string)
    | SendDone(id: string)
    | NewSms(key: string)
    | Content(target: string, url: string)
    | Cleared

  function Step(s: State, e: Event, disk: map<string, string>): State {
    match e
    case RefreshContacts => UpdateBusy(s.(contactsRefreshing := true))
    case ContactsLoaded => UpdateBusy(s.(contactsRefreshing := false))
    case FetchMessages(key) => UpdateBusy(s.(messageFetches := s.messageFetches + {key}))
    case Messages(key, targets) => MessagesFetched(s, key, targets, disk)
    case Send(id, key) => UpdateBusy(Prepend(s, key).(sending := s.sending[id := key]))
    case SendDone(id) => UpdateBusy(s.(sending := s.sending - {id}))
    case NewSms(key) => Prepend(s, key)
    case Content(target, url) => ContentReceived(s, target, url, disk)
    case Cleared => Clear(s)
  }

  // ---------------------------------------------------------------------------------------
  // The queue is never stuck
  // ---------------------------------------------------------------------------------------

  /** Every requested target is being fetched or waiting. */
  predicate OnTheWay(s: State) {
    && (forall t <- s.requested :: t == s.active || t in s.waiting)
    && "" !in s.waiting && "" !in s.requested
  }

  /** Besides, nothing waits while nothing is fetched,
      and the busy flag says what it should. */
  predicate Flowing(s: State) {
    && OnTheWay(s)
    && (s.active == "" ==> s.waiting == [])
    && s.busy == IsBusy(s)
  }

  lemma QueueFlows(s: State, target: string, disk: map<string, string>)
    requires Flowing(s)
    ensures Flowing(Queue(s, target, disk))
  {
    hide AllChanged;
    if target != "" && target !in s.requested {
      var c := UseCached(s, target, disk);
      if target !in c.cache {
        StartFlows(UpdateBusy(c.(requested := c.requested + {target}, waiting := c.waiting + [target])));
      }
    }
  }

  /** Like Flowing, but a fetch may still have to be started. */
  lemma StartFlows(s: State)
    requires OnTheWay(s) && s.busy == IsBusy(s)
    ensures Flowing(StartNext(s))
  {
    if s.active == "" && s.waiting != [] {
      assert s.waiting == [s.waiting[0]] + s.waiting[1..];
      assert s.waiting[0] in s.waiting;
    }
  }

  lemma RequestOneFlows(s: State, a: Attachment, disk: map<string, string>)
    requires Flowing(s)
    ensures Flowing(RequestOne(s, a, disk).0)
  {
    hide Queue;
    QueueFlows(UseCached(s, a.target, disk), a.target, disk);
  }

  lemma {:induction false} RequestMessageFlows(s: State, m: Message, disk: map<string, string>)
    requires Flowing(s)
    ensures Flowing(RequestMessage(s, m, disk).0)
    decreases |m|
  {
    hide RequestOne, Flowing;
    if m != [] {
      RequestOneFlows(s, m[0], disk);
      RequestMessageFlows(RequestOne(s, m[0], disk).0, m[1..], disk);
    }
  }

  lemma {:induction false} RequestAllFlows(s: State, ms: seq<Message>, disk: map<string, string>)
    requires Flowing(s)
    ensures Flowing(RequestAll(s, ms, disk).0)
    decreases |ms|
  {
    hide RequestMessage, Flowing;
    if ms != [] {
      RequestMessageFlows(s, ms[0], disk);
      RequestAllFlows(RequestMessage(s, ms[0], disk).0, ms[1..], disk);
    }
  }

  /** Queue, called while a reply is handled and the fetch it answers has just ended. */
  lemma RetryFlows(s: State, target: string, disk: map<string, string>)
    requires OnTheWay(s)
    ensures OnTheWay(Queue(s, target, disk))
  {
    hide AllChanged;
    if target != "" && target !in s.requested {
      var c := UseCached(s, target, disk);
      if target !in c.cache {
        StartFlows(UpdateBusy(c.(requested := c.requested + {target}, waiting := c.waiting + [target])));
      }
    }
  }

  lemma ContentFlows(s: State, target: string, url: string, disk: map<string, string>)
    requires Flowing(s)
    ensures Flowing(ContentReceived(s, target, url, disk))
  {
    hide AllChanged, Queue;
    var idle := s.(active := if s.active == target then "" else s.active, requested := s.requested - {target});
    var next :=
      if url != "" then idle.(retried := s.retried - {target}, cache := s.cache[target := url])
      else if ReplyChange(s, target, url).KeepLoading? then
        Queue(idle.(retried := s.retried + {target}), target, disk)
      else idle;
    RetryFlows(idle.(retried := s.retried + {target}), target, disk);
    var changed := next.(messages := AllChanged(next.messages, target, ReplyChange(s, target, url)));
    StartFlows(UpdateBusy(changed));
    assert UpdateBusy(StartNext(changed)) == StartNext(UpdateBusy(changed));
  }

  lemma StepFlows(s: State, e: Event, disk: map<string, string>)
    requires Flowing(s)
    ensures Flowing(Step(s, e, disk))
  {
    hide ContentReceived, RequestAll;
    match e
    case Messages(key, targets) =>
      var landed := UpdateBusy(s.(messageFetches := s.messageFetches - {key}));
      RequestAllFlows(landed, AllWithCache(AllParsed(targets), landed.cache), disk);
    case Content(target, url) => ContentFlows(s, target, url, disk);
    case _ =>
  }

  // ---------------------------------------------------------------------------------------
  // No attachment is stuck loading, and when one is
  // ---------------------------------------------------------------------------------------

  predicate MessageLive(m: Message, requested: set<string>) {
    forall i :: 0 <= i < |m| && m[i].loading ==> m[i].target in requested
  }

  predicate ConversationLive(ms: seq<Message>, requested: set<string>) {
    forall i :: 0 <= i < |ms| ==> MessageLive(ms[i], requested)
  }

  /** Every attachment that is shown as loading has been requested. */
  predicate Live(s: State) {
    forall key <- s.messages :: ConversationLive(s.messages[key], s.requested)
  }

  predicate HasTarget(m: Message, target: string) {
    exists i :: 0 <= i < |m| && m[i].target == target
  }

  predicate AnyHasTarget(messages: map<string, seq<Message>>, target: string) {
    exists key, i :: key in messages && 0 <= i < |messages[key]| && HasTarget(messages[key][i], target)
  }

  lemma ChangedLive(ms: seq<Message>, requested: set<string>, target: string, c: Change)
    requires ConversationLive(ms, requested)
    ensures !c.KeepLoading? ==> ConversationLive(ConversationChanged(ms, target, c), requested - {target})
    ensures c.KeepLoading? ==> ConversationLive(ConversationChanged(ms, target, c), requested + {target})
  {
    forall i | 0 <= i < |ms|
      ensures MessageLive(MessageChanged(ms[i], target, c),
        if c.KeepLoading? then requested + {target} else requested - {target})
    {
      assert MessageLive(ms[i], requested);
    }
  }

  lemma MoreLive(ms: seq<Message>, requested: set<string>, more: set<string>)
    requires ConversationLive(ms, requested) && requested <= more
    ensures ConversationLive(ms, more)
  {
    forall i | 0 <= i < |ms| ensures MessageLive(ms[i], more) {
      assert MessageLive(ms[i], requested);
    }
  }

  lemma AllChangedLive(messages: map<string, seq<Message>>, requested: set<string>, target: string, c: Change,
      after: set<string>)
    requires forall key <- messages :: ConversationLive(messages[key], requested)
    requires requested - {target} <= after && (c.KeepLoading? ==> target in after)
    ensures forall key <- AllChanged(messages, target, c) ::
      ConversationLive(AllChanged(messages, target, c)[key], after)
  {
    var changed := AllChanged(messages, target, c);
    forall key <- changed ensures ConversationLive(changed[key], after) {
      assert ConversationLive(messages[key], requested);
      ChangedLive(messages[key], requested, target, c);
      hide ConversationLive, ConversationChanged;
      MoreLive(changed[key], if c.KeepLoading? then requested + {target} else requested - {target}, after);
    }
  }

  lemma RequestOneLive(s: State, a: Attachment, disk: map<string, string>)
    requires a.loading ==> a.target != "" && a.fileUrl == ""
    ensures var (next, b) := RequestOne(s, a, disk);
      next.messages == s.messages && s.requested <= next.requested && (b.loading ==> b.target in next.requested)
  {
    hide AllChanged;
    var c := UseCached(s, a.target, disk);
    if NeedsFetch(s, a) && a.target !in c.cache {
      assert UseCached(c, a.target, disk) == c;
    }
  }

  /** Newly parsed attachments, some of them already taken from the cache. */
  predicate Fresh(m: Message) {
    forall i :: 0 <= i < |m| && m[i].loading ==> m[i].target != "" && m[i].fileUrl == ""
  }

  lemma {:induction false} RequestMessageLive(s: State, m: Message, disk: map<string, string>)
    requires Fresh(m)
    ensures var (next, r) := RequestMessage(s, m, disk);
      next.messages == s.messages && s.requested <= next.requested && MessageLive(r, next.requested)
    decreases |m|
  {
    hide RequestOne;
    if m != [] {
      RequestOneLive(s, m[0], disk);
      var s1 := RequestOne(s, m[0], disk).0;
      assert forall i :: 0 <= i < |m[1..]| ==> m[1..][i] == m[i + 1];
      RequestMessageLive(s1, m[1..], disk);
    }
  }

  lemma {:induction false} RequestAllLive(s: State, ms: seq<Message>, disk: map<string, string>)
    requires forall i :: 0 <= i < |ms| ==> Fresh(ms[i])
    ensures var (next, r) := RequestAll(s, ms, disk);
      next.messages == s.messages && s.requested <= next.requested && ConversationLive(r, next.requested)
    decreases |ms|
  {
    hide RequestMessage, MessageLive, Fresh;
    if ms != [] {
      RequestMessageLive(s, ms[0], disk);
      var (s1, m) := RequestMessage(s, ms[0], disk);
      assert forall i :: 0 <= i < |ms[1..]| ==> ms[1..][i] == ms[i + 1];
      RequestAllLive(s1, ms[1..], disk);
      var (s2, rest) := RequestAll(s1, ms[1..], disk);
      MoreLive([m], s1.requested, s2.requested);
      assert MessageLive([m][0], s2.requested);
    }
  }

  lemma MessagesFetchedLive(s: State, key: string, targets: seq<seq<string>>, disk: map<string, string>)
    requires Live(s) && forall i, j :: 0 <= i < |targets| && 0 <= j < |targets[i]| ==> targets[i][j] != ""
    ensures Live(MessagesFetched(s, key, targets, disk))
  {
    var landed := UpdateBusy(s.(messageFetches := s.messageFetches - {key}));
    var ms := AllWithCache(AllParsed(targets), landed.cache);
    forall i | 0 <= i < |ms| ensures Fresh(ms[i]) {
      assert ms[i] == WithCache(Parsed(targets[i]), landed.cache);
    }
    RequestAllLive(landed, ms, disk);
    hide RequestAll, AllWithCache, AllParsed, ConversationLive;
    var (next, messages) := RequestAll(landed, ms, disk);
    forall other <- s.messages ensures ConversationLive(s.messages[other], next.requested) {
      MoreLive(s.messages[other], s.requested, next.requested);
    }
  }

  /** A failed reply for an attachment that is not in the cache and has not been retried, although
      the module has it on disk by now. */
  predicate Sticks(s: State, target: string, url: string, disk: map<string, string>) {
    && url == "" && ReplyChange(s, target, url).KeepLoading?
    && target in disk && disk[target] != "" && AnyHasTarget(s.messages, target)
  }

  /** What handling a reply comes to: which attachments change how, and what is requested then. */
  lemma ContentReceivedMeans(s: State, target: string, url: string, disk: map<string, string>)
    ensures var t, c := ContentReceived(s, target, url, disk), ReplyChange(s, target, url);
      && t.requested == s.requested - {target} +
           (if c.KeepLoading? && (target !in disk || disk[target] == "") then {target} else {})
      && (c.KeepLoading? && target in disk && disk[target] != "" ==>
           t.messages == AllChanged(AllChanged(s.messages, target, Show(disk[target])), target, c))
      && (!(c.KeepLoading? && target in disk && disk[target] != "") ==> t.messages == AllChanged(s.messages, target, c))
  {
    hide AllChanged, Queue, UseCached, IsBusy;
    if ReplyChange(s, target, url).KeepLoading? {
      var idle := s.(active := if s.active == target then "" else s.active, requested := s.requested - {target},
                     retried := s.retried + {target});
      QueueMeans(idle, target, disk);
    }
  }

  lemma QueueMeans(s: State, target: string, disk: map<string, string>)
    requires target != "" && target !in s.requested && target !in s.cache
    ensures var q := Queue(s, target, disk);
      if target in disk && disk[target] != "" then
        q.requested == s.requested && q.messages == AllChanged(s.messages, target, Show(disk[target]))
      else q.requested == s.requested + {target} && q.messages == s.messages
  {
    hide AllChanged, IsBusy;
  }

  lemma StaysLoading(messages: map<string, seq<Message>>, target: string, requested: set<string>)
    requires AnyHasTarget(messages, target) && target !in requested
    ensures var after := AllChanged(messages, target, KeepLoading);
      exists key :: key in after && !ConversationLive(after[key], requested)
  {
    var key, i :| key in messages && 0 <= i < |messages[key]| && HasTarget(messages[key][i], target);
    var j :| 0 <= j < |messages[key][i]| && messages[key][i][j].target == target;
    var after := AllChanged(messages, target, KeepLoading);
    var m: Message := after[key][i];
    assert m[j].loading && m[j].target == target;
    assert !MessageLive(m, requested);
  }

  lemma StillHasTarget(messages: map<string, seq<Message>>, target: string, c: Change)
    ensures AnyHasTarget(AllChanged(messages, target, c), target) <==> AnyHasTarget(messages, target)
  {
    var after := AllChanged(messages, target, c);
    forall key, i | key in messages && 0 <= i < |messages[key]|
      ensures HasTarget(after[key][i], target) <==> HasTarget(messages[key][i], target)
    {
      var m, n: Message := messages[key][i], after[key][i];
      assert n == MessageChanged(m, target, c);
      assert forall j :: 0 <= j < |m| ==> n[j].target == m[j].target;
    }
  }

  lemma NothingHasTarget(messages: map<string, seq<Message>>, target: string, c: Change)
    requires !AnyHasTarget(messages, target)
    ensures AllChanged(messages, target, c) == messages
  {
    forall key <- messages ensures ConversationChanged(messages[key], target, c) == messages[key] {
      forall i | 0 <= i < |messages[key]| ensures MessageChanged(messages[key][i], target, c) == messages[key][i] {
        var m := messages[key][i];
        assert !HasTarget(m, target);
      }
    }
  }

  lemma ContentReceivedLiveExactly(s: State, target: string, url: string, disk: map<string, string>)
    requires Live(s)
    ensures Live(ContentReceived(s, target, url, disk)) <==> !Sticks(s, target, url, disk)
  {
    ContentReceivedMeans(s, target, url, disk);
    hide ContentReceived, ConversationLive, AllChanged, AnyHasTarget;
    var t, c := ContentReceived(s, target, url, disk), ReplyChange(s, target, url);
    if c.KeepLoading? && target in disk && disk[target] != "" {
      var shown := AllChanged(s.messages, target, Show(disk[target]));
      StillHasTarget(s.messages, target, Show(disk[target]));
      AllChangedLive(s.messages, s.requested, target, Show(disk[target]), t.requested);
      if Sticks(s, target, url, disk) {
        StaysLoading(shown, target, t.requested);
      } else {
        NothingHasTarget(shown, target, c);
      }
    } else {
      AllChangedLive(s.messages, s.requested, target, c, t.requested);
    }
  }

  /** Attachments come from the parser, which never gives an empty target. */
  predicate WellFormed(e: Event) {
    e.Messages? ==> forall i, j :: 0 <= i < |e.targets| && 0 <= j < |e.targets[i]| ==> e.targets[i][j] != ""
  }

  predicate SticksAt(s: State, e: Event, disk: map<string, string>) {
    e.Content? && Sticks(s, e.target, e.url, disk)
  }

  lemma PrependLive(s: State, key: string)
    requires Live(s)
    ensures Live(Prepend(s, key))
  {
    var old_ := if key in s.messages then s.messages[key] else [];
    assert ConversationLive(old_, s.requested);
    assert forall i :: 0 < i < |[[]] + old_| ==> ([[]] + old_)[i] == old_[i - 1];
    assert MessageLive([], s.requested);
  }

  lemma StepLiveExactly(s: State, e: Event, disk: map<string, string>)
    requires Live(s) && WellFormed(e)
    ensures Live(Step(s, e, disk)) <==> !SticksAt(s, e, disk)
  {
    hide ContentReceived, MessagesFetched, ConversationLive, Sticks;
    match e
    case Messages(key, targets) => MessagesFetchedLive(s, key, targets, disk);
    case Content(target, url) => ContentReceivedLiveExactly(s, target, url, disk);
    case Send(id, key) => PrependLive(s, key);
    case NewSms(key) => PrependLive(s, key);
    case _ =>
  }

  // ---------------------------------------------------------------------------------------
  // Runs
  // ---------------------------------------------------------------------------------------

  /** An event and what is on disk while it is handled. */
  type Events = seq<(Event, map<string, string>)>

  function Run(s: State, events: Events): State
    decreases |events|
  {
    if events == [] then s else Run(Step(s, events[0].0, events[0].1), events[1..])
  }

  predicate AlwaysLive(s: State, events: Events)
    decreases |events|
  {
    Live(s) && (events != [] ==> AlwaysLive(Step(s, events[0].0, events[0].1), events[1..]))
  }

  predicate NeverSticks(s: State, events: Events)
    decreases |events|
  {
    events != [] ==>
      !SticksAt(s, events[0].0, events[0].1) && NeverSticks(Step(s, events[0].0, events[0].1), events[1..])
  }

  const NOTHING: State := State(map[], map[], {}, {}, [], "", [], false, {}, map[], false)

  lemma InitiallyFlowing()
    ensures Flowing(NOTHING) && Live(NOTHING)
  {
  }

  lemma {:induction false} RunFlows(s: State, events: Events)
    requires Flowing(s)
    ensures Flowing(Run(s, events))
    decreases |events|
  {
    hide Step, Flowing;
    if events != [] {
      StepFlows(s, events[0].0, events[0].1);
      RunFlows(Step(s, events[0].0, events[0].1), events[1..]);
    }
  }

  /** Along a run every loading attachment is requested exactly when no reply sticks. */
  lemma {:induction false} RunLiveExactly(s: State, events: Events)
    requires Live(s) && forall i :: 0 <= i < |events| ==> WellFormed(events[i].0)
    ensures AlwaysLive(s, events) <==> NeverSticks(s, events)
    decreases |events|
  {
    hide Step, Live, SticksAt, WellFormed;
    if events != [] {
      var next := Step(s, events[0].0, events[0].1);
      StepLiveExactly(s, events[0].0, events[0].1);
      if !SticksAt(s, events[0].0, events[0].1) {
        assert forall i :: 0 <= i < |events[1..]| ==> events[1..][i] == events[i + 1];
        RunLiveExactly(next, events[1..]);
      }
    }
  }

  lemma RequestAlone(s: State, a: Attachment, disk: map<string, string>)
    ensures var (next, b) := RequestOne(s, a, disk);
      RequestAll(s, [[a]], disk) == (next, [[b]])
  {
    hide RequestOne;
    var (next, b) := RequestOne(s, a, disk);
    assert RequestMessage(s, [a], disk) == (next, [b]) by {
      assert [a][1..] == [] && RequestMessage(next, [], disk) == (next, []) && [b] + [] == [b];
    }
    hide RequestMessage;
    assert [[a]][1..] == [] && RequestAll(next, [], disk) == (next, []) && [[b]] + [] == [[b]];
  }

  /** A message with one attachment arrives; its fetch fails although the file has reached the disk. */
  lemma StickExample()
    ensures SticksAt(Step(NOTHING, Messages("key", [["mms1"]]), map[]), Content("mms1", ""),
      map["mms1" := "file:///mms1"])
  {
    var a := Attachment("mms1", true, false, "");
    var ms := AllWithCache(AllParsed([["mms1"]]), map[]);
    assert ms == [[a]] by {
      assert AllParsed([["mms1"]])[0] == Parsed(["mms1"]) == [a];
      assert ms[0] == WithCache([a], map[]) == [a];
    }
    hide AllWithCache, AllParsed;
    var landed := UpdateBusy(NOTHING.(messageFetches := {} - {"key"}));
    var (s1, b) := RequestOne(landed, a, map[]);
    assert b == a && s1.cache == map[] && s1.retried == {};
    RequestAlone(landed, a, map[]);
    hide RequestAll;
    var t := Step(NOTHING, Messages("key", [["mms1"]]), map[]);
    assert t.messages["key"] == [[a]] && HasTarget(t.messages["key"][0], "mms1");
  }

  // ---------------------------------------------------------------------------------------
  // One automatic retry
  // ---------------------------------------------------------------------------------------

  predicate RetriesAt(s: State, e: Event, target: string) {
    e.Content? && e.target == target && ReplyChange(s, target, e.url).KeepLoading?
  }

  /** A success, or a new connection, allows another retry. */
  predicate RenewsAt(e: Event, target: string) {
    e.Cleared? || (e.Content? && e.target == target && e.url != "")
  }

  function Retries(s: State, events: Events, target: string): nat
    decreases |events|
  {
    if events == [] then 0
    else
      (if RetriesAt(s, events[0].0, target) then 1 else 0)
      + Retries(Step(s, events[0].0, events[0].1), events[1..], target)
  }

  function Renewals(events: Events, target: string): nat {
    if events == [] then 0 else (if RenewsAt(events[0].0, target) then 1 else 0) + Renewals(events[1..], target)
  }

  lemma RequestKeepsRetried(s: State, ms: seq<Message>, disk: map<string, string>)
    ensures RequestAll(s, ms, disk).0.retried == s.retried
    decreases |ms|
  {
    hide RequestMessage;
    if ms != [] {
      RequestMessageKeepsRetried(s, ms[0], disk);
      RequestKeepsRetried(RequestMessage(s, ms[0], disk).0, ms[1..], disk);
    }
  }

  lemma RequestMessageKeepsRetried(s: State, m: Message, disk: map<string, string>)
    ensures RequestMessage(s, m, disk).0.retried == s.retried
    decreases |m|
  {
    hide AllChanged, IsBusy;
    if m != [] {
      assert RequestOne(s, m[0], disk).0.retried == s.retried;
      hide RequestOne;
      RequestMessageKeepsRetried(RequestOne(s, m[0], disk).0, m[1..], disk);
    }
  }

  lemma ContentKeepsRetried(s: State, target: string, url: string, disk: map<string, string>)
    ensures ContentReceived(s, target, url, disk).retried ==
      if url != "" then s.retried - {target}
      else if ReplyChange(s, target, url).KeepLoading? then s.retried + {target}
      else s.retried
  {
    hide AllChanged, IsBusy, Queue;
    var idle := s.(active := if s.active == target then "" else s.active, requested := s.requested - {target},
                   retried := s.retried + {target});
    QueueKeepsRetried(idle, target, disk);
  }

  lemma QueueKeepsRetried(s: State, target: string, disk: map<string, string>)
    ensures Queue(s, target, disk).retried == s.retried
  {
    hide AllChanged, IsBusy;
  }

  lemma StepRetries(s: State, e: Event, disk: map<string, string>, target: string)
    ensures target in Step(s, e, disk).retried <==>
      !RenewsAt(e, target) && (target in s.retried || RetriesAt(s, e, target))
  {
    hide IsBusy, RequestAll, AllWithCache, AllParsed, ContentReceived;
    if e.Content? {
      ContentKeepsRetried(s, e.target, e.url, disk);
    } else if e.Messages? {
      var landed := UpdateBusy(s.(messageFetches := s.messageFetches - {e.key}));
      RequestKeepsRetried(landed, AllWithCache(AllParsed(e.targets), landed.cache), disk);
    }
  }

  /** Over any run a target is retried at most once between successes and new connections. */
  lemma {:induction false} OneRetry(s: State, events: Events, target: string)
    ensures Retries(s, events, target) + (if target in s.retried then 1 else 0) <= Renewals(events, target) + 1
    decreases |events|
  {
    hide Step;
    if events != [] {
      StepRetries(s, events[0].0, events[0].1, target);
      OneRetry(Step(s, events[0].0, events[0].1), events[1..], target);
    }
  }
}
