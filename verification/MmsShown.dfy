/** What the attachments of apps/desktop/src/SmsBridgeController.cpp show, in what order they are fetched,
    and when the controller is busy. */
module MmsShown {
  import opened MmsQueue

  // ---------------------------------------------------------------------------------------
  // What a reply does to each attachment
  // ---------------------------------------------------------------------------------------

  predicate OnDisk(target: string, disk: map<string, string>) {
    target in disk && disk[target] != ""
  }

  /** The attachment `a` after a reply for `target`: with a URL it is shown; without one it is shown from
      the cache, or tried once more, or it has failed. */
  predicate Answered(a: Attachment, b: Attachment, s: State, target: string, url: string, disk: map<string, string>) {
    if a.target != target then b == a
    else if url != "" then b == Attachment(target, false, false, url)
    else if target in s.cache then b == Attachment(target, false, false, s.cache[target])
    else if target != "" && target !in s.retried then
      b == Attachment(target, true, false, if OnDisk(target, disk) then disk[target] else a.fileUrl)
    else b == Attachment(target, false, true, "")
  }

  /** A reply changes exactly the attachments of its target, in all conversations. */
  lemma ReplyMeans(s: State, target: string, url: string, disk: map<string, string>)
    ensures var t := ContentReceived(s, target, url, disk);
      && t.messages.Keys == s.messages.Keys
      && forall key <- s.messages ::
           && |t.messages[key]| == |s.messages[key]|
           && forall i :: 0 <= i < |s.messages[key]| ==>
                && |t.messages[key][i]| == |s.messages[key][i]|
                && forall j :: 0 <= j < |s.messages[key][i]| ==>
                     Answered(s.messages[key][i][j], t.messages[key][i][j], s, target, url, disk)
  {
    ContentReceivedMeans(s, target, url, disk);
    hide ContentReceived;
  }

  lemma ReplyCaches(s: State, target: string, url: string, disk: map<string, string>)
    ensures ContentReceived(s, target, url, disk).cache ==
      if url != "" then s.cache[target := url]
      else if ReplyChange(s, target, url).KeepLoading? && OnDisk(target, disk) then s.cache[target := disk[target]]
      else s.cache
  {
    hide AllChanged, IsBusy, Queue, UseCached, OnDisk;
    if ReplyChange(s, target, url).KeepLoading? {
      QueueCaches(s.(active := if s.active == target then "" else s.active, requested := s.requested - {target},
                     retried := s.retried + {target}), target, disk);
    }
  }

  lemma QueueCaches(s: State, target: string, disk: map<string, string>)
    requires target != "" && target !in s.requested && target !in s.cache
    ensures Queue(s, target, disk).cache == if OnDisk(target, disk) then s.cache[target := disk[target]] else s.cache
  {
    hide AllChanged, IsBusy;
  }

  // ---------------------------------------------------------------------------------------
  // Whatever is shown is shown from the cache
  // ---------------------------------------------------------------------------------------

  predicate Shows(a: Attachment, cache: map<string, string>) {
    !a.loading && !a.failed ==> a.target in cache && a.fileUrl == cache[a.target]
  }

  predicate MessageShows(m: Message, cache: map<string, string>) {
    forall j :: 0 <= j < |m| ==> Shows(m[j], cache)
  }

  predicate ConversationShows(ms: seq<Message>, cache: map<string, string>) {
    forall i :: 0 <= i < |ms| ==> MessageShows(ms[i], cache)
  }

  predicate NoneEmpty(cache: map<string, string>) {
    forall target <- cache :: cache[target] != ""
  }

  /** An attachment that is neither loading nor failed shows what the cache has for it, which is a URL. */
  predicate AllShown(s: State) {
    NoneEmpty(s.cache) && forall key <- s.messages :: ConversationShows(s.messages[key], s.cache)
  }

  /** The cache has not changed what it had. */
  predicate Extends(before: map<string, string>, after: map<string, string>) {
    forall target <- before :: target in after && after[target] == before[target]
  }

  lemma StillShows(ms: seq<Message>, before: map<string, string>, after: map<string, string>)
    requires ConversationShows(ms, before) && Extends(before, after)
    ensures ConversationShows(ms, after)
  {
    forall i | 0 <= i < |ms| ensures MessageShows(ms[i], after) {
      assert MessageShows(ms[i], before);
    }
  }

  lemma RequestOneShows(s: State, a: Attachment, disk: map<string, string>)
    requires NoneEmpty(s.cache) && Shows(a, s.cache)
    ensures var (next, b) := RequestOne(s, a, disk);
      && next.messages == s.messages && Extends(s.cache, next.cache) && NoneEmpty(next.cache) && Shows(b, next.cache)
  {
    hide AllChanged, IsBusy;
    var c := UseCached(s, a.target, disk);
    if NeedsFetch(s, a) && a.target !in c.cache {
      assert UseCached(c, a.target, disk) == c;
    }
  }

  lemma {:induction false} RequestMessageShows(s: State, m: Message, disk: map<string, string>)
    requires NoneEmpty(s.cache) && MessageShows(m, s.cache)
    ensures var (next, r) := RequestMessage(s, m, disk);
      && next.messages == s.messages && Extends(s.cache, next.cache) && NoneEmpty(next.cache)
      && MessageShows(r, next.cache)
    decreases |m|
  {
    hide RequestOne;
    if m != [] {
      RequestOneShows(s, m[0], disk);
      var s1 := RequestOne(s, m[0], disk).0;
      assert forall i :: 0 <= i < |m[1..]| ==> m[1..][i] == m[i + 1];
      RequestMessageShows(s1, m[1..], disk);
    }
  }

  lemma {:induction false} RequestAllShows(s: State, ms: seq<Message>, disk: map<string, string>)
    requires NoneEmpty(s.cache) && ConversationShows(ms, s.cache)
    ensures var (next, r) := RequestAll(s, ms, disk);
      && next.messages == s.messages && Extends(s.cache, next.cache) && NoneEmpty(next.cache)
      && ConversationShows(r, next.cache)
    decreases |ms|
  {
    hide RequestMessage, MessageShows, NoneEmpty;
    if ms != [] {
      RequestMessageShows(s, ms[0], disk);
      var (s1, m) := RequestMessage(s, ms[0], disk);
      assert forall i :: 0 <= i < |ms[1..]| ==> ms[1..][i] == ms[i + 1];
      StillShows(ms[1..], s.cache, s1.cache);
      RequestAllShows(s1, ms[1..], disk);
      StillShows([m], s1.cache, RequestAll(s1, ms[1..], disk).0.cache);
      assert MessageShows([m][0], RequestAll(s1, ms[1..], disk).0.cache);
    }
  }

  lemma MessagesFetchedShows(s: State, key: string, targets: seq<seq<string>>, disk: map<string, string>)
    requires AllShown(s)
    ensures AllShown(MessagesFetched(s, key, targets, disk))
  {
    var landed := UpdateBusy(s.(messageFetches := s.messageFetches - {key}));
    var ms := AllWithCache(AllParsed(targets), landed.cache);
    forall i | 0 <= i < |ms| ensures MessageShows(ms[i], s.cache) {
      assert ms[i] == WithCache(Parsed(targets[i]), landed.cache);
    }
    RequestAllShows(landed, ms, disk);
    hide RequestAll, AllWithCache, AllParsed, ConversationShows, NoneEmpty;
    var (next, messages) := RequestAll(landed, ms, disk);
    forall other <- s.messages ensures ConversationShows(s.messages[other], next.cache) {
      StillShows(s.messages[other], s.cache, next.cache);
    }
  }

  lemma ReplyShows(s: State, target: string, url: string, disk: map<string, string>)
    requires AllShown(s)
    ensures AllShown(ContentReceived(s, target, url, disk))
  {
    ReplyMeans(s, target, url, disk);
    ReplyCaches(s, target, url, disk);
    hide ContentReceived;
    var t := ContentReceived(s, target, url, disk);
    forall key <- t.messages ensures ConversationShows(t.messages[key], t.cache) {
      forall i | 0 <= i < |t.messages[key]| ensures MessageShows(t.messages[key][i], t.cache) {
        assert MessageShows(s.messages[key][i], s.cache) by { assert ConversationShows(s.messages[key], s.cache); }
      }
    }
  }

  lemma StepShows(s: State, e: Event, disk: map<string, string>)
    requires AllShown(s)
    ensures AllShown(Step(s, e, disk))
  {
    hide ContentReceived, MessagesFetched, NoneEmpty;
    match e
    case Messages(key, targets) => MessagesFetchedShows(s, key, targets, disk);
    case Content(target, url) => ReplyShows(s, target, url, disk);
    case Send(id, key) => PrependShows(s, key);
    case NewSms(key) => PrependShows(s, key);
    case Cleared => assert NoneEmpty(map[]) by { NothingEmpty(); }
    case _ =>
  }

  lemma NothingEmpty()
    ensures NoneEmpty(map[])
  {
  }

  lemma PrependShows(s: State, key: string)
    requires AllShown(s)
    ensures AllShown(Prepend(s, key))
  {
    hide NoneEmpty;
    var earlier := if key in s.messages then s.messages[key] else [];
    assert ConversationShows(earlier, s.cache);
    assert forall i :: 0 < i < |[[]] + earlier| ==> ([[]] + earlier)[i] == earlier[i - 1];
    assert MessageShows([], s.cache);
  }

  /** After any run, every attachment that is neither loading nor failed shows the URL that the cache has
      for its target. */
  lemma {:induction false} RunShows(s: State, events: Events)
    requires AllShown(s)
    ensures AllShown(Run(s, events))
    decreases |events|
  {
    hide Step, AllShown;
    if events != [] {
      StepShows(s, events[0].0, events[0].1);
      RunShows(Step(s, events[0].0, events[0].1), events[1..]);
    }
  }

  // ---------------------------------------------------------------------------------------
  // Which messages a conversation has
  // ---------------------------------------------------------------------------------------

  predicate MessageOf(m: Message, targets: seq<string>) {
    |m| == |targets| && forall j :: 0 <= j < |m| ==> m[j].target == targets[j]
  }

  /** The messages of a conversation have attachments with these targets. */
  predicate ConversationOf(ms: seq<Message>, targets: seq<seq<string>>) {
    |ms| == |targets| && forall i :: 0 <= i < |ms| ==> MessageOf(ms[i], targets[i])
  }

  /** The attachments of the messages that were fetched last, behind one message without any for each
      that was sent or received since. */
  function Conversation(events: Events, key: string): seq<seq<string>> {
    if events == [] then []
    else
      var earlier := Conversation(events[..|events| - 1], key);
      match events[|events| - 1].0
      case Messages(k, targets) => if k == key then targets else earlier
      case Send(_, k) => if k == key then [[]] + earlier else earlier
      case NewSms(k) => if k == key then [[]] + earlier else earlier
      case Cleared => []
      case _ => earlier
  }

  function MessagesOf(s: State, key: string): seq<Message> {
    if key in s.messages then s.messages[key] else []
  }

  lemma RequestOneKeepsTarget(s: State, a: Attachment, disk: map<string, string>)
    ensures RequestOne(s, a, disk).1.target == a.target && RequestOne(s, a, disk).0.messages == s.messages
  {
    hide AllChanged, IsBusy;
    var c := UseCached(s, a.target, disk);
    assert a.target !in c.cache ==> UseCached(c, a.target, disk) == c;
  }

  lemma {:induction false} RequestMessageKeepsTargets(s: State, m: Message, targets: seq<string>,
      disk: map<string, string>)
    requires MessageOf(m, targets)
    ensures MessageOf(RequestMessage(s, m, disk).1, targets) && RequestMessage(s, m, disk).0.messages == s.messages
    decreases |m|
  {
    hide RequestOne;
    if m != [] {
      RequestOneKeepsTarget(s, m[0], disk);
      RequestMessageKeepsTargets(RequestOne(s, m[0], disk).0, m[1..], targets[1..], disk);
    }
  }

  lemma {:induction false} RequestAllKeepsTargets(s: State, ms: seq<Message>, targets: seq<seq<string>>,
      disk: map<string, string>)
    requires ConversationOf(ms, targets)
    ensures ConversationOf(RequestAll(s, ms, disk).1, targets) && RequestAll(s, ms, disk).0.messages == s.messages
    decreases |ms|
  {
    hide RequestMessage, MessageOf;
    if ms != [] {
      RequestMessageKeepsTargets(s, ms[0], targets[0], disk);
      assert forall i :: 0 <= i < |ms[1..]| ==> ms[1..][i] == ms[i + 1] && targets[1..][i] == targets[i + 1];
      RequestAllKeepsTargets(RequestMessage(s, ms[0], disk).0, ms[1..], targets[1..], disk);
    }
  }

  lemma ArrivedOf(targets: seq<seq<string>>, cache: map<string, string>)
    ensures ConversationOf(AllWithCache(AllParsed(targets), cache), targets)
  {
    var ms := AllWithCache(AllParsed(targets), cache);
    forall i | 0 <= i < |ms| ensures MessageOf(ms[i], targets[i]) {
      assert ms[i] == WithCache(Parsed(targets[i]), cache);
    }
  }

  lemma FetchedKeeps(s: State, key: string, targets: seq<seq<string>>, disk: map<string, string>, other: string)
    ensures var t := MessagesFetched(s, key, targets, disk);
      && (other != key ==> MessagesOf(t, other) == MessagesOf(s, other))
      && (other == key ==> ConversationOf(MessagesOf(t, other), targets))
  {
    var landed := UpdateBusy(s.(messageFetches := s.messageFetches - {key}));
    ArrivedOf(targets, landed.cache);
    RequestAllKeepsTargets(landed, AllWithCache(AllParsed(targets), landed.cache), targets, disk);
    hide RequestAll, AllWithCache, AllParsed, ConversationOf;
  }

  lemma ReplyKeeps(s: State, target: string, url: string, disk: map<string, string>, key: string,
      targets: seq<seq<string>>)
    requires ConversationOf(MessagesOf(s, key), targets)
    ensures ConversationOf(MessagesOf(ContentReceived(s, target, url, disk), key), targets)
  {
    ReplyMeans(s, target, url, disk);
    hide ContentReceived;
    if key in s.messages {
      var t := ContentReceived(s, target, url, disk);
      forall i | 0 <= i < |t.messages[key]| ensures MessageOf(t.messages[key][i], targets[i]) {
        assert MessageOf(s.messages[key][i], targets[i]);
      }
    }
  }

  lemma PrependKeeps(s: State, k: string, key: string, targets: seq<seq<string>>)
    requires ConversationOf(MessagesOf(s, key), targets)
    ensures ConversationOf(MessagesOf(Prepend(s, k), key), if k == key then [[]] + targets else targets)
  {
    hide MessageOf;
    if k == key {
      assert MessageOf([], []) by { NoAttachments(); }
    }
  }

  lemma NoAttachments()
    ensures MessageOf([], [])
  {
  }

  /** After any run a conversation has the messages that were fetched last, and those sent and received
      since in front of them. */
  lemma {:induction false} RunKeepsMessages(events: Events, key: string)
    ensures ConversationOf(MessagesOf(Run(NOTHING, events), key), Conversation(events, key))
    decreases |events|
  {
    hide ConversationOf, ContentReceived, MessagesFetched, Prepend, MessagesOf;
    if events == [] {
      NoMessages(NOTHING, key);
    } else {
      var front := events[..|events| - 1];
      var (e, disk) := events[|events| - 1];
      RunKeepsMessages(front, key);
      RunLast(NOTHING, events);
      var s, earlier := Run(NOTHING, front), Conversation(front, key);
      hide Run;
      match e
      case Messages(k, targets) => FetchedKeeps(s, k, targets, disk, key);
      case Content(target, url) => ReplyKeeps(s, target, url, disk, key, earlier);
      case Send(id, k) =>
        PrependKeeps(s, k, key, earlier);
        SameMessages(Prepend(s, k), Step(s, e, disk), key);
      case NewSms(k) => PrependKeeps(s, k, key, earlier);
      case Cleared => NoMessages(Step(s, e, disk), key);
      case _ => SameMessages(s, Step(s, e, disk), key);
    }
  }

  lemma SameMessages(s: State, t: State, key: string)
    requires t.messages == s.messages
    ensures MessagesOf(t, key) == MessagesOf(s, key)
  {
  }

  lemma NoMessages(s: State, key: string)
    requires s.messages == map[]
    ensures ConversationOf(MessagesOf(s, key), [])
  {
  }

  // ---------------------------------------------------------------------------------------
  // First queued, first fetched
  // ---------------------------------------------------------------------------------------

  /** What has been fetched followed by what waits has only grown at its end, and what is being fetched
      is what was asked for last. */
  predicate Grows(s: State, t: State) {
    s.fetches + s.waiting <= t.fetches + t.waiting
  }

  predicate ActiveIsLast(s: State) {
    s.active != "" ==> s.fetches != [] && s.fetches[|s.fetches| - 1] == s.active
  }

  predicate InOrder(s: State, t: State) {
    Grows(s, t) && (ActiveIsLast(s) ==> ActiveIsLast(t))
  }

  lemma StartInOrder(s: State)
    ensures InOrder(s, StartNext(s))
  {
    if s.active == "" && s.waiting != [] {
      assert s.waiting == [s.waiting[0]] + s.waiting[1..];
      assert s.fetches + s.waiting == s.fetches + [s.waiting[0]] + s.waiting[1..];
    }
  }

  lemma QueueInOrder(s: State, target: string, disk: map<string, string>)
    ensures InOrder(s, Queue(s, target, disk))
  {
    hide AllChanged, IsBusy, StartNext;
    var c := UseCached(s, target, disk);
    var queued := UpdateBusy(c.(requested := c.requested + {target}, waiting := c.waiting + [target]));
    assert s.fetches + (s.waiting + [target]) == s.fetches + s.waiting + [target];
    StartInOrder(queued);
  }

  lemma OneInOrder(s: State, a: Attachment, disk: map<string, string>)
    ensures InOrder(s, RequestOne(s, a, disk).0)
  {
    hide Queue;
    var c := UseCached(s, a.target, disk);
    QueueInOrder(c, a.target, disk);
  }

  lemma {:induction false} MessageInOrder(s: State, m: Message, disk: map<string, string>)
    ensures InOrder(s, RequestMessage(s, m, disk).0)
    decreases |m|
  {
    hide RequestOne;
    if m != [] {
      OneInOrder(s, m[0], disk);
      MessageInOrder(RequestOne(s, m[0], disk).0, m[1..], disk);
    }
  }

  lemma {:induction false} AllInOrder(s: State, ms: seq<Message>, disk: map<string, string>)
    ensures InOrder(s, RequestAll(s, ms, disk).0)
    decreases |ms|
  {
    hide RequestMessage;
    if ms != [] {
      MessageInOrder(s, ms[0], disk);
      AllInOrder(RequestMessage(s, ms[0], disk).0, ms[1..], disk);
    }
  }

  lemma ReplyInOrder(s: State, target: string, url: string, disk: map<string, string>)
    ensures InOrder(s, ContentReceived(s, target, url, disk))
  {
    hide AllChanged, IsBusy, Queue, StartNext;
    var idle := s.(active := if s.active == target then "" else s.active, requested := s.requested - {target});
    var next :=
      if url != "" then idle.(retried := s.retried - {target}, cache := s.cache[target := url])
      else if ReplyChange(s, target, url).KeepLoading? then
        Queue(idle.(retried := s.retried + {target}), target, disk)
      else idle;
    QueueInOrder(idle.(retried := s.retried + {target}), target, disk);
    StartInOrder(next.(messages := AllChanged(next.messages, target, ReplyChange(s, target, url))));
  }

  lemma StepInOrder(s: State, e: Event, disk: map<string, string>)
    requires !e.Cleared?
    ensures InOrder(s, Step(s, e, disk))
  {
    hide ContentReceived, RequestAll, AllWithCache, AllParsed, IsBusy;
    match e
    case Messages(key, targets) =>
      var landed := UpdateBusy(s.(messageFetches := s.messageFetches - {key}));
      AllInOrder(landed, AllWithCache(AllParsed(targets), landed.cache), disk);
    case Content(target, url) => ReplyInOrder(s, target, url, disk);
    case _ =>
  }

  /** While the connection lasts, attachments are fetched in the order in which they were queued, none is
      passed over, and the one being fetched is the one asked for last. */
  lemma {:induction false} RunInOrder(s: State, events: Events)
    requires forall i :: 0 <= i < |events| ==> !events[i].0.Cleared?
    ensures InOrder(s, Run(s, events))
    decreases |events|
  {
    hide Step;
    if events != [] {
      StepInOrder(s, events[0].0, events[0].1);
      assert forall i :: 0 <= i < |events[1..]| ==> events[1..][i] == events[i + 1];
      RunInOrder(Step(s, events[0].0, events[0].1), events[1..]);
    }
  }

  // ---------------------------------------------------------------------------------------
  // Busy
  // ---------------------------------------------------------------------------------------

  /** The contacts have been asked for and have not come since. */
  predicate ContactsDue(events: Events) {
    events != [] &&
    match events[|events| - 1].0
    case RefreshContacts => true
    case ContactsLoaded => false
    case Cleared => false
    case _ => ContactsDue(events[..|events| - 1])
  }

  /** The messages of a contact have been asked for and have not come since. */
  predicate MessagesDue(events: Events, key: string) {
    events != [] &&
    match events[|events| - 1].0
    case FetchMessages(k) => k == key || MessagesDue(events[..|events| - 1], key)
    case Messages(k, _) => k != key && MessagesDue(events[..|events| - 1], key)
    case Cleared => false
    case _ => MessagesDue(events[..|events| - 1], key)
  }

  /** A message has been sent and its result has not come since. */
  predicate SendDue(events: Events, id: string) {
    events != [] &&
    match events[|events| - 1].0
    case Send(i, _) => i == id || SendDue(events[..|events| - 1], id)
    case SendDone(i) => i != id && SendDue(events[..|events| - 1], id)
    case Cleared => false
    case _ => SendDue(events[..|events| - 1], id)
  }

  ghost predicate AnyMessagesDue(events: Events) {
    exists key :: MessagesDue(events, key)
  }

  ghost predicate AnySendDue(events: Events) {
    exists id :: SendDue(events, id)
  }

  predicate SameRequests(s: State, t: State) {
    t.contactsRefreshing == s.contactsRefreshing && t.messageFetches == s.messageFetches && t.sending == s.sending
  }

  lemma QueueKeepsRequests(s: State, target: string, disk: map<string, string>)
    ensures SameRequests(s, Queue(s, target, disk))
  {
    hide AllChanged, IsBusy, StartNext;
    var c := UseCached(s, target, disk);
    StartKeepsRequests(UpdateBusy(c.(requested := c.requested + {target}, waiting := c.waiting + [target])));
  }

  lemma StartKeepsRequests(s: State)
    ensures SameRequests(s, StartNext(s))
  {
  }

  lemma {:induction false} MessageKeepsRequests(s: State, m: Message, disk: map<string, string>)
    ensures SameRequests(s, RequestMessage(s, m, disk).0)
    decreases |m|
  {
    hide Queue;
    if m != [] {
      QueueKeepsRequests(UseCached(s, m[0].target, disk), m[0].target, disk);
      MessageKeepsRequests(RequestOne(s, m[0], disk).0, m[1..], disk);
    }
  }

  lemma {:induction false} AllKeepRequests(s: State, ms: seq<Message>, disk: map<string, string>)
    ensures SameRequests(s, RequestAll(s, ms, disk).0)
    decreases |ms|
  {
    hide RequestMessage;
    if ms != [] {
      MessageKeepsRequests(s, ms[0], disk);
      AllKeepRequests(RequestMessage(s, ms[0], disk).0, ms[1..], disk);
    }
  }

  lemma ReplyKeepsRequests(s: State, target: string, url: string, disk: map<string, string>)
    ensures SameRequests(s, ContentReceived(s, target, url, disk))
  {
    hide AllChanged, IsBusy, Queue;
    QueueKeepsRequests(s.(active := if s.active == target then "" else s.active, requested := s.requested - {target},
                          retried := s.retried + {target}), target, disk);
  }

  lemma RunLast(s: State, events: Events)
    requires events != []
    ensures var last := events[|events| - 1]; Run(s, events) == Step(Run(s, events[..|events| - 1]), last.0, last.1)
    decreases |events|
  {
    hide Step;
    if |events| > 1 {
      RunLast(Step(s, events[0].0, events[0].1), events[1..]);
      assert events[1..][..|events| - 2] == events[..|events| - 1][1..];
    }
  }

  predicate RequestsDue(s: State, events: Events, key: string, id: string) {
    && (s.contactsRefreshing <==> ContactsDue(events))
    && (key in s.messageFetches <==> MessagesDue(events, key))
    && (id in s.sending <==> SendDue(events, id))
  }

  lemma {:induction false} RunRequests(events: Events, key: string, id: string)
    ensures RequestsDue(Run(NOTHING, events), events, key, id)
    decreases |events|
  {
    if events != [] {
      var front, last := events[..|events| - 1], events[|events| - 1];
      RunRequests(front, key, id);
      RunLast(NOTHING, events);
      hide Run;
      StepRequests(Run(NOTHING, front), events, key, id);
    }
  }

  lemma StepRequests(s: State, events: Events, key: string, id: string)
    requires events != [] && RequestsDue(s, events[..|events| - 1], key, id)
    ensures var last := events[|events| - 1]; RequestsDue(Step(s, last.0, last.1), events, key, id)
  {
    hide Step;
    StepAsks(s, events[|events| - 1].0, events[|events| - 1].1);
  }

  lemma StepAsks(s: State, e: Event, disk: map<string, string>)
    ensures var t := Step(s, e, disk);
      && t.contactsRefreshing == (e.RefreshContacts? || (s.contactsRefreshing && !e.ContactsLoaded? && !e.Cleared?))
      && t.messageFetches == (match e
           case FetchMessages(key) => s.messageFetches + {key}
           case Messages(key, _) => s.messageFetches - {key}
           case Cleared => {}
           case _ => s.messageFetches)
      && t.sending == (match e
           case Send(id, key) => s.sending[id := key]
           case SendDone(id) => s.sending - {id}
           case Cleared => map[]
           case _ => s.sending)
  {
    hide ContentReceived, RequestAll, AllWithCache, AllParsed, IsBusy;
    match e
    case Messages(k, targets) =>
      var landed := UpdateBusy(s.(messageFetches := s.messageFetches - {k}));
      AllKeepRequests(landed, AllWithCache(AllParsed(targets), landed.cache), disk);
    case Content(target, url) => ReplyKeepsRequests(s, target, url, disk);
    case _ =>
  }

  /** After any run the controller is busy exactly while contacts, messages or the result of a message
      that was sent are still to come, or an attachment is being fetched. */
  lemma BusyExactly(events: Events)
    ensures var s := Run(NOTHING, events);
      s.busy <==> ContactsDue(events) || AnyMessagesDue(events) || AnySendDue(events) || s.active != ""
  {
    InitiallyFlowing();
    RunFlows(NOTHING, events);
    var s := Run(NOTHING, events);
    hide Run, OnTheWay;
    RunRequests(events, "", "");
    assert s.messageFetches != {} <==> AnyMessagesDue(events) by {
      forall key ensures key in s.messageFetches <==> MessagesDue(events, key) {
        RunRequests(events, key, "");
      }
    }
    assert s.sending != map[] <==> AnySendDue(events) by {
      forall id ensures id in s.sending <==> SendDue(events, id) {
        RunRequests(events, "", id);
      }
      assert s.sending != map[] ==> exists id :: id in s.sending;
    }
  }
}
