/** The part of SmsBridgeController of apps/desktop/src/SmsBridgeController.cpp that fetches MMS
    attachments, as the object it is; every method computes the state that MmsQueue gives for it. */
module MmsFetching {
  import opened MmsQueue

  class SmsBridgeController {
    var messagesByContact: map<string, seq<Message>>
    var mmsAttachmentCache: map<string, string>
    var requestedMmsContentTargets: set<string>
    var retriedMmsContentTargets: set<string>
    var pendingMmsContentTargets: seq<string>
    var activeMmsContentTarget: string
    /** What the module has been asked to fetch. */
    var fetchCalls: seq<string>
    var contactsRefreshInFlight: bool
    var messageFetchesInFlight: set<string>
    var pendingMessageConversationById: map<string, string>
    var busy: bool

    ghost function View(): State
      reads this
    {
      State(messagesByContact, mmsAttachmentCache, requestedMmsContentTargets, retriedMmsContentTargets,
        pendingMmsContentTargets, activeMmsContentTarget, fetchCalls, contactsRefreshInFlight, messageFetchesInFlight,
        pendingMessageConversationById, busy)
    }

    constructor ()
      ensures View() == NOTHING
    {
      messagesByContact, mmsAttachmentCache, requestedMmsContentTargets, retriedMmsContentTargets := map[], map[], {},
        {};
      pendingMmsContentTargets, activeMmsContentTarget, fetchCalls, contactsRefreshInFlight := [], "", [], false;
      messageFetchesInFlight, pendingMessageConversationById, busy := {}, map[], false;
    }

    method UpdateBusyState()
      modifies this
      ensures View() == UpdateBusy(old(View()))
    {
      var busy_ := contactsRefreshInFlight || messageFetchesInFlight != {} || pendingMessageConversationById != map[]
        || pendingMmsContentTargets != [] || activeMmsContentTarget != "";
      if busy == busy_ {
        return;
      }
      busy := busy_;
    }

    method StartNextMmsContentFetch()
      modifies this
      ensures View() == StartNext(old(View()))
    {
      if activeMmsContentTarget != "" || pendingMmsContentTargets == [] {
        return;
      }
      activeMmsContentTarget := pendingMmsContentTargets[0];
      pendingMmsContentTargets := pendingMmsContentTargets[1..];
      fetchCalls := fetchCalls + [activeMmsContentTarget];
    }

    method UseCachedMmsContent(target: string, disk: map<string, string>) returns (cached: bool)
      modifies this
      ensures View() == UseCached(old(View()), target, disk)
      ensures cached == (target != "" && target in View().cache)
    {
      if target == "" {
        return false;
      }
      if target in mmsAttachmentCache {
        return true;
      }
      if target !in disk || disk[target] == "" {
        return false;
      }
      mmsAttachmentCache := mmsAttachmentCache[target := disk[target]];
      return true;
    }

    /** The loops over all attachments of all conversations. */
    method ChangeAttachments(target: string, change: Change)
      modifies this
      ensures View() == old(View()).(messages := AllChanged(old(View()).messages, target, change))
    {
      var todo := messagesByContact.Keys;
      while todo != {}
        invariant todo <= messagesByContact.Keys
        invariant View() == old(View()).(messages := messagesByContact)
        invariant messagesByContact.Keys == old(messagesByContact).Keys
        invariant forall key <- todo :: messagesByContact[key] == old(messagesByContact)[key]
        invariant forall key <- messagesByContact.Keys - todo ::
          messagesByContact[key] == ConversationChanged(old(messagesByContact)[key], target, change)
      {
        var key :| key in todo;
        var conversation := ChangeConversation(messagesByContact[key], target, change);
        messagesByContact := messagesByContact[key := conversation];
        todo := todo - {key};
      }
      assert messagesByContact == AllChanged(old(messagesByContact), target, change);
    }

    static method ChangeConversation(conversation: seq<Message>, target: string, change: Change)
      returns (changed: seq<Message>)
      ensures changed == ConversationChanged(conversation, target, change)
    {
      changed := conversation;
      var i := 0;
      while i < |changed|
        invariant 0 <= i <= |changed| == |conversation|
        invariant forall k :: 0 <= k < |changed| ==>
          changed[k] == if k < i then MessageChanged(conversation[k], target, change) else conversation[k]
      {
        var message := changed[i];
        var j := 0;
        while j < |message|
          invariant 0 <= j <= |message| == |conversation[i]|
          invariant forall k :: 0 <= k < |message| ==>
            message[k] == if k < j then Changed(conversation[i][k], target, change) else conversation[i][k]
        {
          if message[j].target == target {
            message := message[j := Changed(message[j], target, change)];
          }
          j := j + 1;
        }
        assert message == MessageChanged(conversation[i], target, change);
        changed := changed[i := message];
        i := i + 1;
      }
    }

    method QueueMmsContentFetch(target: string, disk: map<string, string>)
      modifies this
      ensures View() == Queue(old(View()), target, disk)
    {
      hide AllChanged, IsBusy, StartNext, UseCached;
      if target == "" || target in requestedMmsContentTargets {
        return;
      }
      UseCachedRequestsNothing(View(), target, disk);
      var cached := UseCachedMmsContent(target, disk);
      if cached {
        ChangeAttachments(target, Show(mmsAttachmentCache[target]));
        return;
      }
      requestedMmsContentTargets := requestedMmsContentTargets + {target};
      pendingMmsContentTargets := pendingMmsContentTargets + [target];
      UpdateBusyState();
      StartNextMmsContentFetch();
    }

    static method ApplyCachedMmsContent(messages: seq<Message>, cache: map<string, string>)
      returns (applied: seq<Message>)
      ensures applied == AllWithCache(messages, cache)
    {
      applied := messages;
      var i := 0;
      while i < |applied|
        invariant 0 <= i <= |applied| == |messages|
        invariant forall k :: 0 <= k < |applied| ==>
          applied[k] == if k < i then WithCache(messages[k], cache) else messages[k]
      {
        var message := applied[i];
        var j := 0;
        while j < |message|
          invariant 0 <= j <= |message| == |messages[i]|
          invariant forall k :: 0 <= k < |message| ==>
            message[k] == if k < j then WithCache(messages[i], cache)[k] else messages[i][k]
        {
          if message[j].target in cache {
            message := message[j := message[j].(loading := false, failed := false,
              fileUrl := cache[message[j].target])];
          }
          j := j + 1;
        }
        assert message == WithCache(messages[i], cache);
        applied := applied[i := message];
        i := i + 1;
      }
    }

    method RequestAttachment(attachment: Attachment, disk: map<string, string>) returns (updated: Attachment)
      modifies this
      ensures (View(), updated) == RequestOne(old(View()), attachment, disk)
    {
      hide UseCached, Queue;
      updated := attachment;
      if attachment.target == "" || !attachment.loading || attachment.fileUrl != ""
         || attachment.target in requestedMmsContentTargets {
        return;
      }
      var cached := UseCachedMmsContent(attachment.target, disk);
      if cached {
        updated := attachment.(fileUrl := mmsAttachmentCache[attachment.target], loading := false, failed := false);
      } else {
        QueueMmsContentFetch(attachment.target, disk);
      }
    }

    /** The inner loop of requestMmsContentFetches. */
    method RequestMessageAttachments(message: Message, disk: map<string, string>) returns (updated: Message)
      modifies this
      ensures (View(), updated) == RequestMessage(old(View()), message, disk)
    {
      hide RequestOne;
      updated := [];
      var j := 0;
      assert message[0..] == message && forall rest: Message :: updated + rest == rest;
      while j < |message|
        invariant 0 <= j <= |message|
        invariant var (s, rest) := RequestMessage(View(), message[j..], disk);
          RequestMessage(old(View()), message, disk) == (s, updated + rest)
      {
        assert message[j..][1..] == message[j + 1..];
        ghost var soFar := updated;
        var attachment := RequestAttachment(message[j], disk);
        updated := updated + [attachment];
        assert forall rest: Message :: soFar + ([attachment] + rest) == updated + rest;
        j := j + 1;
      }
      assert updated + [] == updated;
    }

    method RequestMmsContentFetches(messages: seq<Message>, disk: map<string, string>) returns (updated: seq<Message>)
      modifies this
      ensures (View(), updated) == RequestAll(old(View()), messages, disk)
    {
      hide RequestMessage;
      updated := [];
      var i := 0;
      assert messages[0..] == messages && forall rest: seq<Message> :: updated + rest == rest;
      while i < |messages|
        invariant 0 <= i <= |messages|
        invariant var (s, rest) := RequestAll(View(), messages[i..], disk);
          RequestAll(old(View()), messages, disk) == (s, updated + rest)
      {
        assert messages[i..][1..] == messages[i + 1..];
        ghost var soFar := updated;
        var message := RequestMessageAttachments(messages[i], disk);
        updated := updated + [message];
        assert forall rest: seq<Message> :: soFar + ([message] + rest) == updated + rest;
        i := i + 1;
      }
      assert updated + [] == updated;
    }

    method OnMessageList(conversationKey: string, targets: seq<seq<string>>, disk: map<string, string>)
      modifies this
      ensures View() == MessagesFetched(old(View()), conversationKey, targets, disk)
    {
      hide AllWithCache, AllParsed, RequestAll, IsBusy;
      messageFetchesInFlight := messageFetchesInFlight - {conversationKey};
      UpdateBusyState();
      var parsed := ApplyCachedMmsContent(AllParsed(targets), mmsAttachmentCache);
      parsed := RequestMmsContentFetches(parsed, disk);
      messagesByContact := messagesByContact[conversationKey := parsed];
    }

    method OnMmsContentReceived(target: string, fileUrl: string, disk: map<string, string>)
      modifies this
      ensures View() == ContentReceived(old(View()), target, fileUrl, disk)
    {
      hide AllChanged, IsBusy, StartNext, Queue;
      var hasCachedAttachment := target in mmsAttachmentCache;
      var shouldRetry := fileUrl == "" && target != "" && target !in retriedMmsContentTargets;
      var change :=
        if fileUrl != "" then Show(fileUrl)
        else if hasCachedAttachment then Show(mmsAttachmentCache[target])
        else if shouldRetry then KeepLoading
        else Fail;
      EndFetch(target, fileUrl);
      if fileUrl == "" && !hasCachedAttachment && shouldRetry {
        retriedMmsContentTargets := retriedMmsContentTargets + {target};
        QueueMmsContentFetch(target, disk);
      }
      ChangeAttachments(target, change);
      StartNextMmsContentFetch();
      UpdateBusyState();
    }

    /** What the handler of a reply does before it queues a retry. */
    method EndFetch(target: string, fileUrl: string)
      modifies this
      ensures View() ==
        var s := old(View());
        var idle := s.(active := if s.active == target then "" else s.active, requested := s.requested - {target});
        if fileUrl != "" then idle.(retried := s.retried - {target}, cache := s.cache[target := fileUrl]) else idle
    {
      if activeMmsContentTarget == target {
        activeMmsContentTarget := "";
      }
      requestedMmsContentTargets := requestedMmsContentTargets - {target};
      if fileUrl != "" {
        retriedMmsContentTargets := retriedMmsContentTargets - {target};
        mmsAttachmentCache := mmsAttachmentCache[target := fileUrl];
      }
    }

    method ClearConversationState()
      modifies this
      ensures View() == Clear(old(View()))
    {
      hide IsBusy;
      messagesByContact, mmsAttachmentCache := map[], map[];
      requestedMmsContentTargets, retriedMmsContentTargets := {}, {};
      pendingMmsContentTargets, activeMmsContentTarget := [], "";
      ForgetRequests();
      UpdateBusyState();
    }

    method ForgetRequests()
      modifies this
      ensures View() == old(View()).(sending := map[], messageFetches := {}, contactsRefreshing := false)
    {
      pendingMessageConversationById := map[];
      messageFetchesInFlight := {};
      contactsRefreshInFlight := false;
    }

    method SendMessage(messageId: string, selectedContactKey: string)
      modifies this
      ensures View() == Step(old(View()), Send(messageId, selectedContactKey), map[])
    {
      hide IsBusy;
      var earlier := if selectedContactKey in messagesByContact then messagesByContact[selectedContactKey] else [];
      messagesByContact := messagesByContact[selectedContactKey := [[]] + earlier];
      pendingMessageConversationById := pendingMessageConversationById[messageId := selectedContactKey];
      UpdateBusyState();
    }

    method OnSendSmsResult(messageId: string)
      modifies this
      ensures View() == Step(old(View()), SendDone(messageId), map[])
    {
      hide IsBusy;
      pendingMessageConversationById := pendingMessageConversationById - {messageId};
      UpdateBusyState();
    }
  }

  lemma UseCachedRequestsNothing(s: State, target: string, disk: map<string, string>)
    ensures UseCached(s, target, disk).requested == s.requested
  {
  }
}
