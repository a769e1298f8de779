/** What every run of `MessagingRuns` keeps to: which message answers, where it is, who wrote it and who gets it. */
module MessagingRules {
  import opened Common
  import opened Recipients
  import opened Messaging
  import opened MessagingRuns

  /**
   * Whatever the races, a client id of a sender names one message, and that message has exactly one event unless
   * it is an edit.
   */
  lemma OneMessagePerClientId(es: seq<Event>, a: nat, b: nat)
    requires
      var messages := Run(Nothing, es).store.messages;
      && a in messages && b in messages && messages[a].senderId == messages[b].senderId
      && messages[a].clientMessageId.Some? && messages[a].clientMessageId == messages[b].clientMessageId
    ensures a == b
    ensures var store := Run(Nothing, es).store;
      store.messages[a].editsMessageId.None? ==>
        exists k | 0 <= k < |store.events| :: store.events[k].messageId == a
          && forall j | 0 <= j < |store.events| && store.events[j].messageId == a :: j == k
  {
    ReachableIsSound(es);
    var store := Run(Nothing, es).store;
    assert IsFor(store.messages[a], store.messages[b].senderId, store.messages[b].clientMessageId);
    if store.messages[a].editsMessageId.None? {
      assert HasEvent(store, a);
      var k :| 0 <= k < |store.events| && store.events[k].messageId == a;
      assert forall j | 0 <= j < |store.events| && store.events[j].messageId == a :: j == k;
    }
  }

  function ClientIdOf(request: Request): Option<string> {
    match request
    case Direct(_, _, draft) => draft.clientMessageId
    case SendTo(_, _, draft) => draft.clientMessageId
    case Edit(_, _, clientMessageId) => Some(clientMessageId)
    case Unsend(_, _) => None
  }

  predicate WasAnswered(s: State, id: nat) {
    id in s.flights && s.flights[id].phase.Done? && s.flights[id].phase.outcome.Answered?
  }

  function AnswerOf(s: State, id: nat): nat
    requires WasAnswered(s, id)
  {
    s.flights[id].phase.outcome.messageId
  }

  lemma AnsweredIsRight(s: State, id: nat)
    requires FlightsAreSound(s) && WasAnswered(s, id)
    ensures IsAnswerTo(s.store, s.flights[id].request, AnswerOf(s, id))
  {
    assert PhaseIsSound(s.store, s.flights[id].request, s.flights[id].phase);
  }

  lemma AnswerIsRight(es: seq<Event>, id: nat)
    requires WasAnswered(Run(Nothing, es), id)
    ensures IsAnswerTo(Run(Nothing, es).store, Run(Nothing, es).flights[id].request, AnswerOf(Run(Nothing, es), id))
  {
    ReachableIsSound(es);
    AnsweredIsRight(Run(Nothing, es), id);
  }

  /**
   * All successful answers to one sender's requests under one client id name the same message, and it is where
   * each asked for it.
   */
  lemma AnswersAgree(es: seq<Event>, a: nat, b: nat)
    requires
      var s := Run(Nothing, es);
      && WasAnswered(s, a) && WasAnswered(s, b)
      && s.flights[a].request.senderId == s.flights[b].request.senderId
      && ClientIdOf(s.flights[a].request).Some? && ClientIdOf(s.flights[a].request) == ClientIdOf(s.flights[b].request)
    ensures AnswerOf(Run(Nothing, es), a) == AnswerOf(Run(Nothing, es), b)
    ensures IsAnswerTo(Run(Nothing, es).store, Run(Nothing, es).flights[a].request, AnswerOf(Run(Nothing, es), a))
  {
    AnswerIsRight(es, a);
    AnswerIsRight(es, b);
    OneMessagePerClientId(es, AnswerOf(Run(Nothing, es), a), AnswerOf(Run(Nothing, es), b));
  }

  /** Two people have one direct conversation, whoever wrote first and however many firsts raced. */
  lemma DirectMessagesShareAConversation(es: seq<Event>, a: nat, b: nat)
    requires
      var s := Run(Nothing, es);
      && WasAnswered(s, a) && WasAnswered(s, b) && s.flights[a].request.Direct? && s.flights[b].request.Direct?
      && BetweenTheSame(s.flights[a].request, s.flights[b].request)
    ensures var s := Run(Nothing, es);
      && AnswerOf(s, a) in s.store.messages && AnswerOf(s, b) in s.store.messages
      && s.store.messages[AnswerOf(s, a)].conversationId == s.store.messages[AnswerOf(s, b)].conversationId
  {
    AnswerIsRight(es, a);
    AnswerIsRight(es, b);
    var x, y := Run(Nothing, es).flights[a].request, Run(Nothing, es).flights[b].request;
    DirectPairIsUnordered(x.senderId, x.recipientId, y.senderId, y.recipientId);
  }

  predicate BetweenTheSame(x: Request, y: Request)
    requires x.Direct? && y.Direct?
  {
    || (x.senderId == y.senderId && x.recipientId == y.recipientId)
    || (x.senderId == y.recipientId && x.recipientId == y.senderId)
  }

  lemma OneConversationPerPair(es: seq<Event>, c: nat, d: nat)
    requires
      var conversations := Run(Nothing, es).store.conversations;
      && c in conversations && d in conversations && conversations[c].kind.DIRECT? && conversations[d].kind.DIRECT?
      && conversations[c].pair == conversations[d].pair
    ensures c == d
  {
    ReachableIsSound(es);
    var store := Run(Nothing, es).store;
    assert PairsMatch(store);
    assert store.pairs[store.conversations[c].pair] == c && store.pairs[store.conversations[d].pair] == d;
  }

  /** Edits under any races with edits and unsends. */
  lemma EditsStaySound(es: seq<Event>, target: nat)
    requires target in Run(Nothing, es).store.messages
    ensures var messages := Run(Nothing, es).store.messages;
      && |LiveEdits(messages, target)| <= 10
      && (messages[target].status.DELETED? ==> LiveEdits(messages, target) == {})
      && (messages[target].edited <==> exists edit :: edit in messages && IsEditOf(messages[edit], target))
      && (forall edit | edit in messages && IsEditOf(messages[edit], target) ::
            messages[edit].senderId == messages[target].senderId && messages[target].editsMessageId.None?)
  {
    ReachableIsSound(es);
    var store := Run(Nothing, es).store;
    assert EditsAreSound(store) && StampsAreSound(store) && EditLimitHolds(store);
    forall edit | edit in store.messages && IsEditOf(store.messages[edit], target)
      ensures store.messages[edit].senderId == store.messages[target].senderId
      ensures store.messages[target].editsMessageId.None?
        && store.messages[target].edited
        && (store.messages[target].status.DELETED? ==> store.messages[edit].status.DELETED?)
    {
    }
    assert store.messages[target].status.DELETED? ==> LiveEdits(store.messages, target) == {};
  }

  // ---------------------------------------------------------------- who may write, and to whom

  predicate IsNew(before: Store, after: Store, messageId: nat) {
    messageId in after.messages && messageId !in before.messages
  }

  predicate IsWriting(flight: Flight) {
    flight.phase.Creating? || flight.phase.Committing? || flight.phase.CommittingEdit? || flight.phase.Unsending?
  }

  lemma EditWritesPermitted(s: State, id: nat, around: Surroundings, messageId: nat)
    requires Ready(s, id) && s.flights[id].request.Edit? && s.flights[id].phase.CommittingEdit?
    requires IsNew(s.store, CommitEdit(s, id, around).store, messageId)
    ensures
      var m := CommitEdit(s, id, around).store.messages[messageId];
      m.conversationId in s.store.conversations
        && MayPost(s.store.conversations[m.conversationId].participants, m.senderId)
  {
    CommitEditReadsOrStores(s, id, around);
  }

  lemma StepWritesPermitted(s: State, id: nat, around: Surroundings, messageId: nat)
    requires Ready(s, id) && IdsAreOld(s.store) && IsNew(s.store, Advance(s, id, around).store, messageId)
    ensures var m := Advance(s, id, around).store.messages[messageId];
      m.conversationId in s.store.conversations ==>
        MayPost(s.store.conversations[m.conversationId].participants, m.senderId)
  {
    var flight := s.flights[id];
    if !IsWriting(flight) {
    } else if flight.phase.Committing? {
    } else if flight.phase.CommittingEdit? {
      EditWritesPermitted(s, id, around, messageId);
    } else if flight.phase.Creating? {
    }
  }

  /**
   * A message or an edit lands in a conversation that already exists only while its sender is ACTIVE
   * there and nobody is LEAVING, as the rows stand at that very moment.
   */
  lemma OnlyActiveMembersWrite(es: seq<Event>, e: Event, messageId: nat)
    requires IsNew(Run(Nothing, es).store, Apply(Run(Nothing, es), e).store, messageId)
    ensures
      var s := Run(Nothing, es);
      var m := Apply(s, e).store.messages[messageId];
      m.conversationId in s.store.conversations ==>
        var rows := s.store.conversations[m.conversationId].participants;
        && (exists p | p in rows :: p.userId == m.senderId && p.state == ACTIVE)
        && (forall p | p in rows :: p.state != LEAVING)
  {
    ReachableIsSound(es);
    var s := Run(Nothing, es);
    match e {
      case Step(id, around) => if id in s.flights { StepWritesPermitted(s, id, around, messageId); }
      case _ =>
    }
  }

  /**
   * The clock and blocks a commit goes by: those of the read before the lock, unless the participants changed
   * since.
   */
  function SendAtCommit(s: State, id: nat, locked: seq<Participant>): Send
    requires id in s.flights && s.flights[id].phase.Committing?
  {
    var phase := s.flights[id].phase;
    if ParticipantsKey(locked) == ParticipantsKey(phase.before) then phase.send
    else phase.send.(blockers := Blockers(s, s.flights[id].request.senderId), now := s.now)
  }

  lemma LockedRecipientsAreRight(s: State, id: nat, locked: seq<Participant>)
    requires Inv(s) && id in s.flights && s.flights[id].phase.Committing? && CleanIds(locked)
    ensures SameRecipients(LockedRecipients(s, s.flights[id].request.senderId, locked, s.flights[id].phase),
                           ResolveRecipients(SendAtCommit(s, id, locked), locked))
  {
    var phase := s.flights[id].phase;
    assert PhaseIsSound(s.store, s.flights[id].request, phase);
    if ParticipantsKey(locked) == ParticipantsKey(phase.before) {
      EqualKeysGiveEqualRecipients(phase.send, phase.before, locked);
    }
  }

  /**
   * Whichever path it took, a stored message has its receipts, its event's recipients and its mentions
   * from the participants as they are under the lock.
   */
  lemma MessagesGoToTheLockedRows(es: seq<Event>, id: nat, around: Surroundings)
    requires
      var s := Run(Nothing, es);
      && id in s.flights && HasDraft(s.flights[id].request) && s.flights[id].phase.Committing?
      && IsNew(s.store, CommitMessage(s, id, around).store, s.store.nextId)
    ensures
      var s := Run(Nothing, es);
      var after := CommitMessage(s, id, around).store;
      var m := after.messages[s.store.nextId];
      && m.conversationId in s.store.conversations && |after.events| == |s.store.events| + 1
      && var locked := s.store.conversations[m.conversationId].participants;
      var right := ResolveRecipients(SendAtCommit(s, id, locked), locked);
      var event := after.events[|s.store.events|];
      && multiset(m.receiptUserIds) == multiset(right.deliverableIds)
      && event.messageId == s.store.nextId
      && multiset(event.recipientUserIds) == multiset(right.notifiableIds)
      && multiset(event.mentionedUserIds) == multiset(right.mentionedIds)
  {
    ReachableIsSound(es);
    var s := Run(Nothing, es);
    CommitMessageReadsOrStores(s, id, around);
    var locked := s.store.conversations[s.flights[id].phase.conversationId].participants;
    LockedRecipientsAreRight(s, id, locked);
  }

  // ---------------------------------------------------------------- who may take a message back

  predicate IsCleared(before: Store, after: Store, messageId: nat) {
    && messageId in before.messages && before.messages[messageId].status == SENT
    && messageId in after.messages && after.messages[messageId].status == DELETED
  }

  /** The last step of an unsend of this message, or of the message it is an edit of. */
  predicate IsUnsendOf(s: State, e: Event, messageId: nat) {
    && e.Step? && e.id in s.flights && s.flights[e.id].phase.Unsending? && s.flights[e.id].request.Unsend?
    && messageId in s.store.messages && s.flights[e.id].request.senderId == s.store.messages[messageId].senderId
    && (s.flights[e.id].request.messageId == messageId
        || s.store.messages[messageId].editsMessageId == Some(s.flights[e.id].request.messageId))
  }

  lemma StepClears(s: State, id: nat, around: Surroundings, messageId: nat)
    requires Inv(s) && id in s.flights && messageId in s.store.messages && s.store.messages[messageId].status == SENT
    ensures IsCleared(s.store, Advance(s, id, around).store, messageId) <==> IsUnsendOf(s, Step(id, around), messageId)
  {
    assert PhaseIsSound(s.store, s.flights[id].request, s.flights[id].phase);
    assert messageId < s.store.nextId;
    match s.flights[id].request {
      case Direct(_, _, _) => OthersKeepStatus(s, id, around, messageId);
      case SendTo(_, _, _) => OthersKeepStatus(s, id, around, messageId);
      case Edit(_, _, _) => OthersKeepStatus(s, id, around, messageId);
      case Unsend(_, _) =>
    }
  }

  /** Everything about a message stays, but for the stamp that it was edited. */
  predicate OnlyStamps(before: Store, after: Store, messageId: nat) {
    && messageId in before.messages && messageId in after.messages
    && after.messages[messageId] == before.messages[messageId].(edited := after.messages[messageId].edited)
  }

  lemma OthersKeepStatus(s: State, id: nat, around: Surroundings, messageId: nat)
    requires id in s.flights && !s.flights[id].request.Unsend? && messageId in s.store.messages
    requires messageId < s.store.nextId
    ensures OnlyStamps(s.store, Advance(s, id, around).store, messageId)
  {
    if s.flights[id].request.Edit? {
      EditOnlyStamps(s, id, around, messageId);
    } else if IsDirectPhase(s.flights[id].phase) && s.flights[id].request.Direct? {
      DirectOnlyAdds(s, id, around, messageId);
    } else {
      SendOnlyAdds(s, id, around, messageId);
    }
  }

  lemma EditOnlyStamps(s: State, id: nat, around: Surroundings, messageId: nat)
    requires id in s.flights && s.flights[id].request.Edit? && messageId in s.store.messages
    requires messageId < s.store.nextId
    ensures OnlyStamps(s.store, AdvanceEdit(s, id, around).store, messageId)
  {
  }

  lemma DirectOnlyAdds(s: State, id: nat, around: Surroundings, messageId: nat)
    requires id in s.flights && s.flights[id].request.Direct? && messageId in s.store.messages
    requires messageId < s.store.nextId
    ensures OnlyStamps(s.store, AdvanceDirect(s, id, around).store, messageId)
  {
  }

  lemma SendOnlyAdds(s: State, id: nat, around: Surroundings, messageId: nat)
    requires id in s.flights && HasDraft(s.flights[id].request) && messageId in s.store.messages
    requires messageId < s.store.nextId
    ensures OnlyStamps(s.store, AdvanceSend(s, id, around).store, messageId)
  {
  }

  /** Over every run, a message is taken back by its own sender only: it, or the message it is an edit of. */
  lemma OnlyItsSenderUnsends(es: seq<Event>, e: Event, messageId: nat)
    requires
      var store := Run(Nothing, es).store;
      messageId in store.messages && store.messages[messageId].status == SENT
    ensures
      var s := Run(Nothing, es);
      IsCleared(s.store, Apply(s, e).store, messageId) <==> IsUnsendOf(s, e, messageId)
  {
    ReachableIsSound(es);
    var s := Run(Nothing, es);
    if e.Step? && e.id in s.flights { StepClears(s, e.id, e.around, messageId); }
  }

  /** And that takes back the message with its edits, says so, and changes nothing else anywhere. */
  lemma UnsendClearsNothingElse(s: State, id: nat, around: Surroundings)
    requires id in s.flights && s.flights[id].request.Unsend? && s.flights[id].phase.Unsending?
    ensures
      var target := s.flights[id].request.messageId;
      var next := Apply(s, Step(id, around));
      && next == s.(store := next.store, flights := s.flights[id := Flight(s.flights[id].request, Done(Unsent))])
      && next.store == s.store.(messages := next.store.messages)
      && next.store.messages.Keys == s.store.messages.Keys
      && forall m | m in s.store.messages ::
           next.store.messages[m] ==
             if m == target || s.store.messages[m].editsMessageId == Some(target)
             then s.store.messages[m].(status := DELETED)
             else s.store.messages[m]
  {
  }

  // ---------------------------------------------------------------- what a finished request leaves

  lemma AdvanceMovesOne(s: State, id: nat, around: Surroundings)
    requires Inv(s) && id in s.flights
    ensures
      var next := Advance(s, id, around);
      id in next.flights && next.flights == s.flights[id := next.flights[id]]
        && next.flights[id].request == s.flights[id].request
  {
    AdvanceIsSound(s, id, around);
  }

  lemma OthersLeaveFlight(s: State, e: Event, id: nat)
    requires Inv(s) && id in s.flights && !(e.Step? && e.id == id)
    ensures id in Apply(s, e).flights && Apply(s, e).flights[id] == s.flights[id]
  {
    if e.Step? && e.id in s.flights { AdvanceMovesOne(s, e.id, e.around); }
  }

  lemma DoneStays(s: State, id: nat, around: Surroundings)
    requires id in s.flights && s.flights[id].phase.Done?
    ensures Advance(s, id, around) == s
  {
  }

  lemma RequestStaysOnce(s: State, e: Event, id: nat)
    requires Inv(s) && id in s.flights
    ensures id in Apply(s, e).flights && Apply(s, e).flights[id].request == s.flights[id].request
    ensures s.flights[id].phase.Done? ==> Apply(s, e).flights[id] == s.flights[id]
  {
    if e.Step? && e.id == id {
      AdvanceMovesOne(s, id, e.around);
      if s.flights[id].phase.Done? { DoneStays(s, id, e.around); }
    } else {
      OthersLeaveFlight(s, e, id);
    }
  }

  lemma {:induction false} RequestStays(s: State, es: seq<Event>, id: nat)
    requires Inv(s) && id in s.flights
    ensures id in Run(s, es).flights && Run(s, es).flights[id].request == s.flights[id].request
    ensures s.flights[id].phase.Done? ==> Run(s, es).flights[id] == s.flights[id]
    decreases |es|
  {
    if es != [] {
      ApplyIsSound(s, es[0]);
      RequestStaysOnce(s, es[0], id);
      RequestStays(Apply(s, es[0]), es[1..], id);
    }
  }

  /** Once an unsend has answered, its message and every edit of it stay cleared, whatever happens after. */
  lemma UnsentStaysUnsent(before: seq<Event>, after: seq<Event>, id: nat)
    requires
      var s := Run(Nothing, before);
      id in s.flights && s.flights[id].request.Unsend? && s.flights[id].phase == Done(Unsent)
    ensures
      var target := Run(Nothing, before).flights[id].request.messageId;
      var messages := Run(Run(Nothing, before), after).store.messages;
      target in messages && messages[target].status.DELETED? && LiveEdits(messages, target) == {}
  {
    ReachableIsSound(before);
    var s := Run(Nothing, before);
    RunIsSound(s, after);
    RequestStays(s, after, id);
    var store := Run(s, after).store;
    var target := s.flights[id].request.messageId;
    assert PhaseIsSound(store, s.flights[id].request, Done(Unsent));
    assert forall edit | edit in store.messages && IsEditOf(store.messages[edit], target) ::
      store.messages[edit].status.DELETED?;
  }

  /** Appending one event to a run. */
  lemma {:induction false} RunSnoc(s: State, es: seq<Event>, e: Event)
    ensures Run(s, es + [e]) == Apply(Run(s, es), e)
    decreases |es|
  {
    if es == [] {
      assert Run(s, [e]) == Run(Apply(s, e), [e][1..]);
    } else {
      assert (es + [e])[1..] == es[1..] + [e];
      RunSnoc(Apply(s, es[0]), es[1..], e);
    }
  }
}
