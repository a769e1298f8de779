/**
 * What every request comes to, decision by decision: in terms of the tables and of what a step finds, with the
 * order in which the checks are made.
 */
module MessagingDecisions {
  import opened Common
  import opened Recipients
  import opened Messaging
  import opened MessagingRuns

  /** The sender has stored a message under this client id, in this conversation. */
  ghost predicate HasSent(store: Store, senderId: string, clientMessageId: Option<string>, messageId: nat) {
    && clientMessageId.Some? && messageId in store.messages
    && store.messages[messageId].senderId == senderId && store.messages[messageId].clientMessageId == clientMessageId
  }

  ghost predicate HasSentNothing(store: Store, senderId: string, clientMessageId: Option<string>) {
    forall messageId :: !HasSent(store, senderId, clientMessageId, messageId)
  }

  lemma FindsWhatWasSent(store: Store, senderId: string, clientMessageId: Option<string>)
    requires ClientIdsAreUnique(store)
    ensures
      var found := FindBySenderClientMessageId(store, senderId, clientMessageId);
      && (found.None? <==> HasSentNothing(store, senderId, clientMessageId))
      && (forall m: nat :: HasSent(store, senderId, clientMessageId, m) <==> found == Some(m))
  {
    var found := FindBySenderClientMessageId(store, senderId, clientMessageId);
    forall m: nat ensures HasSent(store, senderId, clientMessageId, m) <==> found == Some(m) {
      if HasSent(store, senderId, clientMessageId, m) {
        assert IsFor(store.messages[m], senderId, clientMessageId);
        var other := store.messages[found.value];
        assert IsFor(store.messages[m], other.senderId, other.clientMessageId);
      }
    }
  }

  /** The request is at this phase, and nothing else has changed. */
  predicate Waits(s: State, now: State, id: nat, phase: Phase) {
    id in s.flights && now == s.(flights := s.flights[id := Flight(s.flights[id].request, phase)])
  }

  predicate Refuses(s: State, now: State, id: nat, problem: Problem) { Waits(s, now, id, Done(Refused(problem))) }

  // ---------------------------------------------------------------- the first direct message

  /** The three looks of a direct request: for the pair, for the message, and at the recipient. */
  ghost function LookThrice(s: State, id: nat, around: Surroundings): State {
    Apply(Apply(Apply(s, Step(id, around)), Step(id, around)), Step(id, around))
  }

  function PairOf(senderId: string, recipientId: string): (string, string) {
    NormalizeDirectPair(senderId, recipientId)
  }

  lemma DirectDecides(s: State, id: nat, around: Surroundings)
    requires ClientIdsAreUnique(s.store)
    requires id in s.flights && s.flights[id].request.Direct? && s.flights[id].phase == LookingForPair(None, None)
    ensures
      var Direct(senderId, recipientId, draft) := s.flights[id].request;
      var after, pair := LookThrice(s, id, around), PairOf(senderId, recipientId);
      if !around.recipientFound then Refuses(s, after, id, NotFound)
      else if (senderId, recipientId) in s.blocks then Refuses(s, after, id, Forbidden)
      else if !HasSentNothing(s.store, senderId, draft.clientMessageId) then
        exists m | HasSent(s.store, senderId, draft.clientMessageId, m) ::
          if pair in s.store.pairs && s.store.pairs[pair] == s.store.messages[m].conversationId
          then Waits(s, after, id, Done(Answered(m, true)))
          else Refuses(s, after, id, Conflict)
      else if pair in s.store.pairs then Waits(s, after, id, Looking(s.store.pairs[pair], None, None))
      else if !around.passes then Refuses(s, after, id, Forbidden)
      else
        var recipient := Participant(recipientId, if around.mutual then ACTIVE else PENDING, ALL, None);
        var rings := around.mutual && (recipientId, senderId) !in s.blocks;
        Waits(s, after, id, Creating(recipient, if rings then [recipientId] else []))
  {
    var Direct(senderId, recipientId, draft) := s.flights[id].request;
    FindsWhatWasSent(s.store, senderId, draft.clientMessageId);
    var found := FindBySenderClientMessageId(s.store, senderId, draft.clientMessageId);
    var pair := FindPair(s.store, senderId, recipientId);
    LooksTwice(s, id, around);
    var looked := To(s, id, LookingForPair(Some(pair), Some(found)));
    assert recipientId in Blockers(s, senderId) <==> (recipientId, senderId) in s.blocks;
    if found.Some? { assert HasSent(s.store, senderId, draft.clientMessageId, found.value); }
    LooksLast(s, looked, id, around);
  }

  lemma LooksTwice(s: State, id: nat, around: Surroundings)
    requires id in s.flights && s.flights[id].request.Direct? && s.flights[id].phase == LookingForPair(None, None)
    ensures
      var Direct(senderId, recipientId, draft) := s.flights[id].request;
      Apply(Apply(s, Step(id, around)), Step(id, around)) ==
        To(s, id, LookingForPair(Some(FindPair(s.store, senderId, recipientId)),
                                 Some(FindBySenderClientMessageId(s.store, senderId, draft.clientMessageId))))
  {
  }

  lemma LooksLast(s: State, looked: State, id: nat, around: Surroundings)
    requires id in s.flights && s.flights[id].request.Direct?
    requires
      var Direct(senderId, recipientId, draft) := s.flights[id].request;
      looked == To(s, id, LookingForPair(Some(FindPair(s.store, senderId, recipientId)),
                                         Some(FindBySenderClientMessageId(s.store, senderId, draft.clientMessageId))))
    ensures
      var Direct(senderId, recipientId, draft) := s.flights[id].request;
      var found := FindBySenderClientMessageId(s.store, senderId, draft.clientMessageId);
      var pair := PairOf(senderId, recipientId);
      var after := Apply(looked, Step(id, around));
      if !around.recipientFound then Refuses(s, after, id, NotFound)
      else if (senderId, recipientId) in s.blocks then Refuses(s, after, id, Forbidden)
      else if found.Some? then
        if pair in s.store.pairs && s.store.pairs[pair] == s.store.messages[found.value].conversationId
        then Waits(s, after, id, Done(Answered(found.value, true)))
        else Refuses(s, after, id, Conflict)
      else if pair in s.store.pairs then Waits(s, after, id, Looking(s.store.pairs[pair], None, None))
      else if !around.passes then Refuses(s, after, id, Forbidden)
      else
        var recipient := Participant(recipientId, if around.mutual then ACTIVE else PENDING, ALL, None);
        var rings := around.mutual && recipientId !in Blockers(s, senderId);
        Waits(s, after, id, Creating(recipient, if rings then [recipientId] else []))
  {
    var after := Apply(looked, Step(id, around));
    assert after == LookForPair(looked, id, around);
    assert after.flights == s.flights[id := after.flights[id]];
  }

  /** What starting a conversation stores, all at once. */
  lemma CreatingStores(s: State, id: nat, around: Surroundings)
    requires id in s.flights && s.flights[id].request.Direct? && s.flights[id].phase.Creating?
    ensures
      var Direct(senderId, recipientId, draft) := s.flights[id].request;
      var Creating(recipient, notified) := s.flights[id].phase;
      var after, pair, place := Apply(s, Step(id, around)), PairOf(senderId, recipientId), s.store.nextId;
      if pair in s.store.pairs then Waits(s, after, id, PairTaken)
      else if !HasSentNothing(s.store, senderId, draft.clientMessageId) then Waits(s, after, id, ClientIdTaken)
      else
        var rows := [Participant(senderId, ACTIVE, ALL, None), recipient];
        var m := Message(place, senderId, draft.clientMessageId, draft.contentType, None, SENT, false, s.now,
                         [senderId, recipient.userId]);
        Waits(s.(store := Store(
          s.store.conversations[place := Conversation(DIRECT, pair, rows)], s.store.pairs[pair := place],
          s.store.messages[place + 1 := m], s.store.events + [Published(place + 1, notified, [])], place + 2)),
          after, id, Done(Answered(place + 1, false)))
  {
    var Direct(senderId, _, draft) := s.flights[id].request;
    assert HasSentNothing(s.store, senderId, draft.clientMessageId) <==>
      !Taken(s.store, senderId, draft.clientMessageId) by {
      forall m ensures HasSent(s.store, senderId, draft.clientMessageId, m) <==>
        m in s.store.messages && IsFor(s.store.messages[m], senderId, draft.clientMessageId) {
      }
    }
  }

  /** After losing a race: on to the conversation there is, or to the message there is. */
  lemma RacedGoesOn(s: State, id: nat, around: Surroundings)
    requires id in s.flights && s.flights[id].request.Direct?
    requires s.flights[id].phase.PairTaken? || s.flights[id].phase.ClientIdTaken?
    ensures
      var Direct(senderId, recipientId, _) := s.flights[id].request;
      var after, pair := Apply(s, Step(id, around)), PairOf(senderId, recipientId);
      if s.flights[id].phase.ClientIdTaken? then
        Waits(s, after, id, Recovering(if pair in s.store.pairs then Some(s.store.pairs[pair]) else None))
      else if pair in s.store.pairs then Waits(s, after, id, Looking(s.store.pairs[pair], None, None))
      else Refuses(s, after, id, Conflict)
  {
  }

  /** The message sent under the request's client id is in the conversation it was meant for. */
  ghost predicate IsWhereExpected(s: State, id: nat, messageId: nat)
    requires id in s.flights && HasDraft(s.flights[id].request) && s.flights[id].phase.Recovering?
  {
    var request := s.flights[id].request;
    && HasSent(s.store, request.senderId, request.draft.clientMessageId, messageId)
    && s.flights[id].phase.expected == Some(s.store.messages[messageId].conversationId)
  }

  lemma RecoveringDecides(s: State, id: nat, around: Surroundings)
    requires ClientIdsAreUnique(s.store)
    requires id in s.flights && HasDraft(s.flights[id].request) && s.flights[id].phase.Recovering?
    ensures
      var request := s.flights[id].request;
      var after, sender, clientId := Apply(s, Step(id, around)), request.senderId, request.draft.clientMessageId;
      if exists m: nat :: IsWhereExpected(s, id, m)
      then exists m: nat :: HasSent(s.store, sender, clientId, m) && Waits(s, after, id, Done(Answered(m, true)))
      else Refuses(s, after, id, Conflict)
  {
    FindsWhatWasSent(s.store, s.flights[id].request.senderId, s.flights[id].request.draft.clientMessageId);
    var request := s.flights[id].request;
    var found := FindBySenderClientMessageId(s.store, request.senderId, request.draft.clientMessageId);
    if found.Some? {
      assert HasSent(s.store, request.senderId, request.draft.clientMessageId, found.value);
      assert s.flights[id].phase.expected == Some(s.store.messages[found.value].conversationId) ==>
        IsWhereExpected(s, id, found.value);
    }
  }

  // ---------------------------------------------------------------- a message to a conversation there is

  /** Why the sender may not post here, by the rows; the first check that fails counts. */
  predicate MayNotPost(rows: seq<Participant>, senderId: string, why: Problem) {
    match FindRow(rows, senderId)
    case None => why == NotFound
    case Some(mine) =>
      if mine.state != ACTIVE then why == Forbidden
      else (exists p | p in rows :: p.state == LEAVING) && why == MembershipChangePending
  }

  predicate MayPostHere(rows: seq<Participant>, senderId: string) {
    && FindRow(rows, senderId).Some? && FindRow(rows, senderId).value.state == ACTIVE
    && forall p | p in rows :: p.state != LEAVING
  }

  lemma SendDecides(s: State, id: nat, around: Surroundings)
    requires ClientIdsAreUnique(s.store)
    requires id in s.flights && HasDraft(s.flights[id].request) && s.flights[id].phase.Looking?
    requires s.flights[id].phase.message.None? && s.flights[id].phase.rows.None?
    ensures
      var request, place := s.flights[id].request, s.flights[id].phase.conversationId;
      var after := LookThrice(s, id, around);
      var sender, clientId := request.senderId, request.draft.clientMessageId;
      if !HasSentNothing(s.store, sender, clientId) then
        exists m | HasSent(s.store, sender, clientId, m) ::
          if s.store.messages[m].conversationId == place then Waits(s, after, id, Done(Answered(m, true)))
          else Refuses(s, after, id, Conflict)
      else if place !in s.store.conversations then Refuses(s, after, id, NotFound)
      else
        var rows := s.store.conversations[place].participants;
        if MayPostHere(rows, sender) then
          if around.passes then Waits(s, after, id, Resolving(place, rows)) else Refuses(s, after, id, Forbidden)
        else exists why :: MayNotPost(rows, sender, why) && Refuses(s, after, id, why)
  {
    var request, place := s.flights[id].request, s.flights[id].phase.conversationId;
    var sender, clientId := request.senderId, request.draft.clientMessageId;
    FindsWhatWasSent(s.store, sender, clientId);
    var found := FindBySenderClientMessageId(s.store, sender, clientId);
    LooksAtBoth(s, id, around);
    var looked := To(s, id, Looking(place, Some(found), Some(RowsOf(s.store, place))));
    if found.Some? { assert HasSent(s.store, sender, clientId, found.value); }
    LooksAtRows(s, looked, id, around);
  }

  lemma LooksAtBoth(s: State, id: nat, around: Surroundings)
    requires id in s.flights && HasDraft(s.flights[id].request) && s.flights[id].phase.Looking?
    requires s.flights[id].phase.message.None? && s.flights[id].phase.rows.None?
    ensures
      var request, place := s.flights[id].request, s.flights[id].phase.conversationId;
      Apply(Apply(s, Step(id, around)), Step(id, around)) ==
        To(s, id, Looking(place,
          Some(FindBySenderClientMessageId(s.store, request.senderId, request.draft.clientMessageId)),
          Some(RowsOf(s.store, place))))
  {
  }

  lemma LooksAtRows(s: State, looked: State, id: nat, around: Surroundings)
    requires id in s.flights && HasDraft(s.flights[id].request) && s.flights[id].phase.Looking?
    requires
      var request, place := s.flights[id].request, s.flights[id].phase.conversationId;
      looked == To(s, id, Looking(place,
        Some(FindBySenderClientMessageId(s.store, request.senderId, request.draft.clientMessageId)),
        Some(RowsOf(s.store, place))))
    ensures
      var request, place := s.flights[id].request, s.flights[id].phase.conversationId;
      var after := Apply(looked, Step(id, around));
      var found := FindBySenderClientMessageId(s.store, request.senderId, request.draft.clientMessageId);
      if found.Some? then
        if s.store.messages[found.value].conversationId == place
        then Waits(s, after, id, Done(Answered(found.value, true)))
        else Refuses(s, after, id, Conflict)
      else if place !in s.store.conversations then Refuses(s, after, id, NotFound)
      else
        var rows := s.store.conversations[place].participants;
        if MayPostHere(rows, request.senderId) then
          if around.passes then Waits(s, after, id, Resolving(place, rows)) else Refuses(s, after, id, Forbidden)
        else exists why :: MayNotPost(rows, request.senderId, why) && Refuses(s, after, id, why)
  {
    var request, place := s.flights[id].request, s.flights[id].phase.conversationId;
    var after := Apply(looked, Step(id, around));
    assert after.flights == s.flights[id := after.flights[id]];
    if place in s.store.conversations { PostingIs(s.store.conversations[place].participants, request.senderId); }
  }

  lemma PostingIs(rows: seq<Participant>, senderId: string)
    ensures WhyNotPost(rows, senderId).None? <==> MayPostHere(rows, senderId)
    ensures WhyNotPost(rows, senderId).Some? ==> MayNotPost(rows, senderId, WhyNotPost(rows, senderId).value)
  {
  }

  /** With the conversation still there, the recipients are worked out, and the request goes on to the lock. */
  lemma ResolvingGoesOn(s: State, id: nat, around: Surroundings)
    requires id in s.flights && HasDraft(s.flights[id].request) && s.flights[id].phase.Resolving?
    ensures
      var request, Resolving(place, before) := s.flights[id].request, s.flights[id].phase;
      var after := Apply(s, Step(id, around));
      if place !in s.store.conversations then Refuses(s, after, id, NotFound)
      else
        var blockers := set b | b in s.blocks && b.1 == request.senderId :: b.0;
        var send := Send(s.store.conversations[place].kind, request.senderId, request.draft.mentioned, blockers, s.now);
        Waits(s, after, id, Committing(place, before, send, ResolveRecipients(send, before)))
  {
  }

  /** Under the lock the rows are looked at again; whoever is no longer there is refused like whoever is not ACTIVE. */
  lemma CommitDecides(s: State, id: nat, around: Surroundings)
    requires id in s.flights && HasDraft(s.flights[id].request) && s.flights[id].phase.Committing?
    ensures
      var request, place := s.flights[id].request, s.flights[id].phase.conversationId;
      var after := Apply(s, Step(id, around));
      if place !in s.store.conversations then Refuses(s, after, id, Forbidden)
      else
        var rows := s.store.conversations[place].participants;
        var mine := FindRow(rows, request.senderId);
        if mine.None? || mine.value.state != ACTIVE then Refuses(s, after, id, Forbidden)
        else if (exists p | p in rows :: p.state == LEAVING) || around.deviceMissing then
          Refuses(s, after, id, MembershipChangePending)
        else if !HasSentNothing(s.store, request.senderId, request.draft.clientMessageId) then
          Waits(s, after, id, Recovering(Some(place)))
        else
          && id in after.flights && after.flights[id].phase == Done(Answered(s.store.nextId, false))
          && s.store.nextId in after.store.messages
  {
    var request := s.flights[id].request;
    assert HasSentNothing(s.store, request.senderId, request.draft.clientMessageId) <==>
      !Taken(s.store, request.senderId, request.draft.clientMessageId) by {
      forall m ensures HasSent(s.store, request.senderId, request.draft.clientMessageId, m) <==>
        m in s.store.messages && IsFor(s.store.messages[m], request.senderId, request.draft.clientMessageId) {
      }
    }
  }

  // ---------------------------------------------------------------- edits

  /** A retry of an edit is told of it; the same client id used for anything else is a conflict. */
  lemma EditLooks(s: State, id: nat, around: Surroundings)
    requires ClientIdsAreUnique(s.store)
    requires id in s.flights && s.flights[id].request.Edit?
    requires s.flights[id].phase.LookingForEdit? || s.flights[id].phase.RecoveringEdit?
    ensures
      var Edit(userId, target, clientId) := s.flights[id].request;
      var after := Apply(s, Step(id, around));
      if !HasSentNothing(s.store, userId, Some(clientId)) then
        exists m | HasSent(s.store, userId, Some(clientId), m) ::
          if s.store.messages[m].editsMessageId == Some(target) then Waits(s, after, id, Done(Answered(m, true)))
          else Refuses(s, after, id, Conflict)
      else Waits(s, after, id,
        if s.flights[id].phase.LookingForEdit? then CheckingEdit else Done(Refused(Conflict)))
  {
    var Edit(userId, target, clientId) := s.flights[id].request;
    FindsWhatWasSent(s.store, userId, Some(clientId));
    var found := FindBySenderClientMessageId(s.store, userId, Some(clientId));
    if found.Some? { assert HasSent(s.store, userId, Some(clientId), found.value); }
  }

  /** Only the sender's own text message, still sent and at most a quarter of an hour old, goes on to be edited. */
  lemma EditIsChecked(s: State, id: nat, around: Surroundings)
    requires id in s.flights && s.flights[id].request.Edit? && s.flights[id].phase.CheckingEdit?
    ensures
      var Edit(userId, target, _) := s.flights[id].request;
      var after := Apply(s, Step(id, around));
      if target !in s.store.messages || s.store.messages[target].status == DELETED
        || s.store.messages[target].contentType == EDIT
        || s.store.messages[target].conversationId !in s.store.conversations
      then Refuses(s, after, id, NotFound)
      else
        var m := s.store.messages[target];
        var rows := s.store.conversations[m.conversationId].participants;
        if !MayPostHere(rows, userId) then exists why :: MayNotPost(rows, userId, why) && Refuses(s, after, id, why)
        else if !around.passes || m.senderId != userId then Refuses(s, after, id, Forbidden)
        else if m.contentType != TEXT || s.now > m.createdAt + 15 * 60 * 1000 then Refuses(s, after, id, BadRequest)
        else Waits(s, after, id, CommittingEdit)
  {
    var Edit(userId, target, _) := s.flights[id].request;
    if target in s.store.messages && s.store.messages[target].conversationId in s.store.conversations {
      PostingIs(s.store.conversations[s.store.messages[target].conversationId].participants, userId);
    }
  }

  /** Ten edits at most, of a message still sent; the edit goes to everyone the conversation reaches. */
  lemma EditCommits(s: State, id: nat, around: Surroundings)
    requires id in s.flights && s.flights[id].request.Edit? && s.flights[id].phase.CommittingEdit?
    ensures
      var Edit(userId, target, clientId) := s.flights[id].request;
      var after := Apply(s, Step(id, around));
      if target !in s.store.messages || s.store.messages[target].conversationId !in s.store.conversations then
        Refuses(s, after, id, NotFound)
      else
        var m := s.store.messages[target];
        var conversation := s.store.conversations[m.conversationId];
        var edits := set e | e in s.store.messages
          && s.store.messages[e].editsMessageId == Some(target) && s.store.messages[e].status == SENT;
        if !MayPostHere(conversation.participants, userId) then
          exists why :: MayNotPost(conversation.participants, userId, why) && Refuses(s, after, id, why)
        else if !around.passes then Refuses(s, after, id, Forbidden)
        else if m.status == DELETED then Refuses(s, after, id, NotFound)
        else if |edits| >= 10 then Refuses(s, after, id, BadRequest)
        else if !HasSentNothing(s.store, userId, Some(clientId)) then Waits(s, after, id, RecoveringEdit)
        else
          var receipts := EligibleIds(conversation.kind, conversation.participants);
          var edit := Message(m.conversationId, m.senderId, Some(clientId), EDIT, Some(target), SENT, false, s.now,
                              receipts);
          Waits(s.(store := s.store.(
            messages := s.store.messages[target := m.(edited := true)][s.store.nextId := edit],
            nextId := s.store.nextId + 1)), after, id, Done(Answered(s.store.nextId, false)))
  {
    var Edit(userId, target, clientId) := s.flights[id].request;
    if target in s.store.messages && s.store.messages[target].conversationId in s.store.conversations {
      PostingIs(s.store.conversations[s.store.messages[target].conversationId].participants, userId);
      assert LiveEdits(s.store.messages, target) == set e | e in s.store.messages
        && s.store.messages[e].editsMessageId == Some(target) && s.store.messages[e].status == SENT;
    }
    assert HasSentNothing(s.store, userId, Some(clientId)) <==> !Taken(s.store, userId, Some(clientId)) by {
      forall m ensures HasSent(s.store, userId, Some(clientId), m) <==>
        m in s.store.messages && IsFor(s.store.messages[m], userId, Some(clientId)) {
      }
    }
  }

  lemma {:induction false} EligibleAre(kind: ConversationType, rows: seq<Participant>, userId: string)
    ensures userId in EligibleIds(kind, rows) <==> exists p | p in rows :: p.userId == userId && IsReachable(kind, p)
  {
    if rows != [] {
      EligibleAre(kind, rows[1..], userId);
      assert forall p :: p in rows <==> p == rows[0] || p in rows[1..];
    }
  }

  // ---------------------------------------------------------------- unsending

  lemma UnsendIsChecked(s: State, id: nat, around: Surroundings)
    requires id in s.flights && s.flights[id].request.Unsend? && s.flights[id].phase.CheckingUnsend?
    ensures
      var Unsend(userId, target) := s.flights[id].request;
      var after := Apply(s, Step(id, around));
      if target !in s.store.messages || s.store.messages[target].status == DELETED
        || s.store.messages[target].contentType == EDIT
      then Refuses(s, after, id, NotFound)
      else if s.store.messages[target].senderId != userId || !around.passes then Refuses(s, after, id, Forbidden)
      else Waits(s, after, id, Unsending)
  {
  }
  // ---------------------------------------------------------------- what happens around the requests

  /** Of the conversations, a membership change replaces one's rows and a new group adds one. */
  ghost predicate ConversationsAfter(s: State, e: Event, next: State, id: nat) {
    && (id in s.store.conversations ==>
          && id in next.store.conversations
          && next.store.conversations[id] ==
               if e.Membership? && e.conversationId == id && CleanIds(e.participants)
               then s.store.conversations[id].(participants := e.participants)
               else s.store.conversations[id])
    && (id !in s.store.conversations ==>
          && (id in next.store.conversations <==> e.NewGroup? && id == s.store.nextId && CleanIds(e.participants))
          && (id in next.store.conversations ==>
                next.store.conversations[id] == Conversation(GROUP, ("", ""), e.participants)))
  }

  /** It has looked at nothing yet; nobody writes to themselves. */
  predicate Begins(request: Request, phase: Phase) {
    match request
    case Direct(senderId, recipientId, _) =>
      phase == if senderId == recipientId then Done(Refused(BadRequest)) else LookingForPair(None, None)
    case SendTo(_, conversationId, _) => phase == Looking(conversationId, None, None)
    case Edit(_, _, _) => phase.LookingForEdit?
    case Unsend(_, _) => phase.CheckingUnsend?
  }

  /** The clock, the blocks and the people move by themselves; a request comes with nothing written. */
  lemma TheWorldMoves(es: seq<Event>, e: Event)
    requires !e.Step?
    ensures
      var s, next := Run(Nothing, es), Apply(Run(Nothing, es), e);
      && next.now == s.now + (if e.Tick? then e.ms else 0)
      && (forall a, b :: (a, b) in next.blocks <==>
            if e.Block? && e.blocker == a && e.blocked == b then e.on else (a, b) in s.blocks)
      && next.store.messages == s.store.messages && next.store.events == s.store.events
      && next.store.pairs == s.store.pairs
      && (forall id: nat :: ConversationsAfter(s, e, next, id))
      && (forall id | id in s.flights :: id in next.flights && next.flights[id] == s.flights[id])
      && (forall id | id in next.flights && id !in s.flights ::
            && e.Arrive? && e.id == id && next.flights[id].request == e.request
            && Begins(e.request, next.flights[id].phase))
      && (e.Arrive? && IsCleanRequest(e.request) ==> e.id in next.flights)
  {
    ReachableIsSound(es);
    NewPlaceIsFree(Run(Nothing, es));
    WorldMoves(Run(Nothing, es), e);
  }

  lemma NewPlaceIsFree(s: State)
    requires Inv(s)
    ensures s.store.nextId !in s.store.conversations
  {
  }

  lemma WorldMoves(s: State, e: Event)
    requires !e.Step? && s.store.nextId !in s.store.conversations
    ensures
      var next := Apply(s, e);
      && next.now == s.now + (if e.Tick? then e.ms else 0)
      && (forall a, b :: (a, b) in next.blocks <==>
            if e.Block? && e.blocker == a && e.blocked == b then e.on else (a, b) in s.blocks)
      && next.store.messages == s.store.messages && next.store.events == s.store.events
      && next.store.pairs == s.store.pairs
      && (forall id: nat :: ConversationsAfter(s, e, next, id))
      && (forall id | id in s.flights :: id in next.flights && next.flights[id] == s.flights[id])
      && (forall id | id in next.flights && id !in s.flights ::
            && e.Arrive? && e.id == id && next.flights[id].request == e.request
            && Begins(e.request, next.flights[id].phase))
      && (e.Arrive? && IsCleanRequest(e.request) ==> e.id in next.flights)
  {
  }
}
