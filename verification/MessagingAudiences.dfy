/** Who a stored message reaches, person by person: by the rows under the lock, and by the blocks of one read. */
module MessagingAudiences {
  import opened Common
  import opened Recipients
  import opened Messaging
  import opened MessagingRuns
  import opened MessagingRules

  // ---------------------------------------------------------------- what was read before the lock

  /** A send as worked out at this state: these people had blocked the sender, and this was the clock. */
  ghost predicate IsReadAt(s: State, send: Send) {
    send.now == s.now && forall b :: b in send.blockers <==> (b, send.senderId) in s.blocks
  }

  /** At its own step out of `Resolving` it was so. */
  ghost predicate WasRead(es: seq<Event>, id: nat, send: Send) {
    exists k | 0 <= k < |es| ::
      var then_ := Run(Nothing, es[..k]);
      && es[k].Step? && es[k].id == id && id in then_.flights && then_.flights[id].phase.Resolving?
      && IsReadAt(then_, send)
  }

  lemma ResolvingReads(s: State, id: nat, around: Surroundings)
    requires id in s.flights && HasDraft(s.flights[id].request) && s.flights[id].phase.Resolving?
    ensures
      var next := Apply(s, Step(id, around));
      id in next.flights && (next.flights[id].phase.Committing? ==>
        IsReadAt(s, next.flights[id].phase.send) && next.flights[id].phase.before == s.flights[id].phase.before)
  {
  }

  lemma CommittingComesFromResolving(s: State, e: Event, id: nat)
    requires Inv(s) && id in Apply(s, e).flights && Apply(s, e).flights[id].phase.Committing?
    ensures id in s.flights
    ensures s.flights[id] == Apply(s, e).flights[id]
      || (e.Step? && e.id == id && s.flights[id].phase.Resolving? && IsReadAt(s, Apply(s, e).flights[id].phase.send))
  {
    if id in s.flights {
      if e.Step? && e.id == id {
        OwnStepToCommitting(s, id, e.around);
      } else {
        OthersLeaveFlight(s, e, id);
      }
    } else {
      ArrivesUncommitted(s, e, id);
    }
  }

  lemma ArrivesUncommitted(s: State, e: Event, id: nat)
    requires Inv(s) && id !in s.flights && id in Apply(s, e).flights
    ensures !Apply(s, e).flights[id].phase.Committing?
  {
    if e.Step? && e.id in s.flights { AdvanceMovesOne(s, e.id, e.around); }
  }

  lemma OwnStepToCommitting(s: State, id: nat, around: Surroundings)
    requires Inv(s) && id in s.flights
    requires
      var next := Apply(s, Step(id, around));
      id in next.flights && next.flights[id].phase.Committing?
    ensures s.flights[id].phase.Resolving? && IsReadAt(s, Apply(s, Step(id, around)).flights[id].phase.send)
  {
    assert PhaseIsSound(s.store, s.flights[id].request, s.flights[id].phase);
    if s.flights[id].phase.Resolving? { ResolvingReads(s, id, around); } else { NoOtherStepCommits(s, id, around); }
  }

  lemma NoOtherStepCommits(s: State, id: nat, around: Surroundings)
    requires id in s.flights && !s.flights[id].phase.Resolving?
    requires PhaseIsSound(s.store, s.flights[id].request, s.flights[id].phase)
    ensures id in Advance(s, id, around).flights && !Advance(s, id, around).flights[id].phase.Committing?
  {
  }

  lemma {:induction false} CommittingWasRead(es: seq<Event>, id: nat)
    requires id in Run(Nothing, es).flights && Run(Nothing, es).flights[id].phase.Committing?
    ensures WasRead(es, id, Run(Nothing, es).flights[id].phase.send)
    decreases |es|
  {
    if es != [] {
      var before, e := es[..|es| - 1], es[|es| - 1];
      assert before + [e] == es;
      ReachableIsSound(before);
      RunSnoc(Nothing, before, e);
      var was := Run(Nothing, before);
      var send := Run(Nothing, es).flights[id].phase.send;
      CommittingComesFromResolving(was, e, id);
      if was.flights[id].phase.Committing? {
        CommittingWasRead(before, id);
        var k :| 0 <= k < |before| && before[k].Step? && before[k].id == id
          && id in Run(Nothing, before[..k]).flights && Run(Nothing, before[..k]).flights[id].phase.Resolving?
          && IsReadAt(Run(Nothing, before[..k]), send);
        assert es[..k] == before[..k] && es[k] == before[k];
      } else {
        assert es[..|before|] == before;
      }
    }
  }

  // ---------------------------------------------------------------- person by person

  /** Whom this message reaches, by these rows, these blocks of the sender and this clock. */
  predicate ReachesJust(
      m: Message, event: Published, kind: ConversationType, rows: seq<Participant>, blockers: set<string>,
      mentioned: set<string>, now: int, userId: string)
  {
    var isSender := userId == m.senderId;
    && (userId in m.receiptUserIds <==>
          exists p | p in rows :: p.userId == userId && (isSender || IsReachable(kind, p)))
    && (userId in event.recipientUserIds <==>
          && !isSender && userId !in blockers
          && exists p | p in rows :: p.userId == userId && p.state == ACTIVE && IsRung(p, now))
    && (userId in event.mentionedUserIds <==>
          && !isSender && userId !in blockers && userId in mentioned
          && exists p | p in rows :: p.userId == userId && p.state == ACTIVE)
  }

  /** A message of this request, just stored. */
  predicate IsMessageOf(m: Message, request: Request, conversationId: nat, now: int)
    requires HasDraft(request)
  {
    && m.senderId == request.senderId && m.clientMessageId == request.draft.clientMessageId
    && m.contentType == request.draft.contentType && m.conversationId == conversationId
    && m.editsMessageId.None? && m.status == SENT && !m.edited && m.createdAt == now
  }

  lemma SameMembers(a: seq<string>, b: seq<string>, x: string)
    requires multiset(a) == multiset(b)
    ensures x in a <==> x in b
  {
    assert x in a <==> x in multiset(a);
    assert x in b <==> x in multiset(b);
  }

  /**
   * A message stored by a send reaches exactly those it should among the people under the lock: the blocks and the
   * clock are those of the read before the lock when the same people were there then, and those at the lock when
   * not. So nobody who had blocked the sender at that read hears of it or is mentioned by it.
   */
  lemma MessageReachesJust(es: seq<Event>, id: nat, around: Surroundings, userId: string)
    requires
      var s := Run(Nothing, es);
      && id in s.flights && HasDraft(s.flights[id].request) && s.flights[id].phase.Committing?
      && IsNew(s.store, Apply(s, Step(id, around)).store, s.store.nextId)
    ensures
      var s, after := Run(Nothing, es), Apply(Run(Nothing, es), Step(id, around)).store;
      var phase, request := s.flights[id].phase, s.flights[id].request;
      var conversationId := phase.conversationId;
      && conversationId in s.store.conversations && |after.events| == |s.store.events| + 1
      && var conversation := s.store.conversations[conversationId];
      var m, event := after.messages[s.store.nextId], after.events[|s.store.events|];
      && IsMessageOf(m, request, conversationId, s.now) && event.messageId == s.store.nextId
      && if multiset(conversation.participants) == multiset(phase.before)
         then
           && WasRead(es, id, phase.send)
           && ReachesJust(m, event, conversation.kind, conversation.participants, phase.send.blockers,
                          request.draft.mentioned, phase.send.now, userId)
         else
           ReachesJust(m, event, conversation.kind, conversation.participants,
                       set b | b in s.blocks && b.1 == request.senderId :: b.0,
                       request.draft.mentioned, s.now, userId)
  {
    ReachableIsSound(es);
    CommittingWasRead(es, id);
    CommitReachesJust(Run(Nothing, es), id, around, userId);
  }

  /** The same of any sound state, for the blocks and the clock the request carries. */
  lemma CommitReachesJust(s: State, id: nat, around: Surroundings, userId: string)
    requires Inv(s) && id in s.flights && HasDraft(s.flights[id].request) && s.flights[id].phase.Committing?
    requires IsNew(s.store, Apply(s, Step(id, around)).store, s.store.nextId)
    ensures
      var after, phase, request := Apply(s, Step(id, around)).store, s.flights[id].phase, s.flights[id].request;
      && phase.conversationId in s.store.conversations && |after.events| == |s.store.events| + 1
      && var conversation := s.store.conversations[phase.conversationId];
      var m, event := after.messages[s.store.nextId], after.events[|s.store.events|];
      && IsMessageOf(m, request, phase.conversationId, s.now) && event.messageId == s.store.nextId
      && if multiset(conversation.participants) == multiset(phase.before)
         then
           ReachesJust(m, event, conversation.kind, conversation.participants, phase.send.blockers,
                       request.draft.mentioned, phase.send.now, userId)
         else
           ReachesJust(m, event, conversation.kind, conversation.participants,
                       set b | b in s.blocks && b.1 == request.senderId :: b.0,
                       request.draft.mentioned, s.now, userId)
  {
    var phase := s.flights[id].phase;
    assert PhaseIsSound(s.store, s.flights[id].request, phase);
    CommitMessageReadsOrStores(s, id, around);
    ReachesWhomItShould(s, id, around, userId);
    KeyIsExact(s.store.conversations[phase.conversationId].participants, phase.before);
  }

  /** The recipients kept or worked out again under the lock, person by person. */
  lemma LockedRecipientsAre(s: State, id: nat, rows: seq<Participant>, userId: string)
    requires Inv(s) && id in s.flights && s.flights[id].phase.Committing? && CleanIds(rows)
    ensures
      var send := SendAtCommit(s, id, rows);
      var got := LockedRecipients(s, s.flights[id].request.senderId, rows, s.flights[id].phase);
      var right := ResolveRecipients(send, rows);
      && (userId in got.deliverableIds <==> userId in right.deliverableIds)
      && (userId in got.notifiableIds <==> userId in right.notifiableIds)
      && (userId in got.mentionedIds <==> userId in right.mentionedIds)
  {
    LockedRecipientsAreRight(s, id, rows);
    var got := LockedRecipients(s, s.flights[id].request.senderId, rows, s.flights[id].phase);
    var right := ResolveRecipients(SendAtCommit(s, id, rows), rows);
    SameMembers(got.deliverableIds, right.deliverableIds, userId);
    SameMembers(got.notifiableIds, right.notifiableIds, userId);
    SameMembers(got.mentionedIds, right.mentionedIds, userId);
  }

  lemma ReachesWhomItShould(s: State, id: nat, around: Surroundings, userId: string)
    requires Inv(s) && id in s.flights && HasDraft(s.flights[id].request) && s.flights[id].phase.Committing?
    requires IsNew(s.store, CommitMessage(s, id, around).store, s.store.nextId)
    ensures
      var after, phase := CommitMessage(s, id, around).store, s.flights[id].phase;
      && phase.conversationId in s.store.conversations && |after.events| == |s.store.events| + 1
      && var conversation := s.store.conversations[phase.conversationId];
      var send := SendAtCommit(s, id, conversation.participants);
      var m, event := after.messages[s.store.nextId], after.events[|s.store.events|];
      && IsMessageOf(m, s.flights[id].request, phase.conversationId, s.now) && event.messageId == s.store.nextId
      && ReachesJust(m, event, conversation.kind, conversation.participants, send.blockers, send.mentioned, send.now,
                     userId)
  {
    var phase := s.flights[id].phase;
    assert PhaseIsSound(s.store, s.flights[id].request, phase);
    CommitMessageReadsOrStores(s, id, around);
    var rows := s.store.conversations[phase.conversationId].participants;
    var send := SendAtCommit(s, id, rows);
    LockedRecipientsAre(s, id, rows, userId);
    RecipientsAre(send, rows, userId);
  }
}
