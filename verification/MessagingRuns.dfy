/**
 * Any number of requests - first direct messages, sends, edits, unsends, and retries of each - between
 * membership changes, blocks and the passing of time. Each read outside a transaction is a step of its
 * own; a transaction, which checks again under the conversation's lock, is one step.
 */
module MessagingRuns {
  import opened Common
  import opened Recipients
  import opened Messaging

  datatype Draft = Draft(clientMessageId: Option<string>, contentType: ContentType, mentioned: set<string>)

  datatype Request =
    | Direct(senderId: string, recipientId: string, draft: Draft)
    | SendTo(senderId: string, conversationId: nat, draft: Draft)
    | Edit(senderId: string, messageId: nat, clientMessageId: string)
    | Unsend(senderId: string, messageId: nat)

  datatype Problem = BadRequest | NotFound | Forbidden | Conflict | MembershipChangePending

  datatype Outcome =
    | Answered(messageId: nat, duplicate: bool)
    | Unsent
    | Refused(problem: Problem)

  /** Reads still to come are `None`. */
  datatype Phase =
    | LookingForPair(pair: Option<Option<nat>>, message: Option<Option<nat>>)
    | Creating(recipient: Participant, notified: seq<string>)
    | PairTaken
    | ClientIdTaken
    | Looking(conversationId: nat, message: Option<Option<nat>>, rows: Option<Option<seq<Participant>>>)
    | Resolving(conversationId: nat, before: seq<Participant>)
    | Committing(conversationId: nat, before: seq<Participant>, send: Send, recipients: Resolved)
    | Recovering(expected: Option<nat>)
    | LookingForEdit
    | CheckingEdit
    | CommittingEdit
    | RecoveringEdit
    | CheckingUnsend
    | Unsending
    | Done(outcome: Outcome)

  datatype Flight = Flight(request: Request, phase: Phase)

  datatype State = State(now: int, blocks: set<(string, string)>, store: Store, flights: map<nat, Flight>)

  /**
   * What a step finds outside the model: which of two concurrent reads comes back first, whether a direct
   * message's recipient is an active user, whether the checks left out here pass (reply target, media, reading
   * rights, message requests, a block by the sender in a chat there is), whether the two people follow each other,
   * and whether a member's device is still missing from the encryption group.
   */
  datatype Surroundings = Surroundings(
    firstReadFirst: bool, recipientFound: bool, passes: bool, mutual: bool, deviceMissing: bool)

  datatype Event =
    | Tick(ms: nat)
    | Block(blocker: string, blocked: string, on: bool)
    | NewGroup(participants: seq<Participant>)
    | Membership(conversationId: nat, participants: seq<Participant>)
    | Arrive(id: nat, request: Request)
    | Step(id: nat, around: Surroundings)

  // ---------------------------------------------------------------- reads and checks

  /** `findDirectPair` for these two people. */
  function FindPair(store: Store, a: string, b: string): Option<nat> {
    var pair := NormalizeDirectPair(a, b);
    if pair in store.pairs then Some(store.pairs[pair]) else None
  }

  function RowsOf(store: Store, conversationId: nat): Option<seq<Participant>> {
    if conversationId in store.conversations then Some(store.conversations[conversationId].participants) else None
  }

  function FindRow(rows: seq<Participant>, userId: string): (row: Option<Participant>)
    ensures row.Some? ==> row.value in rows && row.value.userId == userId
    ensures row.None? ==> forall p | p in rows :: p.userId != userId
  {
    if rows == [] then None
    else if rows[0].userId == userId then Some(rows[0])
    else FindRow(rows[1..], userId)
  }

  predicate AnyoneLeaving(rows: seq<Participant>) {
    exists p | p in rows :: p.state.LEAVING?
  }

  /** `assertSenderCanPost`; whether the sender blocked the other side is part of the surroundings. */
  function WhyNotPost(rows: seq<Participant>, senderId: string): Option<Problem> {
    var mine := FindRow(rows, senderId);
    if mine.None? then Some(NotFound)
    else if !mine.value.state.ACTIVE? then Some(Forbidden)
    else if AnyoneLeaving(rows) then Some(MembershipChangePending)
    else None
  }

  /** The same checks as a statement about the rows. */
  predicate MayPost(rows: seq<Participant>, senderId: string) {
    (exists p | p in rows :: p.userId == senderId && p.state == ACTIVE) && forall p | p in rows :: p.state != LEAVING
  }

  function Blockers(s: State, senderId: string): set<string> {
    set b | b in s.blocks && b.1 == senderId :: b.0
  }

  function NewMessage(
      s: State, conversationId: nat, senderId: string, draft: Draft, receiptUserIds: seq<string>): Message
  {
    Message(conversationId, senderId, draft.clientMessageId, draft.contentType, None, SENT, false, s.now,
      receiptUserIds)
  }

  function NewEdit(s: State, target: nat, clientMessageId: string): Message
    requires target in s.store.messages && s.store.messages[target].conversationId in s.store.conversations
  {
    var m := s.store.messages[target];
    var conversation := s.store.conversations[m.conversationId];
    Message(m.conversationId, m.senderId, Some(clientMessageId), EDIT, Some(target), SENT, false, s.now,
            EligibleIds(conversation.kind, conversation.participants))
  }

  function EligibleIds(kind: ConversationType, rows: seq<Participant>): seq<string> {
    if rows == [] then []
    else (if IsStateDeliveryEligible(kind, rows[0].state) then [rows[0].userId] else []) + EligibleIds(kind, rows[1..])
  }

  // ---------------------------------------------------------------- a request's next step

  function To(s: State, id: nat, phase: Phase): State
    requires id in s.flights
  {
    s.(flights := s.flights[id := s.flights[id].(phase := phase)])
  }

  function Refuse(s: State, id: nat, problem: Problem): State
    requires id in s.flights
  {
    To(s, id, Done(Refused(problem)))
  }

  function FirstPhase(request: Request): Phase {
    match request
    case Direct(senderId, recipientId, _) =>
      if senderId == recipientId then Done(Refused(BadRequest)) else LookingForPair(None, None)
    case SendTo(_, conversationId, _) => Looking(conversationId, None, None)
    case Edit(_, _, _) => LookingForEdit
    case Unsend(_, _) => CheckingUnsend
  }

  /** The recipient is there, and the sender has not blocked them. */
  function WhyNotReach(s: State, request: Request, around: Surroundings): Option<Problem>
    requires request.Direct?
  {
    if !around.recipientFound then Some(NotFound)
    else if (request.senderId, request.recipientId) in s.blocks then Some(Forbidden)
    else None
  }

  ghost function LookForPair(s: State, id: nat, around: Surroundings): State
    requires id in s.flights && s.flights[id].request.Direct? && s.flights[id].phase.LookingForPair?
  {
    var Direct(senderId, recipientId, draft) := s.flights[id].request;
    var LookingForPair(pair, message) := s.flights[id].phase;
    if pair.None? && (around.firstReadFirst || message.Some?) then
      To(s, id, LookingForPair(Some(FindPair(s.store, senderId, recipientId)), message))
    else if message.None? then
      To(s, id, LookingForPair(pair, Some(FindBySenderClientMessageId(s.store, senderId, draft.clientMessageId))))
    else if WhyNotReach(s, s.flights[id].request, around).Some? then
      Refuse(s, id, WhyNotReach(s, s.flights[id].request, around).value)
    else if message.value.Some? then
      if message.value.value in s.store.messages
        && pair.value == Some(s.store.messages[message.value.value].conversationId)
      then To(s, id, Done(Answered(message.value.value, true)))
      else Refuse(s, id, Conflict)
    else if pair.value.Some? then To(s, id, Looking(pair.value.value, None, None))
    else if !around.passes then Refuse(s, id, Forbidden)
    else
      var recipient := Participant(recipientId, if around.mutual then ACTIVE else PENDING, ALL, None);
      var send := Send(DIRECT, senderId, {}, Blockers(s, senderId), s.now);
      To(s, id, Creating(recipient, if IsNotifiable(send, recipient) then [recipientId] else []))
  }

  /** The pair is inserted before the message, so when both would clash the pair is the one that fails. */
  ghost function Create(s: State, id: nat): State
    requires id in s.flights && s.flights[id].request.Direct? && s.flights[id].phase.Creating?
  {
    var Direct(senderId, recipientId, draft) := s.flights[id].request;
    if NormalizeDirectPair(senderId, recipientId) in s.store.pairs then To(s, id, PairTaken)
    else if Taken(s.store, senderId, draft.clientMessageId) then To(s, id, ClientIdTaken)
    else To(s.(store := CreatedStore(s, id)), id, Done(Answered(s.store.nextId + 1, false)))
  }

  function CreatedStore(s: State, id: nat): Store
    requires id in s.flights && s.flights[id].request.Direct? && s.flights[id].phase.Creating?
  {
    var Direct(senderId, recipientId, draft) := s.flights[id].request;
    var Creating(recipient, notified) := s.flights[id].phase;
    var rows := [Participant(senderId, ACTIVE, ALL, None), recipient];
    var m := NewMessage(s, s.store.nextId, senderId, draft, [senderId, recipient.userId]);
    CreateDirect(s.store, NormalizeDirectPair(senderId, recipientId), rows, m, notified)
  }

  ghost function Look(s: State, id: nat, around: Surroundings): State
    requires id in s.flights && HasDraft(s.flights[id].request) && s.flights[id].phase.Looking?
  {
    var request := s.flights[id].request;
    var Looking(conversationId, message, rows) := s.flights[id].phase;
    if message.None? && (around.firstReadFirst || rows.Some?) then
      To(s, id,
        Looking(conversationId,
          Some(FindBySenderClientMessageId(s.store, request.senderId, request.draft.clientMessageId)), rows))
    else if rows.None? then To(s, id, Looking(conversationId, message, Some(RowsOf(s.store, conversationId))))
    else To(s, id, AfterLooking(s.store, request.senderId, conversationId, message.value, rows.value, around.passes))
  }

  /** With both reads back: a duplicate, a conflict, a refusal, or on to resolving recipients. */
  function AfterLooking(
    store: Store, senderId: string, conversationId: nat, message: Option<nat>, rows: Option<seq<Participant>>,
      passes: bool): Phase
  {
    if message.Some? then
      if message.value in store.messages && store.messages[message.value].conversationId == conversationId
      then Done(Answered(message.value, true))
      else Done(Refused(Conflict))
    else if rows.None? then Done(Refused(NotFound))
    else
      var why := WhyNotPost(rows.value, senderId);
      if why.Some? then Done(Refused(why.value))
      else if !passes then Done(Refused(Forbidden))
      else Resolving(conversationId, rows.value)
  }

  predicate HasDraft(request: Request) { request.Direct? || request.SendTo? }

  /** Blocks and mutes are read before the lock is taken. */
  function Resolve(s: State, id: nat): State
    requires id in s.flights && HasDraft(s.flights[id].request) && s.flights[id].phase.Resolving?
  {
    var request := s.flights[id].request;
    var Resolving(conversationId, before) := s.flights[id].phase;
    if conversationId !in s.store.conversations then Refuse(s, id, NotFound)
    else
      var send := Send(s.store.conversations[conversationId].kind, request.senderId, request.draft.mentioned,
                       Blockers(s, request.senderId), s.now);
      To(s, id, Committing(conversationId, before, send, ResolveRecipients(send, before)))
  }

  /** Who the message goes to, decided under the lock: worked out again only if the participants' key changed. */
  function LockedRecipients(s: State, senderId: string, locked: seq<Participant>, phase: Phase): Resolved
    requires phase.Committing?
  {
    if ParticipantsKey(locked) == ParticipantsKey(phase.before) then phase.recipients
    else ResolveRecipients(phase.send.(blockers := Blockers(s, senderId), now := s.now), locked)
  }

  ghost function CommitMessage(s: State, id: nat, around: Surroundings): State
    requires id in s.flights && HasDraft(s.flights[id].request) && s.flights[id].phase.Committing?
  {
    var request := s.flights[id].request;
    var conversationId := s.flights[id].phase.conversationId;
    var rows := RowsOf(s.store, conversationId);
    var why := WhyNotCommit(rows, request.senderId, around.deviceMissing);
    if why.Some? then Refuse(s, id, why.value)
    else if Taken(s.store, request.senderId, request.draft.clientMessageId) then
      To(s, id, Recovering(Some(conversationId)))
    else To(s.(store := CommittedStore(s, id, rows.value)), id, Done(Answered(s.store.nextId, false)))
  }

  /**
   * The checks under the lock; unlike the ones before it, someone no longer there is refused like someone not
   * ACTIVE.
   */
  function WhyNotCommit(rows: Option<seq<Participant>>, senderId: string, deviceMissing: bool): (why: Option<Problem>)
    ensures why.None? ==> rows.Some? && MayPost(rows.value, senderId) && !deviceMissing
  {
    var mine := if rows.Some? then FindRow(rows.value, senderId) else None;
    if mine.None? || !mine.value.state.ACTIVE? then Some(Forbidden)
    else if AnyoneLeaving(rows.value) || deviceMissing then Some(MembershipChangePending)
    else None
  }

  function CommittedStore(s: State, id: nat, locked: seq<Participant>): Store
    requires id in s.flights && HasDraft(s.flights[id].request) && s.flights[id].phase.Committing?
  {
    var request := s.flights[id].request;
    var recipients := LockedRecipients(s, request.senderId, locked, s.flights[id].phase);
    var m :=
      NewMessage(s, s.flights[id].phase.conversationId, request.senderId, request.draft, recipients.deliverableIds);
    CreateMessage(s.store, m, recipients.notifiableIds, recipients.mentionedIds)
  }

  /** The message already stored under this client id, if it is where this request wanted it. */
  ghost function Recover(s: State, id: nat): State
    requires id in s.flights && HasDraft(s.flights[id].request) && s.flights[id].phase.Recovering?
  {
    var request := s.flights[id].request;
    var found := FindBySenderClientMessageId(s.store, request.senderId, request.draft.clientMessageId);
    if found.Some? && s.flights[id].phase.expected == Some(s.store.messages[found.value].conversationId)
    then To(s, id, Done(Answered(found.value, true)))
    else Refuse(s, id, Conflict)
  }

  /** `findDuplicate`, and where to go when there is none. */
  ghost function LookForEdit(s: State, id: nat, otherwise: Phase): State
    requires id in s.flights && s.flights[id].request.Edit?
  {
    var Edit(userId, target, clientMessageId) := s.flights[id].request;
    var found := FindBySenderClientMessageId(s.store, userId, Some(clientMessageId));
    if found.None? then To(s, id, otherwise)
    else if !IsEditOf(s.store.messages[found.value], target) then Refuse(s, id, Conflict)
    else To(s, id, Done(Answered(found.value, true)))
  }

  function CheckEdit(s: State, id: nat, around: Surroundings): State
    requires id in s.flights && s.flights[id].request.Edit?
  {
    var Edit(userId, target, _) := s.flights[id].request;
    if target !in s.store.messages || !s.store.messages[target].status.SENT?
      || s.store.messages[target].contentType.EDIT?
    then Refuse(s, id, NotFound)
    else
      var m := s.store.messages[target];
      var rows := RowsOf(s.store, m.conversationId);
      var why := if rows.None? then Some(NotFound) else WhyNotPost(rows.value, userId);
      if why.Some? then Refuse(s, id, why.value)
      else if !around.passes || m.senderId != userId then Refuse(s, id, Forbidden)
      else if !m.contentType.TEXT? || s.now - m.createdAt > MESSAGE_EDIT_WINDOW_MS then Refuse(s, id, BadRequest)
      else To(s, id, CommittingEdit)
  }

  /** Stamping the original, counting its edits and storing one more, all or nothing. */
  ghost function CommitEdit(s: State, id: nat, around: Surroundings): State
    requires id in s.flights && s.flights[id].request.Edit?
  {
    var Edit(userId, target, clientMessageId) := s.flights[id].request;
    if target !in s.store.messages || s.store.messages[target].conversationId !in s.store.conversations then
      Refuse(s, id, NotFound)
    else
      var why := WhyNotPost(s.store.conversations[s.store.messages[target].conversationId].participants, userId);
      if why.Some? then Refuse(s, id, why.value)
      else if !around.passes then Refuse(s, id, Forbidden)
      else if !s.store.messages[target].status.SENT? then Refuse(s, id, NotFound)
      else if |LiveEdits(s.store.messages, target)| >= MAX_EDITS_PER_MESSAGE then Refuse(s, id, BadRequest)
      else if Taken(s.store, userId, Some(clientMessageId)) then To(s, id, RecoveringEdit)
      else To(s.(store := CreateEdit(s.store, target, NewEdit(s, target, clientMessageId))), id,
        Done(Answered(s.store.nextId, false)))
  }

  function CheckUnsend(s: State, id: nat, around: Surroundings): State
    requires id in s.flights && s.flights[id].request.Unsend?
  {
    var Unsend(userId, target) := s.flights[id].request;
    if target !in s.store.messages || !s.store.messages[target].status.SENT?
      || s.store.messages[target].contentType.EDIT?
    then Refuse(s, id, NotFound)
    else if s.store.messages[target].senderId != userId || !around.passes then Refuse(s, id, Forbidden)
    else To(s, id, Unsending)
  }

  ghost function AdvanceDirect(s: State, id: nat, around: Surroundings): State
    requires id in s.flights && s.flights[id].request.Direct?
  {
    var request := s.flights[id].request;
    match s.flights[id].phase
    case LookingForPair(_, _) => LookForPair(s, id, around)
    case Creating(_, _) => Create(s, id)
    case PairTaken =>
      var raced := FindPair(s.store, request.senderId, request.recipientId);
      if raced.Some? then To(s, id, Looking(raced.value, None, None)) else Refuse(s, id, Conflict)
    case ClientIdTaken => To(s, id, Recovering(FindPair(s.store, request.senderId, request.recipientId)))
    case _ => s
  }

  ghost function AdvanceSend(s: State, id: nat, around: Surroundings): State
    requires id in s.flights && HasDraft(s.flights[id].request)
  {
    match s.flights[id].phase
    case Looking(_, _, _) => Look(s, id, around)
    case Resolving(_, _) => Resolve(s, id)
    case Committing(_, _, _, _) => CommitMessage(s, id, around)
    case Recovering(_) => Recover(s, id)
    case _ => s
  }

  ghost function AdvanceEdit(s: State, id: nat, around: Surroundings): State
    requires id in s.flights && s.flights[id].request.Edit?
  {
    match s.flights[id].phase
    case LookingForEdit => LookForEdit(s, id, CheckingEdit)
    case CheckingEdit => CheckEdit(s, id, around)
    case CommittingEdit => CommitEdit(s, id, around)
    case RecoveringEdit => LookForEdit(s, id, Done(Refused(Conflict)))
    case _ => s
  }

  ghost function AdvanceUnsend(s: State, id: nat, around: Surroundings): State
    requires id in s.flights && s.flights[id].request.Unsend?
  {
    match s.flights[id].phase
    case CheckingUnsend => CheckUnsend(s, id, around)
    case Unsending => To(s.(store := SoftDelete(s.store, s.flights[id].request.messageId)), id, Done(Unsent))
    case _ => s
  }

  predicate IsDirectPhase(phase: Phase) {
    phase.LookingForPair? || phase.Creating? || phase.PairTaken? || phase.ClientIdTaken?
  }

  ghost function Advance(s: State, id: nat, around: Surroundings): State
    requires id in s.flights
  {
    match s.flights[id].request
    case Direct(_, _, _) =>
      if IsDirectPhase(s.flights[id].phase) then AdvanceDirect(s, id, around) else AdvanceSend(s, id, around)
    case SendTo(_, _, _) => AdvanceSend(s, id, around)
    case Edit(_, _, _) => AdvanceEdit(s, id, around)
    case Unsend(_, _) => AdvanceUnsend(s, id, around)
  }

  predicate IsCleanId(userId: string) { ':' !in userId && ',' !in userId }

  /** User ids never hold the separators of the participants' key. */
  predicate IsCleanRequest(request: Request) {
    request.Direct? ==> IsCleanId(request.senderId) && IsCleanId(request.recipientId)
  }

  ghost function Apply(s: State, e: Event): State {
    match e
    case Tick(ms) => s.(now := s.now + ms)
    case Block(blocker, blocked, on) =>
      s.(blocks := if on then s.blocks + {(blocker, blocked)} else s.blocks - {(blocker, blocked)})
    case NewGroup(rows) =>
      if CleanIds(rows) then s.(store := NewConversation(s.store, Conversation(GROUP, ("", ""), rows))) else s
    case Membership(conversationId, rows) =>
      if conversationId in s.store.conversations && CleanIds(rows) then
        s.(store := WithRows(s.store, conversationId, rows))
      else s
    case Arrive(id, request) =>
      if id in s.flights || !IsCleanRequest(request) then s
      else s.(flights := s.flights[id := Flight(request, FirstPhase(request))])
    case Step(id, around) => if id in s.flights then Advance(s, id, around) else s
  }

  function NewConversation(store: Store, conversation: Conversation): Store {
    store.(conversations := store.conversations[store.nextId := conversation], nextId := store.nextId + 1)
  }

  function WithRows(store: Store, conversationId: nat, rows: seq<Participant>): Store
    requires conversationId in store.conversations
  {
    var conversation := store.conversations[conversationId].(participants := rows);
    store.(conversations := store.conversations[conversationId := conversation])
  }

  ghost function Run(s: State, es: seq<Event>): State
    decreases |es|
  {
    if es == [] then s else Run(Apply(s, es[0]), es[1..])
  }

  // ---------------------------------------------------------------- what is never undone

  predicate SameOrigin(a: Message, b: Message) {
    && a.conversationId == b.conversationId && a.senderId == b.senderId && a.clientMessageId == b.clientMessageId
    && a.contentType == b.contentType && a.editsMessageId == b.editsMessageId && a.createdAt == b.createdAt
    && a.receiptUserIds == b.receiptUserIds
    && (a.status.DELETED? ==> b.status.DELETED?) && (a.edited ==> b.edited)
  }

  predicate Grows(a: Store, b: Store) {
    && (forall id | id in a.messages :: id in b.messages && SameOrigin(a.messages[id], b.messages[id]))
    && (forall id | id in a.conversations :: 
          id in b.conversations && b.conversations[id].kind == a.conversations[id].kind
            && b.conversations[id].pair == a.conversations[id].pair)
    && (forall pair | pair in a.pairs :: pair in b.pairs && b.pairs[pair] == a.pairs[pair])
    && a.nextId <= b.nextId && a.events <= b.events
  }

  // ---------------------------------------------------------------- what every reachable state satisfies

  /** Every message is in a conversation that exists, and every conversation's people have clean ids. */
  predicate PlacesAreSound(store: Store) {
    && (forall id | id in store.conversations :: CleanIds(store.conversations[id].participants))
    && (forall id | id in store.messages :: store.messages[id].conversationId in store.conversations)
  }

  /** The conversation is the one the request is for. */
  predicate IsPlaceOf(store: Store, request: Request, conversationId: nat) {
    match request
    case Direct(senderId, recipientId, _) => FindPair(store, senderId, recipientId) == Some(conversationId)
    case SendTo(_, wanted, _) => conversationId == wanted
    case _ => false
  }

  /** The message is this request's: same sender, same client id, and where the request wanted it. */
  predicate IsAnswerTo(store: Store, request: Request, messageId: nat) {
    && messageId in store.messages
    && store.messages[messageId].senderId == request.senderId
    && match request
       case Direct(_, _, draft) =>
         store.messages[messageId].clientMessageId == draft.clientMessageId
           && IsPlaceOf(store, request, store.messages[messageId].conversationId)
       case SendTo(_, _, draft) =>
         store.messages[messageId].clientMessageId == draft.clientMessageId
           && IsPlaceOf(store, request, store.messages[messageId].conversationId)
       case Edit(_, target, clientMessageId) =>
         store.messages[messageId].clientMessageId == Some(clientMessageId)
           && IsEditOf(store.messages[messageId], target)
       case Unsend(_, _) => false
  }

  predicate FoundIsRight(store: Store, request: Request, found: Option<nat>)
    requires HasDraft(request)
  {
    found.Some? ==>
      found.value in store.messages
        && IsFor(store.messages[found.value], request.senderId, request.draft.clientMessageId)
  }

  predicate HoldsClientId(store: Store, request: Request)
    requires request.Direct?
  {
    exists id | id in store.messages :: IsFor(store.messages[id], request.senderId, request.draft.clientMessageId)
  }

  /** The conversation is the direct one of the request's two people. */
  predicate IsBetween(conversation: Conversation, request: Request)
    requires request.Direct?
  {
    conversation.kind.DIRECT? && conversation.pair == NormalizeDirectPair(request.senderId, request.recipientId)
  }

  /** The request's client id is taken by a message to somebody else. */
  predicate IsTakenElsewhere(store: Store, request: Request)
    requires request.Direct?
  {
    exists id | id in store.messages :: IsHeldElsewhere(store, request, store.messages[id])
  }

  predicate IsHeldElsewhere(store: Store, request: Request, m: Message)
    requires request.Direct?
  {
    && IsFor(m, request.senderId, request.draft.clientMessageId)
    && m.conversationId in store.conversations && !IsBetween(store.conversations[m.conversationId], request)
  }

  predicate MayEdit(store: Store, userId: string, target: nat) {
    && target in store.messages && store.messages[target].senderId == userId && store.messages[target].contentType.TEXT?
  }

  /** What a request remembers from its reads that cannot have become wrong since. */
  predicate PhaseIsSound(store: Store, request: Request, phase: Phase) {
    match phase
    case LookingForPair(pair, message) =>
      && request.Direct?
      && (pair.Some? && pair.value.Some? ==> IsPlaceOf(store, request, pair.value.value))
      && (message.Some? ==> FoundIsRight(store, request, message.value))
    case Creating(recipient, notified) =>
      && request.Direct? && recipient.userId == request.recipientId
      && (notified == [] || notified == [recipient.userId])
    case PairTaken => request.Direct?
    case ClientIdTaken => request.Direct? && HoldsClientId(store, request)
    case Looking(conversationId, message, rows) =>
      && HasDraft(request) && IsPlaceOf(store, request, conversationId)
      && (message.Some? ==> FoundIsRight(store, request, message.value))
      && (rows.Some? && rows.value.Some? ==> conversationId in store.conversations && CleanIds(rows.value.value))
    case Resolving(conversationId, before) =>
      && HasDraft(request) && IsPlaceOf(store, request, conversationId)
      && conversationId in store.conversations && CleanIds(before)
    case Committing(conversationId, before, send, recipients) =>
      && HasDraft(request) && IsPlaceOf(store, request, conversationId)
      && conversationId in store.conversations && CleanIds(before)
      && send.kind == store.conversations[conversationId].kind && send.senderId == request.senderId
      && send.mentioned == request.draft.mentioned
      && recipients == ResolveRecipients(send, before)
    case Recovering(expected) =>
      HasDraft(request) && if expected.Some? then IsPlaceOf(store, request, expected.value)
        else request.Direct? && IsTakenElsewhere(store, request)
    case LookingForEdit => request.Edit?
    case CheckingEdit => request.Edit?
    case CommittingEdit => request.Edit? && MayEdit(store, request.senderId, request.messageId)
    case RecoveringEdit => request.Edit?
    case CheckingUnsend => request.Unsend?
    case Unsending =>
      request.Unsend? && request.messageId in store.messages
        && store.messages[request.messageId].senderId == request.senderId
    case Done(Answered(messageId, _)) => IsAnswerTo(store, request, messageId)
    case Done(Unsent) =>
      request.Unsend? && request.messageId in store.messages && store.messages[request.messageId].status.DELETED?
    case Done(Refused(_)) => true
  }

  predicate FlightsAreSound(s: State) {
    forall id | id in s.flights ::
      IsCleanRequest(s.flights[id].request) && PhaseIsSound(s.store, s.flights[id].request, s.flights[id].phase)
  }

  ghost predicate Inv(s: State) {
    SoundStore(s.store) && PlacesAreSound(s.store) && FlightsAreSound(s)
  }

  const Nothing := State(0, {}, Store(map[], map[], map[], [], 0), map[])

  lemma PhaseStaysSound(a: Store, b: Store, request: Request, phase: Phase)
    requires Grows(a, b) && PhaseIsSound(a, request, phase)
    ensures PhaseIsSound(b, request, phase)
  {
    if phase.ClientIdTaken? {
      var id :| id in a.messages && IsFor(a.messages[id], request.senderId, request.draft.clientMessageId);
      assert IsFor(b.messages[id], request.senderId, request.draft.clientMessageId);
    } else if phase.Recovering? && phase.expected.None? {
      var id :| id in a.messages && IsHeldElsewhere(a, request, a.messages[id]);
      assert IsHeldElsewhere(b, request, b.messages[id]);
    }
  }

  // ---------------------------------------------------------------- every write only adds, unsends or stamps

  lemma CreateDirectGrows(
      store: Store, pair: (string, string), participants: seq<Participant>, m: Message, notified: seq<string>)
    requires IdsAreOld(store) && pair !in store.pairs
    ensures Grows(store, CreateDirect(store, pair, participants, m, notified))
  {
  }

  lemma CreateEditGrows(store: Store, target: nat, edit: Message)
    requires IdsAreOld(store) && target in store.messages
    ensures Grows(store, CreateEdit(store, target, edit))
  {
  }

  lemma NewConversationKeepsSound(store: Store, rows: seq<Participant>)
    requires SoundStore(store) && PlacesAreSound(store) && CleanIds(rows)
    ensures
      var after := NewConversation(store, Conversation(GROUP, ("", ""), rows));
      SoundStore(after) && PlacesAreSound(after) && Grows(store, after)
  {
    assert forall id | HasEvent(store, id) :: HasEvent(NewConversation(store, Conversation(GROUP, ("", ""), rows)), id);
  }

  lemma WithRowsKeepsSound(store: Store, conversationId: nat, rows: seq<Participant>)
    requires SoundStore(store) && PlacesAreSound(store) && CleanIds(rows) && conversationId in store.conversations
    ensures
      var after := WithRows(store, conversationId, rows);
      SoundStore(after) && PlacesAreSound(after) && Grows(store, after)
  {
    assert forall id | HasEvent(store, id) :: HasEvent(WithRows(store, conversationId, rows), id);
  }

  // ---------------------------------------------------------------- one step of one request

  /** The request moves, no other does, and everything stays as it must be. */
  ghost predicate StepIsSound(s: State, id: nat, next: State) {
    && id in s.flights && id in next.flights
    && next.flights == s.flights[id := next.flights[id]] && next.flights[id].request == s.flights[id].request
    && SoundStore(next.store) && PlacesAreSound(next.store) && Grows(s.store, next.store)
    && PhaseIsSound(next.store, next.flights[id].request, next.flights[id].phase)
  }

  /** A step that only reads, and remembers only what will stay right. */
  predicate Reads(s: State, id: nat, next: State) {
    && id in s.flights && id in next.flights
    && next == To(s, id, next.flights[id].phase)
    && PhaseIsSound(s.store, s.flights[id].request, next.flights[id].phase)
  }

  predicate Ready(s: State, id: nat) {
    id in s.flights && PlacesAreSound(s.store) && PhaseIsSound(s.store, s.flights[id].request, s.flights[id].phase)
  }

  lemma LookForPairReads(s: State, id: nat, around: Surroundings)
    requires Ready(s, id) && s.flights[id].request.Direct? && s.flights[id].phase.LookingForPair?
    ensures Reads(s, id, LookForPair(s, id, around))
  {
  }

  lemma LookReads(s: State, id: nat, around: Surroundings)
    requires Ready(s, id) && HasDraft(s.flights[id].request) && s.flights[id].phase.Looking?
    ensures Reads(s, id, Look(s, id, around))
  {
    var Looking(conversationId, message, rows) := s.flights[id].phase;
  }

  predicate Stores(s: State, id: nat, next: State, store: Store, messageId: nat)
    requires id in s.flights
  {
    next == To(s.(store := store), id, Done(Answered(messageId, false)))
  }

  lemma CreateReadsOrStores(s: State, id: nat)
    requires Ready(s, id) && s.flights[id].request.Direct? && s.flights[id].phase.Creating?
    ensures
      var request := s.flights[id].request;
      || Reads(s, id, Create(s, id))
      || (NormalizeDirectPair(request.senderId, request.recipientId) !in s.store.pairs
          && !Taken(s.store, request.senderId, request.draft.clientMessageId)
          && Stores(s, id, Create(s, id), CreatedStore(s, id), s.store.nextId + 1))
  {
  }

  lemma CreateIsSound(s: State, id: nat)
    requires Inv(s) && id in s.flights && s.flights[id].request.Direct? && s.flights[id].phase.Creating?
    ensures StepIsSound(s, id, Create(s, id))
  {
    CreateReadsOrStores(s, id);
    if Reads(s, id, Create(s, id)) {
    } else {
      CreatedStoreIsSound(s, id);
    }
  }

  lemma CreatedStoreIsSound(s: State, id: nat)
    requires Inv(s) && id in s.flights && s.flights[id].request.Direct? && s.flights[id].phase.Creating?
    requires NormalizeDirectPair(s.flights[id].request.senderId, s.flights[id].request.recipientId) !in s.store.pairs
    requires !Taken(s.store, s.flights[id].request.senderId, s.flights[id].request.draft.clientMessageId)
    ensures SoundStore(CreatedStore(s, id)) && Grows(s.store, CreatedStore(s, id))
    ensures PlacesAreSound(CreatedStore(s, id))
    ensures IsAnswerTo(CreatedStore(s, id), s.flights[id].request, s.store.nextId + 1)
  {
    var Direct(senderId, recipientId, draft) := s.flights[id].request;
    var Creating(recipient, notified) := s.flights[id].phase;
    var pair := NormalizeDirectPair(senderId, recipientId);
    var rows := [Participant(senderId, ACTIVE, ALL, None), recipient];
    var m := NewMessage(s, s.store.nextId, senderId, draft, [senderId, recipient.userId]);
    CreateDirectKeepsSound(s.store, pair, rows, m, notified);
    CreateDirectGrows(s.store, pair, rows, m, notified);
  }

  lemma CommittedStoreIsSound(s: State, id: nat, locked: seq<Participant>)
    requires Inv(s) && id in s.flights && HasDraft(s.flights[id].request) && s.flights[id].phase.Committing?
    requires !Taken(s.store, s.flights[id].request.senderId, s.flights[id].request.draft.clientMessageId)
    ensures
      var store := CommittedStore(s, id, locked);
      SoundStore(store) && Grows(s.store, store) && PlacesAreSound(store)
        && IsAnswerTo(store, s.flights[id].request, s.store.nextId)
  {
    var request := s.flights[id].request;
    var recipients := LockedRecipients(s, request.senderId, locked, s.flights[id].phase);
    var m :=
      NewMessage(s, s.flights[id].phase.conversationId, request.senderId, request.draft, recipients.deliverableIds);
    CreateMessageKeepsSound(s.store, m, recipients.notifiableIds, recipients.mentionedIds);
  }

  lemma CommitMessageReadsOrStores(s: State, id: nat, around: Surroundings)
    requires Ready(s, id) && HasDraft(s.flights[id].request) && s.flights[id].phase.Committing?
    ensures
      var next := CommitMessage(s, id, around);
      var request := s.flights[id].request;
      || Reads(s, id, next)
      || (s.flights[id].phase.conversationId in s.store.conversations
          && var locked := s.store.conversations[s.flights[id].phase.conversationId].participants;
          && MayPost(locked, request.senderId) && !around.deviceMissing
          && !Taken(s.store, request.senderId, request.draft.clientMessageId)
          && Stores(s, id, next, CommittedStore(s, id, locked), s.store.nextId))
  {
    var request := s.flights[id].request;
    var rows := RowsOf(s.store, s.flights[id].phase.conversationId);
    var why := WhyNotCommit(rows, request.senderId, around.deviceMissing);
    if why.None? && !Taken(s.store, request.senderId, request.draft.clientMessageId) {
      assert Stores(s, id, CommitMessage(s, id, around), CommittedStore(s, id, rows.value), s.store.nextId);
    } else {
      assert Reads(s, id, CommitMessage(s, id, around));
    }
  }

  lemma CommitMessageIsSound(s: State, id: nat, around: Surroundings)
    requires Inv(s) && id in s.flights && HasDraft(s.flights[id].request) && s.flights[id].phase.Committing?
    ensures StepIsSound(s, id, CommitMessage(s, id, around))
  {
    CommitMessageReadsOrStores(s, id, around);
    if Reads(s, id, CommitMessage(s, id, around)) {
    } else {
      var locked := s.store.conversations[s.flights[id].phase.conversationId].participants;
      CommittedStoreIsSound(s, id, locked);
    }
  }

  lemma OtherSendStepsRead(s: State, id: nat, around: Surroundings)
    requires Ready(s, id) && HasDraft(s.flights[id].request)
    requires !IsDirectPhase(s.flights[id].phase) && !s.flights[id].phase.Looking? && !s.flights[id].phase.Committing?
    ensures Reads(s, id, AdvanceSend(s, id, around))
  {
  }

  lemma AdvanceSendIsSound(s: State, id: nat, around: Surroundings)
    requires Inv(s) && id in s.flights && HasDraft(s.flights[id].request) && !IsDirectPhase(s.flights[id].phase)
    ensures StepIsSound(s, id, AdvanceSend(s, id, around))
  {
    if s.flights[id].phase.Looking? {
      LookReads(s, id, around);
    } else if s.flights[id].phase.Committing? {
      CommitMessageIsSound(s, id, around);
    } else {
      OtherSendStepsRead(s, id, around);
    }
  }

  /** Whoever finds no pair after the client id clashed knows the message that holds it is to somebody else. */
  lemma ClientIdTakenReads(s: State, id: nat, around: Surroundings)
    requires Ready(s, id) && PairsMatch(s.store) && s.flights[id].request.Direct? && s.flights[id].phase.ClientIdTaken?
    ensures Reads(s, id, AdvanceDirect(s, id, around))
  {
    var request := s.flights[id].request;
    if FindPair(s.store, request.senderId, request.recipientId).None? {
      var m :| m in s.store.messages && IsFor(s.store.messages[m], request.senderId, request.draft.clientMessageId);
      assert IsHeldElsewhere(s.store, request, s.store.messages[m]);
    }
  }

  lemma AdvanceDirectIsSound(s: State, id: nat, around: Surroundings)
    requires Inv(s) && id in s.flights && s.flights[id].request.Direct? && IsDirectPhase(s.flights[id].phase)
    ensures StepIsSound(s, id, AdvanceDirect(s, id, around))
  {
    if s.flights[id].phase.Creating? {
      CreateIsSound(s, id);
    } else {
      if s.flights[id].phase.LookingForPair? { LookForPairReads(s, id, around); }
      if s.flights[id].phase.ClientIdTaken? { ClientIdTakenReads(s, id, around); }
    }
  }

  /** What the edit's transaction checked, when it stored one. */
  ghost predicate EditGoesThrough(s: State, userId: string, target: nat, clientMessageId: string) {
    && target in s.store.messages && s.store.messages[target].conversationId in s.store.conversations
    && s.store.messages[target].status.SENT?
    && MayPost(s.store.conversations[s.store.messages[target].conversationId].participants, userId)
    && |LiveEdits(s.store.messages, target)| < MAX_EDITS_PER_MESSAGE
    && !Taken(s.store, userId, Some(clientMessageId))
  }

  lemma CommitEditReadsOrStores(s: State, id: nat, around: Surroundings)
    requires Ready(s, id) && s.flights[id].request.Edit? && s.flights[id].phase.CommittingEdit?
    ensures
      var Edit(userId, target, clientMessageId) := s.flights[id].request;
      var next := CommitEdit(s, id, around);
      || Reads(s, id, next)
      || (EditGoesThrough(s, userId, target, clientMessageId)
          && Stores(s, id, next, CreateEdit(s.store, target, NewEdit(s, target, clientMessageId)), s.store.nextId))
  {
  }

  lemma CommitEditIsSound(s: State, id: nat, around: Surroundings)
    requires Inv(s) && id in s.flights && s.flights[id].request.Edit? && s.flights[id].phase.CommittingEdit?
    ensures StepIsSound(s, id, CommitEdit(s, id, around))
  {
    var Edit(userId, target, clientMessageId) := s.flights[id].request;
    CommitEditReadsOrStores(s, id, around);
    if Reads(s, id, CommitEdit(s, id, around)) {
    } else {
      var edit := NewEdit(s, target, clientMessageId);
      CreateEditKeepsSound(s.store, target, edit);
      CreateEditGrows(s.store, target, edit);
    }
  }

  lemma CheckEditReads(s: State, id: nat, around: Surroundings)
    requires id in s.flights && s.flights[id].request.Edit?
    ensures Reads(s, id, CheckEdit(s, id, around))
  {
  }

  lemma OtherEditStepsRead(s: State, id: nat, around: Surroundings)
    requires Ready(s, id) && s.flights[id].request.Edit? && !s.flights[id].phase.CommittingEdit?
    ensures Reads(s, id, AdvanceEdit(s, id, around))
  {
    match s.flights[id].phase {
      case LookingForEdit =>
      case CheckingEdit => CheckEditReads(s, id, around);
      case RecoveringEdit =>
      case _ =>
    }
  }

  lemma AdvanceEditIsSound(s: State, id: nat, around: Surroundings)
    requires Inv(s) && id in s.flights && s.flights[id].request.Edit?
    ensures StepIsSound(s, id, AdvanceEdit(s, id, around))
  {
    if s.flights[id].phase.CommittingEdit? {
      CommitEditIsSound(s, id, around);
    } else {
      OtherEditStepsRead(s, id, around);
    }
  }

  lemma OtherUnsendStepsRead(s: State, id: nat, around: Surroundings)
    requires Ready(s, id) && s.flights[id].request.Unsend? && !s.flights[id].phase.Unsending?
    ensures Reads(s, id, AdvanceUnsend(s, id, around))
  {
  }

  lemma SoftDeleteGrows(store: Store, target: nat)
    requires PlacesAreSound(store)
    ensures Grows(store, SoftDelete(store, target)) && PlacesAreSound(SoftDelete(store, target))
    ensures target in store.messages ==> SoftDelete(store, target).messages[target].status.DELETED?
  {
  }

  lemma AdvanceUnsendIsSound(s: State, id: nat, around: Surroundings)
    requires Inv(s) && id in s.flights && s.flights[id].request.Unsend?
    ensures StepIsSound(s, id, AdvanceUnsend(s, id, around))
  {
    if s.flights[id].phase.Unsending? {
      var target := s.flights[id].request.messageId;
      SoftDeleteKeepsSound(s.store, target);
      SoftDeleteGrows(s.store, target);
    } else {
      OtherUnsendStepsRead(s, id, around);
    }
  }

  lemma AdvanceIsSound(s: State, id: nat, around: Surroundings)
    requires Inv(s) && id in s.flights
    ensures StepIsSound(s, id, Advance(s, id, around))
  {
    match s.flights[id].request {
      case Direct(_, _, _) =>
        if IsDirectPhase(s.flights[id].phase) {
          AdvanceDirectIsSound(s, id, around);
        } else {
          AdvanceSendIsSound(s, id, around);
        }
      case SendTo(_, _, _) => AdvanceSendIsSound(s, id, around);
      case Edit(_, _, _) => AdvanceEditIsSound(s, id, around);
      case Unsend(_, _) => AdvanceUnsendIsSound(s, id, around);
    }
  }

  lemma StoreStepIsSound(s: State, store: Store)
    requires Inv(s) && SoundStore(store) && PlacesAreSound(store) && Grows(s.store, store)
    ensures Inv(s.(store := store))
  {
    forall id | id in s.flights ensures PhaseIsSound(store, s.flights[id].request, s.flights[id].phase) {
      PhaseStaysSound(s.store, store, s.flights[id].request, s.flights[id].phase);
    }
  }

  lemma OthersStaySound(s: State, id: nat, next: State)
    requires FlightsAreSound(s) && StepIsSound(s, id, next)
    ensures FlightsAreSound(next)
  {
    forall other | other in next.flights
      ensures IsCleanRequest(next.flights[other].request)
      ensures PhaseIsSound(next.store, next.flights[other].request, next.flights[other].phase)
    {
      if other != id { PhaseStaysSound(s.store, next.store, s.flights[other].request, s.flights[other].phase); }
    }
  }

  lemma NewGroupIsSound(s: State, rows: seq<Participant>)
    requires Inv(s)
    ensures Inv(Apply(s, NewGroup(rows))) && Grows(s.store, Apply(s, NewGroup(rows)).store)
  {
    if CleanIds(rows) {
      NewConversationKeepsSound(s.store, rows);
      StoreStepIsSound(s, NewConversation(s.store, Conversation(GROUP, ("", ""), rows)));
    }
  }

  lemma MembershipIsSound(s: State, conversationId: nat, rows: seq<Participant>)
    requires Inv(s)
    ensures Inv(Apply(s, Membership(conversationId, rows)))
    ensures Grows(s.store, Apply(s, Membership(conversationId, rows)).store)
  {
    if conversationId in s.store.conversations && CleanIds(rows) {
      WithRowsKeepsSound(s.store, conversationId, rows);
      StoreStepIsSound(s, WithRows(s.store, conversationId, rows));
    }
  }

  lemma SoundStepKeeps(s: State, id: nat, next: State)
    requires Inv(s) && StepIsSound(s, id, next)
    ensures Inv(next) && Grows(s.store, next.store)
  {
    OthersStaySound(s, id, next);
  }

  lemma StepKeepsSound(s: State, id: nat, around: Surroundings)
    requires Inv(s)
    ensures Inv(Apply(s, Step(id, around))) && Grows(s.store, Apply(s, Step(id, around)).store)
  {
    if id in s.flights {
      AdvanceIsSound(s, id, around);
      SoundStepKeeps(s, id, Advance(s, id, around));
    }
  }

  lemma ArrivalIsSound(s: State, id: nat, request: Request)
    requires FlightsAreSound(s)
    ensures FlightsAreSound(Apply(s, Arrive(id, request))) && Apply(s, Arrive(id, request)).store == s.store
  {
  }

  lemma ApplyIsSound(s: State, e: Event)
    requires Inv(s)
    ensures Inv(Apply(s, e)) && Grows(s.store, Apply(s, e).store)
  {
    match e {
      case NewGroup(rows) => NewGroupIsSound(s, rows);
      case Membership(conversationId, rows) => MembershipIsSound(s, conversationId, rows);
      case Arrive(id, request) => ArrivalIsSound(s, id, request);
      case Step(id, around) => StepKeepsSound(s, id, around);
      case Tick(_) =>
      case Block(_, _, _) =>
    }
  }

  // ---------------------------------------------------------------- whole runs

  lemma GrowsOn(a: Store, b: Store, c: Store)
    requires Grows(a, b) && Grows(b, c)
    ensures Grows(a, c)
  {
  }

  lemma {:induction false} RunIsSound(s: State, es: seq<Event>)
    requires Inv(s)
    ensures Inv(Run(s, es)) && Grows(s.store, Run(s, es).store)
    decreases |es|
  {
    if es != [] {
      ApplyIsSound(s, es[0]);
      RunIsSound(Apply(s, es[0]), es[1..]);
      GrowsOn(s.store, Apply(s, es[0]).store, Run(s, es).store);
    }
  }

  lemma ReachableIsSound(es: seq<Event>)
    ensures Inv(Run(Nothing, es))
  {
    RunIsSound(Nothing, es);
  }
}
