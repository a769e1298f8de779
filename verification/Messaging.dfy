/** The message tables: conversations, direct pairs, messages with their edits, and published events. */
module Messaging {
  import opened Common
  import opened Recipients

  const MAX_EDITS_PER_MESSAGE := 10
  const MESSAGE_EDIT_WINDOW_MS := 15 * 60 * 1000

  datatype Status = SENT | DELETED

  /** The content type is the client's to choose; only rows the edit path wrote point at another message. */
  datatype ContentType = TEXT | EDIT | OTHER

  datatype Message = Message(
    conversationId: nat, senderId: string, clientMessageId: Option<string>, contentType: ContentType,
    editsMessageId: Option<nat>, status: Status, edited: bool, createdAt: int, receiptUserIds: seq<string>)

  /** The `chat.message.sent` event of one message. */
  datatype Published = Published(messageId: nat, recipientUserIds: seq<string>, mentionedUserIds: seq<string>)

  datatype Conversation = Conversation(kind: ConversationType, pair: (string, string), participants: seq<Participant>)

  datatype Store = Store(
    conversations: map<nat, Conversation>, pairs: map<(string, string), nat>,
    messages: map<nat, Message>, events: seq<Published>, nextId: nat)

  /** `[a, b].sort()`. */
  function NormalizeDirectPair(a: string, b: string): (string, string) {
    if Leq(a, b) then (a, b) else (b, a)
  }

  /** Both directions resolve to one pair, and different pairs of people to different ones. */
  lemma DirectPairIsUnordered(a: string, b: string, c: string, d: string)
    ensures NormalizeDirectPair(a, b) == NormalizeDirectPair(c, d) <==> (a == c && b == d) || (a == d && b == c)
    ensures var (first, second) := NormalizeDirectPair(a, b); Leq(first, second)
  {
    LeqTotal(a, b);
    LeqTotal(c, d);
  }

  // ---------------------------------------------------------------- unique keys

  /** The row the unique index on (senderId, clientMessageId) would clash with; a missing id never clashes. */
  predicate IsFor(m: Message, senderId: string, clientMessageId: Option<string>) {
    clientMessageId.Some? && m.senderId == senderId && m.clientMessageId == clientMessageId
  }

  ghost predicate Taken(store: Store, senderId: string, clientMessageId: Option<string>) {
    exists id :: id in store.messages && IsFor(store.messages[id], senderId, clientMessageId)
  }

  ghost function FindBySenderClientMessageId(
      store: Store, senderId: string, clientMessageId: Option<string>): (found: Option<nat>)
    ensures found.Some? ==>
      found.value in store.messages && IsFor(store.messages[found.value], senderId, clientMessageId)
    ensures found.None? ==> !Taken(store, senderId, clientMessageId)
  {
    if id :| id in store.messages && IsFor(store.messages[id], senderId, clientMessageId) then Some(id) else None
  }

  // ---------------------------------------------------------------- edits

  predicate IsEditOf(m: Message, target: nat) {
    m.editsMessageId == Some(target)
  }

  function LiveEdits(messages: map<nat, Message>, target: nat): set<nat> {
    set id | id in messages && IsEditOf(messages[id], target) && messages[id].status.SENT?
  }

  function WithMessage(store: Store, m: Message): Store {
    store.(messages := store.messages[store.nextId := m], nextId := store.nextId + 1)
  }

  /** A new visible message, with its event in the same transaction. */
  function CreateMessage(store: Store, m: Message, notified: seq<string>, mentioned: seq<string>): Store {
    WithMessage(store, m).(events := store.events + [Published(store.nextId, notified, mentioned)])
  }

  function Stamp(store: Store, target: nat): Store
    requires target in store.messages
  {
    store.(messages := store.messages[target := store.messages[target].(edited := true)])
  }

  /** Stamps the original edited and stores the edit; an edit publishes no event of its own. */
  function CreateEdit(store: Store, target: nat, edit: Message): Store
    requires target in store.messages
  {
    WithMessage(Stamp(store, target), edit)
  }

  /** Unsending clears the message and every edit of it. */
  function SoftDelete(store: Store, target: nat): Store {
    store.(messages := map id | id in store.messages ::
      if id == target || IsEditOf(store.messages[id], target) then store.messages[id].(status := DELETED)
      else store.messages[id])
  }

  function BeginDirect(store: Store, pair: (string, string), participants: seq<Participant>): Store {
    store.(
      conversations := store.conversations[store.nextId := Conversation(DIRECT, pair, participants)],
      pairs := store.pairs[pair := store.nextId],
      nextId := store.nextId + 1)
  }

  /** A new direct conversation, its pair, its first message and that message's event, all or nothing. */
  function CreateDirect(
      store: Store, pair: (string, string), participants: seq<Participant>, m: Message, notified: seq<string>): Store
  {
    CreateMessage(BeginDirect(store, pair, participants), m.(conversationId := store.nextId), notified, [])
  }

  // ---------------------------------------------------------------- what the tables always satisfy

  /** One message per sender and client id. */
  predicate ClientIdsAreUnique(store: Store) {
    forall a, b | a in store.messages && b in store.messages
        && IsFor(store.messages[a], store.messages[b].senderId, store.messages[b].clientMessageId) ::
      a == b
  }

  predicate IdsAreOld(store: Store) {
    && (forall id | id in store.messages :: id < store.nextId)
    && (forall id | id in store.conversations :: id < store.nextId)
  }

  /** Each message that is not an edit has exactly one event, and nothing else has one. */
  ghost predicate EventsMatch(store: Store) {
    && (forall j, k | 0 <= j < k < |store.events| :: store.events[j].messageId != store.events[k].messageId)
    && (forall k | 0 <= k < |store.events| ::
          store.events[k].messageId in store.messages && store.messages[store.events[k].messageId].editsMessageId.None?)
    && (forall id | id in store.messages && store.messages[id].editsMessageId.None? :: HasEvent(store, id))
  }

  predicate HasEvent(store: Store, id: nat) {
    exists k | 0 <= k < |store.events| :: store.events[k].messageId == id
  }

  /** Direct conversations and pairs correspond one to one. */
  predicate PairsMatch(store: Store) {
    && (forall pair | pair in store.pairs :: store.pairs[pair] in store.conversations
          && store.conversations[store.pairs[pair]].kind.DIRECT? && store.conversations[store.pairs[pair]].pair == pair)
    && (forall id | id in store.conversations && store.conversations[id].kind.DIRECT? ::
          store.conversations[id].pair in store.pairs && store.pairs[store.conversations[id].pair] == id)
  }

  /** An edit targets a text message of the same sender and conversation, never another edit. */
  predicate EditsAreSound(store: Store) {
    forall id | id in store.messages && store.messages[id].editsMessageId.Some? ::
      var target := store.messages[id].editsMessageId.value;
      && store.messages[id].contentType.EDIT?
      && target in store.messages && store.messages[target].contentType.TEXT?
      && store.messages[target].senderId == store.messages[id].senderId
      && store.messages[target].conversationId == store.messages[id].conversationId
      && store.messages[target].edited
      && (store.messages[target].status.DELETED? ==> store.messages[id].status.DELETED?)
  }

  predicate StampsAreSound(store: Store) {
    forall id | id in store.messages && store.messages[id].edited ::
      exists edit :: edit in store.messages && IsEditOf(store.messages[edit], id)
  }

  ghost predicate EditLimitHolds(store: Store) {
    forall target :: |LiveEdits(store.messages, target)| <= MAX_EDITS_PER_MESSAGE
  }

  ghost predicate SoundStore(store: Store) {
    && ClientIdsAreUnique(store) && IdsAreOld(store) && EventsMatch(store) && PairsMatch(store)
    && EditsAreSound(store) && StampsAreSound(store) && EditLimitHolds(store)
  }

  // ---------------------------------------------------------------- and each write keeps it

  lemma NewMessageKeepsEvents(store: Store, m: Message, notified: seq<string>, mentioned: seq<string>)
    requires EventsMatch(store) && IdsAreOld(store) && m.editsMessageId.None?
    ensures EventsMatch(CreateMessage(store, m, notified, mentioned))
  {
    var after := CreateMessage(store, m, notified, mentioned);
    assert after.events[|store.events|].messageId == store.nextId;
    forall id | id in after.messages && after.messages[id].editsMessageId.None? ensures HasEvent(after, id) {
      if id != store.nextId {
        var k :| 0 <= k < |store.events| && store.events[k].messageId == id;
        assert after.events[k].messageId == id;
      }
    }
  }

  lemma NewMessageKeepsEdits(store: Store, m: Message, notified: seq<string>, mentioned: seq<string>)
    requires EditsAreSound(store) && StampsAreSound(store) && EditLimitHolds(store) && IdsAreOld(store)
    requires m.editsMessageId.None? && !m.edited
    ensures
      var after := CreateMessage(store, m, notified, mentioned);
      EditsAreSound(after) && StampsAreSound(after) && EditLimitHolds(after)
  {
    var after := CreateMessage(store, m, notified, mentioned);
    forall target ensures LiveEdits(after.messages, target) == LiveEdits(store.messages, target) {
    }
    forall id | id in after.messages && after.messages[id].edited
      ensures exists edit :: edit in after.messages && IsEditOf(after.messages[edit], id)
    {
      var edit :| edit in store.messages && IsEditOf(store.messages[edit], id);
      assert edit in after.messages && IsEditOf(after.messages[edit], id);
    }
  }

  lemma CreateMessageKeepsSound(store: Store, m: Message, notified: seq<string>, mentioned: seq<string>)
    requires SoundStore(store) && m.editsMessageId.None? && !m.edited && !Taken(store, m.senderId, m.clientMessageId)
    ensures SoundStore(CreateMessage(store, m, notified, mentioned))
  {
    NewMessageKeepsEvents(store, m, notified, mentioned);
    NewMessageKeepsEdits(store, m, notified, mentioned);
  }

  lemma CreateDirectKeepsSound(
      store: Store, pair: (string, string), participants: seq<Participant>, m: Message, notified: seq<string>)
    requires SoundStore(store) && pair !in store.pairs
    requires m.editsMessageId.None? && !m.edited && !Taken(store, m.senderId, m.clientMessageId)
    ensures SoundStore(CreateDirect(store, pair, participants, m, notified))
  {
    CreateMessageKeepsSound(BeginDirect(store, pair, participants), m.(conversationId := store.nextId), notified, []);
  }

  /** What a committed edit must bring. */
  predicate IsNewEdit(store: Store, target: nat, edit: Message) {
    && target in store.messages && store.messages[target].status.SENT? && store.messages[target].contentType.TEXT?
    && edit.contentType.EDIT? && edit.editsMessageId == Some(target) && edit.status.SENT? && !edit.edited
    && edit.senderId == store.messages[target].senderId && edit.conversationId == store.messages[target].conversationId
  }

  lemma NewEditKeepsRows(store: Store, target: nat, edit: Message)
    requires ClientIdsAreUnique(store) && IdsAreOld(store) && EventsMatch(store) && IsNewEdit(store, target, edit)
    requires !Taken(store, edit.senderId, edit.clientMessageId)
    ensures
      var after := CreateEdit(store, target, edit);
      ClientIdsAreUnique(after) && IdsAreOld(after) && EventsMatch(after)
  {
    assert forall id | HasEvent(Stamp(store, target), id) :: HasEvent(CreateEdit(store, target, edit), id);
  }

  lemma NewEditKeepsEdits(store: Store, target: nat, edit: Message)
    requires IdsAreOld(store) && EditsAreSound(store) && StampsAreSound(store) && IsNewEdit(store, target, edit)
    ensures EditsAreSound(CreateEdit(store, target, edit)) && StampsAreSound(CreateEdit(store, target, edit))
  {
    var after := CreateEdit(store, target, edit);
    forall id | id in after.messages && after.messages[id].edited
      ensures exists other :: other in after.messages && IsEditOf(after.messages[other], id)
    {
      if id == target {
        assert IsEditOf(after.messages[store.nextId], id);
      } else {
        var other :| other in store.messages && IsEditOf(store.messages[other], id);
        assert other in after.messages && IsEditOf(after.messages[other], id);
      }
    }
  }

  lemma NewEditKeepsLimit(store: Store, target: nat, edit: Message)
    requires IdsAreOld(store) && EditLimitHolds(store) && IsNewEdit(store, target, edit)
    requires |LiveEdits(store.messages, target)| < MAX_EDITS_PER_MESSAGE
    ensures EditLimitHolds(CreateEdit(store, target, edit))
  {
    var after := CreateEdit(store, target, edit);
    assert LiveEdits(after.messages, target) == LiveEdits(store.messages, target) + {store.nextId};
    forall other | other != target ensures LiveEdits(after.messages, other) == LiveEdits(store.messages, other) {
    }
  }

  lemma CreateEditKeepsSound(store: Store, target: nat, edit: Message)
    requires SoundStore(store) && IsNewEdit(store, target, edit)
    requires |LiveEdits(store.messages, target)| < MAX_EDITS_PER_MESSAGE
    requires !Taken(store, edit.senderId, edit.clientMessageId)
    ensures SoundStore(CreateEdit(store, target, edit))
  {
    NewEditKeepsRows(store, target, edit);
    NewEditKeepsEdits(store, target, edit);
    NewEditKeepsLimit(store, target, edit);
  }

  lemma SoftDeleteKeepsEdits(store: Store, target: nat)
    requires EditsAreSound(store) && StampsAreSound(store) && EditLimitHolds(store)
    ensures EditsAreSound(SoftDelete(store, target)) && StampsAreSound(SoftDelete(store, target))
    ensures EditLimitHolds(SoftDelete(store, target))
  {
    var after := SoftDelete(store, target);
    forall id | id in after.messages && after.messages[id].edited
      ensures exists edit :: edit in after.messages && IsEditOf(after.messages[edit], id)
    {
      var edit :| edit in store.messages && IsEditOf(store.messages[edit], id);
      assert edit in after.messages && IsEditOf(after.messages[edit], id);
    }
    forall other ensures |LiveEdits(after.messages, other)| <= |LiveEdits(store.messages, other)| {
      SubsetIsSmaller(LiveEdits(after.messages, other), LiveEdits(store.messages, other));
    }
  }

  lemma SoftDeleteKeepsRows(store: Store, target: nat)
    requires ClientIdsAreUnique(store) && EventsMatch(store)
    ensures ClientIdsAreUnique(SoftDelete(store, target)) && EventsMatch(SoftDelete(store, target))
  {
    var after := SoftDelete(store, target);
    assert forall id | id in store.messages ::
        && after.messages[id].senderId == store.messages[id].senderId
        && after.messages[id].clientMessageId == store.messages[id].clientMessageId
        && after.messages[id].editsMessageId == store.messages[id].editsMessageId;
    assert forall id | HasEvent(store, id) :: HasEvent(after, id);
  }

  lemma SoftDeleteKeepsSound(store: Store, target: nat)
    requires SoundStore(store)
    ensures SoundStore(SoftDelete(store, target))
  {
    SoftDeleteKeepsEdits(store, target);
    SoftDeleteKeepsRows(store, target);
  }
}
