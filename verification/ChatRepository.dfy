/** The repository writes of the chat, each statement against the tables it changes. */
module ChatRepositories {
  import opened Common
  import opened Recipients
  import opened Messaging

  datatype EditResult = Stored(messageId: nat) | NotFound | LimitReached | ClientIdTaken

  class ChatRepository {
    var conversations: map<nat, Conversation>
    var pairs: map<(string, string), nat>
    var messages: map<nat, Message>
    var events: seq<Published>
    var nextId: nat

    function Tables(): Store
      reads this
    {
      Store(conversations, pairs, messages, events, nextId)
    }

    constructor ()
      ensures Tables() == Store(map[], map[], map[], [], 0)
    {
      conversations, pairs, messages, events, nextId := map[], map[], map[], [], 0;
    }

    /** Inserts a message unless its sender already used the client id; false is the unique violation. */
    method InsertMessage(m: Message) returns (inserted: bool)
      modifies this
      ensures inserted <==> !Taken(old(Tables()), m.senderId, m.clientMessageId)
      ensures Tables() == if inserted then WithMessage(old(Tables()), m) else old(Tables())
    {
      var clash := exists id | id in messages :: IsFor(messages[id], m.senderId, m.clientMessageId);
      inserted := !clash;
      if inserted {
        messages := messages[nextId := m];
        nextId := nextId + 1;
      }
    }

    /** Stamps a message that is still sent, and says whether there was one. */
    method MarkMessageEdited(messageId: nat) returns (marked: bool)
      modifies this`messages
      ensures marked <==> messageId in old(messages) && old(messages)[messageId].status.SENT?
      ensures Tables() == if marked then Stamp(old(Tables()), messageId) else old(Tables())
    {
      marked := messageId in messages && messages[messageId].status.SENT?;
      if marked {
        messages := messages[messageId := messages[messageId].(edited := true)];
      }
    }

    method CountEditsOfMessage(messageId: nat) returns (count: nat)
      ensures count == |LiveEdits(messages, messageId)|
    {
      count := |LiveEdits(messages, messageId)|;
    }

    /**
     * The edit's transaction: stamp, count, insert. When it stops on the way everything it did is undone;
     * when it does not, the tables stay sound.
     */
    method EditMessage(messageId: nat, edit: Message) returns (result: EditResult)
      requires edit.contentType.EDIT? && edit.editsMessageId == Some(messageId) && edit.status.SENT? && !edit.edited
      modifies this
      ensures !result.Stored? ==> Tables() == old(Tables())
      ensures result.Stored? <==>
        && messageId in old(messages) && old(messages)[messageId].status.SENT?
        && |LiveEdits(old(messages), messageId)| < 10
        && !Taken(old(Tables()), edit.senderId, edit.clientMessageId)
      ensures result.Stored? ==>
        messageId in old(messages) && Tables() == CreateEdit(old(Tables()), messageId, edit)
          && result.messageId == old(nextId)
      ensures result.Stored? && SoundStore(old(Tables())) && IsNewEdit(old(Tables()), messageId, edit) ==>
        SoundStore(Tables())
    {
      ghost var start := Tables();
      var before := messages;
      var marked := MarkMessageEdited(messageId);
      if !marked { return NotFound; }
      StampKeepsLiveEdits(start, messageId);
      var count := CountEditsOfMessage(messageId);
      if count >= MAX_EDITS_PER_MESSAGE {
        messages := before;
        return LimitReached;
      }
      StampKeepsTaken(start, messageId, edit.senderId, edit.clientMessageId);
      var id := nextId;
      var inserted := InsertMessage(edit);
      if !inserted {
        messages := before;
        return ClientIdTaken;
      }
      if SoundStore(start) && IsNewEdit(start, messageId, edit) { CreateEditKeepsSound(start, messageId, edit); }
      return Stored(id);
    }

    /** Clears the message, then every edit of it. */
    method SoftDeleteMessage(messageId: nat)
      requires messageId in messages
      modifies this`messages
      ensures Tables() == SoftDelete(old(Tables()), messageId)
    {
      messages := messages[messageId := messages[messageId].(status := DELETED)];
      messages := map id | id in messages ::
        if IsEditOf(messages[id], messageId) then messages[id].(status := DELETED) else messages[id];
    }
  }

  lemma StampKeepsLiveEdits(store: Store, target: nat)
    requires target in store.messages
    ensures LiveEdits(Stamp(store, target).messages, target) == LiveEdits(store.messages, target)
  {
  }

  lemma StampKeepsTaken(store: Store, target: nat, senderId: string, clientMessageId: Option<string>)
    requires target in store.messages
    ensures Taken(Stamp(store, target), senderId, clientMessageId) <==> Taken(store, senderId, clientMessageId)
  {
    var after := Stamp(store, target);
    assert forall id | id in store.messages ::
      IsFor(after.messages[id], senderId, clientMessageId) <==> IsFor(store.messages[id], senderId, clientMessageId);
  }
}
