/**
 * One user's encrypted chat backup: its key row, its blobs, and the repository's statements on them.
 * HMAC is idealised: a proof is the term it was computed from, so two proofs are equal only when
 * secret, purpose, nonce and bound key are.
 */
module ChatBackup {
  import opened Common

  const USER_QUOTA_BYTES := 100 * 1024 * 1024
  const MAX_BLOB_BYTES := 64 * 1024
  const CHALLENGE_TTL_MS := 5 * 60_000
  const DELETION_DELAY_MS := 7 * 24 * 60 * 60 * 1000
  const MIN_KEY_CHECK_BYTES := 16
  const MAX_KEY_CHECK_BYTES := 256
  const MIN_SECRET_BYTES := 16
  const MAX_SECRET_BYTES := 64

  type Bytes = string

  datatype Action = Replace | Delete | CancelDelete

  datatype Proof =
    | Hmac(secret: Bytes, action: Action, nonce: Bytes, keyCheck: Bytes, replaceSecret: Bytes)
    | OtherBytes(bytes: Bytes)

  datatype Challenge = Challenge(nonce: Bytes, expiresAt: int)

  /** `generation` numbers the keys this user ever had; the database has no such column. */
  datatype KeyRow = KeyRow(
    keyCheck: Bytes, secret: Option<Bytes>, challenge: Option<Challenge>, scheduledAt: Option<int>, generation: nat)

  datatype Item = Item(conversationId: string, messageId: string, ciphertext: Bytes)

  /** A stored item, with the generation of the key it was stored under. */
  datatype Blob = Blob(item: Item, generation: nat)

  datatype Db = Db(key: Option<KeyRow>, blobs: seq<Blob>, generations: nat)

  // ---------------------------------------------------------------- blobs

  function TotalSize(items: seq<Item>): nat {
    if items == [] then 0 else |items[0].ciphertext| + TotalSize(items[1..])
  }

  function ItemsOf(blobs: seq<Blob>): (items: seq<Item>)
    ensures |items| == |blobs| && forall k | 0 <= k < |blobs| :: items[k] == blobs[k].item
  {
    seq(|blobs|, k requires 0 <= k < |blobs| => blobs[k].item)
  }

  function BlobsOf(items: seq<Item>, generation: nat): (blobs: seq<Blob>)
    ensures |blobs| == |items| && forall k | 0 <= k < |items| :: blobs[k] == Blob(items[k], generation)
  {
    seq(|items|, k requires 0 <= k < |items| => Blob(items[k], generation))
  }

  predicate OnePerMessage(items: seq<Item>) {
    forall j, k | 0 <= j < k < |items| :: items[j].messageId != items[k].messageId
  }

  function MessageIds(items: seq<Item>): set<string> {
    set item | item in items :: item.messageId
  }

  /** The items whose message is not in `taken`. */
  function Without(items: seq<Item>, taken: set<string>): (kept: seq<Item>)
    ensures forall item :: item in kept <==> item in items && item.messageId !in taken
    ensures OnePerMessage(items) ==> OnePerMessage(kept)
  {
    if items == [] then []
    else
      var rest := Without(items[1..], taken);
      assert forall item | item in rest :: item in items[1..];
      if items[0].messageId in taken then rest else [items[0]] + rest
  }

  function PositionOf(items: seq<Item>, messageId: string): (at: Option<nat>)
    ensures at.Some? ==> at.value < |items| && items[at.value].messageId == messageId
    ensures at.None? ==> forall item | item in items :: item.messageId != messageId
  {
    if items == [] then None
    else if items[|items| - 1].messageId == messageId then Some(|items| - 1)
    else PositionOf(items[..|items| - 1], messageId)
  }

  /** `map.set(item.messageId, item)` on a map that lists its entries in order of first insertion. */
  function PutItem(kept: seq<Item>, item: Item): seq<Item> {
    match PositionOf(kept, item.messageId)
    case Some(at) => kept[at := item]
    case None => kept + [item]
  }

  /** `[...new Map(items.map(i => [i.messageId, i])).values()]`. */
  function UniqueItems(items: seq<Item>): (unique: seq<Item>)
    ensures |unique| <= |items|
  {
    if items == [] then [] else PutItem(UniqueItems(items[..|items| - 1]), items[|items| - 1])
  }

  /** Putting one more item in keeps one per message and evicts only the same message's item. */
  lemma PutKeepsLast(kept: seq<Item>, item: Item)
    requires OnePerMessage(kept)
    ensures OnePerMessage(PutItem(kept, item))
    ensures forall i :: i in PutItem(kept, item) <==> i == item || (i in kept && i.messageId != item.messageId)
  {
    var at := PositionOf(kept, item.messageId);
    assert PutItem(kept, item)[if at.Some? then at.value else |kept|] == item;
    forall i | i in kept && i.messageId != item.messageId ensures i in PutItem(kept, item) {
      var k :| 0 <= k < |kept| && kept[k] == i;
      assert PutItem(kept, item)[k] == i;
    }
  }

  /** `items[k]` is the last one sent for its message. */
  predicate IsLastOf(items: seq<Item>, k: nat) {
    k < |items| && forall j | k < j < |items| :: items[j].messageId != items[k].messageId
  }

  lemma {:induction false} UniqueItemsOnePerMessage(items: seq<Item>)
    ensures OnePerMessage(UniqueItems(items))
  {
    if items != [] {
      UniqueItemsOnePerMessage(items[..|items| - 1]);
      PutKeepsLast(UniqueItems(items[..|items| - 1]), items[|items| - 1]);
    }
  }

  lemma {:induction false} UniqueItemsAreLast(items: seq<Item>, item: Item) returns (k: nat)
    requires item in UniqueItems(items)
    ensures IsLastOf(items, k) && items[k] == item
  {
    var last, rest := items[|items| - 1], items[..|items| - 1];
    UniqueItemsOnePerMessage(rest);
    PutKeepsLast(UniqueItems(rest), last);
    if item == last {
      k := |items| - 1;
    } else {
      k := UniqueItemsAreLast(rest, item);
    }
  }

  lemma {:induction false} LastItemsAreUnique(items: seq<Item>, k: nat)
    requires IsLastOf(items, k)
    ensures items[k] in UniqueItems(items)
  {
    var last, rest := items[|items| - 1], items[..|items| - 1];
    UniqueItemsOnePerMessage(rest);
    PutKeepsLast(UniqueItems(rest), last);
    if k < |rest| {
      assert rest[k] == items[k] && IsLastOf(rest, k);
      LastItemsAreUnique(rest, k);
    }
  }

  lemma {:induction false} TotalSizeAppends(a: seq<Item>, b: seq<Item>)
    ensures TotalSize(a + b) == TotalSize(a) + TotalSize(b)
  {
    if a == [] {
      assert a + b == b;
    } else {
      assert (a + b)[1..] == a[1..] + b;
      TotalSizeAppends(a[1..], b);
    }
  }

  // ---------------------------------------------------------------- what a stored backup satisfies

  /** No blob without a key, one per message, within the quota, all stored under the current key. */
  predicate SoundBackup(db: Db) {
    && (db.key.None? ==> db.blobs == [])
    && OnePerMessage(ItemsOf(db.blobs))
    && TotalSize(ItemsOf(db.blobs)) <= USER_QUOTA_BYTES
    && (db.key.Some? ==> db.key.value.generation <= db.generations
                         && forall blob | blob in db.blobs :: blob.generation == db.key.value.generation)
  }

  // ---------------------------------------------------------------- the statements

  function CreateKey(db: Db, keyCheck: Bytes, secret: Bytes): Db {
    if db.key.Some? then db
    else
      db.(key := Some(KeyRow(keyCheck, Some(secret), None, None, db.generations + 1)),
          generations := db.generations + 1)
  }

  function IssueChallenge(db: Db, nonce: Bytes, expiresAt: int): Db {
    if db.key.None? then db
    else db.(key := Some(db.key.value.(challenge := Some(Challenge(nonce, expiresAt)))))
  }

  /** A live challenge with this nonce; `now` is the caller's clock. */
  predicate Matches(db: Db, nonce: Bytes, now: int) {
    db.key.Some? && db.key.value.challenge.Some?
    && db.key.value.challenge.value.nonce == nonce && db.key.value.challenge.value.expiresAt > now
  }

  function ConsumeChallenge(db: Db, nonce: Bytes, now: int): Db {
    if Matches(db, nonce, now) then db.(key := Some(db.key.value.(challenge := None))) else db
  }

  /** The mutation of a proven replace: every blob goes, the key row starts over. */
  function ReplaceKey(db: Db, keyCheck: Bytes, secret: Bytes): Db
    requires db.key.Some?
  {
    Db(Some(KeyRow(keyCheck, Some(secret), None, None, db.generations + 1)), [], db.generations + 1)
  }

  function DeleteBackup(db: Db): Db {
    Db(None, [], db.generations)
  }

  function ScheduleDeletion(db: Db, at: int): Db {
    if db.key.Some? && db.key.value.scheduledAt.None? then db.(key := Some(db.key.value.(scheduledAt := Some(at))))
    else db
  }

  function CancelSchedule(db: Db): Db {
    if db.key.None? then db else db.(key := Some(db.key.value.(scheduledAt := None)))
  }

  predicate IsDue(db: Db, cutoff: int) {
    db.key.Some? && db.key.value.scheduledAt.Some? && db.key.value.scheduledAt.value <= cutoff
  }

  /** Whoever asks second changes nothing, whatever time they ask for. */
  lemma FirstScheduleStands(db: Db, first: int, second: int)
    requires db.key.Some?
    ensures ScheduleDeletion(ScheduleDeletion(db, first), second) == ScheduleDeletion(db, first)
    ensures forall cutoff :: IsDue(ScheduleDeletion(db, first), cutoff) <==>
      (if db.key.value.scheduledAt.Some? then db.key.value.scheduledAt.value else first) <= cutoff
  {
  }

  /** The items `storeWithinQuota` would insert. */
  function FreshItems(db: Db, items: seq<Item>): seq<Item> {
    Without(items, MessageIds(ItemsOf(db.blobs)))
  }

  predicate Fits(db: Db, added: seq<Item>) {
    TotalSize(ItemsOf(db.blobs)) + TotalSize(added) <= USER_QUOTA_BYTES
  }

  function InsertBlobs(db: Db, added: seq<Item>, generation: nat): Db {
    db.(blobs := db.blobs + BlobsOf(added, generation))
  }

  /** Proof terms: the purpose, the nonce and, for a replace, the new key are bound into the proof. */
  function Expected(secret: Bytes, action: Action, nonce: Bytes, keyCheck: Bytes, replaceSecret: Bytes): Proof {
    if action == Replace then Hmac(secret, Replace, nonce, keyCheck, replaceSecret)
    else Hmac(secret, action, nonce, "", "")
  }

  lemma InsertKeepsSound(db: Db, added: seq<Item>)
    requires SoundBackup(db) && db.key.Some? && OnePerMessage(added) && Fits(db, added)
    requires MessageIds(added) !! MessageIds(ItemsOf(db.blobs))
    ensures SoundBackup(InsertBlobs(db, added, db.key.value.generation))
  {
    var after := InsertBlobs(db, added, db.key.value.generation);
    assert ItemsOf(after.blobs) == ItemsOf(db.blobs) + added;
    TotalSizeAppends(ItemsOf(db.blobs), added);
    forall j, k | 0 <= j < k < |after.blobs|
      ensures after.blobs[j].item.messageId != after.blobs[k].item.messageId
    {
      if j < |db.blobs| <= k {
        assert ItemsOf(db.blobs)[j] in ItemsOf(db.blobs) && added[k - |db.blobs|] in added;
        assert ItemsOf(db.blobs)[j].messageId in MessageIds(ItemsOf(db.blobs));
        assert added[k - |db.blobs|].messageId in MessageIds(added);
      } else if k < |db.blobs| {
        assert ItemsOf(db.blobs)[j].messageId != ItemsOf(db.blobs)[k].messageId;
      } else {
        assert added[j - |db.blobs|].messageId != added[k - |db.blobs|].messageId;
      }
    }
  }

  lemma StoringKeepsSound(db: Db, items: seq<Item>)
    requires SoundBackup(db) && db.key.Some? && OnePerMessage(items) && Fits(db, FreshItems(db, items))
    ensures SoundBackup(InsertBlobs(db, FreshItems(db, items), db.key.value.generation))
  {
    InsertKeepsSound(db, FreshItems(db, items));
  }

  datatype StoreResult = Stored(count: nat) | NoKey | OverQuota

  /** The repository on one user's rows: each method is one statement or one whole transaction. */
  class ChatBackupRepository {
    var key: Option<KeyRow>
    var blobs: seq<Blob>
    var generations: nat

    function Contents(): Db
      reads this
    {
      Db(key, blobs, generations)
    }

    constructor ()
      ensures Contents() == Db(None, [], 0) && SoundBackup(Contents())
    {
      key, blobs, generations := None, [], 0;
    }

    method Create(keyCheck: Bytes, secret: Bytes) returns (created: bool)
      requires SoundBackup(Contents())
      modifies this
      ensures Contents() == CreateKey(old(Contents()), keyCheck, secret) && SoundBackup(Contents())
      ensures created <==> old(key).None?
      ensures created ==> key == Some(KeyRow(keyCheck, Some(secret), None, None, old(generations) + 1))
      ensures !created ==> Contents() == old(Contents())
    {
      created := key.None?;
      if created {
        generations := generations + 1;
        key := Some(KeyRow(keyCheck, Some(secret), None, None, generations));
      }
    }

    method Issue(nonce: Bytes, expiresAt: int) returns (issued: bool)
      requires SoundBackup(Contents())
      modifies this`key
      ensures Contents() == IssueChallenge(old(Contents()), nonce, expiresAt) && SoundBackup(Contents())
      ensures issued <==> old(key).Some?
      ensures issued ==> key == Some(old(key).value.(challenge := Some(Challenge(nonce, expiresAt))))
      ensures !issued ==> key == old(key)
      ensures issued ==> forall now :: Matches(Contents(), nonce, now) <==> now < expiresAt
    {
      issued := key.Some?;
      if issued { key := Some(key.value.(challenge := Some(Challenge(nonce, expiresAt)))); }
    }

    method Consume(nonce: Bytes, now: int) returns (consumed: bool)
      requires SoundBackup(Contents())
      modifies this`key
      ensures Contents() == ConsumeChallenge(old(Contents()), nonce, now) && SoundBackup(Contents())
      ensures consumed <==>
        && old(key).Some? && old(key).value.challenge.Some?
        && old(key).value.challenge.value.nonce == nonce && now < old(key).value.challenge.value.expiresAt
      ensures key == if consumed then Some(old(key).value.(challenge := None)) else old(key)
      ensures consumed ==> forall other, later :: !Matches(Contents(), other, later)
    {
      consumed := Matches(Contents(), nonce, now);
      if consumed { key := Some(key.value.(challenge := None)); }
    }

    /** `verifyProofAndMutate` with the replace or the delete mutation: all of it, or nothing. */
    method VerifyAndMutate(action: Action, nonce: Bytes, proof: Proof, keyCheck: Bytes, secret: Bytes, now: int)
      returns (done: bool)
      requires SoundBackup(Contents()) && action != CancelDelete
      modifies this
      ensures done <==>
        && old(key).Some? && old(key).value.secret.Some? && old(key).value.challenge.Some?
        && old(key).value.challenge.value.nonce == nonce && old(key).value.challenge.value.expiresAt > now
        && proof ==
          if action == Replace then Hmac(old(key).value.secret.value, Replace, nonce, keyCheck, secret)
          else Hmac(old(key).value.secret.value, Delete, nonce, "", "")
      ensures !done ==> Contents() == old(Contents())
      ensures done ==> blobs == [] && (key.None? <==> action == Delete)
      ensures done && action == Replace ==>
        && key == Some(KeyRow(keyCheck, Some(secret), None, None, old(generations) + 1))
        && generations == old(generations) + 1
      ensures SoundBackup(Contents())
    {
      var before := key;
      if key.None? || key.value.secret.None? { return false; }
      var consumed := Consume(nonce, now);
      if !consumed { return false; }
      if proof != Expected(before.value.secret.value, action, nonce, keyCheck, secret) {
        key := before;  // the throw rolls the consumption back
        return false;
      }
      blobs := [];
      if action == Replace {
        generations := generations + 1;
        key := Some(KeyRow(keyCheck, Some(secret), None, None, generations));
      } else {
        key := None;
      }
      done := true;
    }

    method DeleteAll(dueBefore: Option<int>) returns (deleted: bool)
      requires SoundBackup(Contents())
      modifies this
      ensures deleted <==>
        || dueBefore.None?
        || (old(key).Some? && old(key).value.scheduledAt.Some? && old(key).value.scheduledAt.value <= dueBefore.value)
      ensures generations == old(generations)
      ensures if deleted then key.None? && blobs == [] else key == old(key) && blobs == old(blobs)
      ensures SoundBackup(Contents())
    {
      if dueBefore.Some? && !IsDue(Contents(), dueBefore.value) { return false; }
      blobs, key := [], None;
      deleted := true;
    }

    /** The first time asked for stands: a deletion that is set is not moved, one that is not comes due at `at`. */
    method Schedule(at: int)
      requires SoundBackup(Contents())
      modifies this`key
      ensures Contents() == ScheduleDeletion(old(Contents()), at) && SoundBackup(Contents())
      ensures old(key).None? || old(key).value.scheduledAt.Some? ==> key == old(key)
      ensures old(key).Some? && old(key).value.scheduledAt.None? ==>
        key == Some(old(key).value.(scheduledAt := Some(at)))
      ensures old(key).Some? && old(key).value.scheduledAt.None? ==>
        && (forall cutoff :: IsDue(Contents(), cutoff) <==> at <= cutoff)
        && CancelSchedule(Contents()) == old(Contents())
    {
      if key.Some? && key.value.scheduledAt.None? { key := Some(key.value.(scheduledAt := Some(at))); }
    }

    method Cancel()
      requires SoundBackup(Contents())
      modifies this`key
      ensures Contents() == CancelSchedule(old(Contents())) && SoundBackup(Contents())
      ensures key == if old(key).None? then None else Some(old(key).value.(scheduledAt := None))
      ensures forall cutoff :: !IsDue(Contents(), cutoff)
    {
      if key.Some? { key := Some(key.value.(scheduledAt := None)); }
    }

    method StoreWithinQuota(items: seq<Item>) returns (result: StoreResult)
      requires SoundBackup(Contents()) && OnePerMessage(items)
      requires forall item | item in items :: item.ciphertext != []
      modifies this`blobs
      ensures SoundBackup(Contents())
      ensures result.NoKey? <==> key.None?
      ensures result.Stored? ==>
        && Contents() == InsertBlobs(old(Contents()), FreshItems(old(Contents()), items), key.value.generation)
        && |blobs| == |old(blobs)| + result.count
      ensures result.Stored? ==>
        blobs == old(blobs) + BlobsOf(Without(items, MessageIds(ItemsOf(old(blobs)))), key.value.generation)
      ensures !result.Stored? ==> Contents() == old(Contents())
      ensures
        var unstored := Without(items, MessageIds(ItemsOf(old(blobs))));
        result.OverQuota? <==>
          && key.Some? && TotalSize(unstored) > 0
          && TotalSize(ItemsOf(old(blobs))) + TotalSize(unstored) > 100 * 1024 * 1024
    {
      if key.None? { return NoKey; }
      var added := FreshItems(Contents(), items);
      if TotalSize(added) == 0 {
        BytesOfItems(added);
        assert blobs + BlobsOf(added, key.value.generation) == blobs;
        return Stored(0);
      }
      if TotalSize(ItemsOf(blobs)) + TotalSize(added) > USER_QUOTA_BYTES { return OverQuota; }
      StoringKeepsSound(Contents(), items);
      blobs := blobs + BlobsOf(added, key.value.generation);
      result := Stored(|added|);
    }
  }

  lemma BytesOfItems(items: seq<Item>)
    requires forall item | item in items :: item.ciphertext != []
    ensures TotalSize(items) == 0 <==> items == []
  {
    if items != [] {
      assert items[0] in items;
    }
  }

  /** After an upload is stored, every message it named is in the backup, and nothing was dropped. */
  lemma StoredItemsAreThere(db: Db, items: seq<Item>, generation: nat)
    ensures
      var after := InsertBlobs(db, FreshItems(db, items), generation);
      MessageIds(ItemsOf(after.blobs)) == MessageIds(ItemsOf(db.blobs)) + MessageIds(items) && db.blobs <= after.blobs
  {
    var added := FreshItems(db, items);
    assert ItemsOf(InsertBlobs(db, added, generation).blobs) == ItemsOf(db.blobs) + added;
  }
}
