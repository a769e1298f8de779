# GachaHub verification

A Dafny model of the parts of GachaHub that hold real state: the login cache, the encrypted chat backup,
sending and editing encrypted messages, receipts, paging, chat devices with their key packages, the @mention
scanner and the comment counters. `dafny verify dfyconfig.toml` checks all of it.

How the modules fit together:

- `SessionStorage` is the Redis store of logins, one method per operation, against the three entries (value,
  miss marker, tombstone) of a key. `LoginCacheRuns` interleaves any number of lookups, each four steps, with
  `set`, `delete`, Redis failures and database changes; `LoginCacheRevocations` is about when a revoked login stays
  out, `LoginCacheEntries` about what later lookups find, and for how long.
- `ChatBackup` holds one user's backup rows and the repository's statements on them. `ChatBackupRuns` runs any
  number of requests over them: transactions are two steps under a lock, everything else is a step of its own,
  so an unlocked statement may run inside another request's transaction. `ChatBackupRules` says what every such run
  keeps to; `ChatBackupCancels` is about how long a cancel lasts, `ChatBackupClearings` about whose schedule it clears,
  `ChatBackupGenerations` about which key a scheduled deletion was asked for, `ChatBackupDeadlines` about when a
  key can be destroyed sooner than it was asked, and `ChatBackupProofs` about what a proof has to be made of and what
  each request comes to when nothing else runs.
- `Recipients` is who a message goes to and the string key that decides whether the recipients worked out
  before the lock may be kept. `Messaging` holds the message tables and what every write keeps;
  `MessagingRuns` runs sends, first direct messages, edits and unsends against membership changes, and
  `MessagingRules` says what every such run keeps to; `MessagingRetries` is about requests whose message is already
  stored, and about copies that race each other; `MessagingAudiences` is about whom a stored message reaches, and
  `MessagingDecisions` about what each step decides;
  `ChatRepositories` has the same writes as statements on a repository object.
- `Receipts` masks read and delivery times for a viewer. `Paging` is cursor paging of history, inbox and blobs;
  `Cursors` the text form of a blob page's cursor.
- `Devices` runs registrations (every statement a step), links, relinks and revocations, `DeviceRules` says what
  every such run keeps to, and `DeviceRequests` what each request comes to when nothing else runs; `KeyPackages` is
  the claiming of single-use MLS key packages, which section 10 of RFC 9420 allows to be used once.
- `Mentions` is the scanner, the splitter and the picker; `Comments` the counters of a post's comments.
- `Common` has small shared pieces.

A machine in a `...Runs` module (and in `Devices`, `KeyPackages`, `Comments`) is a state, an event type and a
total `Apply`; an event that is not possible changes nothing. Every theorem about it is about `Run` over an
arbitrary sequence of events. Database transactions are atomic and roll back as a whole, advisory and row locks
are mutual exclusion, unique constraints guard inserts, clocks never go back, and whatever is read before a
transaction is an earlier step.

Some promises turned out to hold only under a condition; the condition is proved, with a run that shows it is needed:

- A `set` in the login cache can be overwritten by a lookup that missed before it (`FillMayOverwriteNewerValue`);
  it stays exactly when no such lookup is in flight (`SetValueStaysUnlessOlderLookups`).
- A revoked login stays out of the cache exactly when its row is gone and every fill is over within the 60 seconds
  of its tombstone (`RevocationIsFinal`).
- A cancel stops a backup from expiring, until someone asks again, exactly when no other proofless request and no
  due deletion is under way as it clears the schedule (`CancelMayBeUndone`, `ExpiryNeedsNoNewRequestExactly`); a run
  reaches both (`CancelRacesHappen`).
- A due deletion was asked for the key it destroys, the full delay before, as long as no request writes a time it read
  under an earlier key (`DestructionWasAskedForThisKey`); when one does, a new key can expire unasked
  (`NewKeyExpiresForTheOldOne`). The key there is can go that early exactly while its schedule, a write under way or a
  due deletion is ahead of its own asking (`ExpiresEarlyExactly`); a key nobody ever asked to delete, exactly while
  anything is scheduled, about to be, or being deleted (`NeverAskedKeyExpiresExactly`).
- A cancel clears the schedule of whatever key there is. The key there is can have its schedule cleared for another's
  challenge exactly while a cancel that spent such a challenge is under way (`ClearedForAnotherExactly`,
  `OldCancelClearsNewSchedule`).
- Of two identical first messages racing each other one may be refused as a conflict. Which copies is settled when the
  message is stored: exactly those that had looked for the pair by then and found none, and not yet found there to be no
  message (`ConflictIsSettledWhenStored`, `RacingCopyIsRefused`, `CopiesMeet`); so a retry that comes after it never is
  (`RetryIsAnsweredTheSame`).
- A device that comes back while a registration is evicting it is retired anyway (`ReturningDeviceIsEvictedAnyway`,
  in a run like that of `DevicesAreEvicted`); it is idle when retired exactly when it was not used since it was picked
  (`EvictedIsIdleUnlessItReturned`). Its user still has ten then exactly when none was revoked since the count
  (`EvictsFromTenUnlessOneWasRevoked`); otherwise it is retired although there is room (`EvictsThoughThereIsRoom`,
  `DeviceIsEvictedNeedlessly`).
- A claim that has won a key package still answers with none exactly when the package was removed as expired before it
  was read back (`WonButGoneExactly`).
- A post's comment counter is its visible comments exactly when no comment is both hidden and deleted
  (`CommentCountIsVisibleLessHiddenDeleted`, `HiddenThenDeletedGoesNegative`). The comment on `transitionStatus`
  calls it a count of visible comments; the code keeps it so only under this condition.

## Model

| member | source | states |
|---|---|---|
| LoginCacheRevocations.RevocationIsFinal | backend/src/auth/session-storage.ts:12-92 | after `delete`, no interleaving of lookups ever caches the key again, even past the tombstone, if and only if the time for the row to go plus the longest fill is below the tombstone's lifetime |
| LoginCacheRevocations.RevokedLoginAnswersNothing | backend/src/auth/session-storage.ts:43-92 | under that bound a lookup begun after the row is gone answers "no login", on every instance |
| LoginCacheEntries.LookupsAfterSetFindIt | backend/src/auth/session-storage.ts:43-82 | once `set` completed, no lookup started later whose Redis call works answers null while the key is neither deleted nor expired, whatever older lookups and later writes do |
| LoginCacheEntries.MissSparesTheDatabase | backend/src/auth/session-storage.ts:43-72 | once a lookup noted that the database does not know the key, no lookup begun within the next minute asks it, on any instance, unless the key is set or its Redis call fails |
| LoginCacheEntries.SetValueStaysUnlessOlderLookups | backend/src/auth/session-storage.ts:12-82 | what `set` stored stays until it expires, is set again or deleted, if and only if no lookup that missed before it can still fill |
| LoginCacheEntries.FillMayOverwriteNewerValue | backend/src/auth/session-storage.ts:12-82 | a concrete run in which a fill replaces a newer `set` |
| LoginCacheEntries.FilledLoginOutlivesRowByTheDelay | backend/src/auth/session-loader.ts:4-43 | a filled login is served at most the load-to-fill delay past its row's expiry, a list of logins one second more |
| LoginCacheRuns.UninterruptedLookupIsGet | backend/src/auth/session-storage.ts:43-72 | a lookup whose four steps nothing interrupts is the store's own `get`, so the interleaved machine refines it |
| SessionStorage.RedisSessionStorage.Get | backend/src/auth/session-storage.ts:43-72 | a lookup nothing interrupts, of any key: what it answers and leaves in the three entries, from what they held and from what the rows load to - every login ahead of the clock for the seconds to their latest expiry, or the one login with a whole second left; no other Redis name moves, and for a key with neither infix no other key |
| SessionStorage.UncontendedGetIsLookup | backend/src/auth/session-storage.ts:43-72 | the same of the specification: cached, known to be missed, or loaded and filled, in terms of the rows |
| SessionStorage.LoadIs | backend/src/auth/session-loader.ts:4-43 | a list of logins loads if and only if one is ahead of the clock, and then as exactly those that are, for the whole seconds to the latest of their expiries; a login loads if and only if it has a whole second left, for as many as it has |
| SessionStorage.KindIs | backend/src/auth/session-storage.ts:7-9 | a key loads as a list if and only if it starts with the list prefix, as a login if and only if it is otherwise 20 to 64 letters and digits, and no other key loads |
| LoginCacheRuns.LookupWithoutRedis | backend/src/auth/session-storage.ts:43-72 | while Redis cannot be read, a lookup answers what the rows load to and leaves the cache alone |
| LoginCacheRuns.LookupThatCannotWrite | backend/src/auth/session-storage.ts:43-72 | when only the write fails, the answer is the same and the cache as it was |
| LoginCacheRuns.LookupsGoTheirOwnWay | backend/src/auth/session-storage.ts:43-92 | a lookup is moved by its own steps only, and the cache only by writes to it |
| SessionStorage.RedisSessionStorage.Set | backend/src/auth/session-storage.ts:75-82 | stores the value with its lifetime, wipes miss marker and tombstone, touches no other Redis name |
| SessionStorage.RedisSessionStorage.Delete | backend/src/auth/session-storage.ts:85-92 | removes the value, leaves a 60 second tombstone, touches no other Redis name |
| SessionStorage.RedisSessionStorage.Fill | backend/src/auth/session-storage.ts:11-15 | fills exactly when no live tombstone is there |
| SessionStorage.RedisSessionStorage.NameIsPrivateIffPlain | backend/src/auth/session-storage.ts:94-104 | a key's Redis name never meets another key's bookkeeping names, if and only if the key starts with neither infix |
| SessionStorage.JunkIsRememberedForAMinute | backend/src/auth/session-storage.ts:43-72 | for the uninterrupted lookup: a key the database does not know is answered without it for a minute, and asked again after |
| SessionStorage.SetStartsAfresh | backend/src/auth/session-storage.ts:75-82 | for the uninterrupted lookup: after `set` it answers the value until that expires and then asks the database again, neither hidden by an old miss nor refused by an old tombstone |
| SessionStorage.LoadableKeysArePlain | backend/src/auth/session-storage.ts:7-9 | every key the loader would fill has that property |
| SessionStorage.Furthest | backend/src/auth/session-loader.ts:25-43 | the latest expiry of the active sessions |
| SessionStorage.Unexpired | backend/src/auth/session-loader.ts:25-43 | exactly the sessions still ahead of the clock |
| ChatBackupRules.EveryBackupIsSound | backend/src/chat-backup/chat-backup.repository.ts:62-285 | in every run: blobs only with a key, one per message, within the quota, all stored under the current key |
| ChatBackupRules.DestructionIsAuthorised | backend/src/chat-backup/chat-backup.repository.ts:117-205 | a key or blob disappears only by a proof that matches the secret and the stored challenge at that very step (what such a proof is made of is DestroyerHeldTheSecret), or by the cron at least seven days after some proofless request |
| ChatBackupProofs.DestroyerHeldTheSecret | backend/src/chat-backup/replace-proof.ts:10-28 | in every run, whatever destroys a backup or replaces its key, and is not the cron, carries an HMAC made with the secret in the key row at that step, for the action asked for, over the challenge stored there, and for a replace over the key check and secret stored afterwards |
| ChatBackupProofs.ProofIsAcceptedExactly | backend/src/chat-backup/chat-backup.repository.ts:147-205 | under the lock such a request is accepted if and only if it carries that HMAC and the challenge is alive; refused, it leaves everything as it was |
| ChatBackupProofs.CancellerHeldTheSecret | backend/src/chat-backup/chat-backup.service.ts:316-347 | in every run a cancel goes on to clear the schedule if and only if it spends the stored challenge while that is alive and its proof is the HMAC for cancelling, over that challenge, by the secret the key row held when the cancel began |
| ChatBackupProofs.PutAlone | backend/src/chat-backup/chat-backup.service.ts:96-155 | setting the key with nothing else running: answer and rows afterwards, case by case, in terms of the request and the rows before |
| ChatBackupProofs.DisableAlone | backend/src/chat-backup/chat-backup.service.ts:170-188 | the same for a delete with a proof |
| ChatBackupProofs.AskAlone | backend/src/chat-backup/chat-backup.service.ts:190-208 | the same for a delete without one |
| ChatBackupProofs.CancelAlone | backend/src/chat-backup/chat-backup.service.ts:210-227 | the same for a cancel: a wrong proof costs the challenge |
| ChatBackupProofs.ChallengeAlone | backend/src/chat-backup/chat-backup.service.ts:157-168 | the same for asking for a challenge |
| ChatBackupProofs.UploadAlone | backend/src/chat-backup/chat-backup.service.ts:229-254 | the same for an upload |
| ChatBackupProofs.CronAlone | backend/src/chat-backup/chat-backup-deletion.service.ts:18-42 | the same for the deletion run |
| ChatBackupProofs.CronLooksTwice | backend/src/chat-backup/chat-backup.repository.ts:117-134 | the deletion run goes on only with what is due, and under the lock once more |
| ChatBackupProofs.LegacyBackupIsOnlyScheduled | backend/src/chat-backup/chat-backup.service.ts:316-326 | a backup from before there were proof secrets: no proof is accepted for it, and its deletion can be asked for |
| ChatBackupGenerations.DestructionWasAskedForThisKey | backend/src/chat-backup/chat-backup.service.ts:170-208 | and, as long as no request writes a time it read under an earlier key, at least seven days after a proofless request for that very key |
| ChatBackupGenerations.NewKeyExpiresForTheOldOne | backend/src/chat-backup/chat-backup.service.ts:190-208 | a run in which a stale request does, and the cron destroys a key a millisecond old |
| ChatBackupDeadlines.ExpiresEarlyExactly | backend/src/chat-backup/chat-backup.service.ts:190-208 | in every run, some continuation destroys the key there is without a current proof and less than seven days after its own deletion was asked for, if and only if it was not asked for that long ago yet and its schedule, a proofless request about to write or a due deletion goes by a time it was not asked to go by |
| ChatBackupDeadlines.NeverAskedKeyExpiresExactly | backend/src/chat-backup/chat-backup.service.ts:190-208 | a key nobody ever asked to delete can expire, nobody asking from then on either, if and only if a deletion is scheduled, about to be scheduled or begun; only the second is left when all that stands was asked for this key |
| ChatBackupRules.SetScheduleStays | backend/src/chat-backup/chat-backup.service.ts:170-208 | a schedule that is set is moved by no repeat request; it ends with the key or by a cancel that spent a challenge |
| ChatBackupClearings.ClearedForAnotherExactly | backend/src/chat-backup/chat-backup.service.ts:210-227 | in every run, the schedule of the key there is can still be cleared otherwise than by a cancel that spent a challenge of this key if and only if a cancel that spent another key's is under way |
| ChatBackupClearings.OldCancelClearsNewSchedule | backend/src/chat-backup/chat-backup.repository.ts:215-220 | a run in which a cancel for a replaced key clears the new key's schedule |
| ChatBackupRules.ChallengeAuthorisesOnce | backend/src/chat-backup/chat-backup.repository.ts:82-114 | no challenge authorises two completed replaces, deletes or cancels |
| ChatBackupRules.OnlyLatestChallengeAuthorises | backend/src/chat-backup/chat-backup.repository.ts:82-205 | only the challenge issued last, unspent and unexpired, authorises anything |
| ChatBackupRules.RefusedProofChangesAtMostTheChallenge | backend/src/chat-backup/chat-backup.service.ts:316-347 | no step of a request that ends up refused writes anything, whatever runs meanwhile, except that a cancel consumes a challenge that matched |
| ChatBackupRules.UploadReportsGrowth | backend/src/chat-backup/chat-backup.service.ts:229-254 | stored is the growth, stored plus skipped is what was sent, whatever else runs meanwhile |
| ChatBackupCancels.CancelledDeletionStaysCancelled | backend/src/chat-backup/chat-backup.service.ts:210-227 | with nothing scheduled and no proofless request or due deletion under way, nothing but a current proof destroys the backup until someone asks again |
| ChatBackupCancels.ExpiryNeedsNoNewRequestExactly | backend/src/chat-backup/chat-backup.service.ts:170-227 | and that condition is exact: a backup can expire with nobody asking again if and only if a deletion is scheduled, a proofless request is under way or a due deletion has begun |
| ChatBackupCancels.CancelMayBeUndone | backend/src/chat-backup/chat-backup.service.ts:190-208 | in every run a cancel that clears the schedule is undone by a later expiry, with nobody asking again, if and only if another proofless request or a due deletion is under way at that step |
| ChatBackupCancels.CancelRacesHappen | backend/src/chat-backup/chat-backup-deletion.service.ts:18-42 | one run reaches both of those situations |
| ChatBackup.ChatBackupRepository.VerifyAndMutate | backend/src/chat-backup/chat-backup.repository.ts:147-205 | succeeds exactly on a live challenge and the HMAC by the stored secret, for that action, over that challenge and what is to be stored, and then replaces the key row, or removes it, with all blobs; otherwise nothing changes, the consumed challenge included |
| ChatBackup.ChatBackupRepository.StoreWithinQuota | backend/src/chat-backup/chat-backup.repository.ts:233-285 | stores the items of new messages if they fit, reports their number, keeps the backup sound |
| ChatBackup.ChatBackupRepository.DeleteAll | backend/src/chat-backup/chat-backup.repository.ts:117-134 | deletes everything, for the cron only while still due |
| ChatBackup.ChatBackupRepository.Create | backend/src/chat-backup/chat-backup.repository.ts:62-79 | creates a key only when there is none |
| ChatBackup.ChatBackupRepository.Issue | backend/src/chat-backup/chat-backup.repository.ts:82-96 | the new challenge matches until it expires |
| ChatBackup.ChatBackupRepository.Consume | backend/src/chat-backup/chat-backup.repository.ts:99-114 | takes a live matching challenge, after which none matches |
| ChatBackup.ChatBackupRepository.Schedule | backend/src/chat-backup/chat-backup.repository.ts:208-213 | leaves a missing key or a set schedule as it is; otherwise the backup comes due exactly from the time given, and cancelling that gives back what was there |
| ChatBackup.FirstScheduleStands | backend/src/chat-backup/chat-backup.repository.ts:208-213 | of two schedules the first stands, whatever the second asks for |
| ChatBackup.ChatBackupRepository.Cancel | backend/src/chat-backup/chat-backup.repository.ts:215-220 | after it nothing is due at any time |
| ChatBackup.UniqueItemsAreLast | backend/src/chat-backup/chat-backup.service.ts:229-254 | what an upload keeps of one message is the last item sent for it |
| ChatBackup.LastItemsAreUnique | backend/src/chat-backup/chat-backup.service.ts:229-254 | and every last item is kept |
| ChatBackup.StoredItemsAreThere | backend/src/chat-backup/chat-backup.repository.ts:233-285 | after an upload every message it named is in the backup, and nothing was dropped |
| MessagingRules.OneMessagePerClientId | backend/src/chat/chat-messaging.service.ts:371-537 | in every run a sender's client id names one message, with exactly one event unless it is an edit |
| MessagingRules.AnswersAgree | backend/src/chat/chat-messaging.service.ts:97-127 | all successful answers under one client id name the same message, which is where each request wanted it |
| MessagingRetries.RetryIsAnsweredTheSame | backend/src/chat/chat-messaging.service.ts:97-392 | a request repeated after its message was stored gets that message within three steps of its own, whatever happens meanwhile; only a direct one can be refused instead, as not found if at such a step the recipient was no active user, as forbidden if the sender then had them blocked |
| MessagingRetries.ConflictsExactlyThere | backend/src/chat/chat-messaging.service.ts:97-127 | with its message stored, a step refuses a request as a conflict if and only if it is a direct one that found no pair, has now found the message, and whose recipient is there and not blocked by the sender |
| MessagingRetries.ConflictIsSettledWhenStored | backend/src/chat/chat-messaging.service.ts:97-127 | over every run: a copy is refused as a conflict only if, when the message was stored, it had found no pair and not yet found there to be no message; and then for certain after two steps of its own, unless the recipient is gone or blocked by the sender at one of them |
| MessagingRetries.RacingCopyIsRefused | backend/src/chat/chat-messaging.service.ts:97-127 | of two copies of a first message, one that read the pair before and the message after the other stored them is refused as a conflict |
| MessagingRetries.CopiesMeet | backend/src/chat/chat-messaging.service.ts:97-127 | a run in which two copies meet like that |
| MessagingRules.DirectMessagesShareAConversation | backend/src/chat/chat-messaging.service.ts:278-311 | two people's direct messages are in one conversation, whoever wrote first and however many firsts raced |
| MessagingRules.OneConversationPerPair | backend/src/chat/chat.repository.ts:197-267 | at most one direct conversation per pair in every run |
| MessagingRules.OnlyActiveMembersWrite | backend/src/chat/chat-messaging.service.ts:428-461 | no message or edit lands in an existing conversation while its sender is not ACTIVE there or anyone is LEAVING |
| MessagingRules.MessagesGoToTheLockedRows | backend/src/chat/chat-messaging.service.ts:463-523 | on the fast path or not, receipts, the event's recipients and its mentions are those of the participants under the lock (which people those are is MessageReachesJust) |
| MessagingAudiences.MessageReachesJust | backend/src/chat/chat-messaging.service.ts:580-631 | over every run and for each person: who gets a receipt, who the event goes to, who is mentioned, notified or silent, from their row under the lock, and from the blocks of the sender and the clock at the read before the lock if the same people were there then, else at the lock; nobody who had blocked the sender at that read is among them |
| MessagingDecisions.DirectDecides | backend/src/chat/chat-messaging.service.ts:76-262 | the three looks of a direct request with nothing between them: each refusal in its order, the retry told of its message, or on to the conversation there is or to a new one, in terms of the tables |
| MessagingDecisions.CreatingStores | backend/src/chat/chat-messaging.service.ts:225-311 | starting a conversation stores the pair, both participants, the message and its event all at once, or nothing |
| MessagingDecisions.RacedGoesOn | backend/src/chat/chat-messaging.service.ts:278-311 | after losing the race for the pair, or the client id, the request goes on to what is there |
| MessagingDecisions.RecoveringDecides | backend/src/chat/chat-messaging.service.ts:695-721 | a client id found in use answers its message where it was meant to be, else a conflict |
| MessagingDecisions.SendDecides | backend/src/chat/chat-messaging.service.ts:362-407 | the same for a send: a retry told of its message, then no such conversation, not a participant, not ACTIVE, a membership change under way, and only then on to its recipients |
| MessagingDecisions.ResolvingGoesOn | backend/src/chat/chat-messaging.service.ts:407-412 | before the lock the recipients are worked out from the blocks and the clock of that step, and the send goes on with them |
| MessagingDecisions.CommitDecides | backend/src/chat/chat-messaging.service.ts:428-523 | the same once more under the lock, and otherwise the message is stored |
| MessagingDecisions.TheWorldMoves | backend/src/chat/chat-messaging.service.ts:362-392 | in every run, what a step that is no request's own changes: the clock, a block, the people of a conversation, a new group, a request that starts with nothing written |
| MessagingRules.EditsStaySound | backend/src/chat/chat-message-edit.service.ts:63-154 | at most ten live edits, none of a deleted message, edited exactly when an edit exists, edits by the target's sender, no edit of an edit |
| MessagingRules.UnsentStaysUnsent | backend/src/chat/chat-message-actions.service.ts:179-197 | after an unsend answered, the message and all its edits stay cleared in every continuation |
| MessagingRules.OnlyItsSenderUnsends | backend/src/chat/chat-access.service.ts:146-179 | over every run, a step takes back a sent message if and only if it is the last step of an unsend by its own sender, of it or of the message it is an edit of |
| MessagingRules.UnsendClearsNothingElse | backend/src/chat/chat.repository.ts:1065-1086 | and that clears the message and its edits and changes nothing else |
| MessagingDecisions.UnsendIsChecked | backend/src/chat/chat-access.service.ts:146-179 | an unsend goes on exactly for the sender's own message still sent |
| MessagingDecisions.EditLooks | backend/src/chat/chat-message-edit.service.ts:48-97 | a retried edit is told of its edit; its client id used for anything else is a conflict |
| MessagingDecisions.EditIsChecked | backend/src/chat/chat-message-edit.service.ts:63-97 | only the sender's own text message, still sent and at most a quarter of an hour old, goes on to be edited |
| MessagingDecisions.EditCommits | backend/src/chat/chat-message-edit.service.ts:99-154 | ten edits at most, of a message still sent; the edit goes to everyone the conversation delivers to |
| Messaging.DirectPairIsUnordered | backend/src/chat/chat-messaging.service.ts:633-636 | two pairs of people normalise alike exactly when they are the same two |
| Messaging.FindBySenderClientMessageId | backend/src/chat/chat.repository.ts:119-143 | finds a message of that sender and client id whenever there is one |
| Messaging.CreateMessageKeepsSound | backend/src/chat/chat.repository.ts:437-458 | storing a message keeps every table rule |
| Messaging.CreateDirectKeepsSound | backend/src/chat/chat.repository.ts:197-267 | so does starting a conversation |
| Messaging.CreateEditKeepsSound | backend/src/chat/chat.repository.ts:1008-1062 | and storing an edit below the limit |
| Messaging.SoftDeleteKeepsSound | backend/src/chat/chat.repository.ts:1065-1086 | and unsending |
| ChatRepositories.ChatRepository.EditMessage | backend/src/chat/chat-message-edit.service.ts:99-154 | stamp, count and insert: succeeds exactly when the message is still sent, below the limit and the client id free, else undoes everything; keeps the tables sound |
| ChatRepositories.ChatRepository.SoftDeleteMessage | backend/src/chat/chat.repository.ts:1065-1086 | the two updates together clear the message and exactly its edits |
| ChatRepositories.ChatRepository.InsertMessage | backend/src/chat/chat.repository.ts:466-507 | inserts unless the sender already used the client id |
| ChatRepositories.ChatRepository.MarkMessageEdited | backend/src/chat/chat.repository.ts:1008-1019 | stamps exactly a message that is still sent |
| Recipients.KeyIsExact | backend/src/chat/chat-messaging.service.ts:46-55 | two participant lists have one key if and only if they are the same rows in some order |
| Recipients.EqualKeysGiveEqualRecipients | backend/src/chat/chat-messaging.service.ts:463-474 | keeping the recipients on an equal key is recomputing them from the locked rows |
| Recipients.RecipientsIgnoreOrder | backend/src/chat/chat-messaging.service.ts:580-631 | recipients do not depend on the order of the rows |
| Recipients.RecipientsAre | backend/src/chat/chat-messaging.service.ts:580-631 | who is in each of the five lists, person by person, from the rows, the mutes, the blocks and the mentions |
| Recipients.NotifiedAndSilentPartition | backend/src/chat/chat-messaging.service.ts:580-631 | everyone it is delivered to but the sender is notified or silent, never both |
| Receipts.MaskReceiptsForViewer | backend/src/chat/receipt.mapper.ts:43-87 | the loops that fill `lastReadAt` give, receipt by receipt, what a viewer may know by the participants' rows |
| Receipts.MaskedIs | backend/src/chat/receipt.mapper.ts:43-87 | which receipts are shown, and with which times, said of the rows alone |
| Receipts.CanSeeExactly | backend/src/chat/receipt-visibility.ts:4-43 | a read time of somebody else may be seen if and only if both people share theirs and the reader is ACTIVE or ARCHIVED in the conversation |
| Receipts.HiddenStaysHidden | backend/src/chat/receipt.mapper.ts:43-87 | two lists of the same messages and people are masked alike if and only if they agree in everything but exact delivery times, read times the viewer may not see, hidden readers on others' messages and all but the newest read there |
| Receipts.OthersShowWhereTheyAre | backend/src/chat/receipt.mapper.ts:54-84 | on someone else's message another person shows if and only if it is the newest they visibly read |
| Receipts.OthersShowOnce | backend/src/chat/receipt.mapper.ts:54-84 | so on at most one message the viewer did not send |
| Receipts.OwnMessagesShowDelivery | backend/src/chat/receipt.mapper.ts:69-81 | on the viewer's own message everyone's delivery shows, read times where allowed |
| Receipts.ReadTimesAreMutual | backend/src/chat/receipt-visibility.ts:34-43 | a shown read time of someone else means both people share theirs, the reader is ACTIVE or ARCHIVED, and it is the stored one |
| Receipts.DeliveriesAreHeardBy | backend/src/chat/receipt-recipients.ts:8-28 | someone hears of deliveries if and only if they are another, not deleted, and ACTIVE or ARCHIVED |
| Receipts.ReadsAreHeardBy | backend/src/chat/receipt-recipients.ts:30-40 | and of reads if and only if they may see this reader's read times besides |
| Receipts.LiveReadsMatchTheList | backend/src/chat/receipt-recipients.ts:30-40 | whoever hears of deliveries hears of a read exactly when the list would show it on their own message |
| Paging.HistoryIsComplete | backend/src/chat/chat-inbox.service.ts:150-206 | reading history back while messages are sent and unsent: no boundary is refused, every message there at the start comes exactly once, in order, and nothing else but what was stored meanwhile |
| Paging.HistoryPageIs | backend/src/chat/chat.repository.ts:732-765 | one page, row by row: the rows just before the asked message, oldest first and no more than the limit, with the first of them as cursor; none if the message is not there |
| Paging.QuietHistoryEnds | backend/src/chat/chat.repository.ts:732-765 | such a reading ends once nothing new arrives |
| Paging.InboxPagesAreTheInbox | backend/src/chat/chat-inbox.service.ts:47-92 | a fixed inbox read in pages of any size is the unpaged inbox, pinned first, nothing skipped or repeated |
| Paging.InboxIsSorted | backend/src/chat/chat-inbox.service.ts:47-92 | the whole inbox is every conversation, the pinned on top and otherwise the newest first |
| Paging.DownloadIsComplete | backend/src/chat-backup/chat-backup.service.ts:256-278 | a blob download that ends has every blob there at its start exactly once, by time and then id |
| Paging.QuietDownloadEnds | backend/src/chat-backup/chat-backup.service.ts:256-278 | and a download ends once uploads stop |
| Paging.BlobPageIs | backend/src/chat-backup/chat-backup.repository.ts:333-358 | asking for one row more returns the plain page, with a cursor exactly when rows are left |
| Paging.BlobRowsAre | backend/src/chat-backup/chat-backup.repository.ts:333-358 | one page, row by row: the rows just after the cursor, in order and no more than asked for; a next cursor, the last of them, if and only if rows are left |
| Cursors.CursorRoundTrip | backend/src/chat-backup/chat-backup.service.ts:54-71 | a blob cursor decodes from its text to itself if and only if the id is not empty and holds no bar, and is refused otherwise |
| Cursors.SplitAtFirstBar | backend/src/chat-backup/chat-backup.service.ts:60-63 | splitting a time without a bar, a bar and any rest gives the time and then the parts of the rest |
| Paging.NewestFirstOrders | backend/src/chat/chat.repository.ts:25-46 | (time, id) newest first is a total order, so being older than a boundary is unambiguous |
| DeviceRules.AtMostTenActive | backend/src/chat-devices/chat-devices.repository.ts:65-130 | a user never has more than ten active devices |
| DeviceRules.RevokedForGood | backend/src/chat-devices/chat-devices.repository.ts:143-148 | a revoked device never becomes active again and keeps its owner |
| DeviceRules.DormantDevicesAreRetired | backend/src/chat-devices/chat-devices.repository.ts:150-157 | retiring dormant devices takes exactly the active ones last seen before the cutoff, and changes nothing else |
| DeviceRules.RetirementsAreAccountedFor | backend/src/chat-devices/chat-devices.repository.ts:92-157 | in every run an active device is retired if and only if the step is its owner's revocation, the eviction that picked it for a new device of the same user, or the retirement of dormant devices with it unseen since the cutoff |
| DeviceRules.DevicesComeFromRegistrations | backend/src/chat-devices/chat-devices.repository.ts:65-130 | in every run a device appears only by the last step of its own user's registration, active and just seen |
| DeviceRules.LoginsAreLinkedOnlyWhenProved | backend/src/chat-devices/chat-devices.service.ts:186-251 | in every run a login comes to a device only by its own user's link, whose signature was checked and whose device was that user's and active at that check, and only from no device or from the revoked one it saw |
| DeviceRequests.RegisterAlone | backend/src/chat-devices/chat-devices.repository.ts:65-130 | a registration with nothing else running: refused, in a free place, or in that of the user's stalest device, and when which |
| DeviceRequests.LinkAlone | backend/src/chat-devices/chat-devices.service.ts:186-251 | a link with nothing else running, case by case |
| DeviceRequests.RevokeAlone | backend/src/chat-devices/chat-devices.service.ts:261-283 | a revocation with nothing else running revokes exactly the user's own device |
| DeviceRules.RevokedDeviceNeverSends | backend/src/chat-devices/chat-devices.service.ts:261-283 | once a revocation answered, no login linked to the device, then or later, passes the send gate |
| DeviceRules.MaySendExactly | backend/src/chat-devices/chat-devices.service.ts:564-579 | a login passes the send gate if and only if it is linked to a device of its own user that is not revoked |
| DeviceRules.LoginsNeverLeaveAnActiveDevice | backend/src/chat-devices/chat-devices.service.ts:186-251 | no step moves a login off a device that is still active, and it only ever moves to a device of its user |
| DeviceRules.OnlyTheStalestIsEvicted | backend/src/chat-devices/chat-devices.repository.ts:92-109 | a registration retires at most one device, of its own user, only after counting ten, and then the one unseen longest among the active ones it picked from, unseen for fourteen days when picked |
| DeviceRules.EvictionReadsTheTruth | backend/src/chat-devices/chat-devices.repository.ts:88-97 | the count is of the devices active at that step, and the pick is from those active at its own step with their last-seen times |
| DeviceRules.EvictsFromTenUnlessOneWasRevoked | backend/src/chat-devices/chat-devices.repository.ts:88-109 | when a device is retired its user still has ten if and only if none was revoked since the count |
| DeviceRules.EvictsThoughThereIsRoom | backend/src/chat-devices/chat-devices.repository.ts:88-109 | in every run, another device revoked between the count and the write leaves fewer than ten, and the picked one is retired all the same |
| DeviceRules.DeviceIsEvictedNeedlessly | backend/src/chat-devices/chat-devices.repository.ts:88-109 | a run in which that happens |
| DeviceRules.DevicesAreEvicted | backend/src/chat-devices/chat-devices.repository.ts:65-130 | a run of ten registrations, fifteen silent days and an eleventh reaches an eviction with ten active |
| DeviceRules.ReturningDeviceIsEvictedAnyway | backend/src/chat-devices/chat-devices.repository.ts:98-109 | a device seen between that read and the write is retired all the same |
| DeviceRules.EvictedIsIdleUnlessItReturned | backend/src/chat-devices/chat-devices.repository.ts:98-109 | it is still idle when retired if and only if it was not seen since it was picked |
| KeyPackages.NeverHandedOutTwice | backend/src/chat-devices/chat-devices.repository.ts:166-207 | with any number of claimers, a single-use package goes to one claim, for its own device, and is still stored unless it has expired since |
| KeyPackages.ClaimedWhileValid | backend/src/chat-devices/chat-devices.repository.ts:186-195 | at the winning update it was unclaimed and its device not revoked; it was unexpired when found |
| KeyPackages.WonButGoneExactly | backend/src/chat-devices/chat-devices.repository.ts:197-201 | a claim that won a package still answers null if and only if the package was removed as expired before it was read back |
| KeyPackages.ClaimsEnd | backend/src/chat-devices/chat-devices.repository.ts:167-206 | a claim never tries a package twice, tries at most a thousand and ends within 2001 steps of its own |
| KeyPackages.AloneGetsTheOldest | backend/src/chat-devices/chat-devices.repository.ts:171-184 | without competitors it gets the oldest single-use, unclaimed, unexpired package of the unrevoked device and marks it as its own, and null exactly when there is none |
| KeyPackages.PackagesComeAndGo | backend/src/chat-devices/chat-devices.repository.ts:297-302 | in every run, after anything but a step of a claim: which packages there are, which are gone, which devices are revoked and which claims have begun |
| KeyPackages.ClaimSingleUseKeyPackage | backend/src/chat-devices/chat-devices.repository.ts:166-207 | the loop against any other claimers, any removals and any clock: what it tried is lost and distinct, the package of its winning update is its own, it answers that package unless it was deleted before being read back, and giving up early means nothing is left |
| KeyPackages.FindCandidate | backend/src/chat-devices/chat-devices.repository.ts:171-184 | the oldest claimable package not tried yet, none exactly when there is none |
| Mentions.FindMentions | frontend/lib/mentions.ts:10-21 | the greedy scan returns the list of mentions as declared |
| Mentions.ScanIsExact | frontend/lib/mentions.ts:4-21 | there is a mention at a place if and only if an @ opens there with a valid handle behind it; in bounds, in order, disjoint |
| Mentions.MentionsAre | frontend/lib/mentions.ts:4-21 | the scan finds a handle at a place if and only if an @ with no word before it stands there, the handle is a username as USERNAME_PATTERN spells it out, and the word behind the @ goes on with separators only |
| Mentions.ActiveMentionIsUnique | frontend/lib/mentions.ts:30-32 | the mention ending at the caret is the only one |
| Mentions.SplitMentions | frontend/lib/mentions.ts:35-49 | loses no character, marks a range if and only if it is a mention whose handle in small letters is a known username, makes no empty or needless part |
| Mentions.RunEndIs | frontend/lib/mentions.ts:4 | a match is the maximal run of handle characters |
| Mentions.StripsTrailingSeparators | frontend/lib/mentions.ts:14 | only trailing separators are taken off, and all of them |
| Mentions.TypingIsUnique | frontend/lib/mentions.ts:24-27 | the word being typed starts at a place if and only if an @ with no word before it stands there with at most 20 handle characters up to the caret |
| Mentions.PickedMentions | frontend/hooks/useMentionPicker.ts:33-42 | exactly which places hold a mention after a pick |
| Mentions.PickFindsHandle | frontend/hooks/useMentionPicker.ts:33-42 | the picked handle is a mention where it was typed |
| Mentions.PickKeepsOthers | frontend/hooks/useMentionPicker.ts:33-42 | every mention before the typed word, or from the caret on, is still found, moved along |
| Mentions.PickNeedsAWord | frontend/hooks/useMentionPicker.ts:33-42 | a pick changes the draft if and only if a word is being typed at the caret |
| Mentions.PickReplacesTheWord | frontend/hooks/useMentionPicker.ts:33-42 | the typed word gives way to the handle and a space with the caret behind them, and the rest of the draft stays |
| Comments.LikeCountIsExact | backend/src/comments/comments.repository.ts:52-89 | in every run a comment's like counter is its number of likes |
| Comments.CommentCountIsVisibleLessHiddenDeleted | backend/src/comments/comments.repository.ts:204-252 | in every run a post's counter is its visible comments less those hidden and deleted, and so the visible ones if and only if there is none of those |
| Comments.HiddenThenDeletedGoesNegative | backend/src/comments/comments.service.ts:299-330 | a hidden comment deleted by its author takes the counter to -1 |
| Comments.ChangesLeaveTheseComments | backend/src/comments/comments.repository.ts:204-252 | in every run, which comments there are after a change, and in what state |
| Comments.ChangesLeaveTheseLikes | backend/src/comments/comments.repository.ts:52-89 | in every run, who likes which comment after a change |
| Comments.CommentsRepository.CreateComment | backend/src/comments/comments.repository.ts:460-491 | stores the comment and counts it, keeping both counters right (the row written is that of Insert) |
| Comments.CommentsRepository.Insert | backend/src/comments/comments.repository.ts:460-491 | one new published comment without likes, its post counted up by one, nothing else |
| Comments.CommentsRepository.SoftDeleteComment | backend/src/comments/comments.repository.ts:509-543 | deletes a comment once and counts it out once |
| Comments.CommentsRepository.TransitionStatus | backend/src/comments/comments.repository.ts:204-252 | hides or restores only from the other status, counting accordingly |
| Comments.CommentsRepository.LikeComment | backend/src/comments/comments.repository.ts:52-71 | adds a like once and returns the number of likes |
| Comments.CommentsRepository.UnlikeComment | backend/src/comments/comments.repository.ts:73-89 | removes a like once and returns the number of likes |

## Left out

- MessagingRules.MessagesGoToTheLockedRows: blocks and mutes are read in one step, where the code asks for them in several queries; receipts that start read, and bringing deleted chats back, are not part of this model.
- MessagingRetries.RetryIsAnsweredTheSame: the device link, rate limit and payload checks before a send are not part of this model.
- MessagingRules.OnlyActiveMembersWrite: a member's device missing from the MLS group and a block by the sender are inputs of a step.
- LoginCacheEntries.LookupsAfterSetFindIt: a lookup whose Redis call fails answers what the database holds, whatever is cached.
- ChatBackupClearings.ClearedForAnotherExactly: goes by whose challenge a cancel spent; its proof is checked against the secret read when it started, so a request that presents a challenge issued only later is not ruled out.
- MessagingRetries.ConflictIsSettledWhenStored: a direct first message that is refused for its message request setting or a reply target counts as forbidden.
- DeviceRules.RevokedDeviceNeverSends: ending the device's logins is done elsewhere; logins only disappear here.
- ChatBackupRules.UploadReportsGrowth: whether the user owns the messages is an input of the request.
- Paging.DownloadIsComplete: a blob whose transaction began before the download and committed during it may carry an earlier time; only blobs visible at the start are promised.
- Paging.InboxPagesAreTheInbox: an inbox that changes between pages is not covered; conversations move to the top of it.
- Early answers for the "conversation started" marker in an existing direct chat; a direct request may send there in the model where the code only opens the chat.
- HMAC is idealised as a term: equal proofs come from equal secret, purpose, nonce and key. Nonces do not repeat. base64 text and the bytes it stands for are one.
- `generation` in the backup rows is not a column; it only names the key a blob was stored under.
- Cursors.CursorRoundTrip: `Date` and `Buffer` are parameters that only have to undo themselves; the HTTP layer around cursors is not part of this model.
- Characters outside the basic multilingual plane, which JavaScript sees as two code units; `matchMembers` and `mentionedIds`.
- Rows that go with a deleted user, conversation or post; blobs and messages are removed only as described above.
- Key packages' contents, the last-resort fallback, consent checks before a claim.
- Prisma, PostgreSQL, Redis, Kafka and socket plumbing; rate limits, alerts, logging; React components other than the picker.
- `lock-conversation`, the membership service, the MLS roster and the event publisher: membership changes are arbitrary events under the lock, an event is stored with its message.
- Moderation enforcement that bypasses `setModeratedStatus`; hiding a comment that was deleted meanwhile is covered.
- One total order on ids stands for both JavaScript's and PostgreSQL's.
