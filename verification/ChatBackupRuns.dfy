/**
 * Every interleaving of requests on one user's backup. A locked transaction is two steps, its reads
 * when it gets the per-user lock and its writes when it commits; single statements that do not take
 * that lock (create, challenge, schedule, cancel) may run between the two.
 */
module ChatBackupRuns {
  import opened Common
  import opened ChatBackup

  datatype Request =
    | Put(keyCheck: Bytes, secret: Bytes, replace: bool, nonce: Option<Bytes>, proof: Option<Proof>)
    | Disable(nonce: Option<Bytes>, proof: Option<Proof>)
    | Cancel(nonce: Option<Bytes>, proof: Option<Proof>)
    | NewChallenge(drawn: Bytes)
    | Upload(items: seq<Item>, owned: bool)
    | Cron

  datatype Outcome =
    | Enabled | Challenged | Authorised(nonce: Bytes) | ScheduledFor(at: int) | NothingToDisable
    | Uploaded(stored: nat, skipped: int) | Expired | Skipped
    | BadRequest | Forbidden | Conflict | TooLarge

  /** What a replace or delete request presents, and when it read its clock. */
  datatype Claim = Claim(replace: bool, nonce: Bytes, proof: Proof, keyCheck: Bytes, newSecret: Bytes, at: int)

  datatype Phase =
    | Started
    | CreatingKey(keyCheck: Bytes, newSecret: Bytes)
    | Proving(claim: Claim)
    | Verifying(claim: Claim, secret: Bytes)
    | Scheduling(at: int)
    | Consuming(nonce: Bytes, proof: Proof, secret: Bytes)
    | Cancelling(nonce: Bytes)
    | Uploading(items: seq<Item>)
    | Inserting(items: seq<Item>, added: seq<Item>, generation: nat)
    | Expiring(cutoff: int)
    | Deleting(cutoff: int)
    | Done(outcome: Outcome)

  datatype Flight = Flight(request: Request, phase: Phase)

  /**
   * Besides the tables and the lock: the challenges written so far in order, which request consumed
   * each, and when a proofless request worked out a new deletion time.
   */
  datatype State = State(
    now: int, db: Db, lock: Option<nat>, requests: map<nat, Flight>,
    issued: seq<Bytes>, spent: map<Bytes, nat>, askedAt: set<int>)

  datatype Event = Tick(ms: nat) | Arrive(id: nat, request: Request) | Step(id: nat)

  /** A backup made before proofs existed has a key row without a secret. */
  function Init(legacyKeyCheck: Option<Bytes>): State {
    var key := if legacyKeyCheck.None? then None else Some(KeyRow(legacyKeyCheck.value, None, None, None, 0));
    State(0, Db(key, [], 0), None, map[], [], map[], {})
  }

  function To(s: State, id: nat, phase: Phase): State
    requires id in s.requests
  {
    s.(requests := s.requests[id := s.requests[id].(phase := phase)])
  }

  function Finish(s: State, id: nat, outcome: Outcome): State
    requires id in s.requests
  {
    To(s, id, Done(outcome))
  }

  /** What a request does before its first lock or write. */
  function Start(s: State, id: nat): State
    requires id in s.requests
  {
    match s.requests[id].request
    case Put(keyCheck, secret, replace, nonce, proof) =>
      if !(MIN_KEY_CHECK_BYTES <= |keyCheck| <= MAX_KEY_CHECK_BYTES
        && MIN_SECRET_BYTES <= |secret| <= MAX_SECRET_BYTES) then
        Finish(s, id, BadRequest)
      else if s.db.key.None? then To(s, id, CreatingKey(keyCheck, secret))
      else if !replace then Finish(s, id, Conflict)
      else if nonce.None? || proof.None? then Finish(s, id, Forbidden)
      else To(s, id, Proving(Claim(true, nonce.value, proof.value, keyCheck, secret, s.now)))
    case Disable(nonce, proof) =>
      if nonce.Some? && proof.Some? then To(s, id, Proving(Claim(false, nonce.value, proof.value, "", "", s.now)))
      else if nonce.Some? || proof.Some? then Finish(s, id, Forbidden)
      else if s.db.key.None? then Finish(s, id, NothingToDisable)
      else if s.db.key.value.scheduledAt.Some? then To(s, id, Scheduling(s.db.key.value.scheduledAt.value))
      else To(s.(askedAt := s.askedAt + {s.now}), id, Scheduling(s.now + DELETION_DELAY_MS))
    case Cancel(nonce, proof) =>
      if s.db.key.None? then Finish(s, id, Conflict)
      else if s.db.key.value.secret.None? || nonce.None? || proof.None? then Finish(s, id, Forbidden)
      else To(s, id, Consuming(nonce.value, proof.value, s.db.key.value.secret.value))
    case NewChallenge(drawn) =>
      if s.db.key.None? then Finish(s, id, Conflict)
      else if drawn in s.issued then s  // random nonces do not repeat
      else
        Finish(s.(db := IssueChallenge(s.db, drawn, s.now + CHALLENGE_TTL_MS), issued := s.issued + [drawn]),
          id, Challenged)
    case Upload(items, owned) =>
      if s.db.key.None? then Finish(s, id, Conflict)
      else if exists item | item in UniqueItems(items) :: !(1 <= |item.ciphertext| <= MAX_BLOB_BYTES) then
        Finish(s, id, BadRequest)
      else if !owned then Finish(s, id, Forbidden)
      else To(s, id, Uploading(items))
    case Cron => if IsDue(s.db, s.now) then To(s, id, Expiring(s.now)) else Finish(s, id, Skipped)
  }

  /** The claim's proof is right for this secret. */
  predicate Proves(claim: Claim, secret: Bytes) {
    claim.proof ==
      Expected(secret, if claim.replace then Replace else Delete, claim.nonce, claim.keyCheck, claim.newSecret)
  }

  function Commit(s: State, id: nat): State
    requires id in s.requests && s.requests[id].phase.Verifying?
  {
    var claim := s.requests[id].phase.claim;
    var freed := s.(lock := None);
    if !Matches(s.db, claim.nonce, claim.at) || !Proves(claim, s.requests[id].phase.secret) then
      Finish(freed, id, Forbidden)
    else
      var db := if claim.replace then ReplaceKey(s.db, claim.keyCheck, claim.newSecret) else DeleteBackup(s.db);
      Finish(freed.(db := db, spent := s.spent[claim.nonce := id]), id, Authorised(claim.nonce))
  }

  function Consume(s: State, id: nat): State
    requires id in s.requests && s.requests[id].phase.Consuming?
  {
    var Consuming(nonce, proof, secret) := s.requests[id].phase;
    if !Matches(s.db, nonce, s.now) then Finish(s, id, Forbidden)
    else
      var consumed := s.(db := ConsumeChallenge(s.db, nonce, s.now), spent := s.spent[nonce := id]);
      if proof == Expected(secret, CancelDelete, nonce, "", "") then To(consumed, id, Cancelling(nonce))
      else Finish(consumed, id, Forbidden)
  }

  function BeginUpload(s: State, id: nat): State
    requires id in s.requests && s.requests[id].phase.Uploading?
  {
    var items := s.requests[id].phase.items;
    var added := FreshItems(s.db, UniqueItems(items));
    if s.db.key.None? then Finish(s, id, Conflict)
    else if TotalSize(added) == 0 then Finish(s, id, Uploaded(0, |items|))
    else if !Fits(s.db, added) then Finish(s, id, TooLarge)
    else To(s.(lock := Some(id)), id, Inserting(items, added, s.db.key.value.generation))
  }

  /** The request's next step; one that waits for the lock does not move. */
  function Advance(s: State, id: nat): State
    requires id in s.requests
  {
    match s.requests[id].phase
    case Started => Start(s, id)
    case CreatingKey(keyCheck, newSecret) =>
      Finish(s.(db := CreateKey(s.db, keyCheck, newSecret)), id, if s.db.key.None? then Enabled else Conflict)
    case Proving(claim) =>
      if s.lock.Some? then s
      else if s.db.key.None? || s.db.key.value.secret.None? then Finish(s, id, Forbidden)
      else To(s.(lock := Some(id)), id, Verifying(claim, s.db.key.value.secret.value))
    case Verifying(_, _) => Commit(s, id)
    case Scheduling(at) => Finish(s.(db := ScheduleDeletion(s.db, at)), id, ScheduledFor(at))
    case Consuming(_, _, _) => Consume(s, id)
    case Cancelling(nonce) => Finish(s.(db := CancelSchedule(s.db)), id, Authorised(nonce))
    case Uploading(_) => if s.lock.Some? then s else BeginUpload(s, id)
    case Inserting(items, added, generation) =>
      Finish(s.(db := InsertBlobs(s.db, added, generation), lock := None), id, Uploaded(|added|, |items| - |added|))
    case Expiring(cutoff) =>
      if s.lock.Some? then s
      else if !IsDue(s.db, cutoff) then Finish(s, id, Skipped)
      else To(s.(lock := Some(id)), id, Deleting(cutoff))
    case Deleting(_) => Finish(s.(db := DeleteBackup(s.db), lock := None), id, Expired)
    case Done(_) => s
  }

  function Apply(s: State, e: Event): State {
    match e
    case Tick(ms) => s.(now := s.now + ms)
    case Arrive(id, request) =>
      if id in s.requests then s else s.(requests := s.requests[id := Flight(request, Started)])
    case Step(id) => if id in s.requests then Advance(s, id) else s
  }

  function Run(s: State, es: seq<Event>): State
    decreases |es|
  {
    if es == [] then s else Run(Apply(s, es[0]), es[1..])
  }

  // ---------------------------------------------------------------- what every reachable state satisfies

  predicate HoldsLock(phase: Phase) {
    phase.Verifying? || phase.Inserting? || phase.Deleting?
  }

  /** Only the lock's holder is inside a transaction. */
  predicate LockIsExclusive(s: State) {
    && (s.lock.Some? ==> s.lock.value in s.requests)
    && (forall id | id in s.requests :: HoldsLock(s.requests[id].phase) <==> s.lock == Some(id))
  }

  /** What a transaction read when it got the lock is still so, although unlocked statements ran since. */
  predicate ReadStaysTrue(s: State, phase: Phase) {
    match phase
    case Verifying(_, secret) => s.db.key.Some? && s.db.key.value.secret == Some(secret)
    case Inserting(items, added, generation) =>
      && s.db.key.Some? && s.db.key.value.generation == generation
      && added == FreshItems(s.db, UniqueItems(items)) && Fits(s.db, added)
    case Deleting(cutoff) =>
      s.db.key.Some? && cutoff <= s.now && exists asked | asked in s.askedAt :: asked + DELETION_DELAY_MS <= cutoff
    case _ => true
  }

  predicate HolderReadsStayTrue(s: State) {
    s.lock.Some? && s.lock.value in s.requests ==> ReadStaysTrue(s, s.requests[s.lock.value].phase)
  }

  /** The time is some proofless request's plus the full delay. */
  predicate AskedFor(s: State, at: int) { at - DELETION_DELAY_MS in s.askedAt }

  predicate PhaseAsked(s: State, phase: Phase) {
    match phase
    case Scheduling(at) => AskedFor(s, at)
    case Expiring(cutoff) => cutoff <= s.now
    case _ => true
  }

  /** Every schedule, stored or about to be, was asked for the full delay ahead. */
  predicate SchedulesWereAsked(s: State) {
    && (forall asked | asked in s.askedAt :: asked <= s.now)
    && (s.db.key.Some? && s.db.key.value.scheduledAt.Some? ==> AskedFor(s, s.db.key.value.scheduledAt.value))
    && (forall id | id in s.requests :: PhaseAsked(s, s.requests[id].phase))
  }

  predicate NoRepeats(nonces: seq<Bytes>) {
    forall j, k | 0 <= j < k < |nonces| :: nonces[j] != nonces[k]
  }

  /** A request that acted on a challenge is the one that consumed it. */
  predicate PhaseSpent(s: State, id: nat, phase: Phase) {
    match phase
    case Cancelling(nonce) => nonce in s.spent && s.spent[nonce] == id
    case Done(Authorised(nonce)) => nonce in s.spent && s.spent[nonce] == id
    case _ => true
  }

  /** A stored challenge is the last one issued and unspent. */
  predicate StoredChallengeIsLatest(s: State) {
    StoredNonce(s).Some? ==>
      s.issued != [] && StoredNonce(s).value == s.issued[|s.issued| - 1] && StoredNonce(s).value !in s.spent
  }

  predicate ChallengesAreSingleUse(s: State) {
    && NoRepeats(s.issued)
    && StoredChallengeIsLatest(s)
    && (forall nonce | nonce in s.spent :: nonce in s.issued)
    && (forall id | id in s.requests :: PhaseSpent(s, id, s.requests[id].phase))
  }

  predicate Inv(s: State) {
    && SoundBackup(s.db)
    && LockIsExclusive(s)
    && HolderReadsStayTrue(s)
    && SchedulesWereAsked(s)
    && ChallengesAreSingleUse(s)
  }

  // ---------------------------------------------------------------- one step, without looking at other requests

  predicate Moves(s: State, id: nat, next: State) {
    && id in s.requests && id in next.requests
    && next.now == s.now
    && next.requests == s.requests[id := next.requests[id]]
  }

  predicate MovesLock(s: State, id: nat, next: State)
    requires id in s.requests && id in next.requests
  {
    var was, is_ := HoldsLock(s.requests[id].phase), HoldsLock(next.requests[id].phase);
    || (next.lock == s.lock && was == is_)
    || (next.lock == Some(id) && s.lock.None? && is_)
    || (next.lock.None? && was && !is_)
  }

  predicate SameKey(a: KeyRow, b: KeyRow) {
    a.keyCheck == b.keyCheck && a.secret == b.secret && a.generation == b.generation
  }

  /** A step that does not hold the lock leaves everything the lock protects as it is. */
  predicate LeavesLockedData(s: State, next: State) {
    && next.db.blobs == s.db.blobs
    && (s.db.key.Some? ==> next.db.key.Some? && SameKey(s.db.key.value, next.db.key.value))
    && s.db.generations <= next.db.generations
    && (s.db.key.None? && next.db.key.Some? ==> next.db.key.value.generation == next.db.generations)
  }

  lemma AdvanceMoves(s: State, id: nat)
    requires id in s.requests && (HoldsLock(s.requests[id].phase) <==> s.lock == Some(id))
    ensures Moves(s, id, Advance(s, id)) && MovesLock(s, id, Advance(s, id))
    ensures !HoldsLock(s.requests[id].phase) ==> LeavesLockedData(s, Advance(s, id))
  {
    if s.requests[id].phase.Started? {
    } else {
      RestMoves(s, id);
    }
  }

  predicate MovesSoundly(s: State, id: nat, next: State) {
    Moves(s, id, next) && MovesLock(s, id, next) && (!HoldsLock(s.requests[id].phase) ==> LeavesLockedData(s, next))
  }

  lemma CommitMoves(s: State, id: nat)
    requires id in s.requests && s.requests[id].phase.Verifying? && s.lock == Some(id)
    ensures MovesSoundly(s, id, Commit(s, id))
  {
  }

  lemma ConsumeMoves(s: State, id: nat)
    requires id in s.requests && s.requests[id].phase.Consuming? && s.lock != Some(id)
    ensures MovesSoundly(s, id, Consume(s, id))
  {
  }

  lemma BeginUploadMoves(s: State, id: nat)
    requires id in s.requests && s.requests[id].phase.Uploading? && s.lock.None?
    ensures MovesSoundly(s, id, BeginUpload(s, id))
  {
  }

  lemma RestMoves(s: State, id: nat)
    requires id in s.requests && !s.requests[id].phase.Started?
    requires (HoldsLock(s.requests[id].phase) <==> s.lock == Some(id))
    ensures MovesSoundly(s, id, Advance(s, id))
  {
    match s.requests[id].phase {
      case Verifying(_, _) => CommitMoves(s, id);
      case Consuming(_, _, _) => ConsumeMoves(s, id);
      case Uploading(_) => if s.lock.None? { BeginUploadMoves(s, id); }
      case _ =>
    }
  }

  lemma StartAsks(s: State, id: nat)
    requires id in s.requests && s.requests[id].phase.Started?
    requires s.db.key.Some? && s.db.key.value.scheduledAt.Some? ==> AskedFor(s, s.db.key.value.scheduledAt.value)
    ensures Asks(s, id, Start(s, id))
  {
  }

  /** Schedules keep being asked for, through this one step. */
  predicate Asks(s: State, id: nat, next: State) {
    && (next.askedAt == s.askedAt || next.askedAt == s.askedAt + {s.now})
    && id in next.requests && PhaseAsked(next, next.requests[id].phase)
    && (next.db.key.Some? && next.db.key.value.scheduledAt.Some? ==>
        AskedFor(next, next.db.key.value.scheduledAt.value))
  }

  lemma AdvanceAsks(s: State, id: nat)
    requires id in s.requests && PhaseAsked(s, s.requests[id].phase)
    requires s.db.key.Some? && s.db.key.value.scheduledAt.Some? ==> AskedFor(s, s.db.key.value.scheduledAt.value)
    ensures Asks(s, id, Advance(s, id))
  {
    if s.requests[id].phase.Started? {
      StartAsks(s, id);
    }
  }

  /** Challenges are written once and consumed once, through this one step. */
  predicate Spends(s: State, id: nat, next: State) {
    && id in next.requests && PhaseSpent(next, id, next.requests[id].phase)
    && (next.spent == s.spent
        || (StoredNonce(s).Some? && StoredNonce(s).value !in s.spent
          && next.spent == s.spent[StoredNonce(s).value := id]))
    && (next.issued == s.issued
        || (next.spent == s.spent && next.issued != [] && next.issued[|next.issued| - 1] !in s.issued
            && next.issued == s.issued + [next.issued[|next.issued| - 1]]))
    && (StoredNonce(next).Some? ==>
          (next.issued == s.issued && StoredNonce(next) == StoredNonce(s) && next.spent == s.spent)
          || (next.issued != [] && next.issued != s.issued
            && StoredNonce(next).value == next.issued[|next.issued| - 1]))
  }

  function StoredNonce(s: State): Option<Bytes> {
    if s.db.key.Some? && s.db.key.value.challenge.Some? then Some(s.db.key.value.challenge.value.nonce) else None
  }

  lemma StartSpends(s: State, id: nat)
    requires id in s.requests && s.requests[id].phase.Started? && StoredChallengeIsLatest(s)
    ensures Spends(s, id, Start(s, id))
  {
  }

  lemma AdvanceSpends(s: State, id: nat)
    requires id in s.requests && PhaseSpent(s, id, s.requests[id].phase) && StoredChallengeIsLatest(s)
    ensures Spends(s, id, Advance(s, id))
  {
    if s.requests[id].phase.Started? {
      StartSpends(s, id);
    } else if s.requests[id].phase.Verifying? {
    } else if s.requests[id].phase.Consuming? {
    } else {
      RestSpends(s, id);
    }
  }

  lemma RestSpends(s: State, id: nat)
    requires id in s.requests && PhaseSpent(s, id, s.requests[id].phase)
    requires !s.requests[id].phase.Started? && !s.requests[id].phase.Verifying? && !s.requests[id].phase.Consuming?
    ensures Spends(s, id, Advance(s, id))
  {
  }

  // ---------------------------------------------------------------- the invariant is kept

  lemma MoveKeepsChallenges(s: State, id: nat, next: State)
    requires ChallengesAreSingleUse(s) && Moves(s, id, next) && Spends(s, id, next)
    ensures ChallengesAreSingleUse(next)
  {
    if StoredNonce(s).Some? {
      assert StoredNonce(s).value in s.issued;
    }
  }

  lemma StepKeepsReads(s: State, id: nat)
    requires id in s.requests && LockIsExclusive(s) && HolderReadsStayTrue(s) && SchedulesWereAsked(s)
    ensures HolderReadsStayTrue(Advance(s, id))
  {
    AdvanceMoves(s, id);
    AdvanceAsks(s, id);
    var next := Advance(s, id);
  }

  lemma StepKeepsSound(s: State, id: nat)
    requires id in s.requests && SoundBackup(s.db) && LockIsExclusive(s) && HolderReadsStayTrue(s)
    ensures SoundBackup(Advance(s, id).db)
  {
    var phase := s.requests[id].phase;
    if phase.Inserting? {
      UniqueItemsOnePerMessage(phase.items);
      StoringKeepsSound(s.db, UniqueItems(phase.items));
    } else if !HoldsLock(phase) {
      AdvanceMoves(s, id);
    }
  }

  lemma StepKeepsInv(s: State, id: nat)
    requires Inv(s) && id in s.requests
    ensures Inv(Advance(s, id))
  {
    AdvanceMoves(s, id);
    AdvanceAsks(s, id);
    AdvanceSpends(s, id);
    MoveKeepsChallenges(s, id, Advance(s, id));
    StepKeepsReads(s, id);
    StepKeepsSound(s, id);
  }

  lemma ApplyKeepsInv(s: State, e: Event)
    requires Inv(s)
    ensures Inv(Apply(s, e))
  {
    if e.Step? && e.id in s.requests {
      StepKeepsInv(s, e.id);
    } else if e.Tick? {
    } else if e.Arrive? && e.id !in s.requests {
    }
  }

  lemma {:induction false} RunKeepsInv(s: State, es: seq<Event>)
    requires Inv(s)
    ensures Inv(Run(s, es))
    decreases |es|
  {
    if es != [] {
      ApplyKeepsInv(s, es[0]);
      RunKeepsInv(Apply(s, es[0]), es[1..]);
    }
  }
}
