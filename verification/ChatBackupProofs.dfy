/**
 * What a proof is: whoever destroys a backup at once, or cancels its deletion, shows an HMAC made with the secret of
 * the key there is, over its challenge, for that purpose and for nothing else.
 */
module ChatBackupProofs {
  import opened Common
  import opened ChatBackup
  import opened ChatBackupRuns
  import opened ChatBackupRules

  // ---------------------------------------------------------------- a phase remembers its own request

  predicate ClaimIsOf(request: Request, claim: Claim) {
    if claim.replace then
      request == Put(claim.keyCheck, claim.newSecret, true, Some(claim.nonce), Some(claim.proof))
    else
      request == Disable(Some(claim.nonce), Some(claim.proof)) && claim.keyCheck == "" && claim.newSecret == ""
  }

  predicate PhaseIsOf(request: Request, phase: Phase) {
    match phase
    case CreatingKey(keyCheck, newSecret) => request.Put? && request.keyCheck == keyCheck && request.secret == newSecret
    case Proving(claim) => ClaimIsOf(request, claim)
    case Verifying(claim, _) => ClaimIsOf(request, claim)
    case Scheduling(_) => request == Disable(None, None)
    case Consuming(nonce, proof, _) => request == Cancel(Some(nonce), Some(proof))
    case Cancelling(nonce) => request.Cancel? && request.nonce == Some(nonce)
    case Uploading(items) => request == Upload(items, true)
    case Inserting(items, _, _) => request == Upload(items, true)
    case Expiring(_) => request == Cron
    case Deleting(_) => request == Cron
    case _ => true
  }

  predicate PhasesAreOwn(s: State) {
    forall id | id in s.requests :: PhaseIsOf(s.requests[id].request, s.requests[id].phase)
  }

  lemma StepKeepsOwn(s: State, id: nat)
    requires id in s.requests && PhaseIsOf(s.requests[id].request, s.requests[id].phase)
    ensures id in Advance(s, id).requests && Advance(s, id).requests[id].request == s.requests[id].request
    ensures PhaseIsOf(s.requests[id].request, Advance(s, id).requests[id].phase)
  {
    if s.requests[id].phase.Started? { StartIsOwn(s, id); }
  }

  lemma StartIsOwn(s: State, id: nat)
    requires id in s.requests && s.requests[id].phase.Started?
    ensures id in Start(s, id).requests && Start(s, id).requests[id].request == s.requests[id].request
    ensures PhaseIsOf(s.requests[id].request, Start(s, id).requests[id].phase)
  {
  }

  lemma {:induction false} RunKeepsOwn(s: State, es: seq<Event>)
    requires Inv(s) && PhasesAreOwn(s)
    ensures Inv(Run(s, es)) && PhasesAreOwn(Run(s, es))
    decreases |es|
  {
    if es != [] {
      ApplyKeepsInv(s, es[0]);
      ApplyKeepsOwn(s, es[0]);
      RunKeepsOwn(Apply(s, es[0]), es[1..]);
    }
  }

  lemma ApplyKeepsOwn(s: State, e: Event)
    requires Inv(s) && PhasesAreOwn(s)
    ensures PhasesAreOwn(Apply(s, e))
  {
    if e.Step? && e.id in s.requests {
      StepKeepsOwn(s, e.id);
      AdvanceMoves(s, e.id);
    }
  }

  lemma ReachedIsOwn(legacyKeyCheck: Option<Bytes>, es: seq<Event>)
    ensures Inv(Reached(legacyKeyCheck, es)) && PhasesAreOwn(Reached(legacyKeyCheck, es))
  {
    RunKeepsInv(Init(legacyKeyCheck), []);
    RunKeepsOwn(Init(legacyKeyCheck), es);
  }

  // ---------------------------------------------------------------- proofs that destroy

  /** The challenge presented is the one stored, and has not expired at `now`. */
  predicate IsLiveChallenge(key: KeyRow, nonce: Bytes, now: int) {
    key.challenge.Some? && key.challenge.value.nonce == nonce && now < key.challenge.value.expiresAt
  }

  /** The request carries what only the holder of this key's secret can make, for what it asks. */
  predicate IsProven(key: KeyRow, request: Request) {
    && key.secret.Some?
    && match request
       case Put(keyCheck, secret, replace, nonce, proof) =>
         replace && nonce.Some? && proof == Some(Hmac(key.secret.value, Replace, nonce.value, keyCheck, secret))
       case Disable(nonce, proof) =>
         nonce.Some? && proof == Some(Hmac(key.secret.value, Delete, nonce.value, "", ""))
       case _ => false
  }

  /** What is left of a backup after that. */
  predicate IsDestroyed(before: Db, request: Request, after: Db) {
    && after.blobs == []
    && (request.Disable? ==> after.key.None? && after.generations == before.generations)
    && (request.Put? ==>
          && after.key == Some(KeyRow(request.keyCheck, Some(request.secret), None, None, before.generations + 1))
          && after.generations == before.generations + 1)
  }

  /**
   * Whatever destroys a backup, or takes the place of its key, and is not the deletion run, carries an HMAC made
   * with the secret in the key row at that step, over the challenge stored there, for the replace or the delete
   * it asks for - and a replace stores the very key the HMAC was made for.
   */
  lemma DestroyerHeldTheSecret(legacyKeyCheck: Option<Bytes>, es: seq<Event>, e: Event)
    requires Destroys(Reached(legacyKeyCheck, es).db, Apply(Reached(legacyKeyCheck, es), e).db)
    ensures
      var s, next := Reached(legacyKeyCheck, es), Apply(Reached(legacyKeyCheck, es), e);
      && e.Step? && e.id in s.requests && s.db.key.Some?
      && var request := s.requests[e.id].request;
      || (request == Cron && CameDue(s, e.id) && next.db.key.None? && next.db.blobs == [])
      || (IsProven(s.db.key.value, request) && IsDestroyed(s.db, request, next.db)
          && s.db.key.value.challenge.Some? && request.nonce == Some(s.db.key.value.challenge.value.nonce))
  {
    ReachedIsOwn(legacyKeyCheck, es);
    DestroyingStep(Reached(legacyKeyCheck, es), e);
  }

  /** And such a request is accepted, under the lock, exactly then; a refused one leaves everything as it was. */
  lemma ProofIsAcceptedExactly(legacyKeyCheck: Option<Bytes>, es: seq<Event>, id: nat)
    requires
      var s := Reached(legacyKeyCheck, es);
      id in s.requests && s.requests[id].phase.Verifying?
    ensures
      var s, next := Reached(legacyKeyCheck, es), Apply(Reached(legacyKeyCheck, es), Step(id));
      var request, claim := s.requests[id].request, s.requests[id].phase.claim;
      && s.db.key.Some? && id in next.requests && next.requests[id].phase.Done?
      && if IsProven(s.db.key.value, request) && IsLiveChallenge(s.db.key.value, claim.nonce, claim.at)
         then next.requests[id].phase == Done(Authorised(claim.nonce)) && IsDestroyed(s.db, request, next.db)
         else next.requests[id].phase == Done(Forbidden) && next.db == s.db
  {
    ReachedIsOwn(legacyKeyCheck, es);
    var s := Reached(legacyKeyCheck, es);
    assert PhaseIsOf(s.requests[id].request, s.requests[id].phase);
    assert s.lock == Some(id) && ReadStaysTrue(s, s.requests[id].phase);
  }

  // ---------------------------------------------------------------- proofs that cancel

  /** A cancel is checked against the secret the key row held when it began. */
  predicate ReadItsSecret(s: State, es: seq<Event>, id: nat, secret: Bytes) {
    exists k | 0 <= k < |es| ::
      var then_ := Run(s, es[..k]);
      && es[k] == Step(id) && id in then_.requests && then_.requests[id].phase.Started?
      && then_.db.key.Some? && then_.db.key.value.secret == Some(secret)
  }

  lemma StartsConsuming(s: State, e: Event, id: nat)
    requires LockIsExclusive(s) && id in Apply(s, e).requests && Apply(s, e).requests[id].phase.Consuming?
    ensures id in s.requests
    ensures s.requests[id].phase == Apply(s, e).requests[id].phase ||
      (e == Step(id) && s.requests[id].phase.Started? && s.db.key.Some?
       && s.db.key.value.secret == Some(Apply(s, e).requests[id].phase.secret))
  {
    if e.Step? && e.id in s.requests { AdvanceMoves(s, e.id); }
    if e == Step(id) && s.requests[id].phase.Started? { StartsByReading(s, id); }
  }

  lemma StartsByReading(s: State, id: nat)
    requires id in s.requests && s.requests[id].phase.Started?
    ensures
      var next := Start(s, id);
      id in next.requests && (next.requests[id].phase.Consuming? ==>
        s.db.key.Some? && s.db.key.value.secret == Some(next.requests[id].phase.secret))
  {
  }

  lemma {:induction false} ConsumingReadItsSecret(s: State, es: seq<Event>, id: nat)
    requires Inv(s) && id !in s.requests
    requires id in Run(s, es).requests && Run(s, es).requests[id].phase.Consuming?
    ensures ReadItsSecret(s, es, id, Run(s, es).requests[id].phase.secret)
    decreases |es|
  {
    if es != [] {
      var before, e := es[..|es| - 1], es[|es| - 1];
      var secret := Run(s, es).requests[id].phase.secret;
      RunKeepsInv(s, before);
      RunSnoc(s, before, e);
      assert before + [e] == es;
      StartsConsuming(Run(s, before), e, id);
      if Run(s, before).requests[id].phase.Started? {
        assert es[..|before|] == before;
      } else {
        ConsumingReadItsSecret(s, before, id);
        var k :| 0 <= k < |before| && before[k] == Step(id)
          && id in Run(s, before[..k]).requests && Run(s, before[..k]).requests[id].phase.Started?
          && Run(s, before[..k]).db.key.Some? && Run(s, before[..k]).db.key.value.secret == Some(secret);
        assert es[..k] == before[..k] && es[k] == before[k];
      }
    }
  }

  /**
   * A cancel goes on to clear the schedule exactly when it spends the stored challenge while that is alive and its
   * proof is an HMAC for cancelling, over that challenge, made with the secret the key row held when it began.
   */
  lemma CancellerHeldTheSecret(legacyKeyCheck: Option<Bytes>, es: seq<Event>, id: nat)
    requires
      var s := Reached(legacyKeyCheck, es);
      id in s.requests && s.requests[id].phase.Consuming?
    ensures
      var s, next := Reached(legacyKeyCheck, es), Apply(Reached(legacyKeyCheck, es), Step(id));
      var Consuming(nonce, proof, secret) := s.requests[id].phase;
      && s.requests[id].request == Cancel(Some(nonce), Some(proof))
      && ReadItsSecret(Init(legacyKeyCheck), es, id, secret)
      && id in next.requests
      && (next.requests[id].phase == Cancelling(nonce) <==>
            s.db.key.Some? && IsLiveChallenge(s.db.key.value, nonce, s.now)
            && proof == Hmac(secret, CancelDelete, nonce, "", ""))
      && (!next.requests[id].phase.Cancelling? ==> next.requests[id].phase == Done(Forbidden))
  {
    ReachedIsOwn(legacyKeyCheck, es);
    RunKeepsInv(Init(legacyKeyCheck), []);
    var s := Reached(legacyKeyCheck, es);
    assert PhaseIsOf(s.requests[id].request, s.requests[id].phase);
    ConsumingReadItsSecret(Init(legacyKeyCheck), es, id);
  }

  // ---------------------------------------------------------------- a request that nothing interrupts

  /** A request from its arrival to its answer, with nothing else running. */
  function Alone(s: State, id: nat, request: Request): State {
    Run(s, [Arrive(id, request), Step(id), Step(id), Step(id)])
  }

  lemma AloneIs(s: State, id: nat, request: Request)
    ensures
      var arrived := Apply(s, Arrive(id, request));
      Alone(s, id, request) == Apply(Apply(Apply(arrived, Step(id)), Step(id)), Step(id))
  {
    var es := [Arrive(id, request), Step(id), Step(id), Step(id)];
    var s1 := Apply(s, es[0]);
    var s2 := Apply(s1, es[1]);
    var s3 := Apply(s2, es[2]);
    assert es[1..][1..] == es[2..] && es[2..][1..] == es[3..] && es[3..][1..] == [];
    assert Run(s, es) == Run(s1, es[1..]) == Run(s2, es[2..]) == Run(s3, es[3..]) == Run(Apply(s3, es[3]), []);
  }

  predicate Answers(s: State, id: nat, request: Request, outcome: Outcome, db: Db) {
    var after := Alone(s, id, request);
    id in after.requests && after.requests[id].phase == Done(outcome) && after.db == db && after.lock == s.lock
  }

  lemma PutAlone(
      s: State, id: nat, keyCheck: Bytes, secret: Bytes, replace: bool, nonce: Option<Bytes>, proof: Option<Proof>)
    requires s.lock.None? && id !in s.requests
    ensures
      var request := Put(keyCheck, secret, replace, nonce, proof);
      var made := KeyRow(keyCheck, Some(secret), None, None, s.db.generations + 1);
      if !(16 <= |keyCheck| <= 256 && 16 <= |secret| <= 64) then Answers(s, id, request, BadRequest, s.db)
      else if s.db.key.None? then
        Answers(s, id, request, Enabled, Db(Some(made), s.db.blobs, s.db.generations + 1))
      else if !replace then Answers(s, id, request, Conflict, s.db)
      else if IsProven(s.db.key.value, request) && IsLiveChallenge(s.db.key.value, nonce.value, s.now) then
        Answers(s, id, request, Authorised(nonce.value), Db(Some(made), [], s.db.generations + 1))
      else Answers(s, id, request, Forbidden, s.db)
  {
    AloneIs(s, id, Put(keyCheck, secret, replace, nonce, proof));
  }

  lemma DisableAlone(s: State, id: nat, nonce: Option<Bytes>, proof: Option<Proof>)
    requires s.lock.None? && id !in s.requests && (nonce.Some? || proof.Some?)
    ensures
      var request := Disable(nonce, proof);
      if s.db.key.Some? && IsProven(s.db.key.value, request) && IsLiveChallenge(s.db.key.value, nonce.value, s.now)
      then Answers(s, id, request, Authorised(nonce.value), Db(None, [], s.db.generations))
      else Answers(s, id, request, Forbidden, s.db)
  {
    AloneIs(s, id, Disable(nonce, proof));
  }

  lemma AskAlone(s: State, id: nat)
    requires id !in s.requests
    ensures
      var request := Disable(None, None);
      if s.db.key.None? then Answers(s, id, request, NothingToDisable, s.db)
      else if s.db.key.value.scheduledAt.Some? then
        Answers(s, id, request, ScheduledFor(s.db.key.value.scheduledAt.value), s.db)
      else
        var at := s.now + 7 * 24 * 60 * 60 * 1000;
        Answers(s, id, request, ScheduledFor(at), s.db.(key := Some(s.db.key.value.(scheduledAt := Some(at)))))
  {
    AloneIs(s, id, Disable(None, None));
  }

  lemma CancelAlone(s: State, id: nat, nonce: Option<Bytes>, proof: Option<Proof>)
    requires id !in s.requests
    ensures
      var request := Cancel(nonce, proof);
      if s.db.key.None? then Answers(s, id, request, Conflict, s.db)
      else if s.db.key.value.secret.None? || nonce.None? || proof.None? then Answers(s, id, request, Forbidden, s.db)
      else if !IsLiveChallenge(s.db.key.value, nonce.value, s.now) then Answers(s, id, request, Forbidden, s.db)
      else
        var spent := s.db.key.value.(challenge := None);
        if proof.value == Hmac(s.db.key.value.secret.value, CancelDelete, nonce.value, "", "") then
          Answers(s, id, request, Authorised(nonce.value), s.db.(key := Some(spent.(scheduledAt := None))))
        else Answers(s, id, request, Forbidden, s.db.(key := Some(spent)))
  {
    AloneIs(s, id, Cancel(nonce, proof));
  }

  lemma ChallengeAlone(s: State, id: nat, drawn: Bytes)
    requires id !in s.requests && drawn !in s.issued
    ensures
      var request := NewChallenge(drawn);
      if s.db.key.None? then Answers(s, id, request, Conflict, s.db)
      else
        var challenge := Challenge(drawn, s.now + 5 * 60 * 1000);
        Answers(s, id, request, Challenged, s.db.(key := Some(s.db.key.value.(challenge := Some(challenge)))))
  {
    AloneIs(s, id, NewChallenge(drawn));
  }

  /** What an upload of these items comes to once it may start: nothing new, too much, or all that is new. */
  predicate Uploads(db: Db, id: nat, items: seq<Item>, after: State) {
    var added := FreshItems(db, UniqueItems(items));
    && db.key.Some? && id in after.requests && after.lock.None?
    && if TotalSize(added) == 0 then after.requests[id].phase == Done(Uploaded(0, |items|)) && after.db == db
       else if !Fits(db, added) then after.requests[id].phase == Done(TooLarge) && after.db == db
       else
         && after.requests[id].phase == Done(Uploaded(|added|, |items| - |added|))
         && after.db == db.(blobs := db.blobs + BlobsOf(added, db.key.value.generation))
  }

  predicate IsBadItem(item: Item) { |item.ciphertext| == 0 || |item.ciphertext| > 64 * 1024 }

  /** Why an upload is answered before it starts, in the order in which that is looked at. */
  function WhyNotUpload(s: State, items: seq<Item>, owned: bool): Option<Outcome> {
    if s.db.key.None? then Some(Conflict)
    else if exists item | item in UniqueItems(items) :: IsBadItem(item) then Some(BadRequest)
    else if !owned then Some(Forbidden)
    else None
  }

  lemma UploadAlone(s: State, id: nat, items: seq<Item>, owned: bool)
    requires s.lock.None? && id !in s.requests
    ensures
      var request, why := Upload(items, owned), WhyNotUpload(s, items, owned);
      if why.Some? then Answers(s, id, request, why.value, s.db) else Uploads(s.db, id, items, Alone(s, id, request))
  {
    AloneIs(s, id, Upload(items, owned));
    var arrived := Apply(s, Arrive(id, Upload(items, owned)));
    UploadStarts(arrived, id);
    var begun := Apply(arrived, Step(id));
    if begun.requests[id].phase.Uploading? {
      UploadEnds(begun, id);
    } else {
      AnsweredStays(begun, id);
    }
  }

  lemma AnsweredStays(s: State, id: nat)
    requires id in s.requests && s.requests[id].phase.Done?
    ensures Apply(s, Step(id)) == s
  {
  }

  /** A request that is answered at once, or goes on to wait for the lock. */
  lemma UploadStarts(s: State, id: nat)
    requires id in s.requests && s.requests[id].phase.Started? && s.requests[id].request.Upload?
    ensures
      var Upload(items, owned) := s.requests[id].request;
      var why := WhyNotUpload(s, items, owned);
      Apply(s, Step(id)) == To(s, id, if why.Some? then Done(why.value) else Uploading(items))
  {
    if exists item | item in UniqueItems(s.requests[id].request.items) :: IsBadItem(item) {
      var item :| item in UniqueItems(s.requests[id].request.items) && IsBadItem(item);
      assert !(1 <= |item.ciphertext| <= MAX_BLOB_BYTES);
    }
  }

  lemma UploadEnds(s: State, id: nat)
    requires id in s.requests && s.requests[id].phase.Uploading? && s.lock.None? && s.db.key.Some?
    ensures Uploads(s.db, id, s.requests[id].phase.items, Apply(Apply(s, Step(id)), Step(id)))
  {
    UploadBegins(s, id);
    var begun := UploadSteps(s, id);
    if begun.requests[id].phase.Done? { AnsweredStays(begun, id); } else { UploadInserts(s, id, begun); }
  }

  lemma UploadInserts(s: State, id: nat, begun: State)
    requires id in s.requests && s.requests[id].phase.Uploading? && s.db.key.Some?
    requires
      var items := s.requests[id].phase.items;
      var added := FreshItems(s.db, UniqueItems(items));
      && TotalSize(added) != 0 && Fits(s.db, added)
      && begun == To(s.(lock := Some(id)), id, Inserting(items, added, s.db.key.value.generation))
    ensures Uploads(s.db, id, s.requests[id].phase.items, Apply(begun, Step(id)))
  {
    InsertingInserts(begun, id);
  }

  lemma UploadSteps(s: State, id: nat) returns (begun: State)
    requires id in s.requests && s.requests[id].phase.Uploading? && s.lock.None?
    ensures begun == Apply(s, Step(id)) == BeginUpload(s, id)
  {
    begun := BeginUpload(s, id);
  }

  lemma UploadBegins(s: State, id: nat)
    requires id in s.requests && s.requests[id].phase.Uploading? && s.lock.None? && s.db.key.Some?
    ensures
      var items := s.requests[id].phase.items;
      var added := FreshItems(s.db, UniqueItems(items));
      BeginUpload(s, id) ==
        if TotalSize(added) == 0 then To(s, id, Done(Uploaded(0, |items|)))
        else if !Fits(s.db, added) then To(s, id, Done(TooLarge))
        else To(s.(lock := Some(id)), id, Inserting(items, added, s.db.key.value.generation))
  {
  }

  lemma InsertingInserts(s: State, id: nat)
    requires id in s.requests && s.requests[id].phase.Inserting?
    ensures
      var Inserting(items, added, generation) := s.requests[id].phase;
      Apply(s, Step(id)) ==
        To(s.(db := s.db.(blobs := s.db.blobs + BlobsOf(added, generation)), lock := None), id,
           Done(Uploaded(|added|, |items| - |added|)))
  {
  }

  lemma CronAlone(s: State, id: nat)
    requires s.lock.None? && id !in s.requests
    ensures
      if s.db.key.Some? && s.db.key.value.scheduledAt.Some? && s.db.key.value.scheduledAt.value <= s.now
      then Answers(s, id, Cron, Expired, Db(None, [], s.db.generations))
      else Answers(s, id, Cron, Skipped, s.db)
  {
    AloneIs(s, id, Cron);
  }
  /** The deletion run looks for what is due, and looks once more under the lock; what no longer is due is left. */
  lemma CronLooksTwice(s: State, id: nat)
    requires id in s.requests && s.requests[id].request.Cron?
    ensures
      var isDueBy := (cutoff: int) =>
        s.db.key.Some? && s.db.key.value.scheduledAt.Some? && s.db.key.value.scheduledAt.value <= cutoff;
      var next := Apply(s, Step(id));
      match s.requests[id].phase
      case Started => next == To(s, id, if isDueBy(s.now) then Expiring(s.now) else Done(Skipped))
      case Expiring(cutoff) =>
        next ==
          if s.lock.Some? then s
          else if isDueBy(cutoff) then To(s.(lock := Some(id)), id, Deleting(cutoff))
          else To(s, id, Done(Skipped))
      case _ => true
  {
  }

  /** An upload waits for the lock, and is refused when the key went meanwhile. */
  lemma UploadWaitsForItsKey(s: State, id: nat)
    requires id in s.requests && s.requests[id].phase.Uploading? && (s.lock.Some? || s.db.key.None?)
    ensures Apply(s, Step(id)) == if s.lock.Some? then s else To(s, id, Done(Conflict))
  {
  }

  /** A backup from before there were secrets: no proof is right for it, but its deletion can be asked for. */
  lemma LegacyBackupIsOnlyScheduled(keyCheck: Bytes, nonce: Bytes, proof: Proof)
    ensures
      var s := Init(Some(keyCheck));
      && s.db.key.Some? && s.db.key.value.keyCheck == keyCheck && s.db.blobs == []
      && Answers(s, 0, Disable(Some(nonce), Some(proof)), Forbidden, s.db)
      && Answers(s, 0, Cancel(Some(nonce), Some(proof)), Forbidden, s.db)
      && var at := s.now + 7 * 24 * 60 * 60 * 1000;
      Answers(s, 0, Disable(None, None), ScheduledFor(at),
        s.db.(key := Some(s.db.key.value.(scheduledAt := Some(at)))))
    ensures Init(None).db.key.None? && Init(None).db.blobs == []
  {
    var s := Init(Some(keyCheck));
    DisableAlone(s, 0, Some(nonce), Some(proof));
    CancelAlone(s, 0, Some(nonce), Some(proof));
    AskAlone(s, 0);
  }
}
