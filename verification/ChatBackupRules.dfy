/** What every run of `ChatBackupRuns` keeps to: what may destroy a backup, and what a challenge authorises. */
module ChatBackupRules {
  import opened Common
  import opened ChatBackup
  import opened ChatBackupRuns

  // ---------------------------------------------------------------- what that gives, over every run

  function Reached(legacyKeyCheck: Option<Bytes>, es: seq<Event>): (s: State) {
    Run(Init(legacyKeyCheck), es)
  }

  lemma EveryBackupIsSound(legacyKeyCheck: Option<Bytes>, es: seq<Event>)
    ensures SoundBackup(Reached(legacyKeyCheck, es).db)
  {
    RunKeepsInv(Init(legacyKeyCheck), es);
  }

  /** The key is another one or gone, or a blob is. */
  predicate Destroys(before: Db, after: Db) {
    before.key.Some? && !(after.key.Some? && SameKey(before.key.value, after.key.value) && before.blobs <= after.blobs)
  }

  /** The request shows a proof made with the secret the key row holds at this very step, over its stored challenge. */
  predicate ProvenNow(s: State, id: nat) {
    && id in s.requests && s.requests[id].phase.Verifying?
    && s.db.key.Some? && s.db.key.value.secret.Some?
    && Proves(s.requests[id].phase.claim, s.db.key.value.secret.value)
    && Matches(s.db, s.requests[id].phase.claim.nonce, s.requests[id].phase.claim.at)
  }

  /** A deletion run that found the schedule due, at least the full delay after someone asked for it. */
  predicate CameDue(s: State, id: nat) {
    && id in s.requests && s.requests[id].phase.Deleting? && s.requests[id].phase.cutoff <= s.now
    && exists asked | asked in s.askedAt :: asked + 7 * 24 * 60 * 60 * 1000 <= s.requests[id].phase.cutoff
  }

  /** In every interleaving, only a current proof or a schedule a full delay old destroys a key or a blob. */
  lemma DestructionIsAuthorised(legacyKeyCheck: Option<Bytes>, es: seq<Event>, e: Event)
    requires Destroys(Reached(legacyKeyCheck, es).db, Apply(Reached(legacyKeyCheck, es), e).db)
    ensures e.Step? && (ProvenNow(Reached(legacyKeyCheck, es), e.id) || CameDue(Reached(legacyKeyCheck, es), e.id))
  {
    RunKeepsInv(Init(legacyKeyCheck), es);
    DestroyingStep(Reached(legacyKeyCheck, es), e);
  }

  lemma DestroyingStep(s: State, e: Event)
    requires Inv(s) && Destroys(s.db, Apply(s, e).db)
    ensures e.Step? && (ProvenNow(s, e.id) || CameDue(s, e.id))
  {
    if e.Step? && e.id in s.requests && !HoldsLock(s.requests[e.id].phase) {
      AdvanceMoves(s, e.id);
    }
  }

  /** A schedule that is set is moved by no request: it ends with the key, or by a cancel that spent a challenge. */
  lemma SetScheduleStays(legacyKeyCheck: Option<Bytes>, es: seq<Event>, e: Event)
    requires
      var s, next := Reached(legacyKeyCheck, es), Apply(Reached(legacyKeyCheck, es), e);
      s.db.key.Some? && s.db.key.value.scheduledAt.Some? && !Destroys(s.db, next.db)
    ensures
      var s, next := Reached(legacyKeyCheck, es), Apply(Reached(legacyKeyCheck, es), e);
      || next.db.key.value.scheduledAt == s.db.key.value.scheduledAt
      || (e.Step? && e.id in s.requests && s.requests[e.id].phase.Cancelling?
          && s.requests[e.id].phase.nonce in s.spent && s.spent[s.requests[e.id].phase.nonce] == e.id)
  {
    RunKeepsInv(Init(legacyKeyCheck), es);
    ScheduleStep(Reached(legacyKeyCheck, es), e);
  }

  lemma ScheduleStep(s: State, e: Event)
    requires Inv(s) && s.db.key.Some? && s.db.key.value.scheduledAt.Some?
    ensures ScheduleStands(s.db, Apply(s, e).db)
      || (e.Step? && e.id in s.requests && s.requests[e.id].phase.Cancelling?)
  {
    if e.Step? && e.id in s.requests && !s.requests[e.id].phase.Cancelling? {
      ScheduleAdvance(s, e.id);
    }
  }

  predicate ScheduleStands(before: Db, after: Db)
    requires before.key.Some?
  {
    after.key.Some? && after.key.value.generation == before.key.value.generation ==>
      after.key.value.scheduledAt == before.key.value.scheduledAt
  }

  lemma ScheduleAdvance(s: State, id: nat)
    requires id in s.requests && s.db.key.Some? && s.db.key.value.scheduledAt.Some?
    requires s.db.key.value.generation <= s.db.generations && !s.requests[id].phase.Cancelling?
    ensures ScheduleStands(s.db, Advance(s, id).db)
  {
    if s.requests[id].phase.Started? {
      StartStands(s, id);
    } else if s.requests[id].phase.Verifying? {
      CommitStands(s, id);
    } else if s.requests[id].phase.Consuming? {
    }
  }

  lemma StartStands(s: State, id: nat)
    requires id in s.requests && s.db.key.Some? && s.requests[id].phase.Started?
    ensures ScheduleStands(s.db, Start(s, id).db)
  {
  }

  lemma CommitStands(s: State, id: nat)
    requires id in s.requests && s.requests[id].phase.Verifying? && s.db.key.Some?
    requires s.db.key.value.generation <= s.db.generations
    ensures ScheduleStands(s.db, Commit(s, id).db)
  {
  }

  /** No challenge authorises two completed requests. */
  lemma ChallengeAuthorisesOnce(legacyKeyCheck: Option<Bytes>, es: seq<Event>, a: nat, b: nat, nonce: Bytes)
    requires
      var s := Reached(legacyKeyCheck, es);
      && a in s.requests && s.requests[a].phase == Done(Authorised(nonce))
      && b in s.requests && s.requests[b].phase == Done(Authorised(nonce))
    ensures a == b
  {
    RunKeepsInv(Init(legacyKeyCheck), es);
    var s := Reached(legacyKeyCheck, es);
    assert PhaseSpent(s, a, s.requests[a].phase) && PhaseSpent(s, b, s.requests[b].phase);
  }

  /** The challenge a step accepts, if it accepts one, and the clock the request is held to. */
  function Accepts(s: State, id: nat): Option<(Bytes, int)>
    requires id in s.requests
  {
    var next := Advance(s, id);
    if s.requests[id].phase.Verifying? && id in next.requests && next.requests[id].phase.Done?
      && next.requests[id].phase.outcome.Authorised? then
      Some((next.requests[id].phase.outcome.nonce, s.requests[id].phase.claim.at))
    else if s.requests[id].phase.Consuming? && id in next.requests && next.requests[id].phase.Cancelling? then
      Some((next.requests[id].phase.nonce, s.now))
    else None
  }

  /** Only the challenge issued last can authorise anything, while unspent and unexpired for that request. */
  lemma OnlyLatestChallengeAuthorises(legacyKeyCheck: Option<Bytes>, es: seq<Event>, id: nat)
    requires id in Reached(legacyKeyCheck, es).requests && Accepts(Reached(legacyKeyCheck, es), id).Some?
    ensures
      var s, accepted := Reached(legacyKeyCheck, es), Accepts(Reached(legacyKeyCheck, es), id).value;
      && s.issued != [] && accepted.0 == s.issued[|s.issued| - 1] && accepted.0 !in s.spent
      && s.db.key.Some? && s.db.key.value.challenge.Some? && s.db.key.value.challenge.value.expiresAt > accepted.1
  {
    RunKeepsInv(Init(legacyKeyCheck), es);
  }

  /** From here on the request cannot end as refused. */
  predicate IsAccepted(phase: Phase) {
    phase.Cancelling? || (phase.Done? && !phase.outcome.Forbidden?)
  }

  /** A step of a request writes nothing, or settles it as accepted, or consumes the challenge of a cancel. */
  lemma StepWritesOrNot(s: State, id: nat)
    requires id in s.requests
    ensures
      var next := Advance(s, id);
      && id in next.requests
      && (|| next.db == s.db
          || IsAccepted(next.requests[id].phase)
          || (s.requests[id].phase.Consuming? && Matches(s.db, s.requests[id].phase.nonce, s.now)
              && next.db == s.db.(key := Some(s.db.key.value.(challenge := None)))))
  {
    match s.requests[id].phase {
      case Started =>
      case Verifying(_, _) =>
      case Consuming(_, _, _) =>
      case Uploading(_) =>
      case _ =>
    }
  }

  lemma AcceptedSteps(s: State, e: Event, id: nat)
    requires Inv(s) && id in s.requests && IsAccepted(s.requests[id].phase)
    ensures id in Apply(s, e).requests && IsAccepted(Apply(s, e).requests[id].phase)
  {
    if e.Step? && e.id in s.requests && e.id != id { AdvanceMoves(s, e.id); }
  }

  lemma {:induction false} AcceptedStays(s: State, es: seq<Event>, id: nat)
    requires Inv(s) && id in s.requests && IsAccepted(s.requests[id].phase)
    ensures id in Run(s, es).requests && IsAccepted(Run(s, es).requests[id].phase)
    decreases |es|
  {
    if es != [] {
      AcceptedSteps(s, es[0], id);
      ApplyKeepsInv(s, es[0]);
      AcceptedStays(Apply(s, es[0]), es[1..], id);
    }
  }

  /**
   * A request that ends up refused has written nothing in any of its steps, with one exception: a cancel whose
   * challenge matched has consumed it, and no more.
   */
  lemma RefusedProofChangesAtMostTheChallenge(
      legacyKeyCheck: Option<Bytes>, before: seq<Event>, id: nat, after: seq<Event>)
    requires
      var s := Reached(legacyKeyCheck, before);
      var last := Run(Apply(s, Step(id)), after);
      id in s.requests && id in last.requests && last.requests[id].phase == Done(Forbidden)
    ensures
      var s := Reached(legacyKeyCheck, before);
      var next := Apply(s, Step(id));
      || next.db == s.db
      || (s.requests[id].phase.Consuming? && Matches(s.db, s.requests[id].phase.nonce, s.now)
          && next.db == s.db.(key := Some(s.db.key.value.(challenge := None))))
  {
    RunKeepsInv(Init(legacyKeyCheck), before);
    var s := Reached(legacyKeyCheck, before);
    StepWritesOrNot(s, id);
    ApplyKeepsInv(s, Step(id));
    if IsAccepted(Apply(s, Step(id)).requests[id].phase) { AcceptedStays(Apply(s, Step(id)), after, id); }
  }

  /** What an upload reports is what it added, and what it did not add of everything sent. */
  lemma UploadReportsGrowth(legacyKeyCheck: Option<Bytes>, es: seq<Event>, id: nat)
    requires
      var s := Reached(legacyKeyCheck, es);
      && id in s.requests && (s.requests[id].phase.Uploading? || s.requests[id].phase.Inserting?)
      && Advance(s, id).requests[id].phase.Done? && Advance(s, id).requests[id].phase.outcome.Uploaded?
    ensures
      var s, next := Reached(legacyKeyCheck, es), Advance(Reached(legacyKeyCheck, es), id);
      var Uploaded(stored, skipped) := next.requests[id].phase.outcome;
      && |next.db.blobs| == |s.db.blobs| + stored
      && stored + skipped == |s.requests[id].phase.items| && skipped >= 0
  {
    RunKeepsInv(Init(legacyKeyCheck), es);
    var s := Reached(legacyKeyCheck, es);
    if s.requests[id].phase.Inserting? {
      InsertReportsGrowth(s, id);
    }
  }

  lemma InsertReportsGrowth(s: State, id: nat)
    requires id in s.requests && s.requests[id].phase.Inserting? && ReadStaysTrue(s, s.requests[id].phase)
    ensures
      var Inserting(items, added, _) := s.requests[id].phase;
      && Advance(s, id).requests[id].phase == Done(Uploaded(|added|, |items| - |added|))
      && |Advance(s, id).db.blobs| == |s.db.blobs| + |added| && |added| <= |items|
  {
    FreshAreFewer(s.db, s.requests[id].phase.items);
  }

  lemma FreshAreFewer(db: Db, items: seq<Item>)
    ensures |FreshItems(db, UniqueItems(items))| <= |items|
  {
    FewerAreFresh(UniqueItems(items), MessageIds(ItemsOf(db.blobs)));
  }

  lemma {:induction false} FewerAreFresh(items: seq<Item>, taken: set<string>)
    ensures |Without(items, taken)| <= |items|
  {
    if items != [] {
      FewerAreFresh(items[1..], taken);
    }
  }

  /** Appending one event to a run from the empty database. */
  lemma {:induction false} RunSnoc(s: State, es: seq<Event>, e: Event)
    ensures Run(s, es + [e]) == Apply(Run(s, es), e)
    decreases |es|
  {
    if es == [] {
      assert Run(s, [e]) == Run(Apply(s, e), [e][1..]);
    } else {
      assert (es + [e])[1..] == es[1..] + [e];
      RunSnoc(Apply(s, es[0]), es[1..], e);
    }
  }
}
