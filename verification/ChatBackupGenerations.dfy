/**
 * Whose request a scheduled deletion answers to. A proofless request concerns the key it found; when that key
 * is replaced before the request writes, the time it read lands on the next key.
 */
module ChatBackupGenerations {
  import opened Common
  import opened ChatBackup
  import opened ChatBackupRuns
  import opened ChatBackupRules
  import opened ChatBackupCancels

  /**
   * A run with what it forgets: when each deletion time was asked for and for which key, and the key each request
   * read.
   */
  datatype History = History(s: State, asked: set<(int, nat)>, readUnder: map<nat, nat>)

  function Note(h: History, e: Event): History {
    var next := Apply(h.s, e);
    if !IsAsking(h.s, e) then h.(s := next)
    else
      var key := h.s.db.key.value;
      History(next,
        if key.scheduledAt.None? then h.asked + {(h.s.now, key.generation)} else h.asked,
        h.readUnder[e.id := key.generation])
  }

  function Noted(h: History, es: seq<Event>): History
    decreases |es|
  {
    if es == [] then h else Noted(Note(h, es[0]), es[1..])
  }

  /** The request writes a time it read under an earlier key. */
  predicate IsStaleWrite(h: History, e: Event) {
    && e.Step? && e.id in h.s.requests && h.s.requests[e.id].phase.Scheduling?
    && h.s.db.key.Some? && h.s.db.key.value.scheduledAt.None?
    && !(e.id in h.readUnder && h.readUnder[e.id] == h.s.db.key.value.generation)
  }

  predicate NoStaleWrites(h: History, es: seq<Event>)
    decreases |es|
  {
    es != [] ==> !IsStaleWrite(h, es[0]) && NoStaleWrites(Note(h, es[0]), es[1..])
  }

  // ---------------------------------------------------------------- without stale writes a deletion is for its own key

  predicate WasAskedFor(asked: set<(int, nat)>, generation: nat, cutoff: int) {
    exists ask | ask in asked :: ask.1 == generation && ask.0 + DELETION_DELAY_MS <= cutoff
  }

  predicate ScheduleIsOwn(h: History) {
    h.s.db.key.Some? && h.s.db.key.value.scheduledAt.Some? ==>
      (h.s.db.key.value.scheduledAt.value - DELETION_DELAY_MS, h.s.db.key.value.generation) in h.asked
  }

  predicate PhaseIsOwn(h: History, id: nat)
    requires id in h.s.requests
  {
    match h.s.requests[id].phase
    case Scheduling(at) => id in h.readUnder && (at - DELETION_DELAY_MS, h.readUnder[id]) in h.asked
    case Deleting(cutoff) => h.s.db.key.Some? && WasAskedFor(h.asked, h.s.db.key.value.generation, cutoff)
    case _ => true
  }

  predicate IsOwn(h: History) {
    ScheduleIsOwn(h) && forall id | id in h.s.requests :: PhaseIsOwn(h, id)
  }

  /** What one step of a request leaves of its own and of the schedule. */
  predicate StaysOwn(h: History, id: nat) {
    id in Note(h, Step(id)).s.requests && ScheduleIsOwn(Note(h, Step(id))) && PhaseIsOwn(Note(h, Step(id)), id)
  }

  lemma StartIsOwn(h: History, id: nat)
    requires ScheduleIsOwn(h) && id in h.s.requests && h.s.requests[id].phase.Started?
    ensures StaysOwn(h, id)
  {
    if !IsAsking(h.s, Step(id)) { OtherStartsAskNothing(h.s, id); }
  }

  lemma OtherStartsAskNothing(s: State, id: nat)
    requires id in s.requests && s.requests[id].phase.Started? && !IsAsking(s, Step(id))
    ensures
      var next := Start(s, id);
      && id in next.requests && !next.requests[id].phase.Scheduling? && !next.requests[id].phase.Deleting?
      && (next.db.key.Some? ==>
            s.db.key.Some? && next.db.key.value.generation == s.db.key.value.generation
            && next.db.key.value.scheduledAt == s.db.key.value.scheduledAt)
  {
  }

  lemma DueIsOwn(h: History, cutoff: int)
    requires ScheduleIsOwn(h) && IsDue(h.s.db, cutoff)
    ensures WasAskedFor(h.asked, h.s.db.key.value.generation, cutoff)
  {
    var ask := (h.s.db.key.value.scheduledAt.value - DELETION_DELAY_MS, h.s.db.key.value.generation);
    assert ask in h.asked;
  }

  lemma ExpiringIsOwn(h: History, id: nat)
    requires ScheduleIsOwn(h) && id in h.s.requests && h.s.requests[id].phase.Expiring?
    ensures StaysOwn(h, id)
  {
    if IsDue(h.s.db, h.s.requests[id].phase.cutoff) { DueIsOwn(h, h.s.requests[id].phase.cutoff); }
  }

  lemma VerifyingIsOwn(h: History, id: nat)
    requires ScheduleIsOwn(h) && id in h.s.requests && h.s.requests[id].phase.Verifying?
    ensures StaysOwn(h, id)
  {
  }

  lemma ConsumingIsOwn(h: History, id: nat)
    requires ScheduleIsOwn(h) && id in h.s.requests && h.s.requests[id].phase.Consuming?
    ensures StaysOwn(h, id)
  {
  }

  lemma LaterStepIsOwn(h: History, id: nat)
    requires ScheduleIsOwn(h) && id in h.s.requests && PhaseIsOwn(h, id) && !h.s.requests[id].phase.Started?
    requires !IsStaleWrite(h, Step(id))
    ensures StaysOwn(h, id)
  {
    match h.s.requests[id].phase {
      case Expiring(_) => ExpiringIsOwn(h, id);
      case Verifying(_, _) => VerifyingIsOwn(h, id);
      case Consuming(_, _, _) => ConsumingIsOwn(h, id);
      case Scheduling(_) =>
      case Uploading(_) =>
      case _ =>
    }
  }

  lemma OtherStaysOwn(h: History, id: nat, other: nat)
    requires Inv(h.s) && id in h.s.requests && other in h.s.requests && other != id && PhaseIsOwn(h, other)
    ensures other in Note(h, Step(id)).s.requests && PhaseIsOwn(Note(h, Step(id)), other)
  {
    AdvanceMoves(h.s, id);
    OtherKeepsItsKey(h.s, id, other);
    var next := Note(h, Step(id));
    if h.s.requests[other].phase.Deleting? {
      var cutoff := h.s.requests[other].phase.cutoff;
      var ask :| ask in h.asked && ask.1 == h.s.db.key.value.generation && ask.0 + DELETION_DELAY_MS <= cutoff;
      assert ask in next.asked;
    }
  }

  /** While a due deletion holds the lock, nobody else's step changes which key there is. */
  lemma OtherKeepsItsKey(s: State, id: nat, other: nat)
    requires Inv(s) && id in s.requests && other in s.requests && other != id
    ensures other in Advance(s, id).requests && Advance(s, id).requests[other] == s.requests[other]
    ensures s.requests[other].phase.Deleting? && s.db.key.Some? ==>
      Advance(s, id).db.key.Some? && Advance(s, id).db.key.value.generation == s.db.key.value.generation
  {
    AdvanceMoves(s, id);
    if s.requests[other].phase.Deleting? { assert s.lock == Some(other) && !HoldsLock(s.requests[id].phase); }
  }

  lemma NoteStaysOwn(h: History, e: Event)
    requires Inv(h.s) && IsOwn(h) && !IsStaleWrite(h, e)
    ensures IsOwn(Note(h, e))
  {
    if e.Step? && e.id in h.s.requests {
      StepStaysOwn(h, e.id);
    } else {
      forall id | id in Note(h, e).s.requests ensures PhaseIsOwn(Note(h, e), id) {
        assert id in h.s.requests ==> PhaseIsOwn(h, id);
      }
    }
  }

  lemma StepStaysOwn(h: History, id: nat)
    requires Inv(h.s) && IsOwn(h) && id in h.s.requests && !IsStaleWrite(h, Step(id))
    ensures IsOwn(Note(h, Step(id)))
  {
    assert PhaseIsOwn(h, id);
    if h.s.requests[id].phase.Started? { StartIsOwn(h, id); } else { LaterStepIsOwn(h, id); }
    AdvanceMoves(h.s, id);
    forall other | other in Note(h, Step(id)).s.requests ensures PhaseIsOwn(Note(h, Step(id)), other) {
      if other != id {
        assert PhaseIsOwn(h, other);
        OtherStaysOwn(h, id, other);
      }
    }
  }

  lemma {:induction false} NotedStaysOwn(h: History, es: seq<Event>)
    requires Inv(h.s) && IsOwn(h) && NoStaleWrites(h, es)
    ensures Noted(h, es).s == Run(h.s, es) && Inv(Noted(h, es).s) && IsOwn(Noted(h, es))
    decreases |es|
  {
    if es != [] {
      NoteStaysOwn(h, es[0]);
      ApplyKeepsInv(h.s, es[0]);
      NotedStaysOwn(Note(h, es[0]), es[1..]);
    }
  }

  function Begun(legacyKeyCheck: Option<Bytes>): History { History(Init(legacyKeyCheck), {}, map[]) }

  /**
   * As long as no request writes a time it read under an earlier key, whatever destroys a backup is a current
   * proof, or a due deletion that was asked for that very key at least the full delay before.
   */
  lemma DestructionWasAskedForThisKey(legacyKeyCheck: Option<Bytes>, es: seq<Event>, e: Event)
    requires NoStaleWrites(Begun(legacyKeyCheck), es)
    requires Destroys(Reached(legacyKeyCheck, es).db, Apply(Reached(legacyKeyCheck, es), e).db)
    ensures
      var s := Reached(legacyKeyCheck, es);
      && e.Step? && s.db.key.Some?
      && (ProvenNow(s, e.id) || WasAskedFor(Noted(Begun(legacyKeyCheck), es).asked, s.db.key.value.generation, s.now))
  {
    RunKeepsInv(Init(legacyKeyCheck), []);
    NotedStaysOwn(Begun(legacyKeyCheck), es);
    var h := Noted(Begun(legacyKeyCheck), es);
    DestroyingStep(h.s, e);
    if !ProvenNow(h.s, e.id) { DeletingWasAsked(h, e.id); }
  }

  lemma DeletingWasAsked(h: History, id: nat)
    requires IsOwn(h) && CameDue(h.s, id)
    ensures h.s.db.key.Some? && WasAskedFor(h.asked, h.s.db.key.value.generation, h.s.now)
  {
    assert PhaseIsOwn(h, id);
    var ask :| ask in h.asked && ask.1 == h.s.db.key.value.generation
      && ask.0 + DELETION_DELAY_MS <= h.s.requests[id].phase.cutoff;
  }

  // ---------------------------------------------------------------- and with one it need not have been

  lemma {:induction false} NotedSnoc(h: History, es: seq<Event>, e: Event)
    ensures Noted(h, es + [e]) == Note(Noted(h, es), e)
    decreases |es|
  {
    if es == [] {
      assert Noted(h, [e]) == Noted(Note(h, e), [e][1..]);
    } else {
      assert (es + [e])[1..] == es[1..] + [e];
      NotedSnoc(Note(h, es[0]), es[1..], e);
    }
  }

  lemma ThenNote(es: seq<Event>, e: Event) returns (more: seq<Event>, h: History)
    ensures more == es + [e] && h == Noted(Begun(None), more) == Note(Noted(Begun(None), es), e)
  {
    NotedSnoc(Begun(None), es, e);
    more := es + [e];
    h := Noted(Begun(None), more);
  }

  const NEW_KEY_CHECK := "ABCDEFGHIJKLMNOP"
  const NEW_SECRET := "PONMLKJIHGFEDCBA"

  lemma KeyAtTheStart() returns (es: seq<Event>)
    ensures
      var h := Noted(Begun(None), es);
      && h.s.db == Db(Some(KeyRow(KEY_CHECK, Some(SECRET), None, None, 1)), [], 1)
      && h.s.now == 0 && h.s.lock.None? && h.s.issued == [] && h.s.requests.Keys == {0} && h.asked == {}
  {
    var h;
    es, h := ThenNote([], Arrive(0, Put(KEY_CHECK, SECRET, false, None, None)));
    es, h := ThenNote(es, Step(0));
    assert h.s.requests[0].phase == CreatingKey(KEY_CHECK, SECRET);
    es, h := ThenNote(es, Step(0));
  }

  /** A backup whose deletion was asked for at the start. */
  lemma AskedAtTheStart() returns (es: seq<Event>)
    ensures
      var h := Noted(Begun(None), es);
      && h.s.db == Db(Some(KeyRow(KEY_CHECK, Some(SECRET), None, Some(DELETION_DELAY_MS), 1)), [], 1)
      && h.s.now == 0 && h.s.lock.None? && h.s.issued == [] && h.s.requests.Keys == {0, 1} && h.asked == {(0, 1)}
  {
    var h;
    es := KeyAtTheStart();
    es, h := ThenNote(es, Arrive(1, Disable(None, None)));
    assert IsAsking(h.s, Step(1));
    es, h := ThenNote(es, Step(1));
    assert h.s.requests[1].phase == Scheduling(DELETION_DELAY_MS);
    es, h := ThenNote(es, Step(1));
  }

  /** One millisecond before it is due, it is asked for again. */
  lemma AskedAgain() returns (es: seq<Event>)
    ensures
      var h := Noted(Begun(None), es);
      && h.s.db == Db(Some(KeyRow(KEY_CHECK, Some(SECRET), None, Some(DELETION_DELAY_MS), 1)), [], 1)
      && h.s.now == DELETION_DELAY_MS - 1 && h.s.lock.None? && h.s.issued == [] && h.s.requests.Keys == {0, 1, 2}
      && h.s.requests[2].phase == Scheduling(DELETION_DELAY_MS) && h.asked == {(0, 1)}
  {
    var h;
    es := AskedAtTheStart();
    es, h := ThenNote(es, Tick(DELETION_DELAY_MS - 1));
    es, h := ThenNote(es, Arrive(2, Disable(None, None)));
    assert IsAsking(h.s, Step(2));
    es, h := ThenNote(es, Step(2));
  }

  /** Meanwhile the key is replaced, with a proof. */
  lemma ReplacedMeanwhile() returns (es: seq<Event>)
    ensures
      var h := Noted(Begun(None), es);
      && h.s.db == Db(Some(KeyRow(NEW_KEY_CHECK, Some(NEW_SECRET), None, None, 2)), [], 2)
      && h.s.now == DELETION_DELAY_MS - 1 && h.s.lock.None? && h.s.requests.Keys == {0, 1, 2, 3, 4}
      && h.s.requests[2].phase == Scheduling(DELETION_DELAY_MS) && h.asked == {(0, 1)}
  {
    var h;
    var proof := Hmac(SECRET, Replace, "nonce", NEW_KEY_CHECK, NEW_SECRET);
    es := AskedAgain();
    es, h := ThenNote(es, Arrive(3, NewChallenge("nonce")));
    es, h := ThenNote(es, Step(3));
    assert h.s.db.key.value.challenge == Some(Challenge("nonce", h.s.now + CHALLENGE_TTL_MS));
    es, h := ThenNote(es, Arrive(4, Put(NEW_KEY_CHECK, NEW_SECRET, true, Some("nonce"), Some(proof))));
    es := ReplacesNow(es, proof);
  }

  lemma ReplacesNow(before: seq<Event>, proof: Proof) returns (es: seq<Event>)
    requires
      var h := Noted(Begun(None), before);
      && h.s.db.key ==
        Some(KeyRow(KEY_CHECK, Some(SECRET), Some(Challenge("nonce", h.s.now + CHALLENGE_TTL_MS)),
          Some(DELETION_DELAY_MS), 1))
      && h.s.db.generations == 1 && h.s.lock.None? && 4 in h.s.requests
      && proof == Hmac(SECRET, Replace, "nonce", NEW_KEY_CHECK, NEW_SECRET)
      && h.s.requests[4] == Flight(Put(NEW_KEY_CHECK, NEW_SECRET, true, Some("nonce"), Some(proof)), Started)
    ensures
      var h, now := Noted(Begun(None), before), Noted(Begun(None), es);
      && now.s.db == Db(Some(KeyRow(NEW_KEY_CHECK, Some(NEW_SECRET), None, None, 2)), [], 2)
      && now.s.now == h.s.now && now.s.lock.None? && now.asked == h.asked && now.s.requests.Keys == h.s.requests.Keys
      && forall id | id in h.s.requests && id != 4 :: now.s.requests[id] == h.s.requests[id]
  {
    var h;
    es, h := ThenNote(before, Step(4));
    assert h.s.requests[4].phase == Proving(Claim(true, "nonce", proof, NEW_KEY_CHECK, NEW_SECRET, h.s.now));
    es, h := ThenNote(es, Step(4));
    assert h.s.requests[4].phase.Verifying?;
    es, h := ThenNote(es, Step(4));
  }

  /**
   * The stale request writes the old time on the new key, and the cron destroys that key one millisecond after
   * it was made, although nobody ever asked for its deletion.
   */
  lemma NewKeyExpiresForTheOldOne() returns (es: seq<Event>)
    ensures
      var h := Noted(Begun(None), es);
      && Destroys(h.s.db, Apply(h.s, Step(5)).db) && !ProvenNow(h.s, 5)
      && h.s.db.key.Some? && h.s.db.key.value.keyCheck == NEW_KEY_CHECK && h.s.now == DELETION_DELAY_MS
      && forall ask | ask in h.asked :: ask.1 != h.s.db.key.value.generation
  {
    var h;
    es := ReplacedMeanwhile();
    es, h := ThenNote(es, Step(2));
    assert h.s.db.key == Some(KeyRow(NEW_KEY_CHECK, Some(NEW_SECRET), None, Some(DELETION_DELAY_MS), 2));
    es, h := ThenNote(es, Tick(1));
    es := CronComes(es);
  }

  lemma CronComes(before: seq<Event>) returns (es: seq<Event>)
    requires
      var h := Noted(Begun(None), before);
      && h.s.db.key == Some(KeyRow(NEW_KEY_CHECK, Some(NEW_SECRET), None, Some(DELETION_DELAY_MS), 2))
      && h.s.now == DELETION_DELAY_MS && h.s.lock.None? && 5 !in h.s.requests
    ensures
      var h, now := Noted(Begun(None), before), Noted(Begun(None), es);
      && now.s.db == h.s.db && now.s.now == h.s.now && now.asked == h.asked
      && 5 in now.s.requests && now.s.requests[5].phase == Deleting(DELETION_DELAY_MS)
  {
    var h;
    es, h := ThenNote(before, Arrive(5, Cron));
    es, h := ThenNote(es, Step(5));
    assert h.s.requests[5].phase == Expiring(DELETION_DELAY_MS);
    es, h := ThenNote(es, Step(5));
  }
}
