/**
 * Exactly when a key can be destroyed for being due although nobody asked for its own deletion the full delay
 * before: what is ahead of its asking, in a state somebody can look at.
 */
module ChatBackupDeadlines {
  import opened Common
  import opened ChatBackup
  import opened ChatBackupRuns
  import opened ChatBackupRules
  import opened ChatBackupCancels
  import opened ChatBackupGenerations

  /** The key of this generation goes without a current proof, and nobody asked for that the full delay before. */
  predicate ExpiresEarly(h: History, generation: nat, es: seq<Event>, e: Event) {
    var last := Noted(h, es);
    && KeyIs(last.s, generation)
    && Destroys(last.s.db, Apply(last.s, e).db) && !(e.Step? && ProvenNow(last.s, e.id))
    && !WasAskedFor(last.asked, generation, last.s.now)
  }

  ghost predicate MayExpireEarly(h: History, generation: nat) {
    exists es: seq<Event>, e: Event :: ExpiresEarly(h, generation, es, e)
  }

  /** The same with no proofless request looking at the key any more. */
  ghost predicate MayExpireUnseen(h: History, generation: nat) {
    exists es: seq<Event>, e: Event :: NobodyLooks(h.s, es) && ExpiresEarly(h, generation, es, e)
  }

  /** A time in use, to be written or to be carried out, that this key was not asked to go by. */
  predicate PhaseIsAhead(h: History, generation: nat, phase: Phase) {
    match phase
    case Scheduling(at) => !WasAskedFor(h.asked, generation, at)
    case Deleting(cutoff) => !WasAskedFor(h.asked, generation, cutoff)
    case _ => false
  }

  predicate ScheduleIsAhead(h: History, generation: nat) {
    h.s.db.key.Some? && h.s.db.key.value.scheduledAt.Some?
    && !WasAskedFor(h.asked, generation, h.s.db.key.value.scheduledAt.value)
  }

  /** The schedule, or a request under way, is ahead of this key's asking. */
  predicate IsAhead(h: History, generation: nat) {
    || ScheduleIsAhead(h, generation)
    || exists id | id in h.s.requests :: PhaseIsAhead(h, generation, h.s.requests[id].phase)
  }

  // ---------------------------------------------------------------- nothing ahead stays nothing ahead

  lemma AskedForStays(asked: set<(int, nat)>, more: set<(int, nat)>, generation: nat, by_: int, later: int)
    requires asked <= more && by_ <= later && WasAskedFor(asked, generation, by_)
    ensures WasAskedFor(more, generation, later)
  {
    var ask :| ask in asked && ask.1 == generation && ask.0 + DELETION_DELAY_MS <= by_;
    assert ask in more;
  }

  /** A request's own step leaves neither the schedule nor itself ahead. */
  predicate LeavesNothingAhead(h: History, generation: nat, id: nat) {
    var next := Note(h, Step(id));
    && id in next.s.requests && h.asked <= next.asked
    && (KeyIs(next.s, generation) ==>
          !ScheduleIsAhead(next, generation) && !PhaseIsAhead(next, generation, next.s.requests[id].phase))
  }

  lemma StartLeavesNothingAhead(h: History, generation: nat, id: nat)
    requires id in h.s.requests && h.s.requests[id].phase.Started?
    requires KeyIs(h.s, generation) && !ScheduleIsAhead(h, generation)
    ensures LeavesNothingAhead(h, generation, id)
  {
    if IsAsking(h.s, Step(id)) {
    } else {
      OtherStartsAskNothing(h.s, id);
    }
  }

  lemma ExpiringLeavesNothingAhead(h: History, generation: nat, id: nat)
    requires id in h.s.requests && h.s.requests[id].phase.Expiring?
    requires KeyIs(h.s, generation) && !ScheduleIsAhead(h, generation)
    ensures LeavesNothingAhead(h, generation, id)
  {
    var cutoff := h.s.requests[id].phase.cutoff;
    if IsDue(h.s.db, cutoff) {
      AskedForStays(h.asked, h.asked, generation, h.s.db.key.value.scheduledAt.value, cutoff);
    }
  }

  lemma VerifyingLeavesNothingAhead(h: History, generation: nat, id: nat)
    requires id in h.s.requests && h.s.requests[id].phase.Verifying? && SoundBackup(h.s.db)
    requires KeyIs(h.s, generation) && !ScheduleIsAhead(h, generation)
    ensures LeavesNothingAhead(h, generation, id)
  {
  }

  lemma ConsumingLeavesNothingAhead(h: History, generation: nat, id: nat)
    requires id in h.s.requests && h.s.requests[id].phase.Consuming?
    requires KeyIs(h.s, generation) && !ScheduleIsAhead(h, generation)
    ensures LeavesNothingAhead(h, generation, id)
  {
  }

  lemma RestLeavesNothingAhead(h: History, generation: nat, id: nat)
    requires id in h.s.requests && !h.s.requests[id].phase.Started? && SoundBackup(h.s.db)
    requires KeyIs(h.s, generation) && !ScheduleIsAhead(h, generation)
    requires !PhaseIsAhead(h, generation, h.s.requests[id].phase)
    ensures LeavesNothingAhead(h, generation, id)
  {
    match h.s.requests[id].phase {
      case Expiring(_) => ExpiringLeavesNothingAhead(h, generation, id);
      case Verifying(_, _) => VerifyingLeavesNothingAhead(h, generation, id);
      case Consuming(_, _, _) => ConsumingLeavesNothingAhead(h, generation, id);
      case Uploading(_) =>
      case _ =>
    }
  }

  lemma StepLeavesNothingAhead(h: History, generation: nat, id: nat)
    requires Inv(h.s) && id in h.s.requests && KeyIs(h.s, generation) && !IsAhead(h, generation)
    requires KeyIs(Note(h, Step(id)).s, generation)
    ensures !IsAhead(Note(h, Step(id)), generation)
  {
    if h.s.requests[id].phase.Started? {
      StartLeavesNothingAhead(h, generation, id);
    } else {
      RestLeavesNothingAhead(h, generation, id);
    }
    AdvanceMoves(h.s, id);
    var next := Note(h, Step(id));
    forall other | other in next.s.requests ensures !PhaseIsAhead(next, generation, next.s.requests[other].phase) {
    }
  }

  lemma NothingComesAhead(h: History, generation: nat, e: Event)
    requires Inv(h.s) && KeyIs(h.s, generation) && !IsAhead(h, generation) && KeyIs(Note(h, e).s, generation)
    ensures !IsAhead(Note(h, e), generation)
  {
    if e.Step? && e.id in h.s.requests { StepLeavesNothingAhead(h, generation, e.id); }
  }

  // ---------------------------------------------------------------- a key that is gone never comes back

  predicate IsGone(s: State, generation: nat) {
    generation <= s.db.generations && !KeyIs(s, generation)
  }

  lemma GoneStays(s: State, e: Event, generation: nat)
    requires IsGone(s, generation)
    ensures IsGone(Apply(s, e), generation)
  {
  }

  lemma {:induction false} GoneForGood(h: History, es: seq<Event>, generation: nat)
    requires IsGone(h.s, generation)
    ensures IsGone(Noted(h, es).s, generation)
    decreases |es|
  {
    if es != [] {
      GoneStays(h.s, es[0], generation);
      GoneForGood(Note(h, es[0]), es[1..], generation);
    }
  }

  /** Either the key was asked to go by now, or nothing is ahead of its asking. */
  predicate IsInTime(h: History, generation: nat) {
    WasAskedFor(h.asked, generation, h.s.now) || !IsAhead(h, generation)
  }

  lemma InTimeStays(h: History, generation: nat, e: Event)
    requires Inv(h.s) && KeyIs(h.s, generation) && IsInTime(h, generation) && KeyIs(Note(h, e).s, generation)
    ensures IsInTime(Note(h, e), generation)
  {
    if !IsAhead(h, generation) {
      NothingComesAhead(h, generation, e);
    } else {
      NothingIsForgotten(h, e);
      AskedForStays(h.asked, Note(h, e).asked, generation, h.s.now, Note(h, e).s.now);
    }
  }

  lemma NothingIsForgotten(h: History, e: Event)
    requires LockIsExclusive(h.s)
    ensures h.asked <= Note(h, e).asked && h.s.now <= Note(h, e).s.now
  {
    if e.Step? && e.id in h.s.requests { AdvanceMoves(h.s, e.id); }
  }

  lemma {:induction false} InTimeRuns(h: History, generation: nat, es: seq<Event>)
    requires Inv(h.s) && KeyIs(h.s, generation) && IsInTime(h, generation) && KeyIs(Noted(h, es).s, generation)
    ensures Inv(Noted(h, es).s) && IsInTime(Noted(h, es), generation)
    decreases |es|
  {
    if es != [] {
      var next := Note(h, es[0]);
      ApplyKeepsInv(h.s, es[0]);
      if KeyIs(next.s, generation) {
        InTimeStays(h, generation, es[0]);
        InTimeRuns(next, generation, es[1..]);
      } else {
        GenerationsGrow(h.s, es[0]);
        GoneForGood(next, es[1..], generation);
      }
    }
  }

  lemma GenerationsGrow(s: State, e: Event)
    requires LockIsExclusive(s)
    ensures s.db.generations <= Apply(s, e).db.generations
  {
    if e.Step? && e.id in s.requests && !HoldsLock(s.requests[e.id].phase) { AdvanceMoves(s, e.id); }
  }

  lemma InTimeNeverExpiresEarly(h: History, generation: nat, es: seq<Event>, e: Event)
    requires Inv(h.s) && KeyIs(h.s, generation) && IsInTime(h, generation)
    ensures !ExpiresEarly(h, generation, es, e)
  {
    if ExpiresEarly(h, generation, es, e) {
      InTimeRuns(h, generation, es);
      var last := Noted(h, es);
      DestroyingStep(last.s, e);
      assert CameDue(last.s, e.id) && !PhaseIsAhead(last, generation, last.s.requests[e.id].phase);
      AskedForStays(last.asked, last.asked, generation, last.s.requests[e.id].phase.cutoff, last.s.now);
    }
  }

  // ---------------------------------------------------------------- and what is ahead can be carried out

  lemma {:induction false} NobodyLookedNothingNoted(h: History, es: seq<Event>)
    requires NobodyLooks(h.s, es)
    ensures Noted(h, es).s == Run(h.s, es) && Noted(h, es).asked == h.asked
    decreases |es|
  {
    if es != [] { NobodyLookedNothingNoted(Note(h, es[0]), es[1..]); }
  }

  lemma ExpiresEarlyThen(h: History, generation: nat, time: int)
    requires KeyIs(h.s, generation) && MayExpireAt(h.s, time) && !WasAskedFor(h.asked, generation, time)
    ensures MayExpireUnseen(h, generation)
  {
    var es, e :| ExpiresAt(h.s, time, es, e);
    NobodyLookedNothingNoted(h, es);
    assert NobodyLooks(h.s, es) && ExpiresEarly(h, generation, es, e);
  }

  /** The owner cancels what is scheduled. */
  lemma ScheduleIsCancelled(s: State) returns (after: State)
    requires Inv(s) && IsScheduled(s) && s.db.key.value.secret.Some?
    ensures Inv(after) && after.now == s.now && KeyIs(after, s.db.key.value.generation) && !IsScheduled(after)
    ensures forall id | id in s.requests :: id in after.requests && after.requests[id] == s.requests[id]
    ensures forall time :: MayExpireAt(after, time) ==> MayExpireAt(s, time)
  {
    var nonce := FreshNonce(s.issued, "");
    var issued := ChallengeIsIssued(s, nonce);
    after := ProofArrives(issued, nonce);
  }

  lemma ProofArrives(s: State, nonce: Bytes) returns (after: State)
    requires Inv(s) && s.db.key.Some? && s.db.key.value.secret.Some? && Matches(s.db, nonce, s.now)
    ensures Inv(after) && after.now == s.now && KeyIs(after, s.db.key.value.generation) && !IsScheduled(after)
    ensures forall id | id in s.requests :: id in after.requests && after.requests[id] == s.requests[id]
    ensures forall time :: MayExpireAt(after, time) ==> MayExpireAt(s, time)
  {
    var n := Above(s.requests.Keys);
    var proof := Expected(s.db.key.value.secret.value, CancelDelete, nonce, "", "");
    var arrive := Arrive(n, Cancel(Some(nonce), Some(proof)));
    var s1 := Apply(s, arrive);
    var s2 := Apply(s1, Step(n));
    ApplyKeepsInv(s, arrive);
    ApplyKeepsInv(s1, Step(n));
    after := CancelIsProven(s2, n);
    forall time | MayExpireAt(after, time) ensures MayExpireAt(s, time) {
      OneBeforeThen(s1, Step(n), time);
      OneBeforeThen(s, arrive, time);
    }
  }

  lemma CancelIsProven(s: State, id: nat) returns (after: State)
    requires Inv(s) && s.db.key.Some? && id in s.requests && s.requests[id].phase.Consuming?
    requires Matches(s.db, s.requests[id].phase.nonce, s.now)
    requires
      var Consuming(nonce, proof, secret) := s.requests[id].phase;
      proof == Expected(secret, CancelDelete, nonce, "", "")
    ensures Inv(after) && after.now == s.now && KeyIs(after, s.db.key.value.generation) && !IsScheduled(after)
    ensures forall other | other in s.requests && other != id ::
      other in after.requests && after.requests[other] == s.requests[other]
    ensures forall time :: MayExpireAt(after, time) ==> MayExpireAt(s, time)
  {
    var consumed := Apply(s, Step(id));
    assert consumed.requests[id].phase.Cancelling?;
    after := Apply(consumed, Step(id));
    ApplyKeepsInv(s, Step(id));
    ApplyKeepsInv(consumed, Step(id));
    forall time | MayExpireAt(after, time) ensures MayExpireAt(s, time) {
      OneBeforeThen(consumed, Step(id), time);
      OneBeforeThen(s, Step(id), time);
    }
  }

  /** A time that is about to be written is written and carried out, after a cancel if one stands in its way. */
  lemma WrittenExpires(s: State, id: nat)
    requires Inv(s) && s.db.key.Some? && id in s.requests && s.requests[id].phase.Scheduling?
    requires IsScheduled(s) ==> s.db.key.value.secret.Some?
    ensures exists time :: MayExpireAt(s, time) && (time == s.now || time == s.requests[id].phase.at)
  {
    if IsScheduled(s) {
      var cancelled := ScheduleIsCancelled(s);
      WritesAndExpires(cancelled, id);
    } else {
      WritesAndExpires(s, id);
    }
  }

  lemma WritesAndExpires(s: State, id: nat)
    requires Inv(s) && s.db.key.Some? && !IsScheduled(s) && id in s.requests && s.requests[id].phase.Scheduling?
    ensures exists time :: MayExpireAt(s, time) && (time == s.now || time == s.requests[id].phase.at)
  {
    var written := Apply(s, Step(id));
    ApplyKeepsInv(s, Step(id));
    ScheduleExpires(written);
    var time := if MayExpireAt(written, s.now) then s.now else DueTime(written);
    OneBeforeThen(s, Step(id), time);
  }

  // ---------------------------------------------------------------- exactly

  /** A key without a secret is the first one; no time read under another key can meet it. */
  predicate FirstKeyIsInTime(h: History) {
    h.s.db.key.Some? && h.s.db.key.value.secret.None? ==> !IsAhead(h, h.s.db.key.value.generation)
  }

  predicate IsOnlyTheOldKey(before: Db, after: Db) {
    after.key.Some? && after.key.value.secret.None? ==>
      && before.key.Some? && before.key.value.secret.None?
      && before.key.value.generation == after.key.value.generation
  }

  lemma NewKeysHaveSecrets(s: State, id: nat)
    requires LockIsExclusive(s) && id in s.requests
    ensures IsOnlyTheOldKey(s.db, Advance(s, id).db)
  {
    match s.requests[id].phase {
      case Started =>
      case Verifying(_, _) =>
      case Consuming(_, _, _) =>
      case Uploading(_) =>
      case _ =>
    }
  }

  lemma {:induction false} FirstKeyRuns(h: History, es: seq<Event>)
    requires Inv(h.s) && FirstKeyIsInTime(h)
    ensures Inv(Noted(h, es).s) && FirstKeyIsInTime(Noted(h, es))
    decreases |es|
  {
    if es != [] {
      var next := Note(h, es[0]);
      ApplyKeepsInv(h.s, es[0]);
      if next.s.db.key.Some? && next.s.db.key.value.secret.None? {
        if es[0].Step? && es[0].id in h.s.requests { NewKeysHaveSecrets(h.s, es[0].id); }
        NothingComesAhead(h, next.s.db.key.value.generation, es[0]);
      }
      FirstKeyRuns(next, es[1..]);
    }
  }

  lemma HistoryIsSound(legacyKeyCheck: Option<Bytes>, es: seq<Event>)
    ensures
      var h := Noted(Begun(legacyKeyCheck), es);
      Inv(h.s) && FirstKeyIsInTime(h)
  {
    RunKeepsInv(Init(legacyKeyCheck), []);
    FirstKeyRuns(Begun(legacyKeyCheck), es);
  }

  lemma AheadExpires(h: History, generation: nat)
    requires Inv(h.s) && FirstKeyIsInTime(h) && KeyIs(h.s, generation) && !IsInTime(h, generation)
    ensures MayExpireUnseen(h, generation)
  {
    var time;
    if ScheduleIsAhead(h, generation) {
      ScheduleExpires(h.s);
      time := if MayExpireAt(h.s, h.s.now) then h.s.now else DueTime(h.s);
    } else {
      var id :| id in h.s.requests && PhaseIsAhead(h, generation, h.s.requests[id].phase);
      if h.s.requests[id].phase.Deleting? {
        DeletingExpires(h.s, id);
        time := h.s.now;
      } else {
        WrittenExpires(h.s, id);
        time :| MayExpireAt(h.s, time) && (time == h.s.now || time == h.s.requests[id].phase.at);
      }
    }
    ExpiresEarlyThen(h, generation, time);
  }

  /**
   * In every run, some continuation destroys the key there is without a current proof, and without its own
   * deletion having been asked for the full delay before, exactly when it was not asked for that long ago yet
   * and a schedule, a write under way or a due deletion is ahead of its asking.
   */
  lemma ExpiresEarlyExactly(legacyKeyCheck: Option<Bytes>, es: seq<Event>)
    requires Noted(Begun(legacyKeyCheck), es).s.db.key.Some?
    ensures
      var h := Noted(Begun(legacyKeyCheck), es);
      var generation := h.s.db.key.value.generation;
      MayExpireEarly(h, generation) <==> !WasAskedFor(h.asked, generation, h.s.now) && IsAhead(h, generation)
  {
    HistoryIsSound(legacyKeyCheck, es);
    var h := Noted(Begun(legacyKeyCheck), es);
    var generation := h.s.db.key.value.generation;
    if IsInTime(h, generation) {
      forall more: seq<Event>, e: Event ensures !ExpiresEarly(h, generation, more, e) {
        InTimeNeverExpiresEarly(h, generation, more, e);
      }
    } else {
      AheadExpires(h, generation);
    }
  }

  // ---------------------------------------------------------------- a key nobody asked to delete

  predicate NeverAsked(h: History, generation: nat) {
    forall ask | ask in h.asked :: ask.1 != generation
  }

  predicate IsScheduling(s: State) {
    exists id | id in s.requests :: s.requests[id].phase.Scheduling?
  }

  predicate IsDeleting(s: State) {
    exists id | id in s.requests :: s.requests[id].phase.Deleting?
  }

  /**
   * So a key nobody ever asked to delete can expire, with nobody asking from then on either, exactly while
   * something is scheduled, about to be, or being deleted. When all that stands was asked for this key, what is
   * left is a proofless request about to write a time it read under an earlier one.
   */
  lemma NeverAskedKeyExpiresExactly(legacyKeyCheck: Option<Bytes>, es: seq<Event>)
    requires
      var h := Noted(Begun(legacyKeyCheck), es);
      h.s.db.key.Some? && NeverAsked(h, h.s.db.key.value.generation)
    ensures
      var h := Noted(Begun(legacyKeyCheck), es);
      && (MayExpireUnseen(h, h.s.db.key.value.generation) <==>
          IsScheduled(h.s) || IsScheduling(h.s) || IsDeleting(h.s))
      && (IsOwn(h) ==> !IsScheduled(h.s) && !IsDeleting(h.s))
  {
    HistoryIsSound(legacyKeyCheck, es);
    var h := Noted(Begun(legacyKeyCheck), es);
    var generation := h.s.db.key.value.generation;
    if IsAhead(h, generation) {
      AheadExpires(h, generation);
    } else {
      forall more: seq<Event>, e: Event ensures !ExpiresEarly(h, generation, more, e) {
        InTimeNeverExpiresEarly(h, generation, more, e);
      }
    }
    if IsOwn(h) { OwnKeyIsUnscheduled(h, generation); }
  }

  lemma OwnKeyIsUnscheduled(h: History, generation: nat)
    requires KeyIs(h.s, generation) && NeverAsked(h, generation) && IsOwn(h)
    ensures !IsScheduled(h.s) && !IsDeleting(h.s)
  {
    forall id | id in h.s.requests ensures !h.s.requests[id].phase.Deleting? {
      assert PhaseIsOwn(h, id);
    }
  }
}
