/** Cancelling a scheduled deletion of a backup: when it stays cancelled, and when it does not. */
module ChatBackupCancels {
  import opened Common
  import opened ChatBackup
  import opened ChatBackupRuns
  import opened ChatBackupRules

  /** A proofless delete request that has not written its schedule yet. */
  predicate AsksForDeletion(flight: Flight) {
    flight.phase.Scheduling? || (flight.phase.Started? && flight.request == Disable(None, None))
  }

  /** Nothing is scheduled, about to be scheduled, or already being deleted for being due. */
  predicate NoExpiryAhead(s: State) {
    && (s.db.key.Some? ==> s.db.key.value.scheduledAt.None?)
    && (forall id | id in s.requests :: !AsksForDeletion(s.requests[id]) && !s.requests[id].phase.Deleting?)
  }

  predicate QuietAfter(next: State, id: nat) {
    && id in next.requests && !AsksForDeletion(next.requests[id]) && !next.requests[id].phase.Deleting?
    && (next.db.key.Some? ==> next.db.key.value.scheduledAt.None?)
  }

  lemma AdvanceKeepsNoExpiry(s: State, id: nat)
    requires id in s.requests && !AsksForDeletion(s.requests[id]) && !s.requests[id].phase.Deleting?
    requires s.db.key.Some? ==> s.db.key.value.scheduledAt.None?
    ensures QuietAfter(Advance(s, id), id)
  {
    if s.requests[id].phase.Started? {
    } else {
      RestKeepsNoExpiry(s, id);
    }
  }

  lemma RestKeepsNoExpiry(s: State, id: nat)
    requires id in s.requests && !s.requests[id].phase.Started? && !AsksForDeletion(s.requests[id])
    requires !s.requests[id].phase.Deleting?
    requires s.db.key.Some? ==> s.db.key.value.scheduledAt.None?
    ensures QuietAfter(Advance(s, id), id)
  {
    match s.requests[id].phase {
      case Verifying(_, _) =>
      case Consuming(_, _, _) =>
      case Uploading(_) =>
      case Expiring(_) =>
      case _ =>
    }
  }

  lemma StepKeepsNoExpiry(s: State, e: Event)
    requires Inv(s) && NoExpiryAhead(s) && !(e.Arrive? && e.request == Disable(None, None))
    ensures NoExpiryAhead(Apply(s, e))
  {
    if e.Step? && e.id in s.requests {
      AdvanceMoves(s, e.id);
      AdvanceKeepsNoExpiry(s, e.id);
    }
  }

  /**
   * Once a deletion is cancelled, and no proofless request or due deletion was already under way, the
   * backup never expires until someone asks again: from then on only a current proof destroys it.
   */
  lemma {:induction false} CancelledDeletionStaysCancelled(s: State, es: seq<Event>, e: Event)
    requires Inv(s) && NoExpiryAhead(s)
    requires forall k | 0 <= k < |es| :: !(es[k].Arrive? && es[k].request == Disable(None, None))
    ensures NoExpiryAhead(Run(s, es))
    ensures Destroys(Run(s, es).db, Apply(Run(s, es), e).db) ==> e.Step? && ProvenNow(Run(s, es), e.id)
    decreases |es|
  {
    if es == [] {
      if Destroys(s.db, Apply(s, e).db) { DestroyingStep(s, e); }
    } else {
      StepKeepsNoExpiry(s, es[0]);
      ApplyKeepsInv(s, es[0]);
      CancelledDeletionStaysCancelled(Apply(s, es[0]), es[1..], e);
    }
  }

  // ---------------------------------------------------------------- and when it does not

  predicate Asks(e: Event) { e.Arrive? && e.request == Disable(None, None) }

  /**
   * Nobody asks for a deletion anew, and yet, after `es`, the event `e` destroys the backup without a current
   * proof.
   */
  predicate ExpiresUnasked(s: State, es: seq<Event>, e: Event) {
    && (forall k | 0 <= k < |es| :: !Asks(es[k]))
    && Destroys(Run(s, es).db, Apply(Run(s, es), e).db)
    && !(e.Step? && ProvenNow(Run(s, es), e.id))
  }

  ghost predicate MayExpireUnasked(s: State) {
    exists es: seq<Event>, e: Event :: ExpiresUnasked(s, es, e)
  }

  lemma OneBefore(s: State, first: Event)
    requires !Asks(first) && MayExpireUnasked(Apply(s, first))
    ensures MayExpireUnasked(s)
  {
    var es, e :| ExpiresUnasked(Apply(s, first), es, e);
    assert ([first] + es)[1..] == es;
    assert ExpiresUnasked(s, [first] + es, e);
  }

  lemma {:induction false} Above(ids: set<nat>) returns (n: nat)
    ensures forall id | id in ids :: id < n
    decreases |ids|
  {
    if ids == {} {
      n := 0;
    } else {
      var some :| some in ids;
      var rest := Above(ids - {some});
      n := if some < rest then rest else some + 1;
      assert forall id | id in ids :: id == some || id in ids - {some};
    }
  }

  lemma {:induction false} FreshNonce(issued: seq<Bytes>, other: Bytes) returns (nonce: Bytes)
    ensures nonce !in issued && nonce != other
    ensures |nonce| > |other| && forall n | n in issued :: |nonce| > |n|
  {
    if issued == [] {
      nonce := other + "+";
    } else {
      nonce := FreshNonce(issued[1..], other);
      if |nonce| <= |issued[0]| { nonce := issued[0] + "+"; }
    }
  }

  /** A proofless request is about to look at the key. */
  predicate IsAsking(s: State, e: Event) {
    e.Step? && e.id in s.requests && s.requests[e.id] == Flight(Disable(None, None), Started) && s.db.key.Some?
  }

  predicate NobodyLooks(s: State, es: seq<Event>)
    decreases |es|
  {
    es != [] ==> !IsAsking(s, es[0]) && NobodyLooks(Apply(s, es[0]), es[1..])
  }

  predicate KeyIs(s: State, generation: nat) {
    s.db.key.Some? && s.db.key.value.generation == generation
  }

  /** The key that is there now expires at this very time, and no proofless request looks at it until then. */
  predicate ExpiresAt(s: State, time: int, es: seq<Event>, e: Event) {
    && s.db.key.Some? && KeyIs(Run(s, es), s.db.key.value.generation) && Run(s, es).now == time
    && NobodyLooks(s, es) && ExpiresUnasked(s, es, e)
  }

  ghost predicate MayExpireAt(s: State, time: int) {
    exists es: seq<Event>, e: Event :: ExpiresAt(s, time, es, e)
  }

  lemma AtSomeTime(s: State, time: int)
    requires MayExpireAt(s, time)
    ensures MayExpireUnasked(s)
  {
    var es, e :| ExpiresAt(s, time, es, e);
    assert ExpiresUnasked(s, es, e);
  }

  predicate LeavesKey(s: State, e: Event) {
    s.db.key.Some? && KeyIs(Apply(s, e), s.db.key.value.generation) && !Asks(e) && !IsAsking(s, e)
  }

  lemma OneBeforeThen(s: State, first: Event, time: int)
    requires LeavesKey(s, first) && MayExpireAt(Apply(s, first), time)
    ensures MayExpireAt(s, time)
  {
    var es, e :| ExpiresAt(Apply(s, first), time, es, e);
    assert ([first] + es)[1..] == es;
    assert ExpiresAt(s, time, [first] + es, e);
  }

  lemma DeletingExpires(s: State, id: nat)
    requires Inv(s) && id in s.requests && s.requests[id].phase.Deleting?
    ensures MayExpireAt(s, s.now)
  {
    assert s.lock == Some(id);
    assert ReadStaysTrue(s, s.requests[id].phase);
    assert Run(s, []) == s;
    assert ExpiresAt(s, s.now, [], Step(id));
  }

  lemma ExpiringExpires(s: State, id: nat)
    requires Inv(s) && s.lock.None? && id in s.requests && s.requests[id].phase.Expiring?
    requires IsDue(s.db, s.requests[id].phase.cutoff)
    ensures MayExpireAt(s, s.now)
  {
    ApplyKeepsInv(s, Step(id));
    DeletingExpires(Apply(s, Step(id)), id);
    OneBeforeThen(s, Step(id), s.now);
  }

  predicate IsScheduled(s: State) {
    s.db.key.Some? && s.db.key.value.scheduledAt.Some?
  }

  /** When a schedule comes due. */
  function DueTime(s: State): (time: int)
    requires IsScheduled(s)
    ensures time >= s.now && IsDue(s.db, time)
  {
    if s.db.key.value.scheduledAt.value > s.now then s.db.key.value.scheduledAt.value else s.now
  }

  /** The next deletion run carries out what is due. */
  lemma DueExpires(s: State)
    requires Inv(s) && IsDue(s.db, s.now) && s.lock.None?
    ensures MayExpireAt(s, s.now)
  {
    var n := Above(s.requests.Keys);
    var s1 := Apply(s, Arrive(n, Cron));
    var s2 := Apply(s1, Step(n));
    ApplyKeepsInv(s, Arrive(n, Cron));
    ApplyKeepsInv(s1, Step(n));
    ExpiringExpires(s2, n);
    OneBeforeThen(s1, Step(n), s.now);
    OneBeforeThen(s, Arrive(n, Cron), s.now);
  }

  lemma WaitedIsDue(s: State)
    requires IsScheduled(s)
    ensures
      var wait := Tick(DueTime(s) - s.now);
      var waited := Apply(s, wait);
      && LeavesKey(s, wait) && waited == s.(now := DueTime(s)) && IsDue(waited.db, waited.now)
  {
  }

  /** A schedule that stands comes due. */
  lemma FreeScheduleExpires(s: State)
    requires Inv(s) && IsScheduled(s) && s.lock.None?
    ensures MayExpireAt(s, DueTime(s))
  {
    var wait := Tick(DueTime(s) - s.now);
    WaitedIsDue(s);
    ApplyKeepsInv(s, wait);
    DueExpires(s.(now := DueTime(s)));
    OneBeforeThen(s, wait, DueTime(s));
  }

  /** Whoever inserts blobs leaves the schedule alone. */
  lemma InsertingReleases(s: State, holder: nat)
    requires Inv(s) && IsScheduled(s) && s.lock == Some(holder) && holder in s.requests
    requires s.requests[holder].phase.Inserting?
    ensures MayExpireAt(s, DueTime(s))
  {
    ApplyKeepsInv(s, Step(holder));
    FreeScheduleExpires(Apply(s, Step(holder)));
    OneBeforeThen(s, Step(holder), DueTime(s));
  }

  /** Somebody asks for a challenge. */
  lemma ChallengeIsIssued(s: State, nonce: Bytes) returns (after: State)
    requires Inv(s) && s.db.key.Some? && nonce !in s.issued
    ensures Inv(after) && after.db == IssueChallenge(s.db, nonce, s.now + CHALLENGE_TTL_MS)
    ensures after.now == s.now && after.lock == s.lock
    ensures forall id | id in s.requests :: id in after.requests && after.requests[id] == s.requests[id]
    ensures forall time :: MayExpireAt(after, time) ==> MayExpireAt(s, time)
  {
    var n := Above(s.requests.Keys);
    var ask := Arrive(n, NewChallenge(nonce));
    var asked := Apply(s, ask);
    after := Apply(asked, Step(n));
    ApplyKeepsInv(s, ask);
    ApplyKeepsInv(asked, Step(n));
    forall time | MayExpireAt(after, time) ensures MayExpireAt(s, time) {
      OneBeforeThen(asked, Step(n), time);
      OneBeforeThen(s, ask, time);
    }
  }

  /** A proof being checked is refused when a new challenge takes the place of its own. */
  lemma VerifyingReleases(s: State, holder: nat)
    requires Inv(s) && IsScheduled(s) && s.lock == Some(holder) && holder in s.requests
    requires s.requests[holder].phase.Verifying?
    ensures MayExpireAt(s, DueTime(s))
  {
    var nonce := FreshNonce(s.issued, s.requests[holder].phase.claim.nonce);
    var replaced := ChallengeIsIssued(s, nonce);
    ApplyKeepsInv(replaced, Step(holder));
    FreeScheduleExpires(Apply(replaced, Step(holder)));
    OneBeforeThen(replaced, Step(holder), DueTime(s));
  }

  lemma ScheduleExpires(s: State)
    requires Inv(s) && IsScheduled(s)
    ensures MayExpireAt(s, s.now) || MayExpireAt(s, DueTime(s))
    ensures MayExpireUnasked(s)
  {
    if s.lock.None? {
      FreeScheduleExpires(s);
    } else {
      var holder := s.lock.value;
      if s.requests[holder].phase.Deleting? {
        DeletingExpires(s, holder);
      } else if s.requests[holder].phase.Inserting? {
        InsertingReleases(s, holder);
      } else {
        VerifyingReleases(s, holder);
      }
    }
    AtSomeTime(s, if MayExpireAt(s, s.now) then s.now else DueTime(s));
  }

  /** Somebody turns backup on, where there is none. */
  lemma KeyIsCreated(s: State, n: nat) returns (after: State)
    requires Inv(s) && s.db.key.None? && n !in s.requests
    ensures Inv(after) && after.db.key.Some?
    ensures forall id | id in s.requests :: id in after.requests && after.requests[id] == s.requests[id]
    ensures MayExpireUnasked(after) ==> MayExpireUnasked(s)
  {
    var put := Arrive(n, Put(KEY_CHECK, SECRET, false, None, None));
    var s1 := Apply(s, put);
    var s2 := Apply(s1, Step(n));
    after := Apply(s2, Step(n));
    assert s2.requests[n].phase == CreatingKey(KEY_CHECK, SECRET);
    ApplyKeepsInv(s, put);
    ApplyKeepsInv(s1, Step(n));
    ApplyKeepsInv(s2, Step(n));
    if MayExpireUnasked(after) {
      OneBefore(s2, Step(n));
      OneBefore(s1, Step(n));
      OneBefore(s, put);
    }
  }

  /** A request that is about to write a time it read writes it back, on this key or on the next one. */
  lemma SchedulingExpires(s: State, id: nat)
    requires Inv(s) && id in s.requests && s.requests[id].phase.Scheduling?
    ensures MayExpireUnasked(s)
  {
    if s.db.key.None? {
      var n := Above(s.requests.Keys);
      var after := KeyIsCreated(s, n);
      SchedulingWrites(after, id);
    } else {
      SchedulingWrites(s, id);
    }
  }

  lemma SchedulingWrites(s: State, id: nat)
    requires Inv(s) && id in s.requests && s.requests[id].phase.Scheduling? && s.db.key.Some?
    ensures MayExpireUnasked(s)
  {
    ApplyKeepsInv(s, Step(id));
    ScheduleExpires(Apply(s, Step(id)));
    OneBefore(s, Step(id));
  }

  /** So does one that has only arrived. */
  lemma ArrivedExpires(s: State, id: nat)
    requires Inv(s) && id in s.requests && s.requests[id] == Flight(Disable(None, None), Started)
    ensures MayExpireUnasked(s)
  {
    if s.db.key.None? {
      var n := Above(s.requests.Keys);
      var after := KeyIsCreated(s, n);
      ArrivedReads(after, id);
    } else {
      ArrivedReads(s, id);
    }
  }

  lemma ArrivedReads(s: State, id: nat)
    requires Inv(s) && id in s.requests && s.requests[id] == Flight(Disable(None, None), Started) && s.db.key.Some?
    ensures MayExpireUnasked(s)
  {
    ApplyKeepsInv(s, Step(id));
    SchedulingExpires(Apply(s, Step(id)), id);
    OneBefore(s, Step(id));
  }

  /**
   * A backup that nobody asks to delete any more can still expire exactly while a deletion is scheduled, a
   * proofless request is under way, or a due deletion has begun: each of the three is enough by itself.
   */
  lemma ExpiryNeedsNoNewRequestExactly(s: State)
    requires Inv(s)
    ensures MayExpireUnasked(s) <==> !NoExpiryAhead(s)
  {
    if NoExpiryAhead(s) {
      forall es: seq<Event>, e: Event | forall k | 0 <= k < |es| :: !Asks(es[k]) ensures !ExpiresUnasked(s, es, e) {
        CancelledDeletionStaysCancelled(s, es, e);
      }
    } else if IsScheduled(s) {
      ScheduleExpires(s);
    } else {
      var id :| id in s.requests && (AsksForDeletion(s.requests[id]) || s.requests[id].phase.Deleting?);
      if s.requests[id].phase.Deleting? {
        DeletingExpires(s, id);
        AtSomeTime(s, s.now);
      } else if s.requests[id].phase.Scheduling? {
        SchedulingExpires(s, id);
      } else {
        ArrivedExpires(s, id);
      }
    }
  }

  /**
   * So a cancel is undone, with nobody asking again, exactly when at the moment it clears the schedule
   * another proofless request is under way or a due deletion has begun.
   */
  lemma CancelMayBeUndone(legacyKeyCheck: Option<Bytes>, es: seq<Event>, canceller: nat)
    requires
      var s := Reached(legacyKeyCheck, es);
      canceller in s.requests && s.requests[canceller].phase.Cancelling?
    ensures
      var s := Reached(legacyKeyCheck, es);
      MayExpireUnasked(Apply(s, Step(canceller))) <==>
        exists id | id in s.requests && id != canceller ::
          AsksForDeletion(s.requests[id]) || s.requests[id].phase.Deleting?
  {
    RunKeepsInv(Init(legacyKeyCheck), es);
    var s := Reached(legacyKeyCheck, es);
    ApplyKeepsInv(s, Step(canceller));
    ExpiryNeedsNoNewRequestExactly(Apply(s, Step(canceller)));
    CancelClearsTheSchedule(s, canceller);
  }

  lemma CancelClearsTheSchedule(s: State, canceller: nat)
    requires canceller in s.requests && s.requests[canceller].phase.Cancelling?
    ensures NoExpiryAhead(Apply(s, Step(canceller))) <==>
      forall id | id in s.requests && id != canceller ::
        !AsksForDeletion(s.requests[id]) && !s.requests[id].phase.Deleting?
  {
    var after := Apply(s, Step(canceller));
    assert after.db == CancelSchedule(s.db);
    assert forall id | id in s.requests && id != canceller :: after.requests[id] == s.requests[id];
  }

  // ---------------------------------------------------------------- and both happen

  lemma Then(es: seq<Event>, e: Event) returns (more: seq<Event>, s: State)
    ensures more == es + [e] && s == Reached(None, more) == Apply(Reached(None, es), e)
  {
    RunSnoc(Init(None), es, e);
    more := es + [e];
    s := Reached(None, more);
  }

  const KEY_CHECK := "0123456789abcdef"
  const SECRET := "fedcba9876543210"

  lemma ScheduledBackup() returns (es: seq<Event>)
    ensures
      var s := Reached(None, es);
      && s.db.key == Some(KeyRow(KEY_CHECK, Some(SECRET), None, Some(DELETION_DELAY_MS), 1))
      && s.now == 0 && s.lock.None? && s.issued == [] && s.requests.Keys == {0, 1}
  {
    var s;
    es, s := Then([], Arrive(0, Put(KEY_CHECK, SECRET, false, None, None)));
    es, s := Then(es, Step(0));
    assert s.requests[0].phase == CreatingKey(KEY_CHECK, SECRET);
    es, s := Then(es, Step(0));
    assert s.db.key == Some(KeyRow(KEY_CHECK, Some(SECRET), None, None, 1));
    es, s := Then(es, Arrive(1, Disable(None, None)));
    es, s := Then(es, Step(1));
    assert s.requests[1].phase == Scheduling(DELETION_DELAY_MS);
    es, s := Then(es, Step(1));
  }

  /** A run that ends with a cancel, a stale proofless request and a due deletion all about to write. */
  lemma CancelRacesHappen() returns (es: seq<Event>)
    ensures
      var s := Reached(None, es);
      && s.requests.Keys >= {2, 3, 5} && s.db.key.Some?
      && s.requests[2].phase.Scheduling? && s.requests[3].phase.Deleting? && s.requests[5].phase.Cancelling?
  {
    es := ScheduledBackup();
    var s := Reached(None, es);
    es, s := Then(es, Arrive(2, Disable(None, None)));
    es, s := Then(es, Step(2));
    assert s.requests[2].phase == Scheduling(DELETION_DELAY_MS);
    es := ExpiryComesDue(es);
    es := CancelArrives(es);
  }

  lemma ExpiryComesDue(before: seq<Event>) returns (es: seq<Event>)
    requires
      var s := Reached(None, before);
      && s.db.key == Some(KeyRow(KEY_CHECK, Some(SECRET), None, Some(DELETION_DELAY_MS), 1))
      && s.now == 0 && s.lock.None? && 3 !in s.requests
    ensures
      var s, now := Reached(None, before), Reached(None, es);
      && now.db.key == s.db.key && now.issued == s.issued
      && now.requests.Keys == s.requests.Keys + {3} && now.requests[3].phase.Deleting?
      && forall id | id in s.requests :: now.requests[id] == s.requests[id]
  {
    var s;
    es, s := Then(before, Tick(DELETION_DELAY_MS));
    es, s := Then(es, Arrive(3, Cron));
    es, s := Then(es, Step(3));
    assert s.requests[3].phase == Expiring(DELETION_DELAY_MS);
    es, s := Then(es, Step(3));
  }

  lemma CancelArrives(before: seq<Event>) returns (es: seq<Event>)
    requires
      var s := Reached(None, before);
      && s.issued == [] && 4 !in s.requests && 5 !in s.requests
      && s.db.key.Some? && s.db.key.value.secret == Some(SECRET)
    ensures
      var s, now := Reached(None, before), Reached(None, es);
      && now.db.key.Some? && 5 in now.requests && now.requests[5].phase.Cancelling?
      && forall id | id in s.requests :: id in now.requests && now.requests[id] == s.requests[id]
  {
    var s;
    var proof := Hmac(SECRET, CancelDelete, "nonce", "", "");
    es, s := Then(before, Arrive(4, NewChallenge("nonce")));
    es, s := Then(es, Step(4));
    assert s.db.key.value.challenge == Some(Challenge("nonce", s.now + CHALLENGE_TTL_MS));
    es, s := Then(es, Arrive(5, Cancel(Some("nonce"), Some(proof))));
    es, s := Then(es, Step(5));
    assert s.requests[5].phase == Consuming("nonce", proof, SECRET);
    es, s := Then(es, Step(5));
    assert s.requests[5].phase == Cancelling("nonce");
  }
}
