/**
 * Whose schedule a cancel clears. It spends a challenge of the key there is, and clears the schedule in a later
 * statement; a key put in that key's place in between has its own schedule cleared.
 */
module ChatBackupClearings {
  import opened Common
  import opened ChatBackup
  import opened ChatBackupRuns
  import opened ChatBackupRules
  import opened ChatBackupCancels
  import opened ChatBackupDeadlines

  /** A run with the key whose challenge each cancel spent. */
  datatype Ledger = Ledger(s: State, spentUnder: map<nat, nat>)

  /** The step spends the key's challenge for a cancel whose proof is right. */
  predicate IsSpending(s: State, e: Event) {
    && e.Step? && e.id in s.requests && s.requests[e.id].phase.Consuming? && s.db.key.Some?
    && e.id in Advance(s, e.id).requests && Advance(s, e.id).requests[e.id].phase.Cancelling?
  }

  function Record(l: Ledger, e: Event): Ledger {
    Ledger(Apply(l.s, e),
      if IsSpending(l.s, e) then l.spentUnder[e.id := l.s.db.key.value.generation] else l.spentUnder)
  }

  function Recorded(l: Ledger, es: seq<Event>): Ledger
    decreases |es|
  {
    if es == [] then l else Recorded(Record(l, es[0]), es[1..])
  }

  function Opened(legacyKeyCheck: Option<Bytes>): Ledger { Ledger(Init(legacyKeyCheck), map[]) }

  predicate SpentFor(l: Ledger, id: nat, generation: nat) {
    id in l.spentUnder && l.spentUnder[id] == generation
  }

  /** After `es`, the event clears this key's schedule, and not for a challenge of this key. */
  predicate ClearsForAnother(l: Ledger, generation: nat, es: seq<Event>, e: Event) {
    var last := Recorded(l, es);
    && KeyIs(last.s, generation) && IsScheduled(last.s)
    && KeyIs(Apply(last.s, e), generation) && !IsScheduled(Apply(last.s, e))
    && !(e.Step? && SpentFor(last, e.id, generation))
  }

  ghost predicate MayBeClearedForAnother(l: Ledger, generation: nat) {
    exists es: seq<Event>, e: Event :: ClearsForAnother(l, generation, es, e)
  }

  /** A cancel that spent another key's challenge is about to clear whatever schedule there is. */
  predicate StrayCancel(l: Ledger, generation: nat) {
    exists id | id in l.s.requests :: l.s.requests[id].phase.Cancelling? && !SpentFor(l, id, generation)
  }

  // ---------------------------------------------------------------- while the key stays, no cancel goes astray

  lemma StepsToCancelling(s: State, id: nat)
    requires id in s.requests && !s.requests[id].phase.Cancelling? && LockIsExclusive(s)
    requires s.db.key.Some? && id in Advance(s, id).requests && Advance(s, id).requests[id].phase.Cancelling?
    ensures IsSpending(s, Step(id))
  {
    if s.requests[id].phase.Started? { StartCancelsNothing(s, id); }
  }

  lemma StartCancelsNothing(s: State, id: nat)
    requires id in s.requests && s.requests[id].phase.Started?
    ensures id in Start(s, id).requests && !Start(s, id).requests[id].phase.Cancelling?
  {
  }

  lemma NoneGoesAstray(l: Ledger, generation: nat, e: Event)
    requires Inv(l.s) && KeyIs(l.s, generation) && !StrayCancel(l, generation)
    ensures !StrayCancel(Record(l, e), generation)
  {
    var next := Record(l, e);
    if e.Step? && e.id in l.s.requests { AdvanceMoves(l.s, e.id); }
    forall id | id in next.s.requests && next.s.requests[id].phase.Cancelling? ensures SpentFor(next, id, generation) {
      if e.Step? && e.id == id && !l.s.requests[id].phase.Cancelling? { StepsToCancelling(l.s, id); }
    }
  }

  lemma {:induction false} GoneFromLedger(l: Ledger, es: seq<Event>, generation: nat)
    requires IsGone(l.s, generation)
    ensures IsGone(Recorded(l, es).s, generation)
    decreases |es|
  {
    if es != [] {
      GoneStays(l.s, es[0], generation);
      GoneFromLedger(Record(l, es[0]), es[1..], generation);
    }
  }

  lemma {:induction false} NoneGoesAstrayLater(l: Ledger, generation: nat, es: seq<Event>)
    requires Inv(l.s) && KeyIs(l.s, generation) && !StrayCancel(l, generation)
    requires KeyIs(Recorded(l, es).s, generation)
    ensures Inv(Recorded(l, es).s) && !StrayCancel(Recorded(l, es), generation)
    decreases |es|
  {
    if es != [] {
      var next := Record(l, es[0]);
      ApplyKeepsInv(l.s, es[0]);
      NoneGoesAstray(l, generation, es[0]);
      if KeyIs(next.s, generation) {
        NoneGoesAstrayLater(next, generation, es[1..]);
      } else {
        GenerationsGrow(l.s, es[0]);
        GoneFromLedger(next, es[1..], generation);
      }
    }
  }

  // ---------------------------------------------------------------- and a stray one clears what is there

  lemma OneBeforeClearing(l: Ledger, generation: nat, first: Event)
    requires MayBeClearedForAnother(Record(l, first), generation)
    ensures MayBeClearedForAnother(l, generation)
  {
    var es, e :| ClearsForAnother(Record(l, first), generation, es, e);
    assert ([first] + es)[1..] == es;
    assert ClearsForAnother(l, generation, [first] + es, e);
  }

  lemma StrayCancelClears(l: Ledger, generation: nat, id: nat)
    requires KeyIs(l.s, generation) && IsScheduled(l.s) && id in l.s.requests
    requires l.s.requests[id].phase.Cancelling? && !SpentFor(l, id, generation)
    ensures MayBeClearedForAnother(l, generation)
  {
    assert ClearsForAnother(l, generation, [], Step(id));
  }

  /** With nothing scheduled, somebody asks for a deletion first. */
  lemma StrayCancelMeetsASchedule(l: Ledger, generation: nat, id: nat)
    requires KeyIs(l.s, generation) && !IsScheduled(l.s) && id in l.s.requests
    requires l.s.requests[id].phase.Cancelling? && !SpentFor(l, id, generation)
    ensures MayBeClearedForAnother(l, generation)
  {
    var n := Above(l.s.requests.Keys);
    var l1 := Record(l, Arrive(n, Disable(None, None)));
    var l2 := Record(l1, Step(n));
    var l3 := Record(l2, Step(n));
    assert l2.s.requests[n].phase == Scheduling(l.s.now + DELETION_DELAY_MS);
    StrayCancelClears(l3, generation, id);
    OneBeforeClearing(l2, generation, Step(n));
    OneBeforeClearing(l1, generation, Step(n));
    OneBeforeClearing(l, generation, Arrive(n, Disable(None, None)));
  }

  lemma {:induction false} RecordedIsRun(l: Ledger, es: seq<Event>)
    requires Inv(l.s)
    ensures Recorded(l, es).s == Run(l.s, es) && Inv(Recorded(l, es).s)
    decreases |es|
  {
    if es != [] {
      ApplyKeepsInv(l.s, es[0]);
      RecordedIsRun(Record(l, es[0]), es[1..]);
    }
  }

  /**
   * In every run, the schedule of the key there is can still be cleared, now or later, by something else than a
   * cancel that spent this key's own challenge, exactly while a cancel that spent another's is under way.
   */
  lemma ClearedForAnotherExactly(legacyKeyCheck: Option<Bytes>, es: seq<Event>)
    requires Recorded(Opened(legacyKeyCheck), es).s.db.key.Some?
    ensures
      var l := Recorded(Opened(legacyKeyCheck), es);
      MayBeClearedForAnother(l, l.s.db.key.value.generation) <==> StrayCancel(l, l.s.db.key.value.generation)
  {
    RunKeepsInv(Init(legacyKeyCheck), []);
    RecordedIsRun(Opened(legacyKeyCheck), es);
    var l := Recorded(Opened(legacyKeyCheck), es);
    var generation := l.s.db.key.value.generation;
    if StrayCancel(l, generation) {
      var id :| id in l.s.requests && l.s.requests[id].phase.Cancelling? && !SpentFor(l, id, generation);
      if IsScheduled(l.s) {
        StrayCancelClears(l, generation, id);
      } else {
        StrayCancelMeetsASchedule(l, generation, id);
      }
    } else {
      forall more: seq<Event>, e: Event ensures !ClearsForAnother(l, generation, more, e) {
        OwnCancelsClear(l, generation, more, e);
      }
    }
  }

  lemma OwnCancelsClear(l: Ledger, generation: nat, es: seq<Event>, e: Event)
    requires Inv(l.s) && KeyIs(l.s, generation) && !StrayCancel(l, generation)
    ensures !ClearsForAnother(l, generation, es, e)
  {
    if ClearsForAnother(l, generation, es, e) {
      NoneGoesAstrayLater(l, generation, es);
      ScheduleStep(Recorded(l, es).s, e);
    }
  }

  // ---------------------------------------------------------------- and such a run

  lemma {:induction false} RecordedSnoc(l: Ledger, es: seq<Event>, e: Event)
    ensures Recorded(l, es + [e]) == Record(Recorded(l, es), e)
    decreases |es|
  {
    if es == [] {
      assert Recorded(l, [e]) == Recorded(Record(l, e), [e][1..]);
    } else {
      assert (es + [e])[1..] == es[1..] + [e];
      RecordedSnoc(Record(l, es[0]), es[1..], e);
    }
  }

  lemma ThenRecord(es: seq<Event>, e: Event) returns (more: seq<Event>, l: Ledger)
    ensures more == es + [e] && l == Recorded(Opened(None), more) == Record(Recorded(Opened(None), es), e)
  {
    RecordedSnoc(Opened(None), es, e);
    more := es + [e];
    l := Recorded(Opened(None), more);
  }

  const NEXT_KEY_CHECK := "ABCDEFGHIJKLMNOP"
  const NEXT_SECRET := "PONMLKJIHGFEDCBA"

  lemma KeyAndChallenge() returns (es: seq<Event>)
    ensures
      var l := Recorded(Opened(None), es);
      && l.s.db == Db(Some(KeyRow(KEY_CHECK, Some(SECRET), Some(Challenge("one", CHALLENGE_TTL_MS)), None, 1)), [], 1)
      && l.s.now == 0 && l.s.lock.None? && l.s.issued == ["one"] && l.s.requests.Keys == {0, 1}
      && l.spentUnder == map[]
  {
    var l;
    es, l := ThenRecord([], Arrive(0, Put(KEY_CHECK, SECRET, false, None, None)));
    es, l := ThenRecord(es, Step(0));
    assert l.s.requests[0].phase == CreatingKey(KEY_CHECK, SECRET);
    es, l := ThenRecord(es, Step(0));
    es, l := ThenRecord(es, Arrive(1, NewChallenge("one")));
    es, l := ThenRecord(es, Step(1));
  }

  /** The owner's cancel has spent its challenge and has yet to clear the schedule. */
  lemma CancelIsSpent() returns (es: seq<Event>)
    ensures
      var l := Recorded(Opened(None), es);
      && l.s.db == Db(Some(KeyRow(KEY_CHECK, Some(SECRET), None, None, 1)), [], 1)
      && l.s.now == 0 && l.s.lock.None? && l.s.issued == ["one"] && l.s.requests.Keys == {0, 1, 2}
      && l.s.requests[2].phase == Cancelling("one") && l.spentUnder == map[2 := 1]
  {
    var l;
    var proof := Hmac(SECRET, CancelDelete, "one", "", "");
    es := KeyAndChallenge();
    es, l := ThenRecord(es, Arrive(2, Cancel(Some("one"), Some(proof))));
    es, l := ThenRecord(es, Step(2));
    assert l.s.requests[2].phase == Consuming("one", proof, SECRET);
    assert Matches(l.s.db, "one", l.s.now);
    es, l := ThenRecord(es, Step(2));
    assert l.s.requests[2].phase == Cancelling("one");
  }

  /** Meanwhile the key is replaced. */
  lemma ReplacedBefore() returns (es: seq<Event>)
    ensures
      var l := Recorded(Opened(None), es);
      && l.s.db == Db(Some(KeyRow(NEXT_KEY_CHECK, Some(NEXT_SECRET), None, None, 2)), [], 2)
      && l.s.requests.Keys == {0, 1, 2, 3, 4} && l.s.requests[2].phase == Cancelling("one")
      && l.spentUnder == map[2 := 1]
  {
    var l;
    var proof := Hmac(SECRET, Replace, "two", NEXT_KEY_CHECK, NEXT_SECRET);
    es := CancelIsSpent();
    es, l := ThenRecord(es, Arrive(3, NewChallenge("two")));
    assert "two" !in l.s.issued by { assert "two"[0] != "one"[0]; }
    es, l := ThenRecord(es, Step(3));
    assert l.s.db.key.value.challenge == Some(Challenge("two", CHALLENGE_TTL_MS));
    es, l := ThenRecord(es, Arrive(4, Put(NEXT_KEY_CHECK, NEXT_SECRET, true, Some("two"), Some(proof))));
    es := ReplacesNext(es, proof);
  }

  lemma ReplacesNext(before: seq<Event>, proof: Proof) returns (es: seq<Event>)
    requires
      var l := Recorded(Opened(None), before);
      && l.s.db == Db(Some(KeyRow(KEY_CHECK, Some(SECRET), Some(Challenge("two", CHALLENGE_TTL_MS)), None, 1)), [], 1)
      && l.s.lock.None? && l.s.now == 0 && 4 in l.s.requests
      && proof == Hmac(SECRET, Replace, "two", NEXT_KEY_CHECK, NEXT_SECRET)
      && l.s.requests[4] == Flight(Put(NEXT_KEY_CHECK, NEXT_SECRET, true, Some("two"), Some(proof)), Started)
    ensures
      var l, now := Recorded(Opened(None), before), Recorded(Opened(None), es);
      && now.s.db == Db(Some(KeyRow(NEXT_KEY_CHECK, Some(NEXT_SECRET), None, None, 2)), [], 2)
      && now.s.requests.Keys == l.s.requests.Keys && now.spentUnder == l.spentUnder
      && forall id | id in l.s.requests && id != 4 :: now.s.requests[id] == l.s.requests[id]
  {
    var l;
    es, l := ThenRecord(before, Step(4));
    assert l.s.requests[4].phase == Proving(Claim(true, "two", proof, NEXT_KEY_CHECK, NEXT_SECRET, 0));
    es, l := ThenRecord(es, Step(4));
    assert l.s.requests[4].phase.Verifying?;
    es, l := ThenRecord(es, Step(4));
  }

  /** A deletion of the new key is asked for, and the cancel made for the old one clears it. */
  lemma OldCancelClearsNewSchedule() returns (es: seq<Event>)
    ensures ClearsForAnother(Opened(None), 2, es, Step(2))
  {
    var l;
    es := ReplacedBefore();
    es, l := ThenRecord(es, Arrive(5, Disable(None, None)));
    es, l := ThenRecord(es, Step(5));
    assert l.s.requests[5].phase.Scheduling?;
    es, l := ThenRecord(es, Step(5));
  }
}
