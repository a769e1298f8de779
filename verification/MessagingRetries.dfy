/**
 * Retries and copies of one request: when a message that is already stored is the answer, and the one race
 * in which a copy of it is refused instead.
 */
module MessagingRetries {
  import opened Common
  import opened Recipients
  import opened Messaging
  import opened MessagingRuns
  import opened MessagingRules

  /** The request's message is there, under a client id of its own. */
  predicate HasAnswer(s: State, id: nat, messageId: nat) {
    id in s.flights && IsAnswerTo(s.store, s.flights[id].request, messageId) && ClientIdOf(s.flights[id].request).Some?
  }

  function CountSteps(es: seq<Event>, id: nat): nat {
    if es == [] then 0 else (if es[0].Step? && es[0].id == id then 1 else 0) + CountSteps(es[1..], id)
  }

  /** What a direct request's own step finds to be wrong with its recipient. */
  function Stop(s: State, e: Event, id: nat): Option<Problem> {
    if e.Step? && e.id == id && id in s.flights && s.flights[id].request.Direct?
    then WhyNotReach(s, s.flights[id].request, e.around)
    else None
  }

  /** At some step of its own this was wrong with the recipient. */
  ghost predicate StoppedBy(s: State, es: seq<Event>, id: nat, problem: Problem)
    decreases |es|
  {
    es != [] && (Stop(s, es[0], id) == Some(problem) || StoppedBy(Apply(s, es[0]), es[1..], id, problem))
  }

  /** At every step of its own the recipient is there and not blocked by the sender. */
  ghost predicate OwnStepsPass(s: State, es: seq<Event>, id: nat)
    decreases |es|
  {
    es != [] ==> Stop(s, es[0], id).None? && OwnStepsPass(Apply(s, es[0]), es[1..], id)
  }

  /** What is left of a countdown after so many steps. */
  function After(left: nat, steps: nat): nat { if left <= steps then 0 else left - steps }

  lemma FirstAndRest(es: seq<Event>, id: nat)
    requires es != []
    ensures CountSteps(es, id) == CountSteps([es[0]], id) + CountSteps(es[1..], id)
    ensures CountSteps([es[0]], id) == if es[0].Step? && es[0].id == id then 1 else 0
  {
    assert [es[0]][1..] == [];
  }

  // ---------------------------------------------------------------- the stored message is the only one

  lemma OnlyMessage(store: Store, request: Request, messageId: nat, other: nat)
    requires ClientIdsAreUnique(store) && IsAnswerTo(store, request, messageId) && ClientIdOf(request).Some?
    requires other in store.messages && IsFor(store.messages[other], request.senderId, ClientIdOf(request))
    ensures other == messageId
  {
    assert IsFor(store.messages[other], store.messages[messageId].senderId, store.messages[messageId].clientMessageId);
  }

  lemma FindsTheOne(store: Store, request: Request, messageId: nat)
    requires ClientIdsAreUnique(store) && IsAnswerTo(store, request, messageId) && ClientIdOf(request).Some?
    ensures FindBySenderClientMessageId(store, request.senderId, ClientIdOf(request)) == Some(messageId)
  {
    assert IsFor(store.messages[messageId], request.senderId, ClientIdOf(request));
    var found := FindBySenderClientMessageId(store, request.senderId, ClientIdOf(request));
    assert found.Some?;
    OnlyMessage(store, request, messageId, found.value);
  }

  lemma AnswerIsKept(s: State, e: Event, id: nat, messageId: nat)
    requires Inv(s) && HasAnswer(s, id, messageId)
    ensures HasAnswer(Apply(s, e), id, messageId)
  {
    ApplyIsSound(s, e);
    RequestStaysOnce(s, e, id);
  }

  // ---------------------------------------------------------------- retries

  /** How many of its own steps a retry may still need. */
  function StepsLeft(phase: Phase): nat {
    match phase
    case LookingForPair(pair, message) => 1 + (if pair.None? then 1 else 0) + (if message.None? then 1 else 0)
    case Looking(_, message, rows) => 1 + (if rows.None? then 1 else 0) + (if message.None? then 1 else 0)
    case LookingForEdit => 1
    case _ => 0
  }

  /** A request that has found, or will find, the message it already stored earlier. */
  predicate IsRetrying(s: State, id: nat, messageId: nat) {
    && HasAnswer(s, id, messageId)
    && match s.flights[id].phase
       case LookingForPair(pair, message) =>
         s.flights[id].request.Direct? && pair != Some(None) && (message == None || message == Some(Some(messageId)))
       case Looking(_, message, rows) =>
         s.flights[id].request.SendTo? && (message == None || message == Some(Some(messageId)))
       case LookingForEdit => s.flights[id].request.Edit?
       case Done(Answered(answer, duplicate)) => answer == messageId && duplicate
       case Done(Refused(problem)) => s.flights[id].request.Direct? && (problem.NotFound? || problem.Forbidden?)
       case _ => false
  }

  predicate IsRefused(phase: Phase) {
    phase.Done? && phase.outcome.Refused?
  }

  /** These events use the retry up, and refuse it only for what was wrong with its recipient. */
  ghost predicate RetryGoesOn(s: State, es: seq<Event>, id: nat, now: State)
    requires id in s.flights && id in now.flights
  {
    && StepsLeft(now.flights[id].phase) <= After(StepsLeft(s.flights[id].phase), CountSteps(es, id))
    && (IsRefused(now.flights[id].phase) ==>
        now.flights[id].phase == s.flights[id].phase || StoppedBy(s, es, id, now.flights[id].phase.outcome.problem))
  }

  lemma RetrySteps(s: State, id: nat, around: Surroundings, messageId: nat)
    requires IsRetrying(s, id, messageId)
    requires FindBySenderClientMessageId(s.store, s.flights[id].request.senderId, ClientIdOf(s.flights[id].request)) ==
      Some(messageId)
    requires s.flights[id].phase.LookingForPair? ==> PhaseIsSound(s.store, s.flights[id].request, s.flights[id].phase)
    requires s.flights[id].phase.Looking? ==> PhaseIsSound(s.store, s.flights[id].request, s.flights[id].phase)
    ensures IsRetrying(Advance(s, id, around), id, messageId)
    ensures StepsLeft(Advance(s, id, around).flights[id].phase) <= StepsLeft(s.flights[id].phase) - 1
      || s.flights[id].phase.Done?
    ensures s.flights[id].phase.Done? ==> Advance(s, id, around) == s
    ensures IsRefused(Advance(s, id, around).flights[id].phase) && !s.flights[id].phase.Done? ==>
      Stop(s, Step(id, around), id) == Some(Advance(s, id, around).flights[id].phase.outcome.problem)
  {
    match s.flights[id].phase {
      case LookingForPair(_, _) =>
      case Looking(_, _, _) =>
      case LookingForEdit =>
      case Done(_) =>
    }
  }

  lemma RetryApplies(s: State, e: Event, id: nat, messageId: nat)
    requires Inv(s) && IsRetrying(s, id, messageId)
    ensures IsRetrying(Apply(s, e), id, messageId)
    ensures RetryGoesOn(s, [e], id, Apply(s, e))
  {
    assert CountSteps([e], id) == if e.Step? && e.id == id then 1 else 0;
    if e.Step? && e.id == id {
      FindsTheOne(s.store, s.flights[id].request, messageId);
      RetrySteps(s, id, e.around, messageId);
    } else {
      OthersLeaveFlight(s, e, id);
      AnswerIsKept(s, e, id, messageId);
    }
  }

  lemma RetryGoesOnAndOn(s: State, es: seq<Event>, id: nat, last: State)
    requires es != [] && id in s.flights && id in Apply(s, es[0]).flights && id in last.flights
    requires RetryGoesOn(s, [es[0]], id, Apply(s, es[0])) && RetryGoesOn(Apply(s, es[0]), es[1..], id, last)
    ensures RetryGoesOn(s, es, id, last)
  {
    FirstAndRest(es, id);
    assert [es[0]][1..] == [];
    forall problem | StoppedBy(s, [es[0]], id, problem) ensures StoppedBy(s, es, id, problem) {
      assert !StoppedBy(Apply(s, es[0]), [], id, problem);
    }
  }

  lemma {:induction false} RetryRuns(s: State, es: seq<Event>, id: nat, messageId: nat)
    requires Inv(s) && IsRetrying(s, id, messageId)
    ensures IsRetrying(Run(s, es), id, messageId)
    ensures RetryGoesOn(s, es, id, Run(s, es))
    decreases |es|
  {
    if es != [] {
      ApplyIsSound(s, es[0]);
      RetryApplies(s, es[0], id, messageId);
      RetryRuns(Apply(s, es[0]), es[1..], id, messageId);
      RetryGoesOnAndOn(s, es, id, Run(s, es));
    }
  }

  /**
   * A request repeated after its message was stored is told about that message, whatever else happens
   * meanwhile - even if its sender has left by then - and needs at most three steps of its own. Only a direct
   * one can be refused instead: as "not found" if at some step of its own the recipient was no active user, as
   * "forbidden" if at some step of its own the sender had the recipient blocked.
   */
  lemma RetryIsAnsweredTheSame(before: seq<Event>, id: nat, request: Request, after: seq<Event>, messageId: nat)
    requires
      var s := Run(Nothing, before);
      && id !in s.flights && IsCleanRequest(request) && ClientIdOf(request).Some?
      && IsAnswerTo(s.store, request, messageId)
      && (request.Direct? ==> request.senderId != request.recipientId)
    requires CountSteps(after, id) >= 3
    ensures
      var begun := Apply(Run(Nothing, before), Arrive(id, request));
      var flights := Run(begun, after).flights;
      && id in flights
      && (flights[id].phase == Done(Answered(messageId, true)) || IsStopped(begun, after, id, flights[id].phase))
  {
    ReachableIsSound(before);
    var s := Run(Nothing, before);
    ApplyIsSound(s, Arrive(id, request));
    RetryArrives(s, id, request, messageId);
    RetryFinishes(Apply(s, Arrive(id, request)), after, id, messageId);
  }

  /** A direct request was refused, for what one of its own steps found to be wrong with its recipient. */
  ghost predicate IsStopped(s: State, es: seq<Event>, id: nat, phase: Phase) {
    && id in s.flights && s.flights[id].request.Direct? && IsRefused(phase)
    && (phase.outcome.problem.NotFound? || phase.outcome.problem.Forbidden?)
    && StoppedBy(s, es, id, phase.outcome.problem)
  }

  lemma RetryArrives(s: State, id: nat, request: Request, messageId: nat)
    requires id !in s.flights && IsCleanRequest(request) && ClientIdOf(request).Some?
    requires IsAnswerTo(s.store, request, messageId)
    requires request.Direct? ==> request.senderId != request.recipientId
    ensures
      var begun := Apply(s, Arrive(id, request));
      && IsRetrying(begun, id, messageId) && begun.flights[id].request == request
      && StepsLeft(begun.flights[id].phase) <= 3 && !IsRefused(begun.flights[id].phase)
  {
  }

  lemma RetryFinishes(s: State, es: seq<Event>, id: nat, messageId: nat)
    requires Inv(s) && IsRetrying(s, id, messageId) && !IsRefused(s.flights[id].phase)
    requires StepsLeft(s.flights[id].phase) <= CountSteps(es, id)
    ensures
      var after := Run(s, es).flights;
      id in after && (after[id].phase == Done(Answered(messageId, true)) || IsStopped(s, es, id, after[id].phase))
  {
    RetryRuns(s, es, id, messageId);
    RequestStays(s, es, id);
  }

  // ---------------------------------------------------------------- copies that race: exactly which one is refused

  /** It found no pair, and then the message; the next step calls the two a conflict. */
  predicate IsAboutToConflict(phase: Phase, messageId: nat) {
    phase == LookingForPair(Some(None), Some(Some(messageId)))
  }

  const CONFLICT := Done(Refused(Conflict))

  lemma LookingForPairConflicts(s: State, id: nat, around: Surroundings, messageId: nat)
    requires HasAnswer(s, id, messageId) && s.flights[id].request.Direct? && s.flights[id].phase.LookingForPair?
    requires ClientIdsAreUnique(s.store) && PhaseIsSound(s.store, s.flights[id].request, s.flights[id].phase)
    ensures LookForPair(s, id, around).flights[id].phase == CONFLICT <==>
      IsAboutToConflict(s.flights[id].phase, messageId) && WhyNotReach(s, s.flights[id].request, around).None?
  {
    var message := s.flights[id].phase.message;
    if message.Some? && message.value.Some? {
      OnlyMessage(s.store, s.flights[id].request, messageId, message.value.value);
    }
  }

  lemma LookingNeverConflicts(s: State, id: nat, around: Surroundings, messageId: nat)
    requires HasAnswer(s, id, messageId) && HasDraft(s.flights[id].request) && s.flights[id].phase.Looking?
    requires ClientIdsAreUnique(s.store) && PhaseIsSound(s.store, s.flights[id].request, s.flights[id].phase)
    ensures Look(s, id, around).flights[id].phase != CONFLICT
  {
    var message := s.flights[id].phase.message;
    if message.Some? && message.value.Some? {
      OnlyMessage(s.store, s.flights[id].request, messageId, message.value.value);
    }
  }

  /** The message that holds the client id is where the request wants it, so it is nowhere else. */
  lemma NotTakenElsewhere(store: Store, request: Request, messageId: nat)
    requires request.Direct? && IsAnswerTo(store, request, messageId) && ClientIdOf(request).Some?
    requires ClientIdsAreUnique(store) && PairsMatch(store)
    ensures !IsTakenElsewhere(store, request)
  {
    forall other | other in store.messages
      && IsFor(store.messages[other], request.senderId, request.draft.clientMessageId)
      ensures !IsHeldElsewhere(store, request, store.messages[other])
    {
      OnlyMessage(store, request, messageId, other);
    }
  }

  lemma RecoveringNeverConflicts(s: State, id: nat, messageId: nat)
    requires HasAnswer(s, id, messageId) && HasDraft(s.flights[id].request) && s.flights[id].phase.Recovering?
    requires ClientIdsAreUnique(s.store) && PairsMatch(s.store)
    requires PhaseIsSound(s.store, s.flights[id].request, s.flights[id].phase)
    ensures Recover(s, id).flights[id].phase != CONFLICT
  {
    FindsTheOne(s.store, s.flights[id].request, messageId);
    if s.flights[id].request.Direct? { NotTakenElsewhere(s.store, s.flights[id].request, messageId); }
  }

  lemma EditNeverConflicts(s: State, id: nat, around: Surroundings, messageId: nat)
    requires HasAnswer(s, id, messageId) && s.flights[id].request.Edit? && !s.flights[id].phase.Done?
    requires ClientIdsAreUnique(s.store) && PhaseIsSound(s.store, s.flights[id].request, s.flights[id].phase)
    ensures id in AdvanceEdit(s, id, around).flights && AdvanceEdit(s, id, around).flights[id].phase != CONFLICT
  {
    FindsTheOne(s.store, s.flights[id].request, messageId);
    match s.flights[id].phase {
      case LookingForEdit =>
      case CheckingEdit =>
      case CommittingEdit =>
      case RecoveringEdit =>
    }
  }

  lemma OtherPhasesNeverConflict(s: State, id: nat, around: Surroundings, messageId: nat)
    requires HasAnswer(s, id, messageId) && HasDraft(s.flights[id].request)
    requires !s.flights[id].phase.Looking? && !s.flights[id].phase.LookingForPair? && !s.flights[id].phase.Recovering?
    requires !s.flights[id].phase.Done?
    ensures Advance(s, id, around).flights[id].phase != CONFLICT
  {
    match s.flights[id].phase {
      case Creating(_, _) =>
      case PairTaken =>
      case ClientIdTaken =>
      case Resolving(_, _) =>
      case Committing(_, _, _, _) =>
      case _ =>
    }
  }

  lemma ConflictsOnlyThere(s: State, id: nat, around: Surroundings, messageId: nat)
    requires HasAnswer(s, id, messageId) && HasDraft(s.flights[id].request) && !s.flights[id].phase.Done?
    requires ClientIdsAreUnique(s.store) && PairsMatch(s.store)
    requires PhaseIsSound(s.store, s.flights[id].request, s.flights[id].phase)
    ensures
      id in Advance(s, id, around).flights && (Advance(s, id, around).flights[id].phase == CONFLICT <==>
        s.flights[id].request.Direct? && IsAboutToConflict(s.flights[id].phase, messageId)
        && WhyNotReach(s, s.flights[id].request, around).None?)
  {
    var phase := s.flights[id].phase;
    if phase.LookingForPair? {
      LookingForPairConflicts(s, id, around, messageId);
    } else if phase.Looking? {
      LookingNeverConflicts(s, id, around, messageId);
    } else if phase.Recovering? {
      RecoveringNeverConflicts(s, id, messageId);
    } else {
      OtherPhasesNeverConflict(s, id, around, messageId);
    }
  }

  /** With its message stored, a request is refused as a conflict in exactly one situation. */
  lemma ConflictsExactlyThere(s: State, id: nat, around: Surroundings, messageId: nat)
    requires Inv(s) && HasAnswer(s, id, messageId) && !s.flights[id].phase.Done?
    ensures
      id in Advance(s, id, around).flights && (Advance(s, id, around).flights[id].phase == CONFLICT <==>
        s.flights[id].request.Direct? && IsAboutToConflict(s.flights[id].phase, messageId)
        && WhyNotReach(s, s.flights[id].request, around).None?)
  {
    StoreIsSound(s, id);
    if HasDraft(s.flights[id].request) {
      ConflictsOnlyThere(s, id, around, messageId);
    } else {
      EditNeverConflicts(s, id, around, messageId);
    }
  }

  lemma StoreIsSound(s: State, id: nat)
    requires Inv(s) && id in s.flights
    ensures ClientIdsAreUnique(s.store) && PairsMatch(s.store)
    ensures PhaseIsSound(s.store, s.flights[id].request, s.flights[id].phase)
  {
  }

  /** It looked for the pair before there was one, and has not settled on there being no message either. */
  predicate LookedTooEarly(phase: Phase, messageId: nat) {
    phase == LookingForPair(Some(None), None) || IsAboutToConflict(phase, messageId) || phase == CONFLICT
  }

  /** Steps such a request still takes. */
  function StepsToConflict(phase: Phase): nat {
    if phase == CONFLICT then 0 else if phase == LookingForPair(Some(None), None) then 2 else 1
  }

  /** What so many own steps do to a request that may have looked too early. */
  predicate EarlyLookerGoesOn(was: Phase, now: Phase, steps: nat, passes: bool, messageId: nat) {
    && (LookedTooEarly(now, messageId) ==> LookedTooEarly(was, messageId))
    && (passes && LookedTooEarly(was, messageId) ==>
          LookedTooEarly(now, messageId) && StepsToConflict(now) <= After(StepsToConflict(was), steps))
  }

  lemma EarlyLookerApplies(s: State, e: Event, id: nat, messageId: nat)
    requires Inv(s) && HasAnswer(s, id, messageId)
    ensures id in Apply(s, e).flights
    ensures EarlyLookerGoesOn(s.flights[id].phase, Apply(s, e).flights[id].phase, CountSteps([e], id),
      Stop(s, e, id).None?, messageId)
  {
    assert CountSteps([e], id) == if e.Step? && e.id == id then 1 else 0;
    if e.Step? && e.id == id {
      EarlyLookerMoves(s, id, e.around, messageId);
    } else {
      OthersLeaveFlight(s, e, id);
    }
  }

  lemma EarlyLookerMoves(s: State, id: nat, around: Surroundings, messageId: nat)
    requires Inv(s) && HasAnswer(s, id, messageId)
    ensures
      && id in Advance(s, id, around).flights
      && EarlyLookerGoesOn(s.flights[id].phase, Advance(s, id, around).flights[id].phase, 1,
          Stop(s, Step(id, around), id).None?, messageId)
  {
    if s.flights[id].phase.Done? {
    } else {
      StoreIsSound(s, id);
      ConflictsExactlyThere(s, id, around, messageId);
      EarlyLookerMovesOn(s, id, around, messageId);
    }
  }

  lemma EarlyLookerMovesOn(s: State, id: nat, around: Surroundings, messageId: nat)
    requires HasAnswer(s, id, messageId) && !s.flights[id].phase.Done?
    requires ClientIdsAreUnique(s.store) && PhaseIsSound(s.store, s.flights[id].request, s.flights[id].phase)
    requires
      id in Advance(s, id, around).flights && (Advance(s, id, around).flights[id].phase == CONFLICT <==>
        s.flights[id].request.Direct? && IsAboutToConflict(s.flights[id].phase, messageId)
        && WhyNotReach(s, s.flights[id].request, around).None?)
    ensures EarlyLookerGoesOn(s.flights[id].phase, Advance(s, id, around).flights[id].phase, 1,
      Stop(s, Step(id, around), id).None?, messageId)
  {
  }

  lemma {:induction false} EarlyLookerRuns(s: State, es: seq<Event>, id: nat, messageId: nat)
    requires Inv(s) && HasAnswer(s, id, messageId)
    ensures id in Run(s, es).flights
    ensures EarlyLookerGoesOn(s.flights[id].phase, Run(s, es).flights[id].phase, CountSteps(es, id),
      OwnStepsPass(s, es, id), messageId)
    decreases |es|
  {
    if es != [] {
      FirstAndRest(es, id);
      ApplyIsSound(s, es[0]);
      AnswerIsKept(s, es[0], id, messageId);
      EarlyLookerApplies(s, es[0], id, messageId);
      EarlyLookerRuns(Apply(s, es[0]), es[1..], id, messageId);
    }
  }

  /**
   * Which copy of a request is refused as a conflict is settled when the message is stored: one that has by
   * then looked for the pair and not found it, and not yet found there to be no message. Every other copy
   * is spared in every continuation; that one is refused once it took two more steps, if its checks pass.
   */
  lemma ConflictIsSettledWhenStored(before: seq<Event>, after: seq<Event>, id: nat, messageId: nat)
    requires HasAnswer(Run(Nothing, before), id, messageId)
    ensures
      var was := Run(Nothing, before).flights[id].phase;
      var flights := Run(Run(Nothing, before), after).flights;
      && id in flights
      && (flights[id].phase == CONFLICT ==> LookedTooEarly(was, messageId))
      && (OwnStepsPass(Run(Nothing, before), after, id) && CountSteps(after, id) >= 2 ==>
          (flights[id].phase == CONFLICT <==> LookedTooEarly(was, messageId)))
  {
    ReachableIsSound(before);
    EarlyLookerRuns(Run(Nothing, before), after, id, messageId);
  }

  // ---------------------------------------------------------------- and such a race happens

  /** Two copies of one first message: `b` is about to store it, `a` has looked for the pair and found none. */
  ghost predicate CopiesInFlight(s: State, a: nat, b: nat) {
    && a in s.flights && b in s.flights && a != b
    && s.flights[a].request == s.flights[b].request && s.flights[a].request.Direct?
    && s.flights[a].request.draft.clientMessageId.Some?
    && s.flights[a].phase == LookingForPair(Some(None), None) && s.flights[b].phase.Creating?
    && NormalizeDirectPair(s.flights[a].request.senderId, s.flights[a].request.recipientId) !in s.store.pairs
    && !Taken(s.store, s.flights[a].request.senderId, s.flights[a].request.draft.clientMessageId)
  }

  /**
   * The copy that looked for the pair before the other stored it, and for the message after, is told the
   * client id belongs to another recipient, although the stored message is the very one it asked for.
   */
  lemma RacingCopyIsRefused(es: seq<Event>, a: nat, b: nat, around: Surroundings)
    requires CopiesInFlight(Run(Nothing, es), a, b)
    requires WhyNotReach(Run(Nothing, es), Run(Nothing, es).flights[a].request, around).None?
    ensures
      var after := Run(Run(Nothing, es), [Step(b, around), Step(a, around), Step(a, around)]);
      && WasAnswered(after, b) && a in after.flights
      && IsAnswerTo(after.store, after.flights[a].request, AnswerOf(after, b))
      && after.flights[a].phase == Done(Refused(Conflict))
  {
    ReachableIsSound(es);
    CopiesRace(Run(Nothing, es), a, b, around);
    RunThree(Run(Nothing, es), Step(b, around), Step(a, around), Step(a, around));
  }

  lemma RunThree(s: State, e: Event, f: Event, g: Event)
    ensures Run(s, [e, f, g]) == Apply(Apply(Apply(s, e), f), g)
  {
    var s1 := Apply(s, e);
    var s2 := Apply(s1, f);
    assert [e, f, g][1..] == [f, g] && [f, g][1..] == [g] && [g][1..] == [];
    assert Run(s2, [g]) == Run(Apply(s2, g), []);
    assert Run(s1, [f, g]) == Run(s2, [g]);
  }

  lemma CopiesRace(s: State, a: nat, b: nat, around: Surroundings)
    requires Inv(s) && CopiesInFlight(s, a, b) && WhyNotReach(s, s.flights[a].request, around).None?
    ensures
      var after := Apply(Apply(Apply(s, Step(b, around)), Step(a, around)), Step(a, around));
      && WasAnswered(after, b) && a in after.flights
      && IsAnswerTo(after.store, after.flights[a].request, AnswerOf(after, b))
      && after.flights[a].phase == Done(Refused(Conflict))
  {
    CopyIsStored(s, b, around);
    CopyIsRefused(Apply(s, Step(b, around)), a, around, s.store.nextId + 1);
  }

  lemma CopyIsStored(s: State, b: nat, around: Surroundings)
    requires Inv(s) && b in s.flights && s.flights[b].request.Direct? && s.flights[b].phase.Creating?
    requires s.flights[b].request.draft.clientMessageId.Some?
    requires NormalizeDirectPair(s.flights[b].request.senderId, s.flights[b].request.recipientId) !in s.store.pairs
    requires !Taken(s.store, s.flights[b].request.senderId, s.flights[b].request.draft.clientMessageId)
    ensures
      var after := Apply(s, Step(b, around));
      && after.flights == s.flights[b := Flight(s.flights[b].request, Done(Answered(s.store.nextId + 1, false)))]
      && after.blocks == s.blocks
      && IsAnswerTo(after.store, s.flights[b].request, s.store.nextId + 1)
      && FindBySenderClientMessageId(after.store, s.flights[b].request.senderId,
          s.flights[b].request.draft.clientMessageId)
           == Some(s.store.nextId + 1)
  {
    CreatedStoreIsSound(s, b);
    FindsTheOne(CreatedStore(s, b), s.flights[b].request, s.store.nextId + 1);
  }

  lemma CopyIsRefused(s: State, a: nat, around: Surroundings, messageId: nat)
    requires a in s.flights && s.flights[a].request.Direct? && s.flights[a].phase == LookingForPair(Some(None), None)
    requires messageId in s.store.messages && WhyNotReach(s, s.flights[a].request, around).None?
    requires FindBySenderClientMessageId(s.store, s.flights[a].request.senderId,
      s.flights[a].request.draft.clientMessageId) == Some(messageId)
    ensures Apply(Apply(s, Step(a, around)), Step(a, around)) == To(s, a, Done(Refused(Conflict)))
  {
    assert Apply(s, Step(a, around)) == To(s, a, LookingForPair(Some(None), Some(Some(messageId))));
  }

  lemma Then(es: seq<Event>, e: Event) returns (more: seq<Event>, s: State)
    ensures more == es + [e] && s == Run(Nothing, more) == Apply(Run(Nothing, es), e)
  {
    RunSnoc(Nothing, es, e);
    more := es + [e];
    s := Run(Nothing, more);
  }

  /** Somebody double-clicks: both copies find no pair, and one goes on to store before the other looks further. */
  lemma CopiesMeet() returns (es: seq<Event>)
    ensures CopiesInFlight(Run(Nothing, es), 0, 1)
  {
    var around := Surroundings(true, true, true, true, false);
    var request := Direct("ana", "ben", Draft(Some("once"), TEXT, {}));
    var s;
    es, s := Then([], Arrive(0, request));
    es, s := Then(es, Arrive(1, request));
    assert s.store == Nothing.store && s.flights[0] == s.flights[1] == Flight(request, LookingForPair(None, None));
    es, s := Then(es, Step(0, around));
    assert s.flights[0].phase == LookingForPair(Some(None), None);
    es, s := Then(es, Step(1, around));
    es, s := Then(es, Step(1, around));
    assert s.flights[1].phase == LookingForPair(Some(None), Some(None));
    es, s := Then(es, Step(1, around));
  }
}
