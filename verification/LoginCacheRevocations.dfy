/** When a revoked login stays out of the cache. */
module LoginCacheRevocations {
  import opened Common
  import opened SessionStorage
  import opened LoginCacheRuns

  // ---------------------------------------------------------------- revocation is final

  /** After a revoke: no new `set`, the rows are gone after `goneBy`, and fills are quick. */
  predicate AfterRevoke(s: State, es: seq<Event>, goneBy: int, window: nat)
    decreases |es|
  {
    && (s.now > goneBy ==> s.rows == [])
    && (es != [] ==>
      && !es[0].SetKey?
      && WithinWindow(s, es[0], window)
      && AfterRevoke(Apply(s, es[0]), es[1..], goneBy, window))
  }

  function Revoked(kind: KeyKind, before: seq<Event>): State {
    Apply(Run(Init(kind), before), DeleteKey)
  }

  /** What holds from the revoke on: nothing cached, a long enough tombstone, only old loads in flight. */
  predicate StaysRevoked(s: State, revokedAt: int, goneBy: int) {
    && s.slots.value.None?
    && s.slots.revoked.Some? && s.slots.revoked.value.expiresAt.Some?
    && s.slots.revoked.value.expiresAt.value >= revokedAt + REVOKED_TTL_MS
    && (forall id | id in s.lookups && s.lookups[id].phase.Filling? && s.lookups[id].phase.loaded.Some? ::
          s.lookups[id].phase.loadedAt <= goneBy)
  }

  /** A lookup begun once the rows were gone can only find nothing. */
  predicate LateLookupsFindNothing(s: State, goneBy: int) {
    forall id | id in s.lookups && s.lookups[id].begunAt > goneBy ::
      match s.lookups[id].phase
      case AskMiss(cached) => cached.None?
      case Filling(loaded, _) => loaded.None?
      case Done(answer) => answer.None?
      case _ => true
  }

  lemma StepStaysRevoked(s: State, e: Event, revokedAt: int, goneBy: int, window: nat)
    requires goneBy + window < revokedAt + REVOKED_TTL_MS && revokedAt <= s.now
    requires StaysRevoked(s, revokedAt, goneBy)
    requires (s.now > goneBy ==> s.rows == []) && !e.SetKey? && WithinWindow(s, e, window)
    ensures StaysRevoked(Apply(s, e), revokedAt, goneBy)
  {
    assert Load(s.kind, [], s.now).None?;
  }

  lemma StepKeepsLateLookupsEmpty(s: State, e: Event, goneBy: int)
    requires WellTimed(s) && s.slots.value.None? && LateLookupsFindNothing(s, goneBy)
    requires s.now > goneBy ==> s.rows == []
    ensures LateLookupsFindNothing(Apply(s, e), goneBy)
  {
    assert Load(s.kind, [], s.now).None?;
  }

  lemma {:induction false} RevokedRun(s: State, es: seq<Event>, revokedAt: int, goneBy: int, window: nat)
    requires goneBy + window < revokedAt + REVOKED_TTL_MS && revokedAt <= s.now
    requires WellTimed(s) && StaysRevoked(s, revokedAt, goneBy) && LateLookupsFindNothing(s, goneBy)
    requires AfterRevoke(s, es, goneBy, window)
    ensures StaysRevoked(Run(s, es), revokedAt, goneBy) && LateLookupsFindNothing(Run(s, es), goneBy)
    decreases |es|
  {
    if es != [] {
      StepStaysRevoked(s, es[0], revokedAt, goneBy, window);
      StepKeepsLateLookupsEmpty(s, es[0], goneBy);
      ReachableIsWellTimed(s, es[..1]);
      assert Run(s, es[..1]) == Apply(s, es[0]);
      RevokedRun(Apply(s, es[0]), es[1..], revokedAt, goneBy, window);
    }
  }

  ghost predicate NeverCachedAgain(goneWithin: nat, window: nat) {
    forall kind: KeyKind, before: seq<Event>, after: seq<Event> ::
      AfterRevoke(Revoked(kind, before), after, Revoked(kind, before).now + goneWithin, window) ==>
        Run(Revoked(kind, before), after).slots.value.None?
  }

  lemma RevokedStateStays(kind: KeyKind, before: seq<Event>, after: seq<Event>, goneWithin: nat, window: nat)
    requires goneWithin + window < REVOKED_TTL_MS
    requires AfterRevoke(Revoked(kind, before), after, Revoked(kind, before).now + goneWithin, window)
    ensures
      var goneBy := Revoked(kind, before).now + goneWithin;
      Run(Revoked(kind, before), after).slots.value.None?
        && LateLookupsFindNothing(Run(Revoked(kind, before), after), goneBy)
  {
    ReachableIsWellTimed(Init(kind), before);
    var revoked := Revoked(kind, before);
    RevokedRun(revoked, after, revoked.now, revoked.now + goneWithin, window);
  }

  /** Putting one event before a run. */
  lemma Prepend(s: State, e: Event, rest: seq<Event>, goneBy: int, window: nat, last: State)
    requires (s.now > goneBy ==> s.rows == []) && !e.SetKey? && WithinWindow(s, e, window)
    requires AfterRevoke(Apply(s, e), rest, goneBy, window) && Run(Apply(s, e), rest) == last
    ensures AfterRevoke(s, [e] + rest, goneBy, window) && Run(s, [e] + rest) == last
  {
    assert ([e] + rest)[1..] == rest;
  }

  /** The slow lookup: it reads the row at the last moment and writes it as late as its window allows. */
  lemma SlowLookupCachesAgain(goneWithin: nat, window: nat) returns (before: seq<Event>, after: seq<Event>)
    requires goneWithin + window >= REVOKED_TTL_MS
    ensures
      var revoked := Revoked(SessionToken, before);
      && AfterRevoke(revoked, after, revoked.now + goneWithin, window)
      && Run(revoked, after).slots.value.Some?
  {
    var row := SessionRow("session", "user", "token", goneWithin + window + 1000);
    before := [Database([row])];
    assert Run(Init(SessionToken), before) == Run(Apply(Init(SessionToken), Database([row])), []);
    var s0 := Revoked(SessionToken, before);
    var s1 := Apply(s0, Begin(0, true));
    var s2 := Apply(s1, ReadValue(0));
    var s3 := Apply(s2, ReadMiss(0));
    var s4 := Apply(s3, Tick(goneWithin));
    var s5 := Apply(s4, LoadRows(0));
    var s6 := Apply(s5, Database([]));
    var s7 := Apply(s6, Tick(window));
    var s8 := Apply(s7, Finish(0, true));
    assert s5.lookups[0].phase.loaded.Some?;
    assert s8.slots.value.Some?;
    after := [];
    Prepend(s7, Finish(0, true), after, goneWithin, window, s8);
    after := [Finish(0, true)] + after;
    Prepend(s6, Tick(window), after, goneWithin, window, s8);
    after := [Tick(window)] + after;
    Prepend(s5, Database([]), after, goneWithin, window, s8);
    after := [Database([])] + after;
    Prepend(s4, LoadRows(0), after, goneWithin, window, s8);
    after := [LoadRows(0)] + after;
    Prepend(s3, Tick(goneWithin), after, goneWithin, window, s8);
    after := [Tick(goneWithin)] + after;
    Prepend(s2, ReadMiss(0), after, goneWithin, window, s8);
    after := [ReadMiss(0)] + after;
    Prepend(s1, ReadValue(0), after, goneWithin, window, s8);
    after := [ReadValue(0)] + after;
    Prepend(s0, Begin(0, true), after, goneWithin, window, s8);
    after := [Begin(0, true)] + after;
  }

  /**
   * A revoked login is never cached again, by any interleaving, even after its tombstone expired:
   * this holds exactly when the row is gone and every slow fill is over before the tombstone is.
   */
  lemma RevocationIsFinal(goneWithin: nat, window: nat)
    ensures NeverCachedAgain(goneWithin, window) <==> goneWithin + window < 60 * 1000
  {
    if goneWithin + window < REVOKED_TTL_MS {
      forall kind: KeyKind, before: seq<Event>, after: seq<Event>
        | AfterRevoke(Revoked(kind, before), after, Revoked(kind, before).now + goneWithin, window)
        ensures Run(Revoked(kind, before), after).slots.value.None?
      {
        RevokedStateStays(kind, before, after, goneWithin, window);
      }
    } else {
      var before, after := SlowLookupCachesAgain(goneWithin, window);
    }
  }

  /** Under the same bound, a lookup begun after the rows are gone answers nothing, on every instance. */
  lemma RevokedLoginAnswersNothing(
    kind: KeyKind, before: seq<Event>, after: seq<Event>, goneWithin: nat, window: nat, id: nat)
    requires goneWithin + window < REVOKED_TTL_MS
    requires AfterRevoke(Revoked(kind, before), after, Revoked(kind, before).now + goneWithin, window)
    requires
      var last := Run(Revoked(kind, before), after);
      id in last.lookups && last.lookups[id].begunAt > Revoked(kind, before).now + goneWithin
        && last.lookups[id].phase.Done?
    ensures Run(Revoked(kind, before), after).lookups[id].phase.answer.None?
  {
    RevokedStateStays(kind, before, after, goneWithin, window);
  }
}
