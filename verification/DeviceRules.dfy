/** What every run of `Devices` keeps to, and which device a registration retires for its own. */
module DeviceRules {
  import opened Common
  import opened Devices

  /** A user never has more than ten active devices, however registrations race. */
  lemma AtMostTenActive(es: seq<Event>, userId: string)
    ensures |ActiveOf(Run(Nothing, es).devices, userId)| <= 10
  {
    ReachableIsSound(es);
  }

  /** A revoked device never becomes active again, whatever is registered, touched or linked later. */
  lemma {:induction false} RevokedForGood(s: State, es: seq<Event>, deviceId: string)
    requires deviceId in s.devices && s.devices[deviceId].revoked
    ensures deviceId in Run(s, es).devices && Run(s, es).devices[deviceId].revoked
    ensures Run(s, es).devices[deviceId].userId == s.devices[deviceId].userId
    decreases |es|
  {
    if es != [] {
      RevokedForGood(Apply(s, es[0]), es[1..], deviceId);
    }
  }

  /** The gate of every message send: the login is linked to a device of its user that is still active. */
  predicate MaySend(s: State, sessionId: string) {
    && sessionId in s.sessions && s.sessions[sessionId].chatDeviceId.Some?
    && IsActive(s.devices, s.sessions[sessionId].userId, s.sessions[sessionId].chatDeviceId.value)
  }

  lemma MaySendExactly(s: State, sessionId: string)
    ensures MaySend(s, sessionId) <==>
      exists deviceId ::
        && IsLinkedTo(s, sessionId, deviceId) && deviceId in s.devices
        && s.devices[deviceId].userId == s.sessions[sessionId].userId && !s.devices[deviceId].revoked
  {
    if sessionId in s.sessions && s.sessions[sessionId].chatDeviceId.Some? {
      assert IsLinkedTo(s, sessionId, s.sessions[sessionId].chatDeviceId.value);
    }
  }

  predicate IsLinkedTo(s: State, sessionId: string, deviceId: string) {
    sessionId in s.sessions && s.sessions[sessionId].chatDeviceId == Some(deviceId)
  }

  /** Once a revocation has answered, no login linked to the device passes the gate, not even one linked later. */
  lemma RevokedDeviceNeverSends(before: seq<Event>, after: seq<Event>, id: nat, sessionId: string)
    requires id in Run(Nothing, before).flights && Run(Nothing, before).flights[id].phase == Done(Revoked)
    ensures
      var s := Run(Run(Nothing, before), after);
      IsLinkedTo(s, sessionId, Run(Nothing, before).flights[id].request.deviceId) ==> !MaySend(s, sessionId)
  {
    ReachableIsSound(before);
    var s := Run(Nothing, before);
    assert PhaseIsSound(s.now, s.devices, s.flights[id].request, s.flights[id].phase);
    RevokedForGood(s, after, s.flights[id].request.deviceId);
  }

  /**
   * No step moves a login that stays logged in off a device that is still active: it moves only off a
   * revoked one, and then only to a device of the same user.
   */
  lemma LoginsNeverLeaveAnActiveDevice(es: seq<Event>, e: Event, sessionId: string, deviceId: string)
    requires IsLinkedTo(Run(Nothing, es), sessionId, deviceId) && sessionId in Apply(Run(Nothing, es), e).sessions
    ensures
      var s := Run(Nothing, es);
      var next := Apply(s, e);
      && (IsLinkedTo(next, sessionId, deviceId) || (deviceId in s.devices && s.devices[deviceId].revoked))
      && next.sessions[sessionId].userId == s.sessions[sessionId].userId
      && next.sessions[sessionId].chatDeviceId.Some? && next.sessions[sessionId].chatDeviceId.value in next.devices
      && next.devices[next.sessions[sessionId].chatDeviceId.value].userId == next.sessions[sessionId].userId
  {
    ReachableIsSound(es);
    var s := Run(Nothing, es);
    ApplyKeeps(s, e);
    MovesOnlyOffRevoked(s, e, sessionId, deviceId);
  }

  lemma MovesOnlyOffRevoked(s: State, e: Event, sessionId: string, deviceId: string)
    requires FlightsAreSound(s) && IsLinkedTo(s, sessionId, deviceId) && sessionId in Apply(s, e).sessions
    ensures IsLinkedTo(Apply(s, e), sessionId, deviceId) || (deviceId in s.devices && s.devices[deviceId].revoked)
    ensures Apply(s, e).sessions[sessionId].userId == s.sessions[sessionId].userId
    ensures Apply(s, e).sessions[sessionId].chatDeviceId.Some?
  {
    if e.Step? && e.id in s.flights {
      assert PhaseIsSound(s.now, s.devices, s.flights[e.id].request, s.flights[e.id].phase);
    }
  }

  /** The device is active before the step and revoked after it. */
  predicate Retires(s: State, next: State, deviceId: string) {
    deviceId in s.devices && !s.devices[deviceId].revoked && deviceId in next.devices && next.devices[deviceId].revoked
  }

  /**
   * A registration retires at most one device, of its own user, only when it counted ten, and then the one
   * unseen the longest of those active when it picked, for at least fourteen days.
   */
  lemma OnlyTheStalestIsEvicted(es: seq<Event>, id: nat, proved: bool, deviceId: string)
    requires id in Run(Nothing, es).flights && Run(Nothing, es).flights[id].request.Register?
    requires Retires(Run(Nothing, es), Apply(Run(Nothing, es), Step(id, proved)), deviceId)
    ensures
      var s := Run(Nothing, es);
      && s.flights[id].phase.Evicting?
      && var Evicting(cutoff, counted, victim, seen) := s.flights[id].phase;
      && victim == Some(deviceId) && |counted| == 10 && seen.Keys <= counted
      && IsStalest(seen, deviceId) && seen[deviceId] < cutoff <= s.now - 14 * 24 * 60 * 60 * 1000
      && IsActive(s.devices, s.flights[id].request.userId, deviceId)
  {
    ReachableIsSound(es);
  }

  /** The retirement of dormant devices takes exactly the active ones unseen since the cutoff, and nothing else. */
  lemma DormantDevicesAreRetired(s: State, cutoff: int)
    ensures
      var next := Apply(s, RetireUnseenSince(cutoff));
      && next == s.(devices := next.devices) && next.devices.Keys == s.devices.Keys
      && forall d | d in s.devices ::
           && (Retires(s, next, d) <==> !s.devices[d].revoked && s.devices[d].lastSeenAt < cutoff)
           && next.devices[d] == if Retires(s, next, d) then s.devices[d].(revoked := true) else s.devices[d]
  {
  }

  /** The owner's own revocation. */
  predicate IsRevocationOf(s: State, e: Event, deviceId: string) {
    && e.Step? && e.id in s.flights && s.flights[e.id].phase.Revoking?
    && deviceId in s.devices && s.flights[e.id].request == Revoke(s.devices[deviceId].userId, deviceId)
  }

  /** The eviction that makes room for another device of the same user. */
  predicate IsEvictionOf(s: State, e: Event, deviceId: string) {
    && e.Step? && e.id in s.flights && s.flights[e.id].request.Register? && s.flights[e.id].phase.Evicting?
    && deviceId in s.devices && s.flights[e.id].request.userId == s.devices[deviceId].userId
    && s.flights[e.id].phase.victim == Some(deviceId) && s.flights[e.id].request.deviceId !in s.devices
  }

  /** Every retirement, over every run, is one of three, and each of the three retires. */
  lemma RetirementsAreAccountedFor(es: seq<Event>, e: Event, deviceId: string)
    requires deviceId in Run(Nothing, es).devices && !Run(Nothing, es).devices[deviceId].revoked
    ensures
      var s := Run(Nothing, es);
      Retires(s, Apply(s, e), deviceId) <==>
        || IsRevocationOf(s, e, deviceId)
        || IsEvictionOf(s, e, deviceId)
        || (e.RetireUnseenSince? && s.devices[deviceId].lastSeenAt < e.cutoff)
  {
    ReachableIsSound(es);
    var s := Run(Nothing, es);
    if e.Step? && e.id in s.flights {
      assert PhaseIsSound(s.now, s.devices, s.flights[e.id].request, s.flights[e.id].phase);
    }
  }

  /** And every device there is was registered by its owner, while active devices are seen when they are touched. */
  lemma DevicesComeFromRegistrations(es: seq<Event>, e: Event, deviceId: string)
    requires deviceId !in Run(Nothing, es).devices && deviceId in Apply(Run(Nothing, es), e).devices
    ensures
      var s, next := Run(Nothing, es), Apply(Run(Nothing, es), e);
      && e.Step? && e.id in s.flights && s.flights[e.id].phase.Evicting?
      && s.flights[e.id].request == Register(next.devices[deviceId].userId, deviceId)
      && next.devices[deviceId].lastSeenAt == s.now && !next.devices[deviceId].revoked
      && next.devices.Keys == s.devices.Keys + {deviceId}
  {
    ReachableIsSound(es);
    var s := Run(Nothing, es);
    if e.Step? && e.id in s.flights {
      assert PhaseIsSound(s.now, s.devices, s.flights[e.id].request, s.flights[e.id].phase);
    }
  }

  // ---------------------------------------------------------------- how a login comes to a device

  /** The request has been let past the checks on its device and its signature. */
  predicate PassedChecks(phase: Phase) {
    phase.Linking? || phase.Rereading? || phase.Judging? || phase.Relinking? || phase == Done(Linked)
  }

  /** At its first step the signature was good and the device an active one of the user. */
  ghost predicate WasProved(s: State, es: seq<Event>, id: nat, userId: string, deviceId: string) {
    exists k | 0 <= k < |es| :: es[k] == Step(id, true) && IsActive(Run(s, es[..k]).devices, userId, deviceId)
  }

  lemma PassesChecks(s: State, e: Event, id: nat)
    requires id in s.flights ==> s.flights[id].request.Link?
    requires id in Apply(s, e).flights && Apply(s, e).flights[id].request.Link?
    requires PassedChecks(Apply(s, e).flights[id].phase) && (id in s.flights ==> !PassedChecks(s.flights[id].phase))
    ensures
      var request := Apply(s, e).flights[id].request;
      && e == Step(id, true) && id in s.flights && s.flights[id].request == request
      && IsActive(s.devices, request.userId, request.deviceId)
  {
    if id in s.flights {
      if e.Step? && e.id == id { LinkPassesChecks(s, id, e.proved); } else { RequestIsKept(s, e, id); }
    }
  }

  lemma LinkPassesChecks(s: State, id: nat, proved: bool)
    requires id in s.flights && s.flights[id].request.Link? && !PassedChecks(s.flights[id].phase)
    ensures
      var next := AdvanceLink(s, id, proved);
      && id in next.flights && next.flights[id].request == s.flights[id].request
      && (PassedChecks(next.flights[id].phase) ==>
            proved && IsActive(s.devices, s.flights[id].request.userId, s.flights[id].request.deviceId))
  {
  }

  lemma RequestIsKept(s: State, e: Event, id: nat)
    requires id in s.flights
    ensures id in Apply(s, e).flights && Apply(s, e).flights[id].request == s.flights[id].request
    ensures !(e.Step? && e.id == id) ==> Apply(s, e).flights[id] == s.flights[id]
  {
    if e.Step? && e.id in s.flights {
      match s.flights[e.id].request {
        case Register(_, _) => RegisterKeepsRequests(s, e.id);
        case Link(_, _, _) =>
        case Revoke(_, _) =>
      }
    }
  }

  lemma RegisterKeepsRequests(s: State, id: nat)
    requires id in s.flights && s.flights[id].request.Register?
    ensures
      var next := AdvanceRegister(s, id).flights;
      id in next && next == s.flights[id := next[id]] && next[id].request == s.flights[id].request
  {
  }

  lemma {:induction false} LinkWasProved(s: State, es: seq<Event>, id: nat)
    requires id !in s.flights && id in Run(s, es).flights && Run(s, es).flights[id].request.Link?
    requires PassedChecks(Run(s, es).flights[id].phase)
    ensures
      var request := Run(s, es).flights[id].request;
      WasProved(s, es, id, request.userId, request.deviceId)
    decreases |es|
  {
    if es != [] {
      var before, e := es[..|es| - 1], es[|es| - 1];
      assert before + [e] == es;
      RunSnoc(s, before, e);
      var was := Run(s, before);
      if id in was.flights { RequestIsKept(was, e, id); }
      if id in was.flights && PassedChecks(was.flights[id].phase) {
        LinkWasProved(s, before, id);
        var request := was.flights[id].request;
        var k :| 0 <= k < |before| && before[k] == Step(id, true)
          && IsActive(Run(s, before[..k]).devices, request.userId, request.deviceId);
        assert es[..k] == before[..k] && es[k] == before[k];
      } else {
        PassesChecks(was, e, id);
        assert es[..|before|] == before;
      }
    }
  }

  /**
   * A login comes to a device only by its own user's link request, whose signature was checked and whose device was
   * active and that user's at that check; and it comes from no device, or from the revoked one the request saw.
   */
  lemma LoginsAreLinkedOnlyWhenProved(es: seq<Event>, e: Event, sessionId: string, deviceId: string)
    requires !IsLinkedTo(Run(Nothing, es), sessionId, deviceId)
    requires IsLinkedTo(Apply(Run(Nothing, es), e), sessionId, deviceId)
    ensures
      var s, next := Run(Nothing, es), Apply(Run(Nothing, es), e);
      && e.Step? && e.id in s.flights && sessionId in s.sessions
      && var userId := s.sessions[sessionId].userId;
      && s.flights[e.id].request == Link(userId, deviceId, sessionId) && next.sessions[sessionId].userId == userId
      && WasProved(Nothing, es, e.id, userId, deviceId)
      && (s.flights[e.id].phase.Linking? <==> s.sessions[sessionId].chatDeviceId.None?)
      && (s.flights[e.id].phase.Linking? || s.sessions[sessionId].chatDeviceId == Some(s.flights[e.id].phase.current))
  {
    ReachableIsSound(es);
    var s := Run(Nothing, es);
    assert e.Step? && e.id in s.flights;
    assert PhaseIsSound(s.now, s.devices, s.flights[e.id].request, s.flights[e.id].phase);
    LinkWasProved(Nothing, es, e.id);
  }

  /** What it counted, and what it picked from, is what was so at that step. */
  lemma EvictionReadsTheTruth(es: seq<Event>, id: nat, proved: bool)
    requires id in Run(Nothing, es).flights && Run(Nothing, es).flights[id].request.Register?
    ensures
      var s := Run(Nothing, es);
      var next := Apply(s, Step(id, proved)).flights;
      var active := ActiveOf(s.devices, s.flights[id].request.userId);
      && id in next
      && (s.flights[id].phase.Counting? ==>
            next[id].phase.counted == active && (next[id].phase.Picking? <==> |active| == MAX_ACTIVE_DEVICES_PER_USER))
      && (s.flights[id].phase.Picking? && next[id].phase.Evicting? ==>
            next[id].phase.seen.Keys == active
            && forall d | d in active :: next[id].phase.seen[d] == s.devices[d].lastSeenAt)
  {
    ReachableIsSound(es);
    var s := Run(Nothing, es);
    assert |ActiveOf(s.devices, s.flights[id].request.userId)| <= MAX_ACTIVE_DEVICES_PER_USER;
  }

  /**
   * It does not count again: the user still has ten when a device goes exactly when none was revoked since the
   * count.
   */
  lemma EvictsFromTenUnlessOneWasRevoked(es: seq<Event>, id: nat)
    requires
      var s := Run(Nothing, es);
      id in s.flights && s.flights[id].phase.Evicting? && s.flights[id].phase.victim.Some?
    ensures
      var s := Run(Nothing, es);
      var active := ActiveOf(s.devices, s.flights[id].request.userId);
      |active| == MAX_ACTIVE_DEVICES_PER_USER <==> active == s.flights[id].phase.counted
  {
    ReachableIsSound(es);
    var s := Run(Nothing, es);
    assert PhaseIsSound(s.now, s.devices, s.flights[id].request, s.flights[id].phase)
      && ReadHolds(s.devices, s.flights[id]);
    FullSubset(ActiveOf(s.devices, s.flights[id].request.userId), s.flights[id].phase.counted);
  }

  lemma FullSubset(small: set<string>, big: set<string>)
    requires small <= big
    ensures |small| == |big| <==> small == big
  {
    assert (big - small) + small == big;
    assert |(big - small) + small| == |big - small| + |small|;
  }

  /** A revocation between count and write makes room, and the picked device is retired all the same. */
  lemma EvictsThoughThereIsRoom(es: seq<Event>, id: nat, revocation: nat, other: string, proved: bool)
    requires
      var s := Run(Nothing, es);
      && id in s.flights && s.flights[id].phase.Evicting? && s.flights[id].phase.victim.Some?
      && s.flights[id].request.deviceId !in s.devices && revocation !in s.flights
      && IsActive(s.devices, s.flights[id].request.userId, s.flights[id].phase.victim.value)
      && IsActive(s.devices, s.flights[id].request.userId, other) && Some(other) != s.flights[id].phase.victim
    ensures
      var s := Run(Nothing, es);
      var userId := s.flights[id].request.userId;
      var after := RevokedMeanwhile(s, revocation, userId, other);
      && |ActiveOf(after.devices, userId)| < MAX_ACTIVE_DEVICES_PER_USER
      && Retires(after, Apply(after, Step(id, proved)), s.flights[id].phase.victim.value)
  {
    ReachableIsSound(es);
    var s := Run(Nothing, es);
    assert PhaseIsSound(s.now, s.devices, s.flights[id].request, s.flights[id].phase);
    OneFewer(s, revocation, s.flights[id].request.userId, other);
  }

  ghost function RevokedMeanwhile(s: State, revocation: nat, userId: string, deviceId: string): State {
    Run(s, [Arrive(revocation, Revoke(userId, deviceId)), Step(revocation, true), Step(revocation, true)])
  }

  lemma RunThree(s: State, e: Event, f: Event, g: Event)
    ensures Run(s, [e, f, g]) == Apply(Apply(Apply(s, e), f), g)
  {
    assert [e, f, g][1..] == [f, g];
    RunTwo(Apply(s, e), f, g);
  }

  lemma OneFewer(s: State, revocation: nat, userId: string, deviceId: string)
    requires revocation !in s.flights && IsActive(s.devices, userId, deviceId)
    ensures
      var after := RevokedMeanwhile(s, revocation, userId, deviceId);
      && after.devices == RevokeOne(s.devices, deviceId)
      && (forall id | id in s.flights :: id in after.flights && after.flights[id] == s.flights[id])
      && ActiveOf(after.devices, userId) == ActiveOf(s.devices, userId) - {deviceId}
      && |ActiveOf(after.devices, userId)| == |ActiveOf(s.devices, userId)| - 1
  {
    var arrived := Apply(s, Arrive(revocation, Revoke(userId, deviceId)));
    var looked := Apply(arrived, Step(revocation, true));
    RunThree(s, Arrive(revocation, Revoke(userId, deviceId)), Step(revocation, true), Step(revocation, true));
    assert looked.flights[revocation].phase == Revoking;
    var after := Apply(looked, Step(revocation, true));
    assert after.devices == RevokeOne(s.devices, deviceId);
    assert ActiveOf(after.devices, userId) == ActiveOf(s.devices, userId) - {deviceId};
  }

  /**
   * Nor does it look at the device again: one that comes back between the registration's read and its
   * write is retired although it was seen that very moment.
   */
  lemma ReturningDeviceIsEvictedAnyway(es: seq<Event>, id: nat, proved: bool)
    requires
      var s := Run(Nothing, es);
      && id in s.flights && s.flights[id].phase.Evicting? && s.flights[id].phase.victim.Some?
      && s.flights[id].request.deviceId !in s.devices
    ensures
      var s := Run(Nothing, es);
      var victim := s.flights[id].phase.victim.value;
      var after := Run(s, [Touch(victim), Step(id, proved)]).devices;
      victim in after && after[victim].revoked && after[victim].lastSeenAt == s.now
  {
    ReachableIsSound(es);
    var s := Run(Nothing, es);
    assert PhaseIsSound(s.now, s.devices, s.flights[id].request, s.flights[id].phase);
    RunTwo(s, Touch(s.flights[id].phase.victim.value), Step(id, proved));
  }

  /** So what is evicted is still idle past the limit when it goes exactly when nobody used it since it was picked. */
  lemma EvictedIsIdleUnlessItReturned(es: seq<Event>, id: nat)
    requires
      var s := Run(Nothing, es);
      id in s.flights && s.flights[id].phase.Evicting? && s.flights[id].phase.victim.Some?
    ensures
      var s := Run(Nothing, es);
      var Evicting(cutoff, _, victim, seen) := s.flights[id].phase;
      && victim.value in s.devices && victim.value in seen
      && (s.devices[victim.value].lastSeenAt < cutoff <==> s.devices[victim.value].lastSeenAt == seen[victim.value])
  {
    ReachableIsSound(es);
    var s := Run(Nothing, es);
    assert PhaseIsSound(s.now, s.devices, s.flights[id].request, s.flights[id].phase);
  }

  lemma RunTwo(s: State, e: Event, f: Event)
    ensures Run(s, [e, f]) == Apply(Apply(s, e), f)
  {
    assert [e, f][1..] == [f] && [f][1..] == [];
    assert Run(Apply(s, e), [f]) == Run(Apply(Apply(s, e), f), []);
  }

  // ---------------------------------------------------------------- and a device is evicted

  /** Device ids "", "d", "dd" and so on. */
  function Name(k: nat): string { seq(k, i => 'd') }

  function Names(n: nat): set<string> { set k | 0 <= k < n :: Name(k) }

  lemma {:induction false} NamesAreDistinct(n: nat)
    ensures |Names(n)| == n
  {
    if n > 0 {
      NamesAreDistinct(n - 1);
      NameIsNew(n - 1);
    }
  }

  /** The user's first `n` devices, all registered at the very beginning. */
  predicate HasFirst(s: State, n: nat) {
    && s.now == 0 && s.registering == map[] && s.sessions == map[]
    && s.devices.Keys == Names(n) && (forall id | id in s.devices :: s.devices[id] == Device("user", 0, false))
    && forall id | id in s.flights :: id < n
  }

  lemma {:induction false} RunSnoc(s: State, es: seq<Event>, e: Event)
    ensures Run(s, es + [e]) == Apply(Run(s, es), e)
    decreases |es|
  {
    if es == [] {
      assert Run(s, [e]) == Run(Apply(s, e), [e][1..]);
    } else {
      assert (es + [e])[1..] == es[1..] + [e];
      RunSnoc(Apply(s, es[0]), es[1..], e);
    }
  }

  lemma Then(es: seq<Event>, e: Event) returns (more: seq<Event>, s: State)
    ensures more == es + [e] && s == Run(Nothing, more) == Apply(Run(Nothing, es), e)
  {
    RunSnoc(Nothing, es, e);
    more := es + [e];
    s := Run(Nothing, more);
  }

  lemma StepTwice(es: seq<Event>, id: nat) returns (more: seq<Event>)
    ensures Run(Nothing, more) == Apply(Apply(Run(Nothing, es), Step(id, true)), Step(id, true))
  {
    RunSnoc(Nothing, es, Step(id, true));
    RunSnoc(Nothing, es + [Step(id, true)], Step(id, true));
    more := es + [Step(id, true)] + [Step(id, true)];
  }

  /** A registration up to its count. */
  lemma RegistersUpToCount(before: seq<Event>, id: nat, deviceId: string) returns (es: seq<Event>)
    requires
      var s := Run(Nothing, before);
      id !in s.flights && s.registering == map[] && deviceId !in s.devices
    ensures
      var s, now := Run(Nothing, before), Run(Nothing, es);
      now == CountingNext(s, id, deviceId)
  {
    var s;
    es, s := Then(before, Arrive(id, Register("user", deviceId)));
    es, s := Then(es, Step(id, true));
    assert s.flights[id].phase.Registering?;
    es, s := Then(es, Step(id, true));
    assert s.flights[id].phase.Checking?;
    es, s := Then(es, Step(id, true));
  }

  lemma AllAreActive(s: State, n: nat)
    requires s.devices.Keys == Names(n) && forall id | id in s.devices :: s.devices[id] == Device("user", 0, false)
    ensures ActiveOf(s.devices, "user") == Names(n) && |ActiveOf(s.devices, "user")| == n
  {
    NamesAreDistinct(n);
    assert ActiveOf(s.devices, "user") == s.devices.Keys;
  }

  lemma {:induction false} FirstDevices(n: nat) returns (es: seq<Event>)
    requires n <= MAX_ACTIVE_DEVICES_PER_USER
    ensures HasFirst(Run(Nothing, es), n)
  {
    if n == 0 {
      es := [];
    } else {
      es := FirstDevices(n - 1);
      es := OneMore(es, n - 1);
    }
  }

  function CountingNext(s: State, id: nat, deviceId: string): State {
    s.(registering := map["user" := id],
       flights := s.flights[id := Flight(Register("user", deviceId), Counting(s.now - CAP_EVICTION_MIN_IDLE_MS))])
  }

  lemma CreatesNext(s: State, n: nat)
    requires HasFirst(s, n) && n < MAX_ACTIVE_DEVICES_PER_USER
    ensures HasFirst(Apply(Apply(CountingNext(s, n, Name(n)), Step(n, true)), Step(n, true)), n + 1)
  {
    var counting := CountingNext(s, n, Name(n));
    AllAreActive(s, n);
    assert Name(n) !in s.devices by { NameIsNew(n); }
    var after := CreatedNext(counting, n, n, Name(n));
  }

  /** With room, a registration that has come to its count goes on to create its device. */
  lemma CreatedNext(s: State, id: nat, n: nat, deviceId: string) returns (after: State)
    requires id in s.flights && s.flights[id].request == Register("user", deviceId) && s.flights[id].phase.Counting?
    requires |ActiveOf(s.devices, "user")| == n < MAX_ACTIVE_DEVICES_PER_USER && deviceId !in s.devices
    requires s.registering == map["user" := id]
    ensures after == Apply(Apply(s, Step(id, true)), Step(id, true))
    ensures after.devices == s.devices[deviceId := Device("user", s.now, false)] && after.registering == map[]
    ensures after.now == s.now && after.sessions == s.sessions && after.flights.Keys == s.flights.Keys
  {
    var evicting := Apply(s, Step(id, true));
    assert evicting ==
      To(s, id, Evicting(s.flights[id].phase.evictIdleBefore, ActiveOf(s.devices, "user"), None, map[]));
    assert s.registering - {"user"} == map[];
    after := Apply(evicting, Step(id, true));
  }

  lemma OneMore(before: seq<Event>, n: nat) returns (es: seq<Event>)
    requires HasFirst(Run(Nothing, before), n) && n < MAX_ACTIVE_DEVICES_PER_USER
    ensures HasFirst(Run(Nothing, es), n + 1)
  {
    NameIsNew(n);
    CreatesNext(Run(Nothing, before), n);
    es := RegistersUpToCount(before, n, Name(n));
    es := StepTwice(es, n);
  }

  lemma NameIsNew(n: nat)
    ensures Name(n) !in Names(n) && Names(n + 1) == Names(n) + {Name(n)}
  {
    forall k | 0 <= k < n ensures Name(k) != Name(n) {
      assert |Name(k)| != |Name(n)|;
    }
  }

  lemma CountsAndPicks(s: State, id: nat)
    requires id in s.flights && s.flights[id].request.userId == "user" && s.flights[id].request.Register?
    requires s.flights[id].phase.Counting?
    requires |ActiveOf(s.devices, "user")| == MAX_ACTIVE_DEVICES_PER_USER && s.flights[id].phase.evictIdleBefore > 0
    requires forall d | d in s.devices :: s.devices[d].lastSeenAt == 0
    ensures
      var after := Apply(Apply(s, Step(id, true)), Step(id, true));
      && after.devices == s.devices && id in after.flights && after.flights[id].request == s.flights[id].request
      && after.flights[id].phase.Evicting? && after.flights[id].phase.victim.Some?
      && after.flights[id].phase.victim.value in ActiveOf(after.devices, "user")
      && after.flights.Keys == s.flights.Keys
  {
    var picking := Apply(s, Step(id, true));
    assert picking == To(s, id, Picking(s.flights[id].phase.evictIdleBefore, ActiveOf(s.devices, "user")));
    var seen := LastSeen(s.devices, "user");
    assert seen.Keys == ActiveOf(s.devices, "user") && |seen.Keys| == |seen|;
    assert seen[Stalest(seen)] == 0;
  }

  /** Ten devices, fifteen days of silence, and an eleventh that is about to take a place. */
  lemma DevicesAreEvicted() returns (es: seq<Event>)
    ensures
      var s := Run(Nothing, es);
      && 10 in s.flights && s.flights[10].phase.Evicting? && s.flights[10].phase.victim.Some?
      && s.flights[10].request == Register("user", "tablet") && "tablet" !in s.devices && 11 !in s.flights
      && |ActiveOf(s.devices, "user")| == MAX_ACTIVE_DEVICES_PER_USER
      && s.flights[10].phase.victim.value in ActiveOf(s.devices, "user")
  {
    var s;
    es := FirstDevices(10);
    es, s := Then(es, Tick(15 * 24 * 60 * 60 * 1000));
    assert "tablet" !in Names(10) by { assert forall k | 0 < k < 10 :: Name(k)[0] != "tablet"[0]; }
    es := RegistersUpToCount(es, 10, "tablet");
    AllAreActive(Run(Nothing, es), 10);
    CountsAndPicks(Run(Nothing, es), 10);
    es := StepTwice(es, 10);
  }

  /** And one of the ten goes in the meantime, so that the picked one is retired for a place that was free. */
  lemma DeviceIsEvictedNeedlessly() returns (es: seq<Event>, victim: string)
    ensures
      var s := Run(Nothing, es);
      && |ActiveOf(s.devices, "user")| < MAX_ACTIVE_DEVICES_PER_USER
      && Retires(s, Apply(s, Step(10, true)), victim)
  {
    var before := DevicesAreEvicted();
    var s := Run(Nothing, before);
    victim := s.flights[10].phase.victim.value;
    var others := ActiveOf(s.devices, "user") - {victim};
    assert |others| == |ActiveOf(s.devices, "user")| - 1;
    var other :| other in others;
    EvictsThoughThereIsRoom(before, 10, 11, other, true);
    es := before + [Arrive(11, Revoke("user", other)), Step(11, true), Step(11, true)];
    RunJoins(Nothing, before, [Arrive(11, Revoke("user", other)), Step(11, true), Step(11, true)]);
  }

  lemma {:induction false} RunJoins(s: State, es: seq<Event>, more: seq<Event>)
    ensures Run(s, es + more) == Run(Run(s, es), more)
    decreases |es|
  {
    if es == [] {
      assert es + more == more;
    } else {
      assert (es + more)[1..] == es[1..] + more;
      RunJoins(Apply(s, es[0]), es[1..], more);
    }
  }
}
