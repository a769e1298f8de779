/**
 * A user's chat devices and the logins linked to them: registrations under the user's lock, links, relinks
 * and revocations, in any interleaving with last-seen updates and the retirement of dormant devices. Each
 * statement of a registration's transaction is a step, because only other registrations wait for its lock.
 */
module Devices {
  import opened Common

  const MAX_ACTIVE_DEVICES_PER_USER := 10
  const CAP_EVICTION_MIN_IDLE_MS := 14 * 24 * 60 * 60 * 1000

  datatype Device = Device(userId: string, lastSeenAt: int, revoked: bool)

  datatype Session = Session(userId: string, chatDeviceId: Option<string>)

  datatype Request =
    | Register(userId: string, deviceId: string)
    | Link(userId: string, deviceId: string, sessionId: string)
    | Revoke(userId: string, deviceId: string)

  datatype Outcome = Created | Linked | Revoked | Refused

  datatype Phase =
    | Started
    | Registering(evictIdleBefore: int)
    | Checking(evictIdleBefore: int)
    | Counting(evictIdleBefore: int)
    | Picking(evictIdleBefore: int, counted: set<string>)
    | Evicting(evictIdleBefore: int, counted: set<string>, victim: Option<string>, seen: map<string, int>)
    | Linking
    | Rereading
    | Judging(current: string)
    | Relinking(current: string)
    | Revoking
    | Done(outcome: Outcome)

  datatype Flight = Flight(request: Request, phase: Phase)

  datatype State = State(
    now: int, devices: map<string, Device>, sessions: map<string, Session>, registering: map<string, nat>,
      flights: map<nat, Flight>)

  datatype Event =
    | Tick(ms: nat)
    | Login(sessionId: string, userId: string)
    | Logout(sessionId: string)
    | Touch(deviceId: string)
    | RetireUnseenSince(cutoff: int)
    | Arrive(id: nat, request: Request)
    | Step(id: nat, proved: bool)

  // ---------------------------------------------------------------- devices

  predicate IsActive(devices: map<string, Device>, userId: string, deviceId: string) {
    deviceId in devices && devices[deviceId].userId == userId && !devices[deviceId].revoked
  }

  function ActiveOf(devices: map<string, Device>, userId: string): set<string> {
    set id | id in devices && IsActive(devices, userId, id)
  }

  function LastSeen(devices: map<string, Device>, userId: string): map<string, int> {
    map id | id in ActiveOf(devices, userId) :: devices[id].lastSeenAt
  }

  predicate IsStalest(seen: map<string, int>, id: string) {
    id in seen && forall other | other in seen :: seen[id] <= seen[other]
  }

  lemma {:induction false} StalestExists(seen: map<string, int>) returns (stalest: string)
    requires seen != map[]
    ensures IsStalest(seen, stalest)
    decreases |seen|
  {
    var some :| some in seen;
    var rest := seen - {some};
    if rest == map[] {
      stalest := some;
      forall other | other in seen ensures other == some { assert other !in rest; }
    } else {
      assert rest.Keys == seen.Keys - {some};
      stalest := StalestExists(rest);
      forall other | other in seen ensures other == some || other in rest { }
      if seen[some] < rest[stalest] { stalest := some; }
    }
  }

  ghost function Stalest(seen: map<string, int>): (stalest: string)
    requires seen != map[]
    ensures IsStalest(seen, stalest)
  {
    assert exists id :: IsStalest(seen, id) by { var id := StalestExists(seen); assert IsStalest(seen, id); }
    var id :| IsStalest(seen, id);
    id
  }

  function RevokeOne(devices: map<string, Device>, deviceId: string): map<string, Device> {
    if deviceId in devices then devices[deviceId := devices[deviceId].(revoked := true)] else devices
  }

  function RevokeUnseen(devices: map<string, Device>, cutoff: int): map<string, Device> {
    map id | id in devices ::
      if !devices[id].revoked && devices[id].lastSeenAt < cutoff then devices[id].(revoked := true) else devices[id]
  }

  // ---------------------------------------------------------------- a request's next step

  function To(s: State, id: nat, phase: Phase): State
    requires id in s.flights
  {
    s.(flights := s.flights[id := s.flights[id].(phase := phase)])
  }

  /** The registration is inside its transaction. */
  predicate HoldsLock(phase: Phase) {
    phase.Checking? || phase.Counting? || phase.Picking? || phase.Evicting?
  }

  function Lock(s: State, id: nat): State
    requires id in s.flights && s.flights[id].request.Register? && s.flights[id].phase.Registering?
  {
    var userId := s.flights[id].request.userId;
    if userId in s.registering then s
    else To(s.(registering := s.registering[userId := id]), id, Checking(s.flights[id].phase.evictIdleBefore))
  }

  /** Leaving the transaction without a device. */
  function GiveUp(s: State, id: nat): State
    requires id in s.flights
  {
    To(s.(registering := s.registering - {s.flights[id].request.userId}), id, Done(Refused))
  }

  /** Is there room? */
  function CountActive(s: State, id: nat): State
    requires id in s.flights && s.flights[id].phase.Counting?
  {
    var active := ActiveOf(s.devices, s.flights[id].request.userId);
    var cutoff := s.flights[id].phase.evictIdleBefore;
    To(s, id,
      if |active| >= MAX_ACTIVE_DEVICES_PER_USER then Picking(cutoff, active)
      else Evicting(cutoff, active, None, map[]))
  }

  /** There was none: has the one unseen the longest been away long enough to give up its place? */
  ghost function PickStalest(s: State, id: nat): State
    requires id in s.flights && s.flights[id].phase.Picking?
  {
    var Picking(cutoff, counted) := s.flights[id].phase;
    var seen := LastSeen(s.devices, s.flights[id].request.userId);
    if seen == map[] || seen[Stalest(seen)] >= cutoff then GiveUp(s, id)
    else To(s, id, Evicting(cutoff, counted, Some(Stalest(seen)), seen))
  }

  function Evicted(devices: map<string, Device>, victim: Option<string>): map<string, Device> {
    if victim.None? then devices else RevokeOne(devices, victim.value)
  }

  /** A device id another user took meanwhile fails the insert, and undoes the eviction with it. */
  function CreateDevice(s: State, id: nat): State
    requires id in s.flights && s.flights[id].request.Register? && s.flights[id].phase.Evicting?
  {
    var Register(userId, deviceId) := s.flights[id].request;
    var freed := s.(registering := s.registering - {userId});
    if deviceId in s.devices then To(freed, id, Done(Refused))
    else
      var devices := Evicted(s.devices, s.flights[id].phase.victim)[deviceId := Device(userId, s.now, false)];
      To(freed.(devices := devices), id, Done(Created))
  }

  /** The conditional update: only from the device the request saw. */
  function PointLogin(s: State, id: nat, from: Option<string>, otherwise: Phase): State
    requires id in s.flights && s.flights[id].request.Link?
  {
    var Link(userId, deviceId, sessionId) := s.flights[id].request;
    if sessionId in s.sessions && s.sessions[sessionId] == Session(userId, from)
    then To(s.(sessions := s.sessions[sessionId := Session(userId, Some(deviceId))]), id, Done(Linked))
    else To(s, id, otherwise)
  }

  function AdvanceLink(s: State, id: nat, proved: bool): State
    requires id in s.flights && s.flights[id].request.Link?
  {
    var Link(userId, deviceId, sessionId) := s.flights[id].request;
    match s.flights[id].phase
    case Started => To(s, id, if IsActive(s.devices, userId, deviceId) && proved then Linking else Done(Refused))
    case Linking => PointLogin(s, id, None, Rereading)
    case Rereading =>
      var current :=
        if sessionId in s.sessions && s.sessions[sessionId].userId == userId then s.sessions[sessionId].chatDeviceId
        else None;
      To(s, id,
        if current.None? then Done(Refused)
        else if current.value == deviceId then Done(Linked)
        else Judging(current.value))
    case Judging(current) =>
      To(s, id, if current in s.devices && !s.devices[current].revoked then Done(Refused) else Relinking(current))
    case Relinking(current) => PointLogin(s, id, Some(current), Done(Refused))
    case _ => s
  }

  ghost function AdvanceRegister(s: State, id: nat): State
    requires id in s.flights && s.flights[id].request.Register?
  {
    match s.flights[id].phase
    case Started => To(s, id, Registering(s.now - CAP_EVICTION_MIN_IDLE_MS))
    case Registering(_) => Lock(s, id)
    case Checking(cutoff) =>
      if s.flights[id].request.deviceId in s.devices then GiveUp(s, id) else To(s, id, Counting(cutoff))
    case Counting(_) => CountActive(s, id)
    case Picking(_, _) => PickStalest(s, id)
    case Evicting(_, _, _, _) => CreateDevice(s, id)
    case _ => s
  }

  function AdvanceRevoke(s: State, id: nat): State
    requires id in s.flights && s.flights[id].request.Revoke?
  {
    var Revoke(userId, deviceId) := s.flights[id].request;
    match s.flights[id].phase
    case Started =>
      if deviceId !in s.devices || s.devices[deviceId].userId != userId then To(s, id, Done(Refused))
      else To(s, id, if s.devices[deviceId].revoked then Done(Revoked) else Revoking)
    case Revoking => To(s.(devices := RevokeOne(s.devices, deviceId)), id, Done(Revoked))
    case _ => s
  }

  ghost function Advance(s: State, id: nat, proved: bool): State
    requires id in s.flights
  {
    match s.flights[id].request
    case Register(_, _) => AdvanceRegister(s, id)
    case Link(_, _, _) => AdvanceLink(s, id, proved)
    case Revoke(_, _) => AdvanceRevoke(s, id)
  }

  ghost function Apply(s: State, e: Event): State {
    match e
    case Tick(ms) => s.(now := s.now + ms)
    case Login(sessionId, userId) =>
      if sessionId in s.sessions then s else s.(sessions := s.sessions[sessionId := Session(userId, None)])
    case Logout(sessionId) => s.(sessions := s.sessions - {sessionId})
    case Touch(deviceId) =>
      if deviceId in s.devices then s.(devices := s.devices[deviceId := s.devices[deviceId].(lastSeenAt := s.now)])
      else s
    case RetireUnseenSince(cutoff) => s.(devices := RevokeUnseen(s.devices, cutoff))
    case Arrive(id, request) => if id in s.flights then s else s.(flights := s.flights[id := Flight(request, Started)])
    case Step(id, proved) => if id in s.flights then Advance(s, id, proved) else s
  }

  ghost function Run(s: State, es: seq<Event>): State
    decreases |es|
  {
    if es == [] then s else Run(Apply(s, es[0]), es[1..])
  }

  const Nothing := State(0, map[], map[], map[], map[])

  // ---------------------------------------------------------------- what every reachable state satisfies

  /** Devices stay, with their owner, a revoked one stays revoked, and one last seen anew was seen just now. */
  predicate Lasts(now: int, before: map<string, Device>, after: map<string, Device>) {
    forall id | id in before ::
      && id in after && after[id].userId == before[id].userId && (before[id].revoked ==> after[id].revoked)
      && (after[id].lastSeenAt == before[id].lastSeenAt || after[id].lastSeenAt >= now)
  }

  predicate LoginsAreSound(s: State) {
    forall sid | sid in s.sessions && s.sessions[sid].chatDeviceId.Some? ::
      var deviceId := s.sessions[sid].chatDeviceId.value;
      deviceId in s.devices && s.devices[deviceId].userId == s.sessions[sid].userId
  }

  predicate Owns(devices: map<string, Device>, request: Request) {
    request.deviceId in devices && devices[request.deviceId].userId == request.userId
  }

  /**
   * There was room when the devices were counted; or there were ten, and the one given up is among them, is the
   * one unseen the longest of those still active when it was picked, and was unseen for the full idle time.
   */
  predicate IsFairEviction(
      victim: Option<string>, seen: map<string, int>, counted: set<string>, evictIdleBefore: int, now: int)
  {
    && evictIdleBefore <= now - CAP_EVICTION_MIN_IDLE_MS
    && (victim.None? ==> |counted| < MAX_ACTIVE_DEVICES_PER_USER)
    && (victim.Some? ==>
          |counted| == MAX_ACTIVE_DEVICES_PER_USER && seen.Keys <= counted
          && IsStalest(seen, victim.value) && seen[victim.value] < evictIdleBefore)
  }

  predicate PhaseIsSound(now: int, devices: map<string, Device>, request: Request, phase: Phase) {
    match phase
    case Started => true
    case Registering(cutoff) => request.Register? && cutoff <= now - CAP_EVICTION_MIN_IDLE_MS
    case Checking(cutoff) => request.Register? && cutoff <= now - CAP_EVICTION_MIN_IDLE_MS
    case Counting(cutoff) => request.Register? && cutoff <= now - CAP_EVICTION_MIN_IDLE_MS
    case Picking(cutoff, counted) =>
      request.Register? && cutoff <= now - CAP_EVICTION_MIN_IDLE_MS && |counted| == MAX_ACTIVE_DEVICES_PER_USER
    case Evicting(cutoff, counted, victim, seen) =>
      && request.Register? && IsFairEviction(victim, seen, counted, cutoff, now)
      && (victim.Some? ==>
            victim.value in devices && devices[victim.value].userId == request.userId
            && (devices[victim.value].lastSeenAt == seen[victim.value] || devices[victim.value].lastSeenAt >= cutoff))
    case Linking => request.Link? && Owns(devices, request)
    case Rereading => request.Link? && Owns(devices, request)
    case Judging(current) => request.Link? && Owns(devices, request) && current in devices
    case Relinking(current) => request.Link? && Owns(devices, request) && current in devices && devices[current].revoked
    case Revoking => request.Revoke? && Owns(devices, request)
    case Done(Revoked) => request.Revoke? && Owns(devices, request) && devices[request.deviceId].revoked
    case Done(_) => true
  }

  predicate FlightsAreSound(s: State) {
    forall id | id in s.flights :: PhaseIsSound(s.now, s.devices, s.flights[id].request, s.flights[id].phase)
  }

  /** The user's lock is held by exactly the registration inside its transaction. */
  predicate LocksAreExclusive(s: State) {
    && (forall userId | userId in s.registering :: s.registering[userId] in s.flights
          && HoldsLock(s.flights[s.registering[userId]].phase)
          && s.flights[s.registering[userId]].request.userId == userId)
    && (forall id | id in s.flights && HoldsLock(s.flights[id].phase) ::
          s.flights[id].request.userId in s.registering && s.registering[s.flights[id].request.userId] == id)
  }

  /** What a registration read last of its user's active devices. */
  function LastRead(phase: Phase): Option<set<string>> {
    match phase
    case Picking(_, counted) => Some(counted)
    case Evicting(_, counted, victim, seen) => Some(if victim.Some? then seen.Keys else counted)
    case _ => None
  }

  predicate ReadHolds(devices: map<string, Device>, flight: Flight) {
    LastRead(flight.phase).Some? ==> ActiveOf(devices, flight.request.userId) <= LastRead(flight.phase).value
  }

  /** While a registration holds the lock, its user gains no active device it has not read. */
  predicate ReadsHold(s: State) {
    forall id | id in s.flights :: ReadHolds(s.devices, s.flights[id])
  }

  ghost predicate CapHolds(devices: map<string, Device>) {
    forall userId :: |ActiveOf(devices, userId)| <= MAX_ACTIVE_DEVICES_PER_USER
  }

  ghost predicate Inv(s: State) {
    CapHolds(s.devices) && LoginsAreSound(s) && FlightsAreSound(s) && LocksAreExclusive(s) && ReadsHold(s)
  }

  // ---------------------------------------------------------------- steps that only wear devices out

  predicate NoNewActive(before: map<string, Device>, after: map<string, Device>) {
    forall id | id in after && !after[id].revoked ::
      id in before && !before[id].revoked && after[id].userId == before[id].userId
  }

  lemma WearKeeps(before: map<string, Device>, after: map<string, Device>)
    requires CapHolds(before) && NoNewActive(before, after)
    ensures CapHolds(after)
    ensures forall userId :: ActiveOf(after, userId) <= ActiveOf(before, userId)
  {
    forall userId
      ensures ActiveOf(after, userId) <= ActiveOf(before, userId)
        && |ActiveOf(after, userId)| <= |ActiveOf(before, userId)| {
      SubsetIsSmaller(ActiveOf(after, userId), ActiveOf(before, userId));
    }
  }

  lemma PhaseStaysSound(
      now: int, later: int, before: map<string, Device>, after: map<string, Device>, request: Request, phase: Phase)
    requires now <= later && Lasts(now, before, after) && PhaseIsSound(now, before, request, phase)
    ensures PhaseIsSound(later, after, request, phase)
  {
  }

  /** Devices change, nothing else does. */
  lemma DevicesStep(s: State, after: map<string, Device>)
    requires Inv(s) && Lasts(s.now, s.devices, after) && NoNewActive(s.devices, after)
    ensures Inv(s.(devices := after))
  {
    WearKeeps(s.devices, after);
    forall id | id in s.flights
      ensures PhaseIsSound(s.now, after, s.flights[id].request, s.flights[id].phase) && ReadHolds(after, s.flights[id])
    {
      PhaseStaysSound(s.now, s.now, s.devices, after, s.flights[id].request, s.flights[id].phase);
      assert ReadHolds(s.devices, s.flights[id]);
    }
  }

  // ---------------------------------------------------------------- one step of one request

  /**
   * A step outside registrations' transactions: only this request's phase, and perhaps a login or a device worn
   * out.
   */
  lemma PlainMove(s: State, id: nat, phase: Phase)
    requires Inv(s) && id in s.flights && !HoldsLock(s.flights[id].phase) && !HoldsLock(phase)
    requires PhaseIsSound(s.now, s.devices, s.flights[id].request, phase)
    ensures Inv(To(s, id, phase))
  {
  }

  /** A step inside one. */
  lemma LockedMove(s: State, id: nat, phase: Phase)
    requires Inv(s) && id in s.flights && HoldsLock(s.flights[id].phase) && HoldsLock(phase)
    requires PhaseIsSound(s.now, s.devices, s.flights[id].request, phase)
    requires ReadHolds(s.devices, Flight(s.flights[id].request, phase))
    ensures Inv(To(s, id, phase))
  {
  }

  /** What a link's step may do: move this request, and point its login at a device of the same user. */
  predicate Links(s: State, id: nat, next: State)
    requires id in s.flights
  {
    && id in next.flights && next == To(s.(sessions := next.sessions), id, next.flights[id].phase)
    && PhaseIsSound(s.now, s.devices, s.flights[id].request, next.flights[id].phase)
    && LoginsAreSound(s.(sessions := next.sessions))
    && !HoldsLock(s.flights[id].phase) && !HoldsLock(next.flights[id].phase)
  }

  lemma LinkPhase(s: State, id: nat, proved: bool)
    requires id in s.flights && s.flights[id].request.Link? && LoginsAreSound(s)
    requires PhaseIsSound(s.now, s.devices, s.flights[id].request, s.flights[id].phase)
    ensures Links(s, id, AdvanceLink(s, id, proved))
  {
    match s.flights[id].phase {
      case Linking =>
      case Relinking(current) =>
      case Started =>
      case Rereading =>
      case Judging(_) =>
      case _ =>
    }
  }

  lemma AdvanceLinkKeeps(s: State, id: nat, proved: bool)
    requires Inv(s) && id in s.flights && s.flights[id].request.Link?
    ensures Inv(AdvanceLink(s, id, proved))
  {
    assert PhaseIsSound(s.now, s.devices, s.flights[id].request, s.flights[id].phase);
    LinkPhase(s, id, proved);
    var next := AdvanceLink(s, id, proved);
    PlainMove(s.(sessions := next.sessions), id, next.flights[id].phase);
  }

  lemma AdvanceRevokeKeeps(s: State, id: nat)
    requires Inv(s) && id in s.flights && s.flights[id].request.Revoke?
    ensures Inv(AdvanceRevoke(s, id))
  {
    assert PhaseIsSound(s.now, s.devices, s.flights[id].request, s.flights[id].phase);
    if s.flights[id].phase.Revoking? {
      var after := RevokeOne(s.devices, s.flights[id].request.deviceId);
      DevicesStep(s, after);
      PlainMove(s.(devices := after), id, Done(Revoked));
    } else if s.flights[id].phase.Started? {
      PlainMove(s, id, AdvanceRevoke(s, id).flights[id].phase);
    }
  }

  lemma LockKeeps(s: State, id: nat)
    requires Inv(s) && id in s.flights && s.flights[id].request.Register? && s.flights[id].phase.Registering?
    ensures Inv(Lock(s, id))
  {
    assert PhaseIsSound(s.now, s.devices, s.flights[id].request, s.flights[id].phase);
  }

  lemma CountKeeps(s: State, id: nat)
    requires Inv(s) && id in s.flights && s.flights[id].phase.Counting?
    ensures Inv(CountActive(s, id))
  {
    assert PhaseIsSound(s.now, s.devices, s.flights[id].request, s.flights[id].phase);
    assert |ActiveOf(s.devices, s.flights[id].request.userId)| <= MAX_ACTIVE_DEVICES_PER_USER;
    LockedMove(s, id, CountActive(s, id).flights[id].phase);
  }

  lemma PickKeeps(s: State, id: nat)
    requires Inv(s) && id in s.flights && s.flights[id].phase.Picking?
    ensures Inv(PickStalest(s, id))
  {
    assert PhaseIsSound(s.now, s.devices, s.flights[id].request, s.flights[id].phase)
      && ReadHolds(s.devices, s.flights[id]);
    if PickStalest(s, id) == GiveUp(s, id) {
      GiveUpKeeps(s, id);
    } else {
      LockedMove(s, id, PickStalest(s, id).flights[id].phase);
    }
  }

  lemma GiveUpKeeps(s: State, id: nat)
    requires Inv(s) && id in s.flights && HoldsLock(s.flights[id].phase)
    ensures Inv(GiveUp(s, id))
  {
    UnlockKeeps(s, id, s.devices, Done(Refused));
  }

  lemma AddedIs(devices: map<string, Device>, userId: string, deviceId: string, now: int, other: string)
    requires deviceId !in devices
    ensures ActiveOf(devices[deviceId := Device(userId, now, false)], other) ==
      if other == userId then ActiveOf(devices, other) + {deviceId} else ActiveOf(devices, other)
  {
  }

  lemma EvictedMakesRoom(
    before: map<string, Device>, victim: Option<string>, seen: map<string, int>, counted: set<string>, cutoff: int,
      now: int, userId: string)
    requires IsFairEviction(victim, seen, counted, cutoff, now)
    requires ActiveOf(before, userId) <= if victim.Some? then seen.Keys else counted
    ensures |ActiveOf(Evicted(before, victim), userId)| < MAX_ACTIVE_DEVICES_PER_USER
    ensures NoNewActive(before, Evicted(before, victim)) && Evicted(before, victim).Keys == before.Keys
  {
    var left := if victim.None? then counted else counted - {victim.value};
    SubsetIsSmaller(ActiveOf(Evicted(before, victim), userId), left);
  }

  lemma RoomForOneMore(
      before: map<string, Device>, evicted: map<string, Device>, now: int, userId: string, deviceId: string)
    requires CapHolds(before) && deviceId !in evicted && NoNewActive(before, evicted)
    requires |ActiveOf(evicted, userId)| < MAX_ACTIVE_DEVICES_PER_USER
    ensures CapHolds(evicted[deviceId := Device(userId, now, false)])
    ensures forall other | other != userId ::
      ActiveOf(evicted[deviceId := Device(userId, now, false)], other) <= ActiveOf(before, other)
  {
    WearKeeps(before, evicted);
    var after := evicted[deviceId := Device(userId, now, false)];
    forall other
      ensures |ActiveOf(after, other)| <= MAX_ACTIVE_DEVICES_PER_USER
      ensures (other != userId ==> ActiveOf(after, other) <= ActiveOf(before, other))
    {
      AddedIs(evicted, userId, deviceId, now, other);
      assert |ActiveOf(evicted, other)| <= MAX_ACTIVE_DEVICES_PER_USER;
    }
  }

  lemma CreateDeviceKeeps(s: State, id: nat)
    requires Inv(s) && id in s.flights && s.flights[id].request.Register? && s.flights[id].phase.Evicting?
    ensures Inv(CreateDevice(s, id))
  {
    var Register(userId, deviceId) := s.flights[id].request;
    var Evicting(cutoff, counted, victim, seen) := s.flights[id].phase;
    assert PhaseIsSound(s.now, s.devices, s.flights[id].request, s.flights[id].phase)
      && ReadHolds(s.devices, s.flights[id]);
    var next := CreateDevice(s, id);
    if deviceId !in s.devices {
      EvictedMakesRoom(s.devices, victim, seen, counted, cutoff, s.now, userId);
      RoomForOneMore(s.devices, Evicted(s.devices, victim), s.now, userId, deviceId);
      assert Lasts(s.now, s.devices, next.devices);
    }
    UnlockKeeps(s, id, next.devices, next.flights[id].phase);
  }

  lemma UnlockKeeps(s: State, id: nat, devices: map<string, Device>, phase: Phase)
    requires Inv(s) && id in s.flights && HoldsLock(s.flights[id].phase)
    requires phase == Done(Refused) || phase == Done(Created)
    requires CapHolds(devices) && Lasts(s.now, s.devices, devices)
    requires forall other | other != s.flights[id].request.userId ::
      ActiveOf(devices, other) <= ActiveOf(s.devices, other)
    ensures Inv(To(s.(registering := s.registering - {s.flights[id].request.userId}, devices := devices), id, phase))
  {
    UnlockKeepsFlights(s, id, devices, phase);
    UnlockKeepsReads(s, id, devices, phase);
  }

  lemma UnlockKeepsFlights(s: State, id: nat, devices: map<string, Device>, phase: Phase)
    requires FlightsAreSound(s) && id in s.flights && (phase == Done(Refused) || phase == Done(Created))
    requires Lasts(s.now, s.devices, devices)
    ensures FlightsAreSound(To(s.(devices := devices), id, phase))
  {
    forall other | other in s.flights && other != id
      ensures PhaseIsSound(s.now, devices, s.flights[other].request, s.flights[other].phase) {
      PhaseStaysSound(s.now, s.now, s.devices, devices, s.flights[other].request, s.flights[other].phase);
    }
  }

  lemma UnlockKeepsReads(s: State, id: nat, devices: map<string, Device>, phase: Phase)
    requires ReadsHold(s) && id in s.flights && !HoldsLock(phase)
    requires forall other | other != s.flights[id].request.userId ::
      ActiveOf(devices, other) <= ActiveOf(s.devices, other)
    requires forall other | other in s.flights && other != id && HoldsLock(s.flights[other].phase) ::
      s.flights[other].request.userId != s.flights[id].request.userId
    ensures ReadsHold(To(s.(devices := devices), id, phase))
  {
    forall other | other in s.flights && other != id ensures ReadHolds(devices, s.flights[other]) {
      assert ReadHolds(s.devices, s.flights[other]);
      if HoldsLock(s.flights[other].phase) {
        assert
          ActiveOf(devices, s.flights[other].request.userId) <= ActiveOf(s.devices, s.flights[other].request.userId);
      }
    }
  }

  lemma CheckKeeps(s: State, id: nat)
    requires Inv(s) && id in s.flights && s.flights[id].request.Register? && s.flights[id].phase.Checking?
    ensures Inv(AdvanceRegister(s, id))
  {
    if s.flights[id].request.deviceId in s.devices {
      GiveUpKeeps(s, id);
    } else {
      assert PhaseIsSound(s.now, s.devices, s.flights[id].request, s.flights[id].phase);
      LockedMove(s, id, Counting(s.flights[id].phase.evictIdleBefore));
    }
  }

  lemma AdvanceRegisterKeeps(s: State, id: nat)
    requires Inv(s) && id in s.flights && s.flights[id].request.Register?
    ensures Inv(AdvanceRegister(s, id))
  {
    match s.flights[id].phase {
      case Started => PlainMove(s, id, Registering(s.now - CAP_EVICTION_MIN_IDLE_MS));
      case Registering(_) => LockKeeps(s, id);
      case Checking(_) => CheckKeeps(s, id);
      case Counting(_) => CountKeeps(s, id);
      case Picking(_, _) => PickKeeps(s, id);
      case Evicting(_, _, _, _) => CreateDeviceKeeps(s, id);
      case _ =>
    }
  }

  lemma TickKeeps(s: State, ms: nat)
    requires Inv(s)
    ensures Inv(s.(now := s.now + ms))
  {
    forall id | id in s.flights
      ensures PhaseIsSound(s.now + ms, s.devices, s.flights[id].request, s.flights[id].phase) {
      PhaseStaysSound(s.now, s.now + ms, s.devices, s.devices, s.flights[id].request, s.flights[id].phase);
    }
  }

  lemma StepKeeps(s: State, id: nat, proved: bool)
    requires Inv(s) && id in s.flights
    ensures Inv(Advance(s, id, proved))
  {
    match s.flights[id].request {
      case Register(_, _) => AdvanceRegisterKeeps(s, id);
      case Link(_, _, _) => AdvanceLinkKeeps(s, id, proved);
      case Revoke(_, _) => AdvanceRevokeKeeps(s, id);
    }
  }

  lemma WearStep(s: State, e: Event)
    requires Inv(s) && (e.Touch? || e.RetireUnseenSince?)
    ensures Inv(Apply(s, e))
  {
    DevicesStep(s, Apply(s, e).devices);
  }

  lemma ApplyKeeps(s: State, e: Event)
    requires Inv(s)
    ensures Inv(Apply(s, e))
  {
    match e {
      case Tick(ms) => TickKeeps(s, ms);
      case Login(_, _) =>
      case Logout(_) =>
      case Touch(_) => WearStep(s, e);
      case RetireUnseenSince(_) => WearStep(s, e);
      case Arrive(id, request) =>
      case Step(id, proved) => if id in s.flights { StepKeeps(s, id, proved); }
    }
  }

  lemma {:induction false} RunKeeps(s: State, es: seq<Event>)
    requires Inv(s)
    ensures Inv(Run(s, es))
    decreases |es|
  {
    if es != [] {
      ApplyKeeps(s, es[0]);
      RunKeeps(Apply(s, es[0]), es[1..]);
    }
  }

  lemma ReachableIsSound(es: seq<Event>)
    ensures Inv(Run(Nothing, es))
  {
    forall userId: string ensures ActiveOf(map[], userId) == {} { }
    RunKeeps(Nothing, es);
  }
}
