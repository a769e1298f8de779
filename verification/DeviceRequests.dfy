/** What registering, linking and revoking come to when nothing interrupts them. */
module DeviceRequests {
  import opened Common
  import opened Devices
  import opened DeviceRules

  /** So many steps of one request. */
  ghost function Steps(s: State, id: nat, proved: bool, n: nat): State {
    if n == 0 then s else Apply(Steps(s, id, proved, n - 1), Step(id, proved))
  }

  function Repeated(id: nat, proved: bool, n: nat): seq<Event> {
    if n == 0 then [] else Repeated(id, proved, n - 1) + [Step(id, proved)]
  }

  lemma {:induction false} RunRepeats(s: State, id: nat, proved: bool, n: nat)
    ensures Run(s, Repeated(id, proved, n)) == Steps(s, id, proved, n)
  {
    if n > 0 {
      RunRepeats(s, id, proved, n - 1);
      RunSnoc(s, Repeated(id, proved, n - 1), Step(id, proved));
    }
  }

  /** A request from its arrival on, for so many steps, with nothing else running. */
  ghost function Alone(s: State, id: nat, request: Request, proved: bool, n: nat): State {
    Run(Apply(s, Arrive(id, request)), Repeated(id, proved, n))
  }

  lemma AloneIsSteps(s: State, id: nat, request: Request, proved: bool, n: nat)
    ensures Alone(s, id, request, proved, n) == Steps(Apply(s, Arrive(id, request)), id, proved, n)
  {
    RunRepeats(Apply(s, Arrive(id, request)), id, proved, n);
  }

  /** Answered, with these devices and logins, and the user's lock free. */
  predicate Answers(
      after: State, id: nat, outcome: Outcome, devices: map<string, Device>, sessions: map<string, Session>)
  {
    && id in after.flights && after.flights[id].phase == Done(outcome)
    && after.devices == devices && after.sessions == sessions
  }

  predicate IsStalestOf(devices: map<string, Device>, userId: string, victim: string) {
    && IsActive(devices, userId, victim)
    && forall other | other in devices && IsActive(devices, userId, other) ::
         devices[victim].lastSeenAt <= devices[other].lastSeenAt
  }

  /** What a registration comes to: refused, created in a free place, or in that of the user's stalest device. */
  ghost predicate Registers(s: State, after: State, id: nat, userId: string, deviceId: string) {
    var created := Device(userId, s.now, false);
    var active := set d | d in s.devices && s.devices[d].userId == userId && !s.devices[d].revoked;
    if deviceId in s.devices then Answers(after, id, Refused, s.devices, s.sessions)
    else if |active| < 10 then Answers(after, id, Created, s.devices[deviceId := created], s.sessions)
    else TakesOver(s, after, id, userId, deviceId)
  }

  lemma AnsweredStays(s: State, id: nat, proved: bool)
    requires id in s.flights && s.flights[id].phase.Done?
    ensures Apply(s, Step(id, proved)) == s
  {
  }

  /** Once answered, however many more steps change nothing. */
  lemma {:induction false} AnsweredStaysSo(s: State, id: nat, proved: bool, k: nat, n: nat)
    requires k <= n && id in Steps(s, id, proved, k).flights && Steps(s, id, proved, k).flights[id].phase.Done?
    ensures Steps(s, id, proved, n) == Steps(s, id, proved, k)
  {
    if k < n {
      AnsweredStaysSo(s, id, proved, k, n - 1);
      AnsweredStays(Steps(s, id, proved, n - 1), id, proved);
    }
  }

  lemma RegisterAlone(s: State, id: nat, userId: string, deviceId: string)
    requires id !in s.flights && userId !in s.registering
    ensures
      var after := Alone(s, id, Register(userId, deviceId), true, 6);
      Registers(s, after, id, userId, deviceId) && after.registering == s.registering
  {
    AloneIsSteps(s, id, Register(userId, deviceId), true, 6);
    var arrived := Apply(s, Arrive(id, Register(userId, deviceId)));
    var checking := RegistrationStarts(s, id, userId, deviceId);
    var checked := Steps(arrived, id, true, 3);
    assert checked == Apply(checking, Step(id, true));
    if deviceId in s.devices {
      assert checked == GiveUp(checking, id);
      AnsweredStaysSo(arrived, id, true, 3, 6);
      assert checking.registering - {userId} == s.registering;
    } else {
      CountedIs(s, checking, checked, id);
      var counted := Steps(arrived, id, true, 4);
      if counted.flights[id].phase.Evicting? {
        FreePlaceIsTaken(s, counted, Steps(arrived, id, true, 5), id);
        AnsweredStaysSo(arrived, id, true, 5, 6);
      } else {
        PlaceIsTakenOver(s, counted, Steps(arrived, id, true, 5), Steps(arrived, id, true, 6), id);
        if Steps(arrived, id, true, 5).flights[id].phase.Done? { AnsweredStaysSo(arrived, id, true, 5, 6); }
      }
    }
  }

  /** Nothing has changed but the request's phase and its user's lock. */
  predicate OnlyWaits(s: State, now: State, id: nat, userId: string, deviceId: string) {
    && id in now.flights && now.flights[id].request == Register(userId, deviceId)
    && now.devices == s.devices && now.sessions == s.sessions && now.now == s.now
    && userId !in s.registering && now.registering == s.registering[userId := id]
  }

  function IdleSince(s: State): int { s.now - 14 * 24 * 60 * 60 * 1000 }

  lemma RegistrationStarts(s: State, id: nat, userId: string, deviceId: string) returns (checking: State)
    requires id !in s.flights && userId !in s.registering
    ensures checking == Steps(Apply(s, Arrive(id, Register(userId, deviceId))), id, true, 2)
    ensures OnlyWaits(s, checking, id, userId, deviceId) && checking.flights[id].phase == Checking(IdleSince(s))
  {
    var arrived := Apply(s, Arrive(id, Register(userId, deviceId)));
    var started := Apply(arrived, Step(id, true));
    checking := Apply(started, Step(id, true));
    assert Steps(arrived, id, true, 1) == Apply(Steps(arrived, id, true, 0), Step(id, true)) == started;
  }

  lemma CountedIs(s: State, checking: State, checked: State, id: nat)
    requires id in checking.flights && checking.flights[id].request.Register?
    requires
      var Register(userId, deviceId) := checking.flights[id].request;
      OnlyWaits(s, checking, id, userId, deviceId) && deviceId !in s.devices
    requires checking.flights[id].phase == Checking(IdleSince(s)) && checked == Apply(checking, Step(id, true))
    ensures
      var Register(userId, deviceId) := checking.flights[id].request;
      var active := set d | d in s.devices && s.devices[d].userId == userId && !s.devices[d].revoked;
      var counted := Apply(checked, Step(id, true));
      && OnlyWaits(s, counted, id, userId, deviceId)
      && counted.flights[id].phase ==
           if |active| < 10 then Evicting(IdleSince(s), active, None, map[]) else Picking(IdleSince(s), active)
  {
    var userId := checking.flights[id].request.userId;
    assert ActiveOf(s.devices, userId) ==
      set d | d in s.devices && s.devices[d].userId == userId && !s.devices[d].revoked;
  }

  lemma FreePlaceIsTaken(s: State, counted: State, after: State, id: nat)
    requires id in counted.flights && counted.flights[id].request.Register?
    requires
      var Register(userId, deviceId) := counted.flights[id].request;
      OnlyWaits(s, counted, id, userId, deviceId) && deviceId !in s.devices
    requires counted.flights[id].phase.Evicting? && counted.flights[id].phase.victim.None?
    requires after == Apply(counted, Step(id, true))
    ensures
      var Register(userId, deviceId) := counted.flights[id].request;
      && Answers(after, id, Created, s.devices[deviceId := Device(userId, s.now, false)], s.sessions)
      && after.registering == s.registering
  {
    var userId := counted.flights[id].request.userId;
    assert counted.registering - {userId} == s.registering;
  }

  lemma StalestIs(devices: map<string, Device>, userId: string)
    requires ActiveOf(devices, userId) != {}
    ensures
      var seen := LastSeen(devices, userId);
      && seen != map[] && IsStalestOf(devices, userId, Stalest(seen))
      && seen[Stalest(seen)] == devices[Stalest(seen)].lastSeenAt
  {
    var seen := LastSeen(devices, userId);
    assert seen.Keys == ActiveOf(devices, userId);
    var some :| some in ActiveOf(devices, userId);
    assert some in seen;
    var victim := Stalest(seen);
    forall other | other in devices && IsActive(devices, userId, other)
      ensures devices[victim].lastSeenAt <= devices[other].lastSeenAt
    {
      assert other in seen && seen[other] == devices[other].lastSeenAt;
    }
  }

  lemma PlaceIsTakenOver(s: State, counted: State, picked: State, after: State, id: nat)
    requires id in counted.flights && counted.flights[id].request.Register?
    requires
      var Register(userId, deviceId) := counted.flights[id].request;
      OnlyWaits(s, counted, id, userId, deviceId) && deviceId !in s.devices
    requires counted.flights[id].phase.Picking? && counted.flights[id].phase.evictIdleBefore == IdleSince(s)
    requires |ActiveOf(s.devices, counted.flights[id].request.userId)| >= 10
    requires picked == Apply(counted, Step(id, true)) && after == Apply(picked, Step(id, true))
    ensures
      var Register(userId, deviceId) := counted.flights[id].request;
      && id in picked.flights && TakesOver(s, after, id, userId, deviceId) && after.registering == s.registering
  {
    var Register(userId, deviceId) := counted.flights[id].request;
    StalestIs(s.devices, userId);
    var victim := Stalest(LastSeen(s.devices, userId));
    StalestIsPicked(s, counted, picked, id);
    if picked.flights[id].phase.Done? {
      AnsweredStays(picked, id, true);
    } else {
      VictimGoes(s, picked, after, id, victim);
    }
    assert IsStalestOf(s.devices, userId, victim);
  }

  lemma StalestIsPicked(s: State, counted: State, picked: State, id: nat)
    requires id in counted.flights && counted.flights[id].request.Register?
    requires
      var Register(userId, deviceId) := counted.flights[id].request;
      && OnlyWaits(s, counted, id, userId, deviceId)
      && ActiveOf(s.devices, userId) != {} && LastSeen(s.devices, userId) != map[]
    requires counted.flights[id].phase.Picking? && counted.flights[id].phase.evictIdleBefore == IdleSince(s)
    requires picked == Apply(counted, Step(id, true))
    ensures
      var Register(userId, deviceId) := counted.flights[id].request;
      var victim := Stalest(LastSeen(s.devices, userId));
      && victim in s.devices && id in picked.flights
      && if s.devices[victim].lastSeenAt >= IdleSince(s) then
           Answers(picked, id, Refused, s.devices, s.sessions) && picked.registering == s.registering
         else
           && OnlyWaits(s, picked, id, userId, deviceId)
           && picked.flights[id].phase.Evicting? && picked.flights[id].phase.victim == Some(victim)
  {
    var userId := counted.flights[id].request.userId;
    StalestIs(s.devices, userId);
    assert counted.registering - {userId} == s.registering;
  }

  lemma VictimGoes(s: State, picked: State, after: State, id: nat, victim: string)
    requires id in picked.flights && picked.flights[id].request.Register?
    requires
      var Register(userId, deviceId) := picked.flights[id].request;
      OnlyWaits(s, picked, id, userId, deviceId) && deviceId !in s.devices
    requires picked.flights[id].phase.Evicting? && picked.flights[id].phase.victim == Some(victim)
    requires victim in s.devices
    requires after == Apply(picked, Step(id, true))
    ensures
      var Register(userId, deviceId) := picked.flights[id].request;
      var retired := s.devices[victim := s.devices[victim].(revoked := true)];
      && Answers(after, id, Created, retired[deviceId := Device(userId, s.now, false)], s.sessions)
      && after.registering == s.registering
  {
    var userId := picked.flights[id].request.userId;
    assert picked.registering - {userId} == s.registering;
  }

  /** The answer once there are ten. */
  ghost predicate TakesOver(s: State, after: State, id: nat, userId: string, deviceId: string) {
    exists victim | IsStalestOf(s.devices, userId, victim) ::
      if s.devices[victim].lastSeenAt >= s.now - 14 * 24 * 60 * 60 * 1000 then
        Answers(after, id, Refused, s.devices, s.sessions)
      else
        var retired := s.devices[victim := s.devices[victim].(revoked := true)];
        Answers(after, id, Created, retired[deviceId := Device(userId, s.now, false)], s.sessions)
  }

  // ---------------------------------------------------------------- linking a login

  /** What a link comes to, seen from its first step on. */
  predicate Links(s: State, after: State, id: nat, request: Request, proved: bool)
    requires request.Link?
  {
    var Link(userId, deviceId, sessionId) := request;
    var linked := s.sessions[sessionId := Session(userId, Some(deviceId))];
    if !(deviceId in s.devices && s.devices[deviceId].userId == userId && !s.devices[deviceId].revoked && proved) then
      Answers(after, id, Refused, s.devices, s.sessions)
    else if sessionId !in s.sessions || s.sessions[sessionId].userId != userId then
      Answers(after, id, Refused, s.devices, s.sessions)
    else
      match s.sessions[sessionId].chatDeviceId
      case None => Answers(after, id, Linked, s.devices, linked)
      case Some(current) =>
        if current == deviceId then Answers(after, id, Linked, s.devices, s.sessions)
        else if current in s.devices && !s.devices[current].revoked then
          Answers(after, id, Refused, s.devices, s.sessions)
        else Answers(after, id, Linked, s.devices, linked)
  }

  lemma LinkAlone(s: State, id: nat, userId: string, deviceId: string, sessionId: string, proved: bool)
    requires id !in s.flights
    ensures
      var request := Link(userId, deviceId, sessionId);
      Links(s, Alone(s, id, request, proved, 5), id, request, proved)
  {
    var request := Link(userId, deviceId, sessionId);
    AloneIsSteps(s, id, request, proved, 5);
    var arrived := Apply(s, Arrive(id, request));
    var tried := Steps(arrived, id, proved, 2);
    assert Steps(arrived, id, proved, 1) == Apply(Steps(arrived, id, proved, 0), Step(id, proved));
    if tried.flights[id].phase.Done? {
      AnsweredStaysSo(arrived, id, proved, 2, 5);
    } else {
      LinkRereads(s, tried, id, proved);
      var reread := Steps(arrived, id, proved, 3);
      if reread.flights[id].phase.Done? {
        AnsweredStaysSo(arrived, id, proved, 3, 5);
      } else {
        LinkMoves(s, reread, id, proved);
        var judged := Steps(arrived, id, proved, 4);
        if judged.flights[id].phase.Done? { AnsweredStaysSo(arrived, id, proved, 4, 5); }
      }
    }
  }

  predicate IsTrying(s: State, now: State, id: nat, phase: Phase) {
    && id in now.flights && now.flights[id].request.Link? && now.flights[id].phase == phase
    && now.devices == s.devices && now.sessions == s.sessions
  }

  lemma LinkRereads(s: State, tried: State, id: nat, proved: bool)
    requires IsTrying(s, tried, id, Rereading)
    ensures
      var Link(userId, deviceId, sessionId) := tried.flights[id].request;
      var next := Apply(tried, Step(id, proved));
      if sessionId !in s.sessions || s.sessions[sessionId].userId != userId || s.sessions[sessionId].chatDeviceId.None?
      then Answers(next, id, Refused, s.devices, s.sessions)
      else if s.sessions[sessionId].chatDeviceId == Some(deviceId) then Answers(next, id, Linked, s.devices, s.sessions)
      else
        && IsTrying(s, next, id, Judging(s.sessions[sessionId].chatDeviceId.value))
        && next.flights[id].request == tried.flights[id].request
  {
  }

  lemma LinkMoves(s: State, reread: State, id: nat, proved: bool)
    requires id in reread.flights && reread.flights[id].phase.Judging?
    requires IsTrying(s, reread, id, Judging(reread.flights[id].phase.current))
    requires
      var Link(userId, _, sessionId) := reread.flights[id].request;
      sessionId in s.sessions && s.sessions[sessionId] == Session(userId, Some(reread.flights[id].phase.current))
    ensures
      var Link(userId, deviceId, sessionId) := reread.flights[id].request;
      var current := reread.flights[id].phase.current;
      var judged := Apply(reread, Step(id, proved));
      var after := Apply(judged, Step(id, proved));
      && id in judged.flights
      && if current in s.devices && !s.devices[current].revoked then
           Answers(judged, id, Refused, s.devices, s.sessions)
         else
           && !judged.flights[id].phase.Done?
           && Answers(after, id, Linked, s.devices, s.sessions[sessionId := Session(userId, Some(deviceId))])
  {
  }

  // ---------------------------------------------------------------- revoking, and what else there is

  lemma RevokeAlone(s: State, id: nat, userId: string, deviceId: string, proved: bool)
    requires id !in s.flights
    ensures
      var after := Alone(s, id, Revoke(userId, deviceId), proved, 2);
      if deviceId !in s.devices || s.devices[deviceId].userId != userId then
        Answers(after, id, Refused, s.devices, s.sessions)
      else
        Answers(after, id, Revoked, s.devices[deviceId := s.devices[deviceId].(revoked := true)], s.sessions)
  {
    AloneIsSteps(s, id, Revoke(userId, deviceId), proved, 2);
    var arrived := Apply(s, Arrive(id, Revoke(userId, deviceId)));
    assert Steps(arrived, id, proved, 1) == Apply(Steps(arrived, id, proved, 0), Step(id, proved));
    if deviceId in s.devices && s.devices[deviceId].revoked {
      assert s.devices == s.devices[deviceId := s.devices[deviceId].(revoked := true)];
    }
  }

  /** Logins come and go, and devices are seen, one at a time. */
  lemma LoginsComeAndGo(s: State, sessionId: string, userId: string, deviceId: string)
    ensures
      Apply(s, Login(sessionId, userId)).sessions ==
        if sessionId in s.sessions then s.sessions else s.sessions[sessionId := Session(userId, None)]
    ensures
      var gone := Apply(s, Logout(sessionId)).sessions;
      sessionId !in gone && gone.Keys == s.sessions.Keys - {sessionId}
      && forall other | other in gone :: gone[other] == s.sessions[other]
    ensures
      Apply(s, Touch(deviceId)).devices ==
        if deviceId in s.devices then s.devices[deviceId := s.devices[deviceId].(lastSeenAt := s.now)] else s.devices
  {
  }
}
