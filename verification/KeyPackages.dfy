/**
 * Claiming single-use key packages: any number of claimers, each a loop of "find the oldest one left"
 * and "claim it if it still is", and then "read it back", between uploads, revocations, the removal of expired
 * packages and the passing of time.
 */
module KeyPackages {
  import opened Common

  const MAX_CLAIM_ATTEMPTS := 1000

  datatype Kind = SINGLE_USE | LAST_RESORT

  /** `claimedBy` is the claim that got it. */
  datatype KeyPackage = KeyPackage(deviceId: string, kind: Kind, createdAt: int, expiresAt: int, claimedBy: Option<nat>)

  /** `deleted` is what the removal of expired packages took away, as it was then; ids are never used again. */
  datatype Pool = Pool(packages: map<nat, KeyPackage>, deleted: map<nat, KeyPackage>, revoked: set<string>)

  /** Every package there is or was. */
  function Known(pool: Pool): map<nat, KeyPackage> { pool.deleted + pool.packages }

  predicate PoolIsSound(pool: Pool) { pool.packages.Keys !! pool.deleted.Keys }

  /** `deleteExpiredKeyPackages`. */
  function DeleteExpired(pool: Pool, now: int): Pool {
    var kept := map id | id in pool.packages && pool.packages[id].expiresAt >= now :: pool.packages[id];
    pool.(packages := kept, deleted := Known(pool) - kept.Keys)
  }

  predicate IsClaimable(pool: Pool, deviceId: string, id: nat) {
    && id in pool.packages
    && pool.packages[id].deviceId == deviceId && pool.packages[id].kind.SINGLE_USE?
    && pool.packages[id].claimedBy.None? && deviceId !in pool.revoked
  }

  /** What a claimer looks for: claimable, unexpired and not tried yet. */
  predicate IsCandidate(pool: Pool, deviceId: string, now: int, tried: seq<nat>, id: nat) {
    IsClaimable(pool, deviceId, id) && pool.packages[id].expiresAt > now && id !in tried
  }

  function Candidates(pool: Pool, deviceId: string, now: int, tried: seq<nat>): set<nat> {
    set id | id in pool.packages && IsCandidate(pool, deviceId, now, tried, id)
  }

  predicate IsOldest(pool: Pool, ids: set<nat>, id: nat)
    requires forall i | i in ids :: i in pool.packages
  {
    id in ids && forall other | other in ids :: pool.packages[id].createdAt <= pool.packages[other].createdAt
  }

  lemma {:induction false} OldestExists(pool: Pool, ids: set<nat>) returns (oldest: nat)
    requires ids != {} && forall i | i in ids :: i in pool.packages
    ensures IsOldest(pool, ids, oldest)
    decreases |ids|
  {
    var some :| some in ids;
    if ids == {some} {
      oldest := some;
    } else {
      var rest := OldestExists(pool, ids - {some});
      oldest := if pool.packages[some].createdAt <= pool.packages[rest].createdAt then some else rest;
      forall other | other in ids ensures pool.packages[oldest].createdAt <= pool.packages[other].createdAt {
        assert other == some || other in ids - {some};
      }
    }
  }

  /** `findFirst .. ORDER BY createdAt`; which of equally old ones is the database's choice. */
  ghost function FindCandidate(pool: Pool, deviceId: string, now: int, tried: seq<nat>): (found: Option<nat>)
    ensures found.Some? ==> found.value in Candidates(pool, deviceId, now, tried)
    ensures found.Some? ==> IsOldest(pool, Candidates(pool, deviceId, now, tried), found.value)
    ensures found.None? <==> Candidates(pool, deviceId, now, tried) == {}
  {
    var ids := Candidates(pool, deviceId, now, tried);
    if ids == {} then None
    else
      assert exists id :: IsOldest(pool, ids, id) by {
        var id := OldestExists(pool, ids);
        assert IsOldest(pool, ids, id);
      }
      var id :| IsOldest(pool, ids, id);
      Some(id)
  }

  function ClaimOf(pool: Pool, id: nat, by_: nat): Pool
    requires id in pool.packages
  {
    pool.(packages := pool.packages[id := pool.packages[id].(claimedBy := Some(by_))])
  }

  // ---------------------------------------------------------------- any number of claims

  datatype Phase =
    | Looking(tried: seq<nat>)
    | Claiming(candidate: nat, lookedAt: int, tried: seq<nat>)
    | Fetching(claimed: nat, tried: seq<nat>)
    | Done(got: Option<nat>, tried: seq<nat>)

  datatype Claim = Claim(deviceId: string, phase: Phase)

  datatype State = State(now: int, pool: Pool, claims: map<nat, Claim>)

  datatype Event =
    | Tick(ms: nat)
    | Upload(id: nat, deviceId: string, kind: Kind, createdAt: int, expiresAt: int)
    | Revoke(deviceId: string)
    | RemoveExpired
    | Begin(id: nat, deviceId: string)
    | Step(id: nat)

  function To(s: State, id: nat, phase: Phase): State
    requires id in s.claims
  {
    s.(claims := s.claims[id := s.claims[id].(phase := phase)])
  }

  ghost function Advance(s: State, id: nat): State
    requires id in s.claims
  {
    match s.claims[id].phase
    case Looking(tried) =>
      if |tried| >= MAX_CLAIM_ATTEMPTS then To(s, id, Done(None, tried))
      else
        var found := FindCandidate(s.pool, s.claims[id].deviceId, s.now, tried);
        To(s, id, if found.None? then Done(None, tried) else Claiming(found.value, s.now, tried))
    case Claiming(candidate, _, tried) =>
      if candidate in s.pool.packages && s.pool.packages[candidate].claimedBy.None?
        && s.pool.packages[candidate].deviceId !in s.pool.revoked
      then To(s.(pool := ClaimOf(s.pool, candidate, id)), id, Fetching(candidate, tried))
      else To(s, id, Looking(tried + [candidate]))
    case Fetching(claimed, tried) =>
      To(s, id, Done(if claimed in s.pool.packages then Some(claimed) else None, tried))
    case Done(_, _) => s
  }

  ghost function Apply(s: State, e: Event): State {
    match e
    case Tick(ms) => s.(now := s.now + ms)
    case Upload(id, deviceId, kind, createdAt, expiresAt) =>
      if id in Known(s.pool) then s
      else
        var package := KeyPackage(deviceId, kind, createdAt, expiresAt, None);
        s.(pool := s.pool.(packages := s.pool.packages[id := package]))
    case Revoke(deviceId) => s.(pool := s.pool.(revoked := s.pool.revoked + {deviceId}))
    case RemoveExpired => s.(pool := DeleteExpired(s.pool, s.now))
    case Begin(id, deviceId) => if id in s.claims then s else s.(claims := s.claims[id := Claim(deviceId, Looking([]))])
    case Step(id) => if id in s.claims then Advance(s, id) else s
  }

  ghost function Run(s: State, es: seq<Event>): State
    decreases |es|
  {
    if es == [] then s else Run(Apply(s, es[0]), es[1..])
  }

  const Nothing := State(0, Pool(map[], map[], {}), map[])

  predicate NoRepeats(ids: seq<nat>) {
    forall j, k | 0 <= j < k < |ids| :: ids[j] != ids[k]
  }

  /** It is this claim's package, of the device it is for. */
  predicate IsItsOwn(s: State, claim: nat, id: nat)
    requires claim in s.claims
  {
    && id in Known(s.pool) && Known(s.pool)[id].claimedBy == Some(claim)
    && Known(s.pool)[id].deviceId == s.claims[claim].deviceId && Known(s.pool)[id].kind.SINGLE_USE?
  }

  predicate ClaimIsSound(s: State, id: nat)
    requires id in s.claims
  {
    match s.claims[id].phase
    case Looking(tried) => NoRepeats(tried) && |tried| <= MAX_CLAIM_ATTEMPTS
    case Claiming(candidate, lookedAt, tried) =>
      && NoRepeats(tried) && |tried| < MAX_CLAIM_ATTEMPTS && candidate !in tried && lookedAt <= s.now
      && candidate in Known(s.pool) && Known(s.pool)[candidate].deviceId == s.claims[id].deviceId
      && Known(s.pool)[candidate].kind.SINGLE_USE? && Known(s.pool)[candidate].expiresAt > lookedAt
    case Fetching(claimed, tried) =>
      NoRepeats(tried) && |tried| < MAX_CLAIM_ATTEMPTS && claimed !in tried && IsItsOwn(s, id, claimed)
    case Done(got, tried) =>
      && NoRepeats(tried) && |tried| <= MAX_CLAIM_ATTEMPTS
      && (got.Some? ==> got.value !in tried && IsItsOwn(s, id, got.value))
  }

  predicate DeletedWereExpired(s: State) {
    forall id | id in s.pool.deleted :: s.pool.deleted[id].expiresAt < s.now
  }

  predicate Inv(s: State) {
    && PoolIsSound(s.pool) && DeletedWereExpired(s)
    && forall id | id in s.claims :: ClaimIsSound(s, id)
  }

  /** No package changes but for being claimed, and a claimed one stays with its claim. */
  predicate Remembers(before: Pool, after: Pool) {
    forall id | id in Known(before) :: id in Known(after)
      && Known(after)[id].(claimedBy := None) == Known(before)[id].(claimedBy := None)
      && (Known(before)[id].claimedBy.Some? ==> Known(after)[id].claimedBy == Known(before)[id].claimedBy)
  }

  lemma ClaimRemembers(pool: Pool, id: nat, by_: nat)
    requires PoolIsSound(pool) && id in pool.packages && pool.packages[id].claimedBy.None?
    ensures PoolIsSound(ClaimOf(pool, id, by_)) && ClaimOf(pool, id, by_).deleted == pool.deleted
    ensures Known(ClaimOf(pool, id, by_)) == Known(pool)[id := pool.packages[id].(claimedBy := Some(by_))]
    ensures Remembers(pool, ClaimOf(pool, id, by_))
  {
  }

  /** Claiming is the one step that writes. */
  predicate ClaimsCandidate(s: State, id: nat)
    requires id in s.claims
  {
    && s.claims[id].phase.Claiming? && s.claims[id].phase.candidate in s.pool.packages
    && s.pool.packages[s.claims[id].phase.candidate].claimedBy.None?
    && s.pool.packages[s.claims[id].phase.candidate].deviceId !in s.pool.revoked
  }

  lemma AdvanceRemembers(s: State, id: nat)
    requires Inv(s) && id in s.claims
    ensures
      var next := Advance(s, id);
      && PoolIsSound(next.pool) && Remembers(s.pool, next.pool) && next.pool.deleted == s.pool.deleted
      && next.now == s.now && id in next.claims && next.claims == s.claims[id := next.claims[id]]
      && (!ClaimsCandidate(s, id) ==> next.pool == s.pool)
  {
    if ClaimsCandidate(s, id) { ClaimRemembers(s.pool, s.claims[id].phase.candidate, id); }
  }

  lemma AdvanceKeeps(s: State, id: nat)
    requires Inv(s) && id in s.claims
    ensures Inv(Advance(s, id)) && Remembers(s.pool, Advance(s, id).pool)
  {
    var next := Advance(s, id);
    AdvanceRemembers(s, id);
    forall other | other in next.claims ensures ClaimIsSound(next, other) {
    }
  }

  lemma ApplyKeeps(s: State, e: Event)
    requires Inv(s)
    ensures Inv(Apply(s, e)) && Remembers(s.pool, Apply(s, e).pool)
  {
    if e.Step? {
      if e.id in s.claims { AdvanceKeeps(s, e.id); }
    } else {
      PoolIsKept(s, e);
      ClaimsAreKept(s, e);
    }
  }

  lemma PoolIsKept(s: State, e: Event)
    requires PoolIsSound(s.pool) && DeletedWereExpired(s) && !e.Step?
    ensures
      var next := Apply(s, e);
      && PoolIsSound(next.pool) && DeletedWereExpired(next) && Remembers(s.pool, next.pool) && s.now <= next.now
      && forall id | id in Known(s.pool) :: id in Known(next.pool) && Known(next.pool)[id] == Known(s.pool)[id]
  {
  }

  lemma ClaimsAreKept(s: State, e: Event)
    requires Inv(s) && !e.Step?
    requires s.now <= Apply(s, e).now
    requires
      forall id | id in Known(s.pool) ::
        id in Known(Apply(s, e).pool) && Known(Apply(s, e).pool)[id] == Known(s.pool)[id]
    ensures forall id | id in Apply(s, e).claims :: ClaimIsSound(Apply(s, e), id)
  {
    var next := Apply(s, e);
    forall id | id in next.claims ensures ClaimIsSound(next, id) {
      assert id in s.claims ==> ClaimIsSound(s, id) && next.claims[id] == s.claims[id];
    }
  }

  lemma {:induction false} RunKeeps(s: State, es: seq<Event>)
    requires Inv(s)
    ensures Inv(Run(s, es))
    decreases |es|
  {
    if es != [] {
      ApplyKeeps(s, es[0]);
      RunKeeps(Apply(s, es[0]), es[1..]);
    }
  }

  predicate Got(s: State, claim: nat, id: nat) {
    claim in s.claims && s.claims[claim].phase.Done? && s.claims[claim].phase.got == Some(id)
  }

  /**
   * A single-use key package goes to one claim at most, and it is one of the device asked for. It is still
   * stored, unless it has expired since.
   */
  lemma NeverHandedOutTwice(es: seq<Event>, a: nat, b: nat, id: nat)
    requires Got(Run(Nothing, es), a, id) && Got(Run(Nothing, es), b, id)
    ensures a == b
    ensures
      var s := Run(Nothing, es);
      && id in Known(s.pool) && Known(s.pool)[id].kind.SINGLE_USE?
      && Known(s.pool)[id].deviceId == s.claims[a].deviceId
      && (id !in s.pool.packages ==> Known(s.pool)[id].expiresAt < s.now)
  {
    RunKeeps(Nothing, es);
    var s := Run(Nothing, es);
    assert ClaimIsSound(s, a) && ClaimIsSound(s, b);
  }

  /** What is stored, known to be revoked, read off the clock and begun, after anything but a step of a claim. */
  lemma PackagesComeAndGo(es: seq<Event>, e: Event, id: nat)
    requires !e.Step?
    ensures
      var s, next := Run(Nothing, es), Apply(Run(Nothing, es), e);
      var kept := id in s.pool.packages && (e.RemoveExpired? ==> s.pool.packages[id].expiresAt >= s.now);
      var comes := e.Upload? && e.id == id && id !in s.pool.packages && id !in s.pool.deleted;
      && (id in next.pool.packages <==> kept || comes)
      && (kept ==> next.pool.packages[id] == s.pool.packages[id])
      && (comes ==> next.pool.packages[id] == KeyPackage(e.deviceId, e.kind, e.createdAt, e.expiresAt, None))
      && (id in next.pool.deleted <==> id in s.pool.deleted || (id in s.pool.packages && !kept))
      && next.pool.revoked == s.pool.revoked + (if e.Revoke? then {e.deviceId} else {})
      && next.now == s.now + (if e.Tick? then e.ms else 0)
      && (id in next.claims <==> id in s.claims || (e.Begin? && e.id == id))
      && (id in next.claims ==>
            next.claims[id] == if id in s.claims then s.claims[id] else Claim(e.deviceId, Looking([])))
  {
    RunKeeps(Nothing, es);
  }

  /** The claim has won this package, and has yet to read it back. */
  predicate Won(s: State, claim: nat, id: nat) {
    claim in s.claims && s.claims[claim].phase.Fetching? && s.claims[claim].phase.claimed == id
  }

  /**
   * When a claim wins a package, the package was unclaimed and its device not revoked at that moment, and it
   * had not expired when the claim found it.
   */
  lemma ClaimedWhileValid(es: seq<Event>, e: Event, claim: nat, id: nat)
    requires !Won(Run(Nothing, es), claim, id) && Won(Apply(Run(Nothing, es), e), claim, id)
    ensures
      var s := Run(Nothing, es);
      && claim in s.claims && s.claims[claim].phase.Claiming?
      && IsClaimable(s.pool, s.claims[claim].deviceId, id)
      && s.claims[claim].phase.lookedAt <= s.now && s.pool.packages[id].expiresAt > s.claims[claim].phase.lookedAt
  {
    RunKeeps(Nothing, es);
    var s := Run(Nothing, es);
    assert claim in s.claims;
    assert ClaimIsSound(s, claim);
  }

  /** What a claim gets it has won, in the very step before that read. */
  lemma GotWhatItWon(es: seq<Event>, e: Event, claim: nat, id: nat)
    requires !Got(Run(Nothing, es), claim, id) && Got(Apply(Run(Nothing, es), e), claim, id)
    ensures Won(Run(Nothing, es), claim, id) && id in Run(Nothing, es).pool.packages
  {
  }

  /**
   * A claim that has won a package still answers with nothing exactly when the package was removed before it was
   * read back, which takes that it expired; the package is lost to everybody then.
   */
  lemma WonButGoneExactly(es: seq<Event>, claim: nat, id: nat)
    requires Won(Run(Nothing, es), claim, id)
    ensures
      var s, next := Run(Nothing, es), Apply(Run(Nothing, es), Step(claim));
      && claim in next.claims && next.claims[claim].phase.Done?
      && (next.claims[claim].phase.got.None? <==> id in s.pool.deleted)
      && (id in s.pool.deleted ==> s.pool.deleted[id].expiresAt < s.now && s.pool.deleted[id].claimedBy == Some(claim))
  {
    RunKeeps(Nothing, es);
    assert ClaimIsSound(Run(Nothing, es), claim);
  }

  // ---------------------------------------------------------------- the loop ends

  /** Own steps a claim can still take. */
  function StepsLeft(phase: Phase): nat {
    match phase
    case Looking(tried) => if |tried| >= MAX_CLAIM_ATTEMPTS then 1 else 2 * (MAX_CLAIM_ATTEMPTS - |tried|) + 1
    case Claiming(_, _, tried) => if |tried| >= MAX_CLAIM_ATTEMPTS then 2 else 2 * (MAX_CLAIM_ATTEMPTS - |tried|)
    case Fetching(_, _) => 1
    case Done(_, _) => 0
  }

  function CountSteps(es: seq<Event>, id: nat): nat {
    if es == [] then 0 else (if es[0] == Step(id) then 1 else 0) + CountSteps(es[1..], id)
  }

  /** However others race it, a claim never tries a package twice and is over after 2001 steps of its own. */
  lemma {:induction false} ClaimsEnd(s: State, es: seq<Event>, id: nat)
    requires Inv(s) && id in s.claims && CountSteps(es, id) >= StepsLeft(s.claims[id].phase)
    ensures id in Run(s, es).claims && Run(s, es).claims[id].phase.Done?
    ensures NoRepeats(Run(s, es).claims[id].phase.tried) && |Run(s, es).claims[id].phase.tried| <= 1000
    decreases |es|
  {
    assert ClaimIsSound(s, id);
    if es != [] {
      ApplyKeeps(s, es[0]);
      StepMovesOn(s, es[0], id);
      ClaimsEnd(Apply(s, es[0]), es[1..], id);
    }
  }

  lemma StepMovesOn(s: State, e: Event, id: nat)
    requires Inv(s) && id in s.claims
    ensures id in Apply(s, e).claims
    ensures StepsLeft(Apply(s, e).claims[id].phase) <=
      StepsLeft(s.claims[id].phase) - if e == Step(id) && !s.claims[id].phase.Done? then 1 else 0
  {
    assert ClaimIsSound(s, id);
    if e.Step? && e.id == id {
      match s.claims[id].phase {
        case Looking(tried) =>
        case Claiming(_, _, tried) =>
        case Fetching(_, tried) =>
        case Done(_, _) =>
      }
    }
  }

  /** This package may still be handed out for the device. */
  predicate IsLeft(s: State, deviceId: string, id: nat) {
    && id in s.pool.packages && s.pool.packages[id].deviceId == deviceId && deviceId !in s.pool.revoked
    && s.pool.packages[id].kind == SINGLE_USE && s.pool.packages[id].claimedBy == None
    && s.now < s.pool.packages[id].expiresAt
  }

  /** A claim nobody races gets the oldest unexpired package, and nothing exactly when none is left. */
  lemma AloneGetsTheOldest(s: State, id: nat)
    requires id in s.claims && s.claims[id].phase == Looking([])
    ensures
      var after, deviceId := Run(s, [Step(id), Step(id), Step(id)]), s.claims[id].deviceId;
      && id in after.claims && after.claims[id].phase.Done?
      && (after.claims[id].phase.got.None? <==> forall left: nat :: !IsLeft(s, deviceId, left))
      && (after.claims[id].phase.got.Some? ==>
            var got := after.claims[id].phase.got.value;
            && IsLeft(s, deviceId, got) && got in after.pool.packages
            && after.pool.packages[got] == s.pool.packages[got].(claimedBy := Some(id))
            && forall left: nat | IsLeft(s, deviceId, left) ::
                 s.pool.packages[got].createdAt <= s.pool.packages[left].createdAt)
      && after.pool.packages.Keys == s.pool.packages.Keys
      && forall other | other in s.pool.packages ::
           after.claims[id].phase.got != Some(other) ==> after.pool.packages[other] == s.pool.packages[other]
  {
    var left := Candidates(s.pool, s.claims[id].deviceId, s.now, []);
    forall p: nat ensures p in left <==> IsLeft(s, s.claims[id].deviceId, p) {
    }
    assert left == {} <==> forall p: nat :: p !in left;
    var looked := Apply(s, Step(id));
    var claimed := Apply(looked, Step(id));
    var steps := [Step(id), Step(id), Step(id)];
    assert steps[1..] == [Step(id), Step(id)] && steps[1..][1..] == [Step(id)] && [Step(id)][1..] == [];
    assert Run(s, steps) == Run(looked, steps[1..]) == Run(claimed, [Step(id)]) == Run(Apply(claimed, Step(id)), []);
  }

  // ---------------------------------------------------------------- the loop itself

  /** What others may do in between: they never give a claimed package back, nor use an id again. */
  predicate Evolves(before: Pool, after: Pool) {
    && before.revoked <= after.revoked && before.deleted.Keys <= after.deleted.Keys
    && (PoolIsSound(before) ==> PoolIsSound(after)) && Remembers(before, after)
  }

  ghost predicate OnlyEvolve(others: Pool -> Pool) { forall p :: Evolves(p, others(p)) }

  ghost predicate Quiet(others: Pool -> Pool) { forall p :: others(p) == p }

  /** The candidate was lost to somebody else: no claim can get it any more. */
  predicate AreLost(pool: Pool, deviceId: string, tried: seq<nat>) {
    forall id | id in tried :: id in Known(pool) && !IsClaimable(pool, deviceId, id)
  }

  predicate IsWon(pool: Pool, deviceId: string, claim: nat, now: int, id: nat) {
    && id in pool.packages && pool.packages[id].claimedBy == Some(claim)
    && pool.packages[id].deviceId == deviceId && pool.packages[id].kind.SINGLE_USE?
    && pool.packages[id].expiresAt > now && deviceId !in pool.revoked
  }

  /** What the loop found without anybody else around. */
  ghost predicate IsUnraced(
      start: Pool, deviceId: string, claim: nat, now: int, pool: Pool, got: Option<nat>, tried: seq<nat>)
  {
    && tried == []
    && (got.None? <==> Candidates(start, deviceId, now, []) == {})
    && (got.Some? ==>
        IsOldest(start, Candidates(start, deviceId, now, []), got.value) && pool == ClaimOf(start, got.value, claim))
  }

  /** The conditional update, after whatever the others did since the candidate was found. */
  method TryCandidate(
      seen: Pool, deviceId: string, candidate: nat, claim: nat, now: int, tried: seq<nat>, others: Pool -> Pool)
    returns (pool: Pool, won: bool)
    requires PoolIsSound(seen) && OnlyEvolve(others)
    requires IsCandidate(seen, deviceId, now, tried, candidate) && AreLost(seen, deviceId, tried)
    ensures Evolves(seen, pool) && PoolIsSound(pool) && AreLost(pool, deviceId, tried)
    ensures won ==> IsWon(pool, deviceId, claim, now, candidate)
    ensures !won ==> AreLost(pool, deviceId, tried + [candidate])
    ensures Quiet(others) ==> won && pool == ClaimOf(seen, candidate, claim)
  {
    pool := others(seen);
    assert Evolves(seen, pool);
    StayUnclaimable(seen, pool, deviceId, tried);
    assert candidate in Known(seen) && Known(seen)[candidate] == seen.packages[candidate];
    won := candidate in pool.packages && pool.packages[candidate].claimedBy.None? && deviceId !in pool.revoked;
    if won {
      ghost var met := pool;
      pool := ClaimOf(pool, candidate, claim);
      ClaimRemembers(met, candidate, claim);
      StayUnclaimable(met, pool, deviceId, tried);
    }
  }

  /**
   * One claim's loop, `others` being everything that runs between its statements and `clock` what the time is at
   * each attempt. Each package it names was lost to somebody else, no two of them are the same, and left to
   * itself it gets the oldest. `won` is the package of its winning update, and what it got unless that package
   * was deleted before it was read back.
   */
  method ClaimSingleUseKeyPackage(start: Pool, deviceId: string, claim: nat, clock: nat -> int, others: Pool -> Pool)
    returns (pool: Pool, got: Option<nat>, won: Option<nat>, tried: seq<nat>, ghost atUpdate: Pool)
    requires PoolIsSound(start) && OnlyEvolve(others)
    ensures Evolves(start, atUpdate) && Evolves(atUpdate, pool) && PoolIsSound(pool)
    ensures NoRepeats(tried) && |tried| <= 1000 && AreLost(pool, deviceId, tried)
    ensures won.Some? ==> won.value !in tried && IsWon(atUpdate, deviceId, claim, clock(|tried|), won.value)
    ensures won.Some? ==> won.value in Known(pool) && Known(pool)[won.value].claimedBy == Some(claim)
    ensures got == if won.Some? && won.value !in pool.deleted then won else None
    ensures won.None? && |tried| < 1000 ==> Candidates(pool, deviceId, clock(|tried|), tried) == {}
    ensures Quiet(others) ==> got == won && IsUnraced(start, deviceId, claim, clock(0), pool, got, tried)
  {
    pool, got, won, tried, atUpdate := start, None, None, [], start;
    while |tried| < MAX_CLAIM_ATTEMPTS
      invariant Evolves(start, pool) && PoolIsSound(pool) && atUpdate == pool
      invariant got.None? && won.None?
      invariant NoRepeats(tried) && |tried| <= MAX_CLAIM_ATTEMPTS && AreLost(pool, deviceId, tried)
      invariant Quiet(others) ==> pool == start && tried == []
      decreases MAX_CLAIM_ATTEMPTS - |tried|
    {
      var now := clock(|tried|);
      var ids := Candidates(pool, deviceId, now, tried);
      if ids == {} { return; }
      ghost var oldest := OldestExists(pool, ids);
      var candidate :| candidate in ids && IsOldest(pool, ids, candidate);
      ghost var seen := pool;
      var claimed;
      pool, claimed := TryCandidate(pool, deviceId, candidate, claim, now, tried, others);
      atUpdate := pool;
      if claimed {
        won := Some(candidate);
        pool, got := ReadBack(pool, deviceId, candidate, tried, others);
        return;
      }
      tried := tried + [candidate];
    }
  }

  /** `findUnique` after the winning update. */
  method ReadBack(claimed: Pool, deviceId: string, id: nat, tried: seq<nat>, others: Pool -> Pool)
    returns (pool: Pool, got: Option<nat>)
    requires PoolIsSound(claimed) && OnlyEvolve(others) && AreLost(claimed, deviceId, tried)
    requires id in claimed.packages && claimed.packages[id].claimedBy.Some?
    ensures Evolves(claimed, pool) && PoolIsSound(pool) && AreLost(pool, deviceId, tried)
    ensures id in Known(pool) && Known(pool)[id].claimedBy == claimed.packages[id].claimedBy
    ensures got == if id in pool.deleted then None else Some(id)
    ensures Quiet(others) ==> pool == claimed && got == Some(id)
  {
    pool := others(claimed);
    assert Evolves(claimed, pool) && id in Known(claimed);
    StayUnclaimable(claimed, pool, deviceId, tried);
    got := if id in pool.packages then Some(id) else None;
  }

  lemma StayUnclaimable(before: Pool, after: Pool, deviceId: string, tried: seq<nat>)
    requires PoolIsSound(before) && Evolves(before, after) && AreLost(before, deviceId, tried)
    ensures AreLost(after, deviceId, tried)
  {
    forall id | id in tried ensures id in Known(after) && !IsClaimable(after, deviceId, id) {
      assert Known(after)[id].(claimedBy := None) == Known(before)[id].(claimedBy := None);
    }
  }
}
