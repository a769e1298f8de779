/**
 * The login cache: a Redis store shared by every backend instance in front of the session table,
 * step by step, under the real key names. LoginCacheRuns interleaves its operations.
 */
module SessionStorage {
  import opened Common

  const MISS_TTL_MS := 60_000
  const REVOKED_TTL_MS := 60_000
  const MISS_INFIX := "miss:"
  const REVOKED_INFIX := "revoked:"
  const ACTIVE_SESSIONS_PREFIX := "active-sessions-"

  // ---------------------------------------------------------------- rows and loads

  datatype SessionRow = SessionRow(id: string, userId: string, token: string, expiresAt: int)

  /** What better-auth wrote itself, or what the loader serialised from the database. */
  datatype Value = Written(text: string) | FromRow(row: SessionRow) | FromRows(rows: seq<SessionRow>)

  datatype Loaded = Loaded(value: Value, ttlSeconds: int)

  /** `Math.floor(ms / 1000)`: Dafny's division already floors for a positive divisor. */
  function SecondsUntil(expiresAt: int, now: int): int {
    (expiresAt - now) / 1000
  }

  /** The database answer to `session(token)`: `rows` holds at most the one row of that token. */
  function LoadSession(rows: seq<SessionRow>, now: int): Option<Loaded> {
    if rows == [] then None
    else
      var ttl := SecondsUntil(rows[0].expiresAt, now);
      if ttl <= 0 then None else Some(Loaded(FromRow(rows[0]), ttl))
  }

  function Unexpired(rows: seq<SessionRow>, now: int): (live: seq<SessionRow>)
    ensures forall r :: r in live <==> r in rows && r.expiresAt > now
  {
    if rows == [] then []
    else (if rows[0].expiresAt > now then [rows[0]] else []) + Unexpired(rows[1..], now)
  }

  function Furthest(rows: seq<SessionRow>): (furthest: int)
    requires rows != []
    ensures forall r :: r in rows ==> r.expiresAt <= furthest
    ensures exists r :: r in rows && r.expiresAt == furthest
  {
    if |rows| == 1 then rows[0].expiresAt
    else
      var rest := Furthest(rows[1..]);
      if rows[0].expiresAt > rest then rows[0].expiresAt else rest
  }

  /** The database answer to `activeSessions(userId)`. */
  function LoadActiveSessions(rows: seq<SessionRow>, now: int): Option<Loaded> {
    var live := Unexpired(rows, now);
    if live == [] then None
    else Some(Loaded(FromRows(live), SecondsUntil(Furthest(live), now)))
  }

  // ---------------------------------------------------------------- key shapes

  predicate IsTokenChar(c: char) {
    'A' <= c <= 'Z' || 'a' <= c <= 'z' || '0' <= c <= '9'
  }

  predicate TokenShape(key: string) {
    20 <= |key| <= 64 && forall i | 0 <= i < |key| :: IsTokenChar(key[i])
  }

  datatype KeyKind = SessionToken | ActiveSessions | Unloadable

  function KindOf(key: string): KeyKind {
    if StartsWith(key, ACTIVE_SESSIONS_PREFIX) then ActiveSessions
    else if TokenShape(key) then SessionToken
    else Unloadable
  }

  function Load(kind: KeyKind, rows: seq<SessionRow>, now: int): Option<Loaded> {
    match kind
    case SessionToken => LoadSession(rows, now)
    case ActiveSessions => LoadActiveSessions(rows, now)
    case Unloadable => None
  }

  // ---------------------------------------------------------------- what a load is

  /** Whole seconds from `now` to `expiresAt`, rounded down. */
  predicate IsSecondsUntil(seconds: int, expiresAt: int, now: int) {
    1000 * seconds <= expiresAt - now < 1000 * seconds + 1000
  }

  /** A key of 20 to 64 letters and digits is a session token's; one that starts with the prefix is a user's logins. */
  lemma KindIs(key: string)
    ensures KindOf(key) == SessionToken <==>
      20 <= |key| <= 64 && forall c | c in key :: 'A' <= c <= 'Z' || 'a' <= c <= 'z' || '0' <= c <= '9'
    ensures KindOf(key) == ActiveSessions <==> |key| >= 16 && key[..16] == "active-sessions-"
  {
    var prefix := "active-sessions-";
    assert prefix == ACTIVE_SESSIONS_PREFIX && |prefix| == 16;
    if StartsWith(key, prefix) {
      assert key[..16] == prefix && key[6] == prefix[6] == '-' && key[6] in key;
    } else if |key| >= 16 {
      assert key[..16] != prefix;
    }
    if forall c | c in key :: 'A' <= c <= 'Z' || 'a' <= c <= 'z' || '0' <= c <= '9' {
      forall i | 0 <= i < |key| ensures IsTokenChar(key[i]) {
        assert key[i] in key;
      }
    }
  }

  /** What the database says of one token: its login, if a whole second of it is left. */
  predicate IsSessionLoad(rows: seq<SessionRow>, now: int, loaded: Option<Loaded>) {
    && (loaded.Some? <==> rows != [] && rows[0].expiresAt - now >= 1000)
    && (loaded.Some? ==>
          loaded.value.value == FromRow(rows[0]) && IsSecondsUntil(loaded.value.ttlSeconds, rows[0].expiresAt, now))
  }

  predicate IsLongest(rows: seq<SessionRow>, now: int, last: SessionRow) {
    last in rows && last.expiresAt > now && forall row | row in rows :: row.expiresAt <= last.expiresAt
  }

  /** Every row ahead of the clock, as often as it is there, and no other. */
  ghost predicate HoldsThoseAhead(live: seq<SessionRow>, rows: seq<SessionRow>, now: int) {
    forall row: SessionRow :: multiset(live)[row] == if row.expiresAt > now then multiset(rows)[row] else 0
  }

  /** What it says of one user: every login ahead of the clock and no other, kept as long as the longest of them. */
  ghost predicate IsActiveLoad(rows: seq<SessionRow>, now: int, loaded: Option<Loaded>) {
    && (loaded.Some? <==> exists row | row in rows :: row.expiresAt > now)
    && (loaded.Some? ==>
          && loaded.value.value.FromRows? && HoldsThoseAhead(loaded.value.value.rows, rows, now)
          && exists last ::
               IsLongest(rows, now, last) && IsSecondsUntil(loaded.value.ttlSeconds, last.expiresAt, now))
  }

  ghost predicate IsLoad(kind: KeyKind, rows: seq<SessionRow>, now: int, loaded: Option<Loaded>) {
    match kind
    case SessionToken => IsSessionLoad(rows, now, loaded)
    case ActiveSessions => IsActiveLoad(rows, now, loaded)
    case Unloadable => loaded.None?
  }

  lemma {:induction false} UnexpiredCounts(rows: seq<SessionRow>, now: int, row: SessionRow)
    ensures multiset(Unexpired(rows, now))[row] == if row.expiresAt > now then multiset(rows)[row] else 0
  {
    if rows != [] {
      assert rows == [rows[0]] + rows[1..];
      UnexpiredCounts(rows[1..], now, row);
    }
  }

  lemma UnexpiredHolds(rows: seq<SessionRow>, now: int)
    ensures HoldsThoseAhead(Unexpired(rows, now), rows, now)
  {
    forall row: SessionRow
      ensures multiset(Unexpired(rows, now))[row] == if row.expiresAt > now then multiset(rows)[row] else 0
    {
      UnexpiredCounts(rows, now, row);
    }
  }

  lemma LongestExists(rows: seq<SessionRow>, now: int) returns (last: SessionRow)
    requires Unexpired(rows, now) != []
    ensures IsLongest(rows, now, last) && last.expiresAt == Furthest(Unexpired(rows, now))
  {
    var live := Unexpired(rows, now);
    var furthest := Furthest(live);
    assert exists row :: row in live && row.expiresAt == furthest;
    var row :| row in live && row.expiresAt == furthest;
    last := row;
    forall other | other in rows ensures other.expiresAt <= last.expiresAt {
      if other.expiresAt > now { assert other in live; }
    }
  }

  lemma ActiveLoadIs(rows: seq<SessionRow>, now: int)
    ensures IsActiveLoad(rows, now, LoadActiveSessions(rows, now))
  {
    UnexpiredHolds(rows, now);
    var live := Unexpired(rows, now);
    if live != [] {
      var last := LongestExists(rows, now);
      assert IsSecondsUntil(SecondsUntil(Furthest(live), now), last.expiresAt, now);
    } else {
      assert forall row | row in rows :: row.expiresAt > now ==> row in live;
    }
  }

  lemma LoadIs(kind: KeyKind, rows: seq<SessionRow>, now: int)
    ensures IsLoad(kind, rows, now, Load(kind, rows, now))
  {
    if kind.ActiveSessions? { ActiveLoadIs(rows, now); }
  }

  // ---------------------------------------------------------------- the store

  /** A Redis entry; no expiry means it is kept until it is deleted. */
  datatype Entry = Entry(value: Value, expiresAt: Option<int>)

  predicate Live(entry: Option<Entry>, now: int) {
    entry.Some? && (entry.value.expiresAt.None? || now < entry.value.expiresAt.value)
  }

  /** The three entries that belong to one login key. */
  datatype Slots = Slots(value: Option<Entry>, miss: Option<Entry>, revoked: Option<Entry>)

  function MarkMissed(slots: Slots, now: int): Slots {
    slots.(miss := Some(Entry(Written("1"), Some(now + MISS_TTL_MS))))
  }

  function AtLeastOne(n: int): int { if n < 1 then 1 else n }

  /** The fill script: refuses while a live tombstone is there, else stores the loaded value. */
  function FillUnlessRevoked(slots: Slots, loaded: Loaded, now: int): Slots {
    if Live(slots.revoked, now) then slots
    else slots.(value := Some(Entry(loaded.value, Some(now + AtLeastOne(loaded.ttlSeconds) * 1000))))
  }

  function AfterSet(value: Value, ttlSeconds: nat, now: int): Slots {
    Slots(Some(Entry(value, if ttlSeconds == 0 then None else Some(now + ttlSeconds * 1000))), None, None)
  }

  function AfterDelete(slots: Slots, now: int): Slots {
    slots.(value := None, revoked := Some(Entry(Written("1"), Some(now + REVOKED_TTL_MS))))
  }

  /** Keys whose three names cannot be confused with another key's. */
  predicate Plain(key: string) {
    !StartsWith(key, MISS_INFIX) && !StartsWith(key, REVOKED_INFIX)
  }

  /** Everything the loader would ever fill has a plain key. */
  lemma LoadableKeysArePlain(key: string)
    requires KindOf(key) != Unloadable
    ensures Plain(key)
  {
    if StartsWith(key, ACTIVE_SESSIONS_PREFIX) {
      assert key[0] == 'a';
    } else {
      assert IsTokenChar(key[4]) && IsTokenChar(key[7]);
    }
  }

  class RedisSessionStorage {
    const prefix: string
    var store: map<string, Entry>

    constructor (prefix: string)
      ensures this.prefix == prefix && store == map[]
    {
      this.prefix := prefix;
      store := map[];
    }

    function Key(key: string): string { prefix + key }

    function MissKey(key: string): string { prefix + MISS_INFIX + key }

    function RevokedKey(key: string): string { prefix + REVOKED_INFIX + key }

    function At(name: string): Option<Entry>
      reads this
    {
      if name in store then Some(store[name]) else None
    }

    function SlotsOf(key: string): Slots
      reads this
    {
      Slots(At(Key(key)), At(MissKey(key)), At(RevokedKey(key)))
    }

    /** No entry moved but the key's own three. */
    twostate predicate OnlyItsOwnChanged(key: string)
      reads this
    {
      forall name | name != Key(key) && name != MissKey(key) && name != RevokedKey(key) :: At(name) == old(At(name))
    }

    /** No other login's entries moved. */
    twostate predicate OthersUnchanged(key: string)
      reads this
    {
      forall other :: Plain(other) && other != key ==> SlotsOf(other) == old(SlotsOf(other))
    }

    twostate lemma PlainKeepsOthers(key: string)
      requires Plain(key) && OnlyItsOwnChanged(key)
      ensures OthersUnchanged(key)
    {
      AllNamesDiffer(key);
    }

    lemma NamesDiffer(a: string, b: string)
      requires Plain(a)
      ensures Key(a) != MissKey(b) && Key(a) != RevokedKey(b) && MissKey(a) != RevokedKey(b)
      ensures MissKey(b) != RevokedKey(a)
      ensures a != b ==> Key(a) != Key(b) && MissKey(a) != MissKey(b) && RevokedKey(a) != RevokedKey(b)
    {
      var n := |prefix|;
      assert Key(a)[n..] == a && Key(b)[n..] == b;
      assert MissKey(b)[n..] == MISS_INFIX + b && MissKey(b)[n + 5..] == b;
      assert RevokedKey(b)[n..] == REVOKED_INFIX + b && RevokedKey(b)[n + 8..] == b;
      assert MissKey(a)[n + 5..] == a && RevokedKey(a)[n + 8..] == a;
      assert MissKey(a)[n] == MissKey(b)[n] == 'm' && RevokedKey(a)[n] == RevokedKey(b)[n] == 'r';
    }

    /** A key's own name is free of other keys' bookkeeping exactly when the key is plain. */
    lemma NameIsPrivateIffPlain(key: string)
      ensures Plain(key) <==> forall other :: Key(key) != MissKey(other) && Key(key) != RevokedKey(other)
    {
      if Plain(key) {
        forall other ensures Key(key) != MissKey(other) && Key(key) != RevokedKey(other) {
          NamesDiffer(key, other);
        }
      } else if StartsWith(key, MISS_INFIX) {
        assert key == MISS_INFIX + key[5..];
        assert Key(key) == MissKey(key[5..]);
      } else {
        assert key == REVOKED_INFIX + key[8..];
        assert Key(key) == RevokedKey(key[8..]);
      }
    }

    lemma AllNamesDiffer(key: string)
      requires Plain(key)
      ensures forall other ::
        && Key(key) != MissKey(other) && Key(key) != RevokedKey(other)
        && MissKey(key) != RevokedKey(other) && MissKey(other) != RevokedKey(key)
      ensures forall other :: Plain(other) ==> Key(other) != MissKey(key) && Key(other) != RevokedKey(key)
      ensures forall other :: other != key ==>
        Key(key) != Key(other) && MissKey(key) != MissKey(other) && RevokedKey(key) != RevokedKey(other)
    {
      forall other {
        NamesDiffer(key, other);
      }
      forall other | Plain(other) {
        NamesDiffer(other, key);
      }
    }

    method ReadName(name: string, now: int) returns (found: Option<Value>)
      ensures found.Some? <==> Live(At(name), now)
      ensures found.Some? ==> found.value == At(name).value.value
    {
      if name in store && (store[name].expiresAt.None? || now < store[name].expiresAt.value) {
        found := Some(store[name].value);
      } else {
        found := None;
      }
    }

    method WriteMiss(key: string, now: int)
      modifies this`store
      ensures SlotsOf(key) == MarkMissed(old(SlotsOf(key)), now)
      ensures OnlyItsOwnChanged(key) && (Plain(key) ==> OthersUnchanged(key))
    {
      store := store[MissKey(key) := Entry(Written("1"), Some(now + MISS_TTL_MS))];
      if Plain(key) { PlainKeepsOthers(key); }
    }

    /** The script, run as one step by Redis. */
    method Fill(key: string, loaded: Loaded, now: int) returns (filled: bool)
      modifies this`store
      ensures filled <==> !Live(old(SlotsOf(key)).revoked, now)
      ensures SlotsOf(key) == FillUnlessRevoked(old(SlotsOf(key)), loaded, now)
      ensures SlotsOf(key) ==
        if !filled then old(SlotsOf(key))
        else
          var seconds := if loaded.ttlSeconds < 1 then 1 else loaded.ttlSeconds;
          old(SlotsOf(key)).(value := Some(Entry(loaded.value, Some(now + seconds * 1000))))
      ensures OnlyItsOwnChanged(key) && (Plain(key) ==> OthersUnchanged(key))
    {
      var tombstone := ReadName(RevokedKey(key), now);
      if tombstone.Some? { return false; }
      store := store[Key(key) := Entry(loaded.value, Some(now + AtLeastOne(loaded.ttlSeconds) * 1000))];
      filled := true;
      if Plain(key) { PlainKeepsOthers(key); }
    }

    method Set(key: string, value: Value, ttlSeconds: nat, now: int)
      modifies this`store
      ensures SlotsOf(key) == AfterSet(value, ttlSeconds, now) ==
        Slots(Some(Entry(value, if ttlSeconds == 0 then None else Some(now + ttlSeconds * 1000))), None, None)
      ensures OnlyItsOwnChanged(key) && (Plain(key) ==> OthersUnchanged(key))
    {
      store := store - {MissKey(key), RevokedKey(key)};
      store := store[Key(key) := Entry(value, if ttlSeconds == 0 then None else Some(now + ttlSeconds * 1000))];
      if Plain(key) { PlainKeepsOthers(key); }
    }

    method Delete(key: string, now: int)
      modifies this`store
      ensures SlotsOf(key) == AfterDelete(old(SlotsOf(key)), now) ==
        Slots(None, old(SlotsOf(key)).miss, Some(Entry(Written("1"), Some(now + 60 * 1000))))
      ensures OnlyItsOwnChanged(key) && (Plain(key) ==> OthersUnchanged(key))
    {
      store := store - {Key(key)};
      store := store[RevokedKey(key) := Entry(Written("1"), Some(now + REVOKED_TTL_MS))];
      if Plain(key) { PlainKeepsOthers(key); }
    }

    /** A whole lookup that nothing else interrupts; `rows` is what the database holds. */
    method Get(key: string, hasLoader: bool, rows: seq<SessionRow>, now: int) returns (answer: Option<Value>)
      modifies this`store
      ensures (SlotsOf(key), answer) == UncontendedGet(old(SlotsOf(key)), KindOf(key), hasLoader, rows, now)
      ensures exists loaded ::
        IsLoad(KindOf(key), rows, now, loaded)
        && IsLookup(old(SlotsOf(key)), hasLoader, now, loaded, SlotsOf(key), answer)
      ensures OnlyItsOwnChanged(key) && (Plain(key) ==> OthersUnchanged(key))
    {
      UncontendedGetIsLookup(SlotsOf(key), KindOf(key), hasLoader, rows, now);
      answer := ReadName(Key(key), now);
      var missed := ReadName(MissKey(key), now);
      if answer.Some? || !hasLoader || missed.Some? { return; }

      var loaded := Load(KindOf(key), rows, now);
      if loaded.None? {
        WriteMiss(key, now);
        return;
      }
      var _ := Fill(key, loaded.value, now);
      answer := Some(loaded.value.value);
    }
  }

  function UncontendedGet(slots: Slots, kind: KeyKind, hasLoader: bool, rows: seq<SessionRow>, now: int)
    : (result: (Slots, Option<Value>))
  {
    if Live(slots.value, now) then (slots, Some(slots.value.value.value))
    else if !hasLoader || Live(slots.miss, now) then (slots, None)
    else
      match Load(kind, rows, now)
      case None => (MarkMissed(slots, now), None)
      case Some(loaded) => (FillUnlessRevoked(slots, loaded, now), Some(loaded.value))
  }

  /**
   * The cached value while it lives; else nothing while the key is known to be missing; else what was loaded, which
   * is cached unless the key was revoked less than a minute ago.
   */
  predicate IsLookup(
      before: Slots, hasLoader: bool, now: int, loaded: Option<Loaded>, after: Slots, answer: Option<Value>)
  {
    if Live(before.value, now) then answer == Some(before.value.value.value) && after == before
    else if !hasLoader || Live(before.miss, now) then answer.None? && after == before
    else if loaded.None? then
      answer.None? && after == before.(miss := Some(Entry(Written("1"), Some(now + 60 * 1000))))
    else
      && answer == Some(loaded.value.value)
      && after ==
        if Live(before.revoked, now) then before
        else
          var seconds := if loaded.value.ttlSeconds < 1 then 1 else loaded.value.ttlSeconds;
          before.(value := Some(Entry(loaded.value.value, Some(now + seconds * 1000))))
  }

  lemma UncontendedGetIsLookup(slots: Slots, kind: KeyKind, hasLoader: bool, rows: seq<SessionRow>, now: int)
    ensures
      var (after, answer) := UncontendedGet(slots, kind, hasLoader, rows, now);
      exists loaded :: IsLoad(kind, rows, now, loaded) && IsLookup(slots, hasLoader, now, loaded, after, answer)
  {
    LoadIs(kind, rows, now);
    LookupOfLoaded(slots, kind, hasLoader, rows, now);
  }

  lemma LookupOfLoaded(slots: Slots, kind: KeyKind, hasLoader: bool, rows: seq<SessionRow>, now: int)
    ensures
      var (after, answer) := UncontendedGet(slots, kind, hasLoader, rows, now);
      IsLookup(slots, hasLoader, now, Load(kind, rows, now), after, answer)
  {
  }

  /** A repeated junk key costs one database read a minute, whatever the database holds meanwhile. */
  lemma JunkIsRememberedForAMinute(
    slots: Slots, kind: KeyKind, rows: seq<SessionRow>, now: int, later: int, laterRows: seq<SessionRow>)
    requires now <= later
    requires !Live(slots.value, now) && !Live(slots.miss, now) && Load(kind, rows, now).None?
    ensures
      var after := UncontendedGet(slots, kind, true, rows, now).0;
      var again := UncontendedGet(after, kind, true, laterRows, later);
      if later < now + 60 * 1000 then again == (after, None)
      else again.1.Some? == Load(kind, laterRows, later).Some?
  {
  }

  /**
   * `set` wipes what a key remembered: until its entry expires every lookup answers the value, and
   * afterwards the database is asked and its answer cached again, neither hidden by a miss marker
   * nor refused by a tombstone from before.
   */
  lemma SetStartsAfresh(value: Value, ttlSeconds: nat, at: int, kind: KeyKind, rows: seq<SessionRow>, now: int)
    requires at <= now
    ensures
      var (after, answer) := UncontendedGet(AfterSet(value, ttlSeconds, at), kind, true, rows, now);
      if ttlSeconds == 0 || now < at + ttlSeconds * 1000 then answer == Some(value)
      else match Load(kind, rows, now)
        case None => answer == None && Live(after.miss, now)
        case Some(loaded) =>
          answer == Some(loaded.value) && Live(after.value, now) && after.value.value.value == loaded.value
  {
  }
}
