/** What lookups find once something is stored or known to be missing, how long it lasts, and what is not promised. */
module LoginCacheEntries {
  import opened Common
  import opened SessionStorage
  import opened LoginCacheRuns

  // ---------------------------------------------------------------- a stored login is found

  /** The entry there is, whoever wrote it last, has not expired. */
  predicate EntryLives(s: State) {
    s.slots.value.Some? ==> Live(s.slots.value, s.now)
  }

  /** No revoke, and at no time has the entry expired. */
  predicate AfterStore(s: State, es: seq<Event>)
    decreases |es|
  {
    EntryLives(s) && (es != [] ==> !es[0].DeleteKey? && AfterStore(Apply(s, es[0]), es[1..]))
  }

  /** The lookups whose Redis call fails; they answer from the database alone. */
  function Failing(es: seq<Event>): set<nat> {
    set e | e in es && e.RedisFails? :: e.id
  }

  /** Every new lookup that has read the store holds a value. */
  predicate NewLookupsFind(s: State, except: set<nat>) {
    forall id | id in s.lookups && id !in except ::
      match s.lookups[id].phase
      case AskValue => true
      case AskMiss(cached) => cached.Some?
      case Done(answer) => answer.Some?
      case _ => false
  }

  /**
   * Once a login is stored, no lookup started later answers "no login" before the entry expires,
   * whatever miss markers older lookups still write.
   */
  lemma {:induction false} StoredLoginIsFound(s: State, es: seq<Event>, except: set<nat>)
    requires s.slots.value.Some? && NewLookupsFind(s, except) && AfterStore(s, es) && Failing(es) <= except
    ensures Run(s, es).slots.value.Some? && NewLookupsFind(Run(s, es), except)
    decreases |es|
  {
    if es != [] {
      assert es[0] in es;
      assert forall e | e in es[1..] :: e in es;
      StoredLoginIsFound(Apply(s, es[0]), es[1..], except);
    }
  }

  /** The same for the key a `set` stored; only a lookup whose Redis call fails is left to the database. */
  lemma LookupsAfterSetFindIt(
      kind: KeyKind, before: seq<Event>, value: Value, ttlSeconds: nat, after: seq<Event>, id: nat)
    requires
      var stored := Apply(Run(Init(kind), before), SetKey(value, ttlSeconds));
      && AfterStore(stored, after)
      && id in Run(stored, after).lookups && id !in stored.lookups && Run(stored, after).lookups[id].phase.Done?
      && id !in Failing(after)
    ensures
      var stored := Apply(Run(Init(kind), before), SetKey(value, ttlSeconds));
      Run(stored, after).lookups[id].phase.answer.Some?
  {
    var stored := Apply(Run(Init(kind), before), SetKey(value, ttlSeconds));
    StoredLoginIsFound(stored, after, stored.lookups.Keys + Failing(after));
  }

  // ---------------------------------------------------------------- a miss is remembered

  predicate MissKnownUntil(s: State, until: int) {
    s.slots.miss.Some? && s.slots.miss.value.expiresAt.Some? && s.slots.miss.value.expiresAt.value >= until
  }

  /** None of these lookups has asked the database, or is about to. */
  predicate NewLookupsSpare(s: State, except: set<nat>) {
    forall id | id in s.lookups && id !in except ::
      s.lookups[id].phase.AskValue? || s.lookups[id].phase.AskMiss? || s.lookups[id].phase.Done?
  }

  lemma {:induction false} MissRuns(s: State, es: seq<Event>, except: set<nat>, until: int)
    requires MissKnownUntil(s, until) && NewLookupsSpare(s, except) && until <= s.now + MISS_TTL_MS
    requires Failing(es) <= except && (forall e | e in es :: !e.SetKey?) && Run(s, es).now < until
    ensures NewLookupsSpare(Run(s, es), except)
    decreases |es|
  {
    if es != [] {
      assert es[0] in es;
      TimeGrows(s, es);
      TimeGrows(s, [es[0]]);
      assert Run(s, [es[0]]) == Run(Apply(s, es[0]), [es[0]][1..]);
      assert forall e | e in es[1..] :: e in es;
      MissRuns(Apply(s, es[0]), es[1..], except, until);
    }
  }

  /**
   * When a lookup has noted that the database does not know the key, no lookup begun later asks it for a minute,
   * on any instance, unless the key is set or its Redis call fails.
   */
  lemma MissSparesTheDatabase(kind: KeyKind, before: seq<Event>, marker: nat, after: seq<Event>, id: nat)
    requires
      var s := Run(Init(kind), before);
      var marked := Apply(s, Finish(marker, true));
      && marker in s.lookups && s.lookups[marker].phase.Filling? && s.lookups[marker].phase.loaded.None?
      && (forall e | e in after :: !e.SetKey?) && Run(marked, after).now < s.now + 60 * 1000
      && id in Run(marked, after).lookups && id !in s.lookups && id !in Failing(after)
    ensures
      var phase := Run(Apply(Run(Init(kind), before), Finish(marker, true)), after).lookups[id].phase;
      !phase.Loading? && !phase.LoadingDirect? && !phase.Filling?
  {
    var s := Run(Init(kind), before);
    var marked := Apply(s, Finish(marker, true));
    MissRuns(marked, after, s.lookups.Keys + Failing(after), s.now + MISS_TTL_MS);
  }

  // ---------------------------------------------------------------- how long a filled entry lives

  /** The last moment a row stored in the cache may be served when fills take at most `window`. */
  predicate ServedNoLongerThan(value: Value, expiresAt: Option<int>, window: nat) {
    match value
    case Written(_) => true
    case FromRow(row) => expiresAt.Some? && expiresAt.value <= row.expiresAt + window
    case FromRows(rows) => rows != [] && expiresAt.Some? && expiresAt.value <= Furthest(rows) + window + 1000
  }

  predicate OnlyWrittenSets(es: seq<Event>) {
    forall e | e in es :: e.SetKey? ==> e.value.Written?
  }

  predicate QuickFills(s: State, es: seq<Event>, window: nat)
    decreases |es|
  {
    es != [] ==> WithinWindow(s, es[0], window) && QuickFills(Apply(s, es[0]), es[1..], window)
  }

  predicate LoadEnds(phase: Phase) {
    phase.Filling? && phase.loaded.Some? ==>
      ServedNoLongerThan(phase.loaded.value.value,
        Some(phase.loadedAt + AtLeastOne(phase.loaded.value.ttlSeconds) * 1000), 0)
  }

  predicate CachedEnds(s: State, window: nat) {
    s.slots.value.Some? ==> ServedNoLongerThan(s.slots.value.value.value, s.slots.value.value.expiresAt, window)
  }

  predicate FilledEntriesEnd(s: State, window: nat) {
    CachedEnds(s, window) && forall id | id in s.lookups :: LoadEnds(s.lookups[id].phase)
  }

  lemma StepKeepsEntriesEnding(s: State, e: Event, window: nat)
    requires FilledEntriesEnd(s, window) && WithinWindow(s, e, window) && (e.SetKey? ==> e.value.Written?)
    ensures FilledEntriesEnd(Apply(s, e), window)
  {
    forall id | id in Apply(s, e).lookups ensures LoadEnds(Apply(s, e).lookups[id].phase) {
      assert id in s.lookups ==> LoadEnds(s.lookups[id].phase);
    }
  }

  lemma {:induction false} FilledEntriesRun(s: State, es: seq<Event>, window: nat)
    requires FilledEntriesEnd(s, window) && QuickFills(s, es, window) && OnlyWrittenSets(es)
    ensures FilledEntriesEnd(Run(s, es), window)
    decreases |es|
  {
    if es != [] {
      StepKeepsEntriesEnding(s, es[0], window);
      FilledEntriesRun(Apply(s, es[0]), es[1..], window);
    }
  }

  /**
   * A login filled from its row is never served past the row's own expiry by more than the fill took;
   * a list of logins, whose lifetime is rounded up to a second, by at most one second more.
   */
  lemma FilledLoginOutlivesRowByTheDelay(kind: KeyKind, es: seq<Event>, window: nat)
    requires QuickFills(Init(kind), es, window) && OnlyWrittenSets(es)
    ensures
      var last := Run(Init(kind), es);
      Live(last.slots.value, last.now) ==>
        match last.slots.value.value.value
        case Written(_) => true
        case FromRow(row) => last.now < row.expiresAt + window
        case FromRows(rows) => rows != [] && last.now < Furthest(rows) + window + 1000
  {
    FilledEntriesRun(Init(kind), es, window);
  }

  // ---------------------------------------------------------------- what is not promised

  /**
   * The fill looks for a tombstone, not for a newer value: a lookup that loaded before a `set` can
   * still overwrite what it stored.
   */
  lemma FillMayOverwriteNewerValue() returns (row: SessionRow, es: seq<Event>)
    ensures
      && |es| >= 2 && es[|es| - 2..] == [SetKey(Written("new"), 60), Finish(0, true)]
      && Run(Init(SessionToken), es).slots.value == Some(Entry(FromRow(row), Some(100_000)))
  {
    row := SessionRow("session", "user", "token", 100_000);
    var s;
    es, s := Then([], Database([row]));
    es, s := Then(es, Begin(0, true));
    es, s := Then(es, ReadValue(0));
    es, s := Then(es, ReadMiss(0));
    assert s.lookups[0].phase == Loading;
    es, s := Then(es, LoadRows(0));
    assert s.lookups[0].phase == Filling(Some(Loaded(FromRow(row), 100)), 0);
    es, s := Then(es, SetKey(Written("new"), 60));
    es, s := Then(es, Finish(0, true));
  }

  /** A lookup that is past reading the value, found none, and has something to fill or may still load it. */
  predicate CanStillFill(lookup: Lookup) {
    match lookup.phase
    case AskMiss(cached) => cached.None? && lookup.hasLoader
    case Loading => true
    case Filling(loaded, _) => loaded.Some?
    case _ => false
  }

  predicate AnyCanStillFill(s: State) {
    exists id | id in s.lookups :: CanStillFill(s.lookups[id])
  }

  predicate Undisturbed(es: seq<Event>) {
    forall e | e in es :: !e.SetKey? && !e.DeleteKey?
  }

  /** Until it expires, nothing but another `set` or a `delete` changes the entry. */
  ghost predicate StaysStored(s: State, entry: Entry) {
    forall after: seq<Event> | Undisturbed(after) && Live(Some(entry), Run(s, after).now) ::
      Run(s, after).slots.value == Some(entry)
  }

  lemma {:induction false} TimeGrows(s: State, es: seq<Event>)
    ensures Run(s, es).now >= s.now
    decreases |es|
  {
    if es != [] { TimeGrows(Apply(s, es[0]), es[1..]); }
  }

  lemma {:induction false} RunKeepsStored(s: State, es: seq<Event>)
    requires !AnyCanStillFill(s) && s.slots.value.Some? && Undisturbed(es) && Live(s.slots.value, Run(s, es).now)
    ensures Run(s, es).slots.value == s.slots.value
    decreases |es|
  {
    if es != [] {
      TimeGrows(s, es);
      assert es[0] in es;
      RunKeepsStored(Apply(s, es[0]), es[1..]);
    }
  }

  lemma LoadableRow(kind: KeyKind, now: int) returns (row: SessionRow)
    requires !kind.Unloadable?
    ensures Load(kind, [row], now).Some? && !Load(kind, [row], now).value.value.Written?
  {
    row := SessionRow("session", "user", "token", now + 2000);
    assert row in Unexpired([row], now);
  }

  /** Any such lookup can overwrite the entry at once. */
  lemma OlderLookupOverwrites(s: State, id: nat) returns (after: seq<Event>)
    requires !s.kind.Unloadable? && id in s.lookups && CanStillFill(s.lookups[id])
    requires s.lookups[id].phase.Filling? ==> !s.lookups[id].phase.loaded.value.value.Written?
    requires s.slots.miss.None? && s.slots.revoked.None?
    ensures Undisturbed(after) && Run(s, after).now == s.now
    ensures Run(s, after).slots.value.Some? && !Run(s, after).slots.value.value.value.Written?
  {
    var row := LoadableRow(s.kind, s.now);
    RunFour(s, ReadMiss(id), Database([row]), LoadRows(id), Finish(id, true));
    if s.lookups[id].phase.Filling? {
      after := [Finish(id, true)];
    } else if s.lookups[id].phase.Loading? {
      after := [Database([row]), LoadRows(id), Finish(id, true)];
    } else {
      after := [ReadMiss(id), Database([row]), LoadRows(id), Finish(id, true)];
    }
  }

  predicate NoLoadIsWritten(s: State) {
    forall id | id in s.lookups && s.lookups[id].phase.Filling? && s.lookups[id].phase.loaded.Some? ::
      !s.lookups[id].phase.loaded.value.value.Written?
  }

  lemma {:induction false} LoadsAreNotWritten(s: State, es: seq<Event>)
    requires NoLoadIsWritten(s)
    ensures NoLoadIsWritten(Run(s, es)) && Run(s, es).kind == s.kind
    decreases |es|
  {
    if es != [] { LoadsAreNotWritten(Apply(s, es[0]), es[1..]); }
  }

  /**
   * What `set` stored stays in the cache until it expires, is set again or is deleted - exactly when no
   * lookup that missed before the `set` can still fill.
   */
  lemma SetValueStaysUnlessOlderLookups(kind: KeyKind, before: seq<Event>, text: string, ttlSeconds: nat)
    requires !kind.Unloadable?
    ensures
      var s := Run(Init(kind), before);
      var stored := Apply(s, SetKey(Written(text), ttlSeconds));
      StaysStored(stored, stored.slots.value.value) <==> !AnyCanStillFill(s)
  {
    var s := Run(Init(kind), before);
    var stored := Apply(s, SetKey(Written(text), ttlSeconds));
    LoadsAreNotWritten(Init(kind), before);
    if AnyCanStillFill(s) {
      var id :| id in s.lookups && CanStillFill(s.lookups[id]);
      var after := OlderLookupOverwrites(stored, id);
      assert Run(stored, after).slots.value != stored.slots.value;
    } else {
      forall after: seq<Event> | Undisturbed(after) && Live(stored.slots.value, Run(stored, after).now)
        ensures Run(stored, after).slots.value == stored.slots.value
      {
        RunKeepsStored(stored, after);
      }
    }
  }

  lemma Then(es: seq<Event>, e: Event) returns (more: seq<Event>, s: State)
    ensures more == es + [e] && s == Run(Init(SessionToken), more) == Apply(Run(Init(SessionToken), es), e)
  {
    RunSnoc(Init(SessionToken), es, e);
    more := es + [e];
    s := Run(Init(SessionToken), more);
  }

  lemma RunSnoc(s: State, es: seq<Event>, e: Event)
    ensures Run(s, es + [e]) == Apply(Run(s, es), e)
  {
    RunAppend(s, es, [e]);
    assert Run(Run(s, es), [e]) == Run(Apply(Run(s, es), e), [e][1..]);
  }
}
