/**
 * Any number of lookups of one key, on any instances, running between `set`, `delete`, database
 * changes and Redis failures. A lookup is four steps: read the value, read the miss marker, load the
 * database, then fill or mark a miss; everything else may happen between any two of them.
 */
module LoginCacheRuns {
  import opened Common
  import opened SessionStorage

  datatype Phase =
    | AskValue
    | AskMiss(cached: Option<Value>)
    | Loading
    | LoadingDirect
    | Filling(loaded: Option<Loaded>, loadedAt: int)
    | Done(answer: Option<Value>)

  datatype Lookup = Lookup(begunAt: int, hasLoader: bool, phase: Phase)

  datatype State = State(now: int, kind: KeyKind, slots: Slots, rows: seq<SessionRow>, lookups: map<nat, Lookup>)

  datatype Event =
    | Tick(ms: nat)
    | Begin(id: nat, hasLoader: bool)
    | ReadValue(id: nat)
    | ReadMiss(id: nat)
    | RedisFails(id: nat)
    | LoadRows(id: nat)
    | Finish(id: nat, written: bool)
    | SetKey(value: Value, ttlSeconds: nat)
    | DeleteKey
    | Database(rows: seq<SessionRow>)

  function Init(kind: KeyKind): State {
    State(0, kind, Slots(None, None, None), [], map[])
  }

  function To(s: State, id: nat, phase: Phase): State
    requires id in s.lookups
  {
    s.(lookups := s.lookups[id := s.lookups[id].(phase := phase)])
  }

  function CachedValue(entry: Option<Entry>, now: int): Option<Value> {
    if Live(entry, now) then Some(entry.value.value) else None
  }

  function Answer(loaded: Option<Loaded>): Option<Value> {
    if loaded.Some? then Some(loaded.value.value) else None
  }

  /** One event. An event that is not possible in the lookup's phase changes nothing. */
  function Apply(s: State, e: Event): State {
    match e
    case Tick(ms) => s.(now := s.now + ms)
    case Begin(id, hasLoader) =>
      if id in s.lookups then s else s.(lookups := s.lookups[id := Lookup(s.now, hasLoader, AskValue)])
    case ReadValue(id) =>
      if id in s.lookups && s.lookups[id].phase.AskValue? then
        To(s, id, AskMiss(CachedValue(s.slots.value, s.now)))
      else s
    case ReadMiss(id) =>
      if id in s.lookups && s.lookups[id].phase.AskMiss? then
        var cached := s.lookups[id].phase.cached;
        if cached.Some? || !s.lookups[id].hasLoader || Live(s.slots.miss, s.now) then To(s, id, Done(cached))
        else To(s, id, Loading)
      else s
    case RedisFails(id) =>
      if id in s.lookups && (s.lookups[id].phase.AskValue? || s.lookups[id].phase.AskMiss?) then
        To(s, id, LoadingDirect)
      else s
    case LoadRows(id) =>
      if id in s.lookups && s.lookups[id].phase.Loading? then
        To(s, id, Filling(Load(s.kind, s.rows, s.now), s.now))
      else if id in s.lookups && s.lookups[id].phase.LoadingDirect? then
        To(s, id, Done(if s.lookups[id].hasLoader then Answer(Load(s.kind, s.rows, s.now)) else None))
      else s
    case Finish(id, written) =>
      if id in s.lookups && s.lookups[id].phase.Filling? then
        var loaded := s.lookups[id].phase.loaded;
        var slots :=
          if !written then s.slots
          else if loaded.None? then MarkMissed(s.slots, s.now)
          else FillUnlessRevoked(s.slots, loaded.value, s.now);
        To(s.(slots := slots), id, Done(Answer(loaded)))
      else s
    case SetKey(value, ttlSeconds) => s.(slots := AfterSet(value, ttlSeconds, s.now))
    case DeleteKey => s.(slots := AfterDelete(s.slots, s.now))
    case Database(rows) => s.(rows := rows)
  }

  function Run(s: State, es: seq<Event>): State
    decreases |es|
  {
    if es == [] then s else Run(Apply(s, es[0]), es[1..])
  }

  lemma {:induction false} RunAppend(s: State, a: seq<Event>, b: seq<Event>)
    ensures Run(s, a + b) == Run(Run(s, a), b)
    decreases |a|
  {
    if a == [] {
      assert a + b == b;
    } else {
      assert (a + b)[0] == a[0] && (a + b)[1..] == a[1..] + b;
      RunAppend(Apply(s, a[0]), a[1..], b);
    }
  }

  /** A lookup that runs without interruption is the store's own `get`. */
  lemma UninterruptedLookupIsGet(s: State, id: nat, hasLoader: bool)
    requires id !in s.lookups
    ensures
      var last := Run(s, [Begin(id, hasLoader), ReadValue(id), ReadMiss(id), LoadRows(id), Finish(id, true)]);
      && id in last.lookups && last.lookups[id].phase.Done?
      && (last.slots, last.lookups[id].phase.answer) == UncontendedGet(s.slots, s.kind, hasLoader, s.rows, s.now)
  {
    var begun := Apply(s, Begin(id, hasLoader));
    RunFour(begun, ReadValue(id), ReadMiss(id), LoadRows(id), Finish(id, true));
    assert [Begin(id, hasLoader), ReadValue(id), ReadMiss(id), LoadRows(id), Finish(id, true)][1..]
      == [ReadValue(id), ReadMiss(id), LoadRows(id), Finish(id, true)];
  }

  lemma RunFour(s: State, a: Event, b: Event, c: Event, d: Event)
    ensures Run(s, [d]) == Apply(s, d)
    ensures Run(s, [b, c, d]) == Apply(Apply(Apply(s, b), c), d)
    ensures Run(s, [a, b, c, d]) == Apply(Apply(Apply(Apply(s, a), b), c), d)
  {
    var s1 := Apply(s, a);
    assert [d][1..] == [] && [c, d][1..] == [d] && [b, c, d][1..] == [c, d] && [a, b, c, d][1..] == [b, c, d];
    assert Run(s, [d]) == Run(Apply(s, d), []);
    assert Run(s, [b, c, d]) ==
      Run(Apply(s, b), [c, d]) == Run(Apply(Apply(s, b), c), [d]) == Run(Apply(Apply(Apply(s, b), c), d), []);
    assert Run(s1, [b, c, d]) ==
      Run(Apply(s1, b), [c, d]) == Run(Apply(Apply(s1, b), c), [d]) == Run(Apply(Apply(Apply(s1, b), c), d), []);
    assert Run(s, [a, b, c, d]) == Run(s1, [b, c, d]);
  }

  /** A step of this lookup. */
  predicate IsStepOf(e: Event, id: nat) {
    (e.ReadValue? || e.ReadMiss? || e.RedisFails? || e.LoadRows? || e.Finish?) && e.id == id
  }

  /** A lookup in flight is moved by its own steps only, and the cache only by writes to it. */
  lemma LookupsGoTheirOwnWay(s: State, e: Event, id: nat)
    requires id in s.lookups
    ensures !IsStepOf(e, id) ==> id in Apply(s, e).lookups && Apply(s, e).lookups[id] == s.lookups[id]
    ensures Apply(s, e).slots != s.slots ==> e.SetKey? || e.DeleteKey? || (e.Finish? && e.written)
    ensures Apply(s, e).rows == if e.Database? then e.rows else s.rows
    ensures Apply(s, e).now == s.now + if e.Tick? then e.ms else 0
  {
  }

  /** While Redis cannot be read, a lookup answers what the database holds and leaves the cache alone. */
  lemma LookupWithoutRedis(s: State, id: nat, hasLoader: bool)
    requires id !in s.lookups
    ensures
      var last := Run(s, [Begin(id, hasLoader), RedisFails(id), LoadRows(id)]);
      && last.slots == s.slots && id in last.lookups && last.lookups[id].phase.Done?
      && var answer := last.lookups[id].phase.answer;
      if hasLoader then
        exists loaded ::
          IsLoad(s.kind, s.rows, s.now, loaded)
          && answer == if loaded.Some? then Some(loaded.value.value) else None
      else answer.None?
  {
    var es := [Begin(id, hasLoader), RedisFails(id), LoadRows(id)];
    var begun := Apply(s, es[0]);
    var failed := Apply(begun, es[1]);
    assert es[1..][1..] == es[2..] && es[2..][1..] == [];
    assert Run(s, es) == Run(begun, es[1..]) == Run(failed, es[2..]) == Run(Apply(failed, es[2]), []);
    LoadIs(s.kind, s.rows, s.now);
  }

  /** When Redis fails only at the write, the answer is the same and the cache is as it was. */
  lemma LookupThatCannotWrite(s: State, id: nat)
    requires id in s.lookups && s.lookups[id].phase.Filling?
    ensures
      var failed, written := Apply(s, Finish(id, false)), Apply(s, Finish(id, true));
      && failed.slots == s.slots && id in failed.lookups && failed.lookups == written.lookups
      && failed.lookups[id].phase ==
           Done(if s.lookups[id].phase.loaded.Some? then Some(s.lookups[id].phase.loaded.value.value) else None)
  {
  }

  // ---------------------------------------------------------------- every reachable state

  predicate WellTimed(s: State) {
    forall id | id in s.lookups ::
      && s.lookups[id].begunAt <= s.now
      && (s.lookups[id].phase.Filling? ==> s.lookups[id].begunAt <= s.lookups[id].phase.loadedAt <= s.now)
  }

  lemma {:induction false} ReachableIsWellTimed(s: State, es: seq<Event>)
    requires WellTimed(s)
    ensures WellTimed(Run(s, es)) && Run(s, es).now >= s.now && Run(s, es).kind == s.kind
    decreases |es|
  {
    if es != [] {
      ReachableIsWellTimed(Apply(s, es[0]), es[1..]);
    }
  }

  /** What a fill may take: at most `window` from the database read to the write. */
  predicate WithinWindow(s: State, e: Event, window: nat) {
    e.Finish? && e.id in s.lookups && s.lookups[e.id].phase.Filling? ==>
      s.now - s.lookups[e.id].phase.loadedAt <= window
  }
}
