/**
 * Who a message goes to, and the string that stands for everything about the participants that
 * decides it: the send path recomputes recipients under the lock only when that string changed.
 */
module Recipients {
  import opened Common

  datatype ParticipantState = ACTIVE | PENDING | DECLINED | BLOCKED | ARCHIVED | JOINING | LEAVING

  datatype NotificationLevel = ALL | NOTHING

  datatype Participant = Participant(
    userId: string, state: ParticipantState, level: NotificationLevel, mutedUntil: Option<int>)

  // ---------------------------------------------------------------- the key of a participant list

  function StateName(state: ParticipantState): (name: string)
    ensures ':' !in name && ',' !in name
  {
    match state
    case ACTIVE => "ACTIVE"
    case PENDING => "PENDING"
    case DECLINED => "DECLINED"
    case BLOCKED => "BLOCKED"
    case ARCHIVED => "ARCHIVED"
    case JOINING => "JOINING"
    case LEAVING => "LEAVING"
  }

  function LevelName(level: NotificationLevel): (name: string)
    ensures ':' !in name && ',' !in name
  {
    if level.ALL? then "ALL" else "NOTHING"
  }

  function Digit(d: nat): (c: char)
    requires d < 10
    ensures c != ':' && c != ',' && c != '-'
  {
    '0' + d as char
  }

  function Digits(n: nat): (s: string)
    ensures s != [] && forall c | c in s :: c != ':' && c != ',' && c != '-'
  {
    if n < 10 then [Digit(n)] else Digits(n / 10) + [Digit(n % 10)]
  }

  /** `${number}` for an integral number. */
  function Decimal(n: int): (s: string)
    ensures s != [] && forall c | c in s :: c != ':' && c != ','
    ensures s[0] == '-' <==> n < 0
  {
    assert n >= 0 ==> Digits(n)[0] in Digits(n);
    if n < 0 then "-" + Digits(-n) else Digits(n)
  }

  function MutedText(mutedUntil: Option<int>): (s: string)
    ensures ':' !in s && ',' !in s
  {
    if mutedUntil.None? then "" else Decimal(mutedUntil.value)
  }

  function RowKey(p: Participant): (key: string)
    ensures key != []
    ensures ',' !in p.userId ==> ',' !in key
  {
    p.userId + ":" + (StateName(p.state) + ":" + (LevelName(p.level) + ":" + MutedText(p.mutedUntil)))
  }

  function RowKeys(ps: seq<Participant>): seq<string> {
    Map(RowKey, ps)
  }

  /** String comparison by code unit, as `sort()` without a comparator uses. */
  predicate Leq(a: string, b: string) {
    a == [] || (b != [] && (a[0] < b[0] || (a[0] == b[0] && Leq(a[1..], b[1..]))))
  }

  function Insert(x: string, sorted: seq<string>): seq<string> {
    if sorted == [] || Leq(x, sorted[0]) then [x] + sorted else [sorted[0]] + Insert(x, sorted[1..])
  }

  function Sort(xs: seq<string>): seq<string> {
    if xs == [] then [] else Insert(xs[0], Sort(xs[1..]))
  }

  function Join(parts: seq<string>): string {
    if parts == [] then ""
    else if |parts| == 1 then parts[0]
    else parts[0] + "," + Join(parts[1..])
  }

  function ParticipantsKey(ps: seq<Participant>): string {
    Join(Sort(RowKeys(ps)))
  }

  // ---------------------------------------------------------------- rows can be read back

  lemma SplitAt(a: string, x: string, b: string, y: string, c: char)
    requires c !in a && c !in b && a + [c] + x == b + [c] + y
    ensures a == b && x == y
  {
    var left, right := a + [c] + x, b + [c] + y;
    assert left[|a|] == c && right[|b|] == c;
    assert forall i | 0 <= i < |a| :: left[i] == a[i] && a[i] in a;
    assert forall i | 0 <= i < |b| :: right[i] == b[i] && b[i] in b;
    assert |a| == |b|;
    assert left[..|a|] == a && right[..|b|] == b;
    assert left[|a| + 1..] == x && right[|b| + 1..] == y;
  }

  lemma {:induction false} DigitsInjective(m: nat, n: nat)
    requires Digits(m) == Digits(n)
    ensures m == n
  {
    if m >= 10 && n >= 10 {
      var a, b := Digits(m / 10), Digits(n / 10);
      assert (a + [Digit(m % 10)])[..|a|] == a && (b + [Digit(n % 10)])[..|b|] == b;
      DigitsInjective(m / 10, n / 10);
      assert Digit(m % 10) == (a + [Digit(m % 10)])[|a|] == (b + [Digit(n % 10)])[|b|] == Digit(n % 10);
    }
  }

  lemma MutedTextInjective(a: Option<int>, b: Option<int>)
    requires MutedText(a) == MutedText(b)
    ensures a == b
  {
    if a.Some? && b.Some? {
      var s, t := Decimal(a.value), Decimal(b.value);
      if a.value < 0 && b.value < 0 {
        assert s[1..] == Digits(-a.value) && t[1..] == Digits(-b.value);
        DigitsInjective(-a.value, -b.value);
      } else {
        DigitsInjective(a.value, b.value);
      }
    }
  }

  predicate CleanIds(ps: seq<Participant>) {
    forall p | p in ps :: ':' !in p.userId && ',' !in p.userId
  }

  lemma RowKeyInjective(p: Participant, q: Participant)
    requires ':' !in p.userId && ':' !in q.userId && RowKey(p) == RowKey(q)
    ensures p == q
  {
    var p2, q2 :=
      LevelName(p.level) + ":" + MutedText(p.mutedUntil), LevelName(q.level) + ":" + MutedText(q.mutedUntil);
    SplitAt(p.userId, StateName(p.state) + ":" + p2, q.userId, StateName(q.state) + ":" + q2, ':');
    SplitAt(StateName(p.state), p2, StateName(q.state), q2, ':');
    SplitAt(LevelName(p.level), MutedText(p.mutedUntil), LevelName(q.level), MutedText(q.mutedUntil), ':');
    MutedTextInjective(p.mutedUntil, q.mutedUntil);
  }

  lemma JoinShape(parts: seq<string>)
    requires forall x | x in parts :: x != [] && ',' !in x
    ensures parts == [] <==> Join(parts) == []
    ensures |parts| >= 2 <==> ',' in Join(parts)
  {
    if parts != [] {
      assert parts[0] in parts;
      assert |parts| >= 2 ==> Join(parts)[|parts[0]|] == ',';
    }
  }

  /** Non-empty strings without a comma can be read back from their join. */
  lemma {:induction false} JoinInjective(a: seq<string>, b: seq<string>)
    requires forall x | x in a :: x != [] && ',' !in x
    requires forall x | x in b :: x != [] && ',' !in x
    requires Join(a) == Join(b)
    ensures a == b
  {
    JoinShape(a);
    JoinShape(b);
    if |a| >= 2 && |b| >= 2 {
      SplitAt(a[0], Join(a[1..]), b[0], Join(b[1..]), ',');
      assert forall x | x in a[1..] :: x in a;
      assert forall x | x in b[1..] :: x in b;
      JoinInjective(a[1..], b[1..]);
    }
  }

  // ---------------------------------------------------------------- sorting forgets exactly the order

  lemma {:induction false} LeqTotal(a: string, b: string)
    ensures Leq(a, b) || Leq(b, a)
    ensures Leq(a, b) && Leq(b, a) ==> a == b
  {
    if a != [] && b != [] {
      LeqTotal(a[1..], b[1..]);
      assert a == [a[0]] + a[1..] && b == [b[0]] + b[1..];
    }
  }

  lemma {:induction false} LeqTransitive(a: string, b: string, c: string)
    requires Leq(a, b) && Leq(b, c)
    ensures Leq(a, c)
  {
    if a != [] && a[0] == b[0] && b[0] == c[0] {
      LeqTransitive(a[1..], b[1..], c[1..]);
    }
  }

  predicate Sorted(xs: seq<string>) {
    forall j, k | 0 <= j < k < |xs| :: Leq(xs[j], xs[k])
  }

  lemma {:induction false} InsertSorts(x: string, sorted: seq<string>)
    requires Sorted(sorted)
    ensures Sorted(Insert(x, sorted)) && multiset(Insert(x, sorted)) == multiset{x} + multiset(sorted)
  {
    if sorted == [] {
    } else if Leq(x, sorted[0]) {
      forall k | 0 <= k < |sorted| ensures Leq(x, sorted[k]) {
        if k > 0 { LeqTransitive(x, sorted[0], sorted[k]); }
      }
    } else {
      LeqTotal(x, sorted[0]);
      InsertSorts(x, sorted[1..]);
      assert sorted == [sorted[0]] + sorted[1..];
      var rest := Insert(x, sorted[1..]);
      forall k | 0 <= k < |rest| ensures Leq(sorted[0], rest[k]) {
        assert rest[k] in multiset(rest);
        assert rest[k] == x || rest[k] in sorted[1..];
      }
    }
  }

  lemma {:induction false} SortSorts(xs: seq<string>)
    ensures Sorted(Sort(xs)) && multiset(Sort(xs)) == multiset(xs)
  {
    if xs != [] {
      SortSorts(xs[1..]);
      InsertSorts(xs[0], Sort(xs[1..]));
      assert xs == [xs[0]] + xs[1..];
    }
  }

  lemma FirstIsLeast(sorted: seq<string>, x: string)
    requires Sorted(sorted) && x in sorted
    ensures Leq(sorted[0], x)
  {
    var k :| 0 <= k < |sorted| && sorted[k] == x;
    if k == 0 { LeqTotal(x, x); }
  }

  lemma SameHeads(a: seq<string>, b: seq<string>)
    requires Sorted(a) && Sorted(b) && a != [] && b != [] && a[0] in b && b[0] in a
    ensures a[0] == b[0]
  {
    FirstIsLeast(a, b[0]);
    FirstIsLeast(b, a[0]);
    LeqTotal(a[0], b[0]);
  }

  lemma SameTails(a: seq<string>, b: seq<string>)
    requires a != [] && b != [] && a[0] == b[0] && multiset(a) == multiset(b)
    ensures multiset(a[1..]) == multiset(b[1..])
  {
    assert a == [a[0]] + a[1..] && b == [b[0]] + b[1..];
    assert multiset(a[1..]) == multiset(a) - multiset{a[0]};
    assert multiset(b[1..]) == multiset(b) - multiset{b[0]};
  }

  lemma SameMembers(a: seq<string>, b: seq<string>)
    requires multiset(a) == multiset(b)
    ensures |a| == |b| && (a != [] ==> a[0] in b && b[0] in a)
  {
    assert |a| == |multiset(a)| == |multiset(b)| == |b|;
    if a != [] {
      assert a[0] in multiset(a) && b[0] in multiset(b);
    }
  }

  lemma {:induction false} SortedUnique(a: seq<string>, b: seq<string>)
    requires Sorted(a) && Sorted(b) && multiset(a) == multiset(b)
    ensures a == b
  {
    SameMembers(a, b);
    if a != [] {
      SameHeads(a, b);
      SameTails(a, b);
      SortedUnique(a[1..], b[1..]);
      assert a == [a[0]] + a[1..] && b == [b[0]] + b[1..];
    }
  }

  lemma EqualKeysEqualRows(a: seq<Participant>, b: seq<Participant>)
    requires CleanIds(a) && CleanIds(b) && multiset(RowKeys(a)) == multiset(RowKeys(b))
    ensures multiset(a) == multiset(b)
  {
    forall p ensures multiset(a)[p] == multiset(b)[p] {
      if p in a || p in b {
        forall q | q in a + b ensures RowKey(q) == RowKey(p) ==> q == p {
          if RowKey(q) == RowKey(p) { RowKeyInjective(q, p); }
        }
        CountOfImage(RowKey, a, p);
        CountOfImage(RowKey, b, p);
      }
    }
  }

  lemma SortedKeysAreClean(ps: seq<Participant>)
    requires CleanIds(ps)
    ensures forall x | x in Sort(RowKeys(ps)) :: x != [] && ',' !in x
  {
    SortSorts(RowKeys(ps));
    forall x | x in Sort(RowKeys(ps)) ensures x != [] && ',' !in x {
      assert x in multiset(RowKeys(ps));
    }
  }

  lemma RowKeysJoin(a: seq<Participant>, b: seq<Participant>)
    requires CleanIds(a) && CleanIds(b) && ParticipantsKey(a) == ParticipantsKey(b)
    ensures multiset(RowKeys(a)) == multiset(RowKeys(b))
  {
    SortSorts(RowKeys(a));
    SortSorts(RowKeys(b));
    SortedKeysAreClean(a);
    SortedKeysAreClean(b);
    JoinInjective(Sort(RowKeys(a)), Sort(RowKeys(b)));
  }

  /** Two lists of participants have the same key exactly when they are the same rows, in whatever order. */
  lemma KeyIsExact(a: seq<Participant>, b: seq<Participant>)
    requires CleanIds(a) && CleanIds(b)
    ensures ParticipantsKey(a) == ParticipantsKey(b) <==> multiset(a) == multiset(b)
  {
    if ParticipantsKey(a) == ParticipantsKey(b) {
      RowKeysJoin(a, b);
      EqualKeysEqualRows(a, b);
    }
    if multiset(a) == multiset(b) {
      MapPermutes(RowKey, a, b);
      SortSorts(RowKeys(a));
      SortSorts(RowKeys(b));
      SortedUnique(Sort(RowKeys(a)), Sort(RowKeys(b)));
    }
  }

  // ---------------------------------------------------------------- who gets the message

  datatype ConversationType = DIRECT | GROUP

  /** What `resolveRecipients` reads besides the participants: who blocked the sender, and the clock. */
  datatype Send = Send(
    kind: ConversationType, senderId: string, mentioned: set<string>, blockers: set<string>, now: int)

  predicate IsStateDeliveryEligible(kind: ConversationType, state: ParticipantState) {
    if kind.GROUP? then state.ACTIVE? || state.ARCHIVED? else !state.DECLINED? && !state.BLOCKED?
  }

  /** "Muted": NOTHING with no end time, or an end time still ahead. */
  predicate IsMuted(p: Participant, now: int) {
    p.level.NOTHING? && (p.mutedUntil.None? || p.mutedUntil.value > now)
  }

  predicate IsNotifiable(send: Send, p: Participant) {
    p.state.ACTIVE? && !IsMuted(p, send.now) && p.userId !in send.blockers
  }

  datatype Audience = Deliverable | Notified | Silent | Mentioned

  predicate Reaches(send: Send, audience: Audience, p: Participant) {
    var other := p.userId != send.senderId && IsStateDeliveryEligible(send.kind, p.state);
    match audience
    case Deliverable => p.userId == send.senderId || IsStateDeliveryEligible(send.kind, p.state)
    case Notified => other && IsNotifiable(send, p)
    case Silent => other && !IsNotifiable(send, p)
    case Mentioned => other && p.userId in send.mentioned && p.state.ACTIVE? && p.userId !in send.blockers
  }

  function Select(send: Send, audience: Audience, ps: seq<Participant>): seq<Participant> {
    if ps == [] then []
    else (if Reaches(send, audience, ps[0]) then [ps[0]] else []) + Select(send, audience, ps[1..])
  }

  function UserIdOf(p: Participant): string { p.userId }

  function AudienceIds(send: Send, audience: Audience, ps: seq<Participant>): seq<string> {
    Map(UserIdOf, Select(send, audience, ps))
  }

  function BlockerIds(send: Send, ps: seq<Participant>): set<string> {
    set p | p in ps && p.userId != send.senderId && IsStateDeliveryEligible(send.kind, p.state)
      && p.userId in send.blockers :: p.userId
  }

  datatype Resolved = Resolved(
    deliverableIds: seq<string>, blockerIds: set<string>, notifiableIds: seq<string>, silentIds: seq<string>,
      mentionedIds: seq<string>)

  function ResolveRecipients(send: Send, ps: seq<Participant>): Resolved {
    Resolved(AudienceIds(send, Deliverable, ps), BlockerIds(send, ps), AudienceIds(send, Notified, ps),
             AudienceIds(send, Silent, ps), AudienceIds(send, Mentioned, ps))
  }

  // ---------------------------------------------------------------- person by person

  /** In a group whoever is there or has put it away; in a direct chat whoever has not declined or blocked it. */
  predicate IsReachable(kind: ConversationType, p: Participant) {
    if kind == GROUP then p.state == ACTIVE || p.state == ARCHIVED else p.state != DECLINED && p.state != BLOCKED
  }

  predicate IsRung(p: Participant, now: int) {
    p.level == ALL || (p.mutedUntil.Some? && p.mutedUntil.value <= now)
  }

  lemma {:induction false} AudienceIs(send: Send, audience: Audience, ps: seq<Participant>, userId: string)
    ensures userId in AudienceIds(send, audience, ps) <==>
      exists p | p in ps :: p.userId == userId && Reaches(send, audience, p)
  {
    if ps != [] {
      AudienceOfCons(send, audience, ps);
      AudienceIs(send, audience, ps[1..], userId);
      assert forall p :: p in ps <==> p == ps[0] || p in ps[1..];
    }
  }

  /** Who is in which list, by the rows, the blocks, the mentions and the clock alone. */
  lemma RecipientsAre(send: Send, ps: seq<Participant>, userId: string)
    ensures
      var resolved := ResolveRecipients(send, ps);
      var isSender, blocks := userId == send.senderId, userId in send.blockers;
      && (userId in resolved.deliverableIds <==>
            exists p | p in ps :: p.userId == userId && (isSender || IsReachable(send.kind, p)))
      && (userId in resolved.notifiableIds <==>
            && !isSender && !blocks
            && exists p | p in ps :: p.userId == userId && p.state == ACTIVE && IsRung(p, send.now))
      && (userId in resolved.silentIds <==>
            && !isSender
            && exists p | p in ps ::
                 && p.userId == userId && IsReachable(send.kind, p)
                 && (blocks || p.state != ACTIVE || !IsRung(p, send.now)))
      && (userId in resolved.mentionedIds <==>
            && !isSender && !blocks && userId in send.mentioned
            && exists p | p in ps :: p.userId == userId && p.state == ACTIVE)
      && (userId in resolved.blockerIds <==>
            !isSender && blocks && exists p | p in ps :: p.userId == userId && IsReachable(send.kind, p))
  {
    AudienceIs(send, Deliverable, ps, userId);
    AudienceIs(send, Notified, ps, userId);
    AudienceIs(send, Silent, ps, userId);
    AudienceIs(send, Mentioned, ps, userId);
  }

  /** The same people, in whatever order. */
  predicate SameRecipients(a: Resolved, b: Resolved) {
    && multiset(a.deliverableIds) == multiset(b.deliverableIds)
    && a.blockerIds == b.blockerIds
    && multiset(a.notifiableIds) == multiset(b.notifiableIds)
    && multiset(a.silentIds) == multiset(b.silentIds)
    && multiset(a.mentionedIds) == multiset(b.mentionedIds)
  }

  lemma {:induction false} SelectCounts(send: Send, audience: Audience, ps: seq<Participant>, p: Participant)
    ensures multiset(Select(send, audience, ps))[p] == if Reaches(send, audience, p) then multiset(ps)[p] else 0
  {
    if ps != [] {
      assert ps == [ps[0]] + ps[1..];
      SelectCounts(send, audience, ps[1..], p);
    }
  }

  lemma AudienceIgnoresOrder(send: Send, audience: Audience, a: seq<Participant>, b: seq<Participant>)
    requires multiset(a) == multiset(b)
    ensures multiset(AudienceIds(send, audience, a)) == multiset(AudienceIds(send, audience, b))
  {
    forall p ensures multiset(Select(send, audience, a))[p] == multiset(Select(send, audience, b))[p] {
      SelectCounts(send, audience, a, p);
      SelectCounts(send, audience, b, p);
    }
    MapPermutes(UserIdOf, Select(send, audience, a), Select(send, audience, b));
  }

  lemma RecipientsIgnoreOrder(send: Send, a: seq<Participant>, b: seq<Participant>)
    requires multiset(a) == multiset(b)
    ensures SameRecipients(ResolveRecipients(send, a), ResolveRecipients(send, b))
  {
    AudienceIgnoresOrder(send, Deliverable, a, b);
    AudienceIgnoresOrder(send, Notified, a, b);
    AudienceIgnoresOrder(send, Silent, a, b);
    AudienceIgnoresOrder(send, Mentioned, a, b);
    forall p ensures p in a <==> p in b {
      assert p in multiset(a) <==> p in multiset(b);
    }
  }

  /**
   * The fast path: when the key of the locked rows is the key of the rows read before the lock,
   * keeping the recipients worked out then is recomputing them now.
   */
  lemma EqualKeysGiveEqualRecipients(send: Send, before: seq<Participant>, locked: seq<Participant>)
    requires CleanIds(before) && CleanIds(locked) && ParticipantsKey(before) == ParticipantsKey(locked)
    ensures SameRecipients(ResolveRecipients(send, before), ResolveRecipients(send, locked))
  {
    KeyIsExact(before, locked);
    RecipientsIgnoreOrder(send, before, locked);
  }

  function Reached(send: Send, audience: Audience, ps: seq<Participant>): multiset<string> {
    multiset(AudienceIds(send, audience, ps))
  }

  /** Everyone it is delivered to but the sender is notified or silent, never both. */
  lemma {:induction false} NotifiedAndSilentPartition(send: Send, ps: seq<Participant>)
    ensures Reached(send, Deliverable, ps) ==
      Reached(send, Notified, ps) + Reached(send, Silent, ps) + multiset(SenderIds(send, ps))
  {
    if ps != [] {
      var p, rest := ps[0], ps[1..];
      NotifiedAndSilentPartition(send, rest);
      SumOfThree(
        OneIf(Reaches(send, Deliverable, p), p.userId), OneIf(Reaches(send, Notified, p), p.userId),
        OneIf(Reaches(send, Silent, p), p.userId), OneIf(p.userId == send.senderId, p.userId),
        Reached(send, Notified, rest), Reached(send, Silent, rest), multiset(SenderIds(send, rest)));
      ReachedOfCons(send, Deliverable, ps);
      ReachedOfCons(send, Notified, ps);
      ReachedOfCons(send, Silent, ps);
    }
  }

  function OneIf(yes: bool, userId: string): multiset<string> {
    if yes then multiset{userId} else multiset{}
  }

  lemma ReachedOfCons(send: Send, audience: Audience, ps: seq<Participant>)
    requires ps != []
    ensures Reached(send, audience, ps) ==
      OneIf(Reaches(send, audience, ps[0]), ps[0].userId) + Reached(send, audience, ps[1..])
  {
    AudienceOfCons(send, audience, ps);
  }

  lemma SumOfThree(
    one: multiset<string>, a: multiset<string>, b: multiset<string>, c: multiset<string>,
    x: multiset<string>, y: multiset<string>, z: multiset<string>)
    requires one == a + b + c
    ensures one + (x + y + z) == (a + x) + (b + y) + (c + z)
  {
  }

  function SenderIds(send: Send, ps: seq<Participant>): seq<string> {
    if ps == [] then [] else (if ps[0].userId == send.senderId then [ps[0].userId] else []) + SenderIds(send, ps[1..])
  }

  lemma AudienceOfCons(send: Send, audience: Audience, ps: seq<Participant>)
    requires ps != []
    ensures AudienceIds(send, audience, ps) ==
      (if Reaches(send, audience, ps[0]) then [ps[0].userId] else []) + AudienceIds(send, audience, ps[1..])
  {
  }
}
