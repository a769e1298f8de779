/** What one person may learn from the receipts of a message list, and who is told of a read as it happens. */
module Receipts {
  import opened Common
  import opened Recipients

  datatype Party = Party(sendsReadReceipts: bool, state: ParticipantState)

  datatype PartyRow = PartyRow(userId: string, state: ParticipantState, deleted: bool, sendReadReceipts: bool)

  datatype Receipt = Receipt(messageId: string, userId: string, deliveredAt: Option<int>, readAt: Option<int>)

  datatype SharedReceipt = SharedReceipt(messageId: string, userId: string, delivered: bool, readAt: Option<int>)

  datatype Listed<R> = Listed(id: string, senderId: string, receipts: seq<R>)

  predicate HasJoinedConversation(state: ParticipantState) {
    state.ACTIVE? || state.ARCHIVED?
  }

  /** `new Map(rows.map(...))`: a later row of the same person replaces an earlier one. */
  function ToReceiptParties(rows: seq<PartyRow>): map<string, Party> {
    if rows == [] then map[]
    else
      var last := rows[|rows| - 1];
      ToReceiptParties(rows[..|rows| - 1])[last.userId := Party(last.sendReadReceipts, last.state)]
  }

  predicate CanSeeReadTime(parties: map<string, Party>, reader: string, viewer: string) {
    && reader in parties && parties[reader].sendsReadReceipts
    && viewer in parties && parties[viewer].sendsReadReceipts
    && HasJoinedConversation(parties[reader].state)
  }

  // ---------------------------------------------------------------- the rule, row by row

  /** The person's row; a later one would have taken its place. */
  predicate IsRowOf(rows: seq<PartyRow>, k: int, userId: string) {
    0 <= k < |rows| && rows[k].userId == userId && forall j | k < j < |rows| :: rows[j].userId != userId
  }

  /** Both people send read receipts, and the reader has accepted the conversation and not left it. */
  predicate MaySee(rows: seq<PartyRow>, reader: string, viewer: string) {
    exists k, j | 0 <= k < |rows| && 0 <= j < |rows| ::
      && IsRowOf(rows, k, reader) && IsRowOf(rows, j, viewer)
      && rows[k].sendReadReceipts && rows[j].sendReadReceipts && (rows[k].state == ACTIVE || rows[k].state == ARCHIVED)
  }

  lemma {:induction false} PartiesAre(rows: seq<PartyRow>, userId: string)
    ensures userId in ToReceiptParties(rows) <==> exists k :: IsRowOf(rows, k, userId)
    ensures forall k :: IsRowOf(rows, k, userId) ==>
      userId in ToReceiptParties(rows)
      && ToReceiptParties(rows)[userId] == Party(rows[k].sendReadReceipts, rows[k].state)
  {
    if rows != [] {
      var last, rest := |rows| - 1, rows[..|rows| - 1];
      PartiesAre(rest, userId);
      if rows[last].userId == userId {
        assert IsRowOf(rows, last, userId);
      } else {
        assert forall k :: IsRowOf(rows, k, userId) <==> IsRowOf(rest, k, userId);
      }
    }
  }

  /** Who may see whose read times, by the rows alone. */
  lemma CanSeeExactly(rows: seq<PartyRow>, reader: string, viewer: string)
    ensures CanSeeReadTime(ToReceiptParties(rows), reader, viewer) <==> MaySee(rows, reader, viewer)
  {
    PartiesAre(rows, reader);
    PartiesAre(rows, viewer);
    if CanSeeReadTime(ToReceiptParties(rows), reader, viewer) {
      var k, j :| IsRowOf(rows, k, reader) && IsRowOf(rows, j, viewer);
      assert rows[k].sendReadReceipts && rows[j].sendReadReceipts;
    }
  }

  function Share(r: Receipt): SharedReceipt {
    SharedReceipt(r.messageId, r.userId, r.deliveredAt.Some?, r.readAt)
  }

  // ---------------------------------------------------------------- what the masked list is

  predicate AnyRead(rs: seq<Receipt>, reader: string) {
    exists r | r in rs :: r.userId == reader && r.readAt.Some?
  }

  predicate ReadsAt(messages: seq<Listed<Receipt>>, reader: string, k: nat)
    requires k < |messages|
  {
    AnyRead(messages[k].receipts, reader)
  }

  /** The newest message this person has read; the list is oldest first. */
  predicate IsLastRead(messages: seq<Listed<Receipt>>, reader: string, k: nat)
    requires k < |messages|
  {
    ReadsAt(messages, reader, k) && forall j | k < j < |messages| :: !ReadsAt(messages, reader, j)
  }

  /** The others whose place in the thread, as far as the viewer may know, is this message. */
  function UpToHere(messages: seq<Listed<Receipt>>, viewer: string, parties: map<string, Party>, k: nat): set<string>
    requires k < |messages|
  {
    set r | r in messages[k].receipts && r.userId != viewer && CanSeeReadTime(parties, r.userId, viewer)
      && IsLastRead(messages, r.userId, k) :: r.userId
  }

  function Limited(viewer: string, parties: map<string, Party>, r: Receipt): SharedReceipt {
    Share(r).(readAt := if CanSeeReadTime(parties, r.userId, viewer) then r.readAt else None)
  }

  /** The three selections of a message's receipts: one's own, the others' as far as one may see, and some people's. */
  datatype Selection =
    | Mine(viewer: string)
    | Others(viewer: string, parties: map<string, Party>)
    | Theirs(people: set<string>)

  predicate Selects(selection: Selection, userId: string) {
    match selection
    case Mine(viewer) => userId == viewer
    case Others(viewer, _) => userId != viewer
    case Theirs(people) => userId in people
  }

  function AsShown(selection: Selection, r: Receipt): SharedReceipt {
    if selection.Others? then Limited(selection.viewer, selection.parties, r) else Share(r)
  }

  function Shown(selection: Selection, rs: seq<Receipt>): seq<SharedReceipt> {
    if rs == [] then []
    else (if Selects(selection, rs[0].userId) then [AsShown(selection, rs[0])] else []) + Shown(selection, rs[1..])
  }

  function MaskedReceipts(
      m: Listed<Receipt>, viewer: string, parties: map<string, Party>, upTo: set<string>): seq<SharedReceipt>
  {
    Shown(Mine(viewer), m.receipts)
    + Shown(if m.senderId == viewer then Others(viewer, parties) else Theirs(upTo), m.receipts)
  }

  function Masked(
      messages: seq<Listed<Receipt>>, viewer: string, parties: map<string, Party>): (masked: seq<Listed<SharedReceipt>>)
    ensures |masked| == |messages|
    ensures forall k | 0 <= k < |messages| ::
      masked[k].id == messages[k].id && masked[k].senderId == messages[k].senderId
  {
    seq(|messages|, k requires 0 <= k < |messages| =>
      Listed(messages[k].id, messages[k].senderId,
             MaskedReceipts(messages[k], viewer, parties, UpToHere(messages, viewer, parties, k))))
  }

  // ---------------------------------------------------------------- how it is worked out

  /** `lastReadAt` after the first `done` messages. */
  ghost predicate TracksReads(
      messages: seq<Listed<Receipt>>, viewer: string, parties: map<string, Party>, done: nat,
      lastReadAt: map<string, nat>)
    requires done <= |messages|
  {
    forall reader :: TracksReader(messages, viewer, parties, done, lastReadAt, reader)
  }

  predicate TracksReader(
    messages: seq<Listed<Receipt>>, viewer: string, parties: map<string, Party>, done: nat,
      lastReadAt: map<string, nat>, reader: string)
    requires done <= |messages|
  {
    if reader in lastReadAt then
      && reader != viewer && CanSeeReadTime(parties, reader, viewer)
      && lastReadAt[reader] < done && ReadsAt(messages, reader, lastReadAt[reader])
      && forall j | lastReadAt[reader] < j < done :: !ReadsAt(messages, reader, j)
    else
      reader != viewer && CanSeeReadTime(parties, reader, viewer) ==>
        forall j | 0 <= j < done :: !ReadsAt(messages, reader, j)
  }

  /** One message's receipts, noted one after another. */
  method NoteReads(
      m: Listed<Receipt>, index: nat, viewer: string, parties: map<string, Party>, before: map<string, nat>)
    returns (lastReadAt: map<string, nat>)
    ensures NotesReaders(m.receipts, index, viewer, parties, before, lastReadAt)
  {
    lastReadAt := before;
    for k := 0 to |m.receipts|
      invariant NotesReaders(m.receipts[..k], index, viewer, parties, before, lastReadAt)
    {
      var r := m.receipts[k];
      ghost var was := lastReadAt;
      if r.userId != viewer && r.readAt.Some? && CanSeeReadTime(parties, r.userId, viewer) {
        lastReadAt := lastReadAt[r.userId := index];
      }
      assert m.receipts[..k + 1] == m.receipts[..k] + [r];
      NoteOne(m.receipts[..k], r, index, viewer, parties, before, was, lastReadAt);
    }
    assert m.receipts[..|m.receipts|] == m.receipts;
  }

  ghost predicate NotesReaders(
    rs: seq<Receipt>, index: nat, viewer: string, parties: map<string, Party>, before: map<string, nat>,
      after: map<string, nat>)
  {
    forall reader :: NotesReader(rs, index, viewer, parties, before, after, reader)
  }

  lemma NoteOne(rs: seq<Receipt>, r: Receipt, index: nat, viewer: string, parties: map<string, Party>,
    before: map<string, nat>, was: map<string, nat>, after: map<string, nat>)
    requires NotesReaders(rs, index, viewer, parties, before, was)
    requires after ==
      if r.userId != viewer && r.readAt.Some? && CanSeeReadTime(parties, r.userId, viewer)
      then was[r.userId := index]
      else was
    ensures NotesReaders(rs + [r], index, viewer, parties, before, after)
  {
    var more := rs + [r];
    forall reader ensures NotesReader(more, index, viewer, parties, before, after, reader) {
      assert NotesReader(rs, index, viewer, parties, before, was, reader);
      assert AnyRead(more, reader) <==> AnyRead(rs, reader) || (r.userId == reader && r.readAt.Some?) by {
        assert forall x :: x in more <==> x in rs || x == r;
      }
    }
  }

  predicate NotesReader(rs: seq<Receipt>, index: nat, viewer: string, parties: map<string, Party>,
    before: map<string, nat>, after: map<string, nat>, reader: string)
  {
    if reader != viewer && CanSeeReadTime(parties, reader, viewer) && AnyRead(rs, reader)
    then reader in after && after[reader] == index
    else (reader in after <==> reader in before) && (reader in after ==> after[reader] == before[reader])
  }

  method MaskReceiptsForViewer(
      messages: seq<Listed<Receipt>>, viewer: string, rows: seq<PartyRow>) returns (masked: seq<Listed<SharedReceipt>>)
    ensures masked == Masked(messages, viewer, ToReceiptParties(rows))
    ensures |masked| == |messages|
    ensures forall i, shown | 0 <= i < |messages| ::
      shown in masked[i].receipts <==>
        exists r | r in messages[i].receipts :: IsShownAs(messages, viewer, rows, i, r, shown)
  {
    var parties := ToReceiptParties(rows);
    var lastReadAt: map<string, nat> := map[];
    for i := 0 to |messages|
      invariant TracksReads(messages, viewer, parties, i, lastReadAt)
    {
      ghost var before := lastReadAt;
      lastReadAt := NoteReads(messages[i], i, viewer, parties, lastReadAt);
      NotedAll(messages, viewer, parties, i, before, lastReadAt);
    }
    masked := [];
    for i := 0 to |messages|
      invariant masked == Masked(messages, viewer, parties)[..i]
    {
      var m := messages[i];
      var people := set r | r in m.receipts && r.userId in lastReadAt && lastReadAt[r.userId] == i :: r.userId;
      TrackedIsLast(messages, viewer, parties, lastReadAt, i);
      masked := masked + [Listed(m.id, m.senderId, MaskedReceipts(m, viewer, parties, people))];
    }
    forall i, shown | 0 <= i < |messages|
      ensures shown in masked[i].receipts <==>
        exists r | r in messages[i].receipts :: IsShownAs(messages, viewer, rows, i, r, shown)
    {
      MaskedIs(messages, viewer, rows, i, shown);
    }
  }

  lemma NotedAll(
    messages: seq<Listed<Receipt>>, viewer: string, parties: map<string, Party>, i: nat, before: map<string, nat>,
      after: map<string, nat>)
    requires i < |messages| && TracksReads(messages, viewer, parties, i, before)
    requires NotesReaders(messages[i].receipts, i, viewer, parties, before, after)
    ensures TracksReads(messages, viewer, parties, i + 1, after)
  {
    var done := i + 1;
    forall reader ensures TracksReader(messages, viewer, parties, done, after, reader) {
      assert TracksReader(messages, viewer, parties, i, before, reader);
      assert NotesReader(messages[i].receipts, i, viewer, parties, before, after, reader);
    }
  }

  lemma TrackedIsLast(
      messages: seq<Listed<Receipt>>, viewer: string, parties: map<string, Party>, lastReadAt: map<string, nat>, i: nat)
    requires i < |messages| && TracksReads(messages, viewer, parties, |messages|, lastReadAt)
    ensures UpToHere(messages, viewer, parties, i) ==
      set r | r in messages[i].receipts && r.userId in lastReadAt && lastReadAt[r.userId] == i :: r.userId
  {
    forall r | r in messages[i].receipts
      ensures (r.userId in lastReadAt && lastReadAt[r.userId] == i) <==>
        (r.userId != viewer && CanSeeReadTime(parties, r.userId, viewer) && IsLastRead(messages, r.userId, i))
    {
      assert TracksReader(messages, viewer, parties, |messages|, lastReadAt, r.userId);
    }
  }

  // ---------------------------------------------------------------- what stays hidden

  /** Two receipts of one person on one message that the viewer cannot tell apart. */
  predicate LookAlike(viewer: string, parties: map<string, Party>, mine: bool, shown: bool, x: Receipt, y: Receipt) {
    if x.userId == viewer then Share(x) == Share(y)
    else if mine then
      (x.deliveredAt.Some? <==> y.deliveredAt.Some?)
        && (CanSeeReadTime(parties, x.userId, viewer) ==> x.readAt == y.readAt)
    else shown ==> Share(x) == Share(y)
  }

  /** One message in both lists: the same people have receipts, and in the same order. */
  predicate SameShape(m: Listed<Receipt>, n: Listed<Receipt>) {
    && m.id == n.id && m.senderId == n.senderId && |m.receipts| == |n.receipts|
    && forall k | 0 <= k < |m.receipts| ::
         m.receipts[k].userId == n.receipts[k].userId && m.receipts[k].messageId == n.receipts[k].messageId
  }

  /** On a message the viewer did not send, the same people have read it last as far as the viewer may know. */
  predicate MessagesLookAlike(
      viewer: string, parties: map<string, Party>, a: seq<Listed<Receipt>>, b: seq<Listed<Receipt>>, i: nat)
    requires i < |a| == |b| && SameShape(a[i], b[i])
  {
    && (a[i].senderId != viewer ==> UpToHere(a, viewer, parties, i) == UpToHere(b, viewer, parties, i))
    && forall k | 0 <= k < |a[i].receipts| ::
         LookAlike(viewer, parties, a[i].senderId == viewer, a[i].receipts[k].userId in UpToHere(a, viewer, parties, i),
                   a[i].receipts[k], b[i].receipts[k])
  }

  predicate SameShapes(a: seq<Listed<Receipt>>, b: seq<Listed<Receipt>>) {
    |a| == |b| && forall i | 0 <= i < |a| :: SameShape(a[i], b[i])
  }

  /**
   * Lists that agree on nothing but: the viewer's own receipts; on the viewer's messages whether each was
   * delivered, and read times where both sides share them; on others' messages who of those sharing read that
   * one last, and their receipts there. Anything else may differ.
   */
  predicate ListsLookAlike(
      viewer: string, parties: map<string, Party>, a: seq<Listed<Receipt>>, b: seq<Listed<Receipt>>)
    requires SameShapes(a, b)
  {
    forall i | 0 <= i < |a| :: MessagesLookAlike(viewer, parties, a, b, i)
  }

  /** The same people at the same places. */
  predicate SamePeople(xs: seq<Receipt>, ys: seq<Receipt>) {
    |xs| == |ys| && forall k | 0 <= k < |xs| :: xs[k].userId == ys[k].userId && xs[k].messageId == ys[k].messageId
  }

  /** What a selection shows of two message's receipts is the same. */
  predicate Agree(selection: Selection, xs: seq<Receipt>, ys: seq<Receipt>)
    requires SamePeople(xs, ys)
  {
    forall k | 0 <= k < |xs| ::
      Selects(selection, xs[k].userId) ==> AsShown(selection, xs[k]) == AsShown(selection, ys[k])
  }

  lemma {:induction false} ShownIsExact(selection: Selection, xs: seq<Receipt>, ys: seq<Receipt>)
    requires SamePeople(xs, ys)
    ensures |Shown(selection, xs)| == |Shown(selection, ys)|
    ensures Shown(selection, xs) == Shown(selection, ys) <==> Agree(selection, xs, ys)
  {
    if xs != [] {
      ShownIsExact(selection, xs[1..], ys[1..]);
      if Selects(selection, xs[0].userId) {
        SplitTogether([AsShown(selection, xs[0])], Shown(selection, xs[1..]), [AsShown(selection, ys[0])],
          Shown(selection, ys[1..]));
      } else {
        SplitTogether([], Shown(selection, xs[1..]), [], Shown(selection, ys[1..]));
      }
    }
  }

  /** Who is shown can be read off what is shown. */
  lemma ShownPeople(people: set<string>, rs: seq<Receipt>, userId: string)
    requires exists r | r in rs :: r.userId == userId
    ensures userId in people <==> Shows(Shown(Theirs(people), rs), userId)
  {
    if userId in people {
      var r :| r in rs && r.userId == userId;
      ShownIs(Theirs(people), rs, Share(r));
    }
    if Shows(Shown(Theirs(people), rs), userId) {
      var shown :| shown in Shown(Theirs(people), rs) && shown.userId == userId;
      ShownIs(Theirs(people), rs, shown);
    }
  }

  lemma SamePeopleShown(some: set<string>, others: set<string>, xs: seq<Receipt>, ys: seq<Receipt>)
    requires SamePeople(xs, ys) && Shown(Theirs(some), xs) == Shown(Theirs(others), ys)
    requires forall u | u in some :: exists r | r in xs :: r.userId == u
    requires forall u | u in others :: exists r | r in ys :: r.userId == u
    ensures some == others
  {
    forall u | u in some ensures u in others {
      ShownPeople(some, xs, u);
      ShownPeople(others, ys, u);
    }
    forall u | u in others ensures u in some {
      ShownPeople(some, xs, u);
      ShownPeople(others, ys, u);
    }
  }

  predicate MaskedAlike(
      viewer: string, parties: map<string, Party>, a: seq<Listed<Receipt>>, b: seq<Listed<Receipt>>, i: nat)
    requires i < |a| == |b|
  {
    MaskedReceipts(a[i], viewer, parties, UpToHere(a, viewer, parties, i)) ==
      MaskedReceipts(b[i], viewer, parties, UpToHere(b, viewer, parties, i))
  }

  /** The viewer's own message: masked alike exactly when alike. */
  lemma OwnMessageIsExact(
      viewer: string, parties: map<string, Party>, a: seq<Listed<Receipt>>, b: seq<Listed<Receipt>>, i: nat)
    requires |a| == |b| && i < |a| && SameShape(a[i], b[i]) && a[i].senderId == viewer
    ensures MaskedAlike(viewer, parties, a, b, i) <==> MessagesLookAlike(viewer, parties, a, b, i)
  {
    var xs, ys, others := a[i].receipts, b[i].receipts, Others(viewer, parties);
    ShownIsExact(Mine(viewer), xs, ys);
    ShownIsExact(others, xs, ys);
    SplitTogether(Shown(Mine(viewer), xs), Shown(others, xs), Shown(Mine(viewer), ys), Shown(others, ys));
    forall k | 0 <= k < |xs|
      ensures LookAlike(viewer, parties, true, xs[k].userId in UpToHere(a, viewer, parties, i), xs[k], ys[k]) <==>
        if xs[k].userId == viewer then Share(xs[k]) == Share(ys[k])
        else Limited(viewer, parties, xs[k]) == Limited(viewer, parties, ys[k])
    {
    }
  }

  lemma SplitTogether<T>(a: seq<T>, x: seq<T>, b: seq<T>, y: seq<T>)
    requires |a| == |b|
    ensures a + x == b + y <==> a == b && x == y
  {
    assert (a + x)[..|a|] == a && (a + x)[|a|..] == x && (b + y)[..|b|] == b && (b + y)[|b|..] == y;
  }

  /** Someone else's message: masked alike exactly when alike. */
  lemma OthersMessageIsExact(
      viewer: string, parties: map<string, Party>, a: seq<Listed<Receipt>>, b: seq<Listed<Receipt>>, i: nat)
    requires |a| == |b| && i < |a| && SameShape(a[i], b[i]) && a[i].senderId != viewer
    ensures MaskedAlike(viewer, parties, a, b, i) <==> MessagesLookAlike(viewer, parties, a, b, i)
  {
    var xs, ys := a[i].receipts, b[i].receipts;
    var some, others := UpToHere(a, viewer, parties, i), UpToHere(b, viewer, parties, i);
    ShownIsExact(Mine(viewer), xs, ys);
    ShownIsExact(Theirs(some), xs, ys);
    SplitTogether(Shown(Mine(viewer), xs), Shown(Theirs(some), xs), Shown(Mine(viewer), ys), Shown(Theirs(others), ys));
    if Shown(Theirs(some), xs) == Shown(Theirs(others), ys) { SamePeopleShown(some, others, xs, ys); }
    forall k | 0 <= k < |xs|
      ensures LookAlike(viewer, parties, false, xs[k].userId in some, xs[k], ys[k]) <==>
        (xs[k].userId == viewer || xs[k].userId in some ==> Share(xs[k]) == Share(ys[k]))
    {
    }
  }

  /**
   * What the viewer learns is exactly that and no more: two lists of the same messages and people are masked
   * alike if and only if they look alike.
   */
  lemma HiddenStaysHidden(viewer: string, parties: map<string, Party>, a: seq<Listed<Receipt>>, b: seq<Listed<Receipt>>)
    requires SameShapes(a, b)
    ensures Masked(a, viewer, parties) == Masked(b, viewer, parties) <==> ListsLookAlike(viewer, parties, a, b)
  {
    forall i | 0 <= i < |a|
      ensures Masked(a, viewer, parties)[i] == Masked(b, viewer, parties)[i] <==>
        MessagesLookAlike(viewer, parties, a, b, i)
    {
      if a[i].senderId == viewer {
        OwnMessageIsExact(viewer, parties, a, b, i);
      } else {
        OthersMessageIsExact(viewer, parties, a, b, i);
      }
    }
  }

  // ---------------------------------------------------------------- what is shown

  predicate Shows(receipts: seq<SharedReceipt>, userId: string) {
    exists r | r in receipts :: r.userId == userId
  }

  lemma {:induction false} ShownIs(selection: Selection, rs: seq<Receipt>, shown: SharedReceipt)
    ensures shown in Shown(selection, rs) <==>
      exists r | r in rs :: Selects(selection, r.userId) && shown == AsShown(selection, r)
  {
    if rs != [] {
      ShownIs(selection, rs[1..], shown);
      assert forall r :: r in rs <==> r == rs[0] || r in rs[1..];
    }
  }

  predicate HasRead(m: Listed<Receipt>, reader: string) {
    exists r | r in m.receipts :: r.userId == reader && r.readAt.Some?
  }

  /** How one receipt may be shown, by the rows and the receipts alone. */
  predicate IsShownAs(
      messages: seq<Listed<Receipt>>, viewer: string, rows: seq<PartyRow>, i: nat, r: Receipt, shown: SharedReceipt)
    requires i < |messages|
  {
    && shown.messageId == r.messageId && shown.userId == r.userId && (shown.delivered <==> r.deliveredAt.Some?)
    && if r.userId == viewer then shown.readAt == r.readAt
       else if messages[i].senderId == viewer then
         shown.readAt == if MaySee(rows, r.userId, viewer) then r.readAt else None
       else
         && MaySee(rows, r.userId, viewer) && shown.readAt == r.readAt && HasRead(messages[i], r.userId)
         && forall j | i < j < |messages| :: !HasRead(messages[j], r.userId)
  }

  /** The whole masked list, receipt by receipt. */
  lemma MaskedIs(messages: seq<Listed<Receipt>>, viewer: string, rows: seq<PartyRow>, i: nat, shown: SharedReceipt)
    requires i < |messages|
    ensures shown in Masked(messages, viewer, ToReceiptParties(rows))[i].receipts <==>
      exists r | r in messages[i].receipts :: IsShownAs(messages, viewer, rows, i, r, shown)
  {
    var parties := ToReceiptParties(rows);
    var m, upTo := messages[i], UpToHere(messages, viewer, parties, i);
    ShownIs(Mine(viewer), m.receipts, shown);
    ShownIs(if m.senderId == viewer then Others(viewer, parties) else Theirs(upTo), m.receipts, shown);
    forall r | r in m.receipts
      ensures IsShownAs(messages, viewer, rows, i, r, shown) <==> IsSelectedAs(m, viewer, parties, upTo, r, shown)
    {
      CanSeeExactly(rows, r.userId, viewer);
      assert r.userId in upTo <==>
        r.userId != viewer && CanSeeReadTime(parties, r.userId, viewer) && IsLastRead(messages, r.userId, i);
    }
  }

  predicate IsSelectedAs(
      m: Listed<Receipt>, viewer: string, parties: map<string, Party>, upTo: set<string>, r: Receipt,
      shown: SharedReceipt)
  {
    var others := if m.senderId == viewer then Others(viewer, parties) else Theirs(upTo);
    || (Selects(Mine(viewer), r.userId) && shown == AsShown(Mine(viewer), r))
    || (Selects(others, r.userId) && shown == AsShown(others, r))
  }

  /** On someone else's message another person is shown exactly when it is the newest one they visibly read. */
  lemma OthersShowWhereTheyAre(
      messages: seq<Listed<Receipt>>, viewer: string, parties: map<string, Party>, i: nat, reader: string)
    requires i < |messages| && messages[i].senderId != viewer && reader != viewer
    ensures Shows(Masked(messages, viewer, parties)[i].receipts, reader) <==>
      CanSeeReadTime(parties, reader, viewer) && IsLastRead(messages, reader, i)
  {
    var upTo := UpToHere(messages, viewer, parties, i);
    var shown := Masked(messages, viewer, parties)[i].receipts;
    forall r
      ensures r in shown <==>
        r in Shown(Mine(viewer), messages[i].receipts) || r in Shown(Theirs(upTo), messages[i].receipts) {
    }
    if Shows(shown, reader) {
      var r :| r in shown && r.userId == reader;
      ShownIs(Mine(viewer), messages[i].receipts, r);
      ShownIs(Theirs(upTo), messages[i].receipts, r);
    }
    if CanSeeReadTime(parties, reader, viewer) && IsLastRead(messages, reader, i) {
      var r :| r in messages[i].receipts && r.userId == reader && r.readAt.Some?;
      ShownIs(Theirs(upTo), messages[i].receipts, Share(r));
      assert Share(r) in shown;
    }
  }

  /** So nobody else shows on two messages the viewer did not send. */
  lemma OthersShowOnce(
      messages: seq<Listed<Receipt>>, viewer: string, parties: map<string, Party>, i: nat, j: nat, reader: string)
    requires i < |messages| && j < |messages| && messages[i].senderId != viewer && messages[j].senderId != viewer
    requires reader != viewer
    requires Shows(Masked(messages, viewer, parties)[i].receipts, reader)
    requires Shows(Masked(messages, viewer, parties)[j].receipts, reader)
    ensures i == j
  {
    OthersShowWhereTheyAre(messages, viewer, parties, i, reader);
    OthersShowWhereTheyAre(messages, viewer, parties, j, reader);
  }

  /** On the viewer's own message everyone's delivery shows, and another's read time only where both share theirs. */
  lemma OwnMessagesShowDelivery(
      messages: seq<Listed<Receipt>>, viewer: string, parties: map<string, Party>, i: nat, r: Receipt)
    requires i < |messages| && messages[i].senderId == viewer && r in messages[i].receipts && r.userId != viewer
    ensures SharedReceipt(r.messageId, r.userId, r.deliveredAt.Some?,
      if CanSeeReadTime(parties, r.userId, viewer) then r.readAt else None)
      in Masked(messages, viewer, parties)[i].receipts
  {
    ShownIs(Others(viewer, parties), messages[i].receipts, Limited(viewer, parties, r));
  }

  /** No read time of anyone else shows, anywhere in the list, unless both people share theirs. */
  lemma ReadTimesAreMutual(
      messages: seq<Listed<Receipt>>, viewer: string, parties: map<string, Party>, i: nat, shown: SharedReceipt)
    requires i < |messages| && shown in Masked(messages, viewer, parties)[i].receipts && shown.userId != viewer
    requires shown.readAt.Some?
    ensures CanSeeReadTime(parties, shown.userId, viewer) && parties[shown.userId].sendsReadReceipts
    ensures parties[viewer].sendsReadReceipts
    ensures parties[shown.userId].state == ACTIVE || parties[shown.userId].state == ARCHIVED
    ensures exists r | r in messages[i].receipts :: Share(r) == shown
  {
    var upTo := UpToHere(messages, viewer, parties, i);
    ShownIs(Mine(viewer), messages[i].receipts, shown);
    if messages[i].senderId == viewer {
      ShownIs(Others(viewer, parties), messages[i].receipts, shown);
      var r :| r in messages[i].receipts && r.userId != viewer && shown == Limited(viewer, parties, r);
      assert Share(r) == shown;
    } else {
      ShownIs(Theirs(upTo), messages[i].receipts, shown);
    }
  }

  // ---------------------------------------------------------------- who hears of a read as it happens

  predicate InThread(row: PartyRow, readerId: string) {
    row.userId != readerId && !row.deleted && HasJoinedConversation(row.state)
  }

  function DeliveryRecipientIds(rows: seq<PartyRow>, readerId: string): seq<string> {
    if rows == [] then []
    else (if InThread(rows[0], readerId) then [rows[0].userId] else []) + DeliveryRecipientIds(rows[1..], readerId)
  }

  function ReadersToTell(rows: seq<PartyRow>, parties: map<string, Party>, readerId: string): seq<string> {
    if rows == [] then []
    else
      var told := InThread(rows[0], readerId) && CanSeeReadTime(parties, readerId, rows[0].userId);
      (if told then [rows[0].userId] else []) + ReadersToTell(rows[1..], parties, readerId)
  }

  function ReadRecipientIds(rows: seq<PartyRow>, readerId: string): seq<string> {
    ReadersToTell(rows, ToReceiptParties(rows), readerId)
  }

  lemma {:induction false} ReadersToTellAre(
      rows: seq<PartyRow>, parties: map<string, Party>, readerId: string, userId: string)
    ensures userId in ReadersToTell(rows, parties, readerId) <==>
      userId in DeliveryRecipientIds(rows, readerId) && CanSeeReadTime(parties, readerId, userId)
  {
    if rows != [] { ReadersToTellAre(rows[1..], parties, readerId, userId); }
  }

  /** Who hears of deliveries: everyone else who has accepted the conversation, has not left it and not deleted it. */
  lemma {:induction false} DeliveriesAreHeardBy(rows: seq<PartyRow>, readerId: string, userId: string)
    ensures userId in DeliveryRecipientIds(rows, readerId) <==>
      exists row | row in rows ::
        && row.userId == userId && userId != readerId && !row.deleted
        && (row.state == ACTIVE || row.state == ARCHIVED)
  {
    if rows != [] {
      DeliveriesAreHeardBy(rows[1..], readerId, userId);
      assert forall row :: row in rows <==> row == rows[0] || row in rows[1..];
    }
  }

  /** And of reads: those of them who may see this reader's read times. */
  lemma ReadsAreHeardBy(rows: seq<PartyRow>, readerId: string, userId: string)
    ensures userId in ReadRecipientIds(rows, readerId) <==>
      MaySee(rows, readerId, userId) && exists row | row in rows ::
        && row.userId == userId && userId != readerId && !row.deleted
        && (row.state == ACTIVE || row.state == ARCHIVED)
  {
    ReadersToTellAre(rows, ToReceiptParties(rows), readerId, userId);
    DeliveriesAreHeardBy(rows, readerId, userId);
    CanSeeExactly(rows, readerId, userId);
  }

  /**
   * The live event and the list agree: someone who hears of deliveries hears of this read exactly when
   * the read time would show on their own message the next time they open the list.
   */
  lemma LiveReadsMatchTheList(rows: seq<PartyRow>, readerId: string, author: string, m: Listed<Receipt>, r: Receipt)
    requires m.senderId == author && r in m.receipts && r.userId == readerId && r.readAt.Some? && readerId != author
    requires author in DeliveryRecipientIds(rows, readerId)
    ensures author in ReadRecipientIds(rows, readerId) <==>
      Share(r) in Masked([m], author, ToReceiptParties(rows))[0].receipts
  {
    var parties := ToReceiptParties(rows);
    ReadersToTellAre(rows, parties, readerId, author);
    if CanSeeReadTime(parties, readerId, author) { OwnMessagesShowDelivery([m], author, parties, 0, r); }
    if Share(r) in Masked([m], author, parties)[0].receipts { ReadTimesAreMutual([m], author, parties, 0, Share(r)); }
  }
}
