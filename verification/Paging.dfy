/**
 * Cursor paging by (time, id): history and the inbox newest first, backup blobs oldest first. A query
 * takes the first rows after a boundary in the table as it is then; between two pages the table may change.
 */
module Paging {
  import opened Common
  import opened Recipients

  // ---------------------------------------------------------------- ordered listings

  ghost predicate IsOrder<T(!new)>(lt: (T, T) -> bool) {
    && (forall x :: !lt(x, x))
    && (forall x, y, z :: lt(x, y) && lt(y, z) ==> lt(x, z))
    && (forall x, y :: x == y || lt(x, y) || lt(y, x))
  }

  predicate Ascends<T>(lt: (T, T) -> bool, xs: seq<T>) {
    forall j, k | 0 <= j < k < |xs| :: lt(xs[j], xs[k])
  }

  ghost predicate IsListing<T(!new)>(lt: (T, T) -> bool, xs: seq<T>, rows: set<T>) {
    Ascends(lt, xs) && forall x :: x in xs <==> x in rows
  }

  /** There is one way to list rows in order. */
  lemma {:induction false} ListingIsUnique<T(!new)>(lt: (T, T) -> bool, xs: seq<T>, ys: seq<T>, rows: set<T>)
    requires IsOrder(lt) && IsListing(lt, xs, rows) && IsListing(lt, ys, rows)
    ensures xs == ys
    decreases |xs|
  {
    forall k | 0 <= k < |ys| ensures ys[k] in xs {
      assert ys[k] in ys && ys[k] in rows;
    }
    assert ys != [] ==> ys[0] in xs;
    if xs != [] {
      assert xs[0] in rows && xs[0] in ys;
      assert ys[0] in ys && ys[0] in rows && ys[0] in xs;
      var k :| 0 <= k < |ys| && ys[k] == xs[0];
      var j :| 0 <= j < |xs| && xs[j] == ys[0];
      assert j == 0 && k == 0;
      ListingIsUnique(lt, xs[1..], ys[1..], rows - {xs[0]});
      assert xs == [xs[0]] + xs[1..] && ys == [ys[0]] + ys[1..];
    }
  }

  lemma {:induction false} FirstExists<T(!new)>(lt: (T, T) -> bool, rows: set<T>) returns (first: T)
    requires IsOrder(lt) && rows != {}
    ensures first in rows && forall x | x in rows :: x == first || lt(first, x)
    decreases |rows|
  {
    var some :| some in rows;
    if rows == {some} {
      first := some;
    } else {
      var rest := FirstExists(lt, rows - {some});
      first := if lt(some, rest) then some else rest;
      forall x | x in rows ensures x == first || lt(first, x) {
        assert x == some || x in rows - {some};
      }
    }
  }

  ghost predicate IsFirst<T(!new)>(lt: (T, T) -> bool, rows: set<T>, first: T) {
    first in rows && forall x | x in rows :: x == first || lt(first, x)
  }

  /** `ORDER BY`. */
  ghost function Listing<T(!new)>(lt: (T, T) -> bool, rows: set<T>): (xs: seq<T>)
    requires IsOrder(lt)
    decreases |rows|
  {
    if rows == {} then []
    else
      assert exists first :: IsFirst(lt, rows, first) by {
        var first := FirstExists(lt, rows);
        assert IsFirst(lt, rows, first);
      }
      var first :| IsFirst(lt, rows, first);
      [first] + Listing(lt, rows - {first})
  }

  lemma {:induction false} ListingLists<T(!new)>(lt: (T, T) -> bool, rows: set<T>)
    requires IsOrder(lt)
    ensures IsListing(lt, Listing(lt, rows), rows)
    decreases |rows|
  {
    if rows != {} {
      var xs := Listing(lt, rows);
      ListingLists(lt, rows - {xs[0]});
      forall x ensures x in xs <==> x in rows {
        assert x in xs <==> x == xs[0] || x in xs[1..];
      }
      forall k | 1 <= k < |xs| ensures lt(xs[0], xs[k]) {
        assert xs[k] in xs[1..];
      }
    }
  }

  // ---------------------------------------------------------------- pages

  /** Rows strictly past a boundary; all of them without one. */
  ghost function Past<T(!new)>(lt: (T, T) -> bool, rows: set<T>, boundary: Option<T>): set<T> {
    set x | x in rows && (boundary.Some? ==> lt(boundary.value, x))
  }

  /** `WHERE past the boundary ORDER BY .. LIMIT limit`. */
  ghost function Page<T(!new)>(lt: (T, T) -> bool, rows: set<T>, boundary: Option<T>, limit: nat): seq<T>
    requires IsOrder(lt)
  {
    var all := Listing(lt, Past(lt, rows, boundary));
    if |all| <= limit then all else all[..limit]
  }

  function EndOf<T>(page: seq<T>, boundary: Option<T>): Option<T> {
    if page == [] then boundary else Some(page[|page| - 1])
  }

  /** Rows are never taken away: history keeps an unsent message as a tombstone. */
  ghost predicate OnlyGrows<T(!new)>(rows: set<T>, tables: seq<set<T>>) {
    forall k | 0 <= k < |tables| :: rows <= tables[k]
  }

  lemma PageIsPrefix<T(!new)>(lt: (T, T) -> bool, rows: set<T>, boundary: Option<T>, limit: nat)
    requires IsOrder(lt)
    ensures var page := Page(lt, rows, boundary, limit);
      && Ascends(lt, page)
      && (forall x | x in page :: x in rows && (boundary.Some? ==> lt(boundary.value, x)))
      && (forall x | x in rows && (boundary.Some? ==> lt(boundary.value, x)) ::
            x in page || page == [] || lt(page[|page| - 1], x))
      && (|Listing(lt, Past(lt, rows, boundary))| <= limit ==> forall x | x in Past(lt, rows, boundary) :: x in page)
      && (limit > 0 && page == [] ==> Past(lt, rows, boundary) == {})
  {
    var all := Listing(lt, Past(lt, rows, boundary));
    ListingLists(lt, Past(lt, rows, boundary));
    var page := Page(lt, rows, boundary, limit);
    assert forall x | x in page :: x in all;
    forall x | x in Past(lt, rows, boundary)
      ensures x in page || page == [] || lt(page[|page| - 1], x)
    {
      assert x in all;
      var k :| 0 <= k < |all| && all[k] == x;
      if k < |page| { assert page[k] == x; } else if page != [] { assert page[|page| - 1] == all[|page| - 1]; }
    }
    if limit > 0 && page == [] {
      assert all == [];
      assert forall x | x in Past(lt, rows, boundary) :: x in all;
    }
  }

  /** What the limit leaves out comes after all of a full page. */
  lemma PageLimitIs<T(!new)>(lt: (T, T) -> bool, rows: set<T>, boundary: Option<T>, limit: nat)
    requires IsOrder(lt)
    ensures
      var page := Page(lt, rows, boundary, limit);
      && |page| <= limit && (forall j, k | 0 <= j < k < |page| :: lt(page[j], page[k]))
      && (forall x | x in page :: x in rows && (boundary.Some? ==> lt(boundary.value, x)))
      && (forall x | x in Past(lt, rows, boundary) && x !in page :: |page| == limit && forall y | y in page :: lt(y, x))
  {
    var page := Page(lt, rows, boundary, limit);
    PageIsPrefix(lt, rows, boundary, limit);
    forall x, y | x in Past(lt, rows, boundary) && x !in page && y in page ensures lt(y, x) {
      var k :| 0 <= k < |page| && page[k] == y;
    }
  }

  lemma EndIsPast<T(!new)>(lt: (T, T) -> bool, page: seq<T>, boundary: Option<T>, x: T)
    requires IsOrder(lt) && Ascends(lt, page) && forall y | y in page :: boundary.Some? ==> lt(boundary.value, y)
    requires EndOf(page, boundary).Some? ==> lt(EndOf(page, boundary).value, x)
    ensures boundary.Some? ==> lt(boundary.value, x)
    ensures forall y | y in page :: lt(y, x)
  {
    if page != [] {
      var last := page[|page| - 1];
      assert last in page;
      forall y | y in page ensures lt(y, x) {
        var k :| 0 <= k < |page| && page[k] == y;
      }
    }
  }

  lemma JoinAscends<T>(lt: (T, T) -> bool, xs: seq<T>, ys: seq<T>)
    requires Ascends(lt, xs) && Ascends(lt, ys) && forall x, y | x in xs && y in ys :: lt(x, y)
    ensures Ascends(lt, xs + ys)
  {
    forall j, k | 0 <= j < k < |xs + ys| ensures lt((xs + ys)[j], (xs + ys)[k]) {
      if j < |xs| && k >= |xs| { assert xs[j] in xs && ys[k - |xs|] in ys; }
    }
  }

  lemma SmallerSet<T>(small: set<T>, big: set<T>, x: T)
    requires small <= big - {x} && x in big
    ensures |small| < |big|
  {
    SubsetIsSmaller(small, big - {x});
  }

  // ---------------------------------------------------------------- history

  datatype Position = Position(time: int, id: string)

  predicate Lower(a: string, b: string) { a != b && Leq(a, b) }

  /** `NEWEST_MESSAGE_FIRST`; being past a boundary in it is `olderThan`. */
  predicate NewestFirst(a: Position, b: Position) {
    b.time < a.time || (b.time == a.time && Lower(b.id, a.id))
  }

  lemma NewestFirstOrders()
    ensures IsOrder(NewestFirst)
  {
    forall x: Position, y: Position ensures x == y || NewestFirst(x, y) || NewestFirst(y, x) {
      LeqTotal(x.id, y.id);
    }
    forall x, y, z | NewestFirst(x, y) && NewestFirst(y, z) ensures NewestFirst(x, z) {
      LowerTransitive(z.id, y.id, x.id);
    }
  }

  lemma LowerTransitive(a: string, b: string, c: string)
    ensures Lower(a, b) && Lower(b, c) ==> Lower(a, c)
  {
    if Lower(a, b) && Lower(b, c) {
      LeqTransitive(a, b, c);
      LeqTotal(a, b);
    }
  }

  /** The texts agree up to `i`, where the first one ends or has the smaller character. */
  predicate DifferAt(a: string, b: string, i: nat) {
    && i <= |a| && i < |b| && a[..i] == b[..i] && (i < |a| ==> a[i] < b[i])
  }

  /** The earlier time, or at the same time the id that comes first. */
  ghost predicate ComesBefore(a: Position, b: Position) {
    a.time < b.time || (a.time == b.time && exists i: nat :: DifferAt(a.id, b.id, i))
  }

  lemma DifferOneOn(a: string, b: string, i: nat)
    requires a != [] && b != [] && a[0] == b[0]
    ensures DifferAt(a[1..], b[1..], i) <==> DifferAt(a, b, i + 1)
  {
    if i <= |a| - 1 && i <= |b| - 1 {
      assert a[..i + 1] == [a[0]] + a[1..][..i] && b[..i + 1] == [b[0]] + b[1..][..i];
      assert a[..i + 1][1..] == a[1..][..i] && b[..i + 1][1..] == b[1..][..i];
    }
  }

  lemma {:induction false} LowerDiffers(a: string, b: string)
    requires Lower(a, b)
    ensures exists i: nat :: DifferAt(a, b, i)
  {
    if a == [] || a[0] < b[0] {
      assert DifferAt(a, b, 0);
    } else {
      assert a == [a[0]] + a[1..] && b == [b[0]] + b[1..];
      LowerDiffers(a[1..], b[1..]);
      var i: nat :| DifferAt(a[1..], b[1..], i);
      DifferOneOn(a, b, i);
    }
  }

  lemma {:induction false} DiffersIsLower(a: string, b: string, i: nat)
    requires DifferAt(a, b, i)
    ensures Lower(a, b)
  {
    if i > 0 && a != [] {
      assert a[0] == a[..i][0] == b[..i][0] == b[0];
      DifferOneOn(a, b, i - 1);
      DiffersIsLower(a[1..], b[1..], i - 1);
    }
  }

  lemma NewestFirstIs(a: Position, b: Position)
    ensures NewestFirst(a, b) <==> ComesBefore(b, a)
  {
    if Lower(b.id, a.id) {
      LowerDiffers(b.id, a.id);
    } else if exists i: nat :: DifferAt(b.id, a.id, i) {
      var i: nat :| DifferAt(b.id, a.id, i);
      DiffersIsLower(b.id, a.id, i);
    }
  }

  ghost function NewestPage(rows: set<Position>, before: Option<Position>, limit: nat): seq<Position> {
    NewestFirstOrders();
    Page(NewestFirst, rows, before, limit)
  }

  ghost function Newest(rows: set<Position>, before: Option<Position>): seq<Position> {
    NewestFirstOrders();
    Listing(NewestFirst, Past(NewestFirst, rows, before))
  }

  function Positions(table: map<string, int>): set<Position> {
    set id | id in table :: Position(table[id], id)
  }

  function Reverse<T>(xs: seq<T>): (ys: seq<T>)
    ensures |ys| == |xs| && forall k | 0 <= k < |xs| :: ys[k] == xs[|xs| - 1 - k]
  {
    if xs == [] then [] else Reverse(xs[1..]) + [xs[0]]
  }

  datatype HistoryPage = HistoryPage(items: seq<Position>, nextBeforeMessageId: Option<string>)

  /**
   * One page, oldest first, of the messages older than the given one; `None` when that message is not in the
   * conversation. `table` gives each message of the conversation its time.
   */
  ghost function FindMessages(
      table: map<string, int>, beforeMessageId: Option<string>, limit: nat): Option<HistoryPage>
  {
    if beforeMessageId.Some? && beforeMessageId.value !in table then None
    else
      NewestFirstOrders();
      var before :=
        if beforeMessageId.None? then None else Some(Position(table[beforeMessageId.value], beforeMessageId.value));
      var messages := Page(NewestFirst, Positions(table), before, limit);
      Some(HistoryPage(Reverse(messages), if messages == [] then None else Some(messages[|messages| - 1].id)))
  }

  /**
   * One page of history, row by row: the rows just before the asked message, oldest first and no more than the
   * limit; the cursor is the first of them.
   */
  lemma HistoryPageIs(table: map<string, int>, beforeMessageId: Option<string>, limit: nat)
    ensures
      var found := FindMessages(table, beforeMessageId, limit);
      && (found.None? <==> beforeMessageId.Some? && beforeMessageId.value !in table)
      && (found.Some? ==>
            var items := found.value.items;
            && |items| <= limit
            && found.value.nextBeforeMessageId == (if items == [] then None else Some(items[0].id))
            && (forall j, k | 0 <= j < k < |items| :: ComesBefore(items[j], items[k]))
            && (forall x | x in items :: IsStoredBefore(table, beforeMessageId, x))
            && (forall x | IsStoredBefore(table, beforeMessageId, x) && x !in items ::
                  |items| == limit && forall y | y in items :: ComesBefore(x, y)))
  {
    if beforeMessageId.None? || beforeMessageId.value in table {
      PageOfStoredIs(table, beforeMessageId, limit);
    }
  }

  ghost predicate IsStoredBefore(table: map<string, int>, beforeMessageId: Option<string>, x: Position) {
    && x.id in table && table[x.id] == x.time
    && (beforeMessageId.Some? && beforeMessageId.value in table ==>
          ComesBefore(x, Position(table[beforeMessageId.value], beforeMessageId.value)))
  }

  lemma PageOfStoredIs(table: map<string, int>, beforeMessageId: Option<string>, limit: nat)
    requires beforeMessageId.Some? ==> beforeMessageId.value in table
    ensures
      var found := FindMessages(table, beforeMessageId, limit);
      && found.Some? && |found.value.items| <= limit
      && var items := found.value.items;
      && found.value.nextBeforeMessageId == (if items == [] then None else Some(items[0].id))
      && (forall j, k | 0 <= j < k < |items| :: ComesBefore(items[j], items[k]))
      && (forall x | x in items :: IsStoredBefore(table, beforeMessageId, x))
      && (forall x | IsStoredBefore(table, beforeMessageId, x) && x !in items ::
            |items| == limit && forall y | y in items :: ComesBefore(x, y))
  {
    NewestFirstOrders();
    var before :=
      if beforeMessageId.None? then None else Some(Position(table[beforeMessageId.value], beforeMessageId.value));
    var page := Page(NewestFirst, Positions(table), before, limit);
    PageLimitIs(NewestFirst, Positions(table), before, limit);
    ReversedPage(page);
    forall x ensures x in Past(NewestFirst, Positions(table), before) <==> IsStoredBefore(table, beforeMessageId, x) {
      StoredIsPast(table, beforeMessageId, before, x);
    }
    forall x, y | x in Past(NewestFirst, Positions(table), before) && x !in page && y in page
      ensures ComesBefore(x, y) {
      NewestFirstIs(y, x);
    }
  }

  lemma StoredIsPast(
      table: map<string, int>, beforeMessageId: Option<string>, before: Option<Position>, x: Position)
    requires beforeMessageId.Some? ==> beforeMessageId.value in table
    requires before ==
      if beforeMessageId.None? then None else Some(Position(table[beforeMessageId.value], beforeMessageId.value))
    ensures x in Past(NewestFirst, Positions(table), before) <==> IsStoredBefore(table, beforeMessageId, x)
  {
    if before.Some? { NewestFirstIs(before.value, x); }
    assert x in Positions(table) <==> x.id in table && table[x.id] == x.time;
  }

  lemma ReversedPage(page: seq<Position>)
    requires forall j, k | 0 <= j < k < |page| :: NewestFirst(page[j], page[k])
    ensures forall x :: x in Reverse(page) <==> x in page
    ensures forall j, k | 0 <= j < k < |page| :: ComesBefore(Reverse(page)[j], Reverse(page)[k])
  {
    var n, items := |page|, Reverse(page);
    forall x ensures x in items <==> x in page {
      if x in page { var k :| 0 <= k < n && page[k] == x; assert items[n - 1 - k] == x; }
    }
    forall j, k | 0 <= j < k < n ensures ComesBefore(items[j], items[k]) {
      NewestFirstIs(page[n - 1 - k], page[n - 1 - j]);
    }
  }

  /** The thread a reader puts together: each page in front of what it has, until a page comes back empty. */
  ghost function Thread(
      tables: seq<map<string, int>>, beforeMessageId: Option<string>, limit: nat): Option<seq<Position>>
    decreases |tables|
  {
    if tables == [] then Some([])
    else
      var page := FindMessages(tables[0], beforeMessageId, limit);
      if page.None? then None
      else if page.value.nextBeforeMessageId.None? then Some([])
      else
        var older := Thread(tables[1..], page.value.nextBeforeMessageId, limit);
        if older.None? then None else Some(older.value + page.value.items)
  }

  ghost predicate ThreadEnds(tables: seq<map<string, int>>, beforeMessageId: Option<string>, limit: nat)
    decreases |tables|
  {
    tables != [] &&
    var page := FindMessages(tables[0], beforeMessageId, limit);
    page.Some?
      && (page.value.nextBeforeMessageId.None? || ThreadEnds(tables[1..], page.value.nextBeforeMessageId, limit))
  }

  /** Messages are sent and unsent between the pages, but a row never goes and never moves. */
  predicate Continues(tables: seq<map<string, int>>) {
    forall j, k | 0 <= j <= k < |tables| ::
      forall id | id in tables[j] :: id in tables[k] && tables[k][id] == tables[j][id]
  }

  predicate IsBoundaryIn(tables: seq<map<string, int>>, boundary: Option<Position>) {
    boundary.Some? && tables != [] ==>
      boundary.value.id in tables[0] && tables[0][boundary.value.id] == boundary.value.time
  }

  function IdOf(boundary: Option<Position>): Option<string> {
    if boundary.None? then None else Some(boundary.value.id)
  }

  lemma LastIsStored(table: map<string, int>, boundary: Option<Position>, limit: nat)
    ensures
      var page := NewestPage(Positions(table), boundary, limit);
      page != [] ==> var last := page[|page| - 1]; last.id in table && table[last.id] == last.time
  {
    NewestFirstOrders();
    var page := NewestPage(Positions(table), boundary, limit);
    PageIsPrefix(NewestFirst, Positions(table), boundary, limit);
    if page != [] {
      assert page[|page| - 1] in page;
      assert page[|page| - 1] in Positions(table);
    }
  }

  /** One request's answer: the page, and a cursor that the next table still knows. */
  lemma PageOfIs(tables: seq<map<string, int>>, boundary: Option<Position>, limit: nat)
    requires tables != [] && Continues(tables) && IsBoundaryIn(tables, boundary)
    ensures
      var page := NewestPage(Positions(tables[0]), boundary, limit);
      && FindMessages(tables[0], IdOf(boundary), limit) ==
        Some(HistoryPage(Reverse(page), if page == [] then None else IdOf(EndOf(page, boundary))))
      && IsBoundaryIn(tables[1..], EndOf(page, boundary))
  {
    var page := NewestPage(Positions(tables[0]), boundary, limit);
    LastIsStored(tables[0], boundary, limit);
  }

  /** Everything older than the boundary that the first table holds is in the thread, which is in order. */
  lemma {:induction false} ThreadIsComplete(tables: seq<map<string, int>>, boundary: Option<Position>, limit: nat)
    requires Continues(tables) && IsBoundaryIn(tables, boundary) && limit > 0
    requires ThreadEnds(tables, IdOf(boundary), limit)
    ensures
      var thread := Thread(tables, IdOf(boundary), limit);
      && thread.Some?
      && (forall j, k | 0 <= j < k < |thread.value| :: NewestFirst(thread.value[k], thread.value[j]))
      && (forall x | x in Positions(tables[0]) && (boundary.Some? ==> NewestFirst(boundary.value, x)) ::
          x in thread.value)
      && (forall x | x in thread.value ::
            (boundary.Some? ==> NewestFirst(boundary.value, x))
            && exists k | 0 <= k < |tables| :: x in Positions(tables[k]))
    decreases |tables|
  {
    NewestFirstOrders();
    var page := NewestPage(Positions(tables[0]), boundary, limit);
    PageOfIs(tables, boundary, limit);
    PageIsPrefix(NewestFirst, Positions(tables[0]), boundary, limit);
    if page == [] {
      assert Past(NewestFirst, Positions(tables[0]), boundary) == {};
    } else {
      var end := EndOf(page, boundary);
      ThreadIsComplete(tables[1..], end, limit);
      var older := Thread(tables[1..], IdOf(end), limit).value;
      var thread := Thread(tables, IdOf(boundary), limit).value;
      assert thread == older + Reverse(page);
      ThreadGrows(tables, boundary, page, older);
    }
  }

  lemma ThreadGrows(
      tables: seq<map<string, int>>, boundary: Option<Position>, page: seq<Position>, older: seq<Position>)
    requires |tables| > 1 && Continues(tables) && page != [] && Ascends(NewestFirst, page)
    requires forall x | x in page :: x in Positions(tables[0]) && (boundary.Some? ==> NewestFirst(boundary.value, x))
    requires forall x | x in Positions(tables[0]) && (boundary.Some? ==> NewestFirst(boundary.value, x)) ::
      x in page || NewestFirst(page[|page| - 1], x)
    requires forall j, k | 0 <= j < k < |older| :: NewestFirst(older[k], older[j])
    requires forall x | x in Positions(tables[1]) && NewestFirst(page[|page| - 1], x) :: x in older
    requires forall x | x in older ::
      NewestFirst(page[|page| - 1], x) && exists k | 0 <= k < |tables[1..]| :: x in Positions(tables[1..][k])
    ensures
      var thread := older + Reverse(page);
      && (forall j, k | 0 <= j < k < |thread| :: NewestFirst(thread[k], thread[j]))
      && (forall x | x in Positions(tables[0]) && (boundary.Some? ==> NewestFirst(boundary.value, x)) :: x in thread)
      && (forall x | x in thread ::
          (boundary.Some? ==> NewestFirst(boundary.value, x))
          && exists k | 0 <= k < |tables| :: x in Positions(tables[k]))
  {
    NewestFirstOrders();
    var thread := older + Reverse(page);
    forall x | x in older
      ensures (boundary.Some? ==> NewestFirst(boundary.value, x)) && forall y | y in page :: NewestFirst(y, x) {
      EndIsPast(NewestFirst, page, boundary, x);
    }
    forall x ensures x in thread <==> x in older || x in page {
      if x in page { var k :| 0 <= k < |page| && page[k] == x; assert Reverse(page)[|page| - 1 - k] == x; }
    }
    forall j, k | 0 <= j < k < |thread| ensures NewestFirst(thread[k], thread[j]) {
      if j < |older| && k >= |older| { assert older[j] in older && thread[k] in Reverse(page) && thread[k] in page; }
    }
    forall x | x in Positions(tables[0]) && (boundary.Some? ==> NewestFirst(boundary.value, x)) ensures x in thread {
      assert x.id in tables[1] && tables[1][x.id] == tables[0][x.id];
      assert x in Positions(tables[1]);
    }
    forall x | x in thread ensures exists k | 0 <= k < |tables| :: x in Positions(tables[k]) {
      if x in page {
        assert x in Positions(tables[0]);
      } else {
        var k :| 0 <= k < |tables[1..]| && x in Positions(tables[1..][k]);
        assert x in Positions(tables[k + 1]);
      }
    }
  }

  /**
   * Reading history back to its start while messages are sent and unsent: the reader is never told its
   * boundary is unknown, gets every message there was when it began, in order and so exactly once, and
   * besides them only messages stored meanwhile.
   */
  lemma HistoryIsComplete(tables: seq<map<string, int>>, limit: nat)
    requires Continues(tables) && limit > 0 && ThreadEnds(tables, None, limit)
    ensures
      var thread := Thread(tables, None, limit);
      && thread.Some?
      && (forall j, k | 0 <= j < k < |thread.value| :: ComesBefore(thread.value[j], thread.value[k]))
      && (forall id | id in tables[0] :: Position(tables[0][id], id) in thread.value)
      && (forall x | x in thread.value ::
          exists k | 0 <= k < |tables| :: x.id in tables[k] && tables[k][x.id] == x.time)
  {
    ThreadIsComplete(tables, None, limit);
    var thread := Thread(tables, None, limit).value;
    ThreadAscends(thread);
    forall id | id in tables[0] ensures Position(tables[0][id], id) in thread {
      assert Position(tables[0][id], id) in Positions(tables[0]);
    }
    forall x | x in thread ensures exists k | 0 <= k < |tables| :: x.id in tables[k] && tables[k][x.id] == x.time {
      var k :| 0 <= k < |tables| && x in Positions(tables[k]);
    }
  }

  lemma ThreadAscends(thread: seq<Position>)
    requires forall j, k | 0 <= j < k < |thread| :: NewestFirst(thread[k], thread[j])
    ensures forall j, k | 0 <= j < k < |thread| :: ComesBefore(thread[j], thread[k])
  {
    forall j, k | 0 <= j < k < |thread| ensures ComesBefore(thread[j], thread[k]) {
      NewestFirstIs(thread[k], thread[j]);
    }
  }

  // ---------------------------------------------------------------- the inbox

  datatype InboxRow = InboxRow(pinned: bool, at: Position)

  /** How `listConversations` sorts: pinned on top, then newest first. */
  predicate InboxOrder(a: InboxRow, b: InboxRow) {
    (a.pinned && !b.pinned) || (a.pinned == b.pinned && NewestFirst(a.at, b.at))
  }

  lemma InboxOrders()
    ensures IsOrder(InboxOrder)
  {
    NewestFirstOrders();
  }

  function Those(rows: set<InboxRow>, pinned: bool): set<Position> {
    set row | row in rows && row.pinned == pinned :: row.at
  }

  function AsRows(pinned: bool, ats: set<Position>): set<InboxRow> {
    set at | at in ats :: InboxRow(pinned, at)
  }

  function Elements<T>(xs: seq<T>): set<T> { set x | x in xs }

  /**
   * `findInboxPage`: without a limit everything; else one page of the unpinned, and on the first page all the
   * pinned.
   */
  ghost function FindInboxPage(rows: set<InboxRow>, limit: Option<nat>, before: Option<Position>): set<InboxRow> {
    if limit.None? || limit.value == 0 then rows
    else
      NewestFirstOrders();
      var unpinned := AsRows(false, Elements(Page(NewestFirst, Those(rows, false), before, limit.value)));
      if before.Some? then unpinned else AsRows(true, Those(rows, true)) + unpinned
  }

  ghost function ListConversations(rows: set<InboxRow>, limit: Option<nat>, before: Option<Position>): seq<InboxRow> {
    InboxOrders();
    Listing(InboxOrder, FindInboxPage(rows, limit, before))
  }

  /** The last unpinned conversation of a page; a reader with none has seen everything. */
  function CursorOf(page: seq<InboxRow>): Option<Position> {
    if page == [] || page[|page| - 1].pinned then None else Some(page[|page| - 1].at)
  }

  ghost function LaterPages(rows: set<InboxRow>, limit: nat, before: Position, asks: nat): seq<InboxRow>
    decreases asks
  {
    if asks == 0 then []
    else
      var page := ListConversations(rows, Some(limit), Some(before));
      page + if CursorOf(page).None? then [] else LaterPages(rows, limit, CursorOf(page).value, asks - 1)
  }

  function PinnedRow(at: Position): InboxRow { InboxRow(true, at) }

  function PlainRow(at: Position): InboxRow { InboxRow(false, at) }

  lemma LaterPageIs(rows: set<InboxRow>, limit: nat, before: Position)
    requires limit > 0
    ensures ListConversations(rows, Some(limit), Some(before)) ==
      Map(PlainRow, NewestPage(Those(rows, false), Some(before), limit))
  {
    NewestFirstOrders();
    InboxOrders();
    var page := NewestPage(Those(rows, false), Some(before), limit);
    var set_ := FindInboxPage(rows, Some(limit), Some(before));
    PageIsPrefix(NewestFirst, Those(rows, false), Some(before), limit);
    PlainRowsList(page);
    ListingLists(InboxOrder, set_);
    ListingIsUnique(InboxOrder, ListConversations(rows, Some(limit), Some(before)), Map(PlainRow, page), set_);
  }

  lemma PlainRowsList(page: seq<Position>)
    requires Ascends(NewestFirst, page)
    ensures IsListing(InboxOrder, Map(PlainRow, page), AsRows(false, Elements(page)))
  {
    var xs := Map(PlainRow, page);
    forall x ensures x in xs <==> x in AsRows(false, Elements(page)) {
      if x in AsRows(false, Elements(page)) {
        var k :| 0 <= k < |page| && page[k] == x.at;
        assert xs[k] == x;
      }
    }
  }

  lemma NewestAscends(rows: set<Position>)
    ensures Ascends(NewestFirst, Newest(rows, None)) && Elements(Newest(rows, None)) == rows
  {
    NewestFirstOrders();
    assert Past(NewestFirst, rows, None) == rows;
    ListingLists(NewestFirst, rows);
  }

  /** The pinned conversations on top of some of the others. */
  lemma StackLists(rows: set<InboxRow>, others: seq<Position>)
    requires Ascends(NewestFirst, others)
    ensures IsListing(InboxOrder, Map(PinnedRow, Newest(Those(rows, true), None)) + Map(PlainRow, others),
                      AsRows(true, Those(rows, true)) + AsRows(false, Elements(others)))
  {
    var pinned := Newest(Those(rows, true), None);
    NewestAscends(Those(rows, true));
    PlainRowsList(others);
    JoinAscends(InboxOrder, Map(PinnedRow, pinned), Map(PlainRow, others));
  }

  /** One page and then everything past it is everything. */
  lemma PageThenRest(rows: set<Position>, before: Option<Position>, limit: nat)
    requires limit > 0
    ensures
      var page := NewestPage(rows, before, limit);
      && (page == [] ==> Newest(rows, before) == [])
      && (page != [] ==> Newest(rows, before) == page + Newest(rows, Some(page[|page| - 1])))
  {
    NewestFirstOrders();
    var page := NewestPage(rows, before, limit);
    PageIsPrefix(NewestFirst, rows, before, limit);
    if page != [] {
      var past, rest := Past(NewestFirst, rows, before), Past(NewestFirst, rows, EndOf(page, before));
      ListingLists(NewestFirst, past);
      ListingLists(NewestFirst, rest);
      var xs := page + Listing(NewestFirst, rest);
      forall x | x in rest ensures x in past && forall y | y in page :: NewestFirst(y, x) {
        EndIsPast(NewestFirst, page, before, x);
      }
      JoinAscends(NewestFirst, page, Listing(NewestFirst, rest));
      forall x ensures x in xs <==> x in past {
        assert x in xs <==> x in page || x in rest;
      }
      ListingIsUnique(NewestFirst, xs, Listing(NewestFirst, past), past);
    }
  }

  lemma PastShrinks(rows: set<Position>, before: Option<Position>, limit: nat)
    requires limit > 0 && NewestPage(rows, before, limit) != []
    ensures
      var page := NewestPage(rows, before, limit);
      |Past(NewestFirst, rows, Some(page[|page| - 1]))| < |Past(NewestFirst, rows, before)|
  {
    NewestFirstOrders();
    var page := NewestPage(rows, before, limit);
    PageIsPrefix(NewestFirst, rows, before, limit);
    var past, last := Past(NewestFirst, rows, before), page[|page| - 1];
    assert last in page && last in past;
    forall x | x in Past(NewestFirst, rows, Some(last)) ensures x in past - {last} {
      EndIsPast(NewestFirst, page, before, x);
    }
    SmallerSet(Past(NewestFirst, rows, Some(last)), past, last);
  }

  lemma CursorOfPlain(above: seq<InboxRow>, page: seq<Position>)
    requires forall row | row in above :: row.pinned
    ensures CursorOf(above + Map(PlainRow, page)) == EndOf(page, None)
  {
    if page == [] && above != [] { assert above[|above| - 1] in above; }
  }

  lemma LaterPagesStep(rows: set<InboxRow>, limit: nat, before: Position, asks: nat)
    requires limit > 0 && asks > 0
    ensures
      var page := NewestPage(Those(rows, false), Some(before), limit);
      LaterPages(rows, limit, before, asks) ==
        Map(PlainRow, page) + if page == [] then [] else LaterPages(rows, limit, page[|page| - 1], asks - 1)
  {
    var page := NewestPage(Those(rows, false), Some(before), limit);
    LaterPageIs(rows, limit, before);
    CursorOfPlain([], page);
    assert [] + Map(PlainRow, page) == Map(PlainRow, page);
  }

  lemma GlueUnder(
      above: seq<InboxRow>, page: seq<Position>, rest: seq<InboxRow>, newest: seq<Position>, rows: seq<Position>)
    requires rest == Map(PlainRow, newest) && rows == page + newest
    ensures above + Map(PlainRow, page) + rest == above + Map(PlainRow, rows)
  {
    assert above + Map(PlainRow, page) + rest == above + (Map(PlainRow, page) + rest);
  }

  lemma {:induction false} LaterPagesAre(rows: set<InboxRow>, limit: nat, before: Position, asks: nat)
    requires limit > 0 && asks > |Past(NewestFirst, Those(rows, false), Some(before))|
    ensures LaterPages(rows, limit, before, asks) == Map(PlainRow, Newest(Those(rows, false), Some(before)))
    decreases asks
  {
    var page := NewestPage(Those(rows, false), Some(before), limit);
    if page == [] {
      LaterPagesStep(rows, limit, before, asks);
      PageThenRest(Those(rows, false), Some(before), limit);
    } else {
      PastShrinks(Those(rows, false), Some(before), limit);
      LaterPagesAre(rows, limit, page[|page| - 1], asks - 1);
      LaterPagesGlue(rows, limit, before, asks);
    }
  }

  lemma LaterPagesGlue(rows: set<InboxRow>, limit: nat, before: Position, asks: nat)
    requires limit > 0 && asks > 0 && NewestPage(Those(rows, false), Some(before), limit) != []
    requires
      var page := NewestPage(Those(rows, false), Some(before), limit);
      LaterPages(rows, limit, page[|page| - 1], asks - 1) ==
        Map(PlainRow, Newest(Those(rows, false), Some(page[|page| - 1])))
    ensures LaterPages(rows, limit, before, asks) == Map(PlainRow, Newest(Those(rows, false), Some(before)))
  {
    var page := NewestPage(Those(rows, false), Some(before), limit);
    LaterPagesStep(rows, limit, before, asks);
    PageThenRest(Those(rows, false), Some(before), limit);
  }

  lemma FirstPageIs(rows: set<InboxRow>, limit: nat)
    requires limit > 0
    ensures ListConversations(rows, Some(limit), None) ==
      Map(PinnedRow, Newest(Those(rows, true), None)) + Map(PlainRow, NewestPage(Those(rows, false), None, limit))
  {
    NewestFirstOrders();
    InboxOrders();
    var page := NewestPage(Those(rows, false), None, limit);
    var found := FindInboxPage(rows, Some(limit), None);
    PageIsPrefix(NewestFirst, Those(rows, false), None, limit);
    StackLists(rows, page);
    ListingLists(InboxOrder, found);
    ListingIsUnique(InboxOrder, ListConversations(rows, Some(limit), None),
                    Map(PinnedRow, Newest(Those(rows, true), None)) + Map(PlainRow, page), found);
  }

  lemma WholeInboxIs(rows: set<InboxRow>)
    ensures ListConversations(rows, None, None) ==
      Map(PinnedRow, Newest(Those(rows, true), None)) + Map(PlainRow, Newest(Those(rows, false), None))
  {
    InboxOrders();
    var all := Newest(Those(rows, false), None);
    NewestAscends(Those(rows, false));
    StackLists(rows, all);
    assert AsRows(true, Those(rows, true)) + AsRows(false, Those(rows, false)) == rows;
    ListingLists(InboxOrder, rows);
    ListingIsUnique(InboxOrder, ListConversations(rows, None, None),
      Map(PinnedRow, Newest(Those(rows, true), None)) + Map(PlainRow, all), rows);
  }

  /** The whole inbox: every conversation, the pinned ones on top, and otherwise the newest first. */
  lemma InboxIsSorted(rows: set<InboxRow>)
    ensures
      var inbox := ListConversations(rows, None, None);
      && (forall row :: row in inbox <==> row in rows)
      && (forall j, k | 0 <= j < k < |inbox| ::
            (inbox[j].pinned && !inbox[k].pinned)
            || (inbox[j].pinned == inbox[k].pinned && ComesBefore(inbox[k].at, inbox[j].at)))
  {
    InboxOrders();
    ListingLists(InboxOrder, rows);
    forall a, b ensures NewestFirst(a, b) <==> ComesBefore(b, a) { NewestFirstIs(a, b); }
  }

  /**
   * An inbox that does not change, read in pages of any size, is the whole inbox exactly as it comes
   * without paging: pinned first, nothing skipped, nothing twice.
   */
  lemma InboxPagesAreTheInbox(rows: set<InboxRow>, limit: nat, asks: nat)
    requires limit > 0 && asks > |rows|
    ensures
      var first := ListConversations(rows, Some(limit), None);
      first + (if CursorOf(first).None? then [] else LaterPages(rows, limit, CursorOf(first).value, asks)) ==
        ListConversations(rows, None, None)
  {
    var page := NewestPage(Those(rows, false), None, limit);
    FirstPageIs(rows, limit);
    WholeInboxIs(rows);
    PageThenRest(Those(rows, false), None, limit);
    CursorOfPlain(Map(PinnedRow, Newest(Those(rows, true), None)), page);
    if page != [] {
      FewerThan(rows, page[|page| - 1]);
      LaterPagesAre(rows, limit, page[|page| - 1], asks);
      GlueUnder(Map(PinnedRow, Newest(Those(rows, true), None)), page, LaterPages(rows, limit, page[|page| - 1], asks),
                Newest(Those(rows, false), Some(page[|page| - 1])), Newest(Those(rows, false), None));
    }
  }

  lemma FewerThan(rows: set<InboxRow>, before: Position)
    ensures |Past(NewestFirst, Those(rows, false), Some(before))| <= |rows|
  {
    var past := Past(NewestFirst, Those(rows, false), Some(before));
    var image := AsRows(false, past);
    ImageIsAsBig(past);
    SubsetIsSmaller(image, rows);
  }

  lemma {:induction false} ImageIsAsBig(ats: set<Position>)
    ensures |AsRows(false, ats)| == |ats|
    decreases |ats|
  {
    if ats != {} {
      var at :| at in ats;
      ImageIsAsBig(ats - {at});
      assert AsRows(false, ats) == AsRows(false, ats - {at}) + {InboxRow(false, at)};
    }
  }

  // ---------------------------------------------------------------- reading history does end

  /** Once nothing new arrives, a reader is done after at most one page more than there are older messages. */
  lemma {:induction false} QuietHistoryEnds(
      table: map<string, int>, tables: seq<map<string, int>>, boundary: Option<Position>, limit: nat)
    requires limit > 0 && |tables| > |Past(NewestFirst, Positions(table), boundary)|
    requires forall k | 0 <= k < |tables| :: tables[k] == table
    requires IsBoundaryIn(tables, boundary)
    ensures ThreadEnds(tables, IdOf(boundary), limit)
    decreases |tables|
  {
    var page := NewestPage(Positions(table), boundary, limit);
    PageOfIs(tables, boundary, limit);
    if page != [] {
      PastShrinks(Positions(table), boundary, limit);
      QuietHistoryEnds(table, tables[1..], EndOf(page, boundary), limit);
    }
  }

  // ---------------------------------------------------------------- backup blobs

  predicate OldestFirst(a: Position, b: Position) { NewestFirst(b, a) }

  lemma OldestFirstOrders()
    ensures IsOrder(OldestFirst)
  {
    NewestFirstOrders();
  }

  datatype BlobPage = BlobPage(items: seq<Position>, nextCursor: Option<Position>)

  /** `listBlobs` asks for one row more than it returns, to know whether there is another page. */
  ghost function ListBlobs(rows: set<Position>, after: Option<Position>, take: nat): BlobPage {
    OldestFirstOrders();
    var found := Page(OldestFirst, rows, after, take + 1);
    var page := if |found| <= take then found else found[..take];
    BlobPage(page, if |found| > take && page != [] then Some(page[|page| - 1]) else None)
  }

  /** A download follows the cursors; `None` when the tables run out before a page without a cursor. */
  ghost function Download(tables: seq<set<Position>>, after: Option<Position>, take: nat): Option<seq<Position>>
    decreases |tables|
  {
    if tables == [] then None
    else
      var page := ListBlobs(tables[0], after, take);
      if page.nextCursor.None? then Some(page.items)
      else
        var rest := Download(tables[1..], page.nextCursor, take);
        if rest.None? then None else Some(page.items + rest.value)
  }

  lemma BlobPageIs(rows: set<Position>, after: Option<Position>, take: nat)
    requires take > 0
    ensures (OldestFirstOrders();
      var page := ListBlobs(rows, after, take);
      && page.items == Page(OldestFirst, rows, after, take)
      && (page.nextCursor.None? <==> |Listing(OldestFirst, Past(OldestFirst, rows, after))| <= take)
      && (page.nextCursor.Some? ==> page.nextCursor == EndOf(page.items, after) && page.items != []))
  {
    OldestFirstOrders();
    var all := Listing(OldestFirst, Past(OldestFirst, rows, after));
    if |all| > take { assert all[..take + 1][..take] == all[..take]; }
  }

  /**
   * One page of blobs, row by row: the rows just after the cursor, in order and no more than asked for; there is
   * a next cursor, the last of them, exactly when rows are left.
   */
  lemma BlobRowsAre(rows: set<Position>, after: Option<Position>, take: nat)
    requires take > 0
    ensures
      var page := ListBlobs(rows, after, take);
      && |page.items| <= take
      && (forall j, k | 0 <= j < k < |page.items| :: ComesBefore(page.items[j], page.items[k]))
      && (forall x | x in page.items :: IsAfter(rows, after, x))
      && (forall x | IsAfter(rows, after, x) && x !in page.items :: forall y | y in page.items :: ComesBefore(y, x))
      && (page.nextCursor.None? <==> forall x | IsAfter(rows, after, x) :: x in page.items)
      && (page.nextCursor.Some? ==> page.items != [] && page.nextCursor.value == page.items[|page.items| - 1])
  {
    OldestFirstOrders();
    forall a, b ensures OldestFirst(a, b) <==> ComesBefore(a, b) { NewestFirstIs(b, a); }
    BlobPageIs(rows, after, take);
    PageLimitIs(OldestFirst, rows, after, take);
    CursorWhenRowsAreLeft(rows, after, take);
    forall x ensures IsAfter(rows, after, x) <==> x in Past(OldestFirst, rows, after) {
    }
  }

  ghost predicate IsAfter(rows: set<Position>, after: Option<Position>, x: Position) {
    x in rows && (after.Some? ==> ComesBefore(after.value, x))
  }

  lemma CursorWhenRowsAreLeft(rows: set<Position>, after: Option<Position>, take: nat)
    requires take > 0
    ensures
      var page := ListBlobs(rows, after, take);
      page.nextCursor.None? <==> forall x | x in Past(OldestFirst, rows, after) :: x in page.items
  {
    OldestFirstOrders();
    BlobPageIs(rows, after, take);
    var past := Past(OldestFirst, rows, after);
    var all := Listing(OldestFirst, past);
    ListingLists(OldestFirst, past);
    if |all| > take {
      var items := ListBlobs(rows, after, take).items;
      assert all[take] in past;
      assert forall k | 0 <= k < take :: items[k] == all[k] && OldestFirst(all[k], all[take]);
      assert all[take] !in items;
    }
  }

  /** What `got` is of a download from `after` on: all that was there, in order, and nothing that never was. */
  predicate IsDownload(rows: set<Position>, tables: seq<set<Position>>, after: Option<Position>, got: seq<Position>) {
    && Ascends(OldestFirst, got)
    && (forall x | x in rows && (after.Some? ==> OldestFirst(after.value, x)) :: x in got)
    && (forall x | x in got ::
        (after.Some? ==> OldestFirst(after.value, x)) && exists k | 0 <= k < |tables| :: x in tables[k])
  }

  /**
   * A download that ends has every blob that was there when it began, in order and so exactly once, though
   * uploads go on.
   */
  lemma {:induction false} DownloadIsComplete(
      rows: set<Position>, tables: seq<set<Position>>, after: Option<Position>, take: nat)
    requires take > 0 && OnlyGrows(rows, tables) && Download(tables, after, take).Some?
    ensures IsDownload(rows, tables, after, Download(tables, after, take).value)
    ensures
      var got := Download(tables, after, take).value;
      forall j, k | 0 <= j < k < |got| :: ComesBefore(got[j], got[k])
    decreases |tables|
  {
    forall a, b ensures OldestFirst(a, b) <==> ComesBefore(a, b) { NewestFirstIs(b, a); }
    var page := ListBlobs(tables[0], after, take);
    if page.nextCursor.None? {
      LastPageIsDownload(rows, tables, after, take);
    } else {
      DownloadIsComplete(rows, tables[1..], page.nextCursor, take);
      PageIsSomeOfIt(tables[0], after, take);
      DownloadGrows(rows, tables, after, page.items, Download(tables[1..], page.nextCursor, take).value);
    }
  }

  lemma LastPageIsDownload(rows: set<Position>, tables: seq<set<Position>>, after: Option<Position>, take: nat)
    requires take > 0 && tables != [] && OnlyGrows(rows, tables) && ListBlobs(tables[0], after, take).nextCursor.None?
    ensures IsDownload(rows, tables, after, ListBlobs(tables[0], after, take).items)
  {
    OldestFirstOrders();
    BlobPageIs(tables[0], after, take);
    PageIsPrefix(OldestFirst, tables[0], after, take);
    forall x | x in rows && (after.Some? ==> OldestFirst(after.value, x))
      ensures x in ListBlobs(tables[0], after, take).items {
      assert x in Past(OldestFirst, tables[0], after);
    }
  }

  lemma PageIsSomeOfIt(rows: set<Position>, after: Option<Position>, take: nat)
    requires take > 0 && ListBlobs(rows, after, take).nextCursor.Some?
    ensures
      var page := ListBlobs(rows, after, take);
      && page.items != [] && Ascends(OldestFirst, page.items) && page.nextCursor == Some(page.items[|page.items| - 1])
      && (forall x | x in page.items :: x in rows && (after.Some? ==> OldestFirst(after.value, x)))
      && (forall x | x in rows && (after.Some? ==> OldestFirst(after.value, x)) ::
            x in page.items || OldestFirst(page.items[|page.items| - 1], x))
  {
    OldestFirstOrders();
    BlobPageIs(rows, after, take);
    PageIsPrefix(OldestFirst, rows, after, take);
  }

  lemma DownloadGrows(
      rows: set<Position>, tables: seq<set<Position>>, after: Option<Position>, page: seq<Position>,
      rest: seq<Position>)
    requires tables != [] && OnlyGrows(rows, tables) && page != [] && Ascends(OldestFirst, page)
    requires forall x | x in page :: x in tables[0] && (after.Some? ==> OldestFirst(after.value, x))
    requires forall x | x in tables[0] && (after.Some? ==> OldestFirst(after.value, x)) ::
      x in page || OldestFirst(page[|page| - 1], x)
    requires IsDownload(rows, tables[1..], Some(page[|page| - 1]), rest)
    ensures IsDownload(rows, tables, after, page + rest)
  {
    OldestFirstOrders();
    forall x | x in rest
      ensures (after.Some? ==> OldestFirst(after.value, x)) && forall y | y in page :: OldestFirst(y, x) {
      EndIsPast(OldestFirst, page, after, x);
    }
    JoinAscends(OldestFirst, page, rest);
    forall x | x in page + rest ensures exists k | 0 <= k < |tables| :: x in tables[k] {
      SomewhereIn(tables, page, rest, x);
    }
  }

  lemma SomewhereIn(tables: seq<set<Position>>, page: seq<Position>, rest: seq<Position>, x: Position)
    requires tables != [] && x in page + rest
    requires forall y | y in page :: y in tables[0]
    requires forall y | y in rest :: exists k | 0 <= k < |tables[1..]| :: y in tables[1..][k]
    ensures exists k | 0 <= k < |tables| :: x in tables[k]
  {
    if x in page {
      assert x in tables[0];
    } else {
      var k :| 0 <= k < |tables[1..]| && x in tables[1..][k];
      assert x in tables[k + 1];
    }
  }

  /** And it does end once uploads stop. */
  lemma {:induction false} QuietDownloadEnds(
      rows: set<Position>, tables: seq<set<Position>>, after: Option<Position>, take: nat)
    requires take > 0 && |tables| > |Past(OldestFirst, rows, after)|
    requires forall k | 0 <= k < |tables| :: tables[k] == rows
    ensures Download(tables, after, take).Some?
    decreases |tables|
  {
    var page := ListBlobs(rows, after, take);
    if page.nextCursor.Some? {
      PageIsSomeOfIt(rows, after, take);
      BlobsLeftShrink(rows, after, page.items);
      QuietDownloadEnds(rows, tables[1..], page.nextCursor, take);
    }
  }

  lemma BlobsLeftShrink(rows: set<Position>, after: Option<Position>, page: seq<Position>)
    requires page != [] && Ascends(OldestFirst, page)
    requires forall x | x in page :: x in rows && (after.Some? ==> OldestFirst(after.value, x))
    ensures |Past(OldestFirst, rows, Some(page[|page| - 1]))| < |Past(OldestFirst, rows, after)|
  {
    OldestFirstOrders();
    var last := page[|page| - 1];
    assert last in page;
    forall x | x in Past(OldestFirst, rows, Some(last)) ensures x in Past(OldestFirst, rows, after) - {last} {
      EndIsPast(OldestFirst, page, after, x);
    }
    SmallerSet(Past(OldestFirst, rows, Some(last)), Past(OldestFirst, rows, after), last);
  }
}
