/** The text of a blob page's cursor: the time in ISO form, a bar and the blob's id, in base64url. */
module Cursors {
  import opened Common
  import opened Paging

  /** JavaScript's `Date` and `Buffer`: what the cursor functions call. */
  datatype Library = Library(
    toISOString: int -> string, parseDate: string -> Option<int>, toBase64url: string -> string,
      fromBase64url: string -> string)

  /** The most milliseconds from 1970 a `Date` can be away. */
  const MAX_TIME := 8_640_000_000_000_000

  predicate IsTime(t: int) { -MAX_TIME <= t <= MAX_TIME }

  /** What is relied on: both ways back are ways back, and an ISO time holds no bar. */
  ghost predicate IsFaithful(js: Library) {
    && (forall t | IsTime(t) :: js.parseDate(js.toISOString(t)) == Some(t) && '|' !in js.toISOString(t))
    && (forall s :: js.fromBase64url(js.toBase64url(s)) == s)
  }

  /** `split('|')`. */
  function Split(s: string): (parts: seq<string>)
    ensures parts != []
  {
    if s == [] then [[]]
    else
      var rest := Split(s[1..]);
      if s[0] == '|' then [[]] + rest else [[s[0]] + rest[0]] + rest[1..]
  }

  function EncodeCursor(js: Library, cursor: Position): string {
    js.toBase64url(js.toISOString(cursor.time) + "|" + cursor.id)
  }

  /** `None` is the "Invalid cursor" answer. */
  function DecodeCursor(js: Library, raw: string): Option<Position> {
    var parts := Split(js.fromBase64url(raw));
    var time := js.parseDate(parts[0]);
    if |parts| != 2 || parts[1] == [] || time.None? then None else Some(Position(time.value, parts[1]))
  }

  /** A text without a bar is one part. */
  lemma {:induction false} SplitWhole(s: string)
    ensures Split(s) == [s] <==> '|' !in s
    ensures |Split(s)| == 1 <==> '|' !in s
  {
    if s != [] {
      SplitWhole(s[1..]);
      assert s == [s[0]] + s[1..];
      assert '|' in s <==> s[0] == '|' || '|' in s[1..];
    }
  }

  lemma {:induction false} SplitAtFirstBar(before: string, after: string)
    requires '|' !in before
    ensures Split(before + "|" + after) == [before] + Split(after)
  {
    var s := before + "|" + after;
    if before == [] {
      assert s == "|" + after && s[1..] == after;
    } else {
      assert s[1..] == before[1..] + "|" + after;
      SplitAtFirstBar(before[1..], after);
      assert before == [before[0]] + before[1..];
    }
  }

  /** A cursor comes back from its text if and only if the id is there and holds no bar; otherwise it is refused. */
  lemma CursorRoundTrip(js: Library, cursor: Position)
    requires IsFaithful(js) && -8_640_000_000_000_000 <= cursor.time <= 8_640_000_000_000_000
    ensures DecodeCursor(js, EncodeCursor(js, cursor)) ==
      if cursor.id != "" && '|' !in cursor.id then Some(cursor) else None
  {
    var iso := js.toISOString(cursor.time);
    SplitAtFirstBar(iso, cursor.id);
    SplitWhole(cursor.id);
    assert Split(js.fromBase64url(EncodeCursor(js, cursor))) == [iso] + Split(cursor.id);
  }
}
