/** The @mention scanner, the splitter that highlights mentions, and picking a member while typing one. */
module Mentions {
  import opened Common

  datatype Mention = Mention(start: nat, end: nat, handle: string)

  // ---------------------------------------------------------------- characters and handles

  predicate IsAlnum(c: char) {
    'A' <= c <= 'Z' || 'a' <= c <= 'z' || '0' <= c <= '9'
  }

  predicate IsSeparator(c: char) { c == '_' || c == '-' }

  /** `[A-Za-z0-9_-]`, which is also `[\w-]`. */
  predicate IsHandleChar(c: char) { IsAlnum(c) || IsSeparator(c) }

  /** USERNAME_PATTERN: 3 to 20 handle characters, alphanumeric at both ends, no two separators in a row. */
  predicate ValidUsername(handle: string) {
    && 3 <= |handle| <= 20
    && IsAlnum(handle[0]) && IsAlnum(handle[|handle| - 1])
    && (forall i | 0 <= i < |handle| :: IsHandleChar(handle[i]))
    && (forall i | 0 <= i < |handle| - 1 :: !(IsSeparator(handle[i]) && IsSeparator(handle[i + 1])))
  }

  // ---------------------------------------------------------------- what a mention is

  /** Where the handle characters that start at `from` stop. */
  function RunEnd(text: string, from: nat): (end: nat)
    requires from <= |text|
    ensures from <= end <= |text|
    decreases |text| - from
  {
    if from < |text| && IsHandleChar(text[from]) then RunEnd(text, from + 1) else from
  }

  /** The end of a run is the one place where handle characters stop. */
  lemma {:induction false} RunEndIs(text: string, from: nat, end: nat)
    requires from <= end <= |text|
    ensures RunEnd(text, from) == end <==>
      (forall i | from <= i < end :: IsHandleChar(text[i])) && (end < |text| ==> !IsHandleChar(text[end]))
    decreases |text| - from
  {
    if from < |text| && IsHandleChar(text[from]) {
      if from < end {
        RunEndIs(text, from + 1, end);
      }
    }
  }

  /** `replace(/[_-]+$/, '')`. */
  function StripSeparators(run: string): (handle: string)
    ensures handle <= run
  {
    if run != [] && IsSeparator(run[|run| - 1]) then StripSeparators(run[..|run| - 1]) else run
  }

  /** What is left ends in no separator, and only separators were taken off. */
  lemma {:induction false} StripsTrailingSeparators(run: string)
    ensures
      var handle := StripSeparators(run);
      && (handle != [] ==> !IsSeparator(handle[|handle| - 1]))
      && (forall i | |handle| <= i < |run| :: IsSeparator(run[i]))
  {
    if run != [] && IsSeparator(run[|run| - 1]) {
      StripsTrailingSeparators(run[..|run| - 1]);
    }
  }

  function HandleAt(text: string, at: nat): string
    requires at < |text|
  {
    StripSeparators(text[at + 1..RunEnd(text, at + 1)])
  }

  predicate OpensMention(text: string, at: nat)
    requires at < |text|
  {
    text[at] == '@' && (at == 0 || !IsHandleChar(text[at - 1]))
  }

  /** Declaratively: an `@` not after a word character, with a valid username right behind it. */
  predicate IsMentionAt(text: string, at: nat) {
    at < |text| && OpensMention(text, at) && ValidUsername(HandleAt(text, at))
  }

  function MentionAt(text: string, at: nat): (m: Mention)
    requires at < |text|
    ensures m.start == at && m.end == at + 1 + |m.handle| <= |text|
    ensures m.handle == text[at + 1..m.end]
  {
    var handle := HandleAt(text, at);
    assert text[at + 1..RunEnd(text, at + 1)][..|handle|] == text[at + 1..at + 1 + |handle|];
    Mention(at, at + 1 + |handle|, handle)
  }

  /** Every mention that starts before `upTo`, in order. */
  function MentionsBefore(text: string, upTo: nat): seq<Mention>
    requires upTo <= |text|
  {
    if upTo == 0 then []
    else MentionsBefore(text, upTo - 1) + (if IsMentionAt(text, upTo - 1) then [MentionAt(text, upTo - 1)] else [])
  }

  function MentionsIn(text: string): seq<Mention> {
    MentionsBefore(text, |text|)
  }

  // ---------------------------------------------------------------- the scan

  /** A match of MENTION_CANDIDATE starts here. */
  predicate IsCandidate(text: string, at: nat) {
    at < |text| && OpensMention(text, at) && at + 1 < |text| && IsHandleChar(text[at + 1])
  }

  /** The leftmost match of the pattern from `from` on, or the length of the text. */
  method NextCandidate(text: string, from: nat) returns (at: nat)
    requires from <= |text|
    ensures from <= at <= |text|
    ensures at < |text| ==> IsCandidate(text, at)
    ensures forall i: nat | from <= i < at :: !IsCandidate(text, i)
  {
    at := from;
    while at < |text| && !IsCandidate(text, at)
      invariant from <= at <= |text|
      invariant forall i: nat | from <= i < at :: !IsCandidate(text, i)
    {
      at := at + 1;
    }
  }

  lemma MentionsAreCandidates(text: string, at: nat)
    requires IsMentionAt(text, at)
    ensures IsCandidate(text, at)
  {
  }

  lemma {:induction false} NoMentionsBetween(text: string, from: nat, to: nat)
    requires from <= to <= |text|
    requires forall i: nat | from <= i < to :: !IsMentionAt(text, i)
    ensures MentionsBefore(text, to) == MentionsBefore(text, from)
  {
    if from < to {
      NoMentionsBetween(text, from, to - 1);
    }
  }

  /** One match of the scan: nothing skipped before it, and nothing inside its run, is a mention. */
  lemma MatchExtends(text: string, cursor: nat, at: nat)
    requires cursor <= at && IsCandidate(text, at)
    requires forall i: nat | cursor <= i < at :: !IsCandidate(text, i)
    ensures MentionsBefore(text, RunEnd(text, at + 1)) == MentionsBefore(text, cursor) +
      (if ValidUsername(HandleAt(text, at)) then [MentionAt(text, at)] else [])
  {
    var end := RunEnd(text, at + 1);
    forall i: nat | cursor <= i < at ensures !IsMentionAt(text, i) {
      if IsMentionAt(text, i) { MentionsAreCandidates(text, i); }
    }
    RunEndIs(text, at + 1, end);
    forall i: nat | at + 1 <= i < end ensures !IsMentionAt(text, i) {
      assert IsHandleChar(text[i]);
    }
    NoMentionsBetween(text, cursor, at);
    NoMentionsBetween(text, at + 1, end);
  }

  lemma NoMoreMentions(text: string, cursor: nat)
    requires cursor <= |text|
    requires forall i: nat | cursor <= i < |text| :: !IsCandidate(text, i)
    ensures MentionsBefore(text, cursor) == MentionsIn(text)
  {
    forall i: nat | cursor <= i < |text| ensures !IsMentionAt(text, i) {
      if IsMentionAt(text, i) { MentionsAreCandidates(text, i); }
    }
    NoMentionsBetween(text, cursor, |text|);
  }

  /** Greedy, left to right: each match is searched from where the last one ended. */
  method FindMentions(text: string) returns (mentions: seq<Mention>)
    ensures mentions == MentionsIn(text)
  {
    mentions := [];
    var cursor := 0;
    while true
      invariant cursor <= |text|
      invariant mentions == MentionsBefore(text, cursor)
      decreases |text| - cursor
    {
      var at := NextCandidate(text, cursor);
      if at == |text| {
        NoMoreMentions(text, cursor);
        return;
      }
      MatchExtends(text, cursor, at);
      var end := RunEnd(text, at + 1);
      var handle := StripSeparators(text[at + 1..end]);
      if ValidUsername(handle) {
        mentions := mentions + [Mention(at, at + 1 + |handle|, handle)];
      }
      cursor := end;
    }
  }

  // ---------------------------------------------------------------- what the scan finds

  lemma {:induction false} FoundIsMention(text: string, upTo: nat, k: nat)
    requires upTo <= |text| && k < |MentionsBefore(text, upTo)|
    ensures
      var m := MentionsBefore(text, upTo)[k];
      m.start < upTo && IsMentionAt(text, m.start) && m == MentionAt(text, m.start)
  {
    if k < |MentionsBefore(text, upTo - 1)| {
      FoundIsMention(text, upTo - 1, k);
    }
  }

  lemma {:induction false} MentionIsFound(text: string, upTo: nat, at: nat) returns (k: nat)
    requires at < upTo <= |text| && IsMentionAt(text, at)
    ensures k < |MentionsBefore(text, upTo)| && MentionsBefore(text, upTo)[k] == MentionAt(text, at)
  {
    if at == upTo - 1 {
      k := |MentionsBefore(text, upTo - 1)|;
    } else {
      k := MentionIsFound(text, upTo - 1, at);
    }
  }

  /** A mention holds no `@` but its own. */
  lemma MentionEndsBefore(text: string, at: nat, next: nat)
    requires IsMentionAt(text, at) && at < next < |text| && text[next] == '@'
    ensures MentionAt(text, at).end <= next
  {
    var m := MentionAt(text, at);
    forall i | at < i < m.end ensures IsHandleChar(text[i]) {
      assert text[i] == m.handle[i - (at + 1)];
    }
  }

  lemma {:induction false} StartsIncrease(text: string, upTo: nat, j: nat, k: nat)
    requires upTo <= |text| && j < k < |MentionsBefore(text, upTo)|
    ensures MentionsBefore(text, upTo)[j].start < MentionsBefore(text, upTo)[k].start
  {
    var before := MentionsBefore(text, upTo - 1);
    assert MentionsBefore(text, upTo)[j] == before[j];
    if k < |before| {
      StartsIncrease(text, upTo - 1, j, k);
      assert MentionsBefore(text, upTo)[k] == before[k];
    } else {
      FoundIsMention(text, upTo - 1, j);
      assert MentionsBefore(text, upTo)[k] == MentionAt(text, upTo - 1);
    }
  }

  lemma FoundInOrder(text: string, upTo: nat, j: nat, k: nat)
    requires upTo <= |text| && j < k < |MentionsBefore(text, upTo)|
    ensures MentionsBefore(text, upTo)[j].end <= MentionsBefore(text, upTo)[k].start
  {
    StartsIncrease(text, upTo, j, k);
    FoundIsMention(text, upTo, j);
    FoundIsMention(text, upTo, k);
    MentionEndsBefore(text, MentionsBefore(text, upTo)[j].start, MentionsBefore(text, upTo)[k].start);
  }

  lemma FoundEnds(text: string, m: Mention)
    requires m in MentionsIn(text)
    ensures m.start < m.end == m.start + 1 + |m.handle| <= |text|
  {
    var k :| 0 <= k < |MentionsIn(text)| && MentionsIn(text)[k] == m;
    FoundIsMention(text, |text|, k);
  }

  lemma FoundReads(text: string, m: Mention)
    requires m in MentionsIn(text)
    ensures IsMentionAt(text, m.start) && m == MentionAt(text, m.start) && text[m.start..m.end] == "@" + m.handle
  {
    var k :| 0 <= k < |MentionsIn(text)| && MentionsIn(text)[k] == m;
    FoundIsMention(text, |text|, k);
    var word := text[m.start..m.end];
    assert word[1..] == m.handle;
    assert word == [word[0]] + word[1..];
  }

  /** The scan finds exactly the mentions the text declares, in order and without overlap. */
  lemma ScanIsExact(text: string)
    ensures forall at: nat :: IsMentionAt(text, at) <==> exists m :: m in MentionsIn(text) && m.start == at
    ensures forall m | m in MentionsIn(text) ::
      m.start <= m.end <= |text| && ValidUsername(m.handle) && text[m.start..m.end] == "@" + m.handle
    ensures forall j, k | 0 <= j < k < |MentionsIn(text)| :: MentionsIn(text)[j].end <= MentionsIn(text)[k].start
  {
    forall m | m in MentionsIn(text)
      ensures IsMentionAt(text, m.start) && m == MentionAt(text, m.start) && text[m.start..m.end] == "@" + m.handle
    {
      FoundReads(text, m);
    }
    forall at: nat | IsMentionAt(text, at) ensures exists m :: m in MentionsIn(text) && m.start == at {
      var k := MentionIsFound(text, |text|, at);
      assert MentionsIn(text)[k] in MentionsIn(text);
    }
    forall j, k | 0 <= j < k < |MentionsIn(text)|
      ensures MentionsIn(text)[j].end <= MentionsIn(text)[k].start
    {
      FoundInOrder(text, |text|, j, k);
    }
  }

  lemma FoundIffMention(text: string, at: nat, handle: string)
    ensures at < |text| && IsMentionAt(text, at) && HandleAt(text, at) == handle <==>
      Mention(at, at + 1 + |handle|, handle) in MentionsIn(text)
  {
    if at < |text| && IsMentionAt(text, at) {
      var _ := MentionIsFound(text, |text|, at);
    }
    if Mention(at, at + 1 + |handle|, handle) in MentionsIn(text) {
      var k :| 0 <= k < |MentionsIn(text)| && MentionsIn(text)[k] == Mention(at, at + 1 + |handle|, handle);
      FoundIsMention(text, |text|, k);
    }
  }

  // ---------------------------------------------------------------- a mention, said without the scanner's helpers

  /** A letter or a digit, by its ASCII code. */
  predicate AsciiAlnum(c: char) {
    var code := c as int;
    48 <= code <= 57 || 65 <= code <= 90 || 97 <= code <= 122
  }

  /**
   * `handle` is mentioned at `at`: no word stands before the `@`, the handle is a username, and the word
   * behind the `@` goes on with separators only.
   */
  ghost predicate IsMentioned(text: string, at: nat, handle: string) {
    && at + 1 + |handle| <= |text| && text[at..at + 1 + |handle|] == "@" + handle
    && (at > 0 ==> !AsciiAlnum(text[at - 1]) && text[at - 1] !in "_-")
    && 3 <= |handle| <= 20 && AsciiAlnum(handle[0]) && AsciiAlnum(handle[|handle| - 1])
    && (forall i | 0 < i < |handle| ::
          AsciiAlnum(handle[i]) || (handle[i] in "_-" && AsciiAlnum(handle[i - 1])))
    && EndsInSeparators(text, at + 1 + |handle|)
  }

  /** Separators up to `end`, where the text or the word is over. */
  ghost predicate IsOnlySeparators(text: string, from: nat, end: nat) {
    && from <= end <= |text| && (forall i | from <= i < end :: text[i] in "_-")
    && (end < |text| ==> !AsciiAlnum(text[end]) && text[end] !in "_-")
  }

  ghost predicate EndsInSeparators(text: string, from: nat) {
    exists end: nat :: IsOnlySeparators(text, from, end)
  }

  lemma HandleCharIs(c: char)
    ensures IsAlnum(c) <==> AsciiAlnum(c)
    ensures IsSeparator(c) <==> c in "_-"
  {
    assert "_-"[0] == '_' && "_-"[1] == '-';
  }

  lemma UsernameIs(handle: string)
    ensures ValidUsername(handle) <==>
      && 3 <= |handle| <= 20 && AsciiAlnum(handle[0]) && AsciiAlnum(handle[|handle| - 1])
      && (forall i | 0 < i < |handle| ::
            AsciiAlnum(handle[i]) || (handle[i] in "_-" && AsciiAlnum(handle[i - 1])))
  {
    forall i | 0 <= i < |handle|
      ensures (IsAlnum(handle[i]) <==> AsciiAlnum(handle[i])) && (IsSeparator(handle[i]) <==> handle[i] in "_-")
    {
      HandleCharIs(handle[i]);
    }
    if 3 <= |handle| <= 20 && AsciiAlnum(handle[0]) && AsciiAlnum(handle[|handle| - 1])
      && (forall i | 0 < i < |handle| ::
            AsciiAlnum(handle[i]) || (handle[i] in "_-" && AsciiAlnum(handle[i - 1])))
    {
      forall i | 0 <= i < |handle| - 1 ensures !(IsSeparator(handle[i]) && IsSeparator(handle[i + 1])) {
        assert AsciiAlnum(handle[i + 1]) || (handle[i + 1] in "_-" && AsciiAlnum(handle[i + 1 - 1]));
      }
    }
  }

  /** The handle behind an `@`, when it ends in no separator. */
  lemma HandleIs(text: string, at: nat, handle: string)
    requires at < |text| && handle != [] && !IsSeparator(handle[|handle| - 1])
    requires forall c | c in handle :: IsHandleChar(c)
    ensures HandleAt(text, at) == handle <==>
      && at + 1 + |handle| <= |text| && text[at + 1..at + 1 + |handle|] == handle
      && EndsInSeparators(text, at + 1 + |handle|)
  {
    var stop := RunEnd(text, at + 1);
    if HandleAt(text, at) == handle {
      HandleLeavesSeparators(text, at, handle);
    } else if at + 1 + |handle| <= |text| && text[at + 1..at + 1 + |handle|] == handle
      && EndsInSeparators(text, at + 1 + |handle|)
    {
      var end: nat :| IsOnlySeparators(text, at + 1 + |handle|, end);
      SeparatorsLeaveHandle(text, at, handle, end);
    }
  }

  lemma HandleLeavesSeparators(text: string, at: nat, handle: string)
    requires at < |text| && HandleAt(text, at) == handle
    ensures at + 1 + |handle| <= |text| && text[at + 1..at + 1 + |handle|] == handle
    ensures EndsInSeparators(text, at + 1 + |handle|)
  {
    var stop, from := RunEnd(text, at + 1), at + 1 + |handle|;
    var run := text[at + 1..stop];
    RunEndIs(text, at + 1, stop);
    StripsTrailingSeparators(run);
    assert text[at + 1..from] == run[..|handle|];
    forall i | from <= i < stop ensures text[i] in "_-" {
      assert text[i] == run[i - (at + 1)];
      HandleCharIs(text[i]);
    }
    if stop < |text| { HandleCharIs(text[stop]); }
    assert IsOnlySeparators(text, from, stop);
  }

  lemma SeparatorsLeaveHandle(text: string, at: nat, handle: string, end: nat)
    requires at + 1 + |handle| <= |text| && text[at + 1..at + 1 + |handle|] == handle
    requires handle != [] && !IsSeparator(handle[|handle| - 1])
    requires forall c | c in handle :: IsHandleChar(c)
    requires IsOnlySeparators(text, at + 1 + |handle|, end)
    ensures HandleAt(text, at) == handle
  {
    var from := at + 1 + |handle|;
    forall i | at + 1 <= i < end ensures IsHandleChar(text[i]) && (from <= i ==> IsSeparator(text[i])) {
      HandleCharIs(text[i]);
      if i < from {
        assert text[i] == handle[i - (at + 1)];
        assert handle[i - (at + 1)] in handle;
      }
    }
    if end < |text| { HandleCharIs(text[end]); }
    RunEndIs(text, at + 1, end);
    assert text[at + 1..end][..|handle|] == handle;
    HandleIsLeft(text[at + 1..end], handle);
  }

  lemma HandleIsLeft(run: string, handle: string)
    requires handle != [] && handle <= run && !IsSeparator(handle[|handle| - 1])
    requires forall i | |handle| <= i < |run| :: IsSeparator(run[i])
    ensures StripSeparators(run) == handle
  {
    StripsTrailingSeparators(run);
    assert !IsSeparator(run[|handle| - 1]);
  }

  lemma MentionIs(text: string, at: nat, handle: string)
    ensures IsMentionAt(text, at) && HandleAt(text, at) == handle <==> IsMentioned(text, at, handle)
  {
    UsernameIs(handle);
    if at > 0 && at <= |text| { HandleCharIs(text[at - 1]); }
    if at < |text| && ValidUsername(handle) {
      HandleIs(text, at, handle);
      if at + 1 + |handle| <= |text| {
        assert text[at..at + 1 + |handle|] == [text[at]] + text[at + 1..at + 1 + |handle|];
      }
    }
  }

  /** The scan's list in those terms: a handle is in it at a place if and only if it is mentioned there. */
  lemma MentionsAre(text: string, at: nat, handle: string)
    ensures Mention(at, at + 1 + |handle|, handle) in MentionsIn(text) <==> IsMentioned(text, at, handle)
  {
    MentionIs(text, at, handle);
    FoundIffMention(text, at, handle);
  }

  // ---------------------------------------------------------------- the mention at the caret

  function FirstEndingAt(mentions: seq<Mention>, caret: nat): (found: Option<Mention>)
    ensures found.Some? ==> found.value in mentions && found.value.end == caret
    ensures found.None? ==> forall m | m in mentions :: m.end != caret
  {
    if mentions == [] then None
    else if mentions[0].end == caret then Some(mentions[0])
    else FirstEndingAt(mentions[1..], caret)
  }

  function ActiveMention(text: string, caret: nat): Option<Mention> {
    FirstEndingAt(MentionsIn(text), caret)
  }

  /** At most one mention ends at the caret, so "the" active mention is any that does. */
  lemma ActiveMentionIsUnique(text: string, caret: nat, m: Mention)
    ensures ActiveMention(text, caret) == Some(m) <==> m in MentionsIn(text) && m.end == caret
  {
    ScanIsExact(text);
    if m in MentionsIn(text) && m.end == caret {
      var active := ActiveMention(text, caret).value;
      var j :| 0 <= j < |MentionsIn(text)| && MentionsIn(text)[j] == m;
      var k :| 0 <= k < |MentionsIn(text)| && MentionsIn(text)[k] == active;
      assert m.start < m.end && active.start < active.end by {
        FoundIsMention(text, |text|, j);
        FoundIsMention(text, |text|, k);
      }
    }
  }

  // ---------------------------------------------------------------- splitting text for display

  datatype Part = Part(text: string, mention: bool)

  /** Handles are ASCII, so lower-casing is too. */
  function Lower(s: string): string {
    seq(|s|, i requires 0 <= i < |s| => if 'A' <= s[i] <= 'Z' then (s[i] - 'A') + 'a' else s[i])
  }

  function Confirmed(mentions: seq<Mention>, usernames: set<string>): seq<Mention> {
    if mentions == [] then []
    else
      var last := mentions[|mentions| - 1];
      Confirmed(mentions[..|mentions| - 1], usernames) + (if Lower(last.handle) in usernames then [last] else [])
  }

  /** `name` is the handle with its capitals made small, by ASCII code, and nothing else changed. */
  ghost predicate IsLowerCase(name: string, handle: string) {
    && |name| == |handle|
    && forall i | 0 <= i < |handle| ::
         name[i] as int == handle[i] as int + if 65 <= handle[i] as int <= 90 then 32 else 0
  }

  lemma LowerIs(handle: string, name: string)
    ensures IsLowerCase(name, handle) <==> name == Lower(handle)
  {
    var lower := Lower(handle);
    forall i | 0 <= i < |handle|
      ensures lower[i] as int == handle[i] as int + if 65 <= handle[i] as int <= 90 then 32 else 0 {
    }
    if IsLowerCase(name, handle) {
      forall i | 0 <= i < |handle| ensures name[i] == lower[i] {
        assert name[i] as int == lower[i] as int;
      }
    }
  }

  /** The range from `start` to `end` is a mention whose handle, made small, is a known name. */
  ghost predicate IsKnownMention(text: string, usernames: set<string>, start: nat, end: nat) {
    exists handle, name ::
      IsMentioned(text, start, handle) && end == start + 1 + |handle| && name in usernames && IsLowerCase(name, handle)
  }

  lemma {:induction false} ConfirmedAre(mentions: seq<Mention>, usernames: set<string>, m: Mention)
    ensures m in Confirmed(mentions, usernames) <==> m in mentions && Lower(m.handle) in usernames
  {
    if mentions != [] {
      var before := mentions[..|mentions| - 1];
      ConfirmedAre(before, usernames, m);
      assert mentions == before + [mentions[|mentions| - 1]];
    }
  }

  lemma RangeOf(mentions: seq<Mention>, m: Mention)
    requires m in mentions
    ensures (m.start, m.end) in RangesOf(mentions)
  {
    var k :| 0 <= k < |mentions| && mentions[k] == m;
    assert RangesOf(mentions)[k] == (m.start, m.end);
  }

  lemma ConfirmedIsKnown(text: string, usernames: set<string>, m: Mention)
    requires m in Confirmed(MentionsIn(text), usernames)
    ensures IsKnownMention(text, usernames, m.start, m.end)
  {
    ConfirmedAre(MentionsIn(text), usernames, m);
    FoundEnds(text, m);
    MentionsAre(text, m.start, m.handle);
    LowerIs(m.handle, Lower(m.handle));
  }

  lemma KnownIsConfirmed(text: string, usernames: set<string>, start: nat, handle: string, name: string)
    requires IsMentioned(text, start, handle) && name in usernames && IsLowerCase(name, handle)
    ensures (start, start + 1 + |handle|) in RangesOf(Confirmed(MentionsIn(text), usernames))
  {
    var m := Mention(start, start + 1 + |handle|, handle);
    MentionsAre(text, start, handle);
    LowerIs(handle, name);
    ConfirmedAre(MentionsIn(text), usernames, m);
    RangeOf(Confirmed(MentionsIn(text), usernames), m);
  }

  lemma ConfirmedRangesAre(text: string, usernames: set<string>, start: nat, end: nat)
    ensures (start, end) in RangesOf(Confirmed(MentionsIn(text), usernames)) <==>
      IsKnownMention(text, usernames, start, end)
  {
    var confirmed := Confirmed(MentionsIn(text), usernames);
    if (start, end) in RangesOf(confirmed) {
      var k :| 0 <= k < |confirmed| && RangesOf(confirmed)[k] == (start, end);
      ConfirmedIsKnown(text, usernames, confirmed[k]);
    } else if IsKnownMention(text, usernames, start, end) {
      var handle, name :| IsMentioned(text, start, handle) && end == start + 1 + |handle| && name in usernames
        && IsLowerCase(name, handle);
      KnownIsConfirmed(text, usernames, start, handle, name);
    }
  }

  function Joined(parts: seq<Part>): string {
    if parts == [] then [] else Joined(parts[..|parts| - 1]) + parts[|parts| - 1].text
  }

  /** The character ranges the mention parts cover. */
  function Marked(parts: seq<Part>): seq<(nat, nat)> {
    if parts == [] then []
    else
      var before, last := parts[..|parts| - 1], parts[|parts| - 1];
      Marked(before) + (if last.mention then [(|Joined(before)|, |Joined(before)| + |last.text|)] else [])
  }

  function RangesOf(mentions: seq<Mention>): seq<(nat, nat)> {
    seq(|mentions|, k requires 0 <= k < |mentions| => (mentions[k].start, mentions[k].end))
  }

  predicate NoEmptyNorAdjacentText(parts: seq<Part>) {
    && (forall k | 0 <= k < |parts| :: parts[k].text != [])
    && (forall k | 0 <= k < |parts| - 1 :: parts[k].mention || parts[k + 1].mention)
  }

  predicate EndsWithMention(parts: seq<Part>) {
    parts == [] || parts[|parts| - 1].mention
  }

  /** The plain text up to a mention, when there is any. */
  lemma PushGap(text: string, parts: seq<Part>, cursor: nat, start: nat)
    requires cursor <= start <= |text| && Joined(parts) == text[..cursor]
    requires NoEmptyNorAdjacentText(parts) && EndsWithMention(parts)
    ensures
      var more := parts + GapBefore(text, cursor, start);
      Joined(more) == text[..start] && Marked(more) == Marked(parts) && NoEmptyNorAdjacentText(more)
  {
    if start > cursor {
      assert text[..start] == text[..cursor] + text[cursor..start];
    } else {
      assert parts + [] == parts;
    }
  }

  /** And then the mention itself. */
  lemma PushWord(text: string, parts: seq<Part>, m: Mention)
    requires m.start < m.end <= |text| && Joined(parts) == text[..m.start] && NoEmptyNorAdjacentText(parts)
    ensures
      var more := parts + [Part(text[m.start..m.end], true)];
      Joined(more) == text[..m.end] && Marked(more) == Marked(parts) + [(m.start, m.end)]
        && NoEmptyNorAdjacentText(more)
  {
    var word := Part(text[m.start..m.end], true);
    assert text[..m.end] == text[..m.start] + text[m.start..m.end];
  }

  function GapBefore(text: string, cursor: nat, start: nat): seq<Part>
    requires cursor <= |text| && start <= |text|
  {
    if start > cursor then [Part(text[cursor..start], false)] else []
  }

  /** Pushing the plain text up to a mention, when there is any, and then the mention. */
  lemma PushMention(text: string, parts: seq<Part>, cursor: nat, m: Mention)
    requires cursor <= m.start < m.end <= |text| && Joined(parts) == text[..cursor]
    requires NoEmptyNorAdjacentText(parts) && EndsWithMention(parts)
    ensures
      var more := parts + GapBefore(text, cursor, m.start) + [Part(text[m.start..m.end], true)];
      && Joined(more) == text[..m.end]
      && Marked(more) == Marked(parts) + [(m.start, m.end)]
      && NoEmptyNorAdjacentText(more)
  {
    PushGap(text, parts, cursor, m.start);
    PushWord(text, parts + GapBefore(text, cursor, m.start), m);
  }

  /** The parts made of the first `k` mentions, up to `cursor`. */
  ghost predicate SplitUpTo(text: string, usernames: set<string>, k: nat, parts: seq<Part>, cursor: nat) {
    && k <= |MentionsIn(text)| && cursor <= |text|
    && Joined(parts) == text[..cursor]
    && Marked(parts) == RangesOf(Confirmed(MentionsIn(text)[..k], usernames))
    && NoEmptyNorAdjacentText(parts) && EndsWithMention(parts)
    && (k < |MentionsIn(text)| ==> cursor <= MentionsIn(text)[k].start)
  }

  lemma SplitsNext(text: string, usernames: set<string>, k: nat, parts: seq<Part>, cursor: nat)
    requires SplitUpTo(text, usernames, k, parts, cursor) && k < |MentionsIn(text)|
    ensures
      var m := MentionsIn(text)[k];
      && cursor <= m.start <= m.end <= |text|
      && if Lower(m.handle) in usernames then
           SplitUpTo(text, usernames, k + 1,
             parts + GapBefore(text, cursor, m.start) + [Part(text[m.start..m.end], true)], m.end)
         else SplitUpTo(text, usernames, k + 1, parts, cursor)
  {
    var mentions := MentionsIn(text);
    var m := mentions[k];
    FoundEnds(text, m);
    if k + 1 < |mentions| { FoundInOrder(text, |text|, k, k + 1); }
    assert mentions[..k + 1] == mentions[..k] + [m];
    if Lower(m.handle) in usernames {
      PushMention(text, parts, cursor, m);
      var confirmed := Confirmed(mentions[..k], usernames);
      assert RangesOf(confirmed + [m]) == RangesOf(confirmed) + [(m.start, m.end)];
    } else {
      assert Confirmed(mentions[..k + 1], usernames) == Confirmed(mentions[..k], usernames);
    }
  }

  /** Loses no character, and marks a range if and only if it is a mention of a known user. */
  method SplitMentions(text: string, usernames: set<string>) returns (parts: seq<Part>)
    ensures Joined(parts) == text
    ensures Marked(parts) == RangesOf(Confirmed(MentionsIn(text), usernames))
    ensures forall start: nat, end: nat ::
      (start, end) in Marked(parts) <==> IsKnownMention(text, usernames, start, end)
    ensures NoEmptyNorAdjacentText(parts)
  {
    forall start: nat, end: nat
      ensures (start, end) in RangesOf(Confirmed(MentionsIn(text), usernames)) <==>
        IsKnownMention(text, usernames, start, end)
    {
      ConfirmedRangesAre(text, usernames, start, end);
    }
    parts := [];
    var cursor: nat := 0;
    var mentions := FindMentions(text);
    for k := 0 to |mentions|
      invariant SplitUpTo(text, usernames, k, parts, cursor)
    {
      var mention := mentions[k];
      SplitsNext(text, usernames, k, parts, cursor);
      if Lower(mention.handle) in usernames {
        ghost var was := parts;
        if mention.start > cursor {
          parts := parts + [Part(text[cursor..mention.start], false)];
        } else {
          assert parts + [] == parts;
        }
        assert parts == was + GapBefore(text, cursor, mention.start);
        parts := parts + [Part(text[mention.start..mention.end], true)];
        cursor := mention.end;
      }
    }
    SplitEnds(text, usernames, parts, cursor);
    if cursor < |text| {
      parts := parts + [Part(text[cursor..], false)];
    }
  }

  lemma PushRest(text: string, parts: seq<Part>, cursor: nat)
    requires cursor < |text| && Joined(parts) == text[..cursor]
    requires NoEmptyNorAdjacentText(parts) && EndsWithMention(parts)
    ensures
      var all := parts + [Part(text[cursor..], false)];
      Joined(all) == text && Marked(all) == Marked(parts) && NoEmptyNorAdjacentText(all)
  {
    assert text == text[..cursor] + text[cursor..];
  }

  /** The plain text after the last mention, when there is any. */
  lemma SplitEnds(text: string, usernames: set<string>, parts: seq<Part>, cursor: nat)
    requires SplitUpTo(text, usernames, |MentionsIn(text)|, parts, cursor)
    ensures
      var all := if cursor < |text| then parts + [Part(text[cursor..], false)] else parts;
      && Joined(all) == text && Marked(all) == RangesOf(Confirmed(MentionsIn(text), usernames))
      && NoEmptyNorAdjacentText(all)
  {
    assert MentionsIn(text)[..|MentionsIn(text)|] == MentionsIn(text);
    if cursor < |text| {
      PushRest(text, parts, cursor);
    }
  }

  // ---------------------------------------------------------------- picking while typing

  /** `typed` ends in an `@` at `at` followed by at most 20 handle characters. */
  predicate IsTypingAt(typed: string, at: nat) {
    && at < |typed| && OpensMention(typed, at)
    && |typed| - (at + 1) <= 20
    && forall i | at < i < |typed| :: IsHandleChar(typed[i])
  }

  function FirstTyping(typed: string, from: nat): (at: Option<nat>)
    ensures at.Some? ==> from <= at.value && IsTypingAt(typed, at.value)
    ensures at.None? ==> forall i: nat :: from <= i ==> !IsTypingAt(typed, i)
    decreases |typed| - from
  {
    if from >= |typed| then None
    else if IsTypingAt(typed, from) then Some(from)
    else FirstTyping(typed, from + 1)
  }

  /** `text.slice(0, caret)`: a caret past the end takes the whole text. */
  function Upto(text: string, caret: nat): string {
    if caret <= |text| then text[..caret] else text
  }

  function After(text: string, caret: nat): string {
    if caret <= |text| then text[caret..] else []
  }

  /** Where the `@word` being typed before the caret starts. */
  function TypingStart(text: string, caret: nat): Option<nat> {
    FirstTyping(Upto(text, caret), 0)
  }

  /** The word being typed, in plain terms: an `@` no word stands before, and at most 20 characters of one behind it. */
  ghost predicate IsTyped(typed: string, at: nat) {
    && at < |typed| <= at + 21 && typed[at] == '@'
    && (at > 0 ==> !AsciiAlnum(typed[at - 1]) && typed[at - 1] !in "_-")
    && forall i | at < i < |typed| :: AsciiAlnum(typed[i]) || typed[i] in "_-"
  }

  lemma TypingIsUnique(text: string, caret: nat, at: nat)
    ensures TypingStart(text, caret) == Some(at) <==>
      IsTyped(if caret <= |text| then text[..caret] else text, at)
  {
    var typed := Upto(text, caret);
    forall i | 0 <= i < |typed|
      ensures (IsAlnum(typed[i]) <==> AsciiAlnum(typed[i])) && (IsSeparator(typed[i]) <==> typed[i] in "_-")
    {
      HandleCharIs(typed[i]);
    }
    assert IsTypingAt(typed, at) <==> IsTyped(typed, at);
  }

  datatype Picked = Picked(text: string, caret: nat)

  /** The draft: what stands before the typed `@`, the word typed so far, and the rest. */
  function Typed(before: string, query: string, rest: string): string {
    before + ("@" + query) + rest
  }

  function Inserted(before: string, username: string, rest: string): string {
    before + ("@" + username + " ") + rest
  }

  function Pick(draft: string, caret: nat, username: string): Option<Picked> {
    match TypingStart(draft, caret)
    case None => None
    case Some(start) =>
      Some(Picked(Inserted(Upto(draft, start), username, After(draft, caret)), start + |"@" + username + " "|))
  }

  /** The handle behind an `@` does not depend on what stands before it. */
  lemma HandleMoves(a: string, at: nat, b: string, to: nat)
    requires at < |a| && to < |b| && a[at..] == b[to..]
    ensures a[at] == b[to] && HandleAt(a, at) == HandleAt(b, to)
  {
    var end := RunEnd(a, at + 1);
    forall i | at <= i < |a| ensures a[i] == b[to + (i - at)] {
      assert a[i] == a[at..][i - at] == b[to..][i - at];
    }
    RunEndIs(a, at + 1, end);
    RunEndIs(b, to + 1, to + (end - at));
    assert a[at + 1..end] == b[to + 1..to + (end - at)];
  }

  /** Nor does a mention depend on what follows the next `@`. */
  lemma MentionsBeforeAgree(a: string, b: string, stop: nat, at: nat)
    requires at < stop < |a| && stop < |b| && a[..stop + 1] == b[..stop + 1] && a[stop] == '@'
    ensures IsMentionAt(a, at) == IsMentionAt(b, at) && HandleAt(a, at) == HandleAt(b, at)
  {
    forall i | 0 <= i <= stop ensures a[i] == b[i] {
      assert a[i] == a[..stop + 1][i] == b[..stop + 1][i];
    }
    var end := RunEnd(a, at + 1);
    RunEndIs(a, at + 1, end);
    assert end <= stop;
    RunEndIs(b, at + 1, end);
    assert a[at + 1..end] == b[at + 1..end];
  }

  lemma InsertedHandle(before: string, username: string, rest: string)
    requires ValidUsername(username)
    ensures
      var text := Inserted(before, username, rest);
      text[|before|] == '@' && HandleAt(text, |before|) == username
  {
    var text := Inserted(before, username, rest);
    var from := |before| + 1;
    assert text[from..from + |username|] == username;
    forall i | from <= i < from + |username| ensures IsHandleChar(text[i]) {
      assert text[i] == username[i - from];
    }
    RunEndIs(text, from, from + |username|);
  }

  lemma InsertedOpens(before: string, query: string, username: string, rest: string)
    requires ValidUsername(username) && OpensMention(Typed(before, query, rest), |before|)
    ensures IsMentionAt(Inserted(before, username, rest), |before|)
  {
    InsertedHandle(before, username, rest);
    var n := |before|;
    assert n > 0 ==> Inserted(before, username, rest)[n - 1] == before[n - 1] == Typed(before, query, rest)[n - 1];
  }

  /** Right behind the caret, the space now before it lets an `@handle` open a mention it could not open before. */
  predicate HandleFollows(text: string, at: nat) {
    at < |text| && text[at] == '@' && ValidUsername(HandleAt(text, at))
  }

  lemma MentionsAfterMove(before: string, query: string, username: string, rest: string, k: nat)
    requires k < |rest|
    ensures
      var typed, text := Typed(before, query, rest), Inserted(before, username, rest);
      var from, to := |before| + 1 + |query| + k, |before| + |username| + 2 + k;
      && HandleAt(typed, from) == HandleAt(text, to)
      && (IsMentionAt(text, to) <==> if k == 0 then HandleFollows(typed, from) else IsMentionAt(typed, from))
  {
    var typed, text := Typed(before, query, rest), Inserted(before, username, rest);
    var from, to := |before| + 1 + |query| + k, |before| + |username| + 2 + k;
    assert typed[from..] == rest[k..] == text[to..];
    HandleMoves(typed, from, text, to);
    if k == 0 {
      assert text[to - 1] == ("@" + username + " ")[|username| + 1] == ' ';
    } else {
      assert typed[from - 1] == rest[k - 1] == text[to - 1];
    }
  }

  /** Where the typed word ends: a caret past the end counts as the end. */
  function TypedEnd(draft: string, caret: nat): (end: nat)
    ensures end <= |draft|
  {
    if caret <= |draft| then caret else |draft|
  }

  lemma TypedWord(draft: string, start: nat, end: nat)
    requires start < end <= |draft| && draft[start] == '@'
    ensures draft == Typed(draft[..start], draft[start + 1..end], draft[end..])
  {
    assert draft[start..end] == "@" + draft[start + 1..end];
    assert draft == draft[..start] + draft[start..end] + draft[end..];
  }

  lemma MentionsBeforeStay(before: string, query: string, username: string, rest: string, at: nat)
    requires at < |before|
    ensures
      var typed, text := Typed(before, query, rest), Inserted(before, username, rest);
      IsMentionAt(text, at) == IsMentionAt(typed, at) && HandleAt(text, at) == HandleAt(typed, at)
  {
    var typed, text := Typed(before, query, rest), Inserted(before, username, rest);
    assert typed[..|before| + 1] == before + "@" == text[..|before| + 1];
    MentionsBeforeAgree(typed, text, |before|, at);
  }

  /**
   * Whether a mention opens at `at` once the text from `start` to `end` became a handle that ends
   * before `caret`: those before it stay, the handle is one, and those after the caret moved along.
   */
  predicate OpensAfterPick(draft: string, start: nat, end: nat, caret: nat, at: nat) {
    if at < start then IsMentionAt(draft, at)
    else if at == start then true
    else if at < caret then false
    else if at == caret then HandleFollows(draft, end)
    else IsMentionAt(draft, at - caret + end)
  }

  lemma InsertedMentions(before: string, query: string, username: string, rest: string, at: nat)
    requires ValidUsername(username) && OpensMention(Typed(before, query, rest), |before|)
    ensures IsMentionAt(Inserted(before, username, rest), at) ==
      OpensAfterPick(Typed(before, query, rest), |before|, |before| + 1 + |query|, |before| + |username| + 2, at)
  {
    if at < |before| {
      MentionsBeforeStay(before, query, username, rest, at);
    } else if at == |before| {
      InsertedOpens(before, query, username, rest);
    } else if at < |before| + |username| + 2 {
    } else if at < |Inserted(before, username, rest)| {
      MentionsAfterMove(before, query, username, rest, at - (|before| + |username| + 2));
    }
  }

  /** The word between `start` and `end` gave way to the handle and a space. */
  predicate IsReplaced(draft: string, start: nat, end: nat, username: string, picked: Picked) {
    && start < end <= |draft| && OpensMention(draft, start)
    && picked == Picked(Inserted(draft[..start], username, draft[end..]), start + |username| + 2)
  }

  lemma ReplacedMentions(draft: string, start: nat, end: nat, username: string, picked: Picked, at: nat)
    requires ValidUsername(username) && IsReplaced(draft, start, end, username, picked)
    ensures IsMentionAt(picked.text, at) == OpensAfterPick(draft, start, end, picked.caret, at)
  {
    TypedWord(draft, start, end);
    TypedMentions(draft, draft[..start], draft[start + 1..end], username, draft[end..], at);
  }

  lemma TypedMentions(draft: string, before: string, query: string, username: string, rest: string, at: nat)
    requires ValidUsername(username) && draft == Typed(before, query, rest) && OpensMention(draft, |before|)
    ensures IsMentionAt(Inserted(before, username, rest), at) ==
      OpensAfterPick(draft, |before|, |before| + 1 + |query|, |before| + |username| + 2, at)
  {
    InsertedMentions(before, query, username, rest, at);
  }

  /** Picking replaces the typed word by a mention and touches no other: this is exactly what the new text mentions. */
  lemma PickedMentions(draft: string, caret: nat, username: string, at: nat)
    requires ValidUsername(username) && Pick(draft, caret, username).Some?
    ensures
      var picked := Pick(draft, caret, username).value;
      IsMentionAt(picked.text, at) ==
        OpensAfterPick(draft, TypingStart(draft, caret).value, TypedEnd(draft, caret), picked.caret, at)
  {
    ReplacedMentions(draft, TypingStart(draft, caret).value, TypedEnd(draft, caret), username,
      Pick(draft, caret, username).value, at);
  }

  lemma InsertedIsFound(before: string, query: string, username: string, rest: string)
    requires ValidUsername(username) && OpensMention(Typed(before, query, rest), |before|)
    ensures Mention(|before|, |before| + 1 + |username|, username) in MentionsIn(Inserted(before, username, rest))
  {
    InsertedOpens(before, query, username, rest);
    InsertedHandle(before, username, rest);
    FoundIffMention(Inserted(before, username, rest), |before|, username);
  }

  lemma BeforeIsFound(before: string, query: string, username: string, rest: string, at: nat, handle: string)
    requires at < |before|
    requires Mention(at, at + 1 + |handle|, handle) in MentionsIn(Typed(before, query, rest))
    ensures Mention(at, at + 1 + |handle|, handle) in MentionsIn(Inserted(before, username, rest))
  {
    FoundIffMention(Typed(before, query, rest), at, handle);
    MentionsBeforeStay(before, query, username, rest, at);
    FoundIffMention(Inserted(before, username, rest), at, handle);
  }

  lemma AfterIsFound(before: string, query: string, username: string, rest: string, k: nat, handle: string)
    requires
      var from := |before| + 1 + |query| + k;
      Mention(from, from + 1 + |handle|, handle) in MentionsIn(Typed(before, query, rest))
    ensures
      var to := |before| + |username| + 2 + k;
      Mention(to, to + 1 + |handle|, handle) in MentionsIn(Inserted(before, username, rest))
  {
    FoundIffMention(Typed(before, query, rest), |before| + 1 + |query| + k, handle);
    MentionsAfterMove(before, query, username, rest, k);
    FoundIffMention(Inserted(before, username, rest), |before| + |username| + 2 + k, handle);
  }

  lemma ReplacedFinds(draft: string, start: nat, end: nat, username: string, picked: Picked, m: Mention)
    requires ValidUsername(username) && IsReplaced(draft, start, end, username, picked) && m in MentionsIn(draft)
    ensures m.start < start ==> m in MentionsIn(picked.text)
    ensures m.start >= end ==> Shifted(m, start + |username| + 2 - end) in MentionsIn(picked.text)
  {
    var before, query, rest := draft[..start], draft[start + 1..end], draft[end..];
    FoundEnds(draft, m);
    TypedWord(draft, start, end);
    if m.start < start {
      BeforeIsFound(before, query, username, rest, m.start, m.handle);
    } else if m.start >= end {
      AfterIsFound(before, query, username, rest, m.start - end, m.handle);
    }
  }

  lemma ReplacedFindsHandle(draft: string, start: nat, end: nat, username: string, picked: Picked)
    requires ValidUsername(username) && IsReplaced(draft, start, end, username, picked)
    ensures Mention(start, start + 1 + |username|, username) in MentionsIn(picked.text)
  {
    TypedWord(draft, start, end);
    InsertedIsFound(draft[..start], draft[start + 1..end], username, draft[end..]);
  }

  function Shifted(m: Mention, shift: int): Mention
    requires m.start + shift >= 0
  {
    Mention(m.start + shift, m.start + shift + 1 + |m.handle|, m.handle)
  }

  /**
   * So the picked handle is found where it was typed, and a mention that starts before it, or from
   * the caret on, is still found, with its own handle.
   */
  lemma PickFindsHandle(draft: string, caret: nat, username: string)
    requires ValidUsername(username) && Pick(draft, caret, username).Some?
    ensures
      var start := TypingStart(draft, caret).value;
      Mention(start, start + 1 + |username|, username) in MentionsIn(Pick(draft, caret, username).value.text)
  {
    ReplacedFindsHandle(draft, TypingStart(draft, caret).value, TypedEnd(draft, caret), username,
      Pick(draft, caret, username).value);
  }

  lemma PickKeepsOthers(draft: string, caret: nat, username: string, m: Mention)
    requires ValidUsername(username) && Pick(draft, caret, username).Some?
    requires m in MentionsIn(draft)
    ensures
      var picked := Pick(draft, caret, username).value;
      && (m.start < TypingStart(draft, caret).value ==> m in MentionsIn(picked.text))
      && (m.start >= caret ==> Shifted(m, picked.caret - caret) in MentionsIn(picked.text))
  {
    FoundEnds(draft, m);
    ReplacedFinds(draft, TypingStart(draft, caret).value, TypedEnd(draft, caret), username,
      Pick(draft, caret, username).value, m);
  }
  /** Something is picked exactly when a word is being typed. */
  lemma PickNeedsAWord(draft: string, caret: nat, username: string)
    ensures
      var typed := if caret <= |draft| then draft[..caret] else draft;
      Pick(draft, caret, username).Some? <==> exists at: nat :: IsTyped(typed, at)
  {
    var typed := Upto(draft, caret);
    if Pick(draft, caret, username).Some? {
      TypingIsUnique(draft, caret, TypingStart(draft, caret).value);
    }
    if exists at: nat :: IsTyped(typed, at) {
      var at: nat :| IsTyped(typed, at);
      TypingIsUnique(draft, caret, at);
    }
  }

  /** The typed word gives way to the handle and a space, with the caret behind them; the rest of the draft stays. */
  lemma PickReplacesTheWord(draft: string, caret: nat, username: string)
    requires Pick(draft, caret, username).Some?
    ensures
      var start, picked := TypingStart(draft, caret).value, Pick(draft, caret, username).value;
      && start < |draft| && picked.caret == start + |username| + 2 <= |picked.text|
      && picked.text[..start] == draft[..start]
      && picked.text[start..picked.caret] == "@" + username + " "
      && picked.text[picked.caret..] == if caret <= |draft| then draft[caret..] else []
  {
    var start, picked := TypingStart(draft, caret).value, Pick(draft, caret, username).value;
    assert |"@" + username + " "| == |username| + 2;
  }
}
