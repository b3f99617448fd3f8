/**
 * The calendar writer (server/internal/ical/ical.go): content lines of a VCALENDAR, folded one by one into a
 * builder, against a reader that unfolds the output and splits it into lines (section 3.1 of RFC 5545).
 */
module IcalWriter {

  import opened Bytes
  import opened Ical

  /** Times come as the texts time.Format makes of them. */
  datatype Event = Event(uid: Text, summary: Text, description: Text, location: Text,
                         categories: seq<Text>, start: Text, end: Text, allDay: bool)

  const CRLF: Text := [CR, LF]

  function Preamble(): seq<Text> {
    [Ascii("BEGIN:VCALENDAR"), Ascii("VERSION:2.0"), Ascii("PRODID:-//Open ClubManager//Events//EN"),
     Ascii("CALSCALE:GREGORIAN"), Ascii("METHOD:PUBLISH")]
  }

  function NameLines(name: Text): seq<Text> {
    TextLines("X-WR-CALNAME:", name)
  }

  function TimeLines(e: Event): seq<Text> {
    if e.allDay then [Ascii("DTSTART;VALUE=DATE:") + e.start, Ascii("DTEND;VALUE=DATE:") + e.end]
    else [Ascii("DTSTART:") + e.start, Ascii("DTEND:") + e.end]
  }

  function TextLines(prefix: string, text: Text): seq<Text> {
    if text != [] then [Ascii(prefix) + Escape(text)] else []
  }

  function CategoryLines(categories: seq<Text>): seq<Text> {
    if categories != [] then [Ascii("CATEGORIES:") + Joined(Escaped(categories))] else []
  }

  function OptionalLines(e: Event): seq<Text> {
    TextLines("DESCRIPTION:", e.description) + TextLines("LOCATION:", e.location) + CategoryLines(e.categories)
  }

  function OpeningLines(e: Event, stamp: Text): seq<Text> {
    [Ascii("BEGIN:VEVENT"), Ascii("UID:") + Escape(e.uid), Ascii("DTSTAMP:") + stamp]
  }

  function EventLines(e: Event, stamp: Text): seq<Text> {
    OpeningLines(e, stamp) + TimeLines(e) + [Ascii("SUMMARY:") + Escape(e.summary)] + OptionalLines(e)
    + [Ascii("END:VEVENT")]
  }

  function AllEventLines(events: seq<Event>, stamp: Text): seq<Text> {
    if events == [] then []
    else AllEventLines(events[..|events| - 1], stamp) + EventLines(events[|events| - 1], stamp)
  }

  lemma EventsGrow(lines: seq<Text>, events: seq<Event>, i: nat, stamp: Text)
    requires i < |events|
    ensures lines + AllEventLines(events[..i + 1], stamp)
         == lines + AllEventLines(events[..i], stamp) + EventLines(events[i], stamp)
  {
    assert events[..i + 1][..i] == events[..i];
  }

  /** The logical content lines of a calendar. */
  function CalendarLines(name: Text, events: seq<Event>, stamp: Text): seq<Text> {
    Preamble() + NameLines(name) + AllEventLines(events, stamp) + [Ascii("END:VCALENDAR")]
  }

  predicate AllFold(lines: seq<Text>) {
    forall i: nat :: i < |lines| ==> Folds(lines[i], 75)
  }

  function Output(lines: seq<Text>): Text
    requires AllFold(lines)
  {
    if lines == [] then [] else Folded(lines[0]) + CRLF + Output(lines[1..])
  }

  lemma {:induction false} OutputGrows(lines: seq<Text>, line: Text)
    requires AllFold(lines + [line])
    ensures AllFold(lines) && Folds(line, 75)
    ensures Output(lines + [line]) == Output(lines) + (Folded(line) + CRLF)
  {
    var all := lines + [line];
    assert all[|lines|] == line;
    assert forall i: nat :: i < |lines| ==> lines[i] == all[i];
    if lines == [] {
      assert all[1..] == [];
    } else {
      assert all[1..] == lines[1..] + [line];
      OutputGrows(lines[1..], line);
      var first := Folded(lines[0]) + CRLF;
      assert Output(all) == first + Output(all[1..]);
      assert Output(lines) == first + Output(lines[1..]);
    }
  }

  lemma AppendedGroups(before: seq<Text>, a: seq<Text>, b: seq<Text>, c: seq<Text>, d: seq<Text>, e: seq<Text>)
    ensures before + a + b + c + d + e == before + (a + b + c + d + e)
  {
  }

  /** The builder of the source and the lines handed to it so far. Once a line never ends, nothing more is written. */
  class Builder {
    var text: Text
    var ended: bool
    ghost var lines: seq<Text>

    ghost predicate Valid()
      reads this
    {
      && (ended <==> !AllFold(lines))
      && (!ended ==> text == Output(lines))
    }

    constructor ()
      ensures Valid() && lines == []
    {
      text, ended, lines := [], false, [];
    }

    /** Go: the closure line. */
    method Line(line: Text)
      requires Valid()
      modifies this
      ensures Valid() && lines == old(lines) + [line]
    {
      var outcome := Fold(line);
      ghost var before := lines;
      lines := lines + [line];
      assert lines[|before|] == line && forall i: nat :: i < |before| ==> lines[i] == before[i];
      match outcome
      case NeverEnds =>
        ended := true;
      case Wrote(folded) =>
        if !ended {
          OutputGrows(before, line);
          text := text + (folded + CRLF);
        }
    }

    method Begin(name: Text)
      requires Valid() && lines == []
      modifies this
      ensures Valid() && lines == Preamble() + NameLines(name)
    {
      Line(Ascii("BEGIN:VCALENDAR"));
      Line(Ascii("VERSION:2.0"));
      Line(Ascii("PRODID:-//Open ClubManager//Events//EN"));
      Line(Ascii("CALSCALE:GREGORIAN"));
      Line(Ascii("METHOD:PUBLISH"));
      assert lines == Preamble();
      TextIfAny("X-WR-CALNAME:", name);
    }

    method Events(events: seq<Event>, stamp: Text)
      requires Valid()
      modifies this
      ensures Valid() && lines == old(lines) + AllEventLines(events, stamp)
    {
      for i := 0 to |events|
        invariant Valid() && lines == old(lines) + AllEventLines(events[..i], stamp)
      {
        Event(events[i], stamp);
        EventsGrow(old(lines), events, i, stamp);
      }
      assert events[..|events|] == events;
    }

    method Event(e: Event, stamp: Text)
      requires Valid()
      modifies this
      ensures Valid() && lines == old(lines) + EventLines(e, stamp)
    {
      ghost var before := lines;
      Opening(e, stamp);
      Times(e);
      Line(Ascii("SUMMARY:") + Escape(e.summary));
      Optional(e);
      Line(Ascii("END:VEVENT"));
      AppendedGroups(before, OpeningLines(e, stamp), TimeLines(e), [Ascii("SUMMARY:") + Escape(e.summary)],
                     OptionalLines(e), [Ascii("END:VEVENT")]);
    }

    method Opening(e: Event, stamp: Text)
      requires Valid()
      modifies this
      ensures Valid() && lines == old(lines) + OpeningLines(e, stamp)
    {
      Line(Ascii("BEGIN:VEVENT"));
      Line(Ascii("UID:") + Escape(e.uid));
      Line(Ascii("DTSTAMP:") + stamp);
    }

    method Times(e: Event)
      requires Valid()
      modifies this
      ensures Valid() && lines == old(lines) + TimeLines(e)
    {
      if e.allDay {
        Line(Ascii("DTSTART;VALUE=DATE:") + e.start);
        Line(Ascii("DTEND;VALUE=DATE:") + e.end);
      } else {
        Line(Ascii("DTSTART:") + e.start);
        Line(Ascii("DTEND:") + e.end);
      }
    }

    method Optional(e: Event)
      requires Valid()
      modifies this
      ensures Valid() && lines == old(lines) + OptionalLines(e)
    {
      ghost var before := lines;
      TextIfAny("DESCRIPTION:", e.description);
      TextIfAny("LOCATION:", e.location);
      CategoriesIfAny(e.categories);
      AppendedGroups(before, TextLines("DESCRIPTION:", e.description), TextLines("LOCATION:", e.location),
                     CategoryLines(e.categories), [], []);
    }

    method TextIfAny(prefix: string, text: Text)
      requires Valid()
      modifies this
      ensures Valid() && lines == old(lines) + TextLines(prefix, text)
    {
      if text != [] {
        Line(Ascii(prefix) + Escape(text));
      }
    }

    method CategoriesIfAny(categories: seq<Text>)
      requires Valid()
      modifies this
      ensures Valid() && lines == old(lines) + CategoryLines(categories)
    {
      if |categories| > 0 {
        var escaped: seq<Text> := [];
        for i := 0 to |categories|
          invariant |escaped| == i && forall k: nat :: k < i ==> escaped[k] == Escape(categories[k])
        {
          escaped := escaped + [Escape(categories[i])];
        }
        assert escaped == Escaped(categories);
        Line(Ascii("CATEGORIES:") + Joined(escaped));
      }
    }
  }

  /** Go: Calendar. The calendar ends exactly when each of its lines does. */
  method Calendar(name: Text, events: seq<Event>, stamp: Text) returns (outcome: Outcome)
    ensures outcome == if AllFold(CalendarLines(name, events, stamp))
                       then Wrote(Output(CalendarLines(name, events, stamp))) else NeverEnds
  {
    var b := new Builder();
    b.Begin(name);
    b.Events(events, stamp);
    b.Line(Ascii("END:VCALENDAR"));
    return if b.ended then NeverEnds else Wrote(b.text);
  }

  // ---------- The reader ----------

  predicate IsBlank(b: Byte) {
    b == SPACE || b == TAB
  }

  /** A line break followed by a blank is taken out. */
  function Unfolded(s: Text): Text {
    if s == [] then []
    else if StartsWithCrLf(s) && 3 <= |s| && IsBlank(s[2]) then Unfolded(s[3..])
    else [s[0]] + Unfolded(s[1..])
  }

  function SplitLines(s: Text): (lines: seq<Text>)
    ensures lines != []
  {
    if s == [] then [[]]
    else if StartsWithCrLf(s) then [[]] + SplitLines(s[2..])
    else
      var rest := SplitLines(s[1..]);
      [[s[0]] + rest[0]] + rest[1..]
  }

  lemma UnfoldedByte(b: Byte, rest: Text)
    requires b != CR
    ensures Unfolded([b] + rest) == [b] + Unfolded(rest)
  {
    assert ([b] + rest)[1..] == rest;
  }

  lemma {:induction false} UnfoldedPlain(u: Text, rest: Text)
    requires NoBreaks(u)
    ensures Unfolded(u + rest) == u + Unfolded(rest)
  {
    if u == [] {
      assert u + rest == rest;
    } else {
      UnfoldedPlain(u[1..], rest);
      UnfoldedByte(u[0], u[1..] + rest);
      assert u + rest == [u[0]] + (u[1..] + rest);
    }
  }

  lemma UnfoldedBlank(rest: Text)
    ensures Unfolded([CR, LF, SPACE] + rest) == Unfolded(rest)
  {
    assert ([CR, LF, SPACE] + rest)[3..] == rest;
  }

  lemma UnfoldedBreak(rest: Text)
    requires rest == [] || !IsBlank(rest[0])
    ensures Unfolded(CRLF + rest) == CRLF + Unfolded(rest)
  {
    assert (CRLF + rest)[1..] == [LF] + rest;
    assert ([LF] + rest)[1..] == rest;
  }

  lemma UnfoldedAfterPiece(piece: Text, rest: Text)
    requires NoBreaks(piece)
    ensures Unfolded(piece + ([CR, LF, SPACE] + rest)) == piece + Unfolded(rest)
  {
    UnfoldedPlain(piece, [CR, LF, SPACE] + rest);
    UnfoldedBlank(rest);
  }

  lemma WrittenBefore(piece: Text, others: seq<Text>, rest: Text)
    requires others != []
    ensures Written([piece] + others) + rest == piece + ([CR, LF, SPACE] + (Written(others) + rest))
  {
    WrittenStep(piece, others);
  }

  lemma {:induction false} UnfoldedPieces(pieces: seq<Text>, rest: Text)
    requires pieces != [] && forall i: nat :: i < |pieces| ==> NoBreaks(pieces[i])
    ensures Unfolded(Written(pieces) + rest) == Concatenated(pieces) + Unfolded(rest)
  {
    var first, others := pieces[0], pieces[1..];
    if others == [] {
      assert Written(pieces) == first && Concatenated(pieces) == first;
      UnfoldedPlain(first, rest);
    } else {
      UnfoldedPieces(others, rest);
      WrittenBefore(first, others, rest);
      assert pieces == [first] + others;
      UnfoldedAfterPiece(first, Written(others) + rest);
      assert Concatenated(pieces) + Unfolded(rest) == first + (Concatenated(others) + Unfolded(rest));
    }
  }

  /** A line a reader can find again: it has no break and does not look like a continuation. */
  predicate IsContent(line: Text) {
    line != [] && NoBreaks(line) && !IsBlank(line[0])
  }

  lemma OutputStarts(lines: seq<Text>)
    requires AllFold(lines) && lines != [] && IsContent(lines[0])
    ensures Output(lines) != [] && !IsBlank(Output(lines)[0])
  {
    var first := Pieces(lines[0], 75)[0];
    assert first != [] && first[0] == lines[0][0];
    assert Folded(lines[0])[0] == first[0];
  }

  lemma SplitAfterLine(line: Text, rest: Text)
    requires NoBreaks(line)
    ensures SplitLines(line + CRLF + rest) == [line] + SplitLines(rest)
  {
    var all := line + CRLF + rest;
    if line == [] {
      assert all[2..] == rest;
    } else {
      SplitAfterLine(line[1..], rest);
      assert all[1..] == line[1..] + CRLF + rest;
      assert line == [line[0]] + line[1..];
    }
  }

  lemma UnfoldedFolded(line: Text, rest: Text)
    requires Folds(line, 75) && NoBreaks(line)
    ensures Unfolded(Folded(line) + rest) == line + Unfolded(rest)
  {
    var pieces := Pieces(line, 75);
    PiecesHaveNoBreaks(line, 75);
    PiecesAreTheLine(line, 75);
    UnfoldedPieces(pieces, rest);
  }

  lemma UnfoldedLine(line: Text, rest: Text)
    requires Folds(line, 75) && NoBreaks(line)
    requires rest == [] || !IsBlank(rest[0])
    ensures Unfolded(Folded(line) + CRLF + rest) == line + CRLF + Unfolded(rest)
  {
    var tail := CRLF + rest;
    UnfoldedFolded(line, tail);
    assert Folded(line) + CRLF + rest == Folded(line) + tail;
    assert Unfolded(tail) == CRLF + Unfolded(rest) by {
      UnfoldedBreak(rest);
    }
    assert line + CRLF + Unfolded(rest) == line + Unfolded(tail);
  }

  /** Unfolding the output gives exactly the logical lines, in order. */
  lemma {:induction false} ReaderFindsLines(lines: seq<Text>)
    requires AllFold(lines) && forall i: nat :: i < |lines| ==> IsContent(lines[i])
    ensures SplitLines(Unfolded(Output(lines))) == lines + [[]]
  {
    if lines != [] {
      ReaderFindsLines(lines[1..]);
      if lines[1..] != [] {
        OutputStarts(lines[1..]);
      }
      UnfoldedLine(lines[0], Output(lines[1..]));
      SplitAfterLine(lines[0], Unfolded(Output(lines[1..])));
      assert lines == [lines[0]] + lines[1..];
    }
  }

  /** At most 75 octets a line, and no character cut in two. */
  ghost predicate AllFit(lines: seq<Text>) {
    forall i: nat :: i < |lines| ==> GoodPiece(lines[i], 75)
  }

  lemma FitAfterLine(line: Text, rest: Text)
    requires GoodPiece(line, 75) && NoBreaks(line) && AllFit(SplitLines(rest))
    ensures AllFit(SplitLines(line + CRLF + rest))
  {
    SplitAfterLine(line, rest);
  }

  lemma Regrouped(a: Text, b: Text, c: Text, d: Text)
    ensures a + (b + c) + b + d == a + b + (c + b + d)
  {
  }

  lemma BreakBeforeBlank(first: Text, text: Text, rest: Text)
    ensures first + ([CR, LF, SPACE] + text) + CRLF + rest == first + CRLF + ([SPACE] + text + CRLF + rest)
  {
    assert [CR, LF, SPACE] + text == CRLF + ([SPACE] + text);
    Regrouped(first, CRLF, [SPACE] + text, rest);
  }

  lemma ContinuedStep(first: Text, others: seq<Text>, rest: Text)
    requires others != []
    ensures first + Continued(others) + CRLF + rest
         == first + CRLF + ([SPACE] + others[0] + Continued(others[1..]) + CRLF + rest)
  {
    var next, more := others[0], Continued(others[1..]);
    BreakBeforeBlank(first, next + more, rest);
    assert [CR, LF, SPACE] + next + more == [CR, LF, SPACE] + (next + more);
    assert [SPACE] + next + more == [SPACE] + (next + more);
  }

  lemma BlankKeepsUtf8(piece: Text)
    requires Utf8(piece)
    ensures Utf8([SPACE] + piece)
  {
    assert ([SPACE] + piece)[1..] == piece;
  }

  /** `first` is a piece as it stands on its line, with its leading space. */
  lemma {:induction false} PiecesFit(first: Text, others: seq<Text>, rest: Text)
    requires GoodPiece(first, 75) && NoBreaks(first)
    requires forall i: nat :: i < |others| ==> GoodPiece(others[i], 74) && NoBreaks(others[i])
    requires AllFit(SplitLines(rest))
    ensures AllFit(SplitLines(first + Continued(others) + CRLF + rest))
    decreases |others|
  {
    if others == [] {
      assert first + Continued(others) == first;
      FitAfterLine(first, rest);
    } else {
      var next := [SPACE] + others[0];
      BlankKeepsUtf8(others[0]);
      PiecesFit(next, others[1..], rest);
      ContinuedStep(first, others, rest);
      FitAfterLine(first, next + Continued(others[1..]) + CRLF + rest);
    }
  }

  lemma {:induction false} PhysicalLinesFit(lines: seq<Text>)
    requires forall i: nat :: i < |lines| ==> Utf8(lines[i]) && NoBreaks(lines[i])
    ensures AllFold(lines) && AllFit(SplitLines(Output(lines)))
  {
    forall i: nat | i < |lines|
      ensures Folds(lines[i], 75)
    {
      Utf8Folds(lines[i], 75);
    }
    if lines != [] {
      PhysicalLinesFit(lines[1..]);
      var pieces := Pieces(lines[0], 75);
      Utf8Folds(lines[0], 75);
      PiecesHaveNoBreaks(lines[0], 75);
      PiecesFit(pieces[0], pieces[1..], Output(lines[1..]));
    }
  }

  // ---------- The lines of a calendar ----------

  ghost predicate GoodLine(line: Text) {
    IsContent(line) && Utf8(line)
  }

  lemma {:induction false} Utf8Together(a: Text, b: Text)
    requires Utf8(a) && Utf8(b)
    ensures Utf8(a + b)
    decreases |a|
  {
    if a == [] {
      assert a + b == b;
    } else {
      var n := CharLength(a[0]);
      Utf8Together(a[n..], b);
      assert (a + b)[n..] == a[n..] + b;
    }
  }

  lemma {:induction false} PrintableIsUtf8(s: Text)
    requires forall i: nat :: i < |s| ==> SPACE <= s[i] < 127
    ensures Utf8(s)
  {
    if s != [] {
      PrintableIsUtf8(s[1..]);
    }
  }

  predicate PlainByte(b: Byte) {
    b != BACKSLASH && b != SEMICOLON && b != COMMA && b != CR && b != LF
  }

  lemma {:induction false} EscapePassesPlain(u: Text, rest: Text)
    requires forall i: nat :: i < |u| ==> PlainByte(u[i])
    ensures Escape(u + rest) == u + Escape(rest)
  {
    if u == [] {
      assert u + rest == rest;
    } else {
      EscapePassesPlain(u[1..], rest);
      assert (u + rest)[1..] == u[1..] + rest;
    }
  }

  lemma HeadIsUtf8(head: Text)
    requires |head| <= 2 && forall i: nat :: i < |head| ==> head[i] < 0x80
    ensures Utf8(head)
  {
    if |head| == 2 {
      assert head[1..][1..] == [];
    }
  }

  lemma WideCharacterIsPlain(head: Text)
    requires head != [] && CharLength(head[0]) == |head| > 1 && Continues(head, 1, |head|)
    ensures Utf8(head) && forall i: nat :: i < |head| ==> PlainByte(head[i])
  {
    CharacterFirst(head, []);
    assert head + [] == head;
    forall i: nat | i < |head| ensures PlainByte(head[i]) {
      assert i > 0 ==> !IsStart(head[i]);
    }
  }

  lemma WideCharacterIsEscaped(head: Text, rest: Text)
    requires head != [] && CharLength(head[0]) == |head| > 1 && Continues(head, 1, |head|)
    ensures Utf8(head) && Escape(head + rest) == head + Escape(rest)
  {
    WideCharacterIsPlain(head);
    EscapePassesPlain(head, rest);
  }

  lemma EscapedWideCharacter(s: Text, n: nat)
    requires s != [] && Utf8(s) && CharLength(s[0]) == n > 1
    ensures n <= |s| && Utf8(s[..n]) && Escape(s) == s[..n] + Escape(s[n..])
  {
    FirstCharacter(s);
    var head, rest := s[..n], s[n..];
    assert head[0] == s[0] && s == head + rest;
    WideCharacterIsEscaped(head, rest);
  }

  lemma EscapedByte(s: Text)
    requires s != [] && Utf8(s) && CharLength(s[0]) == 1 && !StartsWithCrLf(s)
    ensures exists head :: Utf8(head) && Escape(s) == head + Escape(s[1..])
  {
    var head := if PlainByte(s[0]) then [s[0]] else [BACKSLASH, if s[0] == CR || s[0] == LF then SMALL_N else s[0]];
    HeadIsUtf8(head);
    assert Escape(s) == head + Escape(s[1..]);
  }

  lemma {:induction false} EscapeKeepsUtf8(s: Text)
    requires Utf8(s)
    ensures Utf8(Escape(s))
    decreases |s|
  {
    if s != [] {
      var n := CharLength(s[0]);
      EscapeKeepsUtf8(s[n..]);
      if n > 1 {
        EscapedWideCharacter(s, n);
        Utf8Together(s[..n], Escape(s[n..]));
      } else if StartsWithCrLf(s) {
        assert s[1..][1..] == s[2..];
        EscapeKeepsUtf8(s[2..]);
        PrintableIsUtf8([BACKSLASH, SMALL_N]);
        Utf8Together([BACKSLASH, SMALL_N], Escape(s[2..]));
      } else {
        EscapedByte(s);
        var head :| Utf8(head) && Escape(s) == head + Escape(s[1..]);
        Utf8Together(head, Escape(s[1..]));
      }
    }
  }

  lemma LabelledLineIsGood(prefix: string, value: Text)
    requires prefix != "" && ' ' < prefix[0] <= '~'
    requires Utf8(value) && NoBreaks(value)
    ensures GoodLine(Ascii(prefix) + value)
  {
    PrintableIsUtf8(Ascii(prefix));
    Utf8Together(Ascii(prefix), value);
  }

  lemma LabelIsGood(prefix: string)
    requires prefix != "" && ' ' < prefix[0] <= '~'
    ensures GoodLine(Ascii(prefix))
  {
    LabelledLineIsGood(prefix, []);
    assert Ascii(prefix) + [] == Ascii(prefix);
  }

  lemma TextLineIsGood(prefix: string, value: Text)
    requires prefix != "" && ' ' < prefix[0] <= '~' && Utf8(value)
    ensures GoodLine(Ascii(prefix) + Escape(value))
  {
    EscapeKeepsUtf8(value);
    EscapedHasNoBreaks(value);
    LabelledLineIsGood(prefix, Escape(value));
  }

  lemma {:induction false} JoinedIsGood(values: seq<Text>)
    requires forall i: nat :: i < |values| ==> Utf8(values[i])
    ensures Utf8(Joined(Escaped(values))) && NoBreaks(Joined(Escaped(values)))
  {
    if values != [] {
      EscapeKeepsUtf8(values[0]);
      EscapedHasNoBreaks(values[0]);
      if |values| > 1 {
        JoinedIsGood(values[1..]);
        assert Escaped(values)[1..] == Escaped(values[1..]);
        PrintableIsUtf8([COMMA]);
        Utf8Together(Escape(values[0]), [COMMA]);
        Utf8Together(Escape(values[0]) + [COMMA], Joined(Escaped(values[1..])));
      }
    }
  }

  ghost predicate GoodLines(lines: seq<Text>) {
    forall i: nat :: i < |lines| ==> GoodLine(lines[i])
  }

  /** What the writer is given: valid UTF-8, and times without line breaks. */
  ghost predicate IsTime(time: Text) {
    Utf8(time) && NoBreaks(time)
  }

  ghost predicate IsEvent(e: Event) {
    && Utf8(e.uid) && Utf8(e.summary) && Utf8(e.description) && Utf8(e.location)
    && (forall i: nat :: i < |e.categories| ==> Utf8(e.categories[i]))
    && IsTime(e.start) && IsTime(e.end)
  }

  lemma PreambleIsGood()
    ensures GoodLines(Preamble())
  {
    LabelIsGood("BEGIN:VCALENDAR");
    LabelIsGood("VERSION:2.0");
    LabelIsGood("PRODID:-//Open ClubManager//Events//EN");
    LabelIsGood("CALSCALE:GREGORIAN");
    LabelIsGood("METHOD:PUBLISH");
  }

  lemma TimeLinesAreGood(e: Event)
    requires IsEvent(e)
    ensures GoodLines(TimeLines(e))
  {
    LabelledLineIsGood("DTSTART;VALUE=DATE:", e.start);
    LabelledLineIsGood("DTEND;VALUE=DATE:", e.end);
    LabelledLineIsGood("DTSTART:", e.start);
    LabelledLineIsGood("DTEND:", e.end);
  }

  lemma OptionalLinesAreGood(e: Event)
    requires IsEvent(e)
    ensures GoodLines(OptionalLines(e))
  {
    TextLineIsGood("DESCRIPTION:", e.description);
    TextLineIsGood("LOCATION:", e.location);
    JoinedIsGood(e.categories);
    LabelledLineIsGood("CATEGORIES:", Joined(Escaped(e.categories)));
  }

  lemma EventLinesAreGood(e: Event, stamp: Text)
    requires IsEvent(e) && IsTime(stamp)
    ensures GoodLines(EventLines(e, stamp))
  {
    LabelIsGood("BEGIN:VEVENT");
    TextLineIsGood("UID:", e.uid);
    LabelledLineIsGood("DTSTAMP:", stamp);
    TimeLinesAreGood(e);
    TextLineIsGood("SUMMARY:", e.summary);
    OptionalLinesAreGood(e);
    LabelIsGood("END:VEVENT");
  }

  lemma {:induction false} AllEventLinesAreGood(events: seq<Event>, stamp: Text)
    requires IsTime(stamp) && forall i: nat :: i < |events| ==> IsEvent(events[i])
    ensures GoodLines(AllEventLines(events, stamp))
  {
    if events != [] {
      AllEventLinesAreGood(events[..|events| - 1], stamp);
      EventLinesAreGood(events[|events| - 1], stamp);
    }
  }

  lemma GoodTogether(a: seq<Text>, b: seq<Text>)
    requires GoodLines(a) && GoodLines(b)
    ensures GoodLines(a + b)
  {
  }

  lemma CalendarLinesAreGood(name: Text, events: seq<Event>, stamp: Text)
    requires Utf8(name) && IsTime(stamp) && forall i: nat :: i < |events| ==> IsEvent(events[i])
    ensures GoodLines(CalendarLines(name, events, stamp))
  {
    PreambleIsGood();
    TextLineIsGood("X-WR-CALNAME:", name);
    GoodTogether(Preamble(), NameLines(name));
    AllEventLinesAreGood(events, stamp);
    GoodTogether(Preamble() + NameLines(name), AllEventLines(events, stamp));
    LabelIsGood("END:VCALENDAR");
    GoodTogether(Preamble() + NameLines(name) + AllEventLines(events, stamp), [Ascii("END:VCALENDAR")]);
  }

  lemma GoodLinesAreReadable(lines: seq<Text>)
    requires GoodLines(lines)
    ensures AllFold(lines) && AllFit(SplitLines(Output(lines)))
    ensures SplitLines(Unfolded(Output(lines))) == lines + [[]]
  {
    PhysicalLinesFit(lines);
    ReaderFindsLines(lines);
  }

  /**
   * A calendar of valid texts is always finished, no line of it is too long or cuts a character, and a reader gets
   * back exactly its logical lines.
   */
  lemma CalendarIsReadable(name: Text, events: seq<Event>, stamp: Text)
    requires Utf8(name) && IsTime(stamp) && forall i: nat :: i < |events| ==> IsEvent(events[i])
    ensures AllFold(CalendarLines(name, events, stamp))
    ensures AllFit(SplitLines(Output(CalendarLines(name, events, stamp))))
    ensures SplitLines(Unfolded(Output(CalendarLines(name, events, stamp))))
         == CalendarLines(name, events, stamp) + [[]]
  {
    CalendarLinesAreGood(name, events, stamp);
    GoodLinesAreReadable(CalendarLines(name, events, stamp));
  }
}
