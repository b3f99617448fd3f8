/**
 * A reader of the calendars that are written (sections 3.1, 3.3.11 and 3.6.1 of RFC 5545): it unfolds the output,
 * splits it into lines, each line into property and value, and collects the events.
 */
module IcalReader {

  import opened Wrappers
  import opened Bytes
  import opened Ical
  import opened IcalWriter

  const COLON: Byte := 58

  datatype Property = Begin | End | Version | ProdId | CalScale | Method | CalName | Uid | Stamp | Start | StartDate
                    | Finish | FinishDate | Summary | Description | Location | Categories

  function NameOf(p: Property): string {
    match p
    case Begin => "BEGIN"
    case End => "END"
    case Version => "VERSION"
    case ProdId => "PRODID"
    case CalScale => "CALSCALE"
    case Method => "METHOD"
    case CalName => "X-WR-CALNAME"
    case Uid => "UID"
    case Stamp => "DTSTAMP"
    case Start => "DTSTART"
    case StartDate => "DTSTART;VALUE=DATE"
    case Finish => "DTEND"
    case FinishDate => "DTEND;VALUE=DATE"
    case Summary => "SUMMARY"
    case Description => "DESCRIPTION"
    case Location => "LOCATION"
    case Categories => "CATEGORIES"
  }

  /** Where the value of a line is announced. */
  function ColonAt(line: Text): (k: nat)
    ensures k <= |line|
  {
    if line == [] || line[0] == COLON then 0 else 1 + ColonAt(line[1..])
  }

  ghost function PropertyOf(name: Text): Option<Property> {
    if exists p :: Ascii(NameOf(p)) == name then (var p :| Ascii(NameOf(p)) == name; Some(p)) else None
  }

  function UnescapedAll(values: seq<Text>): seq<Text> {
    seq(|values|, i requires 0 <= i < |values| => Unescape(values[i]))
  }

  /** The events that have ended, and the one that is being read. */
  datatype Reading = Reading(events: seq<Event>, current: Event)

  const BLANK: Event := Event([], [], [], [], [], [], [], false)

  function Take(r: Reading, p: Property, value: Text): Reading {
    match p
    case Begin => if value == Ascii("VEVENT") then r.(current := BLANK) else r
    case End => if value == Ascii("VEVENT") then r.(events := r.events + [r.current]) else r
    case Uid => r.(current := r.current.(uid := Unescape(value)))
    case Start => r.(current := r.current.(start := value, allDay := false))
    case StartDate => r.(current := r.current.(start := value, allDay := true))
    case Finish => r.(current := r.current.(end := value))
    case FinishDate => r.(current := r.current.(end := value))
    case Summary => r.(current := r.current.(summary := Unescape(value)))
    case Description => r.(current := r.current.(description := Unescape(value)))
    case Location => r.(current := r.current.(location := Unescape(value)))
    case Categories => r.(current := r.current.(categories := UnescapedAll(SplitValues(value))))
    case _ => r
  }

  ghost function ReadLine(r: Reading, line: Text): Reading {
    var k := ColonAt(line);
    if k == |line| then r
    else
      match PropertyOf(line[..k])
      case None => r
      case Some(p) => Take(r, p, line[k + 1..])
  }

  ghost function ReadLines(r: Reading, lines: seq<Text>): Reading {
    if lines == [] then r else ReadLine(ReadLines(r, lines[..|lines| - 1]), lines[|lines| - 1])
  }

  ghost function ReadCalendar(output: Text): seq<Event> {
    ReadLines(Reading([], BLANK), SplitLines(Unfolded(output))).events
  }

  // ---------- One line ----------

  /** Printable and without a colon. */
  predicate IsName(s: string) {
    forall i: nat :: i < |s| ==> ' ' <= s[i] <= '~' && s[i] != ':'
  }

  lemma AsciiIsInjective(s: string, t: string)
    requires IsName(s) && IsName(t) && Ascii(s) == Ascii(t)
    ensures s == t
  {
    forall i: nat | i < |s| ensures |s| == |t| && s[i] == t[i] {
      assert Ascii(s)[i] == s[i] as int && Ascii(t)[i] == t[i] as int;
    }
  }

  lemma AsciiTogether(s: string, t: string)
    ensures Ascii(s + t) == Ascii(s) + Ascii(t)
  {
  }

  lemma MarkersAreNames()
    ensures IsName("BEGIN") && IsName("END") && IsName("VERSION") && IsName("UID") && IsName("METHOD")
  {
  }

  lemma CalendarNames()
    ensures IsName("PRODID") && IsName("CALSCALE") && IsName("X-WR-CALNAME") && IsName("LOCATION")
  {
  }

  lemma TimesAreNames()
    ensures IsName("DTSTAMP") && IsName("DTSTART") && IsName("DTEND") && IsName("SUMMARY")
  {
  }

  lemma DatesAreNames()
    ensures IsName("DTSTART;VALUE=DATE") && IsName("DTEND;VALUE=DATE")
  {
  }

  lemma TextsAreNames()
    ensures IsName("DESCRIPTION") && IsName("CATEGORIES")
  {
  }

  lemma NamesAreNames(p: Property)
    ensures IsName(NameOf(p))
  {
    MarkersAreNames();
    CalendarNames();
    TimesAreNames();
    DatesAreNames();
    TextsAreNames();
  }

  lemma NamesDiffer(p: Property, q: Property)
    requires NameOf(p) == NameOf(q)
    ensures p == q
  {
  }

  lemma PropertyIsFound(p: Property)
    ensures PropertyOf(Ascii(NameOf(p))) == Some(p)
  {
    var found := PropertyOf(Ascii(NameOf(p)));
    assert found.Some? && Ascii(NameOf(found.value)) == Ascii(NameOf(p));
    NamesAreNames(p);
    NamesAreNames(found.value);
    AsciiIsInjective(NameOf(found.value), NameOf(p));
    NamesDiffer(found.value, p);
  }

  lemma {:induction false} ColonIsFound(name: Text, value: Text)
    requires COLON !in name
    ensures ColonAt(name + [COLON] + value) == |name|
  {
    var line := name + [COLON] + value;
    if name != [] {
      assert line[1..] == name[1..] + [COLON] + value;
      ColonIsFound(name[1..], value);
    }
  }

  lemma NameHasNoColon(p: Property)
    ensures COLON !in Ascii(NameOf(p))
  {
    NamesAreNames(p);
  }

  /** A written line is read as its property and its value. */
  lemma ReadLabelled(r: Reading, p: Property, prefix: string, value: Text)
    requires prefix == NameOf(p) + ":"
    ensures ReadLine(r, Ascii(prefix) + value) == Take(r, p, value)
  {
    var name := Ascii(NameOf(p));
    AsciiTogether(NameOf(p), ":");
    assert Ascii(":") == [COLON];
    assert Ascii(prefix) + value == name + [COLON] + value;
    NameHasNoColon(p);
    ColonIsFound(name, value);
    PropertyIsFound(p);
    var line := name + [COLON] + value;
    assert line[..|name|] == name && line[|name| + 1..] == value;
  }

  lemma ReadGroups(r: Reading, a: seq<Text>, b: seq<Text>, c: seq<Text>)
    ensures ReadLines(r, a + b + c) == ReadLines(ReadLines(ReadLines(r, a), b), c)
  {
    ReadTogether(r, a + b, c);
    ReadTogether(r, a, b);
  }

  lemma ReadThree(r: Reading, a: Text, b: Text, c: Text)
    ensures ReadLines(r, [a, b, c]) == ReadLine(ReadLine(ReadLine(r, a), b), c)
  {
    assert [a, b, c] == [a] + [b] + [c];
    ReadGroups(r, [a], [b], [c]);
    ReadOne(r, a);
    ReadOne(ReadLine(r, a), b);
    ReadOne(ReadLine(ReadLine(r, a), b), c);
  }

  lemma ReadMarker(r: Reading, p: Property, prefix: string, mark: string, line: string)
    requires prefix == NameOf(p) + ":" && line == prefix + mark
    ensures ReadLine(r, Ascii(line)) == Take(r, p, Ascii(mark))
  {
    AsciiTogether(prefix, mark);
    ReadLabelled(r, p, prefix, Ascii(mark));
  }

  lemma ReadBegin(r: Reading)
    ensures ReadLine(r, Ascii("BEGIN:VEVENT")) == r.(current := BLANK)
  {
    ReadMarker(r, Begin, "BEGIN:", "VEVENT", "BEGIN:VEVENT");
  }

  lemma ReadEndLine(r: Reading)
    ensures ReadLine(r, Ascii("END:VEVENT")) == r.(events := r.events + [r.current])
  {
    ReadMarker(r, End, "END:", "VEVENT", "END:VEVENT");
  }

  lemma CalendarIsNoEvent()
    ensures Ascii("VCALENDAR") != Ascii("VEVENT")
  {
    assert |Ascii("VCALENDAR")| == 9 && |Ascii("VEVENT")| == 6;
  }

  lemma ReadCalendarMarkers(r: Reading)
    ensures ReadLine(r, Ascii("BEGIN:VCALENDAR")) == r && ReadLine(r, Ascii("END:VCALENDAR")) == r
  {
    CalendarIsNoEvent();
    ReadMarker(r, Begin, "BEGIN:", "VCALENDAR", "BEGIN:VCALENDAR");
    ReadMarker(r, End, "END:", "VCALENDAR", "END:VCALENDAR");
  }

  lemma ReadVersion(r: Reading)
    ensures ReadLine(r, Ascii("VERSION:2.0")) == r
  {
    ReadMarker(r, Version, "VERSION:", "2.0", "VERSION:2.0");
  }

  lemma ReadProdId(r: Reading)
    ensures ReadLine(r, Ascii("PRODID:-//Open ClubManager//Events//EN")) == r
  {
    var line := "PRODID:-//Open ClubManager//Events//EN";
    ReadMarker(r, ProdId, "PRODID:", "-//Open ClubManager//Events//EN", line);
  }

  lemma ReadCalScale(r: Reading)
    ensures ReadLine(r, Ascii("CALSCALE:GREGORIAN")) == r
  {
    ReadMarker(r, CalScale, "CALSCALE:", "GREGORIAN", "CALSCALE:GREGORIAN");
  }

  lemma ReadMethod(r: Reading)
    ensures ReadLine(r, Ascii("METHOD:PUBLISH")) == r
  {
    ReadMarker(r, Method, "METHOD:", "PUBLISH", "METHOD:PUBLISH");
  }

  lemma {:induction false} ReadTogether(r: Reading, a: seq<Text>, b: seq<Text>)
    ensures ReadLines(r, a + b) == ReadLines(ReadLines(r, a), b)
  {
    if b == [] {
      assert a + b == a;
    } else {
      assert (a + b)[..|a + b| - 1] == a + b[..|b| - 1];
      ReadTogether(r, a, b[..|b| - 1]);
    }
  }

  lemma ReadOne(r: Reading, line: Text)
    ensures ReadLines(r, [line]) == ReadLine(r, line)
  {
    assert [line][..0] == [];
    assert ReadLines(r, []) == r;
  }

  lemma ReadTwo(r: Reading, a: Text, b: Text)
    ensures ReadLines(r, [a, b]) == ReadLine(ReadLine(r, a), b)
  {
    assert [a, b] == [a] + [b];
    ReadTogether(r, [a], [b]);
    ReadOne(r, a);
    ReadOne(ReadLine(r, a), b);
  }

  // ---------- One event ----------

  function NormalisedAll(values: seq<Text>): seq<Text> {
    seq(|values|, i requires 0 <= i < |values| => Normalised(values[i]))
  }

  /** What a reader can get back at best: the texts with every line break as one newline. */
  function ReadBack(e: Event): Event {
    Event(Normalised(e.uid), Normalised(e.summary), Normalised(e.description), Normalised(e.location),
          NormalisedAll(e.categories), e.start, e.end, e.allDay)
  }

  lemma ReadText(r: Reading, p: Property, prefix: string, text: Text)
    requires prefix == NameOf(p) + ":" && p in {Uid, Summary, Description, Location}
    ensures ReadLine(r, Ascii(prefix) + Escape(text)) == (
      match p
      case Uid => r.(current := r.current.(uid := Normalised(text)))
      case Summary => r.(current := r.current.(summary := Normalised(text)))
      case Description => r.(current := r.current.(description := Normalised(text)))
      case _ => r.(current := r.current.(location := Normalised(text))))
  {
    ReadLabelled(r, p, prefix, Escape(text));
    EscapeRoundTrip(text);
  }

  lemma ReadCategories(r: Reading, values: seq<Text>)
    requires values != []
    ensures ReadLine(r, Ascii("CATEGORIES:") + Joined(Escaped(values)))
         == r.(current := r.current.(categories := NormalisedAll(values)))
  {
    ReadLabelled(r, Categories, "CATEGORIES:", Joined(Escaped(values)));
    ListRoundTrip(values);
    forall i: nat | i < |values| ensures Unescape(Escaped(values)[i]) == Normalised(values[i]) {
      EscapeRoundTrip(values[i]);
    }
    assert UnescapedAll(Escaped(values)) == NormalisedAll(values);
  }

  lemma ReadUid(r: Reading, uid: Text)
    ensures ReadLine(r, Ascii("UID:") + Escape(uid)) == r.(current := r.current.(uid := Normalised(uid)))
  {
    ReadText(r, Uid, "UID:", uid);
  }

  lemma ReadStamp(r: Reading, stamp: Text)
    ensures ReadLine(r, Ascii("DTSTAMP:") + stamp) == r
  {
    ReadLabelled(r, Stamp, "DTSTAMP:", stamp);
  }

  lemma ReadOpening(r: Reading, e: Event, stamp: Text)
    ensures ReadLines(r, OpeningLines(e, stamp)) == r.(current := BLANK.(uid := Normalised(e.uid)))
  {
    var begun, named := r.(current := BLANK), r.(current := BLANK.(uid := Normalised(e.uid)));
    ReadThree(r, Ascii("BEGIN:VEVENT"), Ascii("UID:") + Escape(e.uid), Ascii("DTSTAMP:") + stamp);
    ReadBegin(r);
    ReadUid(begun, e.uid);
    ReadStamp(named, stamp);
  }

  lemma ReadDates(r: Reading, start: Text, end: Text)
    ensures ReadLines(r, [Ascii("DTSTART;VALUE=DATE:") + start, Ascii("DTEND;VALUE=DATE:") + end])
         == r.(current := r.current.(start := start, end := end, allDay := true))
  {
    var started := r.(current := r.current.(start := start, allDay := true));
    ReadTwo(r, Ascii("DTSTART;VALUE=DATE:") + start, Ascii("DTEND;VALUE=DATE:") + end);
    ReadLabelled(r, StartDate, "DTSTART;VALUE=DATE:", start);
    ReadLabelled(started, FinishDate, "DTEND;VALUE=DATE:", end);
  }

  lemma ReadMoments(r: Reading, start: Text, end: Text)
    ensures ReadLines(r, [Ascii("DTSTART:") + start, Ascii("DTEND:") + end])
         == r.(current := r.current.(start := start, end := end, allDay := false))
  {
    var started := r.(current := r.current.(start := start, allDay := false));
    ReadTwo(r, Ascii("DTSTART:") + start, Ascii("DTEND:") + end);
    ReadStart(r, start);
    ReadFinish(started, end);
  }

  lemma ReadStart(r: Reading, start: Text)
    ensures ReadLine(r, Ascii("DTSTART:") + start) == r.(current := r.current.(start := start, allDay := false))
  {
    ReadLabelled(r, Start, "DTSTART:", start);
  }

  lemma ReadFinish(r: Reading, end: Text)
    ensures ReadLine(r, Ascii("DTEND:") + end) == r.(current := r.current.(end := end))
  {
    ReadLabelled(r, Finish, "DTEND:", end);
  }

  lemma ReadTimes(r: Reading, e: Event)
    ensures ReadLines(r, TimeLines(e)) == r.(current := r.current.(start := e.start, end := e.end, allDay := e.allDay))
  {
    if e.allDay {
      ReadDates(r, e.start, e.end);
    } else {
      ReadMoments(r, e.start, e.end);
    }
  }

  /** A text that is written only if there is one. */
  lemma ReadTextLines(r: Reading, p: Property, prefix: string, text: Text)
    requires prefix == NameOf(p) + ":" && p in {Description, Location}
    requires if p == Description then r.current.description == [] else r.current.location == []
    ensures ReadLines(r, TextLines(prefix, text)) ==
      if p == Description then r.(current := r.current.(description := Normalised(text)))
      else r.(current := r.current.(location := Normalised(text)))
  {
    if text != [] {
      ReadText(r, p, prefix, text);
      ReadOne(r, Ascii(prefix) + Escape(text));
    }
  }

  lemma ReadCategoryLines(r: Reading, values: seq<Text>)
    requires r.current.categories == []
    ensures ReadLines(r, CategoryLines(values)) == r.(current := r.current.(categories := NormalisedAll(values)))
  {
    if values != [] {
      ReadCategories(r, values);
      ReadOne(r, Ascii("CATEGORIES:") + Joined(Escaped(values)));
    }
  }

  lemma ReadOptional(r: Reading, e: Event)
    requires r.current.description == [] && r.current.location == [] && r.current.categories == []
    ensures ReadLines(r, OptionalLines(e)) ==
      r.(current := r.current.(description := Normalised(e.description), location := Normalised(e.location),
                               categories := NormalisedAll(e.categories)))
  {
    var description, location := TextLines("DESCRIPTION:", e.description), TextLines("LOCATION:", e.location);
    var described := r.(current := r.current.(description := Normalised(e.description)));
    var located := described.(current := described.current.(location := Normalised(e.location)));
    assert ReadLines(r, description) == described by {
      ReadTextLines(r, Description, "DESCRIPTION:", e.description);
    }
    assert ReadLines(described, location) == located by {
      ReadTextLines(described, Location, "LOCATION:", e.location);
    }
    ReadCategoryLines(located, e.categories);
    ReadGroups(r, description, location, CategoryLines(e.categories));
  }

  lemma ReadEnd(r: Reading)
    ensures ReadLines(r, [Ascii("END:VEVENT")]) == r.(events := r.events + [r.current])
  {
    ReadEndLine(r);
    ReadOne(r, Ascii("END:VEVENT"));
  }

  /** Reading the lines of an event gives the event. */
  lemma ReadEvent(r: Reading, e: Event, stamp: Text)
    ensures ReadLines(r, EventLines(e, stamp)) == Reading(r.events + [ReadBack(e)], ReadBack(e))
  {
    var opening, times, summary := OpeningLines(e, stamp), TimeLines(e), [Ascii("SUMMARY:") + Escape(e.summary)];
    var optional, end := OptionalLines(e), [Ascii("END:VEVENT")];
    ReadTogether(r, opening + times + summary + optional, end);
    ReadTogether(r, opening + times + summary, optional);
    ReadTogether(r, opening + times, summary);
    ReadTogether(r, opening, times);
    ReadOpening(r, e, stamp);
    var begun := ReadLines(r, opening);
    ReadTimes(begun, e);
    var timed := ReadLines(begun, times);
    ReadText(timed, Summary, "SUMMARY:", e.summary);
    ReadOne(timed, summary[0]);
    var summed := ReadLines(timed, summary);
    ReadOptional(summed, e);
    ReadEnd(ReadLines(summed, optional));
  }

  // ---------- The calendar ----------

  function AllReadBack(events: seq<Event>): seq<Event> {
    seq(|events|, i requires 0 <= i < |events| => ReadBack(events[i]))
  }

  lemma ReadOneMoreEvent(r: Reading, lines: seq<Text>, e: Event, stamp: Text)
    ensures ReadLines(r, lines + EventLines(e, stamp)).events == ReadLines(r, lines).events + [ReadBack(e)]
  {
    ReadTogether(r, lines, EventLines(e, stamp));
    ReadEvent(ReadLines(r, lines), e, stamp);
  }

  lemma AllReadBackOneMore(before: seq<Event>, e: Event)
    ensures AllReadBack(before + [e]) == AllReadBack(before) + [ReadBack(e)]
  {
  }

  lemma {:induction false} ReadEvents(r: Reading, events: seq<Event>, stamp: Text)
    ensures ReadLines(r, AllEventLines(events, stamp)).events == r.events + AllReadBack(events)
  {
    if events != [] {
      var before, last := events[..|events| - 1], events[|events| - 1];
      assert events == before + [last];
      ReadEvents(r, before, stamp);
      ReadOneMoreEvent(r, AllEventLines(before, stamp), last, stamp);
      AllReadBackOneMore(before, last);
    }
  }

  /** Lines that change nothing, together. */
  lemma {:induction false} ReadNothing(r: Reading, lines: seq<Text>)
    requires forall i: nat :: i < |lines| ==> ReadLine(r, lines[i]) == r
    ensures ReadLines(r, lines) == r
  {
    if lines != [] {
      ReadNothing(r, lines[..|lines| - 1]);
    }
  }

  lemma ReadFive(r: Reading, a: Text, b: Text, c: Text, d: Text, e: Text)
    requires ReadLine(r, a) == r && ReadLine(r, b) == r && ReadLine(r, c) == r && ReadLine(r, d) == r
    requires ReadLine(r, e) == r
    ensures ReadLines(r, [a, b, c, d, e]) == r
  {
    ReadNothing(r, [a, b, c, d, e]);
  }

  lemma ReadPreamble(r: Reading)
    ensures ReadLines(r, Preamble()) == r
  {
    ReadCalendarMarkers(r);
    ReadVersion(r);
    ReadProdId(r);
    ReadCalScale(r);
    ReadMethod(r);
    ReadFive(r, Ascii("BEGIN:VCALENDAR"), Ascii("VERSION:2.0"), Ascii("PRODID:-//Open ClubManager//Events//EN"),
             Ascii("CALSCALE:GREGORIAN"), Ascii("METHOD:PUBLISH"));
  }

  lemma ReadName(r: Reading, name: Text)
    ensures ReadLines(r, NameLines(name)) == r
  {
    if name != [] {
      ReadLabelled(r, CalName, "X-WR-CALNAME:", Escape(name));
      ReadOne(r, Ascii("X-WR-CALNAME:") + Escape(name));
    }
  }

  lemma ReadClosing(r: Reading)
    ensures ReadLines(r, [Ascii("END:VCALENDAR"), []]) == r
  {
    ReadCalendarMarkers(r);
    ReadTwo(r, Ascii("END:VCALENDAR"), []);
  }

  lemma ReadAllLines(name: Text, events: seq<Event>, stamp: Text)
    ensures ReadLines(Reading([], BLANK), CalendarLines(name, events, stamp) + [[]]).events == AllReadBack(events)
  {
    var r := Reading([], BLANK);
    var head, body, close := Preamble() + NameLines(name), AllEventLines(events, stamp), [Ascii("END:VCALENDAR"), []];
    assert CalendarLines(name, events, stamp) + [[]] == head + body + close;
    ReadTogether(r, head + body, close);
    ReadTogether(r, head, body);
    ReadTogether(r, Preamble(), NameLines(name));
    ReadPreamble(r);
    ReadName(r, name);
    ReadEvents(r, events, stamp);
    ReadClosing(ReadLines(r, body));
  }

  /**
   * The whole way: from the written calendar a reader gets every event back, in order, with its times and its texts and
   * categories up to the kind of line break.
   */
  lemma EventsRoundTrip(name: Text, events: seq<Event>, stamp: Text)
    requires Utf8(name) && IsTime(stamp) && forall i: nat :: i < |events| ==> IsEvent(events[i])
    ensures AllFold(CalendarLines(name, events, stamp))
    ensures ReadCalendar(Output(CalendarLines(name, events, stamp))) == AllReadBack(events)
  {
    CalendarIsReadable(name, events, stamp);
    ReadAllLines(name, events, stamp);
  }
}
