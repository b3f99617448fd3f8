/**
 * Writing iCalendar text (server/internal/ical/ical.go): escaping of values and folding of content lines, against
 * readers that follow sections 3.1 and 3.3.11 of RFC 5545. Texts are bytes, as in Go.
 */
module Ical {

  import opened Bytes

  const TAB: Byte := 9
  const LF: Byte := 10
  const CR: Byte := 13
  const SPACE: Byte := 32
  const COMMA: Byte := 44
  const SEMICOLON: Byte := 59
  const BACKSLASH: Byte := 92
  const CAPITAL_N: Byte := 78
  const SMALL_N: Byte := 110

  /** The bytes of a literal; every literal of the writer is printable ASCII. */
  function Ascii(s: string): (t: Text)
    ensures |t| == |s| && forall i: nat :: i < |t| ==> SPACE <= t[i] < 127
  {
    seq(|s|, i requires 0 <= i < |s| => if ' ' <= s[i] <= '~' then s[i] as int else SPACE)
  }

  // ---------- Escaping ----------

  predicate StartsWithCrLf(s: Text) {
    2 <= |s| && s[0] == CR && s[1] == LF
  }

  /** Go: Escape. A replacer tries its pairs in order at each position. */
  function Escape(s: Text): Text {
    if s == [] then []
    else if s[0] == BACKSLASH || s[0] == SEMICOLON || s[0] == COMMA then [BACKSLASH, s[0]] + Escape(s[1..])
    else if StartsWithCrLf(s) then [BACKSLASH, SMALL_N] + Escape(s[2..])
    else if s[0] == LF || s[0] == CR then [BACKSLASH, SMALL_N] + Escape(s[1..])
    else [s[0]] + Escape(s[1..])
  }

  /** The reader's side: a backslash announces a newline or a literal character. */
  function Unescape(s: Text): Text {
    if s == [] then []
    else if s[0] == BACKSLASH && 2 <= |s| then
      [if s[1] == SMALL_N || s[1] == CAPITAL_N then LF else s[1]] + Unescape(s[2..])
    else [s[0]] + Unescape(s[1..])
  }

  /** What a reader can get back at best: every kind of line break is one newline. */
  function Normalised(s: Text): Text {
    if s == [] then []
    else if StartsWithCrLf(s) then [LF] + Normalised(s[2..])
    else [if s[0] == CR then LF else s[0]] + Normalised(s[1..])
  }

  predicate NoBreaks(s: Text) {
    forall i: nat :: i < |s| ==> s[i] != CR && s[i] != LF
  }

  lemma {:induction false} UnescapeAfter(a: Byte, b: Byte, rest: Text)
    requires a == BACKSLASH
    ensures Unescape([a, b] + rest) == [if b == SMALL_N || b == CAPITAL_N then LF else b] + Unescape(rest)
  {
    assert ([a, b] + rest)[2..] == rest;
  }

  /** Unescaping an escaped text gives the text back, with newlines normalised. */
  lemma {:induction false} EscapeRoundTrip(s: Text)
    ensures Unescape(Escape(s)) == Normalised(s)
    decreases |s|
  {
    if s == [] {
    } else if s[0] == BACKSLASH || s[0] == SEMICOLON || s[0] == COMMA {
      EscapeRoundTrip(s[1..]);
      UnescapeAfter(BACKSLASH, s[0], Escape(s[1..]));
    } else if StartsWithCrLf(s) {
      EscapeRoundTrip(s[2..]);
      UnescapeAfter(BACKSLASH, SMALL_N, Escape(s[2..]));
    } else if s[0] == LF || s[0] == CR {
      EscapeRoundTrip(s[1..]);
      UnescapeAfter(BACKSLASH, SMALL_N, Escape(s[1..]));
    } else {
      EscapeRoundTrip(s[1..]);
      assert ([s[0]] + Escape(s[1..]))[1..] == Escape(s[1..]);
    }
  }

  lemma {:induction false} EscapedHasNoBreaks(s: Text)
    ensures NoBreaks(Escape(s))
    decreases |s|
  {
    if s != [] {
      EscapedHasNoBreaks(s[1..]);
      if StartsWithCrLf(s) {
        EscapedHasNoBreaks(s[2..]);
      }
    }
  }

  /** The byte stands in a text with no backslash in front of it. */
  predicate Unguarded(s: Text, b: Byte) {
    s != [] &&
    if s[0] == 92 && 2 <= |s| then Unguarded(s[2..], b) else s[0] == b || Unguarded(s[1..], b)
  }

  lemma GuardedByte(b: Byte, rest: Text, c: Byte)
    requires b != c && b != 92
    ensures Unguarded([b] + rest, c) <==> Unguarded(rest, c)
  {
    assert ([b] + rest)[1..] == rest;
  }

  lemma GuardedPair(b: Byte, rest: Text, c: Byte)
    ensures Unguarded([92, b] + rest, c) <==> Unguarded(rest, c)
  {
    assert ([92, b] + rest)[2..] == rest;
  }

  /** Semicolons, commas and line breaks, bytes 59, 44, 13 and 10, never stand in a value on their own. */
  lemma {:induction false} SeparatorsAreGuarded(s: Text, c: Byte)
    requires c in {59, 44, 13, 10}
    ensures !Unguarded(Escape(s), c)
    decreases |s|
  {
    if s == [] {
    } else if s[0] == 92 || s[0] == 59 || s[0] == 44 {
      SeparatorsAreGuarded(s[1..], c);
      GuardedPair(s[0], Escape(s[1..]), c);
    } else if StartsWithCrLf(s) {
      SeparatorsAreGuarded(s[2..], c);
      GuardedPair(SMALL_N, Escape(s[2..]), c);
    } else if s[0] == 10 || s[0] == 13 {
      SeparatorsAreGuarded(s[1..], c);
      GuardedPair(SMALL_N, Escape(s[1..]), c);
    } else {
      SeparatorsAreGuarded(s[1..], c);
      GuardedByte(s[0], Escape(s[1..]), c);
    }
  }

  /** What is written for a line break: a backslash and an "n", one pair for a CRLF. */
  lemma BreakBytes(rest: Text)
    ensures Escape([10] + rest) == [92, 110] + Escape(rest)
    ensures Escape([13, 10] + rest) == [92, 110] + Escape(rest)
    ensures (rest == [] || rest[0] != 10) ==> Escape([13] + rest) == [92, 110] + Escape(rest)
  {
    assert ([10] + rest)[1..] == rest && ([13, 10] + rest)[2..] == rest && ([13] + rest)[1..] == rest;
  }

  /** A list of values, as in CATEGORIES. */
  function Joined(values: seq<Text>): Text {
    if values == [] then []
    else if |values| == 1 then values[0]
    else values[0] + [COMMA] + Joined(values[1..])
  }

  /** The reader's side: commas that no backslash announces separate values. */
  function SplitValues(s: Text): (values: seq<Text>)
    ensures values != []
  {
    if s == [] then [[]]
    else if s[0] == COMMA then [[]] + SplitValues(s[1..])
    else if s[0] == BACKSLASH && 2 <= |s| then
      var rest := SplitValues(s[2..]);
      [s[..2] + rest[0]] + rest[1..]
    else
      var rest := SplitValues(s[1..]);
      [s[..1] + rest[0]] + rest[1..]
  }

  function Escaped(values: seq<Text>): (texts: seq<Text>)
    ensures |texts| == |values|
    ensures forall i: nat :: i < |values| ==> texts[i] == Escape(values[i])
  {
    seq(|values|, i requires 0 <= i < |values| => Escape(values[i]))
  }

  /** The reader takes all of u into the first of the values that follow. */
  predicate Kept(u: Text, rest: Text) {
    SplitValues(u + rest) == [u + SplitValues(rest)[0]] + SplitValues(rest)[1..]
  }

  lemma KeptPair(b: Byte, rest: Text)
    ensures Kept([BACKSLASH, b], rest)
  {
    var s := [BACKSLASH, b] + rest;
    assert s[2..] == rest && s[..2] == [BACKSLASH, b];
  }

  lemma KeptByte(b: Byte, rest: Text)
    requires b != BACKSLASH && b != COMMA
    ensures Kept([b], rest)
  {
    var s := [b] + rest;
    assert s[1..] == rest && s[..1] == [b];
  }

  lemma KeptTogether(u: Text, v: Text, rest: Text)
    requires Kept(u, v + rest) && Kept(v, rest)
    ensures Kept(u + v, rest)
  {
    assert (u + v) + rest == u + (v + rest);
    assert (u + v) + SplitValues(rest)[0] == u + (v + SplitValues(rest)[0]);
  }

  /** An escaped value never separates: the reader keeps it whole. */
  lemma {:induction false} EscapedIsKept(s: Text, rest: Text)
    ensures Kept(Escape(s), rest)
    decreases |s|
  {
    if s == [] {
      assert [] + rest == rest;
      assert [] + SplitValues(rest)[0] == SplitValues(rest)[0];
    } else if s[0] == BACKSLASH || s[0] == SEMICOLON || s[0] == COMMA {
      EscapedIsKept(s[1..], rest);
      KeptPair(s[0], Escape(s[1..]) + rest);
      KeptTogether([BACKSLASH, s[0]], Escape(s[1..]), rest);
    } else if StartsWithCrLf(s) {
      EscapedIsKept(s[2..], rest);
      KeptPair(SMALL_N, Escape(s[2..]) + rest);
      KeptTogether([BACKSLASH, SMALL_N], Escape(s[2..]), rest);
    } else if s[0] == LF || s[0] == CR {
      EscapedIsKept(s[1..], rest);
      KeptPair(SMALL_N, Escape(s[1..]) + rest);
      KeptTogether([BACKSLASH, SMALL_N], Escape(s[1..]), rest);
    } else {
      EscapedIsKept(s[1..], rest);
      KeptByte(s[0], Escape(s[1..]) + rest);
      KeptTogether([s[0]], Escape(s[1..]), rest);
    }
  }

  lemma SplitAfterValue(value: Text, rest: Text)
    ensures SplitValues(Escape(value) + ([COMMA] + rest)) == [Escape(value)] + SplitValues(rest)
  {
    var list := [COMMA] + rest;
    assert list[1..] == rest;
    assert SplitValues(list)[0] == [] && SplitValues(list)[1..] == SplitValues(rest);
    EscapedIsKept(value, list);
    assert Escape(value) + [] == Escape(value);
  }

  /** Splitting a list of escaped values gives each of them back. */
  lemma {:induction false} ListRoundTrip(values: seq<Text>)
    requires values != []
    ensures SplitValues(Joined(Escaped(values))) == Escaped(values)
  {
    if |values| == 1 {
      EscapedIsKept(values[0], []);
      assert Escape(values[0]) + [] == Escape(values[0]);
    } else {
      ListRoundTrip(values[1..]);
      assert Escaped(values)[1..] == Escaped(values[1..]);
      SplitAfterValue(values[0], Joined(Escaped(values[1..])));
      assert Joined(Escaped(values)) == Escape(values[0]) + ([COMMA] + Joined(Escaped(values[1..])));
    }
  }

  // ---------- Folding ----------

  /** Go: utf8.RuneStart. */
  predicate IsStart(b: Byte) {
    !(0x80 <= b < 0xC0)
  }

  /** A continuation byte carries six bits behind 10. */
  lemma StartBytes(b: Byte)
    ensures IsStart(b) <==> b / 64 != 2
  {
  }

  function CharLength(lead: Byte): nat {
    if lead < 0x80 then 1
    else if 0xC2 <= lead < 0xE0 then 2
    else if 0xE0 <= lead < 0xF0 then 3
    else if 0xF0 <= lead < 0xF5 then 4
    else 0
  }

  predicate Continues(s: Text, from: nat, until: nat)
    requires until <= |s|
  {
    forall i: nat :: from <= i < until ==> !IsStart(s[i])
  }

  /** The structure of UTF-8: a lead byte and the continuation bytes it announces. */
  predicate Utf8(s: Text)
    decreases |s|
  {
    s == [] ||
    var n := CharLength(s[0]);
    0 < n <= |s| && Continues(s, 1, n) && Utf8(s[n..])
  }

  type CodePoint = c: int | 0 <= c < 0x110000

  /** A code point in UTF-8: the bits of the lead byte and of the continuation bytes. */
  function Encoded(c: CodePoint): Text {
    if c < 0x80 then [c]
    else if c < 0x800 then [0xC0 + c / 64, 0x80 + c % 64]
    else if c < 0x10000 then [0xE0 + c / 4096, 0x80 + c / 64 % 64, 0x80 + c % 64]
    else [0xF0 + c / 262144, 0x80 + c / 4096 % 64, 0x80 + c / 64 % 64, 0x80 + c % 64]
  }

  function EncodedText(text: seq<CodePoint>): Text {
    if text == [] then [] else Encoded(text[0]) + EncodedText(text[1..])
  }

  lemma CharacterIsWhole(c: CodePoint)
    ensures var s := Encoded(c); |s| == CharLength(s[0]) && Continues(s, 1, |s|)
  {
  }

  /** Every text of code points is valid when it is encoded. */
  lemma {:induction false} EncodedIsUtf8(text: seq<CodePoint>)
    ensures Utf8(EncodedText(text))
  {
    if text != [] {
      EncodedIsUtf8(text[1..]);
      CharacterIsWhole(text[0]);
      CharacterFirst(Encoded(text[0]), EncodedText(text[1..]));
    }
  }

  /** The last place up to `at` where a line may end, or 0. */
  function Cut(s: Text, at: nat): (cut: nat)
    requires at < |s|
    ensures cut <= at && (cut > 0 ==> IsStart(s[cut])) && Continues(s, cut + 1, at + 1)
  {
    if at == 0 || IsStart(s[at]) then at else Cut(s, at - 1)
  }

  /** Folding makes progress at every cut. */
  predicate Folds(s: Text, limit: nat)
    decreases |s|
  {
    |s| <= limit || (var cut := Cut(s, limit); cut > 0 && Folds(s[cut..], 74))
  }

  /** The pieces of a content line that end up on lines of their own. */
  function Pieces(s: Text, limit: nat): (pieces: seq<Text>)
    requires Folds(s, limit)
    ensures pieces != []
    decreases |s|
  {
    if |s| <= limit then [s]
    else
      var cut := Cut(s, limit);
      [s[..cut]] + Pieces(s[cut..], 74)
  }

  function Continued(pieces: seq<Text>): Text {
    if pieces == [] then [] else [CR, LF, SPACE] + pieces[0] + Continued(pieces[1..])
  }

  /** Continuation lines start with a space. */
  function Written(pieces: seq<Text>): Text
    requires pieces != []
  {
    pieces[0] + Continued(pieces[1..])
  }

  function Folded(s: Text): Text
    requires Folds(s, 75)
  {
    Written(Pieces(s, 75))
  }

  /** CR, LF and one space, bytes 13, 10 and 32, stand between pieces. */
  lemma WrittenStep(piece: Text, rest: seq<Text>)
    requires rest != []
    ensures Written([piece] + rest) == piece + [13, 10, 32] + Written(rest)
  {
    assert ([piece] + rest)[1..] == rest;
  }

  datatype Outcome = Wrote(text: Text) | NeverEnds

  /**
   * Go: fold. A cut at 0 writes nothing and leaves the rest as it is, so the loop of the source then never ends;
   * here it stops with that outcome.
   */
  method Fold(line: Text) returns (outcome: Outcome)
    ensures outcome == if Folds(line, 75) then Wrote(Folded(line)) else NeverEnds
  {
    if |line| <= 75 {
      return Wrote(line);
    }
    var b: Text := [];
    var s, limit := line, 75;
    while |s| > limit
      invariant 0 < limit <= 75
      invariant Folds(line, 75) <==> Folds(s, limit)
      invariant Folds(line, 75) ==> Folded(line) == b + Written(Pieces(s, limit))
      decreases |s|
    {
      var cut := limit;
      while cut > 0 && !IsStart(s[cut])
        invariant cut <= limit && Cut(s, cut) == Cut(s, limit)
      {
        cut := cut - 1;
      }
      if cut == 0 {
        return NeverEnds;
      }
      if Folds(line, 75) {
        WrittenStep(s[..cut], Pieces(s[cut..], 74));
      }
      b := b + s[..cut] + [CR, LF, SPACE];
      s, limit := s[cut..], 74;
    }
    return Wrote(b + s);
  }

  /** A start byte followed by so many continuation bytes that no line can hold them. */
  ghost predicate StuckAt(s: Text, p: nat) {
    p + 75 <= |s| && IsStart(s[p]) && Continues(s, p + 1, p + 75)
  }

  ghost predicate Stuck(s: Text, limit: nat) {
    || (limit < |s| && Continues(s, 1, limit + 1))
    || exists p: nat :: 1 <= p && StuckAt(s, p)
  }

  lemma StuckAfterCut(s: Text, limit: nat)
    requires 74 <= limit <= 75 && limit < |s| && Cut(s, limit) > 0
    ensures Stuck(s, limit) <==> Stuck(s[Cut(s, limit)..], 74)
  {
    var cut := Cut(s, limit);
    var rest := s[cut..];
    if Stuck(s, limit) {
      var p: nat :| 1 <= p && StuckAt(s, p);
      assert cut <= p;
      assert StuckAt(rest, p - cut);
    }
    if Stuck(rest, 74) {
      if 74 < |rest| && Continues(rest, 1, 75) {
        forall i: nat | cut + 1 <= i < cut + 75
          ensures !IsStart(s[i])
        {
          assert s[i] == rest[i - cut];
        }
        assert StuckAt(s, cut);
      } else {
        var p: nat :| 1 <= p && StuckAt(rest, p);
        forall i: nat | p + cut + 1 <= i < p + cut + 75
          ensures !IsStart(s[i])
        {
          assert s[i] == rest[i - cut];
        }
        assert StuckAt(s, p + cut);
      }
    }
  }

  lemma CutIsZero(s: Text, limit: nat)
    requires limit < |s|
    ensures Cut(s, limit) == 0 <==> Continues(s, 1, limit + 1)
  {
  }

  /**
   * Exactly when folding ends: no start byte is followed by 74 continuation bytes, and the second to 76th byte are
   * not all continuation bytes.
   */
  lemma {:induction false} FoldingEnds(s: Text, limit: nat)
    requires 74 <= limit <= 75
    ensures Folds(s, limit) <==> !Stuck(s, limit)
    decreases |s|
  {
    if limit < |s| {
      CutIsZero(s, limit);
      if Cut(s, limit) > 0 {
        StuckAfterCut(s, limit);
        FoldingEnds(s[Cut(s, limit)..], 74);
      }
    }
  }

  /** A line that never ends: a letter and then nothing but bytes 0x80. */
  lemma NeverEndsOn(n: nat)
    requires n >= 75
    ensures !Folds([65] + seq(n, _ => 0x80), 75)
  {
    var s: Text := [65] + seq(n, _ => 0x80);
    assert Continues(s, 1, 76);
    FoldingEnds(s, 75);
  }

  /** No character starts inside another one. */
  lemma CutIsBehindCharacter(s: Text, cut: nat)
    requires Utf8(s) && 0 < cut < |s| && IsStart(s[cut])
    ensures CharLength(s[0]) <= cut
  {
    assert Continues(s, 1, CharLength(s[0]));
  }

  lemma CharacterFirst(head: Text, tail: Text)
    requires head != [] && |head| == CharLength(head[0]) && Continues(head, 1, |head|) && Utf8(tail)
    ensures Utf8(head + tail)
  {
    var s := head + tail;
    assert s[|head|..] == tail;
    assert forall i: nat :: i < |head| ==> s[i] == head[i];
  }

  lemma FirstCharacter(s: Text)
    requires s != [] && Utf8(s)
    ensures var n := CharLength(s[0]); 0 < n <= |s| && Continues(s[..n], 1, n) && Utf8(s[n..])
  {
  }

  lemma CutBehindCharacter(s: Text, n: nat, cut: nat)
    requires 0 < n <= cut < |s| && n == CharLength(s[0]) && Continues(s[..n], 1, n) && Utf8(s[n..cut])
    ensures Utf8(s[..cut])
  {
    CharacterFirst(s[..n], s[n..cut]);
    assert s[..cut] == s[..n] + s[n..cut];
  }

  lemma CutBehind(s: Text, n: nat, cut: nat)
    requires n <= cut < |s|
    ensures s[n..][..cut - n] == s[n..cut] && s[n..][cut - n..] == s[cut..] && s[n..][cut - n] == s[cut]
  {
  }

  lemma {:induction false} CutKeepsUtf8(s: Text, cut: nat)
    requires Utf8(s) && cut < |s| && IsStart(s[cut])
    ensures Utf8(s[..cut]) && Utf8(s[cut..])
    decreases |s|
  {
    if cut == 0 {
      assert s[cut..] == s;
    } else {
      var n := CharLength(s[0]);
      FirstCharacter(s);
      CutIsBehindCharacter(s, cut);
      CutBehind(s, n, cut);
      CutKeepsUtf8(s[n..], cut - n);
      CutBehindCharacter(s, n, cut);
    }
  }

  lemma Utf8Advances(s: Text, limit: nat)
    requires Utf8(s) && 4 <= limit < |s|
    ensures Cut(s, limit) > 0
  {
    var n := CharLength(s[0]);
    assert IsStart(s[n]) by {
      assert s[n] == s[n..][0];
    }
  }

  ghost predicate GoodPiece(piece: Text, limit: nat) {
    |piece| <= limit && Utf8(piece)
  }

  function Concatenated(pieces: seq<Text>): Text {
    if pieces == [] then [] else pieces[0] + Concatenated(pieces[1..])
  }

  /** Valid UTF-8 always folds, into pieces that fit and cut no character. */
  lemma {:induction false} Utf8Folds(s: Text, limit: nat)
    requires Utf8(s) && 74 <= limit
    ensures Folds(s, limit)
    ensures GoodPiece(Pieces(s, limit)[0], limit)
    ensures forall i: nat :: 1 <= i < |Pieces(s, limit)| ==> GoodPiece(Pieces(s, limit)[i], 74)
    decreases |s|
  {
    if limit < |s| {
      Utf8Advances(s, limit);
      var cut := Cut(s, limit);
      CutKeepsUtf8(s, cut);
      Utf8Folds(s[cut..], 74);
    }
  }

  lemma {:induction false} PiecesAreTheLine(s: Text, limit: nat)
    requires Folds(s, limit)
    ensures Concatenated(Pieces(s, limit)) == s
    decreases |s|
  {
    if limit < |s| {
      var cut := Cut(s, limit);
      PiecesAreTheLine(s[cut..], 74);
      assert Pieces(s, limit)[1..] == Pieces(s[cut..], 74);
    } else {
      assert [s][1..] == [];
    }
  }

  lemma {:induction false} PiecesHaveNoBreaks(s: Text, limit: nat)
    requires Folds(s, limit) && NoBreaks(s)
    ensures forall i: nat :: i < |Pieces(s, limit)| ==> NoBreaks(Pieces(s, limit)[i])
    decreases |s|
  {
    if limit < |s| {
      PiecesHaveNoBreaks(s[Cut(s, limit)..], 74);
    }
  }
}
