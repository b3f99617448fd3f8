/**
 * Amounts in German words (server/internal/donation/donation.go), and a reader that gets every amount back: no two
 * amounts on donation receipts are spelled alike.
 */
module Words {

  function Ones(n: nat): string
    requires n < 20
  {
    if n == 0 then "" else if n == 1 then "ein" else if n == 2 then "zwei" else if n == 3 then "drei"
    else if n == 4 then "vier" else if n == 5 then "fünf" else if n == 6 then "sechs"
    else if n == 7 then "sieben" else if n == 8 then "acht" else if n == 9 then "neun"
    else if n == 10 then "zehn" else if n == 11 then "elf" else if n == 12 then "zwölf"
    else if n == 13 then "dreizehn" else if n == 14 then "vierzehn" else if n == 15 then "fünfzehn"
    else if n == 16 then "sechzehn" else if n == 17 then "siebzehn" else if n == 18 then "achtzehn"
    else "neunzehn"
  }

  function Tens(n: nat): string
    requires n < 10
  {
    if n < 2 then "" else if n == 2 then "zwanzig" else if n == 3 then "dreißig" else if n == 4 then "vierzig"
    else if n == 5 then "fünfzig" else if n == 6 then "sechzig" else if n == 7 then "siebzig"
    else if n == 8 then "achtzig" else "neunzig"
  }

  function Below100(n: nat): string
    requires n < 100
  {
    if n == 0 then ""
    else if n < 20 then Ones(n)
    else if n % 10 == 0 then Tens(n / 10)
    else Ones(n % 10) + "und" + Tens(n / 10)
  }

  function Hundreds(h: nat, n: nat): string
    requires h < 10 && n < 100
  {
    Ones(h) + ("hundert" + Below100(n))
  }

  /** Go: below1000. A trailing one stays "ein". */
  function Below1000(n: nat): string
    requires n < 1000
  {
    if n >= 100 then Hundreds(n / 100, n % 100) else Below100(n)
  }

  /** The last part of a word, with the "s" of a final one. */
  function Small(n: nat): string
    requires n < 1000
  {
    if n > 0 then Below1000(n) + (if n % 100 == 1 then "s" else "") else ""
  }

  /** The part of a number below a million, one word. */
  function Word(n: nat): string
    requires n < 1_000_000
  {
    if n >= 1000 then Below1000(n / 1000) + ("tausend" + Small(n % 1000)) else Small(n)
  }

  function Millions(m: nat): string
    decreases m, 1
  {
    if m == 1 then "eine Million" else Spelled(m) + " Millionen"
  }

  /** Go: Words. */
  function Spelled(n: nat): string
    decreases n, 0
  {
    if n == 0 then "null"
    else if n < 1_000_000 then Word(n)
    else if n % 1_000_000 == 0 then Millions(n / 1_000_000)
    else Millions(n / 1_000_000) + " " + Word(n % 1_000_000)
  }

  function EuroWords(euros: nat): string {
    if euros == 1 then "ein" else Spelled(euros)
  }

  function CentWords(cents: nat): string {
    if cents == 1 then "ein" else Spelled(cents)
  }

  /** Go: AmountWords. */
  function AmountWords(cents: nat): string {
    if cents % 100 > 0 then EuroWords(cents / 100) + " Euro" + (" und " + CentWords(cents % 100) + " Cent")
    else EuroWords(cents / 100) + " Euro"
  }

  // ---------- The reader ----------

  function At(s: string, i: nat): char {
    if i < |s| then s[i] else '.'
  }

  function From(s: string, i: nat): string {
    if i <= |s| then s[i..] else ""
  }

  /** The number word a text starts with, told by a few of its letters: its value and its length. */
  function Read(s: string): (nat, nat) {
    var teen, ty := At(s, 4) == 'z' && At(s, 5) == 'e', At(s, 4) == 'z' && At(s, 5) == 'i';
    match At(s, 0)
    case 'e' => if At(s, 1) == 'i' then (1, 3) else (11, 3)
    case 'z' =>
      if At(s, 1) == 'e' then (10, 4)
      else if At(s, 2) == 'e' then (2, 4)
      else if At(s, 2) == 'a' then (20, 7)
      else (12, 5)
    case 'd' => if At(s, 4) == 'z' then (13, 8) else if At(s, 4) == 'ß' then (30, 7) else (3, 4)
    case 'v' => if teen then (14, 8) else if ty then (40, 7) else (4, 4)
    case 'f' => if teen then (15, 8) else if ty then (50, 7) else (5, 4)
    case 's' =>
      if At(s, 1) == 'e' then (if teen then (16, 8) else if ty then (60, 7) else (6, 5))
      else (if teen then (17, 8) else if ty then (70, 7) else (7, 6))
    case 'a' => if teen then (18, 8) else if ty then (80, 7) else (8, 4)
    case _ => if teen then (19, 8) else if ty then (90, 7) else (9, 4)
  }

  function ReadBelow100(s: string): (nat, string) {
    var (v, n) := Read(s);
    var rest := From(s, n);
    if At(rest, 0) == 'u' then
      var (w, m) := Read(From(rest, 3));
      (w + v, From(From(rest, 3), m))
    else (v, rest)
  }

  function ReadBelow1000(s: string): (nat, string) {
    var (v, n) := Read(s);
    if At(s, n) == 'h' then
      var rest := From(s, n + 7);
      if rest == "" || rest[0] == 't' then (100 * v, rest)
      else
        var (w, last) := ReadBelow100(rest);
        (100 * v + w, last)
    else ReadBelow100(s)
  }

  function ReadWord(s: string): nat {
    var (v, rest) := ReadBelow1000(s);
    if At(rest, 0) == 't' then
      1000 * v + if |rest| <= 7 then 0 else ReadBelow1000(From(rest, 7)).0
    else v
  }

  /** What may follow a number word. */
  predicate Stops(rest: string) {
    rest == "" || rest[0] == 'h' || rest[0] == 'u' || rest[0] == 't' || rest[0] == 's'
  }

  predicate OneWord(s: string) {
    forall i: nat :: i < |s| ==> s[i] != ' '
  }

  /** How number words start, and neither "tausend" nor "Million" nor "null". */
  predicate StartsNumber(s: string) {
    2 <= |s| && s[0] != 't' && s[0] != 'M' && s[1] != 'u'
  }

  lemma ReadOnes(n: nat, rest: string)
    requires 0 < n < 20 && Stops(rest)
    ensures Read(Ones(n) + rest) == (n, |Ones(n)|)
  {
  }

  lemma OnesStart(n: nat)
    requires 0 < n < 20
    ensures StartsNumber(Ones(n)) && OneWord(Ones(n))
  {
  }

  lemma ReadTens(n: nat, rest: string)
    requires 2 <= n < 10 && Stops(rest)
    ensures Read(Tens(n) + rest) == (10 * n, 7) && |Tens(n)| == 7
  {
  }

  lemma TensStart(n: nat)
    requires 2 <= n < 10
    ensures StartsNumber(Tens(n)) && OneWord(Tens(n))
  {
  }

  /** What may follow a part below a thousand. */
  predicate Ends(rest: string) {
    rest == "" || rest[0] == 't' || rest[0] == 's'
  }

  lemma Behind(a: string, b: string)
    ensures From(a + b, |a|) == b && At(a + b, |a|) == At(b, 0)
  {
  }

  /** A number word on its own. */
  lemma ReadSingle(word: string, v: nat, rest: string)
    requires Read(word + rest) == (v, |word|) && Ends(rest)
    ensures ReadBelow100(word + rest) == (v, rest) && ReadBelow1000(word + rest) == (v, rest)
  {
    Behind(word, rest);
  }

  /** Two number words joined by "und". */
  lemma ReadJoined(word: string, v: nat, tail: string, w: nat, m: nat)
    requires Read(word + ("und" + tail)) == (v, |word|) && Read(tail) == (w, m)
    ensures ReadBelow100(word + ("und" + tail)) == (w + v, From(tail, m))
    ensures ReadBelow1000(word + ("und" + tail)) == (w + v, From(tail, m))
  {
    Behind(word, "und" + tail);
    Behind("und", tail);
  }

  lemma ReadJoinedBack(n: nat, rest: string)
    requires 20 < n < 100 && n % 10 > 0 && Ends(rest)
    ensures ReadBelow100(Ones(n % 10) + ("und" + (Tens(n / 10) + rest))) == (n, rest)
    ensures ReadBelow1000(Ones(n % 10) + ("und" + (Tens(n / 10) + rest))) == (n, rest)
  {
    var word, tail := Ones(n % 10), Tens(n / 10) + rest;
    ReadOnes(n % 10, "und" + tail);
    ReadTens(n / 10, rest);
    Behind(Tens(n / 10), rest);
    ReadJoined(word, n % 10, tail, 10 * (n / 10), 7);
  }

  lemma JoinedText(n: nat, rest: string)
    requires 20 < n < 100 && n % 10 > 0
    ensures Below100(n) + rest == Ones(n % 10) + ("und" + (Tens(n / 10) + rest))
  {
  }

  /** The reader takes n off the front. */
  predicate ReadsAs(s: string, n: nat, rest: string) {
    ReadBelow100(s) == (n, rest) && ReadBelow1000(s) == (n, rest)
  }

  lemma SmallNumberBack(n: nat, rest: string)
    requires 0 < n < 20 && Ends(rest)
    ensures ReadsAs(Ones(n) + rest, n, rest)
  {
    ReadOnes(n, rest);
    ReadSingle(Ones(n), n, rest);
  }

  lemma RoundNumberBack(n: nat, rest: string)
    requires 20 <= n < 100 && n % 10 == 0 && Ends(rest)
    ensures ReadsAs(Tens(n / 10) + rest, n, rest)
  {
    ReadTens(n / 10, rest);
    ReadSingle(Tens(n / 10), n, rest);
  }

  lemma JoinedNumberBack(n: nat, rest: string)
    requires 20 < n < 100 && n % 10 > 0 && Ends(rest)
    ensures ReadsAs(Below100(n) + rest, n, rest)
  {
    ReadJoinedBack(n, rest);
    JoinedText(n, rest);
  }

  lemma ReadBelow100Back(n: nat, rest: string)
    requires 0 < n < 100 && Ends(rest)
    ensures ReadsAs(Below100(n) + rest, n, rest)
  {
    if n < 20 {
      SmallNumberBack(n, rest);
    } else if n % 10 == 0 {
      RoundNumberBack(n, rest);
    } else {
      JoinedNumberBack(n, rest);
    }
  }

  lemma StartsLonger(word: string, more: string)
    requires StartsNumber(word) && OneWord(word) && OneWord(more)
    ensures StartsNumber(word + more) && OneWord(word + more)
  {
  }

  lemma Below100Starts(n: nat)
    requires 0 < n < 100
    ensures StartsNumber(Below100(n)) && OneWord(Below100(n))
  {
    if n < 20 {
      OnesStart(n);
    } else if n % 10 == 0 {
      TensStart(n / 10);
    } else {
      OnesStart(n % 10);
      TensStart(n / 10);
      StartsLonger(Ones(n % 10), "und");
      StartsLonger(Ones(n % 10) + "und", Tens(n / 10));
    }
  }

  lemma HundredsBehind(word: string, tail: string)
    ensures At(word + ("hundert" + tail), |word|) == 'h' && From(word + ("hundert" + tail), |word| + 7) == tail
  {
    Behind(word, "hundert" + tail);
    assert word + ("hundert" + tail) == (word + "hundert") + tail;
    Behind(word + "hundert", tail);
  }

  lemma ReadFullHundreds(h: nat, rest: string)
    requires 0 < h < 10 && (rest == "" || rest[0] == 't')
    ensures ReadBelow1000(Ones(h) + ("hundert" + rest)) == (100 * h, rest)
  {
    ReadOnes(h, "hundert" + rest);
    HundredsBehind(Ones(h), rest);
  }

  /** More follows the hundreds: w, and then `rest`. */
  lemma ReadHundredsAndMore(word: string, v: nat, tail: string, w: nat, rest: string)
    requires Read(word + ("hundert" + tail)) == (v, |word|)
    requires tail != "" && tail[0] != 't' && ReadBelow100(tail) == (w, rest)
    ensures ReadBelow1000(word + ("hundert" + tail)) == (100 * v + w, rest)
  {
    HundredsBehind(word, tail);
  }

  lemma ReadHundredsBack(h: nat, n: nat, rest: string)
    requires 0 < h < 10 && n < 100 && Ends(rest)
    requires rest != "" && rest[0] == 's' ==> n == 1
    ensures ReadBelow1000(Ones(h) + ("hundert" + (Below100(n) + rest))) == (100 * h + n, rest)
  {
    if n > 0 {
      var tail := Below100(n) + rest;
      Below100Starts(n);
      ReadBelow100Back(n, rest);
      ReadOnes(h, "hundert" + tail);
      ReadHundredsAndMore(Ones(h), h, tail, n, rest);
    } else {
      assert Below100(0) + rest == rest;
      ReadFullHundreds(h, rest);
    }
  }

  lemma HundredsText(h: nat, n: nat, rest: string)
    requires h < 10 && n < 100
    ensures Hundreds(h, n) + rest == Ones(h) + ("hundert" + (Below100(n) + rest)) && Hundreds(h, n) != ""
  {
    var head, tail := Ones(h), Below100(n);
    assert head + ("hundert" + tail) + rest == head + ("hundert" + (tail + rest));
  }

  lemma HundredsBack(h: nat, n: nat, rest: string)
    requires 0 < h < 10 && n < 100 && Ends(rest)
    requires rest != "" && rest[0] == 's' ==> n == 1
    ensures ReadBelow1000(Hundreds(h, n) + rest) == (100 * h + n, rest) && Hundreds(h, n) != ""
  {
    ReadHundredsBack(h, n, rest);
    HundredsText(h, n, rest);
  }

  lemma ReadWithoutHundredsBack(n: nat, rest: string)
    requires 0 < n < 100 && Ends(rest)
    ensures ReadBelow1000(Below1000(n) + rest) == (n, rest) && Below1000(n) != ""
  {
    ReadBelow100Back(n, rest);
    Below100Starts(n);
  }

  lemma ReadWithHundredsBack(n: nat, rest: string)
    requires 100 <= n < 1000 && Ends(rest)
    requires rest != "" && rest[0] == 's' ==> n % 100 == 1
    ensures ReadBelow1000(Hundreds(n / 100, n % 100) + rest) == (n, rest) && Hundreds(n / 100, n % 100) != ""
  {
    HundredsBack(n / 100, n % 100, rest);
  }

  lemma ReadBelow1000Back(n: nat, rest: string)
    requires 0 < n < 1000 && Ends(rest)
    requires rest != "" && rest[0] == 's' ==> n % 100 == 1
    ensures ReadBelow1000(Below1000(n) + rest) == (n, rest) && Below1000(n) != ""
  {
    if n < 100 {
      ReadWithoutHundredsBack(n, rest);
    } else {
      ReadWithHundredsBack(n, rest);
    }
  }

  lemma ReadThousands(s: string, v: nat, small: string)
    requires ReadBelow1000(s) == (v, "tausend" + small)
    ensures ReadWord(s) == 1000 * v + if small == "" then 0 else ReadBelow1000(small).0
  {
    Behind("tausend", small);
  }

  lemma ReadSmallBack(n: nat)
    requires 0 < n < 1000
    ensures ReadBelow1000(Small(n)) == (n, if n % 100 == 1 then "s" else "") && Small(n) != ""
  {
    ReadBelow1000Back(n, if n % 100 == 1 then "s" else "");
  }

  lemma ReadWithoutThousands(s: string, v: nat, rest: string)
    requires ReadBelow1000(s) == (v, rest) && At(rest, 0) != 't'
    ensures ReadWord(s) == v
  {
  }

  lemma ReadSmallWordBack(n: nat)
    requires 0 < n < 1000
    ensures ReadWord(Small(n)) == n && Small(n) != ""
  {
    ReadSmallBack(n);
    ReadWithoutThousands(Small(n), n, if n % 100 == 1 then "s" else "");
  }

  lemma ReadThousandsBack(t: nat, n: nat)
    requires 0 < t < 1000 && n < 1000
    ensures ReadWord(Below1000(t) + ("tausend" + Small(n))) == 1000 * t + n
  {
    var small := Small(n);
    ReadBelow1000Back(t, "tausend" + small);
    ReadThousands(Below1000(t) + ("tausend" + small), t, small);
    if n > 0 {
      ReadSmallBack(n);
    }
  }

  lemma ReadWordBack(n: nat)
    requires 0 < n < 1_000_000
    ensures ReadWord(Word(n)) == n && Word(n) != ""
  {
    if n >= 1000 {
      ReadThousandsBack(n / 1000, n % 1000);
      assert |Word(n)| >= 7;
    } else {
      ReadSmallWordBack(n);
    }
  }

  lemma Below1000Starts(n: nat)
    requires 0 < n < 1000
    ensures StartsNumber(Below1000(n)) && OneWord(Below1000(n))
  {
    if n % 100 > 0 {
      Below100Starts(n % 100);
    }
    if n >= 100 {
      OnesStart(n / 100);
      StartsLonger(Ones(n / 100), "hundert");
      StartsLonger(Ones(n / 100) + "hundert", Below100(n % 100));
    }
  }

  lemma SmallStarts(n: nat)
    requires 0 < n < 1000
    ensures StartsNumber(Small(n)) && OneWord(Small(n))
  {
    Below1000Starts(n);
    StartsLonger(Below1000(n), if n % 100 == 1 then "s" else "");
  }

  lemma ThousandIsOneWord(small: string)
    requires OneWord(small)
    ensures OneWord("tausend" + small)
  {
  }

  lemma ThousandsStart(t: nat, small: string)
    requires 0 < t < 1000 && OneWord(small)
    ensures StartsNumber(Below1000(t) + ("tausend" + small)) && OneWord(Below1000(t) + ("tausend" + small))
  {
    Below1000Starts(t);
    ThousandIsOneWord(small);
    StartsLonger(Below1000(t), "tausend" + small);
  }

  lemma SmallIsOneWord(n: nat)
    requires n < 1000
    ensures OneWord(Small(n))
  {
    if n > 0 {
      SmallStarts(n);
    }
  }

  lemma WordStarts(n: nat)
    requires 0 < n < 1_000_000
    ensures StartsNumber(Word(n)) && OneWord(Word(n))
  {
    if n < 1000 {
      SmallStarts(n);
    } else {
      SmallIsOneWord(n % 1000);
      ThousandsStart(n / 1000, Small(n % 1000));
    }
  }

  // ---------- Several words ----------

  function Last(s: string): (word: string)
    ensures |word| <= |s|
  {
    if s == "" || s[|s| - 1] == ' ' then "" else Last(s[..|s| - 1]) + [s[|s| - 1]]
  }

  function Before(s: string): (words: string)
    ensures |words| < |s| || s == words == ""
  {
    if s == "" then "" else if s[|s| - 1] == ' ' then s[..|s| - 1] else Before(s[..|s| - 1])
  }

  function ReadSpelled(s: string): nat
    decreases |s|
  {
    if s == "" then 0
    else
      var word := Last(s);
      if At(word, 0) == 'M' then 1_000_000 * if |word| == 7 then 1 else ReadSpelled(Before(s))
      else if At(word, 1) == 'u' then 0
      else ReadSpelled(Before(s)) + ReadWord(word)
  }

  function ReadAmount(s: string): nat {
    var first := Before(s);
    if At(Last(s), 0) == 'C' then 100 * ReadSpelled(Before(Before(Before(first)))) + ReadWord(Last(first))
    else 100 * ReadSpelled(first)
  }

  lemma {:induction false} LastOf(words: string, word: string)
    requires OneWord(word)
    ensures Last(words + " " + word) == word && Before(words + " " + word) == words
  {
    var s := words + " " + word;
    if word == "" {
      assert s[..|s| - 1] == words;
    } else {
      LastOf(words, word[..|word| - 1]);
      assert s[..|s| - 1] == words + " " + word[..|word| - 1];
    }
  }

  lemma {:induction false} LastAlone(word: string)
    requires OneWord(word)
    ensures Last(word) == word && Before(word) == ""
  {
    if word != "" {
      LastAlone(word[..|word| - 1]);
    }
  }

  lemma ReadOneWord(word: string)
    requires OneWord(word) && StartsNumber(word)
    ensures ReadSpelled(word) == ReadWord(word)
  {
    LastAlone(word);
  }

  lemma ReadLastWord(words: string, word: string)
    requires OneWord(word) && StartsNumber(word)
    ensures ReadSpelled(words + " " + word) == ReadSpelled(words) + ReadWord(word)
  {
    LastOf(words, word);
  }

  lemma ReadMillions(words: string)
    ensures ReadSpelled(words + " Millionen") == 1_000_000 * ReadSpelled(words)
    ensures ReadSpelled("eine Million") == 1_000_000
  {
    assert words + " Millionen" == words + " " + "Millionen";
    LastOf(words, "Millionen");
    assert "eine Million" == "eine" + " " + "Million";
    LastOf("eine", "Million");
  }

  lemma ReadNull()
    ensures ReadSpelled("null") == 0
  {
    LastAlone("null");
  }

  lemma WordBack(n: nat)
    requires 0 < n < 1_000_000
    ensures ReadSpelled(Word(n)) == n && ReadWord(Word(n)) == n && OneWord(Word(n)) && StartsNumber(Word(n))
  {
    WordStarts(n);
    ReadOneWord(Word(n));
    ReadWordBack(n);
  }

  /** Reading a spelled number gives the number back, whatever its size. */
  lemma {:induction false} SpelledRoundTrip(n: nat)
    ensures ReadSpelled(Spelled(n)) == n
  {
    if n == 0 {
      ReadNull();
    } else if n < 1_000_000 {
      WordBack(n);
    } else {
      var m, r := n / 1_000_000, n % 1_000_000;
      SpelledRoundTrip(m);
      ReadMillions(Spelled(m));
      if r > 0 {
        WordBack(r);
        ReadLastWord(Millions(m), Word(r));
      }
    }
  }

  lemma ReadEuros(words: string)
    ensures ReadAmount(words + " Euro") == 100 * ReadSpelled(words)
  {
    assert words + " Euro" == words + " " + "Euro";
    LastOf(words, "Euro");
  }

  lemma FiveWords(words: string, cent: string)
    ensures words + " Euro" + (" und " + cent + " Cent")
         == words + " " + "Euro" + " " + "und" + " " + cent + " " + "Cent"
  {
    var euro, and, cents := words + " Euro", " und ", cent + " Cent";
    assert euro == words + " " + "Euro" && and == " " + "und" + " " && cents == cent + (" " + "Cent");
    assert " und " + cent + " Cent" == and + cents;
    assert euro + (and + cents) == euro + and + cents;
  }

  lemma ReadEurosAndCents(words: string, cent: string)
    requires OneWord(cent)
    ensures ReadAmount(words + " Euro" + (" und " + cent + " Cent")) == 100 * ReadSpelled(words) + ReadWord(cent)
  {
    var euros := words + " " + "Euro";
    var joint := euros + " " + "und";
    var first := joint + " " + cent;
    FiveWords(words, cent);
    LastOf(first, "Cent");
    LastOf(joint, cent);
    LastOf(euros, "und");
    LastOf(words, "Euro");
  }

  lemma ReadOne()
    ensures OneWord("ein") && ReadSpelled("ein") == 1 && ReadWord("ein") == 1
  {
    ReadOneWord("ein");
  }

  lemma EuroWordsBack(euros: nat)
    ensures ReadSpelled(EuroWords(euros)) == euros
  {
    ReadOne();
    SpelledRoundTrip(euros);
  }

  lemma CentWordsBack(cents: nat)
    requires 0 < cents < 100
    ensures OneWord(CentWords(cents)) && ReadWord(CentWords(cents)) == cents
  {
    ReadOne();
    WordBack(cents);
  }

  /** Reading a spelled amount gives the amount back. */
  lemma AmountRoundTrip(cents: nat)
    ensures ReadAmount(AmountWords(cents)) == cents
  {
    EuroWordsBack(cents / 100);
    if cents % 100 > 0 {
      CentWordsBack(cents % 100);
      ReadEurosAndCents(EuroWords(cents / 100), CentWords(cents % 100));
    } else {
      ReadEuros(EuroWords(cents / 100));
    }
  }

  /** The words on a receipt name one amount only. */
  lemma WordsNameOneAmount(a: nat, b: nat)
    requires AmountWords(a) == AmountWords(b)
    ensures a == b
  {
    AmountRoundTrip(a);
    AmountRoundTrip(b);
  }

  // ---------- The German words ----------

  lemma OnesAreGerman()
    ensures Spelled(0) == "null" && Spelled(1) == "eins" && Spelled(2) == "zwei" && Spelled(3) == "drei"
    ensures Spelled(4) == "vier" && Spelled(5) == "fünf" && Spelled(6) == "sechs" && Spelled(7) == "sieben"
    ensures Spelled(8) == "acht" && Spelled(9) == "neun" && Spelled(10) == "zehn" && Spelled(11) == "elf"
    ensures Spelled(12) == "zwölf" && Spelled(13) == "dreizehn" && Spelled(14) == "vierzehn"
    ensures Spelled(15) == "fünfzehn" && Spelled(16) == "sechzehn" && Spelled(17) == "siebzehn"
    ensures Spelled(18) == "achtzehn" && Spelled(19) == "neunzehn"
  {
  }

  lemma TensAreGerman()
    ensures Spelled(20) == "zwanzig" && Spelled(30) == "dreißig" && Spelled(40) == "vierzig"
    ensures Spelled(50) == "fünfzig" && Spelled(60) == "sechzig" && Spelled(70) == "siebzig"
    ensures Spelled(80) == "achtzig" && Spelled(90) == "neunzig"
  {
  }

  /** A number in front of another word: a final "eins" loses its "s". */
  function InFront(n: nat): string
    requires n > 0
  {
    var word := Spelled(n);
    if n % 100 == 1 && word != "" then word[..|word| - 1] else word
  }

  function AndMore(n: nat): string {
    if n == 0 then "" else Spelled(n)
  }

  lemma SmallIsSpelled(n: nat)
    requires n < 1000
    ensures AndMore(n) == Small(n)
    ensures n > 0 ==> InFront(n) == Below1000(n) && (n % 100 != 1 ==> Spelled(n) == Below1000(n))
  {
    if n > 0 {
      assert Spelled(n) == Word(n) == Small(n);
      assert Below1000(n) + "" == Below1000(n);
      assert n % 100 == 1 ==> (Below1000(n) + "s")[..|Below1000(n)|] == Below1000(n);
    }
  }

  lemma TensAndOnesBelow100(k: nat, tens: nat, ones: nat)
    requires 2 <= tens < 10 && 0 < ones < 10 && k == 10 * tens + ones
    ensures Below1000(k) == Ones(ones) + "und" + Tens(tens) && Below1000(k - ones) == Tens(tens)
    ensures Below1000(ones) == Ones(ones)
  {
    assert k % 10 == ones && k / 10 == tens && (k - ones) / 10 == tens && (k - ones) % 10 == 0;
  }

  lemma SpelledBelow100(n: nat)
    requires 1 < n < 100
    ensures Spelled(n) == Below1000(n)
  {
    SmallIsSpelled(n);
  }

  /** Ones come before tens: "einundzwanzig". */
  lemma TensAndOnes(k: nat, tens: nat, ones: nat)
    requires 2 <= tens < 10 && 0 < ones < 10 && k == 10 * tens + ones
    ensures Spelled(k) == InFront(ones) + "und" + Spelled(k - ones)
  {
    TensAndOnesBelow100(k, tens, ones);
    SmallIsSpelled(ones);
    SpelledBelow100(k - ones);
    SpelledBelow100(k);
  }

  lemma HundredsAndMore(k: nat, h: nat, n: nat)
    requires 0 < h < 10 && n < 100 && k == 100 * h + n
    ensures Spelled(k) == InFront(h) + "hundert" + AndMore(n)
  {
    assert k / 100 == h && k % 100 == n;
    SmallIsSpelled(h);
    SmallIsSpelled(n);
    assert Spelled(k) == Word(k) == Small(k);
    HundredsEnd(h, n);
  }

  lemma HundredsEnd(h: nat, n: nat)
    requires 0 < h < 10 && n < 100
    ensures Hundreds(h, n) + (if n == 1 then "s" else "") == Below1000(h) + "hundert" + Small(n)
  {
    assert Below100(n) + (if n == 1 then "s" else "") == Small(n);
    assert Ones(h) + ("hundert" + Below100(n)) + (if n == 1 then "s" else "") ==
           Ones(h) + "hundert" + (Below100(n) + (if n == 1 then "s" else ""));
  }

  lemma ThousandsText(k: nat, t: nat, n: nat)
    requires 0 < t < 1000 && n < 1000 && k == 1000 * t + n
    ensures Spelled(k) == Below1000(t) + ("tausend" + Small(n))
  {
    assert k / 1000 == t && k % 1000 == n;
  }

  lemma Regroup(a: string, b: string, c: string)
    ensures a + (b + c) == a + b + c
  {
  }

  lemma ThousandsAndMore(k: nat, t: nat, n: nat)
    requires 0 < t < 1000 && n < 1000 && k == 1000 * t + n
    ensures Spelled(k) == InFront(t) + "tausend" + AndMore(n)
  {
    SmallIsSpelled(t);
    SmallIsSpelled(n);
    ThousandsText(k, t, n);
    Regroup(Below1000(t), "tausend", Small(n));
  }

  /** Millions are words of their own, and a single one is "eine Million". */
  lemma MillionsAndMore(m: nat, n: nat)
    requires 0 < m && n < 1_000_000
    ensures Spelled(1_000_000 * m + n) ==
      (if m == 1 then "eine Million" else Spelled(m) + " Millionen") + (if n == 0 then "" else " " + Spelled(n))
  {
    var k := 1_000_000 * m + n;
    assert k / 1_000_000 == m && k % 1_000_000 == n;
    if n == 0 {
      assert Millions(m) + "" == Millions(m);
    } else {
      assert Millions(m) + " " + Word(n) == Millions(m) + (" " + Word(n));
    }
  }

  /** Cents are named only when there are any, and one of either is "ein". */
  lemma AmountsAreGerman(euros: nat, cents: nat)
    requires cents < 100
    ensures AmountWords(100 * euros + cents) ==
      (if euros == 1 then "ein" else Spelled(euros)) + " Euro" +
      (if cents == 0 then "" else " und " + (if cents == 1 then "ein" else Spelled(cents)) + " Cent")
  {
    var k := 100 * euros + cents;
    assert k / 100 == euros && k % 100 == cents;
    if cents == 0 {
      assert EuroWords(euros) + " Euro" + "" == EuroWords(euros) + " Euro";
    }
  }
}
