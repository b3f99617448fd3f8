/** IBANs and creditor identifiers: the checks of the backend and of the form in the browser. */
module Iban {

  import opened Mod97

  /** ^[A-Z]{2}[0-9]{2}[A-Z0-9]{11,30}$ */
  predicate IbanFormat(iban: string) {
    && 15 <= |iban| <= 34
    && IsCapital(iban[0]) && IsCapital(iban[1]) && IsDigit(iban[2]) && IsDigit(iban[3])
    && Allowed(iban[4..])
  }

  /** The lengths of the SWIFT IBAN registry, by country. */
  const IBAN_LENGTHS: map<string, nat> := map[
    "AD" := 24, "AE" := 23, "AL" := 28, "AT" := 20, "AZ" := 28, "BA" := 20, "BE" := 16, "BG" := 22,
    "BH" := 22, "BI" := 27, "BR" := 29, "BY" := 28, "CH" := 21, "CR" := 22, "CY" := 28, "CZ" := 24,
    "DE" := 22, "DJ" := 27, "DK" := 18, "DO" := 28, "EE" := 20, "EG" := 29, "ES" := 24, "FI" := 18,
    "FK" := 18, "FO" := 18, "FR" := 27, "GB" := 22, "GE" := 22, "GI" := 23, "GL" := 18, "GR" := 27,
    "GT" := 28, "HR" := 21, "HU" := 28, "IE" := 22, "IL" := 23, "IQ" := 23, "IS" := 26, "IT" := 27,
    "JO" := 30, "KW" := 30, "KZ" := 20, "LB" := 28, "LC" := 32, "LI" := 21, "LT" := 20, "LU" := 20,
    "LV" := 21, "LY" := 25, "MC" := 27, "MD" := 24, "ME" := 22, "MK" := 19, "MN" := 20, "MR" := 27,
    "MT" := 31, "MU" := 30, "NI" := 28, "NL" := 18, "NO" := 15, "OM" := 23, "PK" := 24, "PL" := 28,
    "PS" := 29, "PT" := 25, "QA" := 29, "RO" := 24, "RS" := 22, "RU" := 33, "SA" := 24, "SC" := 31,
    "SD" := 18, "SE" := 24, "SI" := 19, "SK" := 24, "SM" := 27, "SO" := 23, "ST" := 25, "SV" := 28,
    "TL" := 23, "TN" := 24, "TR" := 26, "UA" := 29, "VA" := 22, "VG" := 24, "XK" := 20, "YE" := 30]

  predicate CountryLength(iban: string)
    requires IbanFormat(iban)
  {
    iban[..2] in IBAN_LENGTHS && IBAN_LENGTHS[iban[..2]] == |iban|
  }

  /** The country and the check digits go to the end. */
  function Rotated(iban: string): (s: string)
    requires IbanFormat(iban)
    ensures Allowed(s) && |s| == |iban|
  {
    iban[4..] + iban[..4]
  }

  /** TypeScript: isValidIban, on text without spaces in upper case. */
  method IsValidIban(iban: string) returns (valid: bool)
    ensures valid <==> IbanFormat(iban) && Remainder(Rotated(iban)) == 1
  {
    if !IbanFormat(iban) {
      return false;
    }
    var rest := FoldedRemainder(Expanded(Rotated(iban)));
    return rest == 1;
  }

  /** Go: ValidIBAN. The backend checks what the frontend checks, and the length. */
  method ValidIBAN(iban: string) returns (valid: bool)
    ensures valid <==> IbanFormat(iban) && CountryLength(iban) && Remainder(Rotated(iban)) == 1
  {
    if !IbanFormat(iban) || !CountryLength(iban) {
      return false;
    }
    var remainder := BigRemainder(Rotated(iban));
    return remainder == 1;
  }

  lemma ReplacedInAllowed(s: string, from: nat, i: nat, c: char)
    requires from <= i < |s| || i < from <= |s|
    requires Allowed(s[from..]) && IsAllowed(c)
    ensures Allowed(s[i := c][from..])
  {
    assert s[i := c][from..] == if i < from then s[from..] else s[from..][i - from := c];
  }

  /** Where a character stands in the checked text, which starts with the fifth one. */
  function Place(iban: string, i: nat): nat
    requires 4 <= |iban| && i < |iban|
  {
    if i < 4 then |iban| - 4 + i else i - 4
  }

  lemma ReplacedPlace(iban: string, i: nat, c: char)
    requires i < |iban| && IbanFormat(iban) && IbanFormat(iban[i := c])
    ensures var s, k := Rotated(iban), Place(iban, i);
      k < |s| && s[k] == iban[i] && Rotated(iban[i := c]) == s[k := c]
  {
  }

  lemma ReplacedInTextIsNoticed(s: string, k: nat, c: char)
    requires Allowed(s) && k < |s| && SameClass(s[k], c) && s[k] != c
    ensures Allowed(s[k := c]) && Remainder(s[k := c]) != Remainder(s)
  {
    var u, v := s[..k], s[k + 1..];
    assert s == u + [s[k]] + v && s[k := c] == u + [c] + v;
    ReplacementIsNoticed(u, s[k], c, v);
  }

  /** An IBAN with one wrong character of the right kind never passes. */
  lemma MistypedIbanFails(iban: string, i: nat, c: char)
    requires IbanFormat(iban) && Remainder(Rotated(iban)) == 1
    requires i < |iban| && SameClass(iban[i], c) && c != iban[i]
    ensures IbanFormat(iban[i := c]) && Remainder(Rotated(iban[i := c])) != 1
  {
    ReplacedInAllowed(iban, 4, i, c);
    ReplacedPlace(iban, i, c);
    ReplacedInTextIsNoticed(Rotated(iban), Place(iban, i), c);
  }

  /** A text with the characters at two places swapped. */
  function Swapped(s: string, i: nat, j: nat): string
    requires i < |s| && j < |s|
  {
    s[i := s[j]][j := s[i]]
  }

  lemma SwappedPieces(s: string, i: nat, j: nat)
    requires i < j < |s|
    ensures var u, m, v := s[..i], s[i + 1..j], s[j + 1..];
      s == u + ([s[i]] + m + [s[j]]) + v && Swapped(s, i, j) == u + ([s[j]] + m + [s[i]]) + v
  {
  }

  /** Swapping in a text of at most 34 characters is always noticed: it expands to less than 96 places. */
  lemma SwapInTextIsNoticed(s: string, i: nat, j: nat)
    requires Allowed(s) && |s| <= 34 && i < j < |s| && SameClass(s[i], s[j]) && s[i] != s[j]
    ensures Allowed(Swapped(s, i, j)) && Remainder(Swapped(s, i, j)) != Remainder(s)
  {
    var u, c, m, d, v := s[..i], s[i], s[i + 1..j], s[j], s[j + 1..];
    SwappedPieces(s, i, j);
    ShortSwapIsNoticed(u, c, m, d, v);
  }

  lemma ShortSwapIsNoticed(u: string, c: char, m: string, d: char, v: string)
    requires Allowed(u) && Allowed(m) && Allowed(v) && SameClass(c, d) && c != d && |m| <= 32
    ensures Allowed(u + ([c] + m + [d]) + v) && Allowed(u + ([d] + m + [c]) + v)
    ensures Remainder(u + ([c] + m + [d]) + v) != Remainder(u + ([d] + m + [c]) + v)
  {
    SwapIsNoticed(u, c, m, d, v);
    PlacesAreBounded(m + [d]);
  }

  lemma SwappedKeepsFormat(iban: string, i: nat, j: nat)
    requires IbanFormat(iban) && i < j < |iban| && SameClass(iban[i], iban[j])
    ensures IbanFormat(Swapped(iban, i, j))
  {
    ReplacedInAllowed(iban, 4, i, iban[j]);
    ReplacedInAllowed(iban[i := iban[j]], 4, j, iban[i]);
  }

  lemma RotatedPlaces(iban: string, i: nat, j: nat)
    requires i < j < |iban| && IbanFormat(iban) && IbanFormat(Swapped(iban, i, j))
    ensures var s, k, n := Rotated(iban), Place(iban, i), Place(iban, j);
      && k < |s| && n < |s| && k != n && s[k] == iban[i] && s[n] == iban[j]
      && Rotated(Swapped(iban, i, j)) == Swapped(s, k, n) == Swapped(s, n, k)
  {
  }

  /** An IBAN with two different characters of a kind swapped, neighbours or not, never passes. */
  lemma SwappedIbanFails(iban: string, i: nat, j: nat)
    requires IbanFormat(iban) && Remainder(Rotated(iban)) == 1
    requires i < j < |iban| && SameClass(iban[i], iban[j]) && iban[i] != iban[j]
    ensures IbanFormat(Swapped(iban, i, j)) && Remainder(Rotated(Swapped(iban, i, j))) != 1
  {
    SwappedKeepsFormat(iban, i, j);
    RotatedPlaces(iban, i, j);
    var k, n := Place(iban, i), Place(iban, j);
    if k < n {
      SwapInTextIsNoticed(Rotated(iban), k, n);
    } else {
      SwapInTextIsNoticed(Rotated(iban), n, k);
    }
  }

  /** ^[A-Z]{2}[0-9]{2}[A-Z0-9]{3}[A-Z0-9]{1,28}$, at most 35 characters. */
  predicate CreditorFormat(id: string) {
    && 8 <= |id| <= 35
    && IsCapital(id[0]) && IsCapital(id[1]) && IsDigit(id[2]) && IsDigit(id[3])
    && Allowed(id[4..])
  }

  lemma CreditorPartsAllowed(id: string)
    requires CreditorFormat(id)
    ensures Allowed(id[7..] + id[..4])
  {
    forall i: nat | i < |id| - 7
      ensures IsAllowed(id[7..][i])
    {
      assert id[7..][i] == id[4..][i + 3];
    }
  }

  /** The text that is checked. The business code, positions 5 to 7, is not part of it. */
  function Checked(id: string): (s: string)
    requires CreditorFormat(id)
    ensures Allowed(s) && |s| == |id| - 3
  {
    CreditorPartsAllowed(id);
    id[7..] + id[..4]
  }

  /** Go: ValidCreditorID. */
  method ValidCreditorID(id: string) returns (valid: bool)
    ensures valid <==> CreditorFormat(id) && Remainder(Checked(id)) == 1
  {
    if !CreditorFormat(id) {
      return false;
    }
    var remainder := BigRemainder(Checked(id));
    return remainder == 1;
  }

  predicate InBusinessCode(i: nat) {
    4 <= i < 7
  }

  function CheckedPlace(id: string, i: nat): nat
    requires 8 <= |id| && i < |id| && !InBusinessCode(i)
  {
    if i < 4 then |id| - 7 + i else i - 7
  }

  lemma ReplacedKeepsFormat(id: string, i: nat, c: char)
    requires CreditorFormat(id) && i < |id| && SameClass(id[i], c)
    ensures CreditorFormat(id[i := c])
  {
    ReplacedInAllowed(id, 4, i, c);
  }

  lemma ReplacedInChecked(id: string, i: nat, c: char)
    requires i < |id| && CreditorFormat(id) && CreditorFormat(id[i := c])
    ensures if InBusinessCode(i) then Checked(id[i := c]) == Checked(id)
            else var k := CheckedPlace(id, i);
              k < |Checked(id)| && Checked(id)[k] == id[i] && Checked(id[i := c]) == Checked(id)[k := c]
  {
  }

  /** One wrong character of the right kind is noticed just when it is not in the business code. */
  lemma MistypedCreditorID(id: string, i: nat, c: char)
    requires CreditorFormat(id) && Remainder(Checked(id)) == 1
    requires i < |id| && SameClass(id[i], c) && c != id[i]
    ensures CreditorFormat(id[i := c])
    ensures Remainder(Checked(id[i := c])) == 1 <==> InBusinessCode(i)
  {
    ReplacedKeepsFormat(id, i, c);
    ReplacedInChecked(id, i, c);
    if !InBusinessCode(i) {
      ReplacedInTextIsNoticed(Checked(id), CheckedPlace(id, i), c);
    }
  }

  lemma SwappedInChecked(id: string, i: nat, j: nat)
    requires i < j < |id| && CreditorFormat(id) && CreditorFormat(Swapped(id, i, j))
    requires !InBusinessCode(i) && !InBusinessCode(j)
    ensures var s, k, n := Checked(id), CheckedPlace(id, i), CheckedPlace(id, j);
      && k < |s| && n < |s| && k != n && s[k] == id[i] && s[n] == id[j]
      && Checked(Swapped(id, i, j)) == Swapped(s, k, n) == Swapped(s, n, k)
  {
  }

  /** Two different characters of a kind swapped are noticed just when not both are in the business code. */
  lemma SwappedCreditorID(id: string, i: nat, j: nat)
    requires CreditorFormat(id) && Remainder(Checked(id)) == 1
    requires i < j < |id| && SameClass(id[i], id[j]) && id[i] != id[j]
    ensures CreditorFormat(Swapped(id, i, j))
    ensures Remainder(Checked(Swapped(id, i, j))) == 1 <==> InBusinessCode(i) && InBusinessCode(j)
  {
    ReplacedKeepsFormat(id, i, id[j]);
    ReplacedKeepsFormat(id[i := id[j]], j, id[i]);
    ReplacedInChecked(id[i := id[j]], j, id[i]);
    if InBusinessCode(i) {
      ReplacedInChecked(id, i, id[j]);
      if !InBusinessCode(j) {
        MistypedCreditorID(id, j, id[i]);
        ReplacedInChecked(id, j, id[i]);
      }
    } else if InBusinessCode(j) {
      MistypedCreditorID(id, i, id[j]);
    } else {
      SwappedInChecked(id, i, j);
      var k, n := CheckedPlace(id, i), CheckedPlace(id, j);
      if k < n {
        SwapInTextIsNoticed(Checked(id), k, n);
      } else {
        SwapInTextIsNoticed(Checked(id), n, k);
      }
    }
  }

  // ---------- What is well-formed ----------

  predicate AllCapitals(s: string) {
    forall i | 0 <= i < |s| :: 'A' <= s[i] <= 'Z'
  }

  predicate AllDigits(s: string) {
    forall i | 0 <= i < |s| :: '0' <= s[i] <= '9'
  }

  predicate AllOfEither(s: string) {
    forall i | 0 <= i < |s| :: 'A' <= s[i] <= 'Z' || '0' <= s[i] <= '9'
  }

  lemma AllowedMeans(s: string)
    ensures Allowed(s) <==> AllOfEither(s)
  {
    if Allowed(s) {
      forall i | 0 <= i < |s| ensures 'A' <= s[i] <= 'Z' || '0' <= s[i] <= '9' {
        assert IsAllowed(s[i]);
      }
    }
  }

  /** A country of two capitals, two check digits, and 11 to 30 capitals or digits. */
  lemma IbanFormatMeans(country: string, check: string, account: string)
    requires |country| == 2 && |check| == 2
    ensures IbanFormat(country + check + account) <==>
      AllCapitals(country) && AllDigits(check) && AllOfEither(account) && 11 <= |account| <= 30
  {
    var iban := country + check + account;
    assert iban[0] == country[0] && iban[1] == country[1] && iban[2] == check[0] && iban[3] == check[1];
    assert iban[4..] == account;
    AllowedMeans(account);
  }

  /** Likewise with a business code of three characters, and up to 28 for the identifier. */
  lemma CreditorFormatMeans(country: string, check: string, business: string, national: string)
    requires |country| == 2 && |check| == 2 && |business| == 3
    ensures CreditorFormat(country + check + business + national) <==>
      AllCapitals(country) && AllDigits(check) && AllOfEither(business) && AllOfEither(national)
      && 1 <= |national| <= 28
  {
    var id := country + check + business + national;
    assert id[0] == country[0] && id[1] == country[1] && id[2] == check[0] && id[3] == check[1];
    assert id[4..] == business + national;
    AllowedMeans(business + national);
    if AllOfEither(business + national) {
      assert forall i | 0 <= i < |business| :: business[i] == (business + national)[i];
      assert forall i | 0 <= i < |national| :: national[i] == (business + national)[|business| + i];
    }
  }

  /** A country has one length: well-formed IBANs that start alike are equally long, and no other length is. */
  lemma OneLengthPerCountry(a: string, b: string)
    requires IbanFormat(a) && IbanFormat(b) && CountryLength(a) && a[..2] == b[..2]
    ensures CountryLength(b) <==> |a| == |b|
  {
  }
}
