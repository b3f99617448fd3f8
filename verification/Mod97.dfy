/**
 * The MOD 97-10 check of ISO/IEC 7064 behind IBANs and creditor identifiers (server/internal/sepa/validate.go,
 * frontend/src/api/sepa.ts). The backend builds one big number, the frontend folds digit by digit; both must agree,
 * and the remainder must move whenever a person mistypes one character or swaps two.
 */
module Mod97 {

  type Digit = d: int | 0 <= d < 10

  predicate IsDigit(c: char) {
    '0' <= c <= '9'
  }

  predicate IsCapital(c: char) {
    'A' <= c <= 'Z'
  }

  predicate IsAllowed(c: char) {
    IsDigit(c) || IsCapital(c)
  }

  predicate Allowed(s: string) {
    forall i: nat :: i < |s| ==> IsAllowed(s[i])
  }

  predicate SameClass(c: char, d: char) {
    (IsDigit(c) && IsDigit(d)) || (IsCapital(c) && IsCapital(d))
  }

  /** A digit is its value, A to Z are 10 to 35. */
  function Code(c: char): nat
    requires IsAllowed(c)
  {
    if IsDigit(c) then c as int - '0' as int else c as int - 'A' as int + 10
  }

  lemma CodesAreInOrder(i: nat)
    ensures i < 10 ==> IsDigit("0123456789"[i]) && Code("0123456789"[i]) == i
    ensures i < 26 ==>
      IsCapital("ABCDEFGHIJKLMNOPQRSTUVWXYZ"[i]) && Code("ABCDEFGHIJKLMNOPQRSTUVWXYZ"[i]) == 10 + i
  {
  }

  function Decimal(c: char): seq<Digit>
    requires IsAllowed(c)
  {
    if IsDigit(c) then [Code(c)] else [Code(c) / 10, Code(c) % 10]
  }

  function Expanded(s: string): seq<Digit>
    requires Allowed(s)
  {
    if s == [] then [] else Expanded(s[..|s| - 1]) + Decimal(s[|s| - 1])
  }

  /** The number a run of decimal digits stands for. */
  function Number(digits: seq<Digit>): nat {
    if digits == [] then 0 else 10 * Number(digits[..|digits| - 1]) + digits[|digits| - 1]
  }

  function Remainder(s: string): nat
    requires Allowed(s)
  {
    Number(Expanded(s)) % 97
  }

  lemma ExpandedOneMore(s: string, i: nat)
    requires i < |s| && Allowed(s[..i])
    ensures Allowed(s[..i + 1]) <==> IsAllowed(s[i])
    ensures IsAllowed(s[i]) ==> Expanded(s[..i + 1]) == Expanded(s[..i]) + Decimal(s[i])
  {
    var more := s[..i + 1];
    assert more[..i] == s[..i] && more[i] == s[i];
    assert forall k: nat :: k < i ==> more[k] == s[..i][k];
  }

  /** Go: mod97. Anything but digits and capitals, or nothing at all, has no remainder. */
  method BigRemainder(s: string) returns (remainder: int)
    ensures remainder == if s != [] && Allowed(s) then Remainder(s) else -1
  {
    var digits: seq<Digit> := [];
    for i := 0 to |s|
      invariant Allowed(s[..i]) && digits == Expanded(s[..i])
      invariant i > 0 ==> digits != []
    {
      ExpandedOneMore(s, i);
      if IsAllowed(s[i]) {
        digits := digits + Decimal(s[i]);
      } else {
        return -1;
      }
    }
    assert s[..|s|] == s;
    if digits == [] {
      return -1;
    }
    return Number(digits) % 97;
  }

  /** TypeScript: the loop of isValidIban, on expanded digits. */
  method FoldedRemainder(digits: seq<Digit>) returns (rest: nat)
    ensures rest == Number(digits) % 97
  {
    rest := 0;
    for i := 0 to |digits|
      invariant rest == Number(digits[..i]) % 97
    {
      assert digits[..i + 1][..i] == digits[..i];
      FoldStep(Number(digits[..i]), digits[i]);
      rest := (rest * 10 + digits[i]) % 97;
    }
    assert digits[..|digits|] == digits;
  }

  lemma FoldStep(n: nat, digit: Digit)
    ensures (n % 97 * 10 + digit) % 97 == (10 * n + digit) % 97
  {
    var q := n / 97;
    assert 10 * n + digit == (n % 97 * 10 + digit) + 97 * (10 * q);
    Shifted(n % 97 * 10 + digit, 10 * q);
  }

  lemma Shifted(x: int, q: int)
    ensures (x + 97 * q) % 97 == x % 97
  {
    var r := x % 97;
    assert x + 97 * q == 97 * (x / 97 + q) + r;
  }

  /** What one more character makes of a remainder. */
  function Step(r: nat, c: char): nat
    requires IsAllowed(c)
  {
    ((if IsDigit(c) then 10 * r else 100 * r) + Code(c)) % 97
  }

  function Rest(r: nat, s: string): nat
    requires Allowed(s)
  {
    if s == [] then r else Step(Rest(r, s[..|s| - 1]), s[|s| - 1])
  }

  lemma NumberWithDecimal(digits: seq<Digit>, c: char)
    requires IsAllowed(c)
    ensures Number(digits + Decimal(c))
         == (if IsDigit(c) then 10 * Number(digits) else 100 * Number(digits)) + Code(c)
  {
    var all := digits + Decimal(c);
    if IsDigit(c) {
      assert all[..|digits|] == digits;
    } else {
      var tens := digits + [Code(c) / 10];
      assert all[..|digits| + 1] == tens && tens[..|digits|] == digits;
    }
  }

  lemma StepOfRemainder(n: nat, c: char)
    requires IsAllowed(c)
    ensures Step(n % 97, c) == Step(n, c)
  {
    var q := n / 97;
    assert 10 * n + Code(c) == (10 * (n % 97) + Code(c)) + 97 * (10 * q);
    Shifted(10 * (n % 97) + Code(c), 10 * q);
    assert 100 * n + Code(c) == (100 * (n % 97) + Code(c)) + 97 * (100 * q);
    Shifted(100 * (n % 97) + Code(c), 100 * q);
  }

  lemma RemainderOneMore(digits: seq<Digit>, c: char)
    requires IsAllowed(c)
    ensures Number(digits + Decimal(c)) % 97 == Step(Number(digits) % 97, c)
  {
    NumberWithDecimal(digits, c);
    StepOfRemainder(Number(digits), c);
  }

  /** Folding character by character gives the remainder of the big number. */
  lemma {:induction false} RemainderIsRest(s: string)
    requires Allowed(s)
    ensures Remainder(s) == Rest(0, s)
  {
    if s != [] {
      RemainderIsRest(s[..|s| - 1]);
      RemainderOneMore(Expanded(s[..|s| - 1]), s[|s| - 1]);
    }
  }

  lemma {:induction false} RestJoined(r: nat, s: string, t: string)
    requires Allowed(s) && Allowed(t)
    ensures Allowed(s + t) && Rest(r, s + t) == Rest(Rest(r, s), t)
  {
    if t == [] {
      assert s + t == s;
    } else {
      var n := |t| - 1;
      assert (s + t)[..|s| + n] == s + t[..n];
      RestJoined(r, s, t[..n]);
    }
  }

  /** 68 undoes a factor of ten modulo 97: 68 * 10 == 7 * 97 + 1. */
  lemma CancelTen(x: int)
    requires 10 * x % 97 == 0
    ensures x % 97 == 0
  {
    var q := 10 * x / 97;
    assert x == 97 * (68 * q - 7 * x);
  }

  lemma SameRemainder(x: int, y: int)
    requires x % 97 == y % 97
    ensures (x - y) % 97 == 0
  {
    assert x - y == 97 * (x / 97 - y / 97);
  }

  lemma DifferentRemainders(x: int, y: int)
    requires (x - y) % 97 != 0
    ensures x % 97 != y % 97
  {
    if x % 97 == y % 97 {
      SameRemainder(x, y);
    }
  }

  lemma TensAreInjective(x: nat, y: nat, c: int)
    requires x < 97 && y < 97 && (10 * x + c) % 97 == (10 * y + c) % 97
    ensures x == y
  {
    SameRemainder(10 * x + c, 10 * y + c);
    CancelTen(x - y);
  }

  lemma HundredsAreInjective(x: nat, y: nat, c: int)
    requires x < 97 && y < 97 && (100 * x + c) % 97 == (100 * y + c) % 97
    ensures x == y
  {
    SameRemainder(100 * x + c, 100 * y + c);
    CancelTen(10 * (x - y));
    CancelTen(x - y);
  }

  lemma StepIsInjective(x: nat, y: nat, c: char)
    requires x < 97 && y < 97 && IsAllowed(c) && Step(x, c) == Step(y, c)
    ensures x == y
  {
    if IsDigit(c) {
      TensAreInjective(x, y, Code(c));
    } else {
      HundredsAreInjective(x, y, Code(c));
    }
  }

  lemma {:induction false} RestIsInjective(x: nat, y: nat, s: string)
    requires x < 97 && y < 97 && Allowed(s) && Rest(x, s) == Rest(y, s)
    ensures x == y
  {
    if s != [] {
      var front := s[..|s| - 1];
      RestIsSmall(x, front);
      RestIsSmall(y, front);
      StepIsInjective(Rest(x, front), Rest(y, front), s[|s| - 1]);
      RestIsInjective(x, y, front);
    }
  }

  lemma RestIsSmall(r: nat, s: string)
    requires r < 97 && Allowed(s)
    ensures Rest(r, s) < 97
  {
  }

  /** Only the stretch where two texts differ decides whether they agree. */
  lemma MiddleMatters(u: string, m: string, w: string, v: string)
    requires Allowed(u) && Allowed(m) && Allowed(w) && Allowed(v)
    ensures Allowed(u + m + v) && Allowed(u + w + v)
    ensures Remainder(u + m + v) == Remainder(u + w + v) <==> Rest(Rest(0, u), m) == Rest(Rest(0, u), w)
  {
    RestJoined(0, u, m);
    RestJoined(0, u + m, v);
    RestJoined(0, u, w);
    RestJoined(0, u + w, v);
    RemainderIsRest(u + m + v);
    RemainderIsRest(u + w + v);
    RestIsSmall(0, u + m);
    RestIsSmall(0, u + w);
    if Remainder(u + m + v) == Remainder(u + w + v) {
      RestIsInjective(Rest(0, u + m), Rest(0, u + w), v);
    }
  }

  lemma ReplacedStepsDiffer(r: nat, c: char, d: char)
    requires SameClass(c, d) && c != d
    ensures Step(r, c) != Step(r, d)
  {
    var base := if IsDigit(c) then 10 * r else 100 * r;
    DifferentRemainders(base + Code(c), base + Code(d));
  }

  /** One mistyped character of the same class is always noticed. */
  lemma ReplacementIsNoticed(u: string, c: char, d: char, v: string)
    requires Allowed(u) && Allowed(v) && SameClass(c, d) && c != d
    ensures Allowed(u + [c] + v) && Allowed(u + [d] + v)
    ensures Remainder(u + [c] + v) != Remainder(u + [d] + v)
  {
    assert [c][..0] == [] && [d][..0] == [];
    MiddleMatters(u, [c], [d], v);
    ReplacedStepsDiffer(Rest(0, u), c, d);
  }

  // ---------- Swapped characters ----------

  /** How many decimal digits a text expands to. */
  function Places(s: string): nat
    requires Allowed(s)
  {
    if s == [] then 0 else Places(s[..|s| - 1]) + if IsDigit(s[|s| - 1]) then 1 else 2
  }

  function Power(k: nat): nat {
    if k == 0 then 1 else 10 * Power(k - 1)
  }

  /** What a character of the class multiplies a number by when it is put behind it. */
  function Shift(c: char): nat {
    if IsDigit(c) then 10 else 100
  }

  lemma PowerOfOneMore(front: string, c: char)
    requires Allowed(front) && IsAllowed(c)
    ensures Allowed(front + [c]) && Power(Places(front + [c])) == Shift(c) * Power(Places(front))
  {
    assert (front + [c])[..|front|] == front;
  }

  lemma LinearStep(r: int, p: int, x: int, y: int, q: int, f: int, code: int)
    requires r * p + y == x + 97 * q
    ensures var a, b := (f * x + code) / 97, (f * y + code) / 97;
      r * (f * p) + (f * y + code) % 97 == (f * x + code) % 97 + 97 * (a + f * q - b)
  {
    assert r * (f * p) == f * (r * p);
    assert f * (r * p + y) == f * (x + 97 * q);
  }

  /** A remainder is carried through a text as a factor; the text adds its own remainder. */
  lemma {:induction false} RestIsLinear(r: nat, s: string) returns (q: int)
    requires Allowed(s)
    ensures r * Power(Places(s)) + Rest(0, s) == Rest(r, s) + 97 * q
  {
    if s == [] {
      q := 0;
    } else {
      var front, c := s[..|s| - 1], s[|s| - 1];
      q := RestIsLinear(r, front);
      PowerOfOneMore(front, c);
      assert front + [c] == s;
      var f, x, y := Shift(c), Rest(r, front), Rest(0, front);
      LinearStep(r, Power(Places(front)), x, y, q, f, Code(c));
      q := (f * x + Code(c)) / 97 + f * q - (f * y + Code(c)) / 97;
    }
  }

  // ---------- The order of 10 modulo 97 ----------

  lemma {:induction false} PowerAdds(a: nat, b: nat)
    ensures Power(a + b) == Power(a) * Power(b)
  {
    if b > 0 {
      PowerAdds(a, b - 1);
      assert Power(a + b) == 10 * (Power(a) * Power(b - 1)) == Power(a) * (10 * Power(b - 1));
    }
  }

  lemma ProductIsOne(x: nat, y: nat)
    requires x % 97 == 1
    ensures x * y % 97 == y % 97
  {
    var q := x / 97;
    assert x * y == (97 * q + 1) * y == y + 97 * (q * y);
    Shifted(y, q * y);
  }

  lemma {:induction false} PowerOfMultiple(n: nat, k: nat)
    requires Power(k) % 97 == 1
    ensures Power(n * k) % 97 == 1
  {
    if n > 0 {
      PowerOfMultiple(n - 1, k);
      assert n * k == (n - 1) * k + k;
      PowerAdds((n - 1) * k, k);
      ProductIsOne(Power((n - 1) * k), Power(k));
    }
  }

  lemma FourMore(k: nat)
    ensures Power(k + 4) == 10_000 * Power(k)
  {
    assert Power(k + 2) == 100 * Power(k);
  }

  lemma SixteenMore(k: nat)
    ensures Power(k + 16) == 10_000_000_000_000_000 * Power(k)
  {
    FourMore(k);
    FourMore(k + 4);
    FourMore(k + 8);
    FourMore(k + 12);
  }

  /** The powers that decide on the order of 10, for k = 0. */
  lemma SomePowers(k: nat)
    requires k == 0
    ensures Power(k + 32) % 97 == 61 && Power(k + 64) % 97 == 35
    ensures Power(k + 48) % 97 == 96 && Power(k + 96) % 97 == 1
  {
    SixteenMore(k);
    SixteenMore(k + 16);
    SixteenMore(k + 32);
    SixteenMore(k + 48);
    SixteenMore(k + 64);
    SixteenMore(k + 80);
  }

  lemma CyclesAreOne(q: nat, cycle: nat, zero: nat)
    requires zero == 0 && cycle == 96
    ensures Power(q * cycle) % 97 == 1
  {
    SomePowers(zero);
    PowerOfMultiple(q, cycle);
  }

  lemma PowerRepeats(whole: nat, r: nat)
    requires Power(whole) % 97 == 1
    ensures Power(whole + r) % 97 == Power(r) % 97
  {
    PowerAdds(whole, r);
    ProductIsOne(Power(whole), Power(r));
  }

  /** What turns k into an odd multiple of 48, unless 32 divides k. */
  lemma OddMultiple(k: nat) returns (n: nat, q: nat)
    requires k % 32 != 0
    ensures n * k == q * 96 + 48
  {
    var half := k / 2;
    var quarter := half / 2;
    var eighth := quarter / 2;
    var sixteenth := eighth / 2;
    if k % 2 == 1 {
      n, q := 48, half;
    } else if half % 2 == 1 {
      n, q := 24, quarter;
    } else if quarter % 2 == 1 {
      n, q := 12, eighth;
    } else if eighth % 2 == 1 {
      n, q := 6, sixteenth;
    } else {
      n, q := 3, sixteenth / 2;
    }
  }

  lemma PartsAreNotOne(r: nat, zero: nat)
    requires zero == 0 && r in {32, 48, 64}
    ensures Power(r) % 97 != 1
  {
    SomePowers(zero);
    assert r == zero + r;
  }

  lemma StillNotOne(whole: nat, r: nat)
    requires Power(whole) % 97 == 1 && Power(r) % 97 != 1
    ensures Power(whole + r) % 97 != 1
  {
    PowerRepeats(whole, r);
  }

  /** Behind whole cycles the powers repeat, and those of the half and the thirds of a cycle are not 1. */
  lemma PartsOfCycle(q: nat, r: nat, zero: nat)
    requires zero == 0 && r in {32, 48, 64}
    ensures Power(q * 96 + r) % 97 != 1
  {
    CyclesAreOne(q, 96, zero);
    PartsAreNotOne(r, zero);
    StillNotOne(q * 96, r);
  }

  lemma MultipleDecides(k: nat, n: nat, q: nat)
    requires n * k == q * 96 + 48
    ensures Power(k) % 97 != 1
  {
    PartsOfCycle(q, 48, 0);
    if Power(k) % 97 == 1 {
      PowerOfMultiple(n, k);
    }
  }

  lemma ThirdOfCycle(k: nat) returns (q: nat, r: nat)
    requires k % 32 == 0 && k % 96 != 0
    ensures k == q * 96 + r && r in {32, 64}
  {
    q, r := k / 96, k % 96;
  }

  lemma SmallerPowersDiffer(k: nat)
    requires k % 96 != 0
    ensures Power(k) % 97 != 1
  {
    if k % 32 != 0 {
      var n, q := OddMultiple(k);
      MultipleDecides(k, n, q);
    } else {
      var q, r := ThirdOfCycle(k);
      PartsOfCycle(q, r, 0);
    }
  }

  /** A power of 10 is 1 modulo 97 just when 96 divides the exponent. */
  lemma PowerIsOne(k: nat)
    ensures Power(k) % 97 == 1 <==> k % 96 == 0
  {
    if k % 96 == 0 {
      CyclesAreOne(k / 96, 96, 0);
    } else {
      SmallerPowersDiffer(k);
    }
  }

  lemma NoDivisor(x: nat)
    requires 1 < x < 26
    ensures 97 % x != 0
  {
  }

  lemma EuclidStep(x: int, y: int, q: int, r: int, t: int)
    requires 97 == x * q + r && x * y == 97 * t
    ensures r * y % 97 == 0
  {
    assert r * y == (97 - x * q) * y == 97 * y - q * (x * y);
    assert q * (x * y) == 97 * (q * t);
    Shifted(0, y - q * t);
  }

  /** 97 is prime: Euclid's algorithm on x and 97 meets 1 before 0. */
  lemma {:induction false} NoZeroProduct(x: nat, y: int)
    requires 0 < x < 26 && x * y % 97 == 0
    ensures y % 97 == 0
  {
    if x > 1 {
      NoDivisor(x);
      EuclidStep(x, y, 97 / x, 97 % x, x * y / 97);
      NoZeroProduct(97 % x, y);
    }
  }

  // ---------- Two swapped characters ----------

  lemma RestOfOne(r: nat, c: char)
    requires IsAllowed(c)
    ensures Allowed([c]) && Rest(r, [c]) == Step(r, c)
  {
    assert [c][..0] == [];
  }

  lemma {:induction false} RestOfRemainder(n: nat, s: string)
    requires s != [] && Allowed(s)
    ensures Rest(n % 97, s) == Rest(n, s)
  {
    var front, c := s[..|s| - 1], s[|s| - 1];
    if front == [] {
      StepOfRemainder(n, c);
    } else {
      RestOfRemainder(n, front);
    }
  }

  lemma RestBehind(n: nat, m: string, d: char) returns (q: int)
    requires Allowed(m) && IsAllowed(d)
    ensures Allowed(m + [d])
    ensures Rest(n, m + [d]) == n * Power(Places(m + [d])) + (Shift(d) * Rest(0, m) + Code(d)) + 97 * q
  {
    var tail := m + [d];
    var q0 := RestIsLinear(n, tail);
    assert tail[..|m|] == m;
    var x := Shift(d) * Rest(0, m) + Code(d);
    assert Rest(0, tail) == x % 97 == x - 97 * (x / 97);
    q := -(x / 97) - q0;
  }

  lemma RestBetween(r: nat, c: char, m: string, d: char) returns (q: int)
    requires SameClass(c, d) && Allowed(m)
    ensures Allowed([c] + m + [d]) && Allowed(m + [d])
    ensures Rest(r, [c] + m + [d]) ==
            (Shift(c) * r + Code(c)) * Power(Places(m + [d])) + (Shift(c) * Rest(0, m) + Code(d)) + 97 * q
  {
    var tail, n := m + [d], Shift(c) * r + Code(c);
    assert [c] + m + [d] == [c] + tail;
    RestOfOne(r, c);
    RestJoined(r, [c], tail);
    RestOfRemainder(n, tail);
    q := RestBehind(n, m, d);
  }

  lemma SwappedDifference(x: int, x': int, n: int, c: int, d: int, p: int, y: int, q: int, q': int)
    requires x == (n + c) * p + (y + d) + 97 * q && x' == (n + d) * p + (y + c) + 97 * q'
    ensures x - x' == (c - d) * (p - 1) + 97 * (q - q')
  {
    assert (n + c) * p == n * p + c * p && (n + d) * p == n * p + d * p;
    assert (c - d) * (p - 1) == c * p - d * p - c + d;
  }

  lemma SamePower(m: string, c: char, d: char)
    requires Allowed(m) && SameClass(c, d)
    ensures Allowed(m + [c]) && Allowed(m + [d]) && Power(Places(m + [c])) == Power(Places(m + [d]))
  {
    PowerOfOneMore(m, c);
    PowerOfOneMore(m, d);
  }

  lemma ZeroDifference(k: int, z: int, q: int)
    requires k != 0 && -26 < k < 26 && k * z == 97 * q
    ensures z % 97 == 0
  {
    var n := if k > 0 then k else -k;
    assert n * z == 97 * if k > 0 then q else -q;
    NoZeroProduct(n, z);
  }

  lemma MultipleIsZero(x: nat, y: nat, w: int)
    requires x < 97 && y < 97 && x - y == 97 * w
    ensures x == y
  {
  }

  lemma DifferenceDecides(x: nat, y: nat, k: int, z: int, q: int)
    requires x < 97 && y < 97 && k != 0 && -26 < k < 26 && x - y == k * z + 97 * q
    ensures x == y <==> z % 97 == 0
  {
    if x == y {
      ZeroDifference(k, z, -q);
    }
    if z % 97 == 0 {
      assert k * z == 97 * (k * (z / 97));
      MultipleIsZero(x, y, k * (z / 97) + q);
    }
  }

  lemma RestsDiffer(r: nat, c: char, m: string, d: char) returns (q: int)
    requires Allowed(m) && SameClass(c, d)
    ensures Allowed([c] + m + [d]) && Allowed([d] + m + [c]) && Allowed(m + [d])
    ensures Rest(r, [c] + m + [d]) - Rest(r, [d] + m + [c]) ==
            (Code(c) - Code(d)) * (Power(Places(m + [d])) - 1) + 97 * q
  {
    var there, back := [c] + m + [d], [d] + m + [c];
    var q0 := RestBetween(r, c, m, d);
    var q1 := RestBetween(r, d, m, c);
    SamePower(m, c, d);
    var n, p, y := Shift(c) * r, Power(Places(m + [d])), Shift(c) * Rest(0, m);
    SwappedDifference(Rest(r, there), Rest(r, back), n, Code(c), Code(d), p, y, q0, q1);
    q := q0 - q1;
  }

  lemma MinusOne(p: int)
    ensures (p - 1) % 97 == 0 <==> p % 97 == 1
  {
  }

  lemma CodesDiffer(c: char, d: char)
    requires SameClass(c, d) && c != d
    ensures Code(c) != Code(d) && -26 < Code(c) - Code(d) < 26
  {
  }

  lemma SwapMovesRest(r: nat, c: char, m: string, d: char)
    requires r < 97 && Allowed(m) && SameClass(c, d) && c != d
    ensures Allowed([c] + m + [d]) && Allowed([d] + m + [c]) && Allowed(m + [d])
    ensures Rest(r, [c] + m + [d]) == Rest(r, [d] + m + [c]) <==> Power(Places(m + [d])) % 97 == 1
  {
    var q := RestsDiffer(r, c, m, d);
    var there, back := [c] + m + [d], [d] + m + [c];
    RestIsSmall(r, there);
    RestIsSmall(r, back);
    CodesDiffer(c, d);
    var p: int := Power(Places(m + [d]));
    DifferenceDecides(Rest(r, there), Rest(r, back), Code(c) - Code(d), p - 1, q);
    MinusOne(p);
  }

  /**
   * Two swapped characters of the same class, wherever they stand, are noticed just when the number of places from
   * behind the first to the second is no multiple of 96.
   */
  lemma SwapIsNoticed(u: string, c: char, m: string, d: char, v: string)
    requires Allowed(u) && Allowed(m) && Allowed(v) && SameClass(c, d) && c != d
    ensures Allowed(u + ([c] + m + [d]) + v) && Allowed(u + ([d] + m + [c]) + v) && Allowed(m + [d])
    ensures Remainder(u + ([c] + m + [d]) + v) != Remainder(u + ([d] + m + [c]) + v) <==> Places(m + [d]) % 96 != 0
  {
    RestIsSmall(0, u);
    SwapMovesRest(Rest(0, u), c, m, d);
    MiddleMatters(u, [c] + m + [d], [d] + m + [c], v);
    PowerIsOne(Places(m + [d]));
  }

  lemma {:induction false} PlacesAreBounded(s: string)
    requires Allowed(s)
    ensures |s| <= Places(s) <= 2 * |s|
  {
    if s != [] {
      PlacesAreBounded(s[..|s| - 1]);
    }
  }
}
