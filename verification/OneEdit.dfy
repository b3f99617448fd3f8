/**
 * The typo-tolerant comparison of the payment matcher (server/internal/reconcile/match.go): a two-index scan that
 * decides whether two names are at most one edit apart, against the recursive edit distance.
 */
module OneEdit {

  import opened Bytes

  function Smaller(x: nat, y: nat): nat {
    if x < y then x else y
  }

  /**
   * The edit distance by its defining recurrence: drop a byte of either text, or match or replace the first bytes.
   */
  function Distance(a: Text, b: Text): (d: nat)
    decreases |a| + |b|
  {
    if a == [] then |b|
    else if b == [] then |a|
    else
      Smaller(Smaller(Distance(a[1..], b), Distance(a, b[1..])) + 1,
              Distance(a[1..], b[1..]) + if a[0] == b[0] then 0 else 1)
  }

  lemma {:induction false} DistanceIsSymmetric(a: Text, b: Text)
    ensures Distance(a, b) == Distance(b, a)
    decreases |a| + |b|
  {
    if a != [] && b != [] {
      DistanceIsSymmetric(a[1..], b);
      DistanceIsSymmetric(a, b[1..]);
      DistanceIsSymmetric(a[1..], b[1..]);
    }
  }

  /** Dropping one byte moves a text by at most one edit. */
  lemma {:induction false} DropMovesByOne(a: Text, b: Text)
    requires a != []
    ensures Distance(a[1..], b) <= Distance(a, b) + 1
    decreases |a| + |b|
  {
    if b != [] {
      DropMovesByOne(a, b[1..]);
    }
  }

  lemma SameHead(a: Text, b: Text)
    requires a != [] && b != [] && a[0] == b[0]
    ensures Distance(a, b) == Distance(a[1..], b[1..])
  {
    DropMovesByOne(b, a[1..]);
    DistanceIsSymmetric(b, a[1..]);
    DistanceIsSymmetric(b[1..], a[1..]);
    DropMovesByOne(a, b[1..]);
  }

  lemma {:induction false} NoEditMeansEqual(a: Text, b: Text)
    ensures Distance(a, b) == 0 <==> a == b
    decreases |a|
  {
    if a != [] && b != [] {
      NoEditMeansEqual(a[1..], b[1..]);
      if a[0] == b[0] {
        SameHead(a, b);
        assert a == [a[0]] + a[1..] && b == [b[0]] + b[1..];
      }
    }
  }

  /**
   * Where the first bytes differ, one edit must repair them: replacing keeps equal lengths, dropping shortens the
   * longer text.
   */
  lemma FirstDifference(a: Text, b: Text)
    requires a != [] && b != [] && a[0] != b[0] && |b| <= |a|
    ensures Distance(a, b) <= 1 <==> a[1..] == if |a| == |b| then b[1..] else b
  {
    NoEditMeansEqual(a[1..], b);
    NoEditMeansEqual(a, b[1..]);
    NoEditMeansEqual(a[1..], b[1..]);
  }

  lemma {:induction false} LengthsAreClose(a: Text, b: Text)
    ensures |a| <= |b| + Distance(a, b)
    decreases |a| + |b|
  {
    if a != [] && b != [] {
      LengthsAreClose(a[1..], b);
      LengthsAreClose(a, b[1..]);
      LengthsAreClose(a[1..], b[1..]);
    }
  }

  /** What the two-index scan knows: no edit yet, or one edit that leaves equally long rests. */
  ghost predicate Scanned(a: Text, b: Text, i: nat, j: nat, edits: nat)
    requires i <= |a| && j <= |b|
  {
    if edits == 0 then i == j && Distance(a, b) == Distance(a[i..], b[j..])
    else edits == 1 && |a| - i == |b| - j && (Distance(a, b) <= 1 <==> a[i..] == b[j..])
  }

  lemma ScannedSame(a: Text, b: Text, i: nat, j: nat, edits: nat)
    requires i < |a| && j < |b| && a[i] == b[j] && Scanned(a, b, i, j, edits)
    ensures Scanned(a, b, i + 1, j + 1, edits)
  {
    var s, t := a[i..], b[j..];
    assert s[1..] == a[i + 1..] && t[1..] == b[j + 1..];
    if edits == 0 {
      SameHead(s, t);
    } else {
      assert s == [a[i]] + a[i + 1..] && t == [b[j]] + b[j + 1..];
    }
  }

  lemma ScannedDifferent(a: Text, b: Text, i: nat, j: nat, edits: nat)
    requires i < |a| && j < |b| && a[i] != b[j] && Scanned(a, b, i, j, edits) && |b| <= |a| <= |b| + 1
    ensures if edits == 0 then Scanned(a, b, i + 1, if |a| == |b| then j + 1 else j, 1) else Distance(a, b) > 1
  {
    var s, t := a[i..], b[j..];
    assert s[1..] == a[i + 1..] && t[1..] == b[j + 1..];
    if edits == 0 {
      FirstDifference(s, t);
    } else {
      assert s[0] != t[0];
    }
  }

  lemma ScannedToTheEnd(a: Text, b: Text, i: nat, j: nat, edits: nat)
    requires i <= |a| && j <= |b| && (i == |a| || j == |b|) && Scanned(a, b, i, j, edits) && |b| <= |a| <= |b| + 1
    ensures Distance(a, b) <= 1 <==> edits + (|a| - i) <= 1
  {
  }

  /** Go: withinOneEdit. */
  method WithinOneEdit(first: Text, second: Text) returns (near: bool)
    ensures near <==> Distance(first, second) <= 1
  {
    var a, b := first, second;
    if |a| < |b| {
      a, b := b, a;
      DistanceIsSymmetric(a, b);
    }
    LengthsAreClose(a, b);
    if |a| - |b| > 1 {
      return false;
    }
    var i, j, edits := 0, 0, 0;
    while i < |a| && j < |b|
      invariant 0 <= i <= |a| && 0 <= j <= |b| && 0 <= edits <= 1 && Scanned(a, b, i, j, edits)
      decreases |a| - i
    {
      if a[i] == b[j] {
        ScannedSame(a, b, i, j, edits);
        i, j := i + 1, j + 1;
        continue;
      }
      ScannedDifferent(a, b, i, j, edits);
      edits := edits + 1;
      if edits > 1 {
        return false;
      }
      if |a| == |b| {
        j := j + 1;
      }
      i := i + 1;
    }
    ScannedToTheEnd(a, b, i, j, edits);
    return edits + (|a| - i) <= 1;
  }

  /** Go: similar. Short words have to match exactly. */
  method Similar(a: Text, b: Text) returns (alike: bool)
    ensures alike <==> a == b || (5 <= |a| && 5 <= |b| && Distance(a, b) <= 1)
  {
    if a == b {
      return true;
    }
    if |a| < 5 || |b| < 5 {
      return false;
    }
    alike := WithinOneEdit(a, b);
  }

  function Without(a: Text, k: nat): Text
    requires k < |a|
  {
    a[..k] + a[k + 1..]
  }

  /**
   * Within one edit, told without a distance: the texts are equal, or agree once the same place is left out of
   * both, or of the longer one.
   */
  ghost predicate OneApart(a: Text, b: Text)
    requires |b| <= |a|
  {
    || a == b
    || (|a| == |b| && exists k: nat :: k < |a| && Without(a, k) == Without(b, k))
    || (|a| == |b| + 1 && exists k: nat :: k < |a| && Without(a, k) == b)
  }

  lemma SameHeadApart(a: Text, b: Text)
    requires b != [] && |b| <= |a| && a[0] == b[0]
    ensures OneApart(a[1..], b[1..]) ==> OneApart(a, b)
  {
    var s, t := a[1..], b[1..];
    assert a == [a[0]] + s && b == [b[0]] + t;
    if |s| == |t| && exists k: nat :: k < |s| && Without(s, k) == Without(t, k) {
      var k: nat :| k < |s| && Without(s, k) == Without(t, k);
      assert Without(a, k + 1) == [a[0]] + Without(s, k);
      assert Without(b, k + 1) == [b[0]] + Without(t, k);
    }
    if |s| == |t| + 1 && exists k: nat :: k < |s| && Without(s, k) == t {
      var k: nat :| k < |s| && Without(s, k) == t;
      assert Without(a, k + 1) == [a[0]] + Without(s, k);
    }
  }

  lemma FirstDifferenceApart(a: Text, b: Text)
    requires |b| <= |a| && a != []
    requires a[1..] == if |a| == |b| then b[1..] else b
    ensures OneApart(a, b)
  {
    assert Without(a, 0) == a[1..];
    if |a| == |b| {
      assert Without(b, 0) == b[1..];
    }
  }

  lemma WithoutFirst(a: Text, b: Text)
    requires a != []
    ensures Without(a, 0) == b || (|a| == |b| && Without(a, 0) == Without(b, 0)) ==> Distance(a, b) <= 1
  {
    assert Without(a, 0) == a[1..];
    NoEditMeansEqual(a[1..], b);
    if |a| == |b| {
      assert Without(b, 0) == b[1..];
      NoEditMeansEqual(a[1..], b[1..]);
    }
  }

  lemma WithoutLater(a: Text, k: nat)
    requires 0 < k < |a|
    ensures Without(a, k) == [a[0]] + Without(a[1..], k - 1)
    ensures Without(a, k)[0] == a[0] && Without(a, k)[1..] == Without(a[1..], k - 1)
  {
  }

  /** Leaving a place out can only be undone by one edit. */
  lemma {:induction false} WithoutIsOneEdit(a: Text, b: Text, k: nat)
    requires k < |a|
    requires Without(a, k) == b || (|a| == |b| && Without(a, k) == Without(b, k))
    ensures Distance(a, b) <= 1
    decreases |a|
  {
    if k == 0 {
      WithoutFirst(a, b);
    } else {
      WithoutLater(a, k);
      if Without(a, k) != b {
        WithoutLater(b, k);
      }
      WithoutIsOneEdit(a[1..], b[1..], k - 1);
      SameHead(a, b);
    }
  }

  lemma {:induction false} OneEditFound(a: Text, b: Text)
    requires |b| <= |a| && Distance(a, b) <= 1
    ensures OneApart(a, b)
    decreases |a|
  {
    if b == [] {
      if |a| == 1 {
        FirstDifferenceApart(a, b);
      }
    } else if a[0] == b[0] {
      SameHead(a, b);
      OneEditFound(a[1..], b[1..]);
      SameHeadApart(a, b);
    } else {
      FirstDifference(a, b);
      FirstDifferenceApart(a, b);
    }
  }

  /**
   * The recurrence says what it should: distance at most one is one replaced, dropped or inserted byte, anywhere in
   * the text.
   */
  lemma WithinOneMeansOneApart(a: Text, b: Text)
    requires |b| <= |a|
    ensures Distance(a, b) <= 1 <==> OneApart(a, b)
  {
    if Distance(a, b) <= 1 {
      OneEditFound(a, b);
    }
    if OneApart(a, b) && a != b {
      var k: nat :| k < |a| && (if |a| == |b| then Without(a, k) == Without(b, k) else Without(a, k) == b);
      WithoutIsOneEdit(a, b, k);
    }
    NoEditMeansEqual(a, b);
  }
}
