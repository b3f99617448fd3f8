/** The byte-wise order in which the server compares text: hybrid logical clocks, device ids and primary keys. */
module Order {

  predicate Less(a: string, b: string) {
    b != [] && (a == [] || a[0] < b[0] || (a[0] == b[0] && Less(a[1..], b[1..])))
  }

  lemma {:induction false} LessIsTotal(a: string, b: string)
    ensures Less(a, b) || a == b || Less(b, a)
    ensures !(Less(a, b) && Less(b, a))
    ensures !Less(a, a)
    decreases |a|
  {
    if a != [] {
      LessIsTotal(a[1..], a[1..]);
      if b != [] && a[0] == b[0] {
        LessIsTotal(a[1..], b[1..]);
        if a[1..] == b[1..] {
          assert a == [a[0]] + a[1..] == [b[0]] + b[1..] == b;
        }
      }
    }
  }

  lemma {:induction false} LessIsTransitive(a: string, b: string, c: string)
    requires Less(a, b) && Less(b, c)
    ensures Less(a, c)
  {
    if a != [] && a[0] == b[0] && b[0] == c[0] {
      LessIsTransitive(a[1..], b[1..], c[1..]);
    }
  }

  /** The texts agree up to a place at which `a` has ended or has the smaller character. */
  ghost predicate ComesBefore(a: string, b: string) {
    exists k: nat :: k <= |a| && k < |b| && a[..k] == b[..k] && (k == |a| || a[k] < b[k])
  }

  lemma SameHeadComesBefore(a: string, b: string)
    requires a != [] && b != [] && a[0] == b[0]
    ensures ComesBefore(a, b) <==> ComesBefore(a[1..], b[1..])
  {
    var s, t := a[1..], b[1..];
    if ComesBefore(a, b) {
      var k: nat :| k <= |a| && k < |b| && a[..k] == b[..k] && (k == |a| || a[k] < b[k]);
      assert k > 0;
      assert s[..k - 1] == a[..k][1..] && t[..k - 1] == b[..k][1..];
      assert ComesBefore(s, t);
    }
    if ComesBefore(s, t) {
      var k: nat :| k <= |s| && k < |t| && s[..k] == t[..k] && (k == |s| || s[k] < t[k]);
      assert a[..k + 1] == [a[0]] + s[..k] && b[..k + 1] == [b[0]] + t[..k];
      assert ComesBefore(a, b);
    }
  }

  lemma HeadsInOrder(a: string, b: string)
    requires a != [] && b != [] && ComesBefore(a, b)
    ensures a[0] <= b[0]
  {
    var k: nat :| k <= |a| && k < |b| && a[..k] == b[..k] && (k == |a| || a[k] < b[k]);
    if k > 0 {
      assert a[0] == a[..k][0] == b[..k][0] == b[0];
    }
  }

  /** The order is that of the first difference. */
  lemma {:induction false} LessMeans(a: string, b: string)
    ensures Less(a, b) <==> ComesBefore(a, b)
    decreases |a|
  {
    if a != [] && b != [] && a[0] == b[0] {
      LessMeans(a[1..], b[1..]);
      SameHeadComesBefore(a, b);
    } else {
      assert a[..0] == b[..0];
      if a != [] && ComesBefore(a, b) {
        HeadsInOrder(a, b);
      }
    }
  }

  /** Texts that first differ at x and y, and a text and a longer one. */
  lemma FirstDifferenceDecides(p: string, x: char, u: string, y: char, v: string)
    ensures x < y ==> Less(p + [x] + u, p + [y] + v) && !Less(p + [y] + v, p + [x] + u)
    ensures Less(p, p + [x] + u)
  {
    var a, b := p + [x] + u, p + [y] + v;
    LessMeans(a, b);
    LessMeans(p, a);
    assert a[..|p|] == p && b[..|p|] == p && p[..|p|] == p;
    LessIsTotal(a, b);
  }
}
