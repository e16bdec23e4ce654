/** The order in which Python compares `str` values: code point by code point. */
module Text {
  predicate Less(a: string, b: string) {
    b != "" && (a == "" || a[0] < b[0] || (a[0] == b[0] && Less(a[1..], b[1..])))
  }

  lemma {:induction false} LessIsTotal(a: string, b: string)
    ensures a == b || Less(a, b) || Less(b, a)
  {
    if a != "" && b != "" && a[0] == b[0] {
      LessIsTotal(a[1..], b[1..]);
      assert a == [a[0]] + a[1..] && b == [b[0]] + b[1..];
    }
  }

  lemma {:induction false} LessIsTransitive(a: string, b: string, c: string)
    requires Less(a, b) && Less(b, c)
    ensures Less(a, c)
  {
    if a != "" && a[0] == b[0] && b[0] == c[0] {
      LessIsTransitive(a[1..], b[1..], c[1..]);
    }
  }

  lemma {:induction false} LessIsAsymmetric(a: string, b: string)
    requires Less(a, b)
    ensures !Less(b, a) && a != b
  {
    if a != "" && a[0] == b[0] {
      LessIsAsymmetric(a[1..], b[1..]);
    }
  }

  /** A string is less than what it is a proper prefix of. */
  lemma {:induction false} PrefixIsLess(a: string, more: string)
    requires more != ""
    ensures Less(a, a + more)
  {
    if a != "" {
      PrefixIsLess(a[1..], more);
      assert (a + more)[1..] == a[1..] + more;
    } else {
      assert a + more == more;
    }
  }

  /** Otherwise the first character that differs decides, the smaller code point first. */
  lemma {:induction false} FirstDifferenceDecides(front: string, a: string, b: string)
    requires a != "" && b != "" && a[0] < b[0]
    ensures Less(front + a, front + b)
  {
    LessBehind(front, a, b);
  }

  lemma {:induction false} LessBehind(front: string, a: string, b: string)
    requires Less(a, b)
    ensures Less(front + a, front + b)
  {
    if front == "" {
      assert front + a == a && front + b == b;
    } else {
      LessBehind(front[1..], a, b);
      assert (front + a)[1..] == front[1..] + a && (front + b)[1..] == front[1..] + b;
    }
  }

  /** Python's `s[:n]`: shorter strings are returned whole. */
  function Prefix(s: string, n: nat): (r: string)
    ensures |r| <= n && r <= s
  {
    if |s| <= n then s else s[..n]
  }

  /** Cutting two strings to the same length never turns their order round. */
  lemma {:induction false} PrefixIsMonotone(a: string, b: string, n: nat)
    requires Less(a, b)
    ensures Prefix(a, n) == Prefix(b, n) || Less(Prefix(a, n), Prefix(b, n))
  {
    if n > 0 && a != "" && a[0] == b[0] {
      PrefixIsMonotone(a[1..], b[1..], n - 1);
      assert Prefix(a, n) == [a[0]] + Prefix(a[1..], n - 1);
      assert Prefix(b, n) == [b[0]] + Prefix(b[1..], n - 1);
    }
  }
}
