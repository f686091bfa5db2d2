/**
 * The ordering that JavaScript's relational operators give to strings:
 * character by character from the left, the first differing character
 * decides, and a proper prefix comes first. Dafny's own `<` on sequences
 * means "proper prefix", so the lexicographic order is defined here.
 */
module LexOrder {

  /** JavaScript `a < b` on two strings. */
  predicate Less(a: string, b: string)
    decreases |a|
  {
    if |b| == 0 then false
    else if |a| == 0 then true
    else if a[0] != b[0] then a[0] < b[0]
    else Less(a[1..], b[1..])
  }

  /** JavaScript `a <= b` on two strings, which is defined as `!(b < a)`. */
  predicate AtMost(a: string, b: string) {
    !Less(b, a)
  }

  /** JavaScript `a >= b` on two strings, which is defined as `!(a < b)`. */
  predicate AtLeast(a: string, b: string) {
    !Less(a, b)
  }

  lemma {:induction false} LessIrreflexive(a: string)
    ensures !Less(a, a)
    decreases |a|
  {
    if |a| > 0 {
      LessIrreflexive(a[1..]);
    }
  }

  lemma {:induction false} LessAsymmetric(a: string, b: string)
    ensures Less(a, b) ==> !Less(b, a)
    decreases |a|
  {
    if |a| > 0 && |b| > 0 && a[0] == b[0] {
      LessAsymmetric(a[1..], b[1..]);
    }
  }

  lemma {:induction false} LessTransitive(a: string, b: string, c: string)
    requires Less(a, b) && Less(b, c)
    ensures Less(a, c)
    decreases |a|
  {
    if |a| > 0 && a[0] == b[0] && b[0] == c[0] {
      LessTransitive(a[1..], b[1..], c[1..]);
    }
  }

  /** Any two strings are ordered one way or the other, or are equal. */
  lemma {:induction false} LessTotal(a: string, b: string)
    ensures Less(a, b) || a == b || Less(b, a)
    decreases |a|
  {
    if |a| > 0 && |b| > 0 && a[0] == b[0] {
      LessTotal(a[1..], b[1..]);
      if a[1..] == b[1..] {
        assert a == [a[0]] + a[1..] && b == [b[0]] + b[1..];
      }
    }
  }

  /** JavaScript's `<=` on strings is "less than or equal" in the usual sense. */
  lemma AtMostIsLessOrEqual(a: string, b: string)
    ensures AtMost(a, b) <==> Less(a, b) || a == b
  {
    LessTotal(a, b);
    LessAsymmetric(a, b);
    LessIrreflexive(a);
  }

  /** A proper prefix (Dafny's built-in `<` on sequences) sorts first. */
  lemma {:induction false} ProperPrefixIsLess(a: string, b: string)
    requires a < b
    ensures Less(a, b)
    decreases |a|
  {
    if |a| > 0 {
      assert a[1..] < b[1..] by {
        assert a[1..] == b[1..|a|];
      }
      ProperPrefixIsLess(a[1..], b[1..]);
    }
  }
}
