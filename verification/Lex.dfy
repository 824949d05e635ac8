/** Keys are strings ordered lexicographically, as `String` and `std::string` compare them. */
module Lex {

  predicate Less(a: string, b: string) {
    b != [] && (a == [] || a[0] < b[0] || (a[0] == b[0] && Less(a[1..], b[1..])))
  }

  predicate LessEq(a: string, b: string) {
    a == b || Less(a, b)
  }

  lemma {:induction false} LessTransitive(a: string, b: string, c: string)
    requires Less(a, b) && Less(b, c)
    ensures Less(a, c)
  {
    if a == [] || a[0] != b[0] || b[0] != c[0] {
    } else {
      LessTransitive(a[1..], b[1..], c[1..]);
    }
  }

  lemma {:induction false} LessIrreflexive(a: string)
    ensures !Less(a, a)
  {
    if a == [] {
    } else {
      LessIrreflexive(a[1..]);
    }
  }

  lemma {:induction false} LessTotal(a: string, b: string)
    ensures a == b || Less(a, b) || Less(b, a)
  {
    if a == [] || b == [] || a[0] != b[0] {
    } else {
      LessTotal(a[1..], b[1..]);
      assert a == [a[0]] + a[1..] && b == [b[0]] + b[1..];
    }
  }

  lemma {:induction false} LessAsymmetric(a: string, b: string)
    requires Less(a, b)
    ensures !LessEq(b, a)
  {
    LessIrreflexive(a);
    if Less(b, a) {
      LessTransitive(a, b, a);
    }
  }

  lemma {:induction false} LessEqIsNotGreater(a: string, b: string)
    ensures LessEq(a, b) <==> !Less(b, a)
  {
    LessTotal(a, b);
    LessIrreflexive(a);
    if Less(a, b) {
      LessAsymmetric(a, b);
    }
  }

  /** The first character in which two keys differ decides their order. */
  lemma {:induction false} FirstDifferenceDecides(a: string, b: string, i: nat)
    requires i < |a| && i < |b| && a[..i] == b[..i] && a[i] != b[i]
    ensures Less(a, b) <==> a[i] < b[i]
  {
    if i == 0 {
    } else {
      assert a[0] == a[..i][0] && b[0] == b[..i][0];
      assert a[1..][..i - 1] == a[..i][1..] && b[1..][..i - 1] == b[..i][1..];
      FirstDifferenceDecides(a[1..], b[1..], i - 1);
    }
  }

  /** Where none differ the shorter key comes first. */
  lemma {:induction false} ProperPrefixIsLess(a: string, b: string)
    requires a < b
    ensures Less(a, b) && !Less(b, a)
  {
    if a == [] {
    } else {
      ProperPrefixIsLess(a[1..], b[1..]);
    }
  }

  /** Everything the other modules need from the order, in one statement. */
  lemma StrictTotalOrder()
    ensures forall a, b, c :: Less(a, b) && Less(b, c) ==> Less(a, c)
    ensures forall a, b :: Less(a, b) ==> !Less(b, a) && a != b
    ensures forall a, b :: a == b || Less(a, b) || Less(b, a)
  {
    forall a, b, c | Less(a, b) && Less(b, c) ensures Less(a, c) {
      LessTransitive(a, b, c);
    }
    forall a, b | Less(a, b) ensures !Less(b, a) && a != b {
      LessAsymmetric(a, b);
    }
    forall a, b ensures a == b || Less(a, b) || Less(b, a) {
      LessTotal(a, b);
    }
  }
}
