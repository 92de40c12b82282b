/**
 * `java.lang.String.compareTo`, the comparison `Employe.compareTo` is built from.
 * Characters are compared by their numeric value; the first difference decides,
 * and when one string is a prefix of the other the length difference is returned.
 */
module JavaString {

  /** `a.compareTo(b)`: zero exactly when the strings are equal. */
  function CompareTo(a: string, b: string): (r: int)
    ensures r == 0 <==> a == b
    decreases |a|
  {
    if a == [] || b == [] then |a| - |b|
    else if a[0] != b[0] then a[0] as int - b[0] as int
    else
      var rest := CompareTo(a[1..], b[1..]);
      assert a == [a[0]] + a[1..] && b == [b[0]] + b[1..];
      rest
  }

  /** Reference definition of the lexicographic order: `a` sorts strictly before `b`. */
  ghost predicate LexLess(a: string, b: string) {
    || (exists k :: 0 <= k < |a| && k < |b| && a[..k] == b[..k] && a[k] < b[k])
    || (|a| < |b| && a == b[..|a|])
  }

  /** At the first position where the strings differ, the result is the difference of the characters there. */
  lemma {:induction false} CompareToAtFirstDifference(a: string, b: string, k: nat)
    requires k < |a| && k < |b| && a[..k] == b[..k] && a[k] != b[k]
    ensures CompareTo(a, b) == a[k] as int - b[k] as int
    decreases k
  {
    if k > 0 {
      assert a[0] == a[..k][0] == b[..k][0] == b[0];
      assert a[1..][..k - 1] == a[1..k] == a[..k][1..];
      assert b[1..][..k - 1] == b[1..k] == b[..k][1..];
      CompareToAtFirstDifference(a[1..], b[1..], k - 1);
    }
  }

  /** When one string is a prefix of the other, the result is the difference of the lengths. */
  lemma {:induction false} CompareToOfPrefix(a: string, b: string)
    requires (|a| <= |b| && a == b[..|a|]) || (|b| <= |a| && b == a[..|b|])
    ensures CompareTo(a, b) == |a| - |b|
    decreases |a|
  {
    if a != [] && b != [] {
      assert a[0] == b[0];
      CompareToOfPrefix(a[1..], b[1..]);
    }
  }

  /** The sign of the result agrees with the lexicographic order, in both directions. */
  lemma {:induction false} CompareToNegativeIsLexLess(a: string, b: string)
    ensures CompareTo(a, b) < 0 <==> LexLess(a, b)
    decreases |a|
  {
    if a == [] {
      assert |b| > 0 ==> a == b[..|a|];
    } else if b == [] {
      assert !LexLess(a, b);
    } else if a[0] != b[0] {
      if a[0] < b[0] {
        assert a[..0] == b[..0];
      } else {
        assert |a| < |b| ==> a[0] != b[..|a|][0];
      }
    } else {
      CompareToNegativeIsLexLess(a[1..], b[1..]);
      LexLessOfTails(a, b);
    }
  }

  /** Equal first characters: the order is decided by the tails. */
  lemma LexLessOfTails(a: string, b: string)
    requires a != [] && b != [] && a[0] == b[0]
    ensures LexLess(a, b) <==> LexLess(a[1..], b[1..])
  {
    var a', b' := a[1..], b[1..];
    if LexLess(a, b) {
      if k :| 0 <= k < |a| && k < |b| && a[..k] == b[..k] && a[k] < b[k] {
        assert k > 0;
        assert a'[..k - 1] == a[..k][1..] == b[..k][1..] == b'[..k - 1];
        assert a'[k - 1] < b'[k - 1];
      } else {
        assert a' == b[..|a|][1..] == b'[..|a'|];
      }
    }
    if LexLess(a', b') {
      if k :| 0 <= k < |a'| && k < |b'| && a'[..k] == b'[..k] && a'[k] < b'[k] {
        assert a[..k + 1] == [a[0]] + a'[..k];
        assert b[..k + 1] == [b[0]] + b'[..k];
        assert a[k + 1] < b[k + 1];
      } else {
        assert a == [a[0]] + a' && b[..|a|] == [b[0]] + b'[..|a'|];
      }
    }
  }

  /** Swapping the arguments negates the result. */
  lemma {:induction false} CompareToAntisymmetric(a: string, b: string)
    ensures CompareTo(a, b) == -CompareTo(b, a)
    decreases |a|
  {
    if a != [] && b != [] && a[0] == b[0] {
      CompareToAntisymmetric(a[1..], b[1..]);
    }
  }

  /** The strict order is transitive. */
  lemma {:induction false} CompareToTransitive(a: string, b: string, c: string)
    requires CompareTo(a, b) < 0 && CompareTo(b, c) < 0
    ensures CompareTo(a, c) < 0
    decreases |a|
  {
    if a != [] {
      assert b != [] && c != [];
      if a[0] == b[0] == c[0] {
        CompareToTransitive(a[1..], b[1..], c[1..]);
      }
    }
  }
}
