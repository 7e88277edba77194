/**
 * The tie-break comparison of menu paths. The source compares paths with an
 * `en-US` collator; here the collator is the code-point lexicographic order
 * on strings, a fixed strict total order.
 */
module PathOrder {

  /** The sign of a three-way comparison. */
  datatype Ordering = Lt | Eq | Gt {
    function Flip(): Ordering {
      match this
      case Lt => Gt
      case Eq => Eq
      case Gt => Lt
    }
  }

  /** Lexicographic comparison of two strings, character by character. */
  function ComparePaths(a: string, b: string): (r: Ordering)
    ensures r == Eq <==> a == b
    ensures r == Lt && |a| > 0 && |b| > 0 ==> a[0] <= b[0]
  {
    if |a| == 0 && |b| == 0 then Eq
    else if |a| == 0 then Lt
    else if |b| == 0 then Gt
    else if a[0] < b[0] then Lt
    else if a[0] > b[0] then Gt
    else
      var r := ComparePaths(a[1..], b[1..]);
      assert a == [a[0]] + a[1..] && b == [b[0]] + b[1..];
      r
  }

  /** Reference definition: `a` is a proper prefix of `b`, or the first difference favours `a`. */
  ghost predicate LexLess(a: string, b: string) {
    || (|a| < |b| && a == b[..|a|])
    || exists k :: 0 <= k < |a| && k < |b| && a[..k] == b[..k] && a[k] < b[k]
  }

  /** Swapping the arguments flips the answer. */
  lemma {:induction false} ComparePathsFlip(a: string, b: string)
    ensures ComparePaths(b, a) == ComparePaths(a, b).Flip()
  {
    if |a| > 0 && |b| > 0 && a[0] == b[0] {
      ComparePathsFlip(a[1..], b[1..]);
    }
  }

  /** "Before" on paths is transitive. */
  lemma {:induction false} ComparePathsTransitive(a: string, b: string, c: string)
    requires ComparePaths(a, b) == Lt && ComparePaths(b, c) == Lt
    ensures ComparePaths(a, c) == Lt
  {
    if |a| > 0 && |b| > 0 && |c| > 0 && a[0] == b[0] == c[0] {
      ComparePathsTransitive(a[1..], b[1..], c[1..]);
    }
  }

  /** The comparison agrees with the reference definition of lexicographic order. */
  lemma {:induction false} ComparePathsIsLexLess(a: string, b: string)
    ensures ComparePaths(a, b) == Lt <==> LexLess(a, b)
  {
    if |a| == 0 || |b| == 0 {
      if |a| == 0 && |b| > 0 {
        assert a == b[..0];
      }
    } else if a[0] < b[0] {
      assert a[..0] == b[..0];
    } else if a[0] > b[0] {
      if |a| < |b| {
        assert a[0] != b[..|a|][0];
      }
      forall k | 0 < k <= |a| && k <= |b|
        ensures a[..k] != b[..k]
      {
        assert a[..k][0] != b[..k][0];
      }
    } else {
      ComparePathsIsLexLess(a[1..], b[1..]);
      LexLessTail(a, b);
    }
  }

  /** Strings with the same first character compare as their tails do. */
  lemma LexLessTail(a: string, b: string)
    requires |a| > 0 && |b| > 0 && a[0] == b[0]
    ensures LexLess(a, b) <==> LexLess(a[1..], b[1..])
  {
    if LexLess(a[1..], b[1..]) {
      if |a[1..]| < |b[1..]| && a[1..] == b[1..][..|a[1..]|] {
        assert a == b[..|a|];
      } else {
        var k :| 0 <= k < |a[1..]| && k < |b[1..]| && a[1..][..k] == b[1..][..k] && a[1..][k] < b[1..][k];
        assert a[..k + 1] == [a[0]] + a[1..][..k];
        assert b[..k + 1] == [b[0]] + b[1..][..k];
        assert a[k + 1] < b[k + 1];
      }
    }
    if LexLess(a, b) {
      if |a| < |b| && a == b[..|a|] {
        assert a[1..] == b[1..][..|a[1..]|];
      } else {
        var k :| 0 <= k < |a| && k < |b| && a[..k] == b[..k] && a[k] < b[k];
        assert k > 0;
        assert a[1..][..k - 1] == a[..k][1..] == b[..k][1..] == b[1..][..k - 1];
        assert a[1..][k - 1] < b[1..][k - 1];
      }
    }
  }
}
