/**
 * Sorting menu items by the menu comparator. The source hands the comparator
 * to the platform's array sort; the model sorts by insertion and proves that
 * the sorted permutation is unique, so any correct sort yields the same list.
 */
module MenuSort {
  import opened Types
  import opened MenuOrder

  /** `y` may precede every item of `m`. */
  ghost predicate LowerBound(y: MenuItem, m: multiset<MenuItem>) {
    forall z | z in m :: Precedes(y, z)
  }

  /** A sorted sequence stays sorted when a lower bound of all its items is put in front. */
  lemma PrependSorted(y: MenuItem, s: seq<MenuItem>)
    requires Sorted(s) && LowerBound(y, multiset(s))
    ensures Sorted([y] + s)
  {
    forall j | 0 <= j < |s|
      ensures Precedes(y, s[j])
    {
      assert s[j] in multiset(s);
    }
  }

  /** The first item of a sorted sequence is a lower bound of all of it. */
  lemma HeadIsLowerBound(s: seq<MenuItem>)
    requires Sorted(s) && |s| > 0
    ensures LowerBound(s[0], multiset(s))
  {
    forall z | z in multiset(s)
      ensures Precedes(s[0], z)
    {
      var k :| 0 <= k < |s| && s[k] == z;
      if k == 0 {
        PrecedesTotal(z, z);
      }
    }
  }

  /** A lower bound of `x` and of the items of `s` bounds their union. */
  lemma LowerBoundUnion(y: MenuItem, x: MenuItem, s: seq<MenuItem>)
    requires Sorted(s) && |s| > 0 && y == s[0] && Precedes(y, x)
    ensures LowerBound(y, multiset(s[1..]) + multiset{x})
  {
    HeadIsLowerBound(s);
    assert s == [s[0]] + s[1..];
  }

  /** `x` precedes every item of `s` once it precedes the first. */
  lemma PrecedesAll(x: MenuItem, s: seq<MenuItem>)
    requires Sorted(s) && |s| > 0 && Precedes(x, s[0])
    ensures LowerBound(x, multiset(s))
  {
    HeadIsLowerBound(s);
    forall z | z in multiset(s)
      ensures Precedes(x, z)
    {
      PrecedesTransitive(x, s[0], z);
    }
  }

  /** Inserts `x` before the first item it may precede. */
  function Insert(x: MenuItem, s: seq<MenuItem>): (r: seq<MenuItem>)
    ensures multiset(r) == multiset(s) + multiset{x}
    ensures Sorted(s) ==> Sorted(r)
  {
    if |s| == 0 then [x]
    else if Precedes(x, s[0]) then
      assert Sorted(s) ==> Sorted([x] + s) by {
        if Sorted(s) {
          PrecedesAll(x, s);
          PrependSorted(x, s);
        }
      }
      [x] + s
    else
      var tail := Insert(x, s[1..]);
      assert s == [s[0]] + s[1..];
      assert Sorted(s) ==> Sorted([s[0]] + tail) by {
        if Sorted(s) {
          PrecedesTotal(x, s[0]);
          LowerBoundUnion(s[0], x, s);
          PrependSorted(s[0], tail);
        }
      }
      [s[0]] + tail
  }

  /** Insertion sort of the whole sequence. */
  function Sort(s: seq<MenuItem>): (r: seq<MenuItem>)
    ensures multiset(r) == multiset(s)
    ensures Sorted(r)
  {
    if |s| == 0 then []
    else
      assert s == [s[0]] + s[1..];
      Insert(s[0], Sort(s[1..]))
  }

  /** Sorting a sorted sequence changes nothing. */
  lemma {:induction false} SortOfSorted(s: seq<MenuItem>)
    requires Sorted(s)
    ensures Sort(s) == s
  {
    if |s| > 0 {
      SortOfSorted(s[1..]);
      assert s == [s[0]] + s[1..];
    }
  }

  /** The tail of a sorted sequence is sorted. */
  lemma SortedTail(s: seq<MenuItem>)
    requires Sorted(s) && |s| > 0
    ensures Sorted(s[1..])
  {
  }

  /** Two sorted sequences with the same items and distinct paths start alike. */
  lemma SortedHeadsAgree(a: seq<MenuItem>, b: seq<MenuItem>)
    requires Sorted(a) && Sorted(b) && |a| > 0 && |b| > 0
    requires multiset(a) == multiset(b)
    requires TargetsDistinct(a)
    ensures a[0] == b[0]
  {
    assert a[0] in multiset(b);
    var j :| 0 <= j < |b| && b[j] == a[0];
    assert b[0] in multiset(a);
    var i :| 0 <= i < |a| && a[i] == b[0];
    PrecedesTotal(a[0], a[0]);
    assert Precedes(a[0], b[0]) by {
      if i != 0 {
        assert Precedes(a[0], a[i]);
      }
    }
    assert Precedes(b[0], a[0]) by {
      if j != 0 {
        assert Precedes(b[0], b[j]);
      }
    }
    CompareItemsFlip(a[0], b[0]);
    assert a[0].to == a[i].to;
    assert i == 0;
  }

  /**
   * Two sorted sequences with the same items are equal, provided no two
   * items share a path: the comparator then never ties distinct items.
   */
  lemma {:induction false} SortedUnique(a: seq<MenuItem>, b: seq<MenuItem>)
    requires Sorted(a) && Sorted(b)
    requires multiset(a) == multiset(b)
    requires TargetsDistinct(a)
    ensures a == b
  {
    assert |b| == |multiset(b)| == |multiset(a)| == |a|;
    if |a| > 0 {
      SortedHeadsAgree(a, b);
      assert a == [a[0]] + a[1..] && b == [b[0]] + b[1..];
      assert multiset(a[1..]) == multiset(a) - multiset{a[0]};
      assert multiset(b[1..]) == multiset(b) - multiset{b[0]};
      SortedTail(a);
      SortedTail(b);
      SortedUnique(a[1..], b[1..]);
    }
  }
}
