/**
 * The comparator the menu is sorted with: explicit `order` ascending, an
 * absent `order` ranking after every explicit one, and ties broken by the
 * path comparison.
 */
module MenuOrder {
  import opened Wrappers
  import opened Types
  import opened PathOrder

  /**
   * Compares two optional orders; an absent order stands for the largest
   * possible order, so two absent orders tie.
   */
  function CompareOrders(a: Option<int>, b: Option<int>): (r: Ordering)
    ensures r == Eq <==> a == b
    ensures a.Some? && b.None? ==> r == Lt
    ensures a.None? && b.Some? ==> r == Gt
    ensures a.Some? && b.Some? ==> (r == Lt <==> a.value < b.value)
  {
    match (a, b)
    case (None, None) => Eq
    case (None, Some(_)) => Gt
    case (Some(_), None) => Lt
    case (Some(x), Some(y)) => if x < y then Lt else if x > y then Gt else Eq
  }

  /** The sort comparator: by order first, then by path. */
  function CompareItems(a: MenuItem, b: MenuItem): (r: Ordering)
    ensures r == Eq <==> a.order == b.order && a.to == b.to
    ensures a.order.Some? && b.order.None? ==> r == Lt
    ensures a.order.Some? && b.order.Some? && a.order.value < b.order.value ==> r == Lt
    ensures a.order == b.order ==> r == ComparePaths(a.to, b.to)
  {
    var byOrder := CompareOrders(a.order, b.order);
    if byOrder != Eq then byOrder else ComparePaths(a.to, b.to)
  }

  /** `a` may stand before `b` in the sorted menu. */
  predicate Precedes(a: MenuItem, b: MenuItem) {
    CompareItems(a, b) != Gt
  }

  /** Every item may stand before every later one. */
  ghost predicate Sorted(s: seq<MenuItem>) {
    forall i, j | 0 <= i < j < |s| :: Precedes(s[i], s[j])
  }

  /**
   * The ordering laws of the menu, stated without the comparator: explicit
   * orders ascend, explicitly ordered items come before unordered ones, and
   * items with equal orders (both absent included) ascend by path.
   */
  ghost predicate MenuOrdered(s: seq<MenuItem>) {
    && (forall i, j | 0 <= i < j < |s| && s[i].order.Some? && s[j].order.Some? ::
          s[i].order.value <= s[j].order.value)
    && (forall i, j | 0 <= i < |s| && 0 <= j < |s| && s[i].order.Some? && s[j].order.None? ::
          i < j)
    && (forall i, j | 0 <= i < j < |s| && s[i].order == s[j].order ::
          ComparePaths(s[i].to, s[j].to) != Gt)
  }

  /** Swapping two orders flips their comparison. */
  lemma CompareOrdersFlip(a: Option<int>, b: Option<int>)
    ensures CompareOrders(b, a) == CompareOrders(a, b).Flip()
  {
    match (a, b)
    case (Some(x), Some(y)) =>
      assert CompareOrders(a, b) == Gt <==> y < x;
    case _ =>
  }

  /** Swapping the arguments of the comparator flips its answer. */
  lemma CompareItemsFlip(a: MenuItem, b: MenuItem)
    ensures CompareItems(b, a) == CompareItems(a, b).Flip()
  {
    ComparePathsFlip(a.to, b.to);
  }

  /** Any two items are comparable one way or the other. */
  lemma PrecedesTotal(a: MenuItem, b: MenuItem)
    ensures Precedes(a, b) || Precedes(b, a)
  {
    CompareItemsFlip(a, b);
  }

  /** The comparator is transitive, so sorting by it is meaningful. */
  lemma PrecedesTransitive(a: MenuItem, b: MenuItem, c: MenuItem)
    requires Precedes(a, b) && Precedes(b, c)
    ensures Precedes(a, c)
  {
    if a.order == b.order == c.order && a.to != b.to && b.to != c.to {
      ComparePathsTransitive(a.to, b.to, c.to);
    }
  }

  /** Sortedness by the comparator is exactly the menu's ordering laws. */
  lemma SortedIffMenuOrdered(s: seq<MenuItem>)
    ensures Sorted(s) <==> MenuOrdered(s)
  {
    if Sorted(s) {
      forall i, j | 0 <= i < |s| && 0 <= j < |s| && s[i].order.Some? && s[j].order.None?
        ensures i < j
      {
        if j <= i {
          CompareItemsFlip(s[i], s[j]);
        }
      }
    }
    if MenuOrdered(s) {
      forall i, j | 0 <= i < j < |s|
        ensures Precedes(s[i], s[j])
      {
      }
    }
  }
}
