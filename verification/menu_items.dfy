/**
 * The menu projection `createMenuItems`: drop the excluded views, turn each
 * remaining `[path, config]` entry into a menu item, and sort the items.
 */
module MenuItems {
  import opened Wrappers
  import opened Types
  import opened PathOrder
  import opened MenuOrder
  import opened MenuSort
  import opened Multisets

  /**
   * A view is hidden from the menu when its menu configuration sets
   * `exclude`; a missing menu or a missing flag keeps it listed.
   */
  predicate IsExcluded(config: ViewConfig)
    ensures config.menu.None? ==> !IsExcluded(config)
    ensures config.menu.Some? && config.menu.value.exclude.None? ==> !IsExcluded(config)
    ensures config.menu.Some? && config.menu.value.exclude.Some? ==>
      (IsExcluded(config) <==> config.menu.value.exclude.value)
  {
    config.menu.Some? && config.menu.value.exclude == Some(true)
  }

  /** The menu item for one view: its path, the menu's icon and order, and a resolved title. */
  function ToMenuItem(path: string, config: ViewConfig): (r: MenuItem)
    ensures r.to == path
    ensures config.menu.None? ==> r.icon.None? && r.order.None?
    ensures config.menu.Some? ==> r.icon == config.menu.value.icon && r.order == config.menu.value.order
    ensures config.menu.Some? && config.menu.value.title.Some? ==> r.title == config.menu.value.title
    ensures config.menu.None? || config.menu.value.title.None? ==> r.title == config.title
  {
    match config.menu
    case None => MenuItem(path, None, config.title, None)
    case Some(menu) => MenuItem(path, menu.icon, menu.title.OrElse(config.title), menu.order)
  }

  /** Nothing but the titles, icon and order of a view reaches its menu item. */
  lemma OnlyMenuFieldsReachItem(path: string, config: ViewConfig, route: Option<string>,
                                params: Option<map<string, ParamKind>>, exclude: Option<bool>)
    ensures ToMenuItem(path, config) == ToMenuItem(path, ViewConfig(config.title, route, params,
      if config.menu.Some? then Some(config.menu.value.(exclude := exclude)) else None))
  {
  }

  /** The entries that are not excluded, in enumeration order. */
  function Visible(entries: seq<ViewEntry>): (r: seq<ViewEntry>)
    ensures forall e :: e in r <==> e in entries && !IsExcluded(e.1)
    ensures PathsDistinct(entries) ==> PathsDistinct(r)
  {
    if |entries| == 0 then []
    else
      var rest := Visible(entries[1..]);
      assert PathsDistinct(entries) ==> forall e | e in rest :: e.0 != entries[0].0;
      if IsExcluded(entries[0].1) then rest else [entries[0]] + rest
  }

  /**
   * Each entry turned into its menu item, in the same order: the items are
   * exactly the entries' items, and the i-th item leads to the i-th path.
   */
  function ToMenuItems(entries: seq<ViewEntry>): (r: seq<MenuItem>)
    ensures |r| == |entries|
    ensures forall i | 0 <= i < |r| :: r[i].to == entries[i].0
    ensures forall e | e in entries :: ToMenuItem(e.0, e.1) in r
    ensures forall item | item in r :: exists e :: e in entries && item == ToMenuItem(e.0, e.1)
    ensures PathsDistinct(entries) ==> TargetsDistinct(r)
  {
    var r := seq(|entries|, i requires 0 <= i < |entries| => ToMenuItem(entries[i].0, entries[i].1));
    assert forall item | item in r :: exists e :: e in entries && item == ToMenuItem(e.0, e.1) by {
      forall item | item in r
        ensures exists e :: e in entries && item == ToMenuItem(e.0, e.1)
      {
        var k :| 0 <= k < |r| && r[k] == item;
        assert entries[k] in entries;
      }
    }
    assert forall e | e in entries :: ToMenuItem(e.0, e.1) in r by {
      forall e | e in entries
        ensures ToMenuItem(e.0, e.1) in r
      {
        var k :| 0 <= k < |entries| && entries[k] == e;
        assert r[k] == ToMenuItem(e.0, e.1);
      }
    }
    r
  }

  /**
   * The unsorted menu, filter then map: an item is listed exactly when it is
   * the item of an entry that is not excluded.
   */
  function Project(entries: seq<ViewEntry>): (r: seq<MenuItem>)
    ensures forall item :: item in r <==>
      exists e :: e in entries && !IsExcluded(e.1) && item == ToMenuItem(e.0, e.1)
    ensures PathsDistinct(entries) ==> TargetsDistinct(r)
  {
    ToMenuItems(Visible(entries))
  }

  /**
   * The menu for the views of a Vaadin object: empty without a view map,
   * otherwise the projected items in comparator order.
   */
  function CreateMenuItems(vaadin: Option<VaadinObject>): (r: seq<MenuItem>)
    ensures vaadin.None? || vaadin.value.views.None? ==> r == []
    ensures vaadin.Some? && vaadin.value.views.Some? ==>
      Sorted(r) && multiset(r) == multiset(Project(vaadin.value.views.value))
  {
    match vaadin
    case Some(VaadinObject(Some(views))) => Sort(Project(views))
    case _ => []
  }

  /** The menu for an enumerated view map: the projected items in comparator order. */
  function MenuOf(entries: seq<ViewEntry>): (r: seq<MenuItem>)
    ensures Sorted(r) && multiset(r) == multiset(Project(entries))
  {
    CreateMenuItems(Some(VaadinObject(Some(entries))))
  }

  /** Filtering and mapping distribute over concatenation. */
  lemma {:induction false} ProjectConcat(a: seq<ViewEntry>, b: seq<ViewEntry>)
    ensures Project(a + b) == Project(a) + Project(b)
  {
    VisibleConcat(a, b);
    ToMenuItemsConcat(Visible(a), Visible(b));
  }

  lemma ToMenuItemsAt(entries: seq<ViewEntry>, i: nat)
    requires i < |entries|
    ensures ToMenuItems(entries)[i] == ToMenuItem(entries[i].0, entries[i].1)
  {
  }

  lemma ToMenuItemsConcat(a: seq<ViewEntry>, b: seq<ViewEntry>)
    ensures ToMenuItems(a + b) == ToMenuItems(a) + ToMenuItems(b)
  {
    var l := ToMenuItems(a + b);
    var la := ToMenuItems(a);
    var lb := ToMenuItems(b);
    forall i | 0 <= i < |l|
      ensures l[i] == (la + lb)[i]
    {
      ToMenuItemsAt(a + b, i);
      if i < |a| {
        ToMenuItemsAt(a, i);
      } else {
        ToMenuItemsAt(b, i - |a|);
      }
    }
  }

  lemma {:induction false} VisibleConcat(a: seq<ViewEntry>, b: seq<ViewEntry>)
    ensures Visible(a + b) == Visible(a) + Visible(b)
  {
    if |a| > 0 {
      assert (a + b)[1..] == a[1..] + b;
      VisibleConcat(a[1..], b);
    } else {
      assert a + b == b;
    }
  }

  /** Reordering the entries reorders the projected items and nothing more. */
  lemma {:induction false} ProjectPermutation(a: seq<ViewEntry>, b: seq<ViewEntry>)
    requires multiset(a) == multiset(b)
    ensures multiset(Project(a)) == multiset(Project(b))
    decreases |a|
  {
    if |a| == 0 {
      assert |b| == |multiset(b)| == 0;
      assert b == [];
    } else {
      var x := a[0];
      assert x in multiset(b);
      var k :| 0 <= k < |b| && b[k] == x;
      var rest := b[..k] + b[k + 1..];
      assert b == b[..k] + [x] + b[k + 1..];
      assert a == [x] + a[1..];
      assert multiset(a[1..]) == multiset(a) - multiset{x};
      assert multiset(b) == multiset(b[..k]) + multiset{x} + multiset(b[k + 1..]);
      assert multiset(rest) == multiset(b) - multiset{x};
      ProjectPermutation(a[1..], rest);
      ProjectConcat([x], a[1..]);
      ProjectConcat(b[..k] + [x], b[k + 1..]);
      ProjectConcat(b[..k], [x]);
      ProjectConcat(b[..k], b[k + 1..]);
    }
  }

  /** A permutation of items with distinct targets has distinct targets. */
  lemma TargetsDistinctPermutation(a: seq<MenuItem>, b: seq<MenuItem>)
    requires TargetsDistinct(b) && multiset(a) == multiset(b)
    ensures TargetsDistinct(a)
  {
    DistinctPermutation(a, b);
    forall i, j | 0 <= i < j < |a|
      ensures a[i].to != a[j].to
    {
      assert a[i] in multiset(b) && a[j] in multiset(b);
      var p :| 0 <= p < |b| && b[p] == a[i];
      var q :| 0 <= q < |b| && b[q] == a[j];
    }
  }

  /**
   * Exactly the views that are not excluded are listed, each once, as its
   * own menu item.
   */
  lemma MenuMembership(entries: seq<ViewEntry>)
    requires PathsDistinct(entries)
    ensures forall item :: item in MenuOf(entries) <==>
      exists i :: 0 <= i < |entries| && !IsExcluded(entries[i].1) && item == ToMenuItem(entries[i].0, entries[i].1)
    ensures TargetsDistinct(MenuOf(entries))
  {
    var r := MenuOf(entries);
    var p := Project(entries);
    forall item
      ensures item in r <==> exists i :: 0 <= i < |entries| && !IsExcluded(entries[i].1) && item == ToMenuItem(entries[i].0, entries[i].1)
    {
      assert item in r <==> item in multiset(p);
      if item in p {
        var e :| e in entries && !IsExcluded(e.1) && item == ToMenuItem(e.0, e.1);
        var i :| 0 <= i < |entries| && entries[i] == e;
      }
      if exists i :: 0 <= i < |entries| && !IsExcluded(entries[i].1) && item == ToMenuItem(entries[i].0, entries[i].1) {
        var i :| 0 <= i < |entries| && !IsExcluded(entries[i].1) && item == ToMenuItem(entries[i].0, entries[i].1);
        assert entries[i] in entries;
      }
    }
    TargetsDistinctPermutation(r, Project(entries));
  }

  /** An excluded view never shows up in the menu, whatever its order or title. */
  lemma ExcludedNeverListed(entries: seq<ViewEntry>)
    requires PathsDistinct(entries)
    ensures forall i, k | 0 <= i < |entries| && 0 <= k < |MenuOf(entries)| && IsExcluded(entries[i].1) ::
      MenuOf(entries)[k].to != entries[i].0
  {
    var r := MenuOf(entries);
    MenuMembership(entries);
    forall i, k | 0 <= i < |entries| && 0 <= k < |r| && IsExcluded(entries[i].1)
      ensures r[k].to != entries[i].0
    {
      assert r[k] in r;
      var j :| 0 <= j < |entries| && !IsExcluded(entries[j].1) && r[k] == ToMenuItem(entries[j].0, entries[j].1);
      assert i != j;
    }
  }

  /**
   * The menu obeys the ordering laws; with distinct paths, items of equal
   * order (both absent included) stand in strictly ascending path order.
   */
  lemma MenuOrderLaws(entries: seq<ViewEntry>)
    requires PathsDistinct(entries)
    ensures MenuOrdered(MenuOf(entries))
    ensures forall i, j | 0 <= i < j < |MenuOf(entries)| && MenuOf(entries)[i].order == MenuOf(entries)[j].order ::
      ComparePaths(MenuOf(entries)[i].to, MenuOf(entries)[j].to) == Lt
  {
    var r := MenuOf(entries);
    SortedIffMenuOrdered(r);
    MenuMembership(entries);
  }

  /** Whatever order the views are enumerated in, the menu is the same. */
  lemma PermutationInvariant(a: seq<ViewEntry>, b: seq<ViewEntry>)
    requires PathsDistinct(a)
    requires multiset(a) == multiset(b)
    ensures MenuOf(a) == MenuOf(b)
  {
    ProjectPermutation(a, b);
    MenuMembership(a);
    SortedUnique(MenuOf(a), MenuOf(b));
  }

  /** `entries` lists each view of `views` once, paired with its configuration. */
  ghost predicate Enumerates(entries: seq<ViewEntry>, views: map<string, ViewConfig>) {
    && PathsDistinct(entries)
    && (forall i | 0 <= i < |entries| :: entries[i].0 in views && views[entries[i].0] == entries[i].1)
    && (forall p | p in views :: exists i :: 0 <= i < |entries| && entries[i].0 == p)
  }

  /** Two enumerations of the same view map give the same menu. */
  lemma IndependentOfEnumeration(a: seq<ViewEntry>, b: seq<ViewEntry>, views: map<string, ViewConfig>)
    requires Enumerates(a, views) && Enumerates(b, views)
    ensures MenuOf(a) == MenuOf(b)
  {
    forall e
      ensures e in a <==> e in b
    {
      if e in a {
        var j :| 0 <= j < |b| && b[j].0 == e.0;
      }
      if e in b {
        var j :| 0 <= j < |a| && a[j].0 == e.0;
      }
    }
    SameElementsSameMultiset(a, b);
    PermutationInvariant(a, b);
  }

  /** Any sort of the projected items by the comparator yields this menu. */
  lemma AnySortAgrees(entries: seq<ViewEntry>, s: seq<MenuItem>)
    requires PathsDistinct(entries)
    requires Sorted(s) && multiset(s) == multiset(Project(entries))
    ensures s == MenuOf(entries)
  {
    MenuMembership(entries);
    SortedUnique(MenuOf(entries), s);
  }

  /** Sorting the menu again leaves it unchanged. */
  lemma ResortIsIdentity(vaadin: Option<VaadinObject>)
    ensures Sort(CreateMenuItems(vaadin)) == CreateMenuItems(vaadin)
  {
    SortOfSorted(CreateMenuItems(vaadin));
  }
}
