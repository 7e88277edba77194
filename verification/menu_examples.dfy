/** Concrete menus for a view map built from the fixture components, and for a small hand-made map. */
module MenuExamples {
  import opened Wrappers
  import opened Types
  import opened PathOrder
  import opened MenuSort
  import opened MenuItems

  function View(title: Option<string>, menu: Option<MenuConfig>): ViewConfig {
    ViewConfig(title, None, None, menu)
  }

  const friends: ViewEntry := ("/profile/friends", View(Some("Friends"), None))
  const hidden: ViewEntry := ("/hidden", View(None, Some(MenuConfig(None, None, None, Some(true)))))
  const wildcard: ViewEntry := ("/test/*", View(Some("Wildcard"), None))
  const about: ViewEntry := ("/about", View(Some("About"), Some(MenuConfig(None, None, Some(1), None))))

  const friendsItem := MenuItem("/profile/friends", None, Some("Friends"), None)
  const wildcardItem := MenuItem("/test/*", None, Some("Wildcard"), None)
  const aboutItem := MenuItem("/about", None, Some("About"), Some(1))

  lemma FixtureVisible()
    ensures Visible([friends, hidden, wildcard, about]) == [friends, wildcard, about]
  {
    assert [friends, hidden, wildcard, about][1..] == [hidden, wildcard, about];
    assert [hidden, wildcard, about][1..] == [wildcard, about];
    assert [wildcard, about][1..] == [about];
    assert Visible([about]) == [about] by {
      assert [about][1..] == [];
    }
    assert Visible([wildcard, about]) == [wildcard, about];
    assert Visible([hidden, wildcard, about]) == [wildcard, about];
  }

  lemma FixtureItems()
    ensures ToMenuItems([friends, wildcard, about]) == [friendsItem, wildcardItem, aboutItem]
  {
    var r := ToMenuItems([friends, wildcard, about]);
    assert r[0] == friendsItem && r[1] == wildcardItem && r[2] == aboutItem;
  }

  lemma FixtureProject()
    ensures Project([friends, hidden, wildcard, about]) == [friendsItem, wildcardItem, aboutItem]
  {
    FixtureVisible();
    FixtureItems();
  }

  lemma FriendsBeforeWildcard()
    ensures Insert(friendsItem, [wildcardItem]) == [friendsItem, wildcardItem]
  {
    assert ComparePaths(friendsItem.to, wildcardItem.to) == Lt by {
      assert friendsItem.to[0] == wildcardItem.to[0];
      assert friendsItem.to[1..][0] < wildcardItem.to[1..][0];
    }
  }

  lemma AboutBeforeWildcard()
    ensures Insert(wildcardItem, [aboutItem]) == [aboutItem, wildcardItem]
  {
    assert Insert(wildcardItem, []) == [wildcardItem];
  }

  lemma AboutBeforeFriends()
    ensures Insert(friendsItem, [aboutItem, wildcardItem]) == [aboutItem, friendsItem, wildcardItem]
  {
    FriendsBeforeWildcard();
    assert [aboutItem, wildcardItem][1..] == [wildcardItem];
  }

  lemma FixtureSort()
    ensures Sort([friendsItem, wildcardItem, aboutItem]) == [aboutItem, friendsItem, wildcardItem]
  {
    assert [friendsItem, wildcardItem, aboutItem][1..] == [wildcardItem, aboutItem];
    assert [wildcardItem, aboutItem][1..] == [aboutItem];
    assert Sort([aboutItem]) == [aboutItem] by {
      assert [aboutItem][1..] == [];
    }
    AboutBeforeWildcard();
    AboutBeforeFriends();
  }

  /**
   * An ordered view comes first, an excluded view is dropped, and the
   * unordered views follow in path order, whatever the enumeration order.
   */
  lemma FixtureMenu()
    ensures MenuOf([friends, hidden, wildcard, about]) == [aboutItem, friendsItem, wildcardItem]
  {
    FixtureProject();
    FixtureSort();
  }

  const byId: ViewEntry := ("a/:id", View(Some("A"), None))
  const titled: ViewEntry := ("b", View(Some("B"), Some(MenuConfig(Some("Bee"), Some("icon-b"), Some(1), Some(false)))))
  const byIdItem := MenuItem("a/:id", None, Some("A"), None)
  const titledItem := MenuItem("b", Some("icon-b"), Some("Bee"), Some(1))

  lemma TitledProject()
    ensures Project([byId, titled]) == [byIdItem, titledItem]
  {
    assert Visible([byId, titled]) == [byId, titled] by {
      assert [byId, titled][1..] == [titled];
      assert [titled][1..] == [];
      assert !IsExcluded(titled.1) && !IsExcluded(byId.1);
      assert Visible([titled]) == [titled];
    }
    var items := ToMenuItems([byId, titled]);
    assert items[0] == byIdItem && items[1] == titledItem;
  }

  lemma TitledSort()
    ensures Sort([byIdItem, titledItem]) == [titledItem, byIdItem]
  {
    assert [byIdItem, titledItem][1..] == [titledItem];
    assert Sort([titledItem]) == [titledItem] by {
      assert [titledItem][1..] == [];
    }
    assert Insert(byIdItem, [titledItem]) == [titledItem, byIdItem] by {
      assert Insert(byIdItem, []) == [byIdItem];
    }
  }

  /** The menu title wins over the page title, and no view map gives no menu. */
  lemma TitlesAndMissingViews()
    ensures MenuOf([byId, titled]) == [titledItem, byIdItem]
    ensures CreateMenuItems(None) == []
    ensures CreateMenuItems(Some(VaadinObject(None))) == []
  {
    TitledProject();
    TitledSort();
  }
}
