# Navigation-menu projection of the Hilla file router

This project models `createMenuItems`, the function of the Hilla file router that
turns the view map supplied by the server (path → view configuration) into the
ordered list of navigation-menu items. It does three things:

- **filter**: views whose `menu.exclude` is set are dropped;
- **map**: each remaining `[path, config]` entry becomes `{to, icon, title, order}`.
  Here `title` is the menu title when present, otherwise the view's own title;
- **sort**: items are ordered by `order` ascending. A missing `order` ranks after
  every explicit one. Ties, including two missing orders, are broken by comparing
  the paths.

The model is purely functional.

- `Types` holds the view configuration, the menu configuration, the menu item and
  the global object that carries the view map.
- `PathOrder` is the path comparison: code-point lexicographic order, proved to be
  a strict total order and proved equal to the prefix/first-difference definition.
  It stands in for the source's `en-US` collator, which is not a strict total order
  (see "## Left out").
- `MenuOrder` is the sort comparator, together with the ordering laws it implies.
- `MenuSort` is an insertion sort by that comparator. It proves that the sorted
  permutation of items with distinct paths is unique.
- `MenuItems` is the projection itself. Its main results:
  - exactly the non-excluded views appear, each once;
  - the result obeys the ordering laws;
  - under the code-point path order, the result depends only on the view map, not on
    the order in which its entries are enumerated. The source's collator can tie
    distinct paths, and then this does not hold for the source (see "## Left out");
  - sorting the result again changes nothing.
- `MenuExamples` computes the menu for a view map built from the repository's fixture
  components, and for a small hand-made map.
- `Wrappers` (`Option`) and `Multisets` (facts about sequences without repeats) are
  helpers.

The view map is passed as a sequence of `(path, config)` pairs, which is what
`Object.entries` yields. Its paths are distinct because they are the keys of an
object. The lemmas that need this fact state it as `PathsDistinct`.

## Model

| member | source | states |
|---|---|---|
| PathOrder.ComparePaths | packages/ts/file-router/src/runtime/createMenuItems.ts:32 | the path comparison answers "equal" exactly for equal paths, and "before" only when the first characters do not decrease |
| PathOrder.ComparePathsFlip | packages/ts/file-router/src/runtime/createMenuItems.ts:32 | swapping the two paths flips the answer (antisymmetry of the tie-break) |
| PathOrder.ComparePathsTransitive | packages/ts/file-router/src/runtime/createMenuItems.ts:32 | the tie-break order is transitive |
| PathOrder.ComparePathsIsLexLess | packages/ts/file-router/src/runtime/createMenuItems.ts:32 | the comparison is exactly lexicographic order: a proper prefix, or a smaller character at the first difference |
| MenuOrder.CompareOrders | packages/ts/file-router/src/runtime/createMenuItems.ts:31 | orders compare as integers; a missing order ranks after every explicit one, in either argument position; two missing orders tie |
| MenuOrder.CompareOrdersFlip | packages/ts/file-router/src/runtime/createMenuItems.ts:31 | swapping two orders flips their comparison |
| MenuOrder.CompareItems | packages/ts/file-router/src/runtime/createMenuItems.ts:30-33 | the comparator ties only items with equal order and path, puts ordered items before unordered ones and smaller orders first, and falls back to the path comparison on equal orders |
| MenuOrder.CompareItemsFlip | packages/ts/file-router/src/runtime/createMenuItems.ts:30-33 | swapping the arguments of the comparator flips its answer |
| MenuOrder.PrecedesTotal | packages/ts/file-router/src/runtime/createMenuItems.ts:30-33 | any two items are comparable |
| MenuOrder.PrecedesTransitive | packages/ts/file-router/src/runtime/createMenuItems.ts:30-33 | the comparator's "may precede" is transitive, so the comparator is consistent |
| MenuOrder.SortedIffMenuOrdered | packages/ts/file-router/src/runtime/createMenuItems.ts:4-8 | being sorted by the comparator is equivalent, in both directions, to the documented ordering laws |
| MenuSort.Insert | packages/ts/file-router/src/runtime/createMenuItems.ts:30-33 | insertion adds exactly the one item and keeps a sorted list sorted |
| MenuSort.Sort | packages/ts/file-router/src/runtime/createMenuItems.ts:30-33 | sorting yields a permutation of its input that is sorted by the comparator |
| MenuSort.SortOfSorted | packages/ts/file-router/src/runtime/createMenuItems.ts:30-33 | sorting an already sorted list returns it unchanged |
| MenuSort.SortedUnique | packages/ts/file-router/src/runtime/createMenuItems.ts:30-33 | two sorted permutations of the same items with distinct paths are equal |
| MenuItems.IsExcluded | packages/ts/file-router/src/runtime/createMenuItems.ts:21 | a view is excluded exactly when its menu sets `exclude` to true; a missing menu or a missing flag keeps it listed |
| MenuItems.ToMenuItem | packages/ts/file-router/src/runtime/createMenuItems.ts:23-28 | an item leads to the view's path and carries the menu icon and order; its title is the menu title when present, otherwise the view title |
| MenuItems.OnlyMenuFieldsReachItem | packages/ts/file-router/src/runtime/createMenuItems.ts:23-28 | the view's route, params and exclude flag never reach its menu item |
| MenuItems.Visible | packages/ts/file-router/src/runtime/createMenuItems.ts:21 | an entry survives the filter exactly when it is not excluded, and the filter keeps paths distinct |
| MenuItems.ToMenuItems | packages/ts/file-router/src/runtime/createMenuItems.ts:22-28 | mapping keeps the length, the i-th item leads to the i-th path, the items are exactly the entries' items, and distinct paths give distinct targets |
| MenuItems.Project | packages/ts/file-router/src/runtime/createMenuItems.ts:19-28 | after filter and map, an item is listed exactly when it is the item of a non-excluded entry, and distinct paths give distinct targets |
| MenuItems.CreateMenuItems | packages/ts/file-router/src/runtime/createMenuItems.ts:13-35 | no global object or no view map gives an empty menu; otherwise the menu is a comparator-sorted permutation of the filtered, mapped entries |
| MenuItems.MenuOf | packages/ts/file-router/src/runtime/createMenuItems.ts:18-33 | when a view map is present, the menu is a comparator-sorted permutation of the projected entries |
| MenuItems.ProjectPermutation | packages/ts/file-router/src/runtime/createMenuItems.ts:19-28 | reordering the entries only reorders the projected items |
| MenuItems.MenuMembership | packages/ts/file-router/src/runtime/createMenuItems.ts:19-33 | an item is in the menu exactly when it is the item of a non-excluded view, and no two items lead to the same path |
| MenuItems.ExcludedNeverListed | packages/ts/file-router/src/runtime/createMenuItems.ts:21 | no menu item leads to the path of an excluded view, whatever its order or title |
| MenuItems.MenuOrderLaws | packages/ts/file-router/src/runtime/createMenuItems.ts:4-8 | the menu obeys the ordering laws: explicit orders ascend and come before missing ones, and items with equal orders stand in strictly ascending path order |
| MenuItems.PermutationInvariant | packages/ts/file-router/src/runtime/createMenuItems.ts:18-33 | permuting the enumerated entries gives the same menu, under the code-point path order |
| MenuItems.IndependentOfEnumeration | packages/ts/file-router/src/runtime/createMenuItems.ts:18-33 | any two enumerations of the same view map give the same menu, under the code-point path order |
| MenuItems.AnySortAgrees | packages/ts/file-router/src/runtime/createMenuItems.ts:30-33 | every sort of the projected items by the comparator gives this menu, so the choice of sorting algorithm does not matter |
| MenuItems.ResortIsIdentity | packages/ts/file-router/src/runtime/createMenuItems.ts:30-33 | sorting the menu again leaves it unchanged |
| MenuExamples.FixtureMenu | packages/ts/hilla-file-router/test/utils.tsx:170-210 | for a view map built from the fixture components (about with order 1, an excluded hidden view, two unordered views) the menu is about, then the unordered views by path, without hidden |
| MenuExamples.TitlesAndMissingViews | packages/ts/file-router/src/runtime/createMenuItems.ts:18-34 | a menu title wins over the view title, an explicit order comes first, and a missing object or view map gives an empty menu |

## Left out

- The default argument that reads the global `window.Vaadin` object (createMenuItems.ts:13) is not modelled. The object is an explicit `Option<VaadinObject>` parameter.
- The `__REGISTER__` call (createMenuItems.ts:14-16) is not modelled. It is a build-time injection with no effect on the result.
- `Intl.Collator('en-US')` is replaced by code-point lexicographic order, because locale collation rules belong to a foreign library. The two orders differ. The collator can return 0 for distinct strings, such as canonically equivalent forms of an accented character. It also orders by letter before case, so it puts `"/apple"` before `"/Zoo"`, while code-point order puts `"/Zoo"` first.
- MenuItems.PermutationInvariant and MenuItems.IndependentOfEnumeration hold for the code-point order only. In the source, two distinct paths that the collator ties and that have equal orders keep their `Object.entries` order, because `Array.prototype.sort` is stable. So for such views the source's menu does depend on enumeration order.
- MenuOrder.CompareOrders: orders are integers, not JavaScript numbers. Fractional orders, NaN and the rounding of `a - b` are not modelled. In the source, an explicit order equal to `Number.MAX_VALUE` ties with a missing order; in the model every explicit order ranks before a missing one.
- MenuSort.Sort: the platform's `Array.prototype.sort` is replaced by insertion sort. MenuItems.AnySortAgrees shows that any correct sort by the comparator gives the same list when paths are distinct.
- MenuItems.IsExcluded: `exclude` is an optional boolean. The source's truthiness test on arbitrary values, and the difference between `null` and `undefined`, are not modelled; both become `None`.
- The `types.ts` declarations of `ViewConfig` and `MenuItem` are not part of this model. The fields modelled are the ones `createMenuItems` reads, plus `route` and `params` from the server view-map fixtures (utils.tsx:276-289).
- The test helpers in hilla-file-router/test/utils.tsx are not modelled: temporary directories, file writes and logger stubs are I/O. Only their component fixtures are used, as a concrete example.
- react-grid/test/test-models-and-services.ts is not modelled. It is a test-only asynchronous CRUD mock built on an external form-model library, and its sort comparator is not a consistent ordering.
- parser-jvm-core's module-info.java is not modelled. It is a module descriptor with no logic.
- The rest of the file router is not part of this model: the file-system route-tree builder, the route-config transformer and the server/client merge.
