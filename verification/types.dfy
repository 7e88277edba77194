/**
 * The data the menu projection consumes and produces: a view configuration
 * as the server supplies it, and the menu item derived from it.
 */
module Types {
  import opened Wrappers

  /** How a route parameter is matched by the router. */
  datatype ParamKind = Required | Optional | Wildcard

  /** The `menu` part of a view configuration. */
  datatype MenuConfig = MenuConfig(
    title: Option<string>,
    icon: Option<string>,
    order: Option<int>,
    exclude: Option<bool>)

  /** One view of the server view map; `route` and `params` play no part in the menu. */
  datatype ViewConfig = ViewConfig(
    title: Option<string>,
    route: Option<string>,
    params: Option<map<string, ParamKind>>,
    menu: Option<MenuConfig>)

  /** One navigation entry. */
  datatype MenuItem = MenuItem(
    to: string,
    icon: Option<string>,
    title: Option<string>,
    order: Option<int>)

  /** A `[path, config]` pair as enumerated from the view map. */
  type ViewEntry = (string, ViewConfig)

  /** The global object carrying the view map, which may itself be missing. */
  datatype VaadinObject = VaadinObject(views: Option<seq<ViewEntry>>)

  /** No path is enumerated twice: the keys of an object are distinct. */
  ghost predicate PathsDistinct(entries: seq<ViewEntry>) {
    forall i, j | 0 <= i < j < |entries| :: entries[i].0 != entries[j].0
  }

  /** No two menu items lead to the same path. */
  ghost predicate TargetsDistinct(items: seq<MenuItem>) {
    forall i, j | 0 <= i < j < |items| :: items[i].to != items[j].to
  }
}
