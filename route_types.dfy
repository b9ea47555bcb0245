/**
 * The data shapes shared by the routing layer: the menu nodes the server
 * sends, the route records built from them, the layout modes and the user
 * record the permission checks read.
 *
 * Optional TypeScript properties are `Option`s; "truthy" tests on them are
 * spelt out by `IsTrue` and `Truthy` below.
 */
module RouteTypes {
  import opened Wrappers

  /** `ServerMenuItemMeta`: every property optional. */
  datatype ServerMenuItemMeta = ServerMenuItemMeta(
    title: Option<string>,
    icon: Option<string>,
    hidden: Option<bool>,
    keepAlive: Option<bool>,
    alwaysShow: Option<bool>)

  /** `ServerMenuItem`: one node of the per-user menu tree. */
  datatype ServerMenuItem = ServerMenuItem(
    path: string,
    component: Option<string>,
    redirect: Option<string>,
    name: string,
    meta: ServerMenuItemMeta,
    children: MenuChildren)

  /** `children?: ServerMenuItem[]`: absent, or a (possibly empty) list. */
  datatype MenuChildren = NoMenuChildren | MenuChildren(menus: seq<ServerMenuItem>)

  /** `RouteMeta` as the application extends it. */
  datatype RouteMeta = RouteMeta(
    title: Option<string>,
    icon: Option<string>,
    hidden: Option<bool>,
    keepAlive: Option<bool>,
    alwaysShow: Option<bool>,
    isExternal: Option<bool>,
    externalLink: Option<string>)

  /** What a route's `component` loader resolves to: the layout shell, a view
      found in the component registry under its key, or the not-found view. */
  datatype Component = LayoutView | View(key: string) | NotFoundView

  /** A route record (`RouteRecordRaw`). */
  datatype Route = Route(
    path: string,
    name: Option<string>,
    meta: Option<RouteMeta>,
    redirect: Option<string>,
    component: Option<Component>,
    children: RouteChildren)

  /** A record's `children`: no `children` key at all, or a (possibly empty) list. */
  datatype RouteChildren = NoChildren | Children(routes: seq<Route>)

  /** `LayoutMode`: 'left-sidebar' | 'right-sidebar' | 'top-menu' | 'mixed' | 'compact'. */
  datatype LayoutMode = LeftSidebarMode | RightSidebarMode | TopMenuMode | MixedMode | CompactMode

  /** The menu orientation a caller asks about: 'horizontal' | 'vertical'. */
  datatype MenuMode = Horizontal | Vertical

  /** The part of `UserInfo` the routing layer reads. */
  datatype UserInfo = UserInfo(id: int, username: string, permissions: Option<seq<string>>)

  /** A truthy optional boolean. */
  predicate IsTrue(b: Option<bool>) {
    b == Some(true)
  }

  /** A truthy optional string: present and not empty. */
  predicate Truthy(s: Option<string>) {
    s.Some? && s.value != ""
  }

  /** `route.meta?.hidden` is truthy. */
  predicate IsHidden(r: Route) {
    r.meta.Some? && IsTrue(r.meta.value.hidden)
  }

  /** `route.children?.length` is truthy. */
  predicate HasChildRoutes(r: Route) {
    r.children.Children? && |r.children.routes| > 0
  }
}
