/**
 * `generateRoutes`: the conversion of the server's menu tree into route
 * records, with external-link detection, the name fallback, meta copying,
 * the optional redirect and component resolution against the registry of
 * known view keys (the model of the `import.meta.glob` module map).
 */
module RouteGenerator {
  import opened Wrappers
  import opened Strings
  import opened RouteTypes

  /** `/^https?:\/\//.test(path)` */
  predicate IsExternalLink(path: string) {
    StartsWith(path, "http://") || StartsWith(path, "https://")
  }

  /** `menu.children?.length` is truthy. */
  predicate HasChildren(menu: ServerMenuItem) {
    menu.children.MenuChildren? && |menu.children.menus| > 0
  }

  /** `path.replace(/^\//, '')` */
  function StripLeadingSlash(path: string): string {
    if |path| > 0 && path[0] == '/' then path[1..] else path
  }

  function RoutePath(menu: ServerMenuItem): string {
    if IsExternalLink(menu.path) && !HasChildren(menu) then "/external-" + menu.path else menu.path
  }

  function RouteName(menu: ServerMenuItem): string {
    if menu.name != "" then menu.name else StripLeadingSlash(menu.path)
  }

  function RouteMetaOf(menu: ServerMenuItem): RouteMeta {
    var external := IsExternalLink(menu.path);
    RouteMeta(menu.meta.title, menu.meta.icon, menu.meta.hidden, menu.meta.keepAlive,
              menu.meta.alwaysShow, Some(external), if external then Some(menu.path) else None)
  }

  /** The four outcomes of component resolution. */
  function ResolveComponent(component: Option<string>, registry: set<string>): (c: Option<Component>)
    ensures component == Some("Layout") <==> c == Some(LayoutView)
    ensures Truthy(component) && component.value != "Layout" && component.value in registry
            <==> c.Some? && c.value.View?
    ensures c.Some? && c.value.View? ==> c.value.key == component.value
    ensures Truthy(component) && component.value != "Layout" && component.value !in registry
            <==> c == Some(NotFoundView)
    ensures !Truthy(component) <==> c == None
  {
    if component == Some("Layout") then Some(LayoutView)
    else if Truthy(component) then
      (if component.value in registry then Some(View(component.value)) else Some(NotFoundView))
    else None
  }

  /** The reference definition: one route per menu node, in input order. */
  function RoutesOf(menus: seq<ServerMenuItem>, registry: set<string>): seq<Route>
    decreases menus
  {
    seq(|menus|, i requires 0 <= i < |menus| => RouteOf(menus[i], registry))
  }

  /** The record for one menu node; its children are generated only when non-empty. */
  function RouteOf(menu: ServerMenuItem, registry: set<string>): Route
    decreases menu
  {
    Route(RoutePath(menu), Some(RouteName(menu)), Some(RouteMetaOf(menu)),
          if Truthy(menu.redirect) then menu.redirect else None,
          ResolveComponent(menu.component, registry),
          if HasChildren(menu) then Children(RoutesOf(menu.children.menus, registry)) else NoChildren)
  }

  /** Number of nodes in a menu tree and in a menu forest. */
  function MenuSize(menu: ServerMenuItem): nat
    decreases menu
  {
    1 + if menu.children.MenuChildren? then MenuForestSize(menu.children.menus) else 0
  }

  function MenuForestSize(menus: seq<ServerMenuItem>): nat
    decreases menus
  {
    if menus == [] then 0 else MenuSize(menus[0]) + MenuForestSize(menus[1..])
  }

  /** Number of records in a route tree and in a route forest. */
  function RouteSize(route: Route): nat
    decreases route
  {
    1 + if route.children.Children? then RouteForestSize(route.children.routes) else 0
  }

  function RouteForestSize(routes: seq<Route>): nat
    decreases routes
  {
    if routes == [] then 0 else RouteSize(routes[0]) + RouteForestSize(routes[1..])
  }

  lemma {:induction false} MenuSizeBound(menus: seq<ServerMenuItem>, i: nat)
    requires i < |menus|
    ensures MenuSize(menus[i]) <= MenuForestSize(menus)
  {
    if i > 0 {
      MenuSizeBound(menus[1..], i - 1);
    }
  }

  /**
   * `generateRoutes` as the source writes it: a loop that appends one record
   * per menu node and recurses into non-empty children.
   */
  method GenerateRoutes(menus: seq<ServerMenuItem>, registry: set<string>) returns (result: seq<Route>)
    ensures result == RoutesOf(menus, registry)
    decreases MenuForestSize(menus)
  {
    result := [];
    for i := 0 to |menus|
      invariant |result| == i
      invariant forall k :: 0 <= k < i ==> result[k] == RouteOf(menus[k], registry)
    {
      var menu := menus[i];
      var isExternalLink := IsExternalLink(menu.path);
      var route := Route(
        if isExternalLink && !HasChildren(menu) then "/external-" + menu.path else menu.path,
        Some(if menu.name != "" then menu.name else StripLeadingSlash(menu.path)),
        Some(RouteMeta(menu.meta.title, menu.meta.icon, menu.meta.hidden, menu.meta.keepAlive,
                       menu.meta.alwaysShow, Some(isExternalLink),
                       if isExternalLink then Some(menu.path) else None)),
        None, None, NoChildren);
      if Truthy(menu.redirect) {
        route := route.(redirect := menu.redirect);
      }
      if menu.component == Some("Layout") {
        route := route.(component := Some(LayoutView));
      } else if Truthy(menu.component) {
        if menu.component.value in registry {
          route := route.(component := Some(View(menu.component.value)));
        } else {
          route := route.(component := Some(NotFoundView));
        }
      }
      if HasChildren(menu) {
        MenuSizeBound(menus, i);
        var children := GenerateRoutes(menu.children.menus, registry);
        route := route.(children := Children(children));
      }
      result := result + [route];
    }
  }

  lemma RoutesOfTail(menus: seq<ServerMenuItem>, registry: set<string>)
    requires menus != []
    ensures RoutesOf(menus, registry)[1..] == RoutesOf(menus[1..], registry)
  {
  }

  /** The conversion neither drops nor invents records anywhere in the tree. */
  lemma {:induction false} RoutesOfPreservesSize(menus: seq<ServerMenuItem>, registry: set<string>)
    ensures RouteForestSize(RoutesOf(menus, registry)) == MenuForestSize(menus)
    decreases menus
  {
    if menus != [] {
      RouteOfPreservesSize(menus[0], registry);
      RoutesOfTail(menus, registry);
      RoutesOfPreservesSize(menus[1..], registry);
    }
  }

  lemma {:induction false} RouteOfPreservesSize(menu: ServerMenuItem, registry: set<string>)
    ensures RouteSize(RouteOf(menu, registry)) == MenuSize(menu)
    decreases menu
  {
    if HasChildren(menu) {
      RoutesOfPreservesSize(menu.children.menus, registry);
    } else if menu.children.MenuChildren? {
      assert menu.children.menus == [];
    }
  }

  /** The path a record came from: the external URL kept in its meta, else its own path. */
  function OriginalPath(route: Route): string {
    if route.meta.Some? && route.meta.value.externalLink.Some? then route.meta.value.externalLink.value
    else route.path
  }

  /** Each output record is the one for the input node at the same index, and
      the node's path can be read back from it. */
  lemma InputOrderKept(menus: seq<ServerMenuItem>, registry: set<string>, i: nat)
    requires i < |menus|
    ensures |RoutesOf(menus, registry)| == |menus|
    ensures OriginalPath(RoutesOf(menus, registry)[i]) == menus[i].path
    ensures RoutesOf(menus, registry)[i].name == Some(RouteName(menus[i]))
  {
  }

  /** Only a leaf external link is re-pathed, to `/external-<url>`, which starts
      with `/` and never equals the URL itself; every other path is kept. */
  lemma PathRule(menu: ServerMenuItem, registry: set<string>)
    ensures var r := RouteOf(menu, registry);
      if IsExternalLink(menu.path) && !HasChildren(menu) then
        r.path == "/external-" + menu.path && r.path != menu.path && StartsWith(r.path, "/")
      else r.path == menu.path
  {
  }

  /** `name` is the menu's name when non-empty, else the path without one leading `/`;
      it is empty only when both the name and that stripped path are. */
  lemma NameRule(menu: ServerMenuItem, registry: set<string>)
    ensures var r := RouteOf(menu, registry);
      && r.name.Some?
      && (menu.name != "" ==> r.name.value == menu.name)
      && (menu.name == "" ==> r.name.value == StripLeadingSlash(menu.path))
      && (r.name.value == "" <==> menu.name == "" && (menu.path == "" || menu.path == "/"))
  {
  }

  /** `meta` copies the five flags and adds the external-link marker. */
  lemma MetaRule(menu: ServerMenuItem, registry: set<string>)
    ensures var r := RouteOf(menu, registry);
      && r.meta.Some?
      && r.meta.value.title == menu.meta.title
      && r.meta.value.icon == menu.meta.icon
      && r.meta.value.hidden == menu.meta.hidden
      && r.meta.value.keepAlive == menu.meta.keepAlive
      && r.meta.value.alwaysShow == menu.meta.alwaysShow
      && r.meta.value.isExternal == Some(IsExternalLink(menu.path))
      && (r.meta.value.externalLink.Some? <==> IsExternalLink(menu.path))
      && (r.meta.value.externalLink.Some? ==> r.meta.value.externalLink.value == menu.path)
  {
  }

  /** `redirect` is set only from a non-empty `menu.redirect`. */
  lemma RedirectRule(menu: ServerMenuItem, registry: set<string>)
    ensures var r := RouteOf(menu, registry);
      (r.redirect.Some? <==> Truthy(menu.redirect)) && (r.redirect.Some? ==> r.redirect == menu.redirect)
  {
  }

  /** The `children` key exists exactly when the node has a non-empty child list,
      and then holds the children's own routes. */
  lemma ChildrenRule(menu: ServerMenuItem, registry: set<string>)
    ensures var r := RouteOf(menu, registry);
      && (r.children.Children? <==> HasChildren(menu))
      && (r.children.Children? ==> r.children.routes == RoutesOf(menu.children.menus, registry)
                                   && |r.children.routes| > 0)
  {
  }

  /** The record follows every per-node rule of `generateRoutes` for `menu`: the external-link
      path, the name fallback, the copied meta with its external marker, the truthy-only
      redirect and the resolved component. */
  ghost predicate NodeRules(route: Route, menu: ServerMenuItem, registry: set<string>) {
    var external := IsExternalLink(menu.path);
    && route.path == (if external && !HasChildren(menu) then "/external-" + menu.path else menu.path)
    && route.name == Some(if menu.name != "" then menu.name else StripLeadingSlash(menu.path))
    && route.meta.Some?
    && route.meta.value.title == menu.meta.title
    && route.meta.value.icon == menu.meta.icon
    && route.meta.value.hidden == menu.meta.hidden
    && route.meta.value.keepAlive == menu.meta.keepAlive
    && route.meta.value.alwaysShow == menu.meta.alwaysShow
    && route.meta.value.isExternal == Some(external)
    && route.meta.value.externalLink == (if external then Some(menu.path) else None)
    && (route.redirect.Some? <==> Truthy(menu.redirect))
    && (route.redirect.Some? ==> route.redirect == menu.redirect)
    && route.component == ResolveComponent(menu.component, registry)
  }

  /** `route` mirrors the menu tree `menu` at every depth: each record follows the per-node
      rules for its node, and a node's non-empty child list is mirrored index by index
      (an absent or empty list gives no `children` key). */
  ghost predicate Mirrors(route: Route, menu: ServerMenuItem, registry: set<string>)
    decreases menu
  {
    && NodeRules(route, menu, registry)
    && (route.children.Children? <==> HasChildren(menu))
    && (HasChildren(menu) ==> MirrorsForest(route.children.routes, menu.children.menus, registry))
  }

  ghost predicate MirrorsForest(routes: seq<Route>, menus: seq<ServerMenuItem>, registry: set<string>)
    decreases menus
  {
    |routes| == |menus| && forall i :: 0 <= i < |menus| ==> Mirrors(routes[i], menus[i], registry)
  }

  lemma {:induction false} RoutesOfShaped(menus: seq<ServerMenuItem>, registry: set<string>)
    ensures MirrorsForest(RoutesOf(menus, registry), menus, registry)
    decreases menus
  {
    forall i | 0 <= i < |menus|
      ensures Mirrors(RoutesOf(menus, registry)[i], menus[i], registry)
    {
      RouteOfShaped(menus[i], registry);
    }
  }

  lemma {:induction false} RouteOfShaped(menu: ServerMenuItem, registry: set<string>)
    ensures Mirrors(RouteOf(menu, registry), menu, registry)
    decreases menu
  {
    if HasChildren(menu) {
      RoutesOfShaped(menu.children.menus, registry);
    }
  }
}
