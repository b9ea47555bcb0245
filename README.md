# demo-front admin console core, modelled in Dafny

This project models the core logic of the `demo-front` Vue 3 admin console. The model covers:

- **Route generation and permissions.**
  - The console turns the menu tree sent by the server into router records (`generateRoutes`).
  - It registers and unregisters those records through the permission store.
  - It gates every navigation in the router guard `beforeEach`, and sends logged-out users to `/login?redirect=…`.
- **Menus and layouts.**
  - It derives visible menus and full paths.
  - It picks one of five layout strategies for the top and side menus.
- **Other decisions.**
  - It shows or hides elements through the `v-permission` directive.
  - It keeps a keep-alive cache of views.
  - It stores namespaced, expiring values in local and session storage.
  - It converts theme colours between `#rrggbb` and RGB.
  - It composes request headers and maps HTTP envelopes and failures to results and messages.

Each source file becomes one Dafny module.

- Pure code (filters, path rewriting, the guard's decision table, the codecs) becomes functions with lemmas.
- Code that updates state in place becomes classes whose methods are proved against a specification function of the old state:
  - the Pinia store and the router table;
  - the layout factory singleton;
  - the directive's element;
  - the keep-alive set;
  - the two storages;
  - the request configuration.

`wrappers.dfy` holds `Option`, `strings.dfy` small string predicates, and `route_types.dfy` the menu item, route record, user and layout-mode types shared by the modules.

Inputs the code takes from its environment are parameters of the model:

- the server's menu response, or the failure it throws;
- `to.matched.length`;
- the set of view modules `import.meta.glob` finds;
- the clock;
- the configured version;
- the answer of a `resetWhen` function;
- which stored values are `null` (`isNull`);
- `adjustBrightness`.

## Model

| member | source | states |
|---|---|---|
| RouteGenerator.RoutesOf | src/stores/permission.ts:21-71 | the reference conversion: one record per menu node, in input order, built by `RouteOf`; its properties are the rule lemmas below |
| RouteGenerator.RouteOf | src/stores/permission.ts:24-67 | the record for one menu node, with children generated only from a non-empty list; its properties are the rule lemmas below |
| RouteGenerator.GenerateRoutes | src/stores/permission.ts:21-71 | the loop appends exactly the routes `RoutesOf` builds: one per menu, in order, recursing into children |
| RouteGenerator.ResolveComponent | src/stores/permission.ts:50-61 | `'Layout'` gives the layout, a registered key its view, an unregistered key the 404 view, and a missing or empty component none |
| RouteGenerator.RoutesOfPreservesSize | src/stores/permission.ts:21-71 | the generated tree has exactly as many nodes as the menu tree |
| RouteGenerator.RouteOfPreservesSize | src/stores/permission.ts:21-71 | one menu node becomes a route subtree of the same size |
| RouteGenerator.InputOrderKept | src/stores/permission.ts:24-67 | one route per menu; the i-th route comes from the i-th menu (its original path and its name) |
| RouteGenerator.PathRule | src/stores/permission.ts:26-30 | an `http(s)://` path without children becomes `/external-` + path; every other path is kept |
| RouteGenerator.NameRule | src/stores/permission.ts:31 | the name is the menu name when non-empty, else the path minus one leading `/` |
| RouteGenerator.MetaRule | src/stores/permission.ts:32-41 | title, icon, hidden, keepAlive and alwaysShow are copied; isExternal is the regex test; externalLink is the path exactly when external |
| RouteGenerator.RedirectRule | src/stores/permission.ts:45-47 | a redirect is set exactly when the menu's redirect is non-empty, and equals it |
| RouteGenerator.ChildrenRule | src/stores/permission.ts:63-66 | children exist exactly when the menu has a non-empty child list, and are generated from it |
| RouteGenerator.RoutesOfShaped | src/stores/permission.ts:21-71 | the generated forest mirrors the menu forest at every depth: as many records as nodes, and each record follows its node's path, name, meta, redirect and component rules, with its children mirroring the node's non-empty child list index by index |
| RouteGenerator.RouteOfShaped | src/stores/permission.ts:21-71 | one generated record mirrors its menu node's whole subtree in the same way |
| RouteGenerator.RoutesOfTail | src/stores/permission.ts:24-67 | dropping the first menu drops exactly the first route |
| PermissionStore.AfterGenerate | src/stores/permission.ts:125-136 | the session after `generateDynamicRoutes`; `Store.GenerateDynamicRoutes` is proved to reach it |
| PermissionStore.AfterResetRouter | src/stores/permission.ts:153-161 | the session after `resetRouter`; `ResetRouterRemovesExactly` states what it removes |
| PermissionStore.AfterResetPermissionAsWritten | src/stores/permission.ts:141-148 | the session after `resetPermission` in the source's order; `ResetPermissionAsWrittenKeepsTable` states its effect |
| PermissionStore.AfterResetPermission | src/stores/permission.ts:141-161 | the session after `resetPermission` in the corrected order (unregister, then clear); `LogoutUndoesLogin` states its effect |
| PermissionStore.UnregisterMembers | src/stores/permission.ts:155-159 | after removing names, a route remains iff it was there and has none of those names |
| PermissionStore.UnregisterKeepsUnnamed | src/stores/permission.ts:155-159 | removing names nobody carries changes nothing |
| PermissionStore.UnregisterDropsNamed | src/stores/permission.ts:155-159 | removing every route's name empties the table |
| PermissionStore.UnregisterAppend | src/stores/permission.ts:155-159 | removal distributes over concatenation of tables |
| PermissionStore.UnregisterTwice | src/stores/permission.ts:155-159 | removing one name after another equals removing both at once |
| PermissionStore.RemovableNamesComplete | src/stores/permission.ts:155-158 | every dynamic route with a truthy name has that name removed |
| PermissionStore.RemovableNamesSound | src/stores/permission.ts:155-158 | only names of dynamic routes are removed |
| PermissionStore.Router.AddRoute | src/stores/permission.ts:133 | the route is appended to the router table |
| PermissionStore.Router.RemoveRoute | src/stores/permission.ts:157 | the records with that name leave the table, nothing else changes |
| PermissionStore.ResetRouterRemovesExactly | src/stores/permission.ts:153-161 | resetRouter removes exactly the dynamic routes' names and clears isRoutesLoaded |
| PermissionStore.ResetPermissionAsWrittenKeepsTable | src/stores/permission.ts:141-148 | as written, resetPermission clears the session but leaves the router table unchanged |
| PermissionStore.ResetPermissionAsWrittenLeaksRoutes | src/stores/permission.ts:141-148 | as written, logging out after loading a non-empty menu leaves the generated routes registered |
| PermissionStore.GeneratedNames | src/stores/permission.ts:125-136 | every generated route with a name is removable by resetRouter; when the menu names are fresh, no route already in the table is |
| PermissionStore.LogoutUndoesLogin | src/stores/permission.ts:125-161 | with the corrected reset (resetRouter run before clearing), loading menus then logging out restores the table and the state |
| PermissionStore.ReloginReproducesTable | src/stores/permission.ts:125-161 | with the corrected reset, logging out and loading the same menus again gives the same router table as the first login |
| PermissionStore.ResetPermissionAsWrittenKeepsNames | src/stores/permission.ts:141-161 | with the reset as written, every route name the login registered, all of which the corrected reset would remove, is still carried by a record after logout; this holds whether `addRoute` appends or replaces by name |
| PermissionStore.ReloginAsWrittenDuplicatesRoutes | src/stores/permission.ts:125-148 | in this model's append-only table, with the reset as written, logging out and loading the same menus again leaves every generated record in the table twice |
| PermissionStore.ResetPermissionIdempotent | src/stores/permission.ts:141-161 | logging out twice is logging out once, for the reset as written and for the corrected one |
| PermissionStore.LoadFlagHonestPreserved | src/stores/permission.ts:125-148 | the exported actions keep the invariant that routes are not loaded only while no dynamic routes are held |
| PermissionStore.ResetsAgreeWhenNotLoaded | src/stores/permission.ts:141-161 | under that invariant, while the routes are not loaded, the reset as written and the corrected reset give the same session |
| PermissionStore.Store.constructor | src/stores/permission.ts:78-89 | the store starts with no user, empty tokens, no dynamic routes and routes not loaded, so the load-flag invariant holds |
| PermissionStore.Store.Routes | src/stores/permission.ts:86 | `routes` is the constant routes followed by the dynamic ones |
| PermissionStore.Store.SetUserInfo | src/stores/permission.ts:95-97 | only userInfo changes |
| PermissionStore.Store.SetToken | src/stores/permission.ts:103-105 | only the token changes |
| PermissionStore.Store.GetToken | src/stores/permission.ts:110-112 | returns the token |
| PermissionStore.Store.SetRefreshToken | src/stores/permission.ts:114-116 | only the refresh token changes |
| PermissionStore.Store.GetRefreshToken | src/stores/permission.ts:117-119 | returns the refresh token |
| PermissionStore.Store.GenerateDynamicRoutes | src/stores/permission.ts:125-136 | dynamicRoutes becomes the generated routes, all of them are appended to the router, and routes are marked loaded |
| PermissionStore.Store.ResetRouter | src/stores/permission.ts:153-161 | the forEach removes every truthy dynamic route name from the router and clears isRoutesLoaded |
| PermissionStore.Store.ResetPermissionAsWritten | src/stores/permission.ts:141-148 | clears user, tokens and dynamic routes, then runs resetRouter over the emptied list |
| PermissionStore.Store.ResetPermission | src/stores/permission.ts:141-161 | runs resetRouter first, then clears user, tokens and dynamic routes |
| RouterGuard.BeforeEach | src/router/permission.ts:15-73 | the guard's decision table; the lemmas below state each branch |
| RouterGuard.RedirectTarget | src/router/permission.ts:83-85 | the path, with `?` and the serialised query when there is one; `RedirectTargetRule` states it |
| RouterGuard.LoginUrl | src/router/permission.ts:82-87 | the login URL; `LoginUrlRoundTrip` states what it carries |
| RouterGuard.Title | src/router/permission.ts:34-37 | the params title, or else the query title, when truthy; `TitleRule` states it |
| RouterGuard.TitleRule | src/router/permission.ts:34-37 | a title is set iff the params or the query title is truthy; the params title wins; a query title comes from a `title` entry; it is never empty |
| RouterGuard.FailureMessage | src/router/permission.ts:52-55 | the toast text; `FailureMessageRule` states it |
| RouterGuard.QueryTitle | src/router/permission.ts:34 | a title is found iff the query has a `title` entry, and it is one of those entries' values |
| RouterGuard.NextCallsAppend | src/router/permission.ts:15-73 | the next calls of joined action lists are the joined next calls |
| RouterGuard.NextCallCount | src/router/permission.ts:15-73 | every run ends with a next call; it calls next twice exactly when an unmatched loaded route falls through the 404 redirect, else once |
| RouterGuard.LoadedMatchedProceeds | src/router/permission.ts:29-39 | logged in, loaded and matched: the title is set from params or query when present, then `next()` |
| RouterGuard.UnmatchedRedirectsThenProceeds | src/router/permission.ts:30-39 | logged in, loaded and unmatched: `next({path:'/404', replace:true})` and then `next()` |
| RouterGuard.StoreActions | src/router/permission.ts:41-60 | routes are generated only after a successful fetch; permissions are reset only after a failed one |
| RouterGuard.NoTokenRule | src/router/permission.ts:63-72 | without a token, `/login` proceeds and every other path goes to the login URL |
| RouterGuard.LoggedInLoginPage | src/router/permission.ts:24-26 | with a token, `/login` goes to `/` |
| RouterGuard.FailureMessageRule | src/router/permission.ts:52-55 | an Error's message is shown; anything else thrown shows the default message |
| RouterGuard.RedirectTargetRule | src/router/permission.ts:83-85 | the redirect is the bare path iff the query is empty, otherwise path + `?` + the serialised query |
| RouterGuard.LoginUrlRoundTrip | src/router/permission.ts:82-87 | the login URL is the `/login?redirect=` prefix plus an encoding free of URL delimiters that decodes back to the redirect target |
| RouterGuard.LoginUrlOfPlainPath | src/router/permission.ts:86 | for `/word` with no query the URL is `/login?redirect=%2Fword`, e.g. for `/dashboard` |
| RouterGuard.ApplyActions | src/router/permission.ts:46-57 | the session after the store actions the guard performs, with `resetPermission` as written; `ApplyInert`, `ApplyActionsAppend`, `FetchThenLoaded` and `FailureThenLoggedOut` state it |
| RouterGuard.ApplyActionsAppend | src/router/permission.ts:15-73 | performing two action lists in a row is performing their concatenation |
| RouterGuard.ApplyInert | src/router/permission.ts:15-73 | next calls, titles and messages leave the store unchanged |
| RouterGuard.FetchThenLoaded | src/router/permission.ts:41-49 | after a successful fetch the dynamic routes are generated and routes are loaded |
| RouterGuard.FailureThenLoggedOut | src/router/permission.ts:50-60 | after a failed fetch, with the reset as written, the user and tokens are cleared, no dynamic routes are held, routes are not loaded, and the next navigation goes to login |
| RouterGuard.FailureResetAsIntended | src/router/permission.ts:50-60 | on a session whose load flag is honest, the failure branch's as-written reset ends in the same session as the corrected reset |
| RouterGuard.RunBeforeEach | src/router/permission.ts:15-73 | the guard's actions follow the decision table, and the store ends in the state those actions produce, with the failure branch running `resetPermission` as written |
| UrlEncoding.EncodeURIComponent | src/router/permission.ts:86 | `encodeURIComponent`; `DecodeEncode`, `EncodeAlphabet` and `NoDelimiters` state its properties |
| UrlEncoding.FormEncode | src/router/permission.ts:83-85 | the form encoding `URLSearchParams` applies to one key or value; the same lemmas state its properties |
| UrlEncoding.Decode | src/router/permission.ts:83-86 | an independently written percent-decoder, the reference the round trip is proved against |
| UrlEncoding.SerializeQuery | src/router/permission.ts:83-85 | `new URLSearchParams(query).toString()`; `SerializeQueryEmpty` states when it is empty |
| UrlEncoding.Utf8 | src/router/permission.ts:86 | a code point becomes 1 to 4 bytes, continuation bytes after the first, one byte exactly for ASCII |
| UrlEncoding.Utf8RoundTrip | src/router/permission.ts:86 | decoding the UTF-8 bytes of a character gives the character |
| UrlEncoding.HexDigitValue | src/router/permission.ts:86 | reading an upper-case hex digit gives its value |
| UrlEncoding.PercentBytes | src/router/permission.ts:86 | each byte becomes exactly three characters `%XY` |
| UrlEncoding.ReadPercentBytes | src/router/permission.ts:86 | reading back the `%XY` triples gives the bytes |
| UrlEncoding.DecodeEncodedChar | src/router/permission.ts:83-86 | decoding one encoded character followed by anything yields that character first |
| UrlEncoding.DecodeEncode | src/router/permission.ts:83-86 | decoding an encoding gives the original string, for both `encodeURIComponent` and form encoding |
| UrlEncoding.EncodeAlphabet | src/router/permission.ts:83-86 | an encoding uses only unreserved characters, `%`, upper-case hex digits and, in forms, `+` |
| UrlEncoding.NoDelimiters | src/router/permission.ts:83-86 | an encoding contains no `/ ? # & =` or space |
| UrlEncoding.SerializeQueryEmpty | src/router/permission.ts:83-85 | the query string is empty iff there are no pairs |
| UrlEncoding.EncodeAppend | src/router/permission.ts:86 | encoding distributes over concatenation |
| UrlEncoding.EncodeUnreserved | src/router/permission.ts:86 | a string of unreserved characters is encoded as itself |
| UrlEncoding.EncodeSlash | src/router/permission.ts:86 | `/` is encoded as `%2F` |
| MenuUtils.GetVisibleChildren | src/utils/menu.ts:6-11 | the non-hidden children; the `Visible` lemmas below state the filter |
| MenuUtils.ShouldShowSubMenu | src/utils/menu.ts:16-31 | the sub-menu decision; `ShouldShowSubMenuRule` states its cases |
| MenuUtils.GetFullPath | src/utils/menu.ts:36-43 | `getFullPath`; `FullPathAbsolute` and `FullPathRelative` state its two branches |
| Strings.CollapseSlashes | src/utils/menu.ts:42 | `replace(/\/+/g, '/')`; the lemmas below characterise it |
| Strings.TrimTrailingSlashes | src/utils/menu.ts:42 | the string without its trailing run of `/`: only slashes are cut, and what is left does not end in one |
| Strings.CollapseAppend | src/utils/menu.ts:42 | collapsing works piecewise across a boundary that is not inside a run of slashes |
| Strings.CollapseDoubleSlash | src/utils/menu.ts:42 | a run of two slashes collapses like one |
| Strings.CollapseTrailing | src/utils/menu.ts:42 | trailing slashes of the first part merge into a run the second part starts |
| Strings.CollapseJoin | src/utils/menu.ts:42 | joining with `/` and collapsing keeps exactly one `/` between the collapsed parts |
| MenuUtils.VisibleMembers | src/utils/menu.ts:6-11 | a child is visible iff it is a child and not hidden |
| MenuUtils.VisibleAppend | src/utils/menu.ts:6-11 | the filter distributes over concatenation |
| MenuUtils.VisibleKeepsOrder | src/utils/menu.ts:6-11 | visible children keep their relative order |
| MenuUtils.VisibleEmpty | src/utils/menu.ts:6-11 | no visible children iff every child is hidden |
| MenuUtils.VisibleAtLeastTwo | src/utils/menu.ts:6-11 | two non-hidden children give at least two visible ones |
| MenuUtils.ShouldShowSubMenuRule | src/utils/menu.ts:16-31 | no sub-menu without visible children; a sub-menu with two or more visible children; with one visible child, a sub-menu exactly when alwaysShow is true |
| MenuUtils.FullPathAbsolute | src/utils/menu.ts:36-43 | an absolute path is kept |
| MenuUtils.FullPathRelative | src/utils/menu.ts:36-43 | a relative path gives the collapsed base, without its trailing slashes, then exactly one `/`, then the collapsed path; so no `//` and no character other than `/` lost or added |
| MenuUtils.FullPathAbsoluteResult | src/utils/menu.ts:36-43 | with an absolute or empty base the result is absolute, and resolving it again changes nothing |
| MenuUtils.ProcessMenuItemPath | src/utils/menu.ts:51-59 | the same item is returned with only its path replaced by the full path |
| LeftSidebarStrategy.GetTopMenuItems | src/layout/strategies/LeftSidebarStrategy.ts:11-13 | no top menu items |
| LeftSidebarStrategy.GetSideMenuItems | src/layout/strategies/LeftSidebarStrategy.ts:18-20 | every item is a side menu item |
| LeftSidebarStrategy.ShowTopMenu | src/layout/strategies/LeftSidebarStrategy.ts:25-27 | the top menu is hidden |
| LeftSidebarStrategy.ShowSideMenu | src/layout/strategies/LeftSidebarStrategy.ts:32-34 | the side menu is shown |
| LeftSidebarStrategy.GetActiveMenu | src/layout/strategies/LeftSidebarStrategy.ts:39-45 | the active menu is the current path |
| RightSidebarStrategy.GetTopMenuItems | src/layout/strategies/RightSidebarStrategy.ts:10-12 | no top menu items |
| RightSidebarStrategy.GetSideMenuItems | src/layout/strategies/RightSidebarStrategy.ts:17-19 | every item is a side menu item |
| RightSidebarStrategy.ShowTopMenu | src/layout/strategies/RightSidebarStrategy.ts:24-26 | the top menu is hidden |
| RightSidebarStrategy.ShowSideMenu | src/layout/strategies/RightSidebarStrategy.ts:31-33 | the side menu is shown |
| RightSidebarStrategy.GetActiveMenu | src/layout/strategies/RightSidebarStrategy.ts:38-44 | the active menu is the current path |
| TopMenuStrategy.GetTopMenuItems | src/layout/strategies/TopMenuStrategy.ts:10-12 | every item is a top menu item |
| TopMenuStrategy.GetSideMenuItems | src/layout/strategies/TopMenuStrategy.ts:17-19 | no side menu items |
| TopMenuStrategy.ShowTopMenu | src/layout/strategies/TopMenuStrategy.ts:24-26 | the top menu is shown |
| TopMenuStrategy.ShowSideMenu | src/layout/strategies/TopMenuStrategy.ts:31-33 | the side menu is hidden |
| TopMenuStrategy.GetActiveMenu | src/layout/strategies/TopMenuStrategy.ts:38-44 | the active menu is the current path |
| CompactStrategy.GetTopMenuItems | src/layout/strategies/CompactStrategy.ts:12-14 | no top menu items |
| CompactStrategy.GetSideMenuItems | src/layout/strategies/CompactStrategy.ts:19-21 | every item is a side menu item |
| CompactStrategy.ShowTopMenu | src/layout/strategies/CompactStrategy.ts:26-28 | the top menu is hidden |
| CompactStrategy.ShowSideMenu | src/layout/strategies/CompactStrategy.ts:33-35 | the side menu is shown |
| CompactStrategy.GetActiveMenu | src/layout/strategies/CompactStrategy.ts:40-46 | the active menu is the current path |
| MixedStrategy.GetTopMenuItems | src/layout/strategies/MixedStrategy.ts:10-16 | the same items in order, each with its children removed and nothing else changed |
| MixedStrategy.Find | src/layout/strategies/MixedStrategy.ts:22 | finds the first item with the active path, and none iff no item has it |
| MixedStrategy.GetSideMenuItems | src/layout/strategies/MixedStrategy.ts:21-36 | no side menu when no item has the active path |
| MixedStrategy.SideMenuOfFirstMatch | src/layout/strategies/MixedStrategy.ts:21-36 | the side menu lists the first matching item's children, in order, with paths joined to the parent and no double slash |
| MixedStrategy.ShowTopMenu | src/layout/strategies/MixedStrategy.ts:41-43 | the top menu is shown |
| MixedStrategy.ShowSideMenu | src/layout/strategies/MixedStrategy.ts:48-50 | the side menu is shown |
| MixedStrategy.GetActiveMenu | src/layout/strategies/MixedStrategy.ts:56-62 | horizontal menus use the active top menu, vertical ones the current path |
| LayoutStrategy.GetTopMenuItems | src/layout/strategies/LayoutStrategy.ts:13 | dispatch to the strategy's own `getTopMenuItems`; `Consistent` states what all of them share |
| LayoutStrategy.GetSideMenuItems | src/layout/strategies/LayoutStrategy.ts:21 | dispatch to the strategy's own `getSideMenuItems`; `Consistent` states it |
| LayoutStrategy.ShowTopMenu | src/layout/strategies/LayoutStrategy.ts:27 | dispatch to the strategy's own `showTopMenu`; `Consistent` states it |
| LayoutStrategy.ShowSideMenu | src/layout/strategies/LayoutStrategy.ts:33 | dispatch to the strategy's own `showSideMenu`; `Consistent` states it |
| LayoutStrategy.GetActiveMenu | src/layout/strategies/LayoutStrategy.ts:42 | dispatch to the strategy's own `getActiveMenu`; `Consistent` states it |
| LayoutStrategy.Consistent | src/layout/strategies/LayoutStrategy.ts:7-43 | every strategy shows at least one menu and gives no items for a menu it hides; it never adds top items; the active menu is the top-level path only in the mixed layout's horizontal menu |
| LayoutStrategyFactory.Select | src/layout/strategies/LayoutStrategyFactory.ts:42-48 | the registered strategy for the mode, else the left-sidebar one |
| LayoutStrategyFactory.DefaultSelection | src/layout/strategies/LayoutStrategyFactory.ts:17-25 | four modes are registered; compact falls back to the left sidebar |
| LayoutStrategyFactory.RegisterThenSelect | src/layout/strategies/LayoutStrategyFactory.ts:56-58 | after registering, that mode selects the new strategy and every other mode selects what it did before |
| LayoutStrategyFactory.LayoutStrategyFactory.constructor | src/layout/strategies/LayoutStrategyFactory.ts:17-25 | starts with the four default strategies |
| LayoutStrategyFactory.LayoutStrategyFactory.GetStrategy | src/layout/strategies/LayoutStrategyFactory.ts:42-48 | returns the selection for the mode |
| LayoutStrategyFactory.LayoutStrategyFactory.RegisterStrategy | src/layout/strategies/LayoutStrategyFactory.ts:56-58 | the mode now maps to the given strategy |
| LayoutStrategyFactory.FactoryHolder.GetInstance | src/layout/strategies/LayoutStrategyFactory.ts:30-35 | the first call creates the factory with the defaults; later calls return that same factory |
| LayoutStrategyFactory.GetInstanceTwice | src/layout/strategies/LayoutStrategyFactory.ts:30-35 | two calls return the same instance |
| UseLayoutStrategy.ActiveTopMenu | src/hooks/useLayoutStrategy.ts:29-38 | the active top menu; `ActiveTopMenuShape` and `ActiveTopMenuOfSegment` state it |
| UseLayoutStrategy.LeadingRun | src/hooks/useLayoutStrategy.ts:29-38 | the longest slash-free prefix |
| UseLayoutStrategy.ActiveTopMenuShape | src/hooks/useLayoutStrategy.ts:29-38 | in top-menu mode the whole path; otherwise `/` plus a slash-free first segment, or the path when it has none |
| UseLayoutStrategy.ActiveTopMenuOfSegment | src/hooks/useLayoutStrategy.ts:29-38 | outside top-menu mode `/seg/rest` gives `/seg`, and `/` gives `/` |
| UseLayoutStrategy.MixedActiveMenus | src/hooks/useLayoutStrategy.ts:29-38 | in mixed mode the horizontal active menu is `/seg` and the vertical one the full path |
| UseLayoutStrategy.CurrentStrategy | src/hooks/useLayoutStrategy.ts:24-26 | `factory.getStrategy(layoutMode)`; `GettersConsistent` and `DefaultLayoutTable` state it |
| UseLayoutStrategy.SideMenuItems | src/hooks/useLayoutStrategy.ts:56-58 | the selected strategy's side entries for the active top-level path; `GettersConsistent` and `DefaultLayoutTable` state them |
| UseLayoutStrategy.TopMenuItems | src/hooks/useLayoutStrategy.ts:51-53 | the selected strategy's top entries; `GettersConsistent` and `DefaultLayoutTable` state them |
| UseLayoutStrategy.ActiveMenu | src/hooks/useLayoutStrategy.ts:61-63 | the selected strategy's highlighted path; `GettersConsistent`, `DefaultLayoutTable` and `MixedActiveMenus` state it |
| UseLayoutStrategy.ShowsTopMenu | src/hooks/useLayoutStrategy.ts:41-43 | the selected strategy's flag; `GettersConsistent` and `DefaultLayoutTable` state it |
| UseLayoutStrategy.ShowsSideMenu | src/hooks/useLayoutStrategy.ts:46-48 | the selected strategy's flag; `GettersConsistent` and `DefaultLayoutTable` state it |
| UseLayoutStrategy.ShouldShowSubMenu | src/hooks/useLayoutStrategy.ts:66-69 | the sub-menu flag; `NoSubMenuWhereNoChildren` states it |
| UseLayoutStrategy.GettersConsistent | src/hooks/useLayoutStrategy.ts:24-63 | whatever strategies are registered, the getters follow the selected one: the registered strategy or the left-sidebar fallback; a hidden bar gets no entries; some bar is shown; the top bar never gains entries; the top-level path is highlighted only in the mixed top bar |
| UseLayoutStrategy.DefaultLayoutTable | src/hooks/useLayoutStrategy.ts:24-63 | with the default registrations: which bars each layout mode shows, with which entries, and which path each highlights |
| UseLayoutStrategy.CompactShowsSideOnly | src/hooks/useLayoutStrategy.ts:24-58 | compact mode falls back to the left sidebar: side menu only, with every item |
| UseLayoutStrategy.NoSubMenuWhereNoChildren | src/hooks/useLayoutStrategy.ts:66-69 | sub-menus are suppressed only in the mixed layout's horizontal menu, whose items never have children |
| PermissionDirective.HasPermission | src/directives/permission.ts:42-61 | the permission decision; `HiddenWithoutData`, `SingleExact`, `ListRules` and `Monotone` state it |
| PermissionDirective.Display | src/directives/permission.ts:64 | the element is shown (empty display) iff permitted |
| PermissionDirective.HiddenWithoutData | src/directives/permission.ts:42-45 | a falsy value, no user, or no permission list hides the element |
| PermissionDirective.SingleExact | src/directives/permission.ts:50-52 | a single permission is granted iff it is held; `*` is matched only literally |
| PermissionDirective.ListRules | src/directives/permission.ts:54-59 | with `or`, some listed permission is held; without, all are; the empty list is denied with `or` and granted without |
| PermissionDirective.Monotone | src/directives/permission.ts:32-65 | holding more permissions never hides an element that was shown |
| PermissionDirective.AllImpliesAny | src/directives/permission.ts:54-59 | a non-empty list granted by `every` is granted by `some` |
| PermissionDirective.CheckPermission | src/directives/permission.ts:32-65 | the display is set from the permission decision |
| PermissionDirective.Mounted | src/directives/permission.ts:13-15 | mounting checks the permission |
| PermissionDirective.Updated | src/directives/permission.ts:18-23 | nothing changes when the value is strictly equal to the old one; otherwise the permission is checked again |
| NavigationCache.ShouldReset | src/hooks/useNavigation.ts:14-21 | the reset decision; `ResetRule` states it |
| NavigationCache.AfterNavigation | src/hooks/useNavigation.ts:13-32 | the cache after one route change and its tick; `NavigationEffect` states it |
| NavigationCache.Remove | src/hooks/useNavigation.ts:20 | `Set.delete`; `RemoveMembers` states it |
| NavigationCache.AfterChange | src/hooks/useNavigation.ts:14-22 | the cache after the handler's synchronous part; `ChangeEffect` states it |
| NavigationCache.ChangeEffect | src/hooks/useNavigation.ts:14-22 | only `to.name` can leave; it leaves exactly when the view resets; no duplicates appear |
| NavigationCache.Insert | src/hooks/useNavigation.ts:29 | adding puts the name in the set and nothing else |
| NavigationCache.RemoveMembers | src/hooks/useNavigation.ts:20 | deleting removes exactly that name and keeps the set duplicate-free |
| NavigationCache.InsertNoDuplicates | src/hooks/useNavigation.ts:29 | adding keeps the set duplicate-free |
| NavigationCache.NavigationEffect | src/hooks/useNavigation.ts:13-32 | after navigating, the target is cached iff keepAlive is set, or it was cached and not reset; other names are unchanged |
| NavigationCache.ResetRule | src/hooks/useNavigation.ts:14-21 | with resetOnEnter, leaving a route outside exceptFrom resets; leaving one inside resets only when resetWhen answers true |
| NavigationCache.CacheViews.KeepAliveComponents | src/hooks/useNavigation.ts:8-10 | lists exactly the cached names, without duplicates |
| NavigationCache.CacheViews.Delete | src/hooks/useNavigation.ts:20 | removes the name from the set |
| NavigationCache.CacheViews.Add | src/hooks/useNavigation.ts:29 | adds the name to the set |
| NavigationCache.CacheViews.HandleRouteChange | src/hooks/useNavigation.ts:13-32 | applies the reset now and returns the add deferred to the next tick |
| NavigationCache.CacheViews.RunDeferred | src/hooks/useNavigation.ts:27-30 | runs the deferred add |
| NavigationCache.CacheViews.Navigate | src/hooks/useNavigation.ts:13-32 | the handler followed by its next tick gives the navigation's effect |
| StorageUtil.ExpiryFor | src/utils/StorageUtil.ts:27 | `ttl ? Date.now() + ttl : undefined`; `SetThenGet` states its effect |
| StorageUtil.Expired | src/utils/StorageUtil.ts:46 | `item.expiry && Date.now() > item.expiry`; `SetThenGet` states its effect |
| StorageUtil.Lookup | src/utils/StorageUtil.ts:36-55 | what `get` answers; `SetThenGet` and `Storage.Get` state it |
| StorageUtil.BuildKey | src/utils/StorageUtil.ts:18-20 | `namespace:key`, or the key alone; `BuildKeyRoundTrip` and `BuildKeyInjective` state it |
| StorageUtil.SetAll | src/utils/StorageUtil.ts:69-76 | the entries set in turn; `SetAllLastWins` states it |
| StorageUtil.Matching | src/utils/StorageUtil.ts:105-119 | the pure keys of the namespace's full keys that contain the keyword; `Storage.SearchKeys` is proved to list exactly these |
| StorageUtil.BuildKeyRoundTrip | src/utils/StorageUtil.ts:18-20 | stripping the namespace prefix from a built key gives the key back, and reattaching it gives the full key |
| StorageUtil.BuildKeyInjective | src/utils/StorageUtil.ts:18-20 | distinct keys in one namespace never share a storage key |
| StorageUtil.SetThenGet | src/utils/StorageUtil.ts:22-55 | a value set without a TTL (or with TTL 0) is always read back; one with a TTL is read back exactly until its expiry instant |
| StorageUtil.LastFor | src/utils/StorageUtil.ts:69-76 | the last batch entry for a storage key, none iff no entry has it |
| StorageUtil.SetAllLastWins | src/utils/StorageUtil.ts:69-76 | after a batch set, each key holds its last entry's value and keys no entry names are untouched |
| StorageUtil.PureKeyInjective | src/utils/StorageUtil.ts:86-119 | two listed storage keys of one namespace with the same pure key are equal |
| StorageUtil.FacadeOptionsAsWritten | src/utils/StorageUtil.ts:122-174 | the options the facades pass as written: the local facade always localStorage; the session facade sessionStorage for set, get, remove and clear, but localStorage for batchSet, batchGet, getAll and searchKeys |
| StorageUtil.FacadeOptions | src/utils/StorageUtil.ts:149-161 | the corrected table, following the session facade's set, get, remove and clear: each facade uses its own storage for every operation and passes the namespace through |
| StorageUtil.SessionFacadeAsWrittenMissesSessionItems | src/utils/StorageUtil.ts:162-173 | as written, `session.getAll` reads localStorage, so a value put by `session.set` is not listed |
| StorageUtil.SessionFacadeListsSessionItems | src/utils/StorageUtil.ts:149-174 | with the session storage used throughout, a value put by `session.set` is listed by `session.getAll` |
| StorageUtil.Storage.Set | src/utils/StorageUtil.ts:22-34 | stores the value under the namespaced key with expiry now + ttl when a ttl is given; the other storage is untouched |
| StorageUtil.Storage.Get | src/utils/StorageUtil.ts:36-55 | returns the value unless missing or expired; an expired item is removed |
| StorageUtil.Storage.Remove | src/utils/StorageUtil.ts:57-61 | removes exactly the namespaced key |
| StorageUtil.Storage.Clear | src/utils/StorageUtil.ts:63-67 | empties the chosen storage only |
| StorageUtil.Storage.BatchSet | src/utils/StorageUtil.ts:69-76 | the loop sets every entry in order |
| StorageUtil.Storage.BatchGet | src/utils/StorageUtil.ts:78-84 | the result has one entry per requested key, the value a get would return; the chosen storage loses exactly the requested keys whose items had expired, and the other storage is untouched |
| StorageUtil.Storage.GetAll | src/utils/StorageUtil.ts:86-103 | the corrected `getAll`, over a snapshot of the keys: lists every unexpired, non-null item of the namespace under its pure key, and nothing else; removes the expired ones |
| StorageUtil.Storage.GetAllAsWritten | src/utils/StorageUtil.ts:86-103 | the as-written index loop over the storage's key order, where a purge shifts later keys down a slot; proved to compute `ScanFrom` |
| StorageUtil.Without | src/utils/StorageUtil.ts:47 | the key order after a removal: the removed key is gone and nothing else changes |
| StorageUtil.GetAllAsWrittenSkipsNext | src/utils/StorageUtil.ts:90-101 | with keys `a` then `b` and `a` expired, the index loop never visits `b`: an unexpired `b` is not listed, and an expired `b` is not purged |
| StorageUtil.GetAllListsNext | src/utils/StorageUtil.ts:86-103 | on the same items, every listing of the corrected `getAll` has `b` |
| StorageUtil.Storage.SearchKeys | src/utils/StorageUtil.ts:105-119 | returns, without duplicates, exactly the pure keys of the namespace's entries whose full key (namespace prefix included) contains the keyword |
| Theme.ParseIntHex | src/utils/theme.ts:3 | `parseInt(…, 16)`; `ParseDigits` states it on digit strings |
| Theme.RgbToHex | src/utils/theme.ts:8-10 | `rgbToHex`; `RgbToHexFixed`, `RgbToHexShape` and the round trips state it |
| Theme.HexToRgb | src/utils/theme.ts:2-5 | every component lies in 0..255 |
| Theme.HexToRgbOfRgbToHex | src/utils/theme.ts:2-10 | converting r, g, b in 0..255 to hex and back gives them unchanged |
| Theme.RgbToHexOfHexToRgb | src/utils/theme.ts:2-10 | `#` plus six hex digits converted to RGB and back gives the same colour in lower case |
| Theme.RgbToHexShape | src/utils/theme.ts:8-10 | for components in 0..255 the result is `#` and six lower-case hex digits |
| Theme.RgbToHexFixed | src/utils/theme.ts:9 | adding `1 << 24` and dropping the leading digit writes the 24-bit colour with exactly six digits |
| Theme.ParseDigits | src/utils/theme.ts:3 | `parseInt(…, 16)` reads a plain digit string as its value |
| Theme.ValueOfFixed | src/utils/theme.ts:3-9 | reading back the six written digits gives the number |
| Theme.FixedOfValue | src/utils/theme.ts:3-9 | writing a parsed digit string gives the digits in lower case |
| Theme.ToHexFixed | src/utils/theme.ts:9 | `toString(16)` of a number with k digits has no leading zero |
| Theme.ToInt32 | src/utils/theme.ts:4-9 | the 32-bit conversion of the shift operators: in range and congruent modulo 2^32 |
| Theme.ThemeKeysDistinct | src/utils/theme.ts:22-33 | the eleven palette keys are pairwise distinct |
| Theme.GenerateThemeColors | src/utils/theme.ts:21-36 | the palette has exactly the keys primary, primary-light-1..9 and primary-dark-2; primary is the input, each shade the brightness adjustment for its factor |
| Request.Outgoing | src/utils/request.ts:74-91 | the headers the interceptor sends; the header lemmas below state them |
| Request.ErrorMessage | src/utils/request.ts:136-157 | the failure message; `ErrorMessageTable` states it |
| Request.SystemVersion | src/utils/request.ts:52-54 | the configured version when set and non-empty, else `1.0.0` |
| Request.WithBuiltIns | src/utils/request.ts:78-84 | the version header is set; Authorization is `Bearer <token>` iff there is a token and absent otherwise; other headers are untouched |
| Request.Override | src/utils/request.ts:87-91 | custom headers overwrite same-named headers; everything else is kept |
| Request.AuthorizationRule | src/utils/request.ts:56-84 | without a custom Authorization, the request carries `Bearer <token>` exactly when the store has a token |
| Request.VersionRule | src/utils/request.ts:78 | X-System-Version is always sent, with the system version unless a custom header replaces it |
| Request.CustomHeadersWin | src/utils/request.ts:87-91 | every custom header, Authorization included, is sent as given |
| Request.OutgoingIdempotent | src/utils/request.ts:74-91 | running the interceptor twice sends the same headers as running it once |
| Request.InterceptRequest | src/utils/request.ts:74-91 | the config's headers become the composed headers, and nothing else in the config changes |
| Request.CopyHeaders | src/utils/request.ts:87-91 | the loop copies every custom header over the existing ones |
| Request.OnResponse | src/utils/request.ts:117-127 | rejected with the envelope iff code is not 200, with errorMsg or the default toast; otherwise `data.data` when returnData holds and the envelope when it does not |
| Request.UnwrapAgrees | src/utils/request.ts:40-127 | returnData defaults to true, and either way a success carries the same data |
| Request.ErrorMessageTable | src/utils/request.ts:136-157 | 401, 403, 404 and 500 map to their fixed messages; any other status to `请求失败(<status>)`; no response to the timeout message iff the error message contains `timeout`, else the network message |
| Request.FailedWithInjective | src/utils/request.ts:153 | two fallback messages are equal iff their statuses are |
| Request.FailedWithRoundTrip | src/utils/request.ts:153 | the status can be read back from its fallback message |
| Request.DecimalRoundTrip | src/utils/request.ts:153 | the decimal writing of a status reads back as the status |

## Left out

- PermissionStore.ReloginAsWrittenDuplicatesRoutes: the record counted twice is a consequence of the append-only table. vue-router's `addRoute` replaces a root record of the same name, so in the program a second login registers each named route once. What holds under both semantics is `ResetPermissionAsWrittenKeepsNames`: the first login's routes stay registered after logout.
- vue-router internals: `addRoute` replacing records by name and the way `to.matched` is computed are library behaviour. The table is a sequence of records, and `matched.length` is an input.
- The guard's `async`/`await`: the menu request is an input outcome, either menus or a thrown value.
- `generateRoutes` throwing part-way: route generation is total in the model, so the calls before a throw inside `generateDynamicRoutes` are not modelled.
- Refresh tokens: the store only keeps them, so they are modelled only as that.
- Pinia persistence of `token`, `freshToken` and `userInfo`: plugin I/O.
- Lazy `import()` and `import.meta.glob`: they become a set of known view keys and opaque component tokens.
- `console.log`, `console.warn` and `ElMessage` toasts: the guard's toast is the `ShowError` action; the request toasts are the returned messages.
- The `MenuItem` and `RouteRecordRaw` typings: both are the one `Route` datatype.
- JSON in StorageUtil: `JSON.stringify` and `parse` are the identity on stored items, and the value types are not constrained. The storage's key order is an input of `Storage.GetAllAsWritten`. A removal keeps the relative order of the other keys, which the Web Storage standard leaves to the browser. `Storage.GetAll` and `Storage.SearchKeys` are stated against a snapshot of the keys.
- StorageUtil.Storage.BatchSet: every entry's expiry is computed from one `now`. The program reads `Date.now()` again for each `set`, so entries set across a clock tick can differ by that tick.
- LayoutStrategyFactory.LayoutStrategyFactory.RegisterStrategy: `Strategy` is a closed datatype of the five built-in strategies, so a strategy object defined elsewhere cannot be registered, as `registerStrategy(mode, strategy)` allows.
- RouterGuard.QueryTitle: takes the first `title` pair. vue-router parses a repeated query key into an array, which the `as string` cast passes on unchanged, so the title becomes that array, shown comma-joined.
- Browser storage quota errors: the browser can throw them, and the model does not.
- `URLSearchParams` on non-string query values: arrays and nulls are stringified by the browser. The query is a sequence of string pairs here.
- Undefined route names in `useNavigation`: `to.name as string` may be undefined. Names are strings here.
- `adjustBrightness` and the shade values: floating-point work, so `GenerateThemeColors` takes the shade function as a parameter.
- `toggleDarkMode`, `toggleMourningMode` and `toggleColorWeakMode`: they change the DOM.
- UrlEncoding.EncodeURIComponent: `encodeURIComponent` throws `URIError` on a lone surrogate, but a Dafny `char` is a Unicode scalar value and cannot hold one, so that error path is not modelled.
- NavigationCache.CacheViews.Navigate: models one route change followed by its own `nextTick`. Two route changes before one tick, with their deferred adds interleaved, are not modelled.
- StorageUtil.Storage.GetAll: `V` is generic, so which stored values are JSON `null` is given by the `isNull` parameter; `undefined` values are not distinguished.
- Theme.HexToRgb: reads `parseInt` of more than 13 hex digits exactly, where JavaScript rounds to a double first. Below 2^53 the two agree.
- Theme.RgbToHex: takes integer components, so fractional arguments to the shifts are not modelled.
- Request.InterceptRequest: header names are compared exactly, so axios's case-insensitive header names are not modelled.
- The axios instance, the `ElLoading` spinner and the request, get, post, put and delete wrappers: transport plumbing without decisions of their own.
- The literal examples (the `/dashboard` login URL, `/system/user` in the mixed layout) are proved for every path of that shape, in `RouterGuard.LoginUrlOfPlainPath` and `UseLayoutStrategy.MixedActiveMenus`.
- `ServerMenuItem` fields the code never reads are omitted.

## Findings

| source | as written | input that shows it | evidently intended | confidence | as-written member | corrected member |
|---|---|---|---|---|---|---|
| src/stores/permission.ts:141-148 | `resetPermission` empties `dynamicRoutes` before calling `resetRouter`, which then iterates the empty list and removes nothing | load a non-empty menu list, then call `resetPermission()` (a logout, which no file of this model calls): every generated route stays registered. The guard's failed-fetch branch cannot show it, since it runs only while no dynamic routes are held | remove the dynamic routes from the router, then clear the state | high (not executed) | PermissionStore.ResetPermissionAsWrittenLeaksRoutes | PermissionStore.LogoutUndoesLogin |
| src/utils/StorageUtil.ts:90-101 | `getAll` indexes `storage.key(i)` while the `get` inside the loop removes expired items, so after a removal the next key takes slot `i` and `i++` skips it | keys `a` then `b` in storage order, `a` expired and `b` unexpired: `getAll()` does not list `b`. With `b` expired too, `b` stays stored | every unexpired item is listed and every expired one purged | plausible, depends on the browser's key order (not executed) | StorageUtil.GetAllAsWrittenSkipsNext | StorageUtil.Storage.GetAll |
| src/utils/StorageUtil.ts:162-173 | the `session` facade's `batchSet`, `batchGet`, `getAll` and `searchKeys` pass `useSession: false` | `session.set('k', v)` then `session.getAll()`: `k` is not listed | every `session` operation uses sessionStorage, like its `set`, `get`, `remove` and `clear` | high (not executed) | StorageUtil.SessionFacadeAsWrittenMissesSessionItems | StorageUtil.SessionFacadeListsSessionItems |

Other observations where the code and its documentation differ, modelled as the code behaves:

- The guard calls `next` twice for an unmatched route of a loaded session: a 404 redirect, then `next()`.
- The mock server emits `errorCode` rather than `code`, so the response interceptor rejects every mocked envelope.
