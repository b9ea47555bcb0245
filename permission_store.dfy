/**
 * The permission store: the session (tokens, user record, generated routes,
 * the "routes loaded" flag) and the actions that register the generated
 * routes with the router and tear them down again.
 *
 * The router's table is a sequence of top-level records; `addRoute` appends
 * and `removeRoute(name)` drops the records carrying that name.
 */
module PermissionStore {
  import opened Wrappers
  import opened RouteTypes
  import RouteGenerator

  /** The record carries one of `names`. */
  predicate NamedIn(route: Route, names: set<string>) {
    route.name.Some? && route.name.value in names
  }

  /** The name `resetRouter` passes to `removeRoute` for one record (only a truthy one). */
  function RemovableName(route: Route): set<string> {
    if Truthy(route.name) then {route.name.value} else {}
  }

  /** All names `resetRouter` removes when iterating `routes` in order. */
  function RemovableNames(routes: seq<Route>): set<string>
    decreases |routes|
  {
    if routes == [] then {} else RemovableNames(routes[..|routes| - 1]) + RemovableName(routes[|routes| - 1])
  }

  /** The table after removing every record named in `names`, the rest in order. */
  function Unregister(table: seq<Route>, names: set<string>): seq<Route> {
    if table == [] then []
    else (if NamedIn(table[0], names) then [] else [table[0]]) + Unregister(table[1..], names)
  }

  lemma {:induction false} UnregisterMembers(table: seq<Route>, names: set<string>, x: Route)
    ensures x in Unregister(table, names) <==> x in table && !NamedIn(x, names)
  {
    if table != [] {
      UnregisterMembers(table[1..], names, x);
      assert table == [table[0]] + table[1..];
    }
  }

  lemma {:induction false} UnregisterKeepsUnnamed(table: seq<Route>, names: set<string>)
    requires forall x :: x in table ==> !NamedIn(x, names)
    ensures Unregister(table, names) == table
  {
    if table != [] {
      UnregisterKeepsUnnamed(table[1..], names);
    }
  }

  lemma {:induction false} UnregisterDropsNamed(table: seq<Route>, names: set<string>)
    requires forall x :: x in table ==> NamedIn(x, names)
    ensures Unregister(table, names) == []
  {
    if table != [] {
      UnregisterDropsNamed(table[1..], names);
    }
  }

  lemma {:induction false} UnregisterAppend(a: seq<Route>, b: seq<Route>, names: set<string>)
    ensures Unregister(a + b, names) == Unregister(a, names) + Unregister(b, names)
  {
    if a != [] {
      assert (a + b)[1..] == a[1..] + b;
      UnregisterAppend(a[1..], b, names);
    } else {
      assert a + b == b;
    }
  }

  /** Removing one set of names after another removes their union. */
  lemma {:induction false} UnregisterTwice(table: seq<Route>, a: set<string>, b: set<string>)
    ensures Unregister(Unregister(table, a), b) == Unregister(table, a + b)
  {
    if table != [] {
      UnregisterTwice(table[1..], a, b);
      var rest := Unregister(table[1..], a);
      if !NamedIn(table[0], a) {
        assert Unregister(table, a) == [table[0]] + rest;
        assert ([table[0]] + rest)[0] == table[0];
        assert ([table[0]] + rest)[1..] == rest;
      } else {
        assert Unregister(table, a) == rest;
      }
    }
  }

  lemma {:induction false} RemovableNamesComplete(routes: seq<Route>, r: Route)
    requires r in routes && Truthy(r.name)
    ensures r.name.value in RemovableNames(routes)
    decreases |routes|
  {
    var last := routes[|routes| - 1];
    if r != last {
      assert routes == routes[..|routes| - 1] + [last];
      RemovableNamesComplete(routes[..|routes| - 1], r);
    }
  }

  lemma {:induction false} RemovableNamesSound(routes: seq<Route>, n: string)
    requires n in RemovableNames(routes)
    ensures exists r :: r in routes && r.name == Some(n)
    decreases |routes|
  {
    var last := routes[|routes| - 1];
    if n !in RemovableName(last) {
      RemovableNamesSound(routes[..|routes| - 1], n);
      var r :| r in routes[..|routes| - 1] && r.name == Some(n);
      assert r in routes;
    }
  }

  /** The router, reduced to its table of registered top-level records. */
  class Router {
    var table: seq<Route>

    constructor (initial: seq<Route>)
      ensures table == initial
    {
      table := initial;
    }

    method AddRoute(route: Route)
      modifies this
      ensures table == old(table) + [route]
    {
      table := table + [route];
    }

    method RemoveRoute(name: string)
      modifies this
      ensures table == Unregister(old(table), {name})
    {
      table := Unregister(table, {name});
    }
  }

  /** A snapshot of the store together with the router's table. */
  datatype Session = Session(
    userInfo: Option<UserInfo>,
    token: string,
    freshToken: string,
    dynamicRoutes: seq<Route>,
    isRoutesLoaded: bool,
    table: seq<Route>)

  /** `generateDynamicRoutes(menus)`: store the generated list, register each record, mark loaded. */
  function AfterGenerate(s: Session, registry: set<string>, menus: seq<ServerMenuItem>): Session {
    var routes := RouteGenerator.RoutesOf(menus, registry);
    s.(dynamicRoutes := routes, table := s.table + routes, isRoutesLoaded := true)
  }

  /** `resetRouter()`: remove the current dynamic routes by name, mark not loaded. */
  function AfterResetRouter(s: Session): Session {
    s.(table := Unregister(s.table, RemovableNames(s.dynamicRoutes)), isRoutesLoaded := false)
  }

  /** `resetPermission()` as written: the route list is emptied before `resetRouter` reads it. */
  function AfterResetPermissionAsWritten(s: Session): Session {
    AfterResetRouter(s.(userInfo := None, token := "", freshToken := "", dynamicRoutes := []))
  }

  /** `resetPermission()` as intended: unregister the dynamic routes, then clear the session. */
  function AfterResetPermission(s: Session): Session {
    AfterResetRouter(s).(userInfo := None, token := "", freshToken := "", dynamicRoutes := [])
  }

  /** `resetRouter` removes exactly the records named by the current dynamic routes. */
  lemma ResetRouterRemovesExactly(s: Session, x: Route)
    ensures x in AfterResetRouter(s).table <==> x in s.table && !NamedIn(x, RemovableNames(s.dynamicRoutes))
    ensures !AfterResetRouter(s).isRoutesLoaded
  {
    UnregisterMembers(s.table, RemovableNames(s.dynamicRoutes), x);
  }

  /** As written, `resetPermission` clears the session but leaves the router table untouched. */
  lemma ResetPermissionAsWrittenKeepsTable(s: Session)
    ensures var t := AfterResetPermissionAsWritten(s);
      t.table == s.table && t.dynamicRoutes == [] && !t.isRoutesLoaded
      && t.token == "" && t.freshToken == "" && t.userInfo == None
  {
    UnregisterKeepsUnnamed(s.table, {});
  }

  /** A fresh session without dynamic routes. */
  predicate FreshTable(s: Session) {
    s.dynamicRoutes == []
  }

  /** The menus name their nodes, and none of those names is already in the table. */
  predicate NamesFresh(table: seq<Route>, menus: seq<ServerMenuItem>) {
    && (forall m :: m in menus ==> m.name != "")
    && (forall x, m :: x in table && m in menus ==> x.name != Some(m.name))
  }

  lemma GeneratedNames(table: seq<Route>, registry: set<string>, menus: seq<ServerMenuItem>)
    requires NamesFresh(table, menus)
    ensures forall r :: r in RouteGenerator.RoutesOf(menus, registry) ==>
      NamedIn(r, RemovableNames(RouteGenerator.RoutesOf(menus, registry)))
    ensures forall x :: x in table ==> !NamedIn(x, RemovableNames(RouteGenerator.RoutesOf(menus, registry)))
  {
    var routes := RouteGenerator.RoutesOf(menus, registry);
    forall r | r in routes
      ensures NamedIn(r, RemovableNames(routes))
    {
      var i :| 0 <= i < |routes| && routes[i] == r;
      assert menus[i] in menus;
      assert r == RouteGenerator.RouteOf(menus[i], registry);
      RemovableNamesComplete(routes, r);
    }
    forall x | x in table
      ensures !NamedIn(x, RemovableNames(routes))
    {
      forall r | r in routes
        ensures r.name != x.name
      {
        var i :| 0 <= i < |routes| && routes[i] == r;
        assert menus[i] in menus;
        assert r == RouteGenerator.RouteOf(menus[i], registry);
      }
      if x.name.Some? && x.name.value in RemovableNames(routes) {
        RemovableNamesSound(routes, x.name.value);
      }
    }
  }

  /** Logging out after loading the routes of a fresh session returns the router
      table to what it was before, and the session to its reset state. */
  lemma LogoutUndoesLogin(s: Session, registry: set<string>, menus: seq<ServerMenuItem>)
    requires FreshTable(s) && NamesFresh(s.table, menus)
    ensures AfterResetPermission(AfterGenerate(s, registry, menus)).table == s.table
    ensures AfterResetPermission(AfterGenerate(s, registry, menus)) == AfterResetPermission(s)
  {
    var routes := RouteGenerator.RoutesOf(menus, registry);
    var names := RemovableNames(routes);
    GeneratedNames(s.table, registry, menus);
    UnregisterAppend(s.table, routes, names);
    UnregisterKeepsUnnamed(s.table, names);
    UnregisterDropsNamed(routes, names);
    UnregisterKeepsUnnamed(s.table, {});
  }

  /** Log out and log in again with the same menus: the same router table as the first login. */
  lemma ReloginReproducesTable(s: Session, registry: set<string>, menus: seq<ServerMenuItem>)
    requires FreshTable(s) && NamesFresh(s.table, menus)
    ensures var first := AfterGenerate(s, registry, menus);
      AfterGenerate(AfterResetPermission(first), registry, menus).table == first.table
  {
    LogoutUndoesLogin(s, registry, menus);
  }

  /** As written, logging out after a login leaves every generated route registered. */
  lemma ResetPermissionAsWrittenLeaksRoutes(s: Session, registry: set<string>, menus: seq<ServerMenuItem>)
    requires menus != []
    ensures var after := AfterResetPermissionAsWritten(AfterGenerate(s, registry, menus));
      after.table == s.table + RouteGenerator.RoutesOf(menus, registry) && after.table != s.table
  {
    ResetPermissionAsWrittenKeepsTable(AfterGenerate(s, registry, menus));
    assert |RouteGenerator.RoutesOf(menus, registry)| > 0;
  }

  /** As written, logging out removes no route name the login registered: every name the
      corrected reset would unregister is still carried by a record of the table. This holds
      whether `addRoute` appends or replaces a record of the same name, since the reset calls
      `removeRoute` for no name at all. */
  lemma ResetPermissionAsWrittenKeepsNames(s: Session, registry: set<string>, menus: seq<ServerMenuItem>, n: string)
    requires n in RemovableNames(AfterGenerate(s, registry, menus).dynamicRoutes)
    ensures exists x :: x in AfterResetPermissionAsWritten(AfterGenerate(s, registry, menus)).table && x.name == Some(n)
  {
    var first := AfterGenerate(s, registry, menus);
    ResetPermissionAsWrittenKeepsTable(first);
    RemovableNamesSound(first.dynamicRoutes, n);
    var r :| r in first.dynamicRoutes && r.name == Some(n);
    assert r in first.table;
  }

  /** In this model's append-only table, logging out as written and in again with the same
      menus registers every generated record a second time: the table holds them twice. */
  lemma ReloginAsWrittenDuplicatesRoutes(s: Session, registry: set<string>, menus: seq<ServerMenuItem>)
    ensures var routes := RouteGenerator.RoutesOf(menus, registry);
      var first := AfterGenerate(s, registry, menus);
      AfterGenerate(AfterResetPermissionAsWritten(first), registry, menus).table == s.table + routes + routes
  {
    ResetPermissionAsWrittenKeepsTable(AfterGenerate(s, registry, menus));
  }

  /** Resetting twice is the same as resetting once, both as written and as intended. */
  lemma ResetPermissionIdempotent(s: Session)
    ensures AfterResetPermissionAsWritten(AfterResetPermissionAsWritten(s)) == AfterResetPermissionAsWritten(s)
    ensures AfterResetPermission(AfterResetPermission(s)) == AfterResetPermission(s)
  {
    ResetPermissionAsWrittenKeepsTable(s);
    ResetPermissionAsWrittenKeepsTable(AfterResetPermissionAsWritten(s));
    UnregisterKeepsUnnamed(AfterResetPermission(s).table, {});
  }

  /** `isRoutesLoaded` is false only while the store holds no dynamic routes. */
  predicate LoadFlagHonest(s: Session) {
    !s.isRoutesLoaded ==> s.dynamicRoutes == []
  }

  /** The store's exported actions keep the flag honest (`resetRouter`, which would break it,
      is not exported and only runs inside `resetPermission`). */
  lemma LoadFlagHonestPreserved(s: Session, registry: set<string>, menus: seq<ServerMenuItem>,
                                info: UserInfo, t: string)
    requires LoadFlagHonest(s)
    ensures LoadFlagHonest(AfterGenerate(s, registry, menus))
    ensures LoadFlagHonest(AfterResetPermissionAsWritten(s)) && LoadFlagHonest(AfterResetPermission(s))
    ensures LoadFlagHonest(s.(userInfo := Some(info))) && LoadFlagHonest(s.(token := t))
    ensures LoadFlagHonest(s.(freshToken := t))
  {
  }

  /** While the routes are not loaded the two orders of `resetPermission` agree: there is
      nothing to unregister either way. */
  lemma ResetsAgreeWhenNotLoaded(s: Session)
    requires LoadFlagHonest(s) && !s.isRoutesLoaded
    ensures AfterResetPermissionAsWritten(s) == AfterResetPermission(s)
  {
    assert RemovableNames(s.dynamicRoutes) == {};
    UnregisterKeepsUnnamed(s.table, {});
  }

  /** The permission store (`usePermissionStore`). */
  class Store {
    var userInfo: Option<UserInfo>
    var token: string
    var freshToken: string
    var dynamicRoutes: seq<Route>
    var isRoutesLoaded: bool
    /** The router the store registers routes with. */
    const router: Router
    /** The keys of the view modules the component loader can find. */
    const registry: set<string>

    function Snapshot(): Session
      reads this, router
    {
      Session(userInfo, token, freshToken, dynamicRoutes, isRoutesLoaded, router.table)
    }

    constructor (router: Router, registry: set<string>)
      ensures this.router == router && this.registry == registry
      ensures Snapshot() == Session(None, "", "", [], false, router.table)
      ensures LoadFlagHonest(Snapshot())
    {
      this.router := router;
      this.registry := registry;
      userInfo := None;
      token := "";
      freshToken := "";
      dynamicRoutes := [];
      isRoutesLoaded := false;
    }

    /** `routes`: the constant routes followed by the dynamic ones. */
    function Routes(constantRoutes: seq<Route>): (all: seq<Route>)
      reads this
      ensures |all| == |constantRoutes| + |dynamicRoutes|
      ensures all[..|constantRoutes|] == constantRoutes && all[|constantRoutes|..] == dynamicRoutes
    {
      constantRoutes + dynamicRoutes
    }

    method SetUserInfo(info: UserInfo)
      modifies this
      ensures Snapshot() == old(Snapshot()).(userInfo := Some(info))
    {
      userInfo := Some(info);
    }

    method SetToken(userToken: string)
      modifies this
      ensures Snapshot() == old(Snapshot()).(token := userToken)
    {
      token := userToken;
    }

    method GetToken() returns (t: string)
      ensures t == token
    {
      t := token;
    }

    method SetRefreshToken(refreshToken: string)
      modifies this
      ensures Snapshot() == old(Snapshot()).(freshToken := refreshToken)
    {
      freshToken := refreshToken;
    }

    method GetRefreshToken() returns (t: string)
      ensures t == freshToken
    {
      t := freshToken;
    }

    method GenerateDynamicRoutes(menus: seq<ServerMenuItem>)
      modifies this, router
      ensures Snapshot() == AfterGenerate(old(Snapshot()), registry, menus)
    {
      var routes := RouteGenerator.GenerateRoutes(menus, registry);
      dynamicRoutes := routes;
      for i := 0 to |routes|
        invariant router.table == old(router.table) + routes[..i]
        modifies router
      {
        router.AddRoute(routes[i]);
        assert routes[..i + 1] == routes[..i] + [routes[i]];
      }
      assert routes[..|routes|] == routes;
      isRoutesLoaded := true;
    }

    method ResetRouter()
      modifies this, router
      ensures Snapshot() == AfterResetRouter(old(Snapshot()))
    {
      UnregisterKeepsUnnamed(router.table, {});
      for i := 0 to |dynamicRoutes|
        invariant router.table == Unregister(old(router.table), RemovableNames(dynamicRoutes[..i]))
        modifies router
      {
        var route := dynamicRoutes[i];
        assert dynamicRoutes[..i + 1][..i] == dynamicRoutes[..i];
        assert RemovableNames(dynamicRoutes[..i + 1]) == RemovableNames(dynamicRoutes[..i]) + RemovableName(route);
        ghost var done := RemovableNames(dynamicRoutes[..i]);
        if Truthy(route.name) {
          router.RemoveRoute(route.name.value);
          UnregisterTwice(old(router.table), done, {route.name.value});
          assert RemovableNames(dynamicRoutes[..i + 1]) == done + {route.name.value};
        } else {
          assert RemovableNames(dynamicRoutes[..i + 1]) == done;
        }
      }
      assert dynamicRoutes[..|dynamicRoutes|] == dynamicRoutes;
      isRoutesLoaded := false;
    }

    /** `resetPermission` as the source writes it (see `ResetPermissionAsWrittenLeaksRoutes`). */
    method ResetPermissionAsWritten()
      modifies this, router
      ensures Snapshot() == AfterResetPermissionAsWritten(old(Snapshot()))
    {
      userInfo := None;
      token := "";
      freshToken := "";
      dynamicRoutes := [];
      ResetRouter();
    }

    /** `resetPermission` with the routes unregistered before the list is cleared. */
    method ResetPermission()
      modifies this, router
      ensures Snapshot() == AfterResetPermission(old(Snapshot()))
    {
      ResetRouter();
      userInfo := None;
      token := "";
      freshToken := "";
      dynamicRoutes := [];
    }
  }
}
