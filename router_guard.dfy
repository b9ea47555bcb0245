/**
 * The global navigation guard (`router.beforeEach`) and the login redirect.
 *
 * The guard is given the session's token and "routes loaded" flag, the
 * target location (with the number of records it matched) and the outcome
 * of the menu request it awaits; it answers with the actions it performs,
 * in order: the `next(...)` calls, the title written into the target's
 * meta, and the store actions it triggers.
 */
module RouterGuard {
  import opened Wrappers
  import opened RouteTypes
  import UrlEncoding
  import PermissionStore

  /** Paths reachable without a token. */
  const WhiteList: seq<string> := ["/login"]

  /** The prefix of every login redirect. */
  const LoginPrefix: string := "/login?redirect="

  /** Message shown when the menu request fails with something that is not an `Error`. */
  const DefaultFailureMessage: string := "获取用户信息失败，请重新登录"

  /** The target location; `query` lists the query's entries in order, values as strings. */
  datatype Target = Target(
    path: string,
    query: seq<(string, string)>,
    paramsTitle: Option<string>,
    matched: nat)

  /** What the awaited menu request threw: an `Error` with its message, or anything else. */
  datatype Thrown = ErrorObject(message: string) | NonError

  /** The settled outcome of `userApi.getUserMenus()`. */
  datatype Fetch = Fetched(menus: seq<ServerMenuItem>) | Failed(thrown: Thrown)

  /** The argument of a `next(...)` call. */
  datatype NextArg =
    | Proceed                               // next()
    | ToPath(path: string, replace: bool)   // next({ path, replace })
    | Replay                                // next({ ...to, replace: true })
    | ToUrl(url: string)                    // next(url)

  datatype Action =
    | CallNext(arg: NextArg)
    | SetTitle(title: string)
    | GenerateRoutes(menus: seq<ServerMenuItem>)
    | ResetPermission
    | ShowError(message: string)

  /** `to.query.title`: the value of the first `title` entry. */
  function QueryTitle(query: seq<(string, string)>): (t: Option<string>)
    ensures t.Some? <==> exists i :: 0 <= i < |query| && query[i].0 == "title"
    ensures t.Some? ==> exists i :: 0 <= i < |query| && query[i] == ("title", t.value)
  {
    if query == [] then None
    else if query[0].0 == "title" then Some(query[0].1)
    else
      var t := QueryTitle(query[1..]);
      if t.Some? then
        var i :| 0 <= i < |query[1..]| && query[1..][i] == ("title", t.value);
        assert query[i + 1] == ("title", t.value);
        t
      else t
  }

  /** `params.title || query.title`, kept only when truthy. */
  function Title(to: Target): Option<string> {
    if Truthy(to.paramsTitle) then to.paramsTitle
    else if Truthy(QueryTitle(to.query)) then QueryTitle(to.query)
    else None
  }

  /** The title set is the params title when truthy, otherwise the first query title when
      truthy; a title is set only when one of them is, and it is never empty. */
  lemma TitleRule(to: Target)
    ensures Title(to).Some? <==> Truthy(to.paramsTitle) || Truthy(QueryTitle(to.query))
    ensures Title(to).Some? ==> Title(to).value != ""
    ensures Truthy(to.paramsTitle) ==> Title(to) == to.paramsTitle
    ensures !Truthy(to.paramsTitle) && Title(to).Some? ==>
      exists i :: 0 <= i < |to.query| && to.query[i] == ("title", Title(to).value)
  {
  }

  /** The message of the failure toast. */
  function FailureMessage(thrown: Thrown): string {
    match thrown
    case ErrorObject(message) => message
    case NonError => DefaultFailureMessage
  }

  /** The location the login page sends the user back to: the path, with the query when there is one. */
  function RedirectTarget(to: Target): string {
    var queryString := UrlEncoding.SerializeQuery(to.query);
    if queryString != "" then to.path + "?" + queryString else to.path
  }

  /** `redirectToLogin`: the login URL carrying the encoded target. */
  function LoginUrl(to: Target): string {
    LoginPrefix + UrlEncoding.EncodeURIComponent(RedirectTarget(to))
  }

  /** The decision procedure of `beforeEach`. */
  function BeforeEach(token: string, isRoutesLoaded: bool, to: Target, fetch: Fetch): seq<Action> {
    if token != "" then
      if to.path == "/login" then [CallNext(ToPath("/", false))]
      else if isRoutesLoaded then
        (if to.matched == 0 then [CallNext(ToPath("/404", true))] else [])
        + (match Title(to) case Some(t) => [SetTitle(t)] case None => [])
        + [CallNext(Proceed)]
      else
        match fetch
        case Fetched(menus) => [GenerateRoutes(menus), CallNext(Replay)]
        case Failed(thrown) =>
          [ResetPermission, ShowError(FailureMessage(thrown)), CallNext(ToUrl(LoginUrl(to)))]
    else if to.path in WhiteList then [CallNext(Proceed)]
    else [CallNext(ToUrl(LoginUrl(to)))]
  }

  /** The arguments of the `next(...)` calls among `actions`, in order. */
  function NextCalls(actions: seq<Action>): seq<NextArg> {
    if actions == [] then []
    else (if actions[0].CallNext? then [actions[0].arg] else []) + NextCalls(actions[1..])
  }

  lemma {:induction false} NextCallsAppend(a: seq<Action>, b: seq<Action>)
    ensures NextCalls(a + b) == NextCalls(a) + NextCalls(b)
  {
    if a == [] {
      assert a + b == b;
    } else {
      assert (a + b)[0] == a[0] && (a + b)[1..] == a[1..] + b;
      NextCallsAppend(a[1..], b);
      var head := if a[0].CallNext? then [a[0].arg] else [];
      assert NextCalls(a + b) == head + NextCalls(a[1..] + b);
      assert NextCalls(a) == head + NextCalls(a[1..]);
    }
  }

  /** The branch that falls through the 404 redirect. */
  predicate FallsThrough404(token: string, isRoutesLoaded: bool, to: Target) {
    token != "" && to.path != "/login" && isRoutesLoaded && to.matched == 0
  }

  /** Every run ends in a `next(...)` call; it calls `next` twice exactly when an
      unmatched target falls through the 404 redirect, and once otherwise. */
  lemma NextCallCount(token: string, isRoutesLoaded: bool, to: Target, fetch: Fetch)
    ensures var actions := BeforeEach(token, isRoutesLoaded, to, fetch);
      && |actions| > 0 && actions[|actions| - 1].CallNext?
      && |NextCalls(actions)| == (if FallsThrough404(token, isRoutesLoaded, to) then 2 else 1)
  {
    var actions := BeforeEach(token, isRoutesLoaded, to, fetch);
    if token != "" && to.path != "/login" && isRoutesLoaded {
      var head := if to.matched == 0 then [CallNext(ToPath("/404", true))] else [];
      var mid := match Title(to) case Some(t) => [SetTitle(t)] case None => [];
      assert actions == head + mid + [CallNext(Proceed)];
      NextCallsAppend(head + mid, [CallNext(Proceed)]);
      NextCallsAppend(head, mid);
      assert NextCalls(mid) == [];
      assert NextCalls([CallNext(Proceed)]) == [Proceed];
      assert |NextCalls(head)| == (if to.matched == 0 then 1 else 0);
    } else if token != "" && to.path != "/login" {
      match fetch {
        case Fetched(menus) =>
          var last := [CallNext(Replay)];
          assert actions == [GenerateRoutes(menus)] + last;
          NextCallsAppend([GenerateRoutes(menus)], last);
          assert NextCalls([GenerateRoutes(menus)]) == [] + NextCalls([]);
          assert NextCalls(last) == [Replay] + NextCalls([]);
        case Failed(thrown) =>
          var first := [ResetPermission, ShowError(FailureMessage(thrown))];
          var last := [CallNext(ToUrl(LoginUrl(to)))];
          assert actions == first + last;
          NextCallsAppend(first, last);
          assert first[1..] == [ShowError(FailureMessage(thrown))];
          assert NextCalls(first[1..]) == [] + NextCalls([]);
          assert NextCalls(first) == [] + NextCalls(first[1..]);
          assert NextCalls(last) == [ToUrl(LoginUrl(to))] + NextCalls([]);
      }
    }
  }

  /** With a token, the routes loaded and a matched target, the guard proceeds once,
      after writing the title taken from the params or else the query. */
  lemma LoadedMatchedProceeds(token: string, to: Target, fetch: Fetch)
    requires token != "" && to.path != "/login" && to.matched > 0
    ensures var actions := BeforeEach(token, true, to, fetch);
      && NextCalls(actions) == [Proceed]
      && (Truthy(to.paramsTitle) ==> actions == [SetTitle(to.paramsTitle.value), CallNext(Proceed)])
      && (!Truthy(to.paramsTitle) && Truthy(QueryTitle(to.query)) ==>
            actions == [SetTitle(QueryTitle(to.query).value), CallNext(Proceed)])
      && (!Truthy(to.paramsTitle) && !Truthy(QueryTitle(to.query)) ==> actions == [CallNext(Proceed)])
  {
    NextCallCount(token, true, to, fetch);
  }

  /** An unmatched target is redirected to 404 and, falling through, still proceeds. */
  lemma UnmatchedRedirectsThenProceeds(token: string, to: Target, fetch: Fetch)
    requires token != "" && to.path != "/login" && to.matched == 0
    ensures NextCalls(BeforeEach(token, true, to, fetch)) == [ToPath("/404", true), Proceed]
  {
    var mid := match Title(to) case Some(t) => [SetTitle(t)] case None => [];
    NextCallsAppend([CallNext(ToPath("/404", true))] + mid, [CallNext(Proceed)]);
    NextCallsAppend([CallNext(ToPath("/404", true))], mid);
  }

  /** The store is touched only while the routes are not yet loaded: a successful fetch
      generates them, a failed one resets the session; the title is written only once they are. */
  lemma StoreActions(token: string, isRoutesLoaded: bool, to: Target, fetch: Fetch)
    ensures var actions := BeforeEach(token, isRoutesLoaded, to, fetch);
      var pending := token != "" && to.path != "/login" && !isRoutesLoaded;
      && ((exists i :: 0 <= i < |actions| && actions[i].GenerateRoutes?) <==> pending && fetch.Fetched?)
      && ((exists i :: 0 <= i < |actions| && actions[i] == ResetPermission) <==> pending && fetch.Failed?)
      && (pending && fetch.Fetched? ==> actions == [GenerateRoutes(fetch.menus), CallNext(Replay)])
      && (pending && fetch.Failed? ==>
            (actions == [ResetPermission, ShowError(FailureMessage(fetch.thrown)), CallNext(ToUrl(LoginUrl(to)))]))
      && ((exists i :: 0 <= i < |actions| && actions[i].SetTitle?) <==>
            token != "" && to.path != "/login" && isRoutesLoaded && Title(to).Some?)
  {
    var actions := BeforeEach(token, isRoutesLoaded, to, fetch);
    if token != "" && to.path != "/login" && isRoutesLoaded {
      var head := if to.matched == 0 then [CallNext(ToPath("/404", true))] else [];
      match Title(to)
      case Some(t) =>
        assert actions == head + [SetTitle(t)] + [CallNext(Proceed)];
        assert actions[|head|].SetTitle?;
      case None =>
        assert actions == head + [CallNext(Proceed)];
    } else if token != "" && to.path != "/login" {
      if fetch.Fetched? {
        assert actions[0].GenerateRoutes?;
      } else {
        assert actions[0] == ResetPermission;
      }
    }
  }

  /** Without a token the guard proceeds exactly on the white list, and otherwise sends
      the user to the login page; it never touches the store. */
  lemma NoTokenRule(to: Target, isRoutesLoaded: bool, fetch: Fetch)
    ensures var actions := BeforeEach("", isRoutesLoaded, to, fetch);
      && (to.path in WhiteList <==> actions == [CallNext(Proceed)])
      && (to.path !in WhiteList <==> actions == [CallNext(ToUrl(LoginUrl(to)))])
  {
  }

  /** With a token, the login page is redirected to the home page. */
  lemma LoggedInLoginPage(token: string, isRoutesLoaded: bool, to: Target, fetch: Fetch)
    requires token != "" && to.path == "/login"
    ensures NextCalls(BeforeEach(token, isRoutesLoaded, to, fetch)) == [ToPath("/", false)]
  {
  }

  /** The failure message is the error's own message for an `Error`, the fixed default otherwise. */
  lemma FailureMessageRule(thrown: Thrown)
    ensures thrown.ErrorObject? ==> FailureMessage(thrown) == thrown.message
    ensures thrown.NonError? ==> FailureMessage(thrown) == DefaultFailureMessage
  {
  }

  /** The query is appended exactly when there is one. */
  lemma RedirectTargetRule(to: Target)
    ensures RedirectTarget(to) == to.path <==> to.query == []
    ensures to.query != [] ==> RedirectTarget(to) == to.path + "?" + UrlEncoding.SerializeQuery(to.query)
  {
    UrlEncoding.SerializeQueryEmpty(to.query);
    if to.query != [] {
      assert |RedirectTarget(to)| > |to.path|;
    }
  }

  /** The login URL carries the target as a single `redirect` value that decodes back to it. */
  lemma LoginUrlRoundTrip(to: Target)
    ensures var url := LoginUrl(to);
      && |LoginPrefix| <= |url| && url[..|LoginPrefix|] == LoginPrefix
      && UrlEncoding.Decode(UrlEncoding.UriComponent, url[|LoginPrefix|..]) == Some(RedirectTarget(to))
      && forall i :: |LoginPrefix| <= i < |url| ==> url[i] !in {'/', '?', '#', '&', '=', ' '}
  {
    var url := LoginUrl(to);
    var encoded := UrlEncoding.EncodeURIComponent(RedirectTarget(to));
    assert url[|LoginPrefix|..] == encoded;
    UrlEncoding.DecodeEncode(UrlEncoding.UriComponent, RedirectTarget(to));
    forall i | |LoginPrefix| <= i < |url|
      ensures url[i] !in {'/', '?', '#', '&', '=', ' '}
    {
      assert url[i] == encoded[i - |LoginPrefix|];
      UrlEncoding.NoDelimiters(UrlEncoding.UriComponent, RedirectTarget(to), i - |LoginPrefix|);
    }
  }

  /** A query-less target `/` + a word of unreserved characters only has its slash escaped,
      e.g. `/dashboard` becomes `/login?redirect=%2Fdashboard`. */
  lemma LoginUrlOfPlainPath(to: Target, word: string)
    requires to.query == [] && to.path == "/" + word
    requires forall i :: 0 <= i < |word| ==> UrlEncoding.Unreserved(UrlEncoding.UriComponent, word[i])
    ensures LoginUrl(to) == LoginPrefix + "%2F" + word
  {
    RedirectTargetRule(to);
    UrlEncoding.EncodeSlash();
    UrlEncoding.EncodeAppend(UrlEncoding.UriComponent, "/", word);
    UrlEncoding.EncodeUnreserved(UrlEncoding.UriComponent, word);
  }

  /** The store changes the performed actions make; the reset is `resetPermission` as written. */
  function ApplyActions(s: PermissionStore.Session, registry: set<string>, actions: seq<Action>): PermissionStore.Session
    decreases |actions|
  {
    if actions == [] then s
    else
      var next := match actions[0]
        case GenerateRoutes(menus) => PermissionStore.AfterGenerate(s, registry, menus)
        case ResetPermission => PermissionStore.AfterResetPermissionAsWritten(s)
        case _ => s;
      ApplyActions(next, registry, actions[1..])
  }

  /** Performing two action lists in a row is performing their concatenation. */
  lemma {:induction false} ApplyActionsAppend(s: PermissionStore.Session, registry: set<string>,
                                              first: seq<Action>, second: seq<Action>)
    ensures ApplyActions(s, registry, first + second) == ApplyActions(ApplyActions(s, registry, first), registry, second)
    decreases |first|
  {
    if first == [] {
      assert first + second == second;
    } else {
      assert (first + second)[0] == first[0];
      assert (first + second)[1..] == first[1..] + second;
      var next := match first[0]
        case GenerateRoutes(menus) => PermissionStore.AfterGenerate(s, registry, menus)
        case ResetPermission => PermissionStore.AfterResetPermissionAsWritten(s)
        case _ => s;
      ApplyActionsAppend(next, registry, first[1..], second);
    }
  }

  /** Actions that trigger no store action leave the session as it is. */
  lemma {:induction false} ApplyInert(s: PermissionStore.Session, registry: set<string>, actions: seq<Action>)
    requires forall i :: 0 <= i < |actions| ==> !actions[i].GenerateRoutes? && !actions[i].ResetPermission?
    ensures ApplyActions(s, registry, actions) == s
    decreases |actions|
  {
    if actions != [] {
      ApplyInert(s, registry, actions[1..]);
    }
  }

  /** After a successful fetch the routes are loaded, and the replayed navigation passes the guard. */
  lemma FetchThenLoaded(s: PermissionStore.Session, registry: set<string>, to: Target, menus: seq<ServerMenuItem>, fetch: Fetch)
    requires s.token != "" && to.path != "/login" && !s.isRoutesLoaded && to.matched > 0
    ensures var after := ApplyActions(s, registry, BeforeEach(s.token, false, to, Fetched(menus)));
      && after.isRoutesLoaded && after.token == s.token
      && NextCalls(BeforeEach(after.token, after.isRoutesLoaded, to, fetch)) == [Proceed]
  {
    var actions := BeforeEach(s.token, false, to, Fetched(menus));
    var loaded := PermissionStore.AfterGenerate(s, registry, menus);
    assert ApplyActions(s, registry, actions) == ApplyActions(loaded, registry, actions[1..]);
    assert ApplyActions(loaded, registry, actions[1..]) == ApplyActions(loaded, registry, []);
    LoadedMatchedProceeds(s.token, to, fetch);
  }

  /** After a failed fetch the session is logged out, so the next navigation goes to login. */
  lemma FailureThenLoggedOut(s: PermissionStore.Session, registry: set<string>, to: Target, thrown: Thrown, fetch: Fetch)
    requires s.token != "" && to.path != "/login" && !s.isRoutesLoaded
    ensures var after := ApplyActions(s, registry, BeforeEach(s.token, false, to, Failed(thrown)));
      && after.token == "" && after.freshToken == "" && after.userInfo == None
      && after.dynamicRoutes == [] && !after.isRoutesLoaded
      && (to.path !in WhiteList ==>
            BeforeEach(after.token, after.isRoutesLoaded, to, fetch) == [CallNext(ToUrl(LoginUrl(to)))])
  {
    var actions := BeforeEach(s.token, false, to, Failed(thrown));
    var reset := PermissionStore.AfterResetPermissionAsWritten(s);
    assert ApplyActions(s, registry, actions) == ApplyActions(reset, registry, actions[1..]);
    assert ApplyActions(reset, registry, actions[1..]) == ApplyActions(reset, registry, actions[2..]);
    assert ApplyActions(reset, registry, actions[2..]) == ApplyActions(reset, registry, []);
  }

  /** On a session reached through the store's actions, the failure branch's as-written reset
      has the effect the intended order would have. */
  lemma FailureResetAsIntended(s: PermissionStore.Session, registry: set<string>, to: Target, thrown: Thrown)
    requires PermissionStore.LoadFlagHonest(s)
    requires s.token != "" && to.path != "/login" && !s.isRoutesLoaded
    ensures ApplyActions(s, registry, BeforeEach(s.token, false, to, Failed(thrown)))
      == PermissionStore.AfterResetPermission(s)
  {
    var actions := BeforeEach(s.token, false, to, Failed(thrown));
    var reset := PermissionStore.AfterResetPermissionAsWritten(s);
    assert ApplyActions(s, registry, actions) == ApplyActions(reset, registry, actions[1..]);
    assert ApplyActions(reset, registry, actions[1..]) == ApplyActions(reset, registry, actions[2..]);
    assert ApplyActions(reset, registry, actions[2..]) == ApplyActions(reset, registry, []);
    PermissionStore.ResetsAgreeWhenNotLoaded(s);
  }

  /** The guard run against the store: reads the token and flag, performs the actions. */
  method RunBeforeEach(store: PermissionStore.Store, to: Target, fetch: Fetch) returns (actions: seq<Action>)
    modifies store, store.router
    ensures actions == BeforeEach(old(store.token), old(store.isRoutesLoaded), to, fetch)
    ensures store.Snapshot() == ApplyActions(old(store.Snapshot()), store.registry, actions)
  {
    var token := store.GetToken();
    if token != "" {
      if to.path == "/login" {
        actions := [CallNext(ToPath("/", false))];
        ApplyInert(store.Snapshot(), store.registry, actions);
      } else if store.isRoutesLoaded {
        actions := [];
        if to.matched == 0 {
          actions := actions + [CallNext(ToPath("/404", true))];
        }
        var title := Title(to);
        if title.Some? {
          actions := actions + [SetTitle(title.value)];
        }
        actions := actions + [CallNext(Proceed)];
        ApplyInert(store.Snapshot(), store.registry, actions);
      } else {
        match fetch {
          case Fetched(menus) =>
            store.GenerateDynamicRoutes(menus);
            actions := [GenerateRoutes(menus), CallNext(Replay)];
            ApplyInert(store.Snapshot(), store.registry, actions[1..]);
          case Failed(thrown) =>
            var message := FailureMessage(thrown);
            store.ResetPermissionAsWritten();
            actions := [ResetPermission, ShowError(message), CallNext(ToUrl(LoginUrl(to)))];
            ApplyInert(store.Snapshot(), store.registry, actions[1..]);
        }
      }
    } else if to.path in WhiteList {
      actions := [CallNext(Proceed)];
      ApplyInert(store.Snapshot(), store.registry, actions);
    } else {
      actions := [CallNext(ToUrl(LoginUrl(to)))];
      ApplyInert(store.Snapshot(), store.registry, actions);
    }
  }
}
