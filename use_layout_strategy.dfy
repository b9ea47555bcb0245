/**
 * `useLayoutStrategy`: the strategy selected for the configured layout
 * mode, the active top-level path derived from the current path, and the
 * getters that delegate to the selected strategy.
 */
module UseLayoutStrategy {
  import opened RouteTypes
  import opened LayoutStrategy
  import opened LayoutStrategyFactory
  import MixedStrategy

  /** `path.split('/').filter(Boolean).length > 0`: some character is not a slash. */
  predicate HasSegment(path: string) {
    exists i | 0 <= i < |path| :: path[i] != '/'
  }

  /** The characters of `s` before its first slash. */
  function LeadingRun(s: string): (run: string)
    ensures |run| <= |s| && run == s[..|run|]
    ensures forall i :: 0 <= i < |run| ==> run[i] != '/'
    ensures |run| < |s| ==> s[|run|] == '/'
  {
    if s == [] || s[0] == '/' then [] else [s[0]] + LeadingRun(s[1..])
  }

  /** `path.match(/^\/[^\/]+/)` succeeds. */
  predicate MatchesSegment(path: string) {
    |path| >= 2 && path[0] == '/' && path[1] != '/'
  }

  /** `activeTopMenu`. */
  function ActiveTopMenu(layoutMode: LayoutMode, path: string): string {
    if layoutMode == TopMenuMode then path
    else if HasSegment(path) && MatchesSegment(path) then "/" + LeadingRun(path[1..])
    else "/"
  }

  /** The number of slashes in `s`. */
  function Slashes(s: string): nat {
    if s == [] then 0 else (if s[0] == '/' then 1 else 0) + Slashes(s[1..])
  }

  lemma {:induction false} NoSlashes(s: string)
    requires forall i :: 0 <= i < |s| ==> s[i] != '/'
    ensures Slashes(s) == 0
  {
    if s != [] {
      NoSlashes(s[1..]);
    }
  }

  /** In the top-menu layout the whole path is active; otherwise the active path is `/`
      followed by the path's leading segment when it has one, and `/` alone otherwise. It
      always starts with `/`, holds exactly one `/`, and is a prefix of a path that starts a segment. */
  lemma ActiveTopMenuShape(layoutMode: LayoutMode, path: string)
    ensures layoutMode == TopMenuMode ==> ActiveTopMenu(layoutMode, path) == path
    ensures layoutMode != TopMenuMode ==>
      var top := ActiveTopMenu(layoutMode, path);
      && |top| >= 1 && top[0] == '/' && Slashes(top) == 1
      && (MatchesSegment(path) ==>
            && 2 <= |top| <= |path| && top == path[..|top|]
            && (|top| < |path| ==> path[|top|] == '/'))
      && (!MatchesSegment(path) ==> top == "/")
  {
    if layoutMode != TopMenuMode {
      var top := ActiveTopMenu(layoutMode, path);
      if MatchesSegment(path) {
        assert HasSegment(path) by {
          assert path[1] != '/';
        }
        var run := LeadingRun(path[1..]);
        NoSlashes(run);
        assert top == "/" + run;
        assert top[1..] == run;
      } else {
        assert top == "/";
      }
    }
  }

  /** A path `/` + segment + (nothing or `/`...) has that segment as its active top-level
      path, e.g. `/system/user` gives `/system`; the bare `/` gives `/`. */
  lemma ActiveTopMenuOfSegment(layoutMode: LayoutMode, segment: string, rest: string)
    requires layoutMode != TopMenuMode
    requires |segment| > 0 && forall i :: 0 <= i < |segment| ==> segment[i] != '/'
    requires rest == [] || rest[0] == '/'
    ensures ActiveTopMenu(layoutMode, "/" + segment + rest) == "/" + segment
    ensures ActiveTopMenu(layoutMode, "/") == "/"
  {
    var path := "/" + segment + rest;
    assert path[1] == segment[0];
    assert path[1..] == segment + rest;
    LeadingRunOf(segment, rest);
    assert !HasSegment("/");
  }

  lemma {:induction false} LeadingRunOf(segment: string, rest: string)
    requires forall i :: 0 <= i < |segment| ==> segment[i] != '/'
    requires rest == [] || rest[0] == '/'
    ensures LeadingRun(segment + rest) == segment
  {
    if segment == [] {
      assert segment + rest == rest;
    } else {
      assert (segment + rest)[1..] == segment[1..] + rest;
      LeadingRunOf(segment[1..], rest);
    }
  }

  /** `currentStrategy`. */
  function CurrentStrategy(strategies: map<LayoutMode, Strategy>, layoutMode: LayoutMode): Strategy
    requires LeftSidebarMode in strategies
  {
    Select(strategies, layoutMode)
  }

  /** `getSideMenuItems(menuItems)`: the selected strategy's side entries for the active top-level path. */
  function SideMenuItems(strategies: map<LayoutMode, Strategy>, layoutMode: LayoutMode, path: string, items: seq<Route>): seq<Route>
    requires LeftSidebarMode in strategies
  {
    GetSideMenuItems(CurrentStrategy(strategies, layoutMode), items, ActiveTopMenu(layoutMode, path))
  }

  /** `getTopMenuItems(menuItems)`. */
  function TopMenuItems(strategies: map<LayoutMode, Strategy>, layoutMode: LayoutMode, items: seq<Route>): seq<Route>
    requires LeftSidebarMode in strategies
  {
    GetTopMenuItems(CurrentStrategy(strategies, layoutMode), items)
  }

  /** `getActiveMenu(mode)`. */
  function ActiveMenu(strategies: map<LayoutMode, Strategy>, layoutMode: LayoutMode, path: string, mode: MenuMode): string
    requires LeftSidebarMode in strategies
  {
    GetActiveMenu(CurrentStrategy(strategies, layoutMode), path, ActiveTopMenu(layoutMode, path), mode)
  }

  /** `showTopMenu` and `showSideMenu`. */
  function ShowsTopMenu(strategies: map<LayoutMode, Strategy>, layoutMode: LayoutMode): bool
    requires LeftSidebarMode in strategies
  {
    ShowTopMenu(CurrentStrategy(strategies, layoutMode))
  }

  function ShowsSideMenu(strategies: map<LayoutMode, Strategy>, layoutMode: LayoutMode): bool
    requires LeftSidebarMode in strategies
  {
    ShowSideMenu(CurrentStrategy(strategies, layoutMode))
  }

  /** `shouldShowSubMenu(mode)`: sub-menus everywhere except in the mixed layout's top bar. */
  function ShouldShowSubMenu(layoutMode: LayoutMode, mode: MenuMode): bool {
    !(mode == Horizontal && layoutMode == MixedMode)
  }

  /** With the factory's default registrations, the mixed layout at `/system/user` highlights
      `/system` in the top bar and `/system/user` in the side bar. */
  lemma MixedActiveMenus(segment: string, rest: string)
    requires |segment| > 0 && forall i :: 0 <= i < |segment| ==> segment[i] != '/'
    requires rest == [] || rest[0] == '/'
    ensures ActiveMenu(DefaultStrategies(), MixedMode, "/" + segment + rest, Horizontal) == "/" + segment
    ensures ActiveMenu(DefaultStrategies(), MixedMode, "/" + segment + rest, Vertical) == "/" + segment + rest
  {
    ActiveTopMenuOfSegment(MixedMode, segment, rest);
    DefaultSelection();
  }

  /** The compact layout is not registered, falls back to left-sidebar, and so shows only the side bar
      with every entry. */
  lemma CompactShowsSideOnly(items: seq<Route>, path: string)
    ensures !ShowsTopMenu(DefaultStrategies(), CompactMode) && ShowsSideMenu(DefaultStrategies(), CompactMode)
    ensures SideMenuItems(DefaultStrategies(), CompactMode, path, items) == items
    ensures TopMenuItems(DefaultStrategies(), CompactMode, items) == []
  {
    DefaultSelection();
  }

  /** Whatever strategies are registered, the hook's getters agree with the selected strategy's
      flags: a hidden bar gets no entries, some bar is shown, the top bar never gains entries,
      and the highlighted path is the active top-level one only in the mixed layout's top bar. */
  lemma GettersConsistent(strategies: map<LayoutMode, Strategy>, layoutMode: LayoutMode, path: string,
                          items: seq<Route>, mode: MenuMode)
    requires LeftSidebarMode in strategies
    ensures CurrentStrategy(strategies, layoutMode) ==
      (if layoutMode in strategies then strategies[layoutMode] else strategies[LeftSidebarMode])
    ensures !ShowsTopMenu(strategies, layoutMode) ==> TopMenuItems(strategies, layoutMode, items) == []
    ensures !ShowsSideMenu(strategies, layoutMode) ==> SideMenuItems(strategies, layoutMode, path, items) == []
    ensures ShowsTopMenu(strategies, layoutMode) || ShowsSideMenu(strategies, layoutMode)
    ensures |TopMenuItems(strategies, layoutMode, items)| <= |items|
    ensures ActiveMenu(strategies, layoutMode, path, mode) ==
      (if CurrentStrategy(strategies, layoutMode) == Mixed && mode == Horizontal
       then ActiveTopMenu(layoutMode, path) else path)
  {
    Consistent(CurrentStrategy(strategies, layoutMode), items, ActiveTopMenu(layoutMode, path), path, mode);
  }

  /** With the factory's default registrations, each layout mode shows these bars with these entries:
      the sidebar layouts and compact the side bar with every entry, top-menu the top bar with
      every entry, and mixed both bars, the top one with an entry per menu item. */
  lemma DefaultLayoutTable(layoutMode: LayoutMode, path: string, items: seq<Route>, mode: MenuMode)
    ensures ShowsTopMenu(DefaultStrategies(), layoutMode) <==> layoutMode == TopMenuMode || layoutMode == MixedMode
    ensures ShowsSideMenu(DefaultStrategies(), layoutMode) <==> layoutMode != TopMenuMode
    ensures layoutMode in {LeftSidebarMode, RightSidebarMode, CompactMode} ==>
      TopMenuItems(DefaultStrategies(), layoutMode, items) == [] &&
      SideMenuItems(DefaultStrategies(), layoutMode, path, items) == items
    ensures layoutMode == TopMenuMode ==>
      TopMenuItems(DefaultStrategies(), layoutMode, items) == items &&
      SideMenuItems(DefaultStrategies(), layoutMode, path, items) == []
    ensures layoutMode == MixedMode ==>
      |TopMenuItems(DefaultStrategies(), layoutMode, items)| == |items| &&
      SideMenuItems(DefaultStrategies(), layoutMode, path, items) ==
        MixedStrategy.GetSideMenuItems(items, ActiveTopMenu(layoutMode, path))
    ensures ActiveMenu(DefaultStrategies(), layoutMode, path, mode) ==
      (if layoutMode == MixedMode && mode == Horizontal then ActiveTopMenu(layoutMode, path) else path)
  {
    DefaultSelection();
  }

  /** The only bar without sub-menus, the mixed layout's top bar, holds entries without children. */
  lemma NoSubMenuWhereNoChildren(layoutMode: LayoutMode, mode: MenuMode, items: seq<Route>)
    requires !ShouldShowSubMenu(layoutMode, mode)
    ensures layoutMode == MixedMode && mode == Horizontal
    ensures forall i :: 0 <= i < |TopMenuItems(DefaultStrategies(), layoutMode, items)| ==>
      !HasChildRoutes(TopMenuItems(DefaultStrategies(), layoutMode, items)[i])
  {
    DefaultSelection();
  }
}
