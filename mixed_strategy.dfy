/**
 * The mixed layout: the top-level entries in the top bar, and the children
 * of the active top-level entry in the side bar, with their paths made
 * absolute under the parent's.
 */
module MixedStrategy {
  import opened Wrappers
  import opened RouteTypes
  import opened Strings

  /** Each entry without its `children`, everything else kept, in order. */
  function GetTopMenuItems(items: seq<Route>): (top: seq<Route>)
    ensures |top| == |items|
    ensures forall i :: 0 <= i < |items| ==>
      top[i].children == NoChildren && top[i].(children := items[i].children) == items[i]
  {
    seq(|items|, i requires 0 <= i < |items| => items[i].(children := NoChildren))
  }

  /** `items.find(item => item.path === path)`: the first entry with that path. */
  function Find(items: seq<Route>, path: string): (found: Option<Route>)
    ensures found.None? <==> forall i :: 0 <= i < |items| ==> items[i].path != path
    ensures found.Some? ==>
      exists i :: (0 <= i < |items| && items[i] == found.value && found.value.path == path
                   && forall j :: 0 <= j < i ==> items[j].path != path)
  {
    if items == [] then None
    else if items[0].path == path then Some(items[0])
    else
      var rest := Find(items[1..], path);
      if rest.Some? then
        var i :| 0 <= i < |items[1..]| && items[1..][i] == rest.value
          && rest.value.path == path && forall j :: 0 <= j < i ==> items[1..][j].path != path;
        assert items[i + 1] == rest.value;
        assert forall j :: 1 <= j < i + 1 ==> items[j] == items[1..][j - 1];
        rest
      else
        assert forall i :: 1 <= i < |items| ==> items[i] == items[1..][i - 1];
        rest
  }

  /** A child re-pathed under its parent, slashes collapsed. */
  function UnderParent(parentPath: string, child: Route): Route {
    child.(path := CollapseSlashes(parentPath + "/" + child.path))
  }

  /** `getSideMenuItems`. */
  function GetSideMenuItems(items: seq<Route>, activeTopMenu: string): (side: seq<Route>)
    ensures (forall i :: 0 <= i < |items| ==> items[i].path != activeTopMenu) ==> side == []
  {
    match Find(items, activeTopMenu)
    case None => []
    case Some(activeMenu) =>
      if HasChildRoutes(activeMenu) then
        var children := activeMenu.children.routes;
        seq(|children|, i requires 0 <= i < |children| => UnderParent(activeMenu.path, children[i]))
      else [activeMenu]
  }

  /** The side bar shows the first entry whose path is the active one: its children, one
      entry each and in order, re-pathed under it without `//` and otherwise unchanged;
      or, when it has none, the entry itself. */
  lemma SideMenuOfFirstMatch(items: seq<Route>, activeTopMenu: string, k: int)
    requires 0 <= k < |items| && items[k].path == activeTopMenu
    requires forall j :: 0 <= j < k ==> items[j].path != activeTopMenu
    ensures var side := GetSideMenuItems(items, activeTopMenu);
      var m := items[k];
      && (!HasChildRoutes(m) ==> side == [m])
      && (HasChildRoutes(m) ==>
            && |side| == |m.children.routes|
            && forall i :: 0 <= i < |side| ==>
                 && side[i].path == CollapseSlashes(m.path + "/" + m.children.routes[i].path)
                 && NoDoubleSlash(side[i].path)
                 && side[i].(path := m.children.routes[i].path) == m.children.routes[i])
  {
    var found := Find(items, activeTopMenu);
    var first :| 0 <= first < |items| && items[first] == found.value
      && found.value.path == activeTopMenu && forall j :: 0 <= j < first ==> items[j].path != activeTopMenu;
    assert first == k;
    var m := items[k];
    if HasChildRoutes(m) {
      forall i | 0 <= i < |m.children.routes|
        ensures NoDoubleSlash(CollapseSlashes(m.path + "/" + m.children.routes[i].path))
      {
        CollapseNoDoubleSlash(m.path + "/" + m.children.routes[i].path);
      }
    }
  }

  function ShowTopMenu(): (shown: bool)
    ensures shown
  {
    true
  }

  function ShowSideMenu(): (shown: bool)
    ensures shown
  {
    true
  }

  /** The top bar highlights the top-level path, the side bar the current path. */
  function GetActiveMenu(currentPath: string, activeTopMenu: string, mode: MenuMode): (active: string)
    ensures mode == Horizontal ==> active == activeTopMenu
    ensures mode == Vertical ==> active == currentPath
  {
    if mode == Horizontal then activeTopMenu else currentPath
  }
}
