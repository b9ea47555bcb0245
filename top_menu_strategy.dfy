/** The top-menu layout: every menu entry in the top bar, no side bar. */
module TopMenuStrategy {
  import opened RouteTypes

  function GetTopMenuItems(items: seq<Route>): (top: seq<Route>)
    ensures top == items
  {
    items
  }

  /** The active top-level path plays no part. */
  function GetSideMenuItems(items: seq<Route>, activeTopMenu: string): (side: seq<Route>)
    ensures side == []
  {
    []
  }

  function ShowTopMenu(): (shown: bool)
    ensures shown
  {
    true
  }

  function ShowSideMenu(): (shown: bool)
    ensures !shown
  {
    false
  }

  /** The current path, whatever the active top-level path and the menu orientation. */
  function GetActiveMenu(currentPath: string, activeTopMenu: string, mode: MenuMode): (active: string)
    ensures active == currentPath
  {
    currentPath
  }
}
