/** The compact layout: every menu entry in the side bar, no top bar. */
module CompactStrategy {
  import opened RouteTypes

  function GetTopMenuItems(items: seq<Route>): (top: seq<Route>)
    ensures top == []
  {
    []
  }

  /** The active top-level path plays no part. */
  function GetSideMenuItems(items: seq<Route>, activeTopMenu: string): (side: seq<Route>)
    ensures side == items
  {
    items
  }

  function ShowTopMenu(): (shown: bool)
    ensures !shown
  {
    false
  }

  function ShowSideMenu(): (shown: bool)
    ensures shown
  {
    true
  }

  /** The current path, whatever the active top-level path and the menu orientation. */
  function GetActiveMenu(currentPath: string, activeTopMenu: string, mode: MenuMode): (active: string)
    ensures active == currentPath
  {
    currentPath
  }
}
