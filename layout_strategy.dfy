/**
 * The layout-strategy interface: the five implementations as one datatype,
 * each operation dispatching to the implementation's module.
 */
module LayoutStrategy {
  import opened RouteTypes
  import LeftSidebarStrategy
  import RightSidebarStrategy
  import TopMenuStrategy
  import MixedStrategy
  import CompactStrategy

  datatype Strategy = LeftSidebar | RightSidebar | TopMenu | Mixed | Compact

  function GetTopMenuItems(s: Strategy, items: seq<Route>): seq<Route> {
    match s
    case LeftSidebar => LeftSidebarStrategy.GetTopMenuItems(items)
    case RightSidebar => RightSidebarStrategy.GetTopMenuItems(items)
    case TopMenu => TopMenuStrategy.GetTopMenuItems(items)
    case Mixed => MixedStrategy.GetTopMenuItems(items)
    case Compact => CompactStrategy.GetTopMenuItems(items)
  }

  function GetSideMenuItems(s: Strategy, items: seq<Route>, activeTopMenu: string): seq<Route> {
    match s
    case LeftSidebar => LeftSidebarStrategy.GetSideMenuItems(items, activeTopMenu)
    case RightSidebar => RightSidebarStrategy.GetSideMenuItems(items, activeTopMenu)
    case TopMenu => TopMenuStrategy.GetSideMenuItems(items, activeTopMenu)
    case Mixed => MixedStrategy.GetSideMenuItems(items, activeTopMenu)
    case Compact => CompactStrategy.GetSideMenuItems(items, activeTopMenu)
  }

  function ShowTopMenu(s: Strategy): bool {
    match s
    case LeftSidebar => LeftSidebarStrategy.ShowTopMenu()
    case RightSidebar => RightSidebarStrategy.ShowTopMenu()
    case TopMenu => TopMenuStrategy.ShowTopMenu()
    case Mixed => MixedStrategy.ShowTopMenu()
    case Compact => CompactStrategy.ShowTopMenu()
  }

  function ShowSideMenu(s: Strategy): bool {
    match s
    case LeftSidebar => LeftSidebarStrategy.ShowSideMenu()
    case RightSidebar => RightSidebarStrategy.ShowSideMenu()
    case TopMenu => TopMenuStrategy.ShowSideMenu()
    case Mixed => MixedStrategy.ShowSideMenu()
    case Compact => CompactStrategy.ShowSideMenu()
  }

  function GetActiveMenu(s: Strategy, currentPath: string, activeTopMenu: string, mode: MenuMode): string {
    match s
    case LeftSidebar => LeftSidebarStrategy.GetActiveMenu(currentPath, activeTopMenu, mode)
    case RightSidebar => RightSidebarStrategy.GetActiveMenu(currentPath, activeTopMenu, mode)
    case TopMenu => TopMenuStrategy.GetActiveMenu(currentPath, activeTopMenu, mode)
    case Mixed => MixedStrategy.GetActiveMenu(currentPath, activeTopMenu, mode)
    case Compact => CompactStrategy.GetActiveMenu(currentPath, activeTopMenu, mode)
  }

  /** Every implementation agrees with its own flags: a bar it does not show gets no entries,
      at least one bar is shown, and the highlighted entry is one of the two paths it is given
      (the top-level one only in the mixed layout's top bar). */
  lemma Consistent(s: Strategy, items: seq<Route>, activeTopMenu: string, currentPath: string, mode: MenuMode)
    ensures !ShowTopMenu(s) ==> GetTopMenuItems(s, items) == []
    ensures !ShowSideMenu(s) ==> GetSideMenuItems(s, items, activeTopMenu) == []
    ensures ShowTopMenu(s) || ShowSideMenu(s)
    ensures GetActiveMenu(s, currentPath, activeTopMenu, mode) ==
      (if s == Mixed && mode == Horizontal then activeTopMenu else currentPath)
    ensures |GetTopMenuItems(s, items)| <= |items|
  {
  }
}
