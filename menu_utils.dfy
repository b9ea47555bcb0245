/**
 * Menu helpers: which children a menu entry shows, whether it opens as a
 * sub-menu, and how a relative menu path is joined to its parent's.
 */
module MenuUtils {
  import opened Wrappers
  import opened RouteTypes
  import opened Strings

  /** The children whose `meta.hidden` is not truthy, in order. */
  function Visible(children: seq<Route>): seq<Route> {
    if children == [] then []
    else (if IsHidden(children[0]) then [] else [children[0]]) + Visible(children[1..])
  }

  /** `getVisibleChildren`. */
  function GetVisibleChildren(item: Route): seq<Route> {
    if !HasChildRoutes(item) then [] else Visible(item.children.routes)
  }

  /** `shouldShowSubMenu`. */
  function ShouldShowSubMenu(item: Route): bool {
    var visible := GetVisibleChildren(item);
    if |visible| == 0 then false
    else if |visible| > 1 then true
    else item.meta.Some? && item.meta.value.alwaysShow == Some(true)
  }

  /** A child is kept exactly when it is not hidden. */
  lemma {:induction false} VisibleMembers(children: seq<Route>, x: Route)
    ensures x in Visible(children) <==> x in children && !IsHidden(x)
  {
    if children != [] {
      VisibleMembers(children[1..], x);
      assert children == [children[0]] + children[1..];
    }
  }

  lemma {:induction false} VisibleAppend(a: seq<Route>, b: seq<Route>)
    ensures Visible(a + b) == Visible(a) + Visible(b)
  {
    if a == [] {
      assert a + b == b;
    } else {
      assert (a + b)[1..] == a[1..] + b;
      VisibleAppend(a[1..], b);
    }
  }

  /** Filtering keeps the order: the kept children are a subsequence, in order. */
  lemma {:induction false} VisibleKeepsOrder(children: seq<Route>, i: int, j: int)
    requires 0 <= i < j < |children| && !IsHidden(children[i]) && !IsHidden(children[j])
    ensures var v := Visible(children);
      exists p, q :: 0 <= p < q < |v| && v[p] == children[i] && v[q] == children[j]
  {
    var left, right := children[..j], children[j..];
    assert children == left + right;
    VisibleAppend(left, right);
    VisibleMembers(left, children[i]);
    assert children[i] in left;
    var vl := Visible(left);
    var p :| 0 <= p < |vl| && vl[p] == children[i];
    assert right[0] == children[j];
    assert Visible(right) == [children[j]] + Visible(right[1..]);
    var v := Visible(children);
    assert v[p] == children[i] && v[|vl|] == children[j];
  }

  /** No child is visible exactly when every child is hidden. */
  lemma {:induction false} VisibleEmpty(children: seq<Route>)
    ensures Visible(children) == [] <==> forall x :: x in children ==> IsHidden(x)
  {
    if children != [] {
      VisibleEmpty(children[1..]);
      assert children == [children[0]] + children[1..];
    }
  }

  /** Two visible children at different positions give at least two visible entries. */
  lemma {:induction false} VisibleAtLeastTwo(children: seq<Route>, i: int, j: int)
    requires 0 <= i < j < |children| && !IsHidden(children[i]) && !IsHidden(children[j])
    ensures |Visible(children)| >= 2
  {
    VisibleKeepsOrder(children, i, j);
  }

  /** A hidden or missing child list never opens a sub-menu; two visible children always do;
      a single visible child does exactly when `alwaysShow` is true. */
  lemma ShouldShowSubMenuRule(item: Route)
    ensures (!HasChildRoutes(item) || forall x :: x in item.children.routes ==> IsHidden(x))
      ==> !ShouldShowSubMenu(item)
    ensures HasChildRoutes(item) ==> forall i, j ::
      0 <= i < j < |item.children.routes| && !IsHidden(item.children.routes[i]) && !IsHidden(item.children.routes[j])
      ==> ShouldShowSubMenu(item)
    ensures |GetVisibleChildren(item)| == 1 ==>
      (ShouldShowSubMenu(item) <==> item.meta.Some? && IsTrue(item.meta.value.alwaysShow))
  {
    if HasChildRoutes(item) {
      VisibleEmpty(item.children.routes);
      forall i, j | 0 <= i < j < |item.children.routes| && !IsHidden(item.children.routes[i]) && !IsHidden(item.children.routes[j])
        ensures ShouldShowSubMenu(item)
      {
        VisibleAtLeastTwo(item.children.routes, i, j);
      }
    }
  }

  /** `getFullPath(path, base)`. */
  function GetFullPath(path: string, base: string): string {
    if StartsWith(path, "/") then path else CollapseSlashes(base + "/" + path)
  }

  /** An absolute path is returned unchanged. */
  lemma FullPathAbsolute(path: string, base: string)
    requires StartsWith(path, "/")
    ensures GetFullPath(path, base) == path
  {
  }

  /** A relative path is joined under `base` with exactly one `/` between the two (the base's
      trailing slashes merge into it), each part with its runs of `/` collapsed; the result
      has no `//` and keeps every other character. */
  lemma FullPathRelative(path: string, base: string)
    requires !StartsWith(path, "/")
    ensures GetFullPath(path, base) ==
      CollapseSlashes(TrimTrailingSlashes(base)) + "/" + CollapseSlashes(path)
    ensures NoDoubleSlash(GetFullPath(path, base))
    ensures NonSlash(GetFullPath(path, base)) == NonSlash(base) + NonSlash(path)
  {
    var joined := base + "/" + path;
    CollapseJoin(base, path);
    CollapseNoDoubleSlash(joined);
    CollapseKeepsNonSlash(joined);
    NonSlashAppend(base, "/" + path);
    assert base + "/" + path == base + ("/" + path);
    assert NonSlash("/" + path) == NonSlash(path) by {
      assert ("/" + path)[1..] == path;
    }
  }

  lemma {:induction false} NonSlashAppend(a: string, b: string)
    ensures NonSlash(a + b) == NonSlash(a) + NonSlash(b)
  {
    if a == [] {
      assert a + b == b;
    } else {
      assert (a + b)[1..] == a[1..] + b;
      NonSlashAppend(a[1..], b);
    }
  }

  /** With an empty or absolute base the result is absolute, so joining it again changes nothing. */
  lemma FullPathAbsoluteResult(path: string, base: string, otherBase: string)
    requires base == "" || StartsWith(base, "/")
    ensures StartsWith(GetFullPath(path, base), "/")
    ensures GetFullPath(GetFullPath(path, base), otherBase) == GetFullPath(path, base)
  {
    if !StartsWith(path, "/") {
      var joined := base + "/" + path;
      assert joined[0] == '/';
      CollapseKeepsFirst(joined);
    }
  }

  /** A menu record the caller holds a reference to. */
  class MenuItemRef {
    var route: Route

    constructor (route: Route)
      ensures this.route == route
    {
      this.route := route;
    }
  }

  /** `processMenuItemPath`: rewrites the record's path in place and returns the same record. */
  method ProcessMenuItemPath(item: MenuItemRef, base: string) returns (same: MenuItemRef)
    modifies item
    ensures same == item
    ensures item.route == old(item.route).(path := GetFullPath(old(item.route.path), base))
  {
    var fullPath := GetFullPath(item.route.path, base);
    item.route := item.route.(path := fullPath);
    same := item;
  }
}
