/**
 * The keep-alive cache of view names shared by every `useNavigation()` caller,
 * and the route-change handler that drops a view before entering it and adds
 * it back on the next tick.
 */
module NavigationCache {
  import opened Wrappers

  /** The meta flags the handler reads. `resetWhen` is either not a function, or a
      function whose answer for this navigation is given. */
  datatype ResetWhen = NotAFunction | Predicate(answer: bool)

  datatype NavigationMeta = NavigationMeta(
    resetOnEnter: bool,
    exceptFrom: Option<seq<string>>,
    resetWhen: ResetWhen,
    keepAlive: bool)

  predicate NoDuplicates(views: seq<string>) {
    forall i, j :: 0 <= i < j < |views| ==> views[i] != views[j]
  }

  /** `Set.delete`: the views without `name`, order kept. */
  function Remove(views: seq<string>, name: string): seq<string> {
    if views == [] then []
    else (if views[0] == name then [] else [views[0]]) + Remove(views[1..], name)
  }

  /** `Set.add`: appended unless already present. */
  function Insert(views: seq<string>, name: string): (after: seq<string>)
    ensures name in after
    ensures forall x :: x in after <==> x in views || x == name
  {
    if name in views then views else views + [name]
  }

  lemma {:induction false} RemoveMembers(views: seq<string>, name: string)
    ensures forall x :: x in Remove(views, name) <==> x in views && x != name
    ensures NoDuplicates(views) ==> NoDuplicates(Remove(views, name))
  {
    if views != [] {
      RemoveMembers(views[1..], name);
      assert views == [views[0]] + views[1..];
      if NoDuplicates(views) {
        var rest := Remove(views[1..], name);
        assert views[0] !in views[1..];
        assert views[0] !in rest;
        var all := (if views[0] == name then [] else [views[0]]) + rest;
        forall i, j | 0 <= i < j < |all|
          ensures all[i] != all[j]
        {
          if views[0] != name && i == 0 {
            assert all[j] in rest;
          }
        }
      }
    }
  }

  lemma InsertNoDuplicates(views: seq<string>, name: string)
    requires NoDuplicates(views)
    ensures NoDuplicates(Insert(views, name))
  {
  }

  /** The condition for dropping `to.name` before entering the view. */
  predicate ShouldReset(meta: NavigationMeta, fromName: Option<string>) {
    var exceptFrom := meta.exceptFrom.GetOr([]);
    var custom := meta.resetWhen.Predicate? && meta.resetWhen.answer;
    meta.resetOnEnter && (!(fromName.Some? && fromName.value in exceptFrom) || custom)
  }

  /** The cache after the synchronous part of the handler. */
  function AfterChange(views: seq<string>, toName: string, meta: NavigationMeta, fromName: Option<string>): seq<string> {
    if ShouldReset(meta, fromName) then Remove(views, toName) else views
  }

  /** The synchronous part only ever drops `to.name`, and drops it exactly when the view resets. */
  lemma ChangeEffect(views: seq<string>, toName: string, meta: NavigationMeta, fromName: Option<string>)
    ensures var after := AfterChange(views, toName, meta, fromName);
      && (forall x :: x != toName ==> (x in after <==> x in views))
      && (toName in after <==> toName in views && !ShouldReset(meta, fromName))
      && (NoDuplicates(views) ==> NoDuplicates(after))
  {
    RemoveMembers(views, toName);
  }

  /** The cache once the deferred add has run as well. */
  function AfterNavigation(views: seq<string>, toName: string, meta: NavigationMeta, fromName: Option<string>): seq<string> {
    var changed := AfterChange(views, toName, meta, fromName);
    if meta.keepAlive then Insert(changed, toName) else changed
  }

  /** Only `to.name` is ever added or removed; it is cached in the end exactly when the view
      keeps alive, or was cached and not reset; and the cache stays free of duplicates. */
  lemma NavigationEffect(views: seq<string>, toName: string, meta: NavigationMeta, fromName: Option<string>)
    ensures var after := AfterNavigation(views, toName, meta, fromName);
      && (forall x :: x != toName ==> (x in after <==> x in views))
      && (toName in after <==> meta.keepAlive || (toName in views && !ShouldReset(meta, fromName)))
      && (NoDuplicates(views) ==> NoDuplicates(after))
  {
    RemoveMembers(views, toName);
  }

  /** Leaving a route named in `exceptFrom` resets only when `resetWhen` is a function answering true;
      leaving any other route resets whenever `resetOnEnter` is set. */
  lemma ResetRule(meta: NavigationMeta, fromName: Option<string>)
    requires meta.resetOnEnter
    ensures (fromName.Some? && fromName.value in meta.exceptFrom.GetOr([])) ==>
      (ShouldReset(meta, fromName) <==> meta.resetWhen == Predicate(true))
    ensures !(fromName.Some? && fromName.value in meta.exceptFrom.GetOr([])) ==> ShouldReset(meta, fromName)
  {
  }

  /** The module-level `cacheViews` set; a sequence in insertion order, as `Array.from` lists it. */
  class CacheViews {
    var views: seq<string>

    ghost predicate Valid()
      reads this
    {
      NoDuplicates(views)
    }

    constructor ()
      ensures views == [] && Valid()
    {
      views := [];
    }

    /** `keepAliveComponents`. */
    function KeepAliveComponents(): (names: seq<string>)
      reads this
      ensures forall x :: x in names <==> x in views
      ensures Valid() ==> NoDuplicates(names)
    {
      views
    }

    method Delete(name: string)
      modifies this
      ensures views == Remove(old(views), name)
      ensures old(Valid()) ==> Valid()
    {
      RemoveMembers(views, name);
      views := Remove(views, name);
    }

    method Add(name: string)
      modifies this
      ensures views == Insert(old(views), name)
      ensures old(Valid()) ==> Valid()
    {
      if name !in views {
        views := views + [name];
      }
    }

    /** `handleRouteChange`: the synchronous delete, and the add it schedules for the next tick. */
    method HandleRouteChange(toName: string, meta: NavigationMeta, fromName: Option<string>)
      returns (deferredAdd: Option<string>)
      modifies this
      ensures views == AfterChange(old(views), toName, meta, fromName)
      ensures deferredAdd == (if meta.keepAlive then Some(toName) else None)
      ensures old(Valid()) ==> Valid()
    {
      if meta.resetOnEnter {
        var exceptFrom := meta.exceptFrom.GetOr([]);
        var custom := if meta.resetWhen.Predicate? then meta.resetWhen.answer else false;
        if !(fromName.Some? && fromName.value in exceptFrom) || custom {
          Delete(toName);
        }
      }
      deferredAdd := if meta.keepAlive then Some(toName) else None;
    }

    /** The next tick: runs the scheduled add, if any. */
    method RunDeferred(deferredAdd: Option<string>)
      modifies this
      ensures views == (if deferredAdd.Some? then Insert(old(views), deferredAdd.value) else old(views))
      ensures old(Valid()) ==> Valid()
    {
      if deferredAdd.Some? {
        Add(deferredAdd.value);
      }
    }

    /** A navigation followed by its tick leaves the cache as `AfterNavigation` says. */
    method Navigate(toName: string, meta: NavigationMeta, fromName: Option<string>)
      modifies this
      ensures views == AfterNavigation(old(views), toName, meta, fromName)
      ensures old(Valid()) ==> Valid()
    {
      var deferredAdd := HandleRouteChange(toName, meta, fromName);
      RunDeferred(deferredAdd);
    }
  }
}
