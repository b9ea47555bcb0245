/**
 * The strategy factory: a map from layout mode to strategy, filled by the
 * constructor, extended by `registerStrategy`, read by `getStrategy` with a
 * fallback to the left-sidebar strategy; and the lazily created single
 * instance.
 */
module LayoutStrategyFactory {
  import opened RouteTypes
  import opened LayoutStrategy

  /** The registrations the constructor makes; the compact layout is not among them. */
  function DefaultStrategies(): map<LayoutMode, Strategy> {
    map[LeftSidebarMode := LeftSidebar, RightSidebarMode := RightSidebar,
        TopMenuMode := TopMenu, MixedMode := Mixed]
  }

  /** The strategy registered for `mode`, or the left-sidebar entry when there is none. */
  function Select(strategies: map<LayoutMode, Strategy>, mode: LayoutMode): (s: Strategy)
    requires LeftSidebarMode in strategies
    ensures s in strategies.Values
    ensures mode in strategies ==> s == strategies[mode]
    ensures mode !in strategies ==> s == strategies[LeftSidebarMode]
  {
    if mode in strategies then strategies[mode] else strategies[LeftSidebarMode]
  }

  /** A fresh factory knows four modes, each with its own strategy; compact falls back to left-sidebar. */
  lemma DefaultSelection()
    ensures DefaultStrategies().Keys == {LeftSidebarMode, RightSidebarMode, TopMenuMode, MixedMode}
    ensures Select(DefaultStrategies(), LeftSidebarMode) == LeftSidebar
    ensures Select(DefaultStrategies(), RightSidebarMode) == RightSidebar
    ensures Select(DefaultStrategies(), TopMenuMode) == TopMenu
    ensures Select(DefaultStrategies(), MixedMode) == Mixed
    ensures Select(DefaultStrategies(), CompactMode) == LeftSidebar
  {
  }

  /** After registering `s` for `mode`, `mode` selects `s`, no other entry changes, and an
      unregistered mode selects `s` exactly when `mode` is left-sidebar. */
  lemma RegisterThenSelect(strategies: map<LayoutMode, Strategy>, mode: LayoutMode, s: Strategy, other: LayoutMode)
    requires LeftSidebarMode in strategies
    ensures var after := strategies[mode := s];
      && LeftSidebarMode in after
      && Select(after, mode) == s
      && (other != mode ==> (other in after <==> other in strategies))
      && (other != mode && other in strategies ==> after[other] == strategies[other])
      && (other != mode && other in strategies ==> Select(after, other) == Select(strategies, other))
      && (other !in after ==> Select(after, other) == (if mode == LeftSidebarMode then s else Select(strategies, other)))
  {
  }

  class LayoutStrategyFactory {
    var strategies: map<LayoutMode, Strategy>

    /** The fallback entry is present; nothing removes entries, so it stays. */
    ghost predicate Valid()
      reads this
    {
      LeftSidebarMode in strategies
    }

    constructor ()
      ensures strategies == DefaultStrategies() && Valid()
    {
      strategies := map[];
      new;
      strategies := strategies[LeftSidebarMode := LeftSidebar];
      strategies := strategies[RightSidebarMode := RightSidebar];
      strategies := strategies[TopMenuMode := TopMenu];
      strategies := strategies[MixedMode := Mixed];
    }

    method GetStrategy(mode: LayoutMode) returns (s: Strategy)
      requires Valid()
      ensures s == Select(strategies, mode)
    {
      if mode !in strategies {
        return strategies[LeftSidebarMode];
      }
      s := strategies[mode];
    }

    method RegisterStrategy(mode: LayoutMode, s: Strategy)
      modifies this
      ensures strategies == old(strategies)[mode := s]
      ensures old(Valid()) ==> Valid()
    {
      strategies := strategies[mode := s];
    }
  }

  /** The holder of the static `instance` field. */
  class FactoryHolder {
    var instance: LayoutStrategyFactory?

    ghost predicate Valid()
      reads this, instance
    {
      instance != null ==> instance.Valid()
    }

    constructor ()
      ensures instance == null && Valid()
    {
      instance := null;
    }

    /** `getInstance`: creates the factory on the first call and returns it on every call. */
    method GetInstance() returns (factory: LayoutStrategyFactory)
      requires Valid()
      modifies this
      ensures Valid() && instance == factory && factory.Valid()
      ensures old(instance) != null ==> factory == old(instance)
      ensures old(instance) == null ==> fresh(factory) && factory.strategies == DefaultStrategies()
    {
      if instance == null {
        instance := new LayoutStrategyFactory();
      }
      factory := instance;
    }
  }

  /** Two calls in a row hand out the same factory. */
  method GetInstanceTwice(holder: FactoryHolder) returns (first: LayoutStrategyFactory, second: LayoutStrategyFactory)
    requires holder.Valid()
    modifies holder
    ensures first == second && holder.instance == first
  {
    first := holder.GetInstance();
    second := holder.GetInstance();
  }
}
