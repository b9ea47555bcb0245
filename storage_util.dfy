/**
 * Namespaced key-value storage with expiry over the browser's two stores
 * (localStorage and sessionStorage). A stored item is the value with an
 * optional expiry timestamp; the clock is a parameter `now` (milliseconds).
 * JSON serialisation is taken as the identity on items.
 */
module StorageUtil {
  import opened Wrappers
  import opened Strings

  datatype Item<V> = Item(value: V, expiry: Option<int>)

  /** `{ namespace, useSession }`; a falsy namespace means none. */
  datatype Options = Options(namespace: Option<string>, useSession: bool)

  /** One entry of `batchSet`. */
  datatype Entry<V> = Entry(key: string, value: V, ttl: Option<int>)

  predicate HasNamespace(namespace: Option<string>) {
    namespace.Some? && namespace.value != ""
  }

  /** `buildKey`: `namespace:key`, or the key alone without a namespace. */
  function BuildKey(key: string, namespace: Option<string>): string {
    if HasNamespace(namespace) then namespace.value + ":" + key else key
  }

  /** The full key belongs to the namespace (every non-empty key when there is none). */
  predicate Listed(fullKey: string, namespace: Option<string>) {
    fullKey != "" && (!HasNamespace(namespace) || StartsWith(fullKey, namespace.value + ":"))
  }

  /** The key with the namespace prefix sliced off. */
  function PureKey(fullKey: string, namespace: Option<string>): string
    requires Listed(fullKey, namespace)
  {
    if HasNamespace(namespace) then fullKey[|namespace.value| + 1..] else fullKey
  }

  /** Stripping the prefix inverts `buildKey`, and `buildKey` is one-to-one per namespace. */
  lemma BuildKeyRoundTrip(key: string, fullKey: string, namespace: Option<string>)
    ensures BuildKey(key, namespace) != "" ==>
      Listed(BuildKey(key, namespace), namespace) && PureKey(BuildKey(key, namespace), namespace) == key
    ensures Listed(fullKey, namespace) ==> BuildKey(PureKey(fullKey, namespace), namespace) == fullKey
  {
    if HasNamespace(namespace) {
      var prefix := namespace.value + ":";
      assert BuildKey(key, namespace) == prefix + key;
      assert (prefix + key)[..|prefix|] == prefix;
      if Listed(fullKey, namespace) {
        assert fullKey == fullKey[..|prefix|] + fullKey[|prefix|..];
      }
    }
  }

  lemma BuildKeyInjective(a: string, b: string, namespace: Option<string>)
    requires BuildKey(a, namespace) == BuildKey(b, namespace)
    ensures a == b
  {
    if HasNamespace(namespace) {
      var prefix := namespace.value + ":";
      assert a == (prefix + a)[|prefix|..];
      assert b == (prefix + b)[|prefix|..];
    }
  }

  /** `expiry: ttl ? Date.now() + ttl : undefined`. */
  function ExpiryFor(ttl: Option<int>, now: int): Option<int> {
    if ttl.Some? && ttl.value != 0 then Some(now + ttl.value) else None
  }

  /** `item.expiry && Date.now() > item.expiry`. */
  predicate Expired<V>(item: Item<V>, now: int) {
    item.expiry.Some? && item.expiry.value != 0 && now > item.expiry.value
  }

  /** What `get` answers for a full key. */
  function Lookup<V>(store: map<string, Item<V>>, fullKey: string, now: int): Option<V> {
    if fullKey !in store || Expired(store[fullKey], now) then None else Some(store[fullKey].value)
  }

  /** The store after `get` of a full key: an expired entry is removed. */
  function AfterLookup<V>(store: map<string, Item<V>>, fullKey: string, now: int): map<string, Item<V>> {
    if fullKey in store && Expired(store[fullKey], now) then store - {fullKey} else store
  }

  /** A value set with a time-to-live is read back until the expiry instant, included, and not
      after it; without a (non-zero) time-to-live it never expires. */
  lemma SetThenGet<V>(store: map<string, Item<V>>, key: string, value: V, ttl: Option<int>,
                      options: Options, setTime: int, now: int)
    ensures var fullKey := BuildKey(key, options.namespace);
      var stored := store[fullKey := Item(value, ExpiryFor(ttl, setTime))];
      && ((ttl.None? || ttl.value == 0) ==> Lookup(stored, fullKey, now) == Some(value))
      && (ttl.Some? && ttl.value != 0 && setTime + ttl.value != 0 ==>
            (Lookup(stored, fullKey, now) == Some(value) <==> now <= setTime + ttl.value))
  {
  }

  /** `batchSet`: each entry set in turn, so a later entry for the same key wins. */
  function SetAll<V>(store: map<string, Item<V>>, entries: seq<Entry<V>>, namespace: Option<string>, now: int): map<string, Item<V>>
    decreases |entries|
  {
    if entries == [] then store
    else
      var last := entries[|entries| - 1];
      SetAll(store, entries[..|entries| - 1], namespace, now)[BuildKey(last.key, namespace) := Item(last.value, ExpiryFor(last.ttl, now))]
  }

  /** The last entry of `entries` whose full key is `k`. */
  function LastFor<V>(entries: seq<Entry<V>>, namespace: Option<string>, k: string): (e: Option<Entry<V>>)
    ensures e.None? <==> forall i :: 0 <= i < |entries| ==> BuildKey(entries[i].key, namespace) != k
    ensures e.Some? ==>
      exists i :: (0 <= i < |entries| && entries[i] == e.value && BuildKey(e.value.key, namespace) == k
                   && forall j :: i < j < |entries| ==> BuildKey(entries[j].key, namespace) != k)
    decreases |entries|
  {
    if entries == [] then None
    else
      var last := entries[|entries| - 1];
      if BuildKey(last.key, namespace) == k then Some(last)
      else
        var init := entries[..|entries| - 1];
        var e := LastFor(init, namespace, k);
        assert forall i :: 0 <= i < |init| ==> init[i] == entries[i];
        e
  }

  /** After `batchSet`, a key holds the last entry given for it; a key no entry names is untouched. */
  lemma {:induction false} SetAllLastWins<V>(store: map<string, Item<V>>, entries: seq<Entry<V>>, namespace: Option<string>, now: int, k: string)
    ensures var after := SetAll(store, entries, namespace, now);
      match LastFor(entries, namespace, k)
      case None => (k in after <==> k in store) && (k in store ==> after[k] == store[k])
      case Some(e) => k in after && after[k] == Item(e.value, ExpiryFor(e.ttl, now))
    decreases |entries|
  {
    if entries != [] {
      SetAllLastWins(store, entries[..|entries| - 1], namespace, now, k);
    }
  }

  /** `result` lists, under its pure key, every visited, listed and unexpired entry of `store`
      whose value is not `null` (`isNull` tells which values of `V` are), and nothing else. */
  ghost predicate ListsEntries<V>(result: map<string, V>, store: map<string, Item<V>>, visited: set<string>,
                                  namespace: Option<string>, now: int, isNull: V -> bool) {
    && (forall f :: f in visited && f in store && Listed(f, namespace) ==>
          (PureKey(f, namespace) in result <==> !Expired(store[f], now) && !isNull(store[f].value))
          && (PureKey(f, namespace) in result ==> result[PureKey(f, namespace)] == store[f].value))
    && (forall p :: p in result ==>
          var f := BuildKey(p, namespace); f in visited && f in store && Listed(f, namespace))
  }

  /** `current` is `store` with the visited, listed and expired entries removed. */
  ghost predicate PurgedOf<V>(current: map<string, Item<V>>, store: map<string, Item<V>>, visited: set<string>, namespace: Option<string>, now: int) {
    forall f ::
      && (f in current <==> f in store && !(f in visited && Listed(f, namespace) && Expired(store[f], now)))
      && (f in current ==> current[f] == store[f])
  }

  lemma PureKeyInjective(f: string, g: string, namespace: Option<string>)
    requires Listed(f, namespace) && Listed(g, namespace) && PureKey(f, namespace) == PureKey(g, namespace)
    ensures f == g
  {
    BuildKeyRoundTrip(PureKey(f, namespace), f, namespace);
    BuildKeyRoundTrip(PureKey(g, namespace), g, namespace);
  }

  /** `searchKeys`: the pure keys of the listed entries whose full key contains the keyword. */
  function Matching<V>(store: map<string, Item<V>>, keyword: string, namespace: Option<string>): set<string> {
    set k | k in store && Listed(k, namespace) && Contains(k, keyword) :: PureKey(k, namespace)
  }

  /** The full keys of the requested `keys` whose entry in `store` has expired. */
  function ExpiredAmong<V>(store: map<string, Item<V>>, keys: seq<string>, namespace: Option<string>, now: int): set<string> {
    set k | k in keys && BuildKey(k, namespace) in store && Expired(store[BuildKey(k, namespace)], now) :: BuildKey(k, namespace)
  }

  predicate Distinct(keys: seq<string>) {
    forall i, j :: 0 <= i < j < |keys| ==> keys[i] != keys[j]
  }

  /** The operations the `local` and `session` facades offer. */
  datatype Operation = SetOp | GetOp | RemoveOp | ClearOp | BatchSetOp | BatchGetOp | GetAllOp | SearchKeysOp

  datatype Facade = LocalFacade | SessionFacade

  /** The options each facade passes, as the facades are written: the session facade's batch,
      listing and search operations pass `useSession: false`. */
  function FacadeOptionsAsWritten(facade: Facade, op: Operation, namespace: Option<string>): Options {
    var batchOrListing := op in {BatchSetOp, BatchGetOp, GetAllOp, SearchKeysOp};
    Options(namespace, facade == SessionFacade && !batchOrListing)
  }

  /** The options each facade is meant to pass: its own store, for every operation. */
  function FacadeOptions(facade: Facade, op: Operation, namespace: Option<string>): (options: Options)
    ensures options.useSession <==> facade == SessionFacade
    ensures options.namespace == namespace
  {
    Options(namespace, facade == SessionFacade)
  }

  /** As written, `session.getAll` lists localStorage: a value put with `session.set` is in
      sessionStorage, and no listing of a localStorage lacking that key shows it. */
  lemma SessionFacadeAsWrittenMissesSessionItems<V>(local: map<string, Item<V>>, listing: map<string, V>,
                                                    key: string, namespace: Option<string>, now: int,
                                                    isNull: V -> bool)
    requires BuildKey(key, namespace) !in local
    requires ListsEntries(listing, local, local.Keys, namespace, now, isNull)
    ensures FacadeOptionsAsWritten(SessionFacade, SetOp, namespace).useSession
    ensures !FacadeOptionsAsWritten(SessionFacade, GetAllOp, namespace).useSession
    ensures key !in listing
  {
  }

  /** With every operation on its own store, a non-null value put with `session.set` without
      expiry is shown by every listing `session.getAll` can return. */
  lemma SessionFacadeListsSessionItems<V>(session: map<string, Item<V>>, listing: map<string, V>,
                                          key: string, value: V, namespace: Option<string>, now: int,
                                          isNull: V -> bool)
    requires BuildKey(key, namespace) != "" && !isNull(value)
    requires var stored := session[BuildKey(key, namespace) := Item(value, ExpiryFor(None, now))];
      ListsEntries(listing, stored, stored.Keys, namespace, now, isNull)
    ensures FacadeOptions(SessionFacade, GetAllOp, namespace).useSession
    ensures FacadeOptions(SessionFacade, SetOp, namespace).useSession
    ensures key in listing && listing[key] == value
  {
    BuildKeyRoundTrip(key, BuildKey(key, namespace), namespace);
  }

  /** One more `get` during `batchGet` removes the next requested key when it has expired. */
  lemma RemovedOneMore<V>(original: map<string, Item<V>>, current: map<string, Item<V>>, done: seq<string>,
                          key: string, namespace: Option<string>, now: int)
    requires current == original - ExpiredAmong(original, done, namespace, now)
    ensures AfterLookup(current, BuildKey(key, namespace), now) ==
      original - ExpiredAmong(original, done + [key], namespace, now)
  {
    var f := BuildKey(key, namespace);
    var before, after := ExpiredAmong(original, done, namespace, now), ExpiredAmong(original, done + [key], namespace, now);
    assert after == before + (if f in original && Expired(original[f], now) then {f} else {});
  }

  /** The storage's key order once `k` is removed: the other keys keep their relative order. */
  function Without(order: seq<string>, k: string): (rest: seq<string>)
    ensures |rest| <= |order|
    ensures forall x :: x in rest <==> x in order && x != k
  {
    if order == [] then []
    else (if order[0] == k then [] else [order[0]]) + Without(order[1..], k)
  }

  /** `getAll` as written, from slot `i` of the loop `for (i = 0; i < storage.length; i++)`:
      `order` is what `storage.key(·)` enumerates now, `store` the items, `listing` the result
      so far. The `get` of an expired item removes it, so every later key moves down one slot
      and the `i++` that follows passes over the key that took slot `i`. */
  function ScanFrom<V>(order: seq<string>, store: map<string, Item<V>>, i: nat, namespace: Option<string>,
                       now: int, isNull: V -> bool, listing: map<string, V>): (map<string, V>, map<string, Item<V>>)
    decreases |order| - i
  {
    if i >= |order| then (listing, store)
    else if !Listed(order[i], namespace) then ScanFrom(order, store, i + 1, namespace, now, isNull, listing)
    else
      var pureKey := PureKey(order[i], namespace);
      var fullKey := BuildKey(pureKey, namespace);
      var value := Lookup(store, fullKey, now);
      var listed := if value.Some? && !isNull(value.value) then listing[pureKey := value.value] else listing;
      if fullKey in store && Expired(store[fullKey], now) then
        ScanFrom(Without(order, fullKey), store - {fullKey}, i + 1, namespace, now, isNull, listed)
      else
        ScanFrom(order, store, i + 1, namespace, now, isNull, listed)
  }

  /** As written, an unexpired item whose key follows an expired one in the storage's key order is
      missing from `getAll`, and a second expired item in a row is not purged: with keys `a`, `b`
      in that order and `a` expired, `b` is never visited. */
  lemma GetAllAsWrittenSkipsNext<V>(va: V, vb: V, isNull: V -> bool)
    requires !isNull(vb)
    ensures var store := map["a" := Item(va, Some(1)), "b" := Item(vb, None)];
      var (listing, after) := ScanFrom(["a", "b"], store, 0, None, 2, isNull, map[]);
      "b" !in listing && "a" !in after
    ensures var store := map["a" := Item(va, Some(1)), "b" := Item(vb, Some(1))];
      var (listing, after) := ScanFrom(["a", "b"], store, 0, None, 2, isNull, map[]);
      "b" in after && Expired(after["b"], 2)
  {
    var order: seq<string> := ["a", "b"];
    assert Listed("a", None) && PureKey("a", None) == "a" && BuildKey("a", None) == "a";
    assert Without(order, "a") == ["b"] by {
      assert order[1..] == ["b"];
      assert Without(order[1..][1..], "a") == [];
    }
  }

  /** The snapshot listing of the same items lists `b`: every listing `Storage.GetAll` can return has it. */
  lemma GetAllListsNext<V>(va: V, vb: V, isNull: V -> bool, listing: map<string, V>)
    requires !isNull(vb)
    requires var store := map["a" := Item(va, Some(1)), "b" := Item(vb, None)];
      ListsEntries(listing, store, store.Keys, None, 2, isNull)
    ensures "b" in listing && listing["b"] == vb
  {
    assert Listed("b", None) && PureKey("b", None) == "b";
  }

  class Storage<V> {
    var local: map<string, Item<V>>
    var session: map<string, Item<V>>

    constructor (local: map<string, Item<V>>, session: map<string, Item<V>>)
      ensures this.local == local && this.session == session
    {
      this.local := local;
      this.session := session;
    }

    /** `getStorage`. */
    function Selected(useSession: bool): map<string, Item<V>>
      reads this
    {
      if useSession then session else local
    }

    method Put(useSession: bool, store: map<string, Item<V>>)
      modifies this
      ensures Selected(useSession) == store && Selected(!useSession) == old(Selected(!useSession))
    {
      if useSession {
        session := store;
      } else {
        local := store;
      }
    }

    method Set(key: string, value: V, ttl: Option<int>, options: Options, now: int)
      modifies this
      ensures Selected(options.useSession) ==
        old(Selected(options.useSession))[BuildKey(key, options.namespace) := Item(value, ExpiryFor(ttl, now))]
      ensures Selected(!options.useSession) == old(Selected(!options.useSession))
    {
      var item := Item(value, if ttl.Some? && ttl.value != 0 then Some(now + ttl.value) else None);
      Put(options.useSession, Selected(options.useSession)[BuildKey(key, options.namespace) := item]);
    }

    method Get(key: string, options: Options, now: int) returns (result: Option<V>)
      modifies this
      ensures result == Lookup(old(Selected(options.useSession)), BuildKey(key, options.namespace), now)
      ensures Selected(options.useSession) ==
        AfterLookup(old(Selected(options.useSession)), BuildKey(key, options.namespace), now)
      ensures Selected(!options.useSession) == old(Selected(!options.useSession))
    {
      var store := Selected(options.useSession);
      var fullKey := BuildKey(key, options.namespace);
      if fullKey !in store {
        return None;
      }
      var item := store[fullKey];
      if item.expiry.Some? && item.expiry.value != 0 && now > item.expiry.value {
        Put(options.useSession, store - {fullKey});
        return None;
      }
      result := Some(item.value);
    }

    method Remove(key: string, options: Options)
      modifies this
      ensures Selected(options.useSession) == old(Selected(options.useSession)) - {BuildKey(key, options.namespace)}
      ensures Selected(!options.useSession) == old(Selected(!options.useSession))
    {
      Put(options.useSession, Selected(options.useSession) - {BuildKey(key, options.namespace)});
    }

    method Clear(useSession: bool)
      modifies this
      ensures Selected(useSession) == map[]
      ensures Selected(!useSession) == old(Selected(!useSession))
    {
      Put(useSession, map[]);
    }

    method BatchSet(entries: seq<Entry<V>>, options: Options, now: int)
      modifies this
      ensures Selected(options.useSession) == SetAll(old(Selected(options.useSession)), entries, options.namespace, now)
      ensures Selected(!options.useSession) == old(Selected(!options.useSession))
    {
      for i := 0 to |entries|
        invariant Selected(options.useSession) == SetAll(old(Selected(options.useSession)), entries[..i], options.namespace, now)
        invariant Selected(!options.useSession) == old(Selected(!options.useSession))
      {
        assert entries[..i + 1][..i] == entries[..i];
        Set(entries[i].key, entries[i].value, entries[i].ttl, options, now);
      }
      assert entries[..|entries|] == entries;
    }

    method BatchGet(keys: seq<string>, options: Options, now: int) returns (result: map<string, Option<V>>)
      modifies this
      ensures result.Keys == set k | k in keys
      ensures forall k :: k in result ==> result[k] == Lookup(old(Selected(options.useSession)), BuildKey(k, options.namespace), now)
      ensures Selected(options.useSession) ==
        old(Selected(options.useSession)) - ExpiredAmong(old(Selected(options.useSession)), keys, options.namespace, now)
      ensures Selected(!options.useSession) == old(Selected(!options.useSession))
    {
      result := map[];
      for i := 0 to |keys|
        invariant result.Keys == set k | k in keys[..i]
        invariant forall k :: k in result ==> result[k] == Lookup(old(Selected(options.useSession)), BuildKey(k, options.namespace), now)
        invariant forall k :: k in Selected(options.useSession) ==>
          k in old(Selected(options.useSession)) && Selected(options.useSession)[k] == old(Selected(options.useSession))[k]
        invariant forall k :: k in old(Selected(options.useSession)) && k !in Selected(options.useSession) ==>
          Expired(old(Selected(options.useSession))[k], now)
        invariant Selected(options.useSession) ==
          old(Selected(options.useSession)) - ExpiredAmong(old(Selected(options.useSession)), keys[..i], options.namespace, now)
        invariant Selected(!options.useSession) == old(Selected(!options.useSession))
      {
        ghost var before := Selected(options.useSession);
        var value := Get(keys[i], options, now);
        result := result[keys[i] := value];
        assert keys[..i + 1] == keys[..i] + [keys[i]];
        RemovedOneMore(old(Selected(options.useSession)), before, keys[..i], keys[i], options.namespace, now);
      }
      assert keys[..|keys|] == keys;
    }

    method GetAll(options: Options, now: int, isNull: V -> bool) returns (result: map<string, V>)
      modifies this
      ensures ListsEntries(result, old(Selected(options.useSession)), old(Selected(options.useSession)).Keys, options.namespace, now, isNull)
      ensures PurgedOf(Selected(options.useSession), old(Selected(options.useSession)), old(Selected(options.useSession)).Keys, options.namespace, now)
      ensures Selected(!options.useSession) == old(Selected(!options.useSession))
    {
      var namespace := options.namespace;
      var initial := Selected(options.useSession);
      var remaining := initial.Keys;
      ghost var visited: set<string> := {};
      result := map[];
      while remaining != {}
        invariant remaining + visited == initial.Keys && remaining !! visited
        invariant PurgedOf(Selected(options.useSession), initial, visited, namespace, now)
        invariant ListsEntries(result, initial, visited, namespace, now, isNull)
        invariant Selected(!options.useSession) == old(Selected(!options.useSession))
        decreases remaining
      {
        var fullKey :| fullKey in remaining;
        if Listed(fullKey, namespace) {
          var pureKey := PureKey(fullKey, namespace);
          BuildKeyRoundTrip(pureKey, fullKey, namespace);
          var value := Get(pureKey, options, now);
          if value.Some? && !isNull(value.value) {
            result := result[pureKey := value.value];
          }
          forall f | f in visited && f in initial && Listed(f, namespace)
            ensures PureKey(f, namespace) != pureKey
          {
            if PureKey(f, namespace) == pureKey {
              PureKeyInjective(f, fullKey, namespace);
            }
          }
        }
        remaining := remaining - {fullKey};
        visited := visited + {fullKey};
      }
    }

    /** `getAll` as written, over the storage's key order `order`: the index loop of
        StorageUtil.ts, where purging an expired item shifts the later keys down one slot. */
    method GetAllAsWritten(order: seq<string>, options: Options, now: int, isNull: V -> bool) returns (result: map<string, V>)
      modifies this
      ensures (result, Selected(options.useSession)) ==
        ScanFrom(order, old(Selected(options.useSession)), 0, options.namespace, now, isNull, map[])
      ensures Selected(!options.useSession) == old(Selected(!options.useSession))
    {
      var namespace := options.namespace;
      var keys := order;
      var i := 0;
      result := map[];
      while i < |keys|
        invariant ScanFrom(keys, Selected(options.useSession), i, namespace, now, isNull, result) ==
          ScanFrom(order, old(Selected(options.useSession)), 0, namespace, now, isNull, map[])
        invariant Selected(!options.useSession) == old(Selected(!options.useSession))
        decreases |keys| - i
      {
        var fullKey := keys[i];
        if Listed(fullKey, namespace) {
          var pureKey := PureKey(fullKey, namespace);
          var before := Selected(options.useSession);
          var value := Get(pureKey, options, now);
          if value.Some? && !isNull(value.value) {
            result := result[pureKey := value.value];
          }
          var removed := BuildKey(pureKey, namespace);
          if removed in before && Expired(before[removed], now) {
            keys := Without(keys, removed);
          }
        }
        i := i + 1;
      }
    }

    method SearchKeys(keyword: string, options: Options) returns (keys: seq<string>)
      ensures Distinct(keys)
      ensures forall k :: k in keys <==> k in Matching(Selected(options.useSession), keyword, options.namespace)
    {
      var store := Selected(options.useSession);
      var namespace := options.namespace;
      var remaining := store.Keys;
      keys := [];
      while remaining != {}
        invariant remaining <= store.Keys
        invariant Distinct(keys)
        invariant forall k :: k in keys <==>
          exists f :: f in store.Keys - remaining && Listed(f, namespace) && Contains(f, keyword) && PureKey(f, namespace) == k
        invariant forall k :: k in keys ==> forall f :: f in remaining && Listed(f, namespace) ==> PureKey(f, namespace) != k
        decreases remaining
      {
        var fullKey :| fullKey in remaining;
        if Listed(fullKey, namespace) && Contains(fullKey, keyword) {
          var pureKey := PureKey(fullKey, namespace);
          forall f | f in remaining - {fullKey} && Listed(f, namespace)
            ensures PureKey(f, namespace) != pureKey
          {
            if PureKey(f, namespace) == pureKey {
              PureKeyInjective(f, fullKey, namespace);
            }
          }
          assert pureKey !in keys;
          keys := keys + [pureKey];
        }
        remaining := remaining - {fullKey};
      }
    }
  }
}
