/** The install and activate handlers: precaching and removal of stale stores. */
module Lifecycle {
  import opened Wrappers
  import opened Config
  import opened CacheStorage
  import opened Network

  // ---------------------------------------------------------------- install

  /** `cache.addAll` accepts every fetch: each resolves, with a 2xx status. */
  predicate AllAccepted(keys: seq<Key>, net: Key -> NetOutcome) {
    forall i :: 0 <= i < |keys| ==> net(keys[i]).Ok? && IsOkStatus(net(keys[i]).response)
  }

  /** Writes every fetched response into one store, in list order. */
  function PutAll(entries: seq<Entry>, keys: seq<Key>, net: Key -> NetOutcome): (r: seq<Entry>)
    requires AllAccepted(keys, net)
    ensures forall k :: k in keys ==> Lookup(r, k) == Some(net(k).response)
    ensures forall k :: k !in keys ==> Lookup(r, k) == Lookup(entries, k)
    ensures DistinctKeys(entries) ==> DistinctKeys(r)
    decreases |keys|
  {
    if keys == [] then entries
    else
      assert net(keys[0]).Ok?;
      PutAll(PutEntry(entries, keys[0], net(keys[0]).response), keys[1..], net)
  }

  /** Outcome of the install handler and the cache storage it leaves behind. */
  datatype Installed = Installed(succeeded: bool, caches: CacheState)

  /** The precache store holds every manifest entry. */
  ghost predicate PrecacheComplete(caches: CacheState) {
    forall k :: k in PrecacheKeys() ==> HasKey(EntriesOf(caches, CACHE_NAME), k)
  }

  /**
   * The install handler: `caches.open(CACHE_NAME)` creates the precache store,
   * then `cache.addAll` either writes every manifest entry or, when any fetch
   * fails or is not 2xx, writes nothing and fails the install.
   */
  function Install(caches: CacheState, net: Key -> NetOutcome): (r: Installed)
    ensures r.succeeded <==> forall k :: k in PrecacheKeys() ==> net(k).Ok? && IsOkStatus(net(k).response)
    ensures CACHE_NAME in Names(r.caches)
    ensures Names(r.caches) == if CACHE_NAME in Names(caches) then Names(caches) else Names(caches) + [CACHE_NAME]
    ensures r.succeeded ==> forall k :: k in PrecacheKeys() ==>
      Lookup(EntriesOf(r.caches, CACHE_NAME), k) == Some(net(k).response)
    ensures r.succeeded ==> PrecacheComplete(r.caches)
    ensures r.succeeded ==> forall k :: k !in PrecacheKeys() ==>
      Lookup(EntriesOf(r.caches, CACHE_NAME), k) == Lookup(EntriesOf(caches, CACHE_NAME), k)
    ensures !r.succeeded ==> EntriesOf(r.caches, CACHE_NAME) == EntriesOf(caches, CACHE_NAME)
    ensures forall n :: n != CACHE_NAME ==> EntriesOf(r.caches, n) == EntriesOf(caches, n)
  {
    var keys := PrecacheKeys();
    var current := EntriesOf(caches, CACHE_NAME);
    assert AllAccepted(keys, net) <==> forall k :: k in keys ==> net(k).Ok? && IsOkStatus(net(k).response);
    if AllAccepted(keys, net) then
      Installed(true, WithEntries(caches, CACHE_NAME, PutAll(current, keys, net)))
    else
      Installed(false, WithEntries(caches, CACHE_NAME, current))
  }

  /** Installing keeps the cache storage well formed. */
  lemma InstallWellFormed(caches: CacheState, net: Key -> NetOutcome)
    requires WellFormed(caches)
    ensures WellFormed(Install(caches, net).caches)
  {
    var current := EntriesOf(caches, CACHE_NAME);
    EntriesOfWellFormed(caches, CACHE_NAME);
    if AllAccepted(PrecacheKeys(), net) {
      WithEntriesWellFormed(caches, CACHE_NAME, PutAll(current, PrecacheKeys(), net));
    } else {
      WithEntriesWellFormed(caches, CACHE_NAME, current);
    }
  }

  // --------------------------------------------------------------- activate

  /** The store names the activate handler deletes: all but the two current ones. */
  function StaleNames(names: seq<string>, version: string): (stale: seq<string>)
    ensures forall n :: n in stale <==> n in names && n != PrecacheName(version) && n != RuntimeName(version)
    ensures |stale| <= |names|
  {
    if names == [] then []
    else if names[0] != PrecacheName(version) && names[0] != RuntimeName(version) then
      [names[0]] + StaleNames(names[1..], version)
    else StaleNames(names[1..], version)
  }

  /** `caches.delete(name)`: the store called `name` is gone, the rest keep their order. */
  function DeleteStore(caches: CacheState, name: string): (r: CacheState)
    ensures forall s :: s in r <==> s in caches && s.name != name
    ensures |r| <= |caches|
  {
    if caches == [] then []
    else if caches[0].name == name then DeleteStore(caches[1..], name)
    else [caches[0]] + DeleteStore(caches[1..], name)
  }

  /** Deleting a store keeps the storage well formed. */
  lemma {:induction false} DeleteStoreWellFormed(caches: CacheState, name: string)
    requires WellFormed(caches)
    ensures WellFormed(DeleteStore(caches, name))
    decreases |caches|
  {
    if caches != [] {
      TailWellFormed(caches);
      DeleteStoreWellFormed(caches[1..], name);
      if caches[0].name != name {
        ConsWellFormed(caches[0], DeleteStore(caches[1..], name));
      }
    }
  }

  /** Deleting from two runs of stores deletes from each and keeps them in order. */
  lemma {:induction false} DeleteStoreConcat(a: CacheState, b: CacheState, name: string)
    ensures DeleteStore(a + b, name) == DeleteStore(a, name) + DeleteStore(b, name)
    decreases |a|
  {
    if a != [] {
      assert (a + b)[1..] == a[1..] + b;
      DeleteStoreConcat(a[1..], b, name);
    } else {
      assert a + b == b;
    }
  }

  /** Every deletion of a list, as the activate handler's `Promise.all` settles them. */
  function DeleteStores(caches: CacheState, doomed: seq<string>): (r: CacheState)
    ensures forall s :: s in r <==> s in caches && s.name !in doomed
    decreases |doomed|
  {
    if doomed == [] then caches
    else DeleteStores(DeleteStore(caches, doomed[0]), doomed[1..])
  }

  /** Deleting several stores keeps the storage well formed. */
  lemma {:induction false} DeleteStoresWellFormed(caches: CacheState, doomed: seq<string>)
    requires WellFormed(caches)
    ensures WellFormed(DeleteStores(caches, doomed))
    decreases |doomed|
  {
    if doomed != [] {
      DeleteStoreWellFormed(caches, doomed[0]);
      DeleteStoresWellFormed(DeleteStore(caches, doomed[0]), doomed[1..]);
    }
  }

  /** Deleting several stores from two runs of stores keeps the runs in order. */
  lemma {:induction false} DeleteStoresConcat(a: CacheState, b: CacheState, doomed: seq<string>)
    ensures DeleteStores(a + b, doomed) == DeleteStores(a, doomed) + DeleteStores(b, doomed)
    decreases |doomed|
  {
    if doomed != [] {
      DeleteStoreConcat(a, b, doomed[0]);
      DeleteStoresConcat(DeleteStore(a, doomed[0]), DeleteStore(b, doomed[0]), doomed[1..]);
    }
  }

  /**
   * The stores an activation for `version` should leave: the current
   * precache and runtime stores, in the order they were created.
   */
  function Survivors(caches: CacheState, version: string): (r: CacheState)
    ensures forall s :: s in r <==> s in caches && (s.name == PrecacheName(version) || s.name == RuntimeName(version))
    ensures |r| <= |caches|
  {
    if caches == [] then []
    else if caches[0].name == PrecacheName(version) || caches[0].name == RuntimeName(version) then
      [caches[0]] + Survivors(caches[1..], version)
    else Survivors(caches[1..], version)
  }

  /** The survivors of two runs of stores are those of the first, then those of the second. */
  lemma {:induction false} SurvivorsConcat(a: CacheState, b: CacheState, version: string)
    ensures Survivors(a + b, version) == Survivors(a, version) + Survivors(b, version)
    decreases |a|
  {
    if a != [] {
      assert (a + b)[1..] == a[1..] + b;
      SurvivorsConcat(a[1..], b, version);
    } else {
      assert a + b == b;
    }
  }

  /** Deleting a stale name does not change which stores survive. */
  lemma {:induction false} SurvivorsAfterStaleDelete(caches: CacheState, version: string, name: string)
    requires name != PrecacheName(version) && name != RuntimeName(version)
    ensures Survivors(DeleteStore(caches, name), version) == Survivors(caches, version)
    decreases |caches|
  {
    if caches != [] {
      SurvivorsAfterStaleDelete(caches[1..], version, name);
    }
  }

  /** When every store is current, all of them survive. */
  lemma {:induction false} SurvivorsOfCurrent(caches: CacheState, version: string)
    requires forall s :: s in caches ==> s.name == PrecacheName(version) || s.name == RuntimeName(version)
    ensures Survivors(caches, version) == caches
    decreases |caches|
  {
    if caches != [] {
      assert caches[0] in caches && forall s :: s in caches[1..] ==> s in caches;
      SurvivorsOfCurrent(caches[1..], version);
    }
  }

  /**
   * Deleting a list of stale names that covers every stale store leaves
   * exactly the survivors, in their original order.
   */
  lemma {:induction false} DeleteStoresLeavesSurvivors(caches: CacheState, doomed: seq<string>, version: string)
    requires forall n :: n in doomed ==> n != PrecacheName(version) && n != RuntimeName(version)
    requires forall s :: s in caches && s.name != PrecacheName(version) && s.name != RuntimeName(version) ==>
      s.name in doomed
    ensures DeleteStores(caches, doomed) == Survivors(caches, version)
    decreases |doomed|
  {
    if doomed == [] {
      SurvivorsOfCurrent(caches, version);
    } else {
      var rest := DeleteStore(caches, doomed[0]);
      assert doomed[0] in doomed;
      assert forall n :: n in doomed[1..] ==> n in doomed;
      assert forall n :: n in doomed && n != doomed[0] ==> n in doomed[1..];
      DeleteStoresLeavesSurvivors(rest, doomed[1..], version);
      SurvivorsAfterStaleDelete(caches, version, doomed[0]);
    }
  }

  /** The activate handler for a given version tag. */
  function ActivateVersion(caches: CacheState, version: string): (r: CacheState)
    ensures forall s :: s in r <==> s in caches && (s.name == PrecacheName(version) || s.name == RuntimeName(version))
    ensures r == Survivors(caches, version)
  {
    var doomed := StaleNames(Names(caches), version);
    assert forall s :: s in caches ==> s.name in Names(caches) by {
      forall s | s in caches ensures s.name in Names(caches) {
        var i :| 0 <= i < |caches| && caches[i] == s;
        assert Names(caches)[i] == s.name;
      }
    }
    DeleteStoresLeavesSurvivors(caches, doomed, version);
    DeleteStores(caches, doomed)
  }

  /** Keeping exactly the current stores keeps exactly the current names. */
  lemma SurvivorNames(caches: CacheState, r: CacheState, version: string)
    requires forall s :: s in r <==> s in caches && (s.name == PrecacheName(version) || s.name == RuntimeName(version))
    ensures forall n :: n in Names(r) <==> n in Names(caches) && (n == PrecacheName(version) || n == RuntimeName(version))
  {
    forall n | n in Names(r) ensures n in Names(caches) && (n == PrecacheName(version) || n == RuntimeName(version)) {
      var i :| 0 <= i < |r| && Names(r)[i] == n;
      assert r[i] in r;
      var j :| 0 <= j < |caches| && caches[j] == r[i];
      assert Names(caches)[j] == n;
    }
    forall n | n in Names(caches) && (n == PrecacheName(version) || n == RuntimeName(version)) ensures n in Names(r) {
      var j :| 0 <= j < |caches| && Names(caches)[j] == n;
      assert caches[j] in caches;
      var i :| 0 <= i < |r| && r[i] == caches[j];
      assert Names(r)[i] == n;
    }
  }

  /** The activate handler of this worker: keeps `CACHE_NAME` and `RUNTIME_CACHE` only. */
  function Activate(caches: CacheState): (r: CacheState)
    ensures forall s :: s in r <==> s in caches && (s.name == CACHE_NAME || s.name == RUNTIME_CACHE)
    ensures forall n :: n in Names(r) <==> n in Names(caches) && (n == CACHE_NAME || n == RUNTIME_CACHE)
    ensures r == Survivors(caches, CACHE_VERSION)
  {
    var r := ActivateVersion(caches, CACHE_VERSION);
    SurvivorNames(caches, r, CACHE_VERSION);
    r
  }

  /** Activation keeps the storage well formed. */
  lemma ActivateWellFormed(caches: CacheState)
    requires WellFormed(caches)
    ensures WellFormed(Activate(caches))
  {
    DeleteStoresWellFormed(caches, StaleNames(Names(caches), CACHE_VERSION));
  }

  /** When only current names are present, there is nothing to delete. */
  lemma {:induction false} NothingStale(names: seq<string>, version: string)
    requires forall n :: n in names ==> n == PrecacheName(version) || n == RuntimeName(version)
    ensures StaleNames(names, version) == []
    decreases |names|
  {
    if names != [] {
      assert names[0] in names && forall n :: n in names[1..] ==> n in names;
      NothingStale(names[1..], version);
    }
  }

  /** A second activation with the same version tag deletes nothing. */
  lemma ActivateIdempotent(caches: CacheState)
    ensures StaleNames(Names(Activate(caches)), CACHE_VERSION) == []
    ensures Activate(Activate(caches)) == Activate(caches)
  {
    NothingStale(Names(Activate(caches)), CACHE_VERSION);
  }

  /** Activation leaves the current stores' contents as they were. */
  lemma ActivateKeepsCurrentStores(caches: CacheState, name: string)
    requires WellFormed(caches)
    requires name == CACHE_NAME || name == RUNTIME_CACHE
    ensures EntriesOf(Activate(caches), name) == EntriesOf(caches, name)
  {
    var r := Activate(caches);
    ActivateWellFormed(caches);
    if name in Names(caches) {
      var j := Position(Names(caches), name).value;
      assert caches[j] in caches;
      var i :| 0 <= i < |r| && r[i] == caches[j];
    } else {
      assert name !in Names(r);
    }
  }

  /** After a version bump, no store of the previous version survives activation. */
  lemma VersionBumpDeletesOldStores(caches: CacheState, previous: string, current: string)
    requires previous != current
    ensures forall s :: s in ActivateVersion(caches, current) ==>
      s.name != PrecacheName(previous) && s.name != RuntimeName(previous)
  {
    StoreNamesDetermineVersion(previous, current);
    StoreNamesNeverCollide(previous, current);
    StoreNamesNeverCollide(current, previous);
  }
}
