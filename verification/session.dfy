/**
 * The worker over its lifetime: install, activate, then any sequence of
 * fetches, each handled to completion before the next.
 */
module Session {
  import opened Config
  import opened CacheStorage
  import opened Network
  import opened Router
  import opened Strategies
  import opened Lifecycle

  /** One intercepted request and how its `fetch` settles. */
  datatype FetchEvent = FetchEvent(request: Request, outcome: NetOutcome)

  /** The cache storage after handling `events` in order. */
  function Serve(caches: CacheState, events: seq<FetchEvent>): CacheState
    decreases |events|
  {
    if events == [] then caches
    else Serve(After(caches, HandleFetch(events[0].request, events[0].outcome, caches)), events[1..])
  }

  /** A fetch never disturbs the precache. */
  lemma FetchKeepsPrecache(req: Request, net: NetOutcome, caches: CacheState)
    ensures EntriesOf(After(caches, HandleFetch(req, net, caches)), CACHE_NAME) == EntriesOf(caches, CACHE_NAME)
  {
    StoreNamesNeverCollide(CACHE_VERSION, CACHE_VERSION);
    HandleFetchWritesOnlyRuntime(req, net, caches);
  }

  /** Any run of fetches keeps the storage well formed and the precache as it was. */
  lemma {:induction false} ServeKeepsPrecache(caches: CacheState, events: seq<FetchEvent>)
    requires WellFormed(caches)
    ensures WellFormed(Serve(caches, events))
    ensures EntriesOf(Serve(caches, events), CACHE_NAME) == EntriesOf(caches, CACHE_NAME)
    decreases |events|
  {
    if events != [] {
      var e := events[0];
      HandleFetchWellFormed(e.request, e.outcome, caches);
      FetchKeepsPrecache(e.request, e.outcome, caches);
      ServeKeepsPrecache(After(caches, HandleFetch(e.request, e.outcome, caches)), events[1..]);
    }
  }

  /** Any run of fetches keeps the stores already present in their places. */
  lemma {:induction false} ServeKeepsStoreOrder(caches: CacheState, events: seq<FetchEvent>)
    ensures Names(caches) <= Names(Serve(caches, events))
    decreases |events|
  {
    if events != [] {
      var e := events[0];
      var next := After(caches, HandleFetch(e.request, e.outcome, caches));
      HandleFetchKeepsStoreOrder(e.request, e.outcome, caches);
      ServeKeepsStoreOrder(next, events[1..]);
    }
  }

  /** In well-formed storage whose first store is the precache, `caches.match` answers from it. */
  lemma FirstStoreAnswers(caches: CacheState, key: Key)
    requires WellFormed(caches) && |caches| > 0 && caches[0].name == CACHE_NAME
    requires HasKey(EntriesOf(caches, CACHE_NAME), key)
    ensures Match(caches, key) == Lookup(EntriesOf(caches, CACHE_NAME), key)
  {
    assert EntriesOf(caches, CACHE_NAME) == caches[0].entries;
  }

  /**
   * When the precache is the first store, it answers every key it holds
   * after any run of fetches, even a key the runtime cache has a newer
   * copy of.
   */
  lemma PrecacheAnswersFirst(caches: CacheState, events: seq<FetchEvent>, key: Key)
    requires WellFormed(caches) && |caches| > 0 && caches[0].name == CACHE_NAME
    requires HasKey(EntriesOf(caches, CACHE_NAME), key)
    ensures Match(Serve(caches, events), key) == Lookup(EntriesOf(caches, CACHE_NAME), key)
  {
    var final := Serve(caches, events);
    ServeKeepsPrecache(caches, events);
    ServeKeepsStoreOrder(caches, events);
    assert Names(caches)[0] == CACHE_NAME;
    assert Names(final)[0] == CACHE_NAME;
    FirstStoreAnswers(final, key);
  }

  /** With a complete precache, an offline navigation is always answered. */
  lemma OfflineNavigationAnswered(req: Request, caches: CacheState)
    requires PrecacheComplete(caches) && Classify(req) == NavigationRoute
    ensures HandleFetch(req, Fail, caches).Responded?
    ensures HandleFetch(req, Fail, caches).reply.response.Some?
  {
    FallbacksArePrecached();
    StoreEntryIsCached(caches, CACHE_NAME, OfflineKey());
  }

  /** With a complete precache, an offline image request is always answered. */
  lemma OfflineImageAnswered(req: Request, caches: CacheState)
    requires PrecacheComplete(caches) && Classify(req) == StaticAssetRoute && req.destination == "image"
    ensures HandleFetch(req, Fail, caches).Responded?
    ensures HandleFetch(req, Fail, caches).reply.response.Some?
  {
    FallbacksArePrecached();
    StoreEntryIsCached(caches, CACHE_NAME, FallbackIconKey());
  }

  /**
   * When every manifest fetch succeeds, install and activation are followed
   * by any requests at all, and a later offline navigation still receives a
   * response.
   */
  lemma OfflineNavigationAfterInstall(start: CacheState, net: Key -> NetOutcome, events: seq<FetchEvent>, req: Request)
    requires WellFormed(start)
    requires forall k :: k in PrecacheKeys() ==> net(k).Ok? && IsOkStatus(net(k).response)
    requires Classify(req) == NavigationRoute
    ensures var caches := Serve(Activate(Install(start, net).caches), events);
      HandleFetch(req, Fail, caches).Responded? && HandleFetch(req, Fail, caches).reply.response.Some?
  {
    assert Install(start, net).succeeded;
    var installed := Install(start, net).caches;
    InstallWellFormed(start, net);
    ActivateWellFormed(installed);
    ActivateKeepsCurrentStores(installed, CACHE_NAME);
    var active := Activate(installed);
    ServeKeepsPrecache(active, events);
    var caches := Serve(active, events);
    assert EntriesOf(caches, CACHE_NAME) == EntriesOf(installed, CACHE_NAME);
    assert PrecacheComplete(caches);
    OfflineNavigationAnswered(req, caches);
  }
}
