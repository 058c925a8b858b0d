/**
 * The fetch handler's three strategies and the dispatch between them. Each
 * takes the request, the settled outcome of `fetch(request)` and the cache
 * storage, and yields what the page receives and the storage once the
 * un-awaited cache write (and, for assets, the eviction) has settled.
 */
module Strategies {
  import opened Wrappers
  import opened Config
  import opened CacheStorage
  import opened Network
  import opened Eviction
  import opened Router

  /** The response handed to `respondWith` (`None`: the page sees a network error) and the new storage. */
  datatype Reply = Reply(response: Option<Response>, caches: CacheState)

  /** Network first; on failure the cached page, else the offline document. */
  function NavigationStrategy(req: Request, net: NetOutcome, caches: CacheState): (r: Reply)
    ensures net.Ok? ==> r.response == Some(net.response)
    ensures net.Ok? ==> Lookup(EntriesOf(r.caches, RUNTIME_CACHE), req.url) == Some(net.response)
    ensures net.Ok? ==> forall k :: k != req.url ==>
      Lookup(EntriesOf(r.caches, RUNTIME_CACHE), k) == Lookup(EntriesOf(caches, RUNTIME_CACHE), k)
    ensures net.Ok? ==> forall n :: n != RUNTIME_CACHE ==> EntriesOf(r.caches, n) == EntriesOf(caches, n)
    ensures net.Ok? ==>
      EntriesOf(r.caches, RUNTIME_CACHE) == PutEntry(EntriesOf(caches, RUNTIME_CACHE), req.url, net.response)
    ensures net.Ok? ==>
      Names(r.caches) == (if RUNTIME_CACHE in Names(caches) then Names(caches) else Names(caches) + [RUNTIME_CACHE])
    ensures net.Fail? ==> r.caches == caches
    ensures net.Fail? && Cached(caches, req.url) ==> r.response == Match(caches, req.url)
    ensures net.Fail? && !Cached(caches, req.url) ==> r.response == Match(caches, OfflineKey())
    ensures net.Fail? ==> (r.response.None? <==> !Cached(caches, req.url) && !Cached(caches, OfflineKey()))
  {
    match net
    case Ok(response) => Reply(Some(response), Put(caches, RUNTIME_CACHE, req.url, response))
    case Fail =>
      var cached := Match(caches, req.url);
      Reply(if cached.Some? then cached else Match(caches, OfflineKey()), caches)
  }

  /** The runtime store after an asset write and the eviction that follows it. */
  lemma StoreAssetEntries(caches: CacheState, key: Key, response: Response)
    ensures var r := LimitCacheSize(Put(caches, RUNTIME_CACHE, key, response), RUNTIME_CACHE, ASSET_CACHE_LIMIT);
      var put := PutEntry(EntriesOf(caches, RUNTIME_CACHE), key, response);
      && EntriesOf(r, RUNTIME_CACHE) == Limit(put, ASSET_CACHE_LIMIT)
      && Lookup(EntriesOf(r, RUNTIME_CACHE), key) == Some(response)
      && (DistinctKeys(EntriesOf(caches, RUNTIME_CACHE)) ==> forall k :: k != key ==>
           || Lookup(EntriesOf(r, RUNTIME_CACHE), k).None?
           || Lookup(EntriesOf(r, RUNTIME_CACHE), k) == Lookup(EntriesOf(caches, RUNTIME_CACHE), k))
  {
    var before := EntriesOf(caches, RUNTIME_CACHE);
    var put := PutEntry(before, key, response);
    var written := Put(caches, RUNTIME_CACHE, key, response);
    assert EntriesOf(written, RUNTIME_CACHE) == put;
    EvictAfterPutKeepsIt(before, key, response, ASSET_CACHE_LIMIT);
    EvictionOnlyForgets(put, ASSET_CACHE_LIMIT);
  }

  /** An asset write and its eviction leave the other stores and the list of names alone. */
  lemma StoreAssetFrame(caches: CacheState, key: Key, response: Response)
    ensures var r := LimitCacheSize(Put(caches, RUNTIME_CACHE, key, response), RUNTIME_CACHE, ASSET_CACHE_LIMIT);
      && (forall n :: n != RUNTIME_CACHE ==> EntriesOf(r, n) == EntriesOf(caches, n))
      && Names(r) == if RUNTIME_CACHE in Names(caches) then Names(caches) else Names(caches) + [RUNTIME_CACHE]
  {
    var written := Put(caches, RUNTIME_CACHE, key, response);
    assert RUNTIME_CACHE in Names(written);
  }

  /**
   * The write-then-evict tail of the static-asset strategy: the runtime
   * store becomes the newest 60 entries after the put, so the new asset is
   * kept and older keys are either kept unchanged or evicted.
   */
  function StoreAsset(caches: CacheState, key: Key, response: Response): (r: CacheState)
    ensures EntriesOf(r, RUNTIME_CACHE) ==
      Limit(PutEntry(EntriesOf(caches, RUNTIME_CACHE), key, response), ASSET_CACHE_LIMIT)
    ensures Lookup(EntriesOf(r, RUNTIME_CACHE), key) == Some(response)
    ensures |EntriesOf(r, RUNTIME_CACHE)| <= ASSET_CACHE_LIMIT
    ensures DistinctKeys(EntriesOf(caches, RUNTIME_CACHE)) ==> forall k :: k != key ==>
      || Lookup(EntriesOf(r, RUNTIME_CACHE), k).None?
      || Lookup(EntriesOf(r, RUNTIME_CACHE), k) == Lookup(EntriesOf(caches, RUNTIME_CACHE), k)
    ensures forall n :: n != RUNTIME_CACHE ==> EntriesOf(r, n) == EntriesOf(caches, n)
    ensures Names(r) == if RUNTIME_CACHE in Names(caches) then Names(caches) else Names(caches) + [RUNTIME_CACHE]
  {
    StoreAssetEntries(caches, key, response);
    StoreAssetFrame(caches, key, response);
    LimitCacheSize(Put(caches, RUNTIME_CACHE, key, response), RUNTIME_CACHE, ASSET_CACHE_LIMIT)
  }

  /** Cache first; on a miss the network, storing the response; an image falls back to the icon. */
  function StaticAssetStrategy(req: Request, net: NetOutcome, caches: CacheState): (r: Reply)
    ensures Cached(caches, req.url) ==> r.response == Match(caches, req.url) && r.caches == caches
    ensures !Cached(caches, req.url) && net.Ok? ==> r.response == Some(net.response)
    ensures !Cached(caches, req.url) && net.Ok? ==> r.caches == StoreAsset(caches, req.url, net.response)
    ensures !Cached(caches, req.url) && net.Fail? ==> r.caches == caches
    ensures !Cached(caches, req.url) && net.Fail? && req.destination == "image" ==>
      r.response == Match(caches, FallbackIconKey())
    ensures !Cached(caches, req.url) && net.Fail? && req.destination != "image" ==> r.response.None?
  {
    var cached := Match(caches, req.url);
    if cached.Some? then Reply(cached, caches)
    else
      match net
      case Ok(response) => Reply(Some(response), StoreAsset(caches, req.url, response))
      case Fail =>
        Reply(if req.destination == "image" then Match(caches, FallbackIconKey()) else None, caches)
  }

  /**
   * On an asset miss with the network up, the runtime store becomes the
   * newest 60 entries after the put: the response is kept, every other key
   * is unchanged or evicted, and a missing runtime store is created last.
   */
  lemma StaticAssetMissStores(req: Request, net: NetOutcome, caches: CacheState)
    requires !Cached(caches, req.url) && net.Ok?
    ensures var r := StaticAssetStrategy(req, net, caches).caches;
      && EntriesOf(r, RUNTIME_CACHE) ==
         Limit(PutEntry(EntriesOf(caches, RUNTIME_CACHE), req.url, net.response), ASSET_CACHE_LIMIT)
      && Lookup(EntriesOf(r, RUNTIME_CACHE), req.url) == Some(net.response)
      && |EntriesOf(r, RUNTIME_CACHE)| <= ASSET_CACHE_LIMIT
      && (DistinctKeys(EntriesOf(caches, RUNTIME_CACHE)) ==> forall k :: k != req.url ==>
           || Lookup(EntriesOf(r, RUNTIME_CACHE), k).None?
           || Lookup(EntriesOf(r, RUNTIME_CACHE), k) == Lookup(EntriesOf(caches, RUNTIME_CACHE), k))
      && (forall n :: n != RUNTIME_CACHE ==> EntriesOf(r, n) == EntriesOf(caches, n))
      && Names(r) == if RUNTIME_CACHE in Names(caches) then Names(caches) else Names(caches) + [RUNTIME_CACHE]
  {
  }

  /** Network first, cache as fallback; never writes. */
  function DefaultStrategy(req: Request, net: NetOutcome, caches: CacheState): (r: Reply)
    ensures r.caches == caches
    ensures net.Ok? ==> r.response == Some(net.response)
    ensures net.Fail? ==> (r.response.Some? <==> Cached(caches, req.url))
    ensures net.Fail? ==> r.response == Match(caches, req.url)
  {
    match net
    case Ok(response) => Reply(Some(response), caches)
    case Fail => Reply(Match(caches, req.url), caches)
  }

  /** What the fetch handler does with one request. */
  datatype Handled = Passthrough | Responded(reply: Reply)

  /** The fetch handler: classify, then run the matching strategy. */
  function HandleFetch(req: Request, net: NetOutcome, caches: CacheState): (r: Handled)
    ensures r.Passthrough? <==> req.httpMethod != "GET"
    ensures Classify(req) == NavigationRoute ==> r == Responded(NavigationStrategy(req, net, caches))
    ensures Classify(req) == StaticAssetRoute ==> r == Responded(StaticAssetStrategy(req, net, caches))
    ensures Classify(req) == DefaultRoute ==> r == Responded(DefaultStrategy(req, net, caches))
  {
    match Classify(req)
    case NotIntercepted => Passthrough
    case NavigationRoute => Responded(NavigationStrategy(req, net, caches))
    case StaticAssetRoute => Responded(StaticAssetStrategy(req, net, caches))
    case DefaultRoute => Responded(DefaultStrategy(req, net, caches))
  }

  /** The cache storage after the handler has run and its writes have settled. */
  function After(caches: CacheState, handled: Handled): CacheState {
    match handled
    case Passthrough => caches
    case Responded(reply) => reply.caches
  }

  /** A request that is not GET is left to the browser and touches no cache. */
  lemma NonGetIsNotIntercepted(req: Request, net: NetOutcome, caches: CacheState)
    requires req.httpMethod != "GET"
    ensures HandleFetch(req, net, caches) == Passthrough
    ensures After(caches, HandleFetch(req, net, caches)) == caches
  {
  }

  /** A static-asset hit is answered without the network: the outcome makes no difference. */
  lemma StaticHitIgnoresNetwork(req: Request, one: NetOutcome, other: NetOutcome, caches: CacheState)
    requires Cached(caches, req.url)
    ensures StaticAssetStrategy(req, one, caches) == StaticAssetStrategy(req, other, caches)
  {
  }

  /** Only the runtime store is ever written by the fetch handler. */
  lemma HandleFetchWritesOnlyRuntime(req: Request, net: NetOutcome, caches: CacheState)
    ensures forall n :: n != RUNTIME_CACHE ==>
      EntriesOf(After(caches, HandleFetch(req, net, caches)), n) == EntriesOf(caches, n)
  {
  }

  /**
   * Handling a request only ever appends a store: the stores already
   * present keep their places in creation order, which `caches.match`
   * searches in.
   */
  lemma HandleFetchKeepsStoreOrder(req: Request, net: NetOutcome, caches: CacheState)
    ensures Names(caches) <= Names(After(caches, HandleFetch(req, net, caches)))
  {
  }

  /** The fetch handler keeps the storage well formed. */
  lemma HandleFetchWellFormed(req: Request, net: NetOutcome, caches: CacheState)
    requires WellFormed(caches)
    ensures WellFormed(After(caches, HandleFetch(req, net, caches)))
  {
    if net.Ok? {
      match Classify(req)
      case NavigationRoute =>
        PutWellFormed(caches, RUNTIME_CACHE, req.url, net.response);
      case StaticAssetRoute =>
        if !Cached(caches, req.url) {
          PutWellFormed(caches, RUNTIME_CACHE, req.url, net.response);
          LimitCacheSizeWellFormed(Put(caches, RUNTIME_CACHE, req.url, net.response), RUNTIME_CACHE, ASSET_CACHE_LIMIT);
        }
      case _ =>
    }
  }
}
