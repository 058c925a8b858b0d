# Offline-caching service worker, modelled in Dafny

This project models the request-handling logic of a small browser service
worker (`service-worker.js`). The worker keeps two cache stores, a versioned
precache filled at install and a runtime cache filled as pages and assets are
fetched. On activation it deletes every other store. It then answers each
GET request with one of three strategies:

- navigation: network first, then the cache, then the offline page;
- static asset: cache first, then the network, writing the response back and
  bounding the runtime cache to 60 entries;
- everything else: network first, then the cache.

Everything is pure functions over explicit data:

- the cache storage is an ordered list of named stores, each an
  insertion-ordered list of (key, response) entries (`CacheStorage`);
- the settled outcome of `fetch` is an argument, `Ok(response)` or `Fail`
  (`Network`);
- responses are opaque values, so `response.clone()` is plain copying;
- every un-awaited cache write, and the eviction that follows it, is applied
  to the returned storage as if it had already settled.

Modules: `Config` (constants and URL resolution), `CacheStorage` (stores,
`cache.match`, `cache.put`, `caches.match`), `Eviction` (`limitCacheSize`),
`Lifecycle` (install and activate), `Router` (classification),
`Strategies` (the three strategies and the fetch handler) and `Session`
(properties over a whole lifetime: install, activate, then any fetches).

Cache keys are URL paths on the worker's own origin. The worker script is
taken to live at the site root. A relative literal such as `offline.html` or
`icon-512.png` therefore resolves to `/offline.html` or `/icon-512.png`,
which are the keys the precache manifest installs (`Config.Resolve`).

A key written a second time is removed from the store and appended last
(`CacheStorage.PutEntry`). This is the order the browser's Cache API keeps,
not something the worker's own code decides, and it determines which entry
eviction drops first.

Two consequences of the code are worth knowing:

- `caches.match` searches stores in creation order. The precache is created
  first, so an offline navigation to a precached page gets the install-time
  copy, even when the runtime cache holds a newer one (`CacheStorage.Match`,
  `Session.PrecacheAnswersFirst`).
- Navigation responses go into the runtime cache without eviction. Only an
  asset miss bounds the runtime cache, and that eviction may also drop pages
  cached by navigations (`Strategies.StaticAssetStrategy`).

Source note: in `service-worker.js` at lines 59-60, the navigation branch's
`event.respondWith(` is never closed. A `)` is missing before `return;` at
line 61. The model follows the evident intent: the catch handler's promise is
what `respondWith` receives.

## Model

| member | source | states |
|---|---|---|
| `Config.StoreNamesNeverCollide` | service-worker.js:1-3 | For any two version tags, the precache name and the runtime name differ, so `CACHE_NAME` and `RUNTIME_CACHE` are distinct. |
| `Config.StoreNamesDetermineVersion` | service-worker.js:1-3 | Two store names of the same kind are equal exactly when their version tags are. |
| `Config.FallbacksArePrecached` | service-worker.js:6-12 | The offline document looked up at line 59 and the icon looked up at line 76 are both in the precache manifest. |
| `Config.Resolve` | service-worker.js:9-11 | A URL literal resolved against the worker at the site root: a path starting with `/` is kept, any other literal gets `/` in front, so every key starts with `/`. |
| `Config.ResolveIdempotent` | service-worker.js:9-11 | Resolving an already resolved key changes nothing. |
| `CacheStorage.Lookup` | service-worker.js:67 | A lookup in one store answers exactly when some entry has the key, and the answer is the response of such an entry. |
| `CacheStorage.LookupConcat` | service-worker.js:67 | A lookup in two stretches of entries finds the first stretch's entry before the second's. |
| `CacheStorage.RemoveKey` | service-worker.js:70 | Removing a key keeps exactly the entries with other keys, and makes no store longer. |
| `CacheStorage.RemoveKeyConcat` | service-worker.js:70 | Removing a key from two stretches of entries removes it from each and keeps the stretches, and the entries within them, in order. |
| `CacheStorage.RemoveKeySingle` | service-worker.js:70 | Removing a key from one entry drops the entry exactly when it has that key. |
| `CacheStorage.RemoveAbsentKey` | service-worker.js:70 | Removing a key that is not present changes nothing. |
| `CacheStorage.PutEntry` | service-worker.js:70 | After `put`, the key looks up the new response, every other key looks up what it did before, and a fresh key lands at the end. The new entry is always last, preceded by the old entries without the key, in their old order. Distinct keys stay distinct. |
| `CacheStorage.WithEntries` | service-worker.js:56 | Opening a store creates it last when it is missing. Replacing its contents leaves every other store and the list of names as they were. |
| `CacheStorage.Put` | service-worker.js:56 | `caches.open(name)` then `put`: the store's entries become those of `PutEntry`, so the new entry is appended last. A missing store is created after all existing ones, and the names of the others keep their order. The key looks up the new response, and every other key and every other store is unchanged. |
| `CacheStorage.PutWellFormed` | service-worker.js:56 | `put` keeps store names unique and keys unique within each store. |
| `CacheStorage.Match` | service-worker.js:59 | `caches.match` answers exactly when some store holds the key. The answer comes from the first store, in creation order, that holds it. |
| `CacheStorage.StoreEntryIsCached` | service-worker.js:59 | A key held by any named store is found by `caches.match`. |
| `Eviction.Limit` | service-worker.js:33-40 | Eviction leaves the smaller of the input length and `maxItems` items, and they are the newest ones of the input, in their original order. The recursion ends because each step drops one item. |
| `Eviction.LimitIdempotent` | service-worker.js:36 | Input already within the limit is unchanged, so evicting twice is the same as evicting once. |
| `Eviction.LimitAbsorbs` | service-worker.js:36-38 | Evicting, appending and evicting again gives the same result as appending and then evicting once. |
| `Eviction.EvictOldest` | service-worker.js:33-40 | The loop that deletes the oldest key until the bound holds computes the same result as the recursion. |
| `Eviction.EvictAfterPutKeepsIt` | service-worker.js:70-71 | With a positive limit, eviction right after a `put` keeps the entry that was just put. |
| `Eviction.EvictionOnlyForgets` | service-worker.js:33-40 | In a store with unique keys, eviction leaves each key looking up what it did before, or nothing. |
| `Eviction.LimitCacheSize` | service-worker.js:33-40 | The named store ends as exactly `Limit` of what it held: the newest `maxItems` entries (all of them when within the limit), in their order. Other stores are untouched. |
| `Eviction.LimitCacheSizeWellFormed` | service-worker.js:33-40 | Eviction keeps store names and keys unique. |
| `Eviction.InsertAllKeepsNewest` | service-worker.js:69-72 | After fresh keys are written one at a time, each write followed by eviction, the store holds exactly the newest `maxItems` entries of everything written, in insertion order. |
| `Lifecycle.PutAll` | service-worker.js:18 | After the writes of `addAll`, every listed key looks up its fetched response, and every other key is unchanged. |
| `Lifecycle.Install` | service-worker.js:14-20 | Install succeeds exactly when every manifest fetch resolves with a 2xx status. It then leaves every manifest entry in the precache, and every other precache key looks up what it did before. Otherwise it writes nothing, but the precache store is still created, after every existing store. Other stores are untouched and keep their places. |
| `Lifecycle.InstallWellFormed` | service-worker.js:16-19 | Install keeps store names and keys unique. |
| `Lifecycle.StaleNames` | service-worker.js:25 | The names to delete are exactly the present names that are neither the precache name nor the runtime name. |
| `Lifecycle.DeleteStore` | service-worker.js:26 | `caches.delete(name)` removes exactly the stores with that name. |
| `Lifecycle.DeleteStoreConcat` | service-worker.js:26 | Deleting from two runs of stores deletes from each and keeps the runs, and the stores within them, in order. |
| `Lifecycle.DeleteStores` | service-worker.js:24-27 | Once every deletion has settled, exactly the stores whose names are not listed remain. |
| `Lifecycle.DeleteStoresConcat` | service-worker.js:24-27 | Several deletions from two runs of stores keep the runs in order. |
| `Lifecycle.Survivors` | service-worker.js:25 | The stores activation should keep are exactly the current precache and runtime stores. |
| `Lifecycle.SurvivorsConcat` | service-worker.js:25 | The survivors of two runs of stores are the first run's, then the second's, each in creation order. |
| `Lifecycle.DeleteStoresLeavesSurvivors` | service-worker.js:24-27 | Deleting a list of stale names that covers every stale store leaves exactly the survivors, in their creation order. |
| `Lifecycle.ActivateVersion` | service-worker.js:22-30 | Activation for a version tag keeps exactly the stores named with that tag's precache or runtime name, in their creation order. |
| `Lifecycle.Activate` | service-worker.js:22-30 | The surviving stores, and their names, are exactly the original ones named `CACHE_NAME` or `RUNTIME_CACHE`, and they keep their creation order. |
| `Lifecycle.ActivateWellFormed` | service-worker.js:22-30 | Activation keeps store names and keys unique. |
| `Lifecycle.NothingStale` | service-worker.js:25 | When only current names are present, the delete list is empty. |
| `Lifecycle.ActivateIdempotent` | service-worker.js:24-26 | A second activation with the same version tag has nothing to delete and changes nothing. |
| `Lifecycle.ActivateKeepsCurrentStores` | service-worker.js:24-26 | Activation leaves the contents of the precache and of the runtime cache as they were. |
| `Lifecycle.VersionBumpDeletesOldStores` | service-worker.js:1-3 | After activating a new version tag, no store of the previous version remains. |
| `Router.IncludesFrom` | service-worker.js:50 | The substring search from a position answers exactly when the pattern occurs at or after that position. |
| `Router.Includes` | service-worker.js:50 | `includes` answers exactly when the pattern occurs somewhere in the text. |
| `Router.Classify` | service-worker.js:47-85 | A non-GET request is not intercepted. A GET in `navigate` mode, or whose `accept` contains `text/html`, is a navigation. Any other GET is a static asset exactly when its destination is style, script, image or font, and goes to the default strategy otherwise. |
| `Router.NavigationIgnoresDestination` | service-worker.js:50-65 | Navigation is decided before the destination is looked at, so changing the destination of a navigation keeps it a navigation. |
| `Router.NavigateModeIsNavigation` | service-worker.js:50 | A GET in `navigate` mode is a navigation, whatever its headers and destination. |
| `Router.HtmlAcceptIsNavigation` | service-worker.js:50 | A GET whose `accept` header contains `text/html` anywhere is a navigation. |
| `Router.MissingAcceptIsEmpty` | service-worker.js:50 | A missing `accept` header routes exactly like an empty one. |
| `Router.ImageRequestIsStaticAsset` | service-worker.js:65 | Every image GET that is not a navigation goes to the static-asset strategy, whatever its URL, mode or headers. |
| `Strategies.NavigationStrategy` | service-worker.js:51-60 | When the network answers, the page gets that response, the runtime cache becomes the old entries without the request's key, followed by the new entry. Every other runtime key looks up what it did before, and no other store changes. A missing runtime store is created after every existing store. On failure nothing is written. The page then gets the cached match, or else the offline page, and no response only when neither is cached. |
| `Strategies.StoreAsset` | service-worker.js:68-72 | After the asset write and eviction, the runtime cache is exactly the newest 60 entries of the store after the put. So it holds the asset, and every other key looks up what it did before or has been evicted. No other store changes. A missing runtime store is created after every existing store. |
| `Strategies.StaticAssetStrategy` | service-worker.js:66-78 | A cache hit is returned and nothing changes. On a miss with the network up, the page gets the network response, and the storage becomes what `StoreAsset` leaves. On a miss with the network down, nothing is written, an image gets the fallback icon, and any other asset gets no response. |
| `Strategies.StaticAssetMissStores` | service-worker.js:67-72 | On an asset miss with the network up, the runtime cache becomes the newest 60 entries after the put. It holds the response, and every other runtime key is unchanged or evicted. Other stores are untouched, and a missing runtime store is created after every existing store. |
| `Strategies.DefaultStrategy` | service-worker.js:83-85 | Nothing is written. The page gets the network response, or on failure the cached match, and no response exactly when nothing is cached. |
| `Strategies.HandleFetch` | service-worker.js:42-86 | The request is passed through exactly when it is not GET. Otherwise it is answered by the strategy that `Classify` picks. |
| `Strategies.NonGetIsNotIntercepted` | service-worker.js:47 | A non-GET request is left to the browser and the cache storage is untouched. |
| `Strategies.StaticHitIgnoresNetwork` | service-worker.js:67 | On a static-asset cache hit, the network outcome makes no difference to the reply. |
| `Strategies.HandleFetchWritesOnlyRuntime` | service-worker.js:56 | Handling a request changes no store except the runtime cache. |
| `Strategies.HandleFetchKeepsStoreOrder` | service-worker.js:56-71 | Handling a request at most appends a store. The stores already present keep their places in the order `caches.match` searches. |
| `Strategies.HandleFetchWellFormed` | service-worker.js:42-86 | Handling a request keeps store names and keys unique. |
| `Session.FetchKeepsPrecache` | service-worker.js:56-71 | A fetch never changes the precache. |
| `Session.ServeKeepsPrecache` | service-worker.js:42-86 | Any sequence of fetches keeps the storage well formed and leaves the precache as it was. |
| `Session.ServeKeepsStoreOrder` | service-worker.js:42-86 | Any run of fetches keeps the stores already present in their places, in creation order. |
| `Session.FirstStoreAnswers` | service-worker.js:59 | When the precache is the first store, `caches.match` answers every key it holds from it. |
| `Session.PrecacheAnswersFirst` | service-worker.js:56-59 | When the precache is the first store, it still answers every key it holds after any run of fetches, even if the runtime cache holds a newer copy. |
| `Session.OfflineNavigationAnswered` | service-worker.js:59 | With a complete precache, an offline navigation always receives a response. |
| `Session.OfflineImageAnswered` | service-worker.js:76 | With a complete precache, an offline image request always receives a response. |
| `Session.OfflineNavigationAfterInstall` | service-worker.js:14-30 | If every manifest fetch succeeds, then after install, activation and any sequence of fetches, an offline navigation still receives a response. |

## Left out

- `self.skipWaiting()` (line 15) and `self.clients.claim()` (line 29): host lifecycle signals with no logic to state.
- Timing and concurrency. Cache writes and evictions run unawaited, and requests can interleave. `cache.put` is not awaited before `limitCacheSize` (lines 70-71). The model applies the put and then the eviction in sequence, and does not capture transient overshoot.
- Failures of cache operations: `cache.put` and `cache.addAll` reject partial (206) responses, non-HTTP schemes and `Vary: *`, and storage can hit its quota. Every write is modelled as succeeding, and every lookup as settling.
- Request matching options (query strings, `Vary`, method) and real URL parsing. `new URL` at line 44 is unused. Keys are opaque paths, the origin is dropped, and the worker is assumed to live at the site root.
- Response bodies as single-use streams. Responses are values and cloning is copying. The strategies do not inspect status codes, and only `addAll` does.
- The default `maxItems = 50` (line 33): the only call passes 60, so the limit is a parameter.
- `Eviction.Limit`: `maxItems` is a natural number. With a negative limit, the source's recursion never ends, even on an empty store, and no caller passes one.
- `Lifecycle.Install`: success is stated as every manifest fetch resolving with a 2xx status. `cache.addAll` also rejects a partial (206) response and a response with `Vary: *`, and response headers are not modelled, so a 206 counts as accepted here. The platform's retry after a failed install, and the error `addAll` raises for duplicate manifest entries (the manifest has none), are not modelled either.
- `CacheStorage.Lookup`: states that the answer is the response of some entry with the key, not that it is the first such entry. Stores keep keys unique (`WellFormed`), so in well-formed storage only one such entry exists.
