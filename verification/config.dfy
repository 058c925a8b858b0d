/**
 * The worker's configuration: the cache-version tag, the two store names built
 * from it, the precache manifest and the two fallback assets.
 *
 * Cache keys are URL paths on the worker's own origin. The worker script is
 * served from the site root, so a relative literal such as `offline.html`
 * resolves to `/offline.html`, the same key the precache manifest installs.
 */
module Config {

  const CACHE_VERSION: string := "v1"

  /** Name of the precache store for a given version tag. */
  function PrecacheName(version: string): string {
    "pwa-cache-" + version
  }

  /** Name of the runtime store for a given version tag. */
  function RuntimeName(version: string): string {
    "runtime-cache-" + version
  }

  const CACHE_NAME: string := PrecacheName(CACHE_VERSION)
  const RUNTIME_CACHE: string := RuntimeName(CACHE_VERSION)

  /** The precache manifest, as written (some entries relative). */
  const PRECACHE_URLS: seq<string> := ["/", "/index.html", "/offline.html", "icon-256.png", "icon-512.png"]

  /** Size bound the static-asset strategy passes to the eviction policy. */
  const ASSET_CACHE_LIMIT: nat := 60

  /** Destinations served by the static-asset strategy. */
  const STATIC_DESTINATIONS: set<string> := {"style", "script", "image", "font"}

  /** Resolves a URL literal against the worker's location (the site root). */
  function Resolve(url: string): (key: string)
    ensures |key| > 0 && key[0] == '/'
    ensures |url| > 0 && url[0] == '/' ==> key == url
    ensures !(|url| > 0 && url[0] == '/') ==> key == "/" + url
  {
    if |url| > 0 && url[0] == '/' then url else "/" + url
  }

  /** Resolving a key again changes nothing. */
  lemma ResolveIdempotent(url: string)
    ensures Resolve(Resolve(url)) == Resolve(url)
  {
  }

  /** The precache manifest as cache keys. */
  function PrecacheKeys(): seq<string> {
    seq(|PRECACHE_URLS|, i requires 0 <= i < |PRECACHE_URLS| => Resolve(PRECACHE_URLS[i]))
  }

  /** Key of the offline fallback document looked up by the navigation strategy. */
  function OfflineKey(): string {
    Resolve("offline.html")
  }

  /** Key of the fallback icon looked up by the static-asset strategy. */
  function FallbackIconKey(): string {
    Resolve("icon-512.png")
  }

  /** The precache and runtime names differ for every pair of version tags. */
  lemma {:induction false} StoreNamesNeverCollide(v: string, w: string)
    ensures PrecacheName(v) != RuntimeName(w)
  {
    assert PrecacheName(v)[0] == 'p';
    assert RuntimeName(w)[0] == 'r';
  }

  /** A store name determines the version tag it was built from. */
  lemma {:induction false} StoreNamesDetermineVersion(v: string, w: string)
    ensures PrecacheName(v) == PrecacheName(w) <==> v == w
    ensures RuntimeName(v) == RuntimeName(w) <==> v == w
  {
    if PrecacheName(v) == PrecacheName(w) {
      assert v == PrecacheName(v)[10..];
      assert w == PrecacheName(w)[10..];
    }
    if RuntimeName(v) == RuntimeName(w) {
      assert v == RuntimeName(v)[14..];
      assert w == RuntimeName(w)[14..];
    }
  }

  /** The two fallback assets are in the precache manifest. */
  lemma FallbacksArePrecached()
    ensures OfflineKey() in PrecacheKeys()
    ensures FallbackIconKey() in PrecacheKeys()
  {
    assert PrecacheKeys()[2] == OfflineKey();
    assert PrecacheKeys()[4] == FallbackIconKey();
  }
}
