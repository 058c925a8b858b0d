/** The fetch handler's classification of a request, checked in a fixed order. */
module Router {
  import opened Wrappers
  import opened Config
  import opened CacheStorage

  /** The request fields the handler reads; `accept` is `None` when the header is absent. */
  datatype Request = Request(httpMethod: string, url: Key, mode: string, accept: Option<string>, destination: string)

  /** Which strategy, if any, answers the request. */
  datatype Route = NotIntercepted | NavigationRoute | StaticAssetRoute | DefaultRoute

  ghost predicate OccursAt(text: string, pattern: string, i: int) {
    0 <= i && i + |pattern| <= |text| && text[i..i + |pattern|] == pattern
  }

  /** `pattern` occurs somewhere in `text`. */
  ghost predicate IsSubstring(pattern: string, text: string) {
    exists i :: OccursAt(text, pattern, i)
  }

  /** Searches for `pattern` in `text` from position `from` onwards. */
  function IncludesFrom(text: string, pattern: string, from: nat): (found: bool)
    ensures found <==> exists i :: from <= i && OccursAt(text, pattern, i)
    decreases |text| - from
  {
    if from + |pattern| > |text| then false
    else if text[from..from + |pattern|] == pattern then
      assert OccursAt(text, pattern, from);
      true
    else IncludesFrom(text, pattern, from + 1)
  }

  /** `String.prototype.includes`. */
  function Includes(text: string, pattern: string): (found: bool)
    ensures found <==> IsSubstring(pattern, text)
  {
    IncludesFrom(text, pattern, 0)
  }

  /** `request.headers.get('accept') || ''`: a missing header reads as the empty string. */
  function AcceptHeader(req: Request): string {
    match req.accept
    case Some(header) => header
    case None => ""
  }

  /** The navigation test: a page navigation, or an `accept` header asking for HTML. */
  predicate IsNavigation(req: Request) {
    req.mode == "navigate" || Includes(AcceptHeader(req), "text/html")
  }

  /** The fetch handler's dispatch: non-GET, then navigation, then static assets, then the rest. */
  function Classify(req: Request): (route: Route)
    ensures route == NotIntercepted <==> req.httpMethod != "GET"
    ensures route == NavigationRoute <==>
      req.httpMethod == "GET" && (req.mode == "navigate" || IsSubstring("text/html", AcceptHeader(req)))
    ensures route == StaticAssetRoute <==>
      && req.httpMethod == "GET"
      && !(req.mode == "navigate" || IsSubstring("text/html", AcceptHeader(req)))
      && req.destination in STATIC_DESTINATIONS
    ensures route == DefaultRoute <==>
      && req.httpMethod == "GET"
      && !(req.mode == "navigate" || IsSubstring("text/html", AcceptHeader(req)))
      && req.destination !in STATIC_DESTINATIONS
  {
    if req.httpMethod != "GET" then NotIntercepted
    else if IsNavigation(req) then NavigationRoute
    else if req.destination == "style" || req.destination == "script"
         || req.destination == "image" || req.destination == "font" then StaticAssetRoute
    else DefaultRoute
  }

  /** Navigation is decided before the destination is looked at. */
  lemma NavigationIgnoresDestination(req: Request, destination: string)
    requires Classify(req) == NavigationRoute
    ensures Classify(req.(destination := destination)) == NavigationRoute
  {
  }

  /** A GET with mode `navigate` is a navigation whatever its headers and destination. */
  lemma NavigateModeIsNavigation(req: Request)
    requires req.httpMethod == "GET" && req.mode == "navigate"
    ensures Classify(req) == NavigationRoute
  {
  }

  /** An `accept` header containing `text/html` anywhere makes a GET a navigation. */
  lemma {:induction false} HtmlAcceptIsNavigation(req: Request, before: string, after: string)
    requires req.httpMethod == "GET" && req.accept == Some(before + "text/html" + after)
    ensures Classify(req) == NavigationRoute
  {
    var text := before + "text/html" + after;
    assert text[|before|..|before| + 9] == "text/html";
    assert OccursAt(text, "text/html", |before|);
  }

  /** A missing `accept` header routes exactly like an empty one. */
  lemma MissingAcceptIsEmpty(req: Request)
    ensures Classify(req.(accept := None)) == Classify(req.(accept := Some("")))
  {
  }

  /** Every `image` GET that is not a navigation goes to the static-asset strategy. */
  lemma ImageRequestIsStaticAsset(req: Request)
    requires req.httpMethod == "GET" && !IsNavigation(req) && req.destination == "image"
    ensures Classify(req) == StaticAssetRoute
  {
  }
}
