/** The two request handlers: shortenUrlHandler (validate, dispatch, store,
    answer) and redirectHandler (look up, add a scheme, redirect). HTTP
    statuses are outcomes of a datatype. */
module Handlers {
  import opened CodeGen
  import opened ShortCode
  import opened Dispatch
  import opened Store

  datatype Response =
    | Ok(body: string)          // 200 with the short URL
    | BadRequest                // 400: missing 'url'
    | ServerError               // 500: forwarding, reply or store failure
    | NotFound                  // 404: unknown code
    | Found(location: string)   // 302 redirect

  /** strings.HasPrefix(u, "http://") || strings.HasPrefix(u, "https://") */
  predicate HasScheme(u: string)
  {
    "http://" <= u || "https://" <= u
  }

  /** The redirect target: u itself when it has a scheme, else "http://" + u. */
  function WithScheme(u: string): (target: string)
    ensures HasScheme(target)
    ensures target == u <==> HasScheme(u)
    ensures !HasScheme(u) ==> target == "http://" + u
  {
    if !("http://" <= u) && !("https://" <= u) then "http://" + u else u
  }

  /** Adding the scheme twice is adding it once. */
  lemma WithSchemeIdempotent(u: string)
    ensures WithScheme(WithScheme(u)) == WithScheme(u)
  {
  }

  /** redirectHandler (main.go): NotFound exactly when the code is not
      stored, else a redirect to the stored URL with a scheme. */
  function RedirectHandler(st: KeyValueStore, shortCode: string): (r: Response)
    reads st
    ensures r.NotFound? <==> shortCode !in st.mappings
    ensures r.NotFound? || r.Found?
    ensures r.Found? ==> r.location == WithScheme(st.mappings[shortCode])
  {
    match st.Get(shortCode)
    case None => NotFound
    case Some(originalUrl) => Found(WithScheme(originalUrl))
  }

  /** shortenUrlHandler (main.go). The forwarded POST to the chosen node is
      not modelled; `reply` is its outcome: None when creating, sending or
      reading the request failed, else the body the node answered with. */
  method ShortenUrlHandler(url: string, rr: RoundRobin, st: KeyValueStore, reply: Option<string>)
    returns (resp: Response)
    requires rr.Valid()
    modifies rr, st
    ensures rr.Valid()
    // an empty url is rejected before the counter or the store is touched
    ensures url == "" ==> resp == BadRequest && unchanged(rr) && unchanged(st)
    // otherwise exactly one node is chosen, round-robin
    ensures url != "" ==> rr.Dispatched == old(rr.Dispatched) + [FirstNodePort + old(rr.currentNodeIndex) as int]
    ensures url != "" ==> rr.currentNodeIndex as int == Advance(old(rr.currentNodeIndex) as int)
    // a failed forward or an empty reply is a server error and writes nothing
    ensures url != "" && (reply == None || reply == Some("")) ==> resp == ServerError && unchanged(st)
    // otherwise the code extracted from the reply is mapped to url and the
    // client receives the locally computed short URL
    ensures url != "" && reply.Some? && reply.value != "" ==>
              resp == Ok(ShortUrl(url)) &&
              st.mappings == old(st.mappings)[ExtractShortCode(reply.value) := url]
    // when the node answers with the canonical short URL, the code in the
    // response body now redirects to url
    ensures url != "" && reply == Some(ShortUrl(url)) ==>
              resp.Ok? && RedirectHandler(st, ExtractShortCode(resp.body)) == Found(WithScheme(url))
  {
    if url == "" {
      return BadRequest;
    }
    var shortUrl := CodeGen.ShortenUrl(url);
    var nodePort := rr.NextPort();
    if reply.None? {
      return ServerError;
    }
    var body := reply.value;
    if body == "" {
      return ServerError;
    }
    var shortCode := ExtractShortCode(body);
    ExtractIdempotent(body);
    var err := st.StoreUrlMapping(shortCode, url);
    if err.Some? {
      return ServerError;
    }
    resp := Ok(shortUrl);
    ExtractShortUrl(url);
  }

  /** After storeUrlMapping(shortUrl, url) on a store that held m, the
      extracted code redirects to url (with a scheme) and every other code
      resolves as it did in m. */
  lemma ResolveAfterStore(st: KeyValueStore, m: map<string, string>, shortUrl: string, url: string, other: string)
    requires st.mappings == m[ExtractShortCode(shortUrl) := url]
    ensures RedirectHandler(st, ExtractShortCode(shortUrl)) == Found(WithScheme(url))
    ensures other != ExtractShortCode(shortUrl) ==>
              RedirectHandler(st, other) == if other in m then Found(WithScheme(m[other])) else NotFound
  {
  }
}
