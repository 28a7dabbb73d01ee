/** The search proxy endpoint: `GET` with the query parameter `q`, answered
    with the provider's search results or a JSON error. */
module Search {
  import opened Common
  import opened Http
  import opened Form
  import opened Spotify

  const SEARCH_TYPES: string := "track,artist,album"
  const SEARCH_LIMIT: string := "20"

  /** The three `&`-separated pieces of the search query: the escaped
      search text, then the fixed item types and page size. */
  function SearchPieces(q: string): seq<string> {
    ["q=" + EncodeUriComponent(q), "type=" + SEARCH_TYPES, "limit=" + SEARCH_LIMIT]
  }

  /** The provider endpoint searched for `q`. Its query reads back as `q`
      itself (encodeURIComponent escapes `&`, `=`, `+` and `%`), then the
      fixed item types and page size. */
  function SearchEndpoint(q: string): (endpoint: string)
    ensures |endpoint| >= 8 && endpoint[..8] == "/search?"
    ensures Parse(endpoint[8..]) ==
      [Param("q", q), Param("type", SEARCH_TYPES), Param("limit", SEARCH_LIMIT)]
  {
    var query := Join(SearchPieces(q), "&");
    ParseSearchQuery(q);
    assert ("/search?" + query)[8..] == query;
    "/search?" + query
  }

  lemma TypePieceParses()
    ensures '&' !in "type=" + SEARCH_TYPES
    ensures ParseParam("type=" + SEARCH_TYPES) == Param("type", SEARCH_TYPES)
  {
    assert "type=" + SEARCH_TYPES == "type" + "=" + SEARCH_TYPES;
    PlainParam("type", SEARCH_TYPES);
  }

  lemma LimitPieceParses()
    ensures '&' !in "limit=" + SEARCH_LIMIT
    ensures ParseParam("limit=" + SEARCH_LIMIT) == Param("limit", SEARCH_LIMIT)
  {
    assert "limit=" + SEARCH_LIMIT == "limit" + "=" + SEARCH_LIMIT;
    PlainParam("limit", SEARCH_LIMIT);
  }

  lemma QueryPieceParses(q: string)
    ensures '&' !in "q=" + EncodeUriComponent(q)
    ensures ParseParam("q=" + EncodeUriComponent(q)) == Param("q", q)
  {
    var e := EncodeUriComponent(q);
    EncodeUriComponentNoDelimiters(q);
    assert '&' !in e;
    DecodeUriComponent(q);
    DecodeTextPlain("q");
    assert "q=" + e == "q" + "=" + e;
    ParseParamOf("q", e, Param("q", q));
  }

  lemma ParseSearchQuery(q: string)
    ensures Parse(Join(SearchPieces(q), "&"))
      == [Param("q", q), Param("type", SEARCH_TYPES), Param("limit", SEARCH_LIMIT)]
  {
    var p := SearchPieces(q);
    QueryPieceParses(q);
    TypePieceParses();
    LimitPieceParses();
    SplitJoin(p, '&');
    assert Join(p, "&")[0] == 'q';
    assert ParsePieces(p[2..]) == [Param("limit", SEARCH_LIMIT)];
    assert ParsePieces(p[1..]) == [Param("type", SEARCH_TYPES)] + ParsePieces(p[2..]);
    assert ParsePieces(p) == [Param("q", q)] + ParsePieces(p[1..]);
  }

  /** `NextResponse.json(body, { status })`. */
  datatype JsonResponse = JsonResponse(status: int, body: Json)

  function ErrorResponse(status: int, message: string): JsonResponse {
    JsonResponse(status, JObject([("error", JString(message))]))
  }

  /** What `GET` did: the provider call it made, if any, and its answer. */
  datatype Handled = Handled(upstream: Option<Request>, response: JsonResponse)

  /** `GET`, given the session's access token, the `q` parameter and the
      provider's reply to the search call. Without a token it answers 401
      before looking at `q`; without `q` it answers 400; neither calls the
      provider. Otherwise it calls the provider once and passes the results
      through unchanged, or answers 500 when the call rejects. */
  function Get(accessToken: Option<string>, q: Option<string>, reply: Fetched<Json>): (h: Handled)
    ensures !Truthy(accessToken) ==> h == Handled(None, ErrorResponse(401, "Unauthorized"))
    ensures Truthy(accessToken) && !Truthy(q) ==> h == Handled(None, ErrorResponse(400, "Query parameter required"))
    ensures h.upstream.Some? <==> Truthy(accessToken) && Truthy(q)
    ensures h.upstream.Some? ==> h.upstream.value == ApiRequest(SearchEndpoint(q.value), accessToken.value)
    ensures h.upstream.Some? && ApiResult(reply).Resolved? ==> h.response == JsonResponse(200, ApiResult(reply).value)
    ensures h.upstream.Some? && ApiResult(reply).Rejected? ==> h.response == ErrorResponse(500, "Search failed")
  {
    if !Truthy(accessToken) then Handled(None, ErrorResponse(401, "Unauthorized"))
    else if !Truthy(q) then Handled(None, ErrorResponse(400, "Query parameter required"))
    else
      var call := ApiRequest(SearchEndpoint(q.value), accessToken.value);
      match ApiResult(reply)
      case Resolved(results) => Handled(Some(call), JsonResponse(200, results))
      case Rejected(_) => Handled(Some(call), ErrorResponse(500, "Search failed"))
  }

  /** The search results reach the browser exactly as the provider sent
      them, and only an ok reply does. */
  lemma PassThrough(token: string, q: string, statusText: string, body: Json)
    requires token != "" && q != ""
    ensures Get(Some(token), Some(q), Response(true, statusText, Some(body))).response == JsonResponse(200, body)
    ensures Get(Some(token), Some(q), Response(false, statusText, Some(body))).response.status == 500
  {
  }
}
