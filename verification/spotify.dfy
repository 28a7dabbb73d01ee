/** The client of the provider's authorization server and resource API:
    the authorization redirect URL (section 4.1.1 of RFC 6749), the
    authorization-code and refresh-token requests (sections 4.1.3 and 6 of
    RFC 6749) authenticated with HTTP Basic (section 2 of RFC 7617), and
    bearer-authorised API calls (section 2.1 of RFC 6750). */
module Spotify {
  import opened Common
  import opened Env
  import opened Http
  import opened Form
  import Base64
  import Utf8

  const SPOTIFY_AUTH_URL: string := "https://accounts.spotify.com/authorize"
  const SPOTIFY_TOKEN_URL: string := "https://accounts.spotify.com/api/token"
  const SPOTIFY_API_BASE: string := "https://api.spotify.com/v1"

  /** The five read-only scopes requested at login, in order. */
  const SCOPE_LIST: seq<string> := [
    "user-read-private",
    "user-read-email",
    "user-top-read",
    "user-read-recently-played",
    "user-follow-read"
  ]

  /** The scope parameter: the scopes joined by single spaces (section 3.3
      of RFC 6749). */
  const SCOPES: string := Join(SCOPE_LIST, " ")

  /** Splitting the scope parameter at spaces gives the five scopes back. */
  lemma ScopesSplit()
    ensures |SCOPE_LIST| == 5
    ensures Split(SCOPES, ' ') == SCOPE_LIST
  {
    SplitJoin(SCOPE_LIST, ' ');
  }

  function AuthParams(c: Config): seq<Param> {
    [ Param("client_id", ClientId(c)),
      Param("response_type", "code"),
      Param("redirect_uri", RedirectUri(c)),
      Param("scope", SCOPES) ]
  }

  /** `getAuthUrl()`: the authorization endpoint, `?`, and a query that
      reads back as exactly the four parameters, in this order. */
  function GetAuthUrl(c: Config): (url: string)
    ensures |url| > |SPOTIFY_AUTH_URL|
    ensures url[..|SPOTIFY_AUTH_URL| + 1] == SPOTIFY_AUTH_URL + "?"
    ensures Parse(url[|SPOTIFY_AUTH_URL| + 1..]) ==
      [ Param("client_id", ClientId(c)),
        Param("response_type", "code"),
        Param("redirect_uri", RedirectUri(c)),
        Param("scope", SCOPES) ]
  {
    var query := Serialize(AuthParams(c));
    var url := SPOTIFY_AUTH_URL + "?" + query;
    assert url[|SPOTIFY_AUTH_URL| + 1..] == query;
    ParseSerialize(AuthParams(c));
    url
  }

  /** The `Authorization` header of both token requests. */
  function BasicAuthorization(c: Config): string {
    "Basic " + Base64.Encode(Utf8.Encode(ClientId(c) + ":" + ClientSecret(c)))
  }

  /** The header reads back: after `Basic ` comes valid base64 whose bytes
      are the UTF-8 text `client_id:client_secret`. */
  lemma BasicAuthorizationDecodes(c: Config)
    ensures var h := BasicAuthorization(c);
      && |h| >= 6 && h[..6] == "Basic "
      && Base64.Decode(h[6..]).Some?
      && Utf8.Decode(Base64.Decode(h[6..]).value) == ClientId(c) + ":" + ClientSecret(c)
  {
    var credentials := ClientId(c) + ":" + ClientSecret(c);
    var h := BasicAuthorization(c);
    assert h[6..] == Base64.Encode(Utf8.Encode(credentials));
    Base64.DecodeEncode(Utf8.Encode(credentials));
    Utf8.DecodeEncode(credentials);
  }

  function TokenRequest(c: Config, grant: seq<Param>): Request {
    Request(
      "POST",
      SPOTIFY_TOKEN_URL,
      [ Header("Content-Type", "application/x-www-form-urlencoded"),
        Header("Authorization", BasicAuthorization(c)) ],
      Serialize(grant))
  }

  /** The request `getAccessToken(code)` sends: a form-encoded POST to the
      token endpoint whose body reads back as the authorization-code grant. */
  function AccessTokenRequest(c: Config, code: string): (req: Request)
    ensures req.verb == "POST" && req.url == SPOTIFY_TOKEN_URL
    ensures req.headers == [ Header("Content-Type", "application/x-www-form-urlencoded"),
                             Header("Authorization", BasicAuthorization(c)) ]
    ensures Parse(req.body) ==
      [ Param("grant_type", "authorization_code"),
        Param("code", code),
        Param("redirect_uri", RedirectUri(c)) ]
  {
    var grant := [ Param("grant_type", "authorization_code"),
                   Param("code", code),
                   Param("redirect_uri", RedirectUri(c)) ];
    ParseSerialize(grant);
    TokenRequest(c, grant)
  }

  /** The request `refreshAccessToken(refreshToken)` sends: the same POST
      with the refresh-token grant, which carries no redirect URI. */
  function RefreshTokenRequest(c: Config, refreshToken: string): (req: Request)
    ensures req.verb == "POST" && req.url == SPOTIFY_TOKEN_URL
    ensures req.headers == [ Header("Content-Type", "application/x-www-form-urlencoded"),
                             Header("Authorization", BasicAuthorization(c)) ]
    ensures Parse(req.body) ==
      [ Param("grant_type", "refresh_token"),
        Param("refresh_token", refreshToken) ]
  {
    var grant := [ Param("grant_type", "refresh_token"),
                   Param("refresh_token", refreshToken) ];
    ParseSerialize(grant);
    TokenRequest(c, grant)
  }

  /** The fields of a token-endpoint reply that the callback reads. A reply
      without `access_token` (an error reply, say) has `accessToken` None. */
  datatype TokenBody = TokenBody(accessToken: Option<string>, refreshToken: string, expiresIn: int)

  /** What both token functions resolve with: `response.json()`, whatever
      the status; only a failed `fetch` or an unparsable body rejects. */
  function TokenResult<B>(response: Fetched<B>): (r: Outcome<B>)
    ensures r.Resolved? <==> response.Response? && response.body.Some?
    ensures r.Resolved? ==> r.value == response.body.value
  {
    match response
    case FetchFailed => Rejected(NetworkError)
    case Response(_, _, body) =>
      match body
      case Some(b) => Resolved(b)
      case None => Rejected(InvalidJson)
  }

  /** The token functions never look at the status: two replies with the
      same body settle the same way. */
  lemma TokenResultIgnoresStatus<B>(ok1: bool, text1: string, ok2: bool, text2: string, body: Option<B>)
    ensures TokenResult(Response(ok1, text1, body)) == TokenResult(Response(ok2, text2, body))
  {
  }

  /** The request `spotifyApi(endpoint, accessToken)` sends. */
  function ApiRequest(endpoint: string, accessToken: string): (req: Request)
    ensures req.verb == "GET" && req.body == ""
    ensures req.url == SPOTIFY_API_BASE + endpoint
    ensures req.headers == [Header("Authorization", "Bearer " + accessToken)]
  {
    Request("GET", SPOTIFY_API_BASE + endpoint, [Header("Authorization", "Bearer " + accessToken)], "")
  }

  /** How `spotifyApi` settles: a non-ok status rejects with the status text
      before the body is read; an ok status resolves with the parsed body,
      unchanged. */
  function ApiResult(response: Fetched<Json>): (r: Outcome<Json>)
    ensures response.Response? && !response.ok ==>
      r == Rejected(ApiError("Spotify API error: " + response.statusText))
    ensures r.Resolved? <==> response.Response? && response.ok && response.body.Some?
    ensures r.Resolved? ==> r.value == response.body.value
  {
    match response
    case FetchFailed => Rejected(NetworkError)
    case Response(ok, statusText, body) =>
      if !ok then Rejected(ApiError("Spotify API error: " + statusText))
      else
        match body
        case Some(b) => Resolved(b)
        case None => Rejected(InvalidJson)
  }

  /** The API helper and the token functions differ exactly in the status
      check: they agree on every ok reply, and on a non-ok reply only the
      API helper rejects. */
  lemma OnlyApiChecksStatus(response: Fetched<Json>)
    ensures response.FetchFailed? || response.ok ==> ApiResult(response) == TokenResult(response)
    ensures response.Response? && !response.ok ==>
      ApiResult(response).Rejected? && (response.body.Some? ==> TokenResult(response).Resolved?)
  {
  }
}
