/** The OAuth callback endpoint: `GET` with the `code` and `error` query
    parameters the provider redirected with. */
module Callback {
  import opened Common
  import opened Env
  import opened Http
  import opened Spotify
  import Auth

  /** The four places the callback redirects to. */
  datatype Redirect = Dashboard | AuthFailed | TokenFailed | ServerError

  function Location(r: Redirect): string {
    match r
    case Dashboard => "/dashboard"
    case AuthFailed => "/?error=auth_failed"
    case TokenFailed => "/?error=token_failed"
    case ServerError => "/?error=server_error"
  }

  /** The four locations are different, so the location names the
      outcome. */
  lemma LocationsDistinct(r1: Redirect, r2: Redirect)
    requires Location(r1) == Location(r2)
    ensures r1 == r2
  {
  }

  /** The query lets the exchange go ahead: no error and a code. */
  predicate Authorized(error: Option<string>, code: Option<string>) {
    !Truthy(error) && Truthy(code)
  }

  /** The redirect `GET` chooses, given the two query parameters and how the
      code exchange settled. */
  function Decide(error: Option<string>, code: Option<string>, exchange: Outcome<TokenBody>): (r: Redirect)
    ensures r == AuthFailed <==> !Authorized(error, code)
    ensures r == Dashboard <==>
      Authorized(error, code) && exchange.Resolved? && Truthy(exchange.value.accessToken)
    ensures r == TokenFailed <==>
      Authorized(error, code) && exchange.Resolved? && !Truthy(exchange.value.accessToken)
    ensures r == ServerError <==> Authorized(error, code) && exchange.Rejected?
  {
    if Truthy(error) || !Truthy(code) then AuthFailed
    else
      match exchange
      case Rejected(_) => ServerError
      case Resolved(data) => if Truthy(data.accessToken) then Dashboard else TokenFailed
  }

  /** `GET`: on an authorized query it sends the code-exchange request (the
      provider's reply is `reply`); it writes the session exactly when it
      redirects to the dashboard, and otherwise leaves the jar as it was.
      Returns the exchange request it sent, if any, and the redirect. */
  method Get(jar: Auth.CookieJar, config: Config, error: Option<string>, code: Option<string>,
             reply: Fetched<TokenBody>)
    returns (exchange: Option<Request>, location: string)
    modifies jar
    ensures exchange.Some? <==> Authorized(error, code)
    ensures exchange.Some? ==> exchange.value == AccessTokenRequest(config, code.value)
    ensures location == Location(Decide(error, code, TokenResult(reply)))
    ensures Decide(error, code, TokenResult(reply)) == Dashboard ==>
      var data := TokenResult(reply).value;
      jar.cookies == old(jar.cookies)
        [Auth.ACCESS_COOKIE := Auth.Cookie(data.accessToken.value, Auth.SessionCookieOptions(IsProduction(config), data.expiresIn))]
        [Auth.REFRESH_COOKIE := Auth.Cookie(data.refreshToken, Auth.SessionCookieOptions(IsProduction(config), Auth.REFRESH_MAX_AGE))]
    ensures Decide(error, code, TokenResult(reply)) == Dashboard ==>
      jar.GetSession() == Auth.Session(TokenResult(reply).value.accessToken, Some(TokenResult(reply).value.refreshToken))
    ensures Decide(error, code, TokenResult(reply)) != Dashboard ==> jar.cookies == old(jar.cookies)
  {
    if Truthy(error) || !Truthy(code) {
      return None, Location(AuthFailed);
    }
    exchange := Some(AccessTokenRequest(config, code.value));
    var data := TokenResult(reply);
    if data.Rejected? {
      return exchange, Location(ServerError);
    }
    if Truthy(data.value.accessToken) {
      jar.SetSession(data.value.accessToken.value, data.value.refreshToken, data.value.expiresIn, IsProduction(config));
      return exchange, Location(Dashboard);
    }
    return exchange, Location(TokenFailed);
  }
}
