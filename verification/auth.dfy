/** The session store: the access and refresh tokens kept in two cookies of
    the request's cookie jar. */
module Auth {
  import opened Common

  const ACCESS_COOKIE: string := "spotify_access_token"
  const REFRESH_COOKIE: string := "spotify_refresh_token"

  /** Thirty days, in seconds: the refresh cookie's lifetime. */
  const REFRESH_MAX_AGE: int := 60 * 60 * 24 * 30

  datatype CookieOptions = CookieOptions(httpOnly: bool, secure: bool, maxAge: int, path: string)

  datatype Cookie = Cookie(value: string, options: CookieOptions)

  /** What `getSession()` returns; None is `undefined`. */
  datatype Session = Session(accessToken: Option<string>, refreshToken: Option<string>)

  /** The options both session cookies are written with. */
  function SessionCookieOptions(production: bool, maxAge: int): (o: CookieOptions)
    ensures o.httpOnly && o.path == "/"
    ensures o.secure == production && o.maxAge == maxAge
  {
    CookieOptions(true, production, maxAge, "/")
  }

  /** The cookie jar of the current request, as a map from cookie name to
      value and options. */
  class CookieJar {
    var cookies: map<string, Cookie>

    constructor (initial: map<string, Cookie>)
      ensures cookies == initial
    {
      cookies := initial;
    }

    function Value(name: string): (v: Option<string>)
      reads this
      ensures v.Some? <==> name in cookies
      ensures v.Some? ==> v.value == cookies[name].value
    {
      if name in cookies then Some(cookies[name].value) else None
    }

    /** `getSession()`: the values of the two session cookies. */
    function GetSession(): (s: Session)
      reads this
      ensures s.accessToken.Some? <==> ACCESS_COOKIE in cookies
      ensures s.refreshToken.Some? <==> REFRESH_COOKIE in cookies
      ensures ACCESS_COOKIE in cookies ==> s.accessToken == Some(cookies[ACCESS_COOKIE].value)
      ensures REFRESH_COOKIE in cookies ==> s.refreshToken == Some(cookies[REFRESH_COOKIE].value)
    {
      Session(Value(ACCESS_COOKIE), Value(REFRESH_COOKIE))
    }

    /** `setSession(accessToken, refreshToken, expiresIn)`: writes both
        cookies, http-only, on path `/`, secure exactly in production; the
        access cookie lives `expiresIn` seconds and the refresh cookie thirty
        days. Whatever the jar held under these two names is replaced, and
        no other cookie changes. */
    method SetSession(accessToken: string, refreshToken: string, expiresIn: int, production: bool)
      modifies this
      ensures cookies == old(cookies)
        [ACCESS_COOKIE := Cookie(accessToken, SessionCookieOptions(production, expiresIn))]
        [REFRESH_COOKIE := Cookie(refreshToken, SessionCookieOptions(production, REFRESH_MAX_AGE))]
      ensures GetSession() == Session(Some(accessToken), Some(refreshToken))
      ensures cookies[ACCESS_COOKIE].options.maxAge == expiresIn
      ensures cookies[REFRESH_COOKIE].options.maxAge == REFRESH_MAX_AGE
      ensures forall n :: n != ACCESS_COOKIE && n != REFRESH_COOKIE ==>
        (n in cookies <==> n in old(cookies)) && (n in cookies ==> cookies[n] == old(cookies)[n])
    {
      cookies := cookies[ACCESS_COOKIE := Cookie(accessToken, SessionCookieOptions(production, expiresIn))];
      cookies := cookies[REFRESH_COOKIE := Cookie(refreshToken, SessionCookieOptions(production, REFRESH_MAX_AGE))];
    }

    /** `clearSession()`: deletes both cookies, whether or not they exist.
        Afterwards the session is empty, other cookies are untouched, and a
        jar without a session is left exactly as it was. */
    method ClearSession()
      modifies this
      ensures cookies == old(cookies) - {ACCESS_COOKIE, REFRESH_COOKIE}
      ensures GetSession() == Session(None, None)
      ensures ACCESS_COOKIE !in old(cookies) && REFRESH_COOKIE !in old(cookies) ==> cookies == old(cookies)
      ensures forall n :: n != ACCESS_COOKIE && n != REFRESH_COOKIE ==>
        (n in cookies <==> n in old(cookies)) && (n in cookies ==> cookies[n] == old(cookies)[n])
    {
      cookies := cookies - {ACCESS_COOKIE};
      cookies := cookies - {REFRESH_COOKIE};
    }
  }

  /** A jar holding neither session cookie has no session. */
  lemma NoCookiesNoSession(jar: CookieJar)
    requires ACCESS_COOKIE !in jar.cookies && REFRESH_COOKIE !in jar.cookies
    ensures jar.GetSession() == Session(None, None)
  {
  }

  /** A client of the store: set, read, set again, clear, clear again. */
  method SessionLifecycle(jar: CookieJar, a1: string, r1: string, a2: string, r2: string, production: bool)
    modifies jar
    ensures jar.GetSession() == Session(None, None)
  {
    jar.SetSession(a1, r1, 3600, production);
    assert jar.GetSession() == Session(Some(a1), Some(r1));
    jar.SetSession(a2, r2, 60, production);
    assert jar.GetSession() == Session(Some(a2), Some(r2));
    assert jar.cookies[REFRESH_COOKIE].options.maxAge == 2592000;
    jar.ClearSession();
    var once := jar.cookies;
    jar.ClearSession();
    assert jar.cookies == once;
  }
}
