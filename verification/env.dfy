/** The process environment the server reads at start-up. */
module Env {
  import opened Common

  /** The variables read, each absent or set: the public client id, the
      client secret, the redirect URI and `NODE_ENV`. */
  datatype Config = Config(
    clientId: Option<string>,
    clientSecret: Option<string>,
    redirectUri: Option<string>,
    nodeEnv: Option<string>)

  const DEFAULT_REDIRECT_URI: string := "http://localhost:3000/api/auth/callback"

  /** A variable read with a non-null assertion: when it is unset the value
      is `undefined`, which string conversion turns into "undefined". */
  function Asserted(v: Option<string>): (s: string)
    ensures v.Some? ==> s == v.value
    ensures v.None? ==> s == "undefined"
  {
    v.GetOr("undefined")
  }

  function ClientId(c: Config): string {
    Asserted(c.clientId)
  }

  function ClientSecret(c: Config): string {
    Asserted(c.clientSecret)
  }

  /** `NEXT_PUBLIC_REDIRECT_URI || default`: an unset or empty variable
      falls back to the local callback address. */
  function RedirectUri(c: Config): (uri: string)
    ensures uri != ""
    ensures c.redirectUri.Some? && c.redirectUri.value != "" ==> uri == c.redirectUri.value
    ensures c.redirectUri == None || c.redirectUri == Some("") ==> uri == DEFAULT_REDIRECT_URI
  {
    match c.redirectUri
    case Some(u) => if u != "" then u else DEFAULT_REDIRECT_URI
    case None => DEFAULT_REDIRECT_URI
  }

  predicate IsProduction(c: Config) {
    c.nodeEnv == Some("production")
  }
}
