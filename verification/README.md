# Spotify stats dashboard: a Dafny model of its login, session and request logic

The dashboard signs a user in with the OAuth 2.0 authorization-code flow
(RFC 6749) against the provider's accounts service. It keeps the tokens it
receives in two cookies. It calls the provider's web API with a bearer token
(RFC 6750) to show top tracks, recently played tracks and search results.

This project models that logic and proves its properties:

- **Requests to the provider** (`lib/spotify.ts`):
  - the authorization redirect URL;
  - the code-exchange and refresh requests, authenticated with HTTP Basic
    (section 2 of RFC 7617);
  - the bearer-authorised API helper.

  The encodings these requests rely on are modelled in full, each with a
  decoder and a round-trip proof:
  - the `application/x-www-form-urlencoded` serializer and parser
    (section 5 of the WHATWG URL Standard), plus `encodeURIComponent`
    (section 19.2.6 of ECMA-262);
  - base64 (section 4 of RFC 4648);
  - UTF-8.
- **The session store** (`lib/auth.ts`): a class over the request's cookie
  jar, which is a map from cookie name to value and options.
- **The OAuth callback and the search proxy**: the case analysis of each
  route, the requests it sends and the response it gives. The callback also
  writes the session.
- **The recently-played page**:
  - the `m:ss` duration formatter, with a reader that reads its output back;
  - the relative played-at labels;
  - the page's redirects around its two API calls.
- **The track list**:
  - popularity tiers, the popularity bar and the rank column;
  - a `Player` class holding `playingTrackId` and the audio elements. Each
    element records the track it was created for; the element itself does
    not, so this is bookkeeping for the proof. The `handlePlayPause` and
    `ended` transitions keep the invariant that at most one element plays,
    and that it is the marked track's.
- **The time-range selector**: which button is active, and the URL a
  choice navigates to. `URLSearchParams.set` is modelled as a class method
  with a loop, proved against a specification function.

`getAuthUrl` reads only constants and the configuration. It is a Dafny
function, so repeated calls with the same configuration return the same
string.

The network, `fetch` and `response.json()` become inputs:

- `Fetched` is a failed fetch, or a response with its ok flag, status text
  and parsed body (None when the body does not parse, or parses to a value
  of another shape, such as `null`);
- the clock is the elapsed milliseconds given to `FormatPlayedAt`;
- the environment is a `Config` value;
- the browser's `ended` event is a method call.

Modules, one per file: `Common`, `Utf8`, `Base64`, `Form`, `Http`, `Env`,
`Spotify`, `Auth`, `Callback`, `Search`, `Recent`, `TrackList`,
`TimeRange`.

The track list's `formatDuration` (components/interactive-track-list.tsx:25-29)
is the same function as the recently-played page's
(app/recent/page.tsx:35-39). It is modelled once, as `Recent.FormatDuration`.

## Model

| member | source | states |
|---|---|---|
| Env.Asserted | lib/spotify.ts:1-2 | An unset variable read with `!` becomes the text "undefined"; a set one is its value. |
| Env.RedirectUri | lib/spotify.ts:3 | An unset or empty `NEXT_PUBLIC_REDIRECT_URI` falls back to the local callback address; the result is never empty. |
| Spotify.ScopesSplit | lib/spotify.ts:9-15 | There are five scopes, and splitting the scope string at spaces gives exactly them, in order. |
| Common.SplitJoin | lib/spotify.ts:9-15 | Splitting a join at its separator gives the parts back when no part contains the separator. |
| Spotify.GetAuthUrl | lib/spotify.ts:17-26 | The URL is the authorize endpoint, then `?`, then a query that parses back to exactly `client_id`, `response_type=code`, `redirect_uri` and `scope`, in that order. |
| Form.ParseSerialize | lib/spotify.ts:18-25 | Parsing the form serialization of any list gives the list back: names, values, order and repeats. |
| Form.DecodeFormEncode | lib/spotify.ts:18-25 | The parser's decoding undoes the form encoding of any text. |
| Form.SerializeParamShape | lib/spotify.ts:18-25 | A serialized entry is never empty, holds no `&`, does not start with `?`, and parses back to the entry. |
| Utf8.DecodeEncode | lib/spotify.ts:33 | Decoding the UTF-8 bytes of a text gives the text back. |
| Base64.DecodeEncode | lib/spotify.ts:33 | Decoding the base64 text of any bytes gives the bytes back. |
| Base64.EncodeLength | lib/spotify.ts:33 | Base64 text has four characters per started group of three bytes. |
| Spotify.BasicAuthorizationDecodes | lib/spotify.ts:33 | The header is `Basic ` followed by valid base64 whose bytes are the UTF-8 text `client_id:client_secret`. |
| Spotify.AccessTokenRequest | lib/spotify.ts:28-40 | A form-encoded POST to the token endpoint with the Basic header; the body parses to `grant_type=authorization_code`, `code` and `redirect_uri`. |
| Spotify.RefreshTokenRequest | lib/spotify.ts:45-56 | The same POST; the body parses to `grant_type=refresh_token` and `refresh_token` only, with no `redirect_uri`. |
| Spotify.TokenResult | lib/spotify.ts:42 | A token call resolves exactly when a response arrived and its body parsed, whatever the status, and it resolves with the body unchanged. |
| Spotify.TokenResultIgnoresStatus | lib/spotify.ts:58 | Two replies with the same body settle a token call the same way, whatever their status. |
| Spotify.ApiRequest | lib/spotify.ts:62-67 | A GET of the API base followed by the endpoint, with the single header `Bearer <token>` and no body. |
| Spotify.ApiResult | lib/spotify.ts:69-73 | A non-ok status rejects with `Spotify API error: <statusText>`; it resolves exactly on an ok status with a parsed body, and then with that body unchanged. |
| Spotify.OnlyApiChecksStatus | lib/spotify.ts:42-73 | The API helper and the token calls agree on every ok reply; on a non-ok reply only the API helper rejects. |
| Auth.SessionCookieOptions | lib/auth.ts:14-26 | Both cookies are http-only on path `/`, and secure exactly in production. |
| Auth.CookieJar.Value | lib/auth.ts:5-6 | A cookie's value is present exactly when the jar holds that name. |
| Auth.CookieJar.GetSession | lib/auth.ts:3-9 | Each token is present exactly when its cookie is in the jar, and then it is that cookie's value. |
| Auth.NoCookiesNoSession | lib/auth.ts:3-9 | A jar without either cookie has no session. |
| Auth.CookieJar.constructor | lib/auth.ts:4 | A cookie jar starts with the cookies it is given. |
| Auth.CookieJar.SetSession | lib/auth.ts:11-27 | Writes both cookies; a following read returns both tokens. The access cookie lives `expiresIn` seconds and the refresh cookie 2592000 seconds. Earlier values are overwritten and every other cookie is unchanged. |
| Auth.CookieJar.ClearSession | lib/auth.ts:29-33 | Removes exactly the two cookies, so the session reads empty; on a jar without them nothing changes; every other cookie is unchanged. |
| Auth.SessionLifecycle | lib/auth.ts:11-33 | A set followed by a second set reads as the second (last write wins), and two clears leave an empty session, the second clear changing nothing. |
| Callback.Decide | app/api/auth/callback/route.ts:10-26 | Each outcome holds exactly when its condition does: `auth_failed` when the query has an error or no code; `/dashboard` when the exchange resolved with a truthy access token; `token_failed` when it resolved without one; `server_error` when it rejected. |
| Callback.LocationsDistinct | app/api/auth/callback/route.ts:10-26 | The four redirect locations are pairwise different. |
| Callback.Get | app/api/auth/callback/route.ts:5-27 | Sends the code exchange exactly when the query is authorized, and redirects as `Decide` says. It writes the session with the body's tokens and lifetime exactly on the dashboard outcome, and leaves the jar unchanged otherwise. |
| Form.EncodeUriComponentNoDelimiters | app/api/search/route.ts:21 | `encodeURIComponent` output holds no `&`, `=` or `?`. |
| Form.DecodeUriComponent | app/api/search/route.ts:21 | The form parser's decoding reads `encodeURIComponent` output back as the original text. |
| Search.SearchEndpoint | app/api/search/route.ts:20-23 | The endpoint is `/search?` followed by a query that parses to exactly `q` (the search text itself), `type=track,artist,album` and `limit=20`. |
| Search.ParseSearchQuery | app/api/search/route.ts:21 | The three `&`-joined pieces of the search query parse to the three entries, whatever the search text. |
| Search.Get | app/api/search/route.ts:5-30 | No token gives 401 `Unauthorized` before `q` is looked at; a missing or empty `q` gives 400. The provider is called exactly when both are present; results pass through with status 200, and a failed call gives 500 `Search failed`. |
| Search.PassThrough | app/api/search/route.ts:25-29 | An ok reply's body reaches the browser unchanged; the same body with a non-ok status gives 500. |
| Recent.JsRemainder | app/recent/page.tsx:37 | JavaScript's `%`: the remainder lies strictly between minus and plus the divisor, agrees with Dafny's on non-negative numbers, and takes the dividend's sign otherwise. |
| Recent.FormatDuration | app/recent/page.tsx:35-39 | On a non-negative duration, the text ends in a colon followed by exactly two characters. |
| Recent.ReadFormatDuration | app/recent/page.tsx:35-38 | On a non-negative duration the text is minutes without leading zeros, a colon and two digits. It reads back as `ms div 60000` minutes and `(ms mod 60000) div 1000` seconds. The seconds are at most 59, and minutes × 60 + seconds = `ms div 1000`. |
| Recent.ReadIntToString | app/recent/page.tsx:38 | The signed decimal text of any integer reads back as that integer and holds no colon. |
| Recent.ReadNegativeDuration | app/recent/page.tsx:35-38 | On every negative duration the text splits at its one colon into two signed fields. The minutes read back as `ms div 60000` (floored, at most -1). The seconds read back as `-((((-ms) mod 60000) + 999) div 1000)`, from -60 to 0: the remainder keeps the dividend's sign and is floored again. |
| Recent.NegativeDuration | app/recent/page.tsx:36-38 | An example of the above: -1500 ms shows as `-1:-2`. |
| Recent.FormatPlayedAt | app/recent/page.tsx:19-33 | Exactly one bucket applies. Under 60000 ms, a future time included, is just now; then minutes below an hour, hours below a day, days below a week, and otherwise the date. Each count is the floored quotient, within its bucket's range. |
| Recent.PlayedAtText | app/recent/page.tsx:27-32 | `Just now`; or the count, read back, followed by `m ago`, `h ago` or `d ago`; or the locale date. |
| Recent.PlayedAtMonotone | app/recent/page.tsx:22-31 | A longer-ago play is never in an earlier bucket, and within a bucket its count is never smaller. |
| Http.Member | app/recent/page.tsx:100 | A property read is present exactly when the value is an object with that key, and then it is the value of the last member with that key, as `JSON.parse` keeps the last of repeated keys. |
| Recent.RecentPage | app/recent/page.tsx:41-193 | Without a token, redirects to `/` and calls nothing. Otherwise it sends both API calls. It renders exactly when both resolve and the history has an `items` list whose items can be rendered; if either call rejects, it redirects to `/?error=api_failed`. |
| TrackList.GetPopularityLabel | components/interactive-track-list.tsx:53-57 | `Fire` exactly from 80, `Popular` exactly from 60 to 79, `Hidden Gem` exactly below 60, with the tier's icon and colour. |
| TrackList.BarMatchesLabel | components/interactive-track-list.tsx:163-168 | Exactly one bar gradient applies, and it belongs to the tier the label names. |
| TrackList.BarWidth | components/interactive-track-list.tsx:171 | The bar is `0%` wide unless hovered, and then it is the popularity followed by `%`. |
| TrackList.DurationText | components/interactive-track-list.tsx:25-29 | A row's duration uses the same formatter as the recently-played page (lines 150 and 25-29). A non-negative duration reads back as whole minutes and the seconds left over. |
| TrackList.Rank | components/interactive-track-list.tsx:91-99 | The rank shown reads back as `index + 1`; the highlight and the pulsing dot appear exactly for indices 0 to 2. |
| TrackList.PauseCurrent | components/interactive-track-list.tsx:40-45 | Pausing touches only the current (last) element. |
| TrackList.Player.constructor | components/interactive-track-list.tsx:32-34 | The list starts with no track playing or hovered and no audio element. |
| TrackList.Player.HandlePlayPause | components/interactive-track-list.tsx:36-51 | Keeps the invariant. A track without a preview changes nothing. Pressing the playing track pauses it and clears the mark. Pressing another track pauses the current element, appends a playing element on the preview URL and marks the track. |
| TrackList.Player.OnEnded | components/interactive-track-list.tsx:48 | Only the current element can end. Ending stops it and clears the mark, and the invariant holds. |
| TrackList.Player.MouseEnter | components/interactive-track-list.tsx:83 | Hovering a row marks its track as hovered and leaves playback alone. |
| TrackList.Player.MouseLeave | components/interactive-track-list.tsx:84 | Leaving a row clears the hover mark and leaves playback alone. |
| TrackList.OneAudioPlays | components/interactive-track-list.tsx:42-49 | In a valid state at most one audio element plays. It is the current one, and its track is the marked one. |
| TrackList.RowPlaysItsAudio | components/interactive-track-list.tsx:46-70 | A row shows as playing exactly when the current element plays and was created for that row's track. |
| TrackList.OneRowPlays | components/interactive-track-list.tsx:70 | With distinct track ids, at most one row shows as playing. |
| TrackList.PressTwice | components/interactive-track-list.tsx:36-51 | Pressing a track with a preview twice ends silent, unless that track was already playing, in which case it plays again. |
| TimeRange.ButtonVariants | components/time-range-selector.tsx:29-32 | There is one button per range, in order, and a button is `default` exactly when its value is the current range. |
| TimeRange.OneActiveButton | components/time-range-selector.tsx:15-19 | The ranges are `short_term`, `medium_term` and `long_term`. At most one button is active, and one is exactly when the current range is one of them. |
| TimeRange.SearchParams.constructor | components/time-range-selector.tsx:22 | A parameter list built from a query string holds that string's parsed entries. |
| TimeRange.SearchParams.Set | components/time-range-selector.tsx:23 | The one-pass loop leaves the list as the `set` specification says. |
| TimeRange.SetParamOnce | components/time-range-selector.tsx:23 | After `set`, exactly one entry has the name, and it holds the value. |
| TimeRange.SetParamKeepsOthers | components/time-range-selector.tsx:22-23 | `set` keeps every entry of another name, in order. |
| TimeRange.SetParamPosition | components/time-range-selector.tsx:23 | An existing entry is updated where the first one stood; otherwise the entry is appended at the end. |
| TimeRange.SetParamIdempotent | components/time-range-selector.tsx:23 | Setting the same value twice equals setting it once. |
| TimeRange.HandleRangeChange | components/time-range-selector.tsx:21-25 | The URL is the base path, `?`, and a query that parses to the current entries with `range` set to the choice. |
| TimeRange.ChooseTwice | components/time-range-selector.tsx:21-24 | Choosing the range just chosen navigates to the same URL again. |

## Left out

- Network I/O is not modelled. `fetch`, `response.json()` and the provider's
  replies are inputs (`Fetched`); JSON parsing itself is not modelled.
- Next.js internals are not modelled. `cookies()` is the `CookieJar` passed in.
  `NextResponse`, `redirect()` and `router.push` become returned values. Relative
  redirect locations are not resolved against the request URL.
- `Date`, the current time and `toLocaleDateString` are not modelled.
  `FormatPlayedAt` takes the elapsed milliseconds, and the locale date is a
  string passed to `PlayedAtText`.
- Audio playback is not modelled: no media loading, and no `play()` promise,
  which can reject. An element is "playing" from `play()` until `pause()` or
  its `ended` event.
- Player.OnEnded: requires the ended element to be playing, because the browser
  fires `ended` only on a playing element.
- Recent.FormatDuration and Recent.FormatPlayedAt: take integer milliseconds.
  NaN, fractional and non-finite numbers are not modelled, since the provider
  sends integers.
- Json numbers are integers only, for the same reason.
- Utf8.Decode: replaces each ill-formed byte with one U+FFFD, instead of each
  maximal ill-formed subpart as the WHATWG decoder does. The two agree on
  well-formed input, which is all the round trips use.
- Strings are sequences of Unicode scalar values. Lone surrogates, which
  JavaScript strings can hold, cannot be written.
- Spotify.TokenBody: types the fields the callback reads. A body with a truthy
  `access_token` but no `refresh_token` or `expires_in` is outside the model.
  (In the source that would write the cookie value "undefined".) A token
  body that parses to JSON `null` is modelled as an unparsed body (None), so
  the token call rejects in the model. In the source it resolves with `null`,
  and reading `access_token` of `null` then throws inside the `try`. The
  callback's outcome is `server_error` either way.
- Callback.Get: does not model `setSession` throwing inside the `try`, which
  would also give `server_error`. Writing the response cookie jar does not fail.
- Recent.RecentPage: checks what rendering reads from the history list and
  from each item. Other throws while rendering the page body are not modelled,
  and the profile is only checked for being non-null.
- The audio-features chart is not modelled (floating-point averages for a
  charting library). Neither are the other pages and navigation components:
  they compose the modelled pieces with no logic of their own.
- The logout route is not modelled; its handler is not part of this model.
- The login route only redirects to `getAuthUrl()`, which is modelled.
- `refreshAccessToken` is modelled as a request builder only. Nothing in the
  application calls it, so no automatic refresh is modelled.
