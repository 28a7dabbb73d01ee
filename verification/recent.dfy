/** The recently-played page: track durations as `m:ss`, play times as
    relative labels, and the page's redirects around its two provider
    calls. The track list shows durations with the same formatter. */
module Recent {
  import opened Common
  import opened Http
  import opened Spotify

  // ---------------------------------------------------------------------
  // formatDuration

  /** The `%` of JavaScript on integers: the remainder takes the sign of
      the dividend (Dafny's `%` is never negative). */
  function JsRemainder(a: int, d: int): (r: int)
    requires d > 0
    ensures -d < r < d
    ensures a >= 0 ==> r == a % d
    ensures a < 0 ==> r <= 0 && r == -((-a) % d)
  {
    if a >= 0 then a % d else -((-a) % d)
  }

  /** `s.padStart(2, "0")`: a one-character text gets a leading `0`. */
  function PadStart2(s: string): (p: string)
    requires |s| > 0
    ensures |s| >= 2 ==> p == s
    ensures |s| == 1 ==> p == "0" + s
  {
    if |s| >= 2 then s else "0" + s
  }

  /** `formatDuration(ms)`: whole minutes (floored), a colon, and the whole
      seconds of the JavaScript remainder, left-padded to two characters.
      On a non-negative duration the seconds field is exactly two digits. */
  function FormatDuration(ms: int): (s: string)
    ensures ms >= 0 ==> |s| >= 4 && s[|s| - 3] == ':'
  {
    var minutes := ms / 60000;
    var seconds := JsRemainder(ms, 60000) / 1000;
    var m := IntToString(minutes);
    var sec := PadStart2(IntToString(seconds));
    if ms >= 0 then
      TwoDigits(seconds);
      assert |sec| == 2 && |m| >= 1;
      assert (m + ":" + sec)[|m + ":" + sec| - 3] == ':';
      m + ":" + sec
    else
      m + ":" + sec
  }

  lemma TwoDigits(n: nat)
    requires n < 100
    ensures |PadStart2(NatToString(n))| == 2
    ensures forall i :: 0 <= i < 2 ==> IsDigit(PadStart2(NatToString(n))[i])
    ensures ParseNat(PadStart2(NatToString(n))) == n
  {
    var s := NatToString(n);
    ParseNatToString(n);
    if n >= 10 {
      assert |NatToString(n / 10)| == 1;
    } else {
      assert ("0" + s)[..1] == "0";
      assert ParseNat("0") == 0;
    }
  }

  /** Reads an `m:ss` clock back: a decimal numeral without leading zeros,
      a colon, exactly two digits. */
  function ReadClock(s: string): Option<(nat, nat)> {
    var parts := Split(s, ':');
    if |parts| == 2 && |parts[0]| > 0 && |parts[1]| == 2
       && (forall i :: 0 <= i < |parts[0]| ==> IsDigit(parts[0][i]))
       && (|parts[0]| > 1 ==> parts[0][0] != '0')
       && (forall i :: 0 <= i < 2 ==> IsDigit(parts[1][i]))
    then
      Some((ParseNat(parts[0]), ParseNat(parts[1])))
    else None
  }

  /** On a non-negative duration the clock reads back as whole minutes and
      the whole seconds left over, which are at most 59; together they are
      the whole seconds of the duration. */
  lemma ReadFormatDuration(ms: int)
    requires ms >= 0
    ensures ReadClock(FormatDuration(ms)) == Some((ms / 60000, (ms % 60000) / 1000))
    ensures var (m, sec) := ReadClock(FormatDuration(ms)).value;
      sec <= 59 && m * 60 + sec == ms / 1000
  {
    var minutes: nat := ms / 60000;
    var seconds: nat := (ms % 60000) / 1000;
    var m := NatToString(minutes);
    var sec := PadStart2(NatToString(seconds));
    TwoDigits(seconds);
    ParseNatToString(minutes);
    assert FormatDuration(ms) == Join([m, sec], ":");
    assert ':' !in m && ':' !in sec by {
      assert forall i :: 0 <= i < |m| ==> IsDigit(m[i]);
      assert forall i :: 0 <= i < |sec| ==> IsDigit(sec[i]);
    }
    SplitJoin([m, sec], ':');
    assert ms == minutes * 60000 + ms % 60000;
  }

  /** Reads a decimal numeral with an optional leading `-`, as
      `IntToString` writes one (leading zeros are accepted). */
  function ReadInt(s: string): Option<int> {
    if |s| > 1 && s[0] == '-' && forall i :: 1 <= i < |s| ==> IsDigit(s[i]) then
      Some(-(ParseNat(s[1..]) as int))
    else if |s| > 0 && forall i :: 0 <= i < |s| ==> IsDigit(s[i]) then
      Some(ParseNat(s))
    else None
  }

  lemma ReadIntToString(i: int)
    ensures ReadInt(IntToString(i)) == Some(i)
    ensures ':' !in IntToString(i)
  {
    var s := IntToString(i);
    if i < 0 {
      ParseNatToString(-i);
      assert s[1..] == NatToString(-i);
      assert forall k :: 1 <= k < |s| ==> IsDigit(s[k]) by {
        forall k | 1 <= k < |s| ensures IsDigit(s[k]) {
          assert s[k] == s[1..][k - 1];
        }
      }
    } else {
      ParseNatToString(i);
    }
  }

  /** The seconds field of a negative duration: from `-60` to `0`. */
  lemma ReadSecondsField(sec: int)
    requires -60 <= sec <= 0
    ensures ReadInt(PadStart2(IntToString(sec))) == Some(sec)
    ensures ':' !in PadStart2(IntToString(sec))
  {
    ReadIntToString(sec);
    if sec == 0 {
      assert PadStart2(IntToString(sec)) == "00";
      assert ParseNat("00") == ParseNat("0") * 10;
      assert ParseNat("0") == ParseNat("") * 10;
    } else {
      assert |NatToString(-sec)| >= 1;
    }
  }

  /** On a negative duration both fields carry a sign: the minutes are
      floored (at most -1), but the seconds come from the remainder with
      the dividend's sign and are floored again, so they lie between -60
      and 0 and do not add up with the minutes. */
  lemma ReadNegativeDuration(ms: int)
    requires ms < 0
    ensures var fields := Split(FormatDuration(ms), ':');
      && |fields| == 2
      && ReadInt(fields[0]) == Some(ms / 60000)
      && ReadInt(fields[1]) == Some(-(((-ms) % 60000 + 999) / 1000))
    ensures ms / 60000 <= -1 && -60 <= -(((-ms) % 60000 + 999) / 1000) <= 0
  {
    var r := JsRemainder(ms, 60000);
    var x := (-ms) % 60000;
    assert r == -x;
    var seconds := r / 1000;
    assert seconds == -((x + 999) / 1000) by {
      var q := (x + 999) / 1000;
      assert q * 1000 <= x + 999 < q * 1000 + 1000;
      assert -q * 1000 <= -x < -q * 1000 + 1000;
    }
    var m := IntToString(ms / 60000);
    var sec := PadStart2(IntToString(seconds));
    ReadIntToString(ms / 60000);
    ReadSecondsField(seconds);
    assert FormatDuration(ms) == Join([m, sec], ":");
    SplitJoin([m, sec], ':');
  }

  /** A negative duration shows JavaScript's arithmetic: the minutes are
      floored, but the remainder keeps the dividend's sign, so -1.5 seconds
      reads as minus one minute and minus two seconds. */
  lemma NegativeDuration()
    ensures FormatDuration(-1500) == "-1:-2"
  {
    assert JsRemainder(-1500, 60000) == -1500;
    assert IntToString(-1) == "-1" && IntToString(-2) == "-2";
  }

  // ---------------------------------------------------------------------
  // formatPlayedAt

  /** The label a play time gets, given how many milliseconds ago it was;
      `OnDate` stands for the month-and-day date shown for a week or more. */
  datatype PlayedAt = JustNow | MinutesAgo(minutes: nat) | HoursAgo(hours: nat) | DaysAgo(days: nat) | OnDate

  /** `formatPlayedAt`, with `now - date` as `diffMs`: the floored minutes,
      hours and days are tested in that order. A time in the future counts
      as just now. */
  function FormatPlayedAt(diffMs: int): (l: PlayedAt)
    ensures l == JustNow <==> diffMs < 60000
    ensures l.MinutesAgo? <==> 60000 <= diffMs < 3600000
    ensures l.HoursAgo? <==> 3600000 <= diffMs < 86400000
    ensures l.DaysAgo? <==> 86400000 <= diffMs < 604800000
    ensures l == OnDate <==> 604800000 <= diffMs
    ensures l.MinutesAgo? ==> 1 <= l.minutes < 60 && l.minutes * 60000 <= diffMs < (l.minutes + 1) * 60000
    ensures l.HoursAgo? ==> 1 <= l.hours < 24 && l.hours * 3600000 <= diffMs < (l.hours + 1) * 3600000
    ensures l.DaysAgo? ==> 1 <= l.days < 7 && l.days * 86400000 <= diffMs < (l.days + 1) * 86400000
  {
    var diffMins := diffMs / 60000;
    var diffHours := diffMs / 3600000;
    var diffDays := diffMs / 86400000;
    if diffMins < 1 then JustNow
    else if diffMins < 60 then MinutesAgo(diffMins)
    else if diffHours < 24 then HoursAgo(diffHours)
    else if diffDays < 7 then DaysAgo(diffDays)
    else OnDate
  }

  /** The text shown for a label; `date` is the locale date of the play. */
  function PlayedAtText(l: PlayedAt, date: string): (t: string)
    ensures l == JustNow ==> t == "Just now"
    ensures l.MinutesAgo? ==>
      && |t| > 5 && t[|t| - 5..] == "m ago"
      && (forall i :: 0 <= i < |t| - 5 ==> IsDigit(t[i])) && ParseNat(t[..|t| - 5]) == l.minutes
    ensures l.HoursAgo? ==>
      && |t| > 5 && t[|t| - 5..] == "h ago"
      && (forall i :: 0 <= i < |t| - 5 ==> IsDigit(t[i])) && ParseNat(t[..|t| - 5]) == l.hours
    ensures l.DaysAgo? ==>
      && |t| > 5 && t[|t| - 5..] == "d ago"
      && (forall i :: 0 <= i < |t| - 5 ==> IsDigit(t[i])) && ParseNat(t[..|t| - 5]) == l.days
    ensures l == OnDate ==> t == date
  {
    match l
    case JustNow => "Just now"
    case MinutesAgo(n) => AgoText(n, 'm')
    case HoursAgo(n) => AgoText(n, 'h')
    case DaysAgo(n) => AgoText(n, 'd')
    case OnDate => date
  }

  function AgoText(n: nat, unit: char): (t: string)
    ensures |t| > 5 && t[|t| - 5..] == [unit] + " ago"
    ensures forall i :: 0 <= i < |t| - 5 ==> IsDigit(t[i])
    ensures ParseNat(t[..|t| - 5]) == n
  {
    var t := NatToString(n) + [unit] + " ago";
    assert t[..|t| - 5] == NatToString(n);
    ParseNatToString(n);
    t
  }

  /** The order of the buckets, most recent first. */
  function Recency(l: PlayedAt): nat {
    match l
    case JustNow => 0
    case MinutesAgo(_) => 1
    case HoursAgo(_) => 2
    case DaysAgo(_) => 3
    case OnDate => 4
  }

  /** Labels never go backwards: a longer-ago play is in the same bucket or
      a later one, and within a bucket its count is not smaller. */
  lemma PlayedAtMonotone(d1: int, d2: int)
    requires d1 <= d2
    ensures Recency(FormatPlayedAt(d1)) <= Recency(FormatPlayedAt(d2))
    ensures FormatPlayedAt(d1).MinutesAgo? && FormatPlayedAt(d2).MinutesAgo? ==>
      FormatPlayedAt(d1).minutes <= FormatPlayedAt(d2).minutes
    ensures FormatPlayedAt(d1).HoursAgo? && FormatPlayedAt(d2).HoursAgo? ==>
      FormatPlayedAt(d1).hours <= FormatPlayedAt(d2).hours
    ensures FormatPlayedAt(d1).DaysAgo? && FormatPlayedAt(d2).DaysAgo? ==>
      FormatPlayedAt(d1).days <= FormatPlayedAt(d2).days
  {
  }

  // ---------------------------------------------------------------------
  // The page

  const RECENTLY_PLAYED_ENDPOINT: string := "/me/player/recently-played?limit=50"
  const PROFILE_ENDPOINT: string := "/me"

  datatype Page = RedirectTo(location: string) | Render(items: seq<Json>, profile: Json)

  /** Rendering one played item reads `track.album`, maps `track.artists`
      to their names and indexes `track.name`; each throws on a missing or
      null value. */
  predicate ItemRenders(item: Json) {
    var track := Member(item, "track");
    && !Nullish(Some(item))
    && !Nullish(track)
    && !Nullish(Member(track.value, "album"))
    && !Nullish(Member(track.value, "name"))
    && match Member(track.value, "artists")
       case Some(JArray(artists)) => forall a :: a in artists ==> !a.JNull?
       case _ => false
  }

  /** The page as it settles, with the provider calls it made. Without a
      token it redirects home before calling anything. Otherwise it makes
      both calls at once; if either rejects, or the history cannot be
      rendered (it has no `items` list, or an item lacks the fields read),
      it redirects with `api_failed`. */
  function RecentPage(accessToken: Option<string>, recentReply: Fetched<Json>, profileReply: Fetched<Json>)
    : (r: (seq<Request>, Page))
    ensures !Truthy(accessToken) ==> r == ([], RedirectTo("/"))
    ensures Truthy(accessToken) ==>
      r.0 == [ApiRequest(RECENTLY_PLAYED_ENDPOINT, accessToken.value), ApiRequest(PROFILE_ENDPOINT, accessToken.value)]
    ensures Truthy(accessToken) && (ApiResult(recentReply).Rejected? || ApiResult(profileReply).Rejected?) ==>
      r.1 == RedirectTo("/?error=api_failed")
    ensures r.1.Render? <==>
      && Truthy(accessToken)
      && ApiResult(recentReply).Resolved? && ApiResult(profileReply).Resolved?
      && !ApiResult(profileReply).value.JNull?
      && Member(ApiResult(recentReply).value, "items").Some?
      && Member(ApiResult(recentReply).value, "items").value.JArray?
      && forall item :: item in Member(ApiResult(recentReply).value, "items").value.items ==> ItemRenders(item)
    ensures r.1.Render? ==>
      && r.1.items == Member(ApiResult(recentReply).value, "items").value.items
      && r.1.profile == ApiResult(profileReply).value
    ensures !r.1.Render? ==> r.1 == RedirectTo("/") || r.1 == RedirectTo("/?error=api_failed")
  {
    if !Truthy(accessToken) then ([], RedirectTo("/"))
    else
      var calls := [ApiRequest(RECENTLY_PLAYED_ENDPOINT, accessToken.value), ApiRequest(PROFILE_ENDPOINT, accessToken.value)];
      match (ApiResult(recentReply), ApiResult(profileReply))
      case (Resolved(recent), Resolved(profile)) =>
        var items := Member(recent, "items");
        if !profile.JNull? && items.Some? && items.value.JArray?
           && forall item :: item in items.value.items ==> ItemRenders(item)
        then (calls, Render(items.value.items, profile))
        else (calls, RedirectTo("/?error=api_failed"))
      case _ => (calls, RedirectTo("/?error=api_failed"))
  }
}
