/** The interactive track list: popularity tiers, the rank column, the
    hover highlight, the duration column, and the play/pause state machine
    of the preview player. */
module TrackList {
  import opened Common
  import Recent

  /** The fields of a track the list's logic reads. */
  datatype Track = Track(id: string, popularity: int, durationMs: int, previewUrl: Option<string>)

  // ---------------------------------------------------------------------
  // Popularity

  datatype Tier = Fire | Popular | HiddenGem

  /** What `getPopularityLabel` returns; the icon is named by its tier. */
  datatype PopularityInfo = PopularityInfo(text: string, icon: Tier, color: string)

  /** `getPopularityLabel(popularity)`: the thresholds 80 and 60, tested from
      the top. */
  function GetPopularityLabel(popularity: int): (info: PopularityInfo)
    ensures info.text == "Fire" <==> popularity >= 80
    ensures info.text == "Popular" <==> 60 <= popularity < 80
    ensures info.text == "Hidden Gem" <==> popularity < 60
    ensures info.text == TierLabel(info.icon) && info.color == TierColor(info.icon)
  {
    if popularity >= 80 then PopularityInfo("Fire", Fire, "text-orange-500")
    else if popularity >= 60 then PopularityInfo("Popular", Popular, "text-blue-500")
    else PopularityInfo("Hidden Gem", HiddenGem, "text-pink-500")
  }

  function TierLabel(t: Tier): string {
    match t
    case Fire => "Fire"
    case Popular => "Popular"
    case HiddenGem => "Hidden Gem"
  }

  function TierColor(t: Tier): string {
    match t
    case Fire => "text-orange-500"
    case Popular => "text-blue-500"
    case HiddenGem => "text-pink-500"
  }

  /** The gradient of the popularity bar for each tier. */
  function TierGradient(t: Tier): string {
    match t
    case Fire => "bg-gradient-to-r from-orange-500 to-red-500"
    case Popular => "bg-gradient-to-r from-blue-500 to-cyan-500"
    case HiddenGem => "bg-gradient-to-r from-pink-500 to-purple-500"
  }

  /** The gradient classes the bar's `cn(...)` keeps: each of the three
      conditions is tested on its own and a false one contributes nothing. */
  function BarGradients(popularity: int): seq<string> {
    (if popularity >= 80 then [TierGradient(Fire)] else [])
    + (if popularity >= 60 && popularity < 80 then [TierGradient(Popular)] else [])
    + (if popularity < 60 then [TierGradient(HiddenGem)] else [])
  }

  /** Exactly one gradient applies, and it is the one of the tier the label
      names: the bar's three conditions and the label's if-chain agree. */
  lemma BarMatchesLabel(popularity: int)
    ensures |BarGradients(popularity)| == 1
    ensures BarGradients(popularity)[0] == TierGradient(GetPopularityLabel(popularity).icon)
  {
  }

  /** The bar's width: the popularity as a percentage while the row is
      hovered, zero otherwise. */
  function BarWidth(hovered: bool, popularity: int): (w: string)
    ensures !hovered ==> w == "0%"
    ensures hovered ==> |w| > 1 && w[|w| - 1] == '%' && w[..|w| - 1] == IntToString(popularity)
  {
    if hovered then IntToString(popularity) + "%" else "0%"
  }

  // ---------------------------------------------------------------------
  // Duration column

  /** A row's duration, formatted as on the recently-played page; on a
      non-negative duration it reads back as whole minutes and seconds. */
  function DurationText(track: Track): (s: string)
    ensures track.durationMs >= 0 ==>
      Recent.ReadClock(s) == Some((track.durationMs / 60000, (track.durationMs % 60000) / 1000))
  {
    if track.durationMs >= 0 then
      Recent.ReadFormatDuration(track.durationMs);
      Recent.FormatDuration(track.durationMs)
    else
      Recent.FormatDuration(track.durationMs)
  }

  // ---------------------------------------------------------------------
  // Rank column

  /** The rank cell of the row at `index`: its number, whether it is in the
      primary colour, and whether the pulsing dot is shown. */
  datatype RankCell = RankCell(rank: string, highlighted: bool, pulse: bool)

  function Rank(index: nat): (c: RankCell)
    ensures forall i :: 0 <= i < |c.rank| ==> IsDigit(c.rank[i])
    ensures ParseNat(c.rank) == index + 1
    ensures c.highlighted <==> index < 3
    ensures c.pulse <==> index < 3
  {
    ParseNatToString(index + 1);
    RankCell(NatToString(index + 1), index < 3, index < 3)
  }

  // ---------------------------------------------------------------------
  // Preview player

  /** A preview audio element: the track it was created for, its source
      and whether it is playing. */
  datatype Audio = Audio(trackId: string, src: string, playing: bool)

  /** `pause()` on the current element, if there is one. */
  function PauseCurrent(audios: seq<Audio>): (r: seq<Audio>)
    ensures |r| == |audios|
    ensures |audios| > 0 ==> r == audios[..|audios| - 1] + [audios[|audios| - 1].(playing := false)]
  {
    if |audios| == 0 then audios
    else audios[..|audios| - 1] + [audios[|audios| - 1].(playing := false)]
  }

  /** The list's client state: `playingTrackId`, `hoveredTrackId`, and
      every audio element the list has created, the last being
      `audioRef.current`. */
  class Player {
    var playingTrackId: Option<string>
    var hoveredTrackId: Option<string>
    var audios: seq<Audio>

    /** Only the current element may play, a track is marked playing
        exactly while it does, and the marked track is the one the current
        element was created for. */
    predicate Valid()
      reads this
    {
      && (forall i :: 0 <= i < |audios| - 1 ==> !audios[i].playing)
      && (playingTrackId.Some? <==> |audios| > 0 && audios[|audios| - 1].playing)
      && (playingTrackId.Some? ==> audios[|audios| - 1].trackId == playingTrackId.value)
    }

    constructor ()
      ensures Valid()
      ensures playingTrackId == None && hoveredTrackId == None && audios == []
    {
      playingTrackId := None;
      hoveredTrackId := None;
      audios := [];
    }

    /** Whether the row of `track` shows as playing. */
    predicate IsPlaying(track: Track)
      reads this
    {
      playingTrackId == Some(track.id)
    }

    /** `handlePlayPause(track)`. A track without a preview does nothing.
        Pressing the playing track pauses it and clears the mark. Pressing
        any other track pauses the current element, starts a new one on the
        track's preview and marks the track. */
    method HandlePlayPause(track: Track)
      requires Valid()
      modifies this
      ensures Valid()
      ensures hoveredTrackId == old(hoveredTrackId)
      ensures !Truthy(track.previewUrl) ==>
        playingTrackId == old(playingTrackId) && audios == old(audios)
      ensures Truthy(track.previewUrl) && old(playingTrackId) == Some(track.id) ==>
        playingTrackId == None && audios == PauseCurrent(old(audios))
      ensures Truthy(track.previewUrl) && old(playingTrackId) != Some(track.id) ==>
        && playingTrackId == Some(track.id)
        && audios == PauseCurrent(old(audios)) + [Audio(track.id, track.previewUrl.value, true)]
    {
      if !Truthy(track.previewUrl) {
        return;
      }
      if playingTrackId == Some(track.id) {
        audios := PauseCurrent(audios);
        playingTrackId := None;
      } else {
        audios := PauseCurrent(audios);
        audios := audios + [Audio(track.id, track.previewUrl.value, true)];
        playingTrackId := Some(track.id);
      }
    }

    /** The `ended` event of element `k`, which the browser fires only on a
        playing element: it stops, and no track is marked. */
    method OnEnded(k: nat)
      requires Valid()
      requires k < |audios| && audios[k].playing
      modifies this
      ensures Valid()
      ensures k == |audios| - 1
      ensures playingTrackId == None && hoveredTrackId == old(hoveredTrackId)
      ensures audios == old(audios)[k := old(audios)[k].(playing := false)]
    {
      audios := audios[k := audios[k].(playing := false)];
      playingTrackId := None;
    }

    method MouseEnter(track: Track)
      modifies this
      ensures hoveredTrackId == Some(track.id)
      ensures playingTrackId == old(playingTrackId) && audios == old(audios)
    {
      hoveredTrackId := Some(track.id);
    }

    method MouseLeave()
      modifies this
      ensures hoveredTrackId == None
      ensures playingTrackId == old(playingTrackId) && audios == old(audios)
    {
      hoveredTrackId := None;
    }
  }

  /** At most one audio element plays at any time. */
  lemma OneAudioPlays(p: Player, i: int, j: int)
    requires p.Valid()
    requires 0 <= i < |p.audios| && 0 <= j < |p.audios|
    requires p.audios[i].playing && p.audios[j].playing
    ensures i == j == |p.audios| - 1
    ensures p.playingTrackId == Some(p.audios[i].trackId)
  {
  }

  /** A row shows as playing exactly when the current element plays and was
      created for that row's track. */
  lemma RowPlaysItsAudio(p: Player, track: Track)
    requires p.Valid()
    ensures p.IsPlaying(track) <==>
      |p.audios| > 0 && p.audios[|p.audios| - 1].playing && p.audios[|p.audios| - 1].trackId == track.id
  {
  }

  /** When the track ids are distinct, as the list's keys require, at most
      one row shows as playing. */
  lemma OneRowPlays(p: Player, tracks: seq<Track>, i: int, j: int)
    requires forall a, b :: 0 <= a < b < |tracks| ==> tracks[a].id != tracks[b].id
    requires 0 <= i < |tracks| && 0 <= j < |tracks|
    requires p.IsPlaying(tracks[i]) && p.IsPlaying(tracks[j])
    ensures i == j
  {
  }

  /** Pressing a track with a preview twice toggles it twice: a track that
      was playing is playing again (on a new element), and otherwise the list
      ends silent, with no track marked and no element playing. */
  method PressTwice(p: Player, track: Track)
    requires p.Valid() && Truthy(track.previewUrl)
    modifies p
    ensures p.Valid()
    ensures old(p.playingTrackId) == Some(track.id) ==> p.playingTrackId == Some(track.id)
    ensures old(p.playingTrackId) != Some(track.id) ==>
      p.playingTrackId == None && forall i :: 0 <= i < |p.audios| ==> !p.audios[i].playing
  {
    p.HandlePlayPause(track);
    p.HandlePlayPause(track);
  }
}
