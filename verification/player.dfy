/** The small decisions around playing and editing a channel in
    renderer.js: the placeholder-URL test, the stream type guessed from the
    URL (`detectStreamType`), replacing a channel's URL (`saveNewUrl`) and
    the favourite toggle (`toggleFavorite`). */
module Player {
  import opened Wrappers
  import opened Text
  import opened Playlist

  // ----- placeholder URLs -------------------------------------------------

  /** A URL the player refuses to open: a reminder text, an example host, a
      comment line, or anything that is not `http`. */
  predicate IsPlaceholderUrl(url: string) {
    || Contains(url, "TODO")
    || Contains(url, "ejemplo.com")
    || StartsWith(url, "#")
    || Contains(url, "placeholder")
    || !StartsWith(url, "http")
  }

  /** The `#` test never decides alone: such a URL does not start with
      `http` either. For an `http` URL only the three markers matter. */
  lemma PlaceholderMarkers(url: string)
    ensures IsPlaceholderUrl(url) <==>
              !StartsWith(url, "http")
              || Contains(url, "TODO") || Contains(url, "ejemplo.com") || Contains(url, "placeholder")
  {
    if StartsWith(url, "#") {
      assert url[0] == '#' by { assert url[..1][0] == url[0]; }
      if |url| >= 4 {
        assert url[..4][0] == url[0];
      }
    }
  }

  // ----- stream type ------------------------------------------------------

  const Hls := "application/x-mpegURL"
  const Dash := "application/dash+xml"
  const Mpeg2Ts := "video/MP2T"
  const Mp4 := "video/mp4"

  /** The markers in the order they are tried, with the type each gives. */
  const StreamMarkers: seq<(string, string)> :=
    [(".m3u8", Hls), (".mpd", Dash), (".ts", Mpeg2Ts), (".mp4", Mp4)]

  /** The type of the first marker of `markers` that `lower` contains, HLS
      when none does. */
  function FirstMarkerType(lower: string, markers: seq<(string, string)>): (t: string)
    ensures (forall i :: 0 <= i < |markers| ==> !Contains(lower, markers[i].0)) ==> t == Hls
    ensures forall i ::
              (&& 0 <= i < |markers| && Contains(lower, markers[i].0)
               && forall j :: 0 <= j < i ==> !Contains(lower, markers[j].0))
              ==> t == markers[i].1
  {
    if |markers| == 0 then Hls
    else if Contains(lower, markers[0].0) then markers[0].1
    else
      var t := FirstMarkerType(lower, markers[1..]);
      assert forall i :: 1 <= i < |markers| ==> markers[i] == markers[1..][i - 1];
      t
  }

  /** `detectStreamType(url)`: the first of `.m3u8`, `.mpd`, `.ts`, `.mp4`
      found in the lower-cased URL decides; HLS otherwise. */
  function DetectStreamType(url: string): (t: string)
    ensures t == FirstMarkerType(ToLower(url), StreamMarkers)
    ensures t in {Hls, Dash, Mpeg2Ts, Mp4}
  {
    var lower := ToLower(url);
    assert && StreamMarkers[0] == (".m3u8", Hls) && StreamMarkers[1] == (".mpd", Dash)
           && StreamMarkers[2] == (".ts", Mpeg2Ts) && StreamMarkers[3] == (".mp4", Mp4);
    if Contains(lower, ".m3u8") then Hls
    else if Contains(lower, ".mpd") then Dash
    else if Contains(lower, ".ts") then Mpeg2Ts
    else if Contains(lower, ".mp4") then Mp4
    else Hls
  }

  /** The guess ignores the case of the URL. */
  lemma StreamTypeIgnoresCase(url: string)
    ensures DetectStreamType(ToLower(url)) == DetectStreamType(url)
  {
    ToLowerIdempotent(url);
  }

  // ----- saving a new URL -------------------------------------------------

  datatype SaveError = MissingUrl | UnsupportedScheme | ChannelNotFound

  /** `channels.find(ch => ch.id === channelId)`, as an index. */
  function FindById(cs: seq<Channel>, id: string): (r: Option<nat>)
    ensures r.None? <==> forall i :: 0 <= i < |cs| ==> cs[i].id != id
    ensures r.Some? ==> r.value < |cs| && cs[r.value].id == id
                        && forall i :: 0 <= i < r.value ==> cs[i].id != id
  {
    if |cs| == 0 then None
    else if cs[0].id == id then Some(0)
    else
      match FindById(cs[1..], id)
      case None => None
      case Some(k) => Some(k + 1)
  }

  /** A URL scheme the player accepts. */
  predicate AcceptedScheme(url: string) {
    StartsWith(url, "http") || StartsWith(url, "rtmp")
  }

  /** `saveNewUrl(channelId)` with the trimmed text of the URL field
      (`None` when the field is not in the page): the first channel with that
      id gets the new URL; nothing else changes. */
  function SaveNewUrl(cs: seq<Channel>, channelId: string, field: Option<string>)
    : (r: Result<seq<Channel>, SaveError>)
    ensures var url := Trim(field.GetOr(""));
            && (url == "" <==> r == Failure(MissingUrl))
            && (r == Failure(UnsupportedScheme) <==> url != "" && !AcceptedScheme(url))
            && (r == Failure(ChannelNotFound) <==>
                  url != "" && AcceptedScheme(url) && forall i :: 0 <= i < |cs| ==> cs[i].id != channelId)
    ensures r.Success? ==>
              var url := Trim(field.GetOr(""));
              && |r.value| == |cs|
              && exists k :: && 0 <= k < |cs| && cs[k].id == channelId
                             && (forall i :: 0 <= i < k ==> cs[i].id != channelId)
                             && r.value[k] == cs[k].(url := url)
                             && forall i :: 0 <= i < |cs| && i != k ==> r.value[i] == cs[i]
  {
    var url := Trim(field.GetOr(""));
    if url == "" then Failure(MissingUrl)
    else if !AcceptedScheme(url) then Failure(UnsupportedScheme)
    else
      match FindById(cs, channelId)
      case None => Failure(ChannelNotFound)
      case Some(k) => Success(cs[k := cs[k].(url := url)])
  }

  /** Saving the same URL again changes nothing more. */
  lemma SaveNewUrlIdempotent(cs: seq<Channel>, channelId: string, field: Option<string>)
    requires SaveNewUrl(cs, channelId, field).Success?
    ensures SaveNewUrl(SaveNewUrl(cs, channelId, field).value, channelId, field)
            == SaveNewUrl(cs, channelId, field)
  {
    var url := Trim(field.GetOr(""));
    var k := FindById(cs, channelId).value;
    var cs' := cs[k := cs[k].(url := url)];
    assert SaveNewUrl(cs, channelId, field) == Success(cs');
    FindBySameIds(cs, cs', channelId);
    assert cs'[k := cs'[k].(url := url)] == cs';
  }

  /** Where only URLs differ, `find` by id lands on the same index. */
  lemma {:induction false} FindBySameIds(cs: seq<Channel>, cs': seq<Channel>, id: string)
    requires |cs| == |cs'| && forall i :: 0 <= i < |cs| ==> cs'[i].id == cs[i].id
    ensures FindById(cs', id) == FindById(cs, id)
  {
    if |cs| > 0 && cs[0].id != id {
      FindBySameIds(cs[1..], cs'[1..], id);
    }
  }

  // ----- favourites -------------------------------------------------------

  /** `toggleFavorite()` on the set of favourite ids, for the channel being
      played (`None` when there is none). */
  function ToggleFavorite(current: Option<Channel>, favorites: set<string>): (r: set<string>)
    ensures current.None? ==> r == favorites
    ensures current.Some? ==> (current.value.id in r <==> current.value.id !in favorites)
    ensures forall id :: (current.None? || id != current.value.id) ==> (id in r <==> id in favorites)
  {
    match current
    case None => favorites
    case Some(c) => if c.id in favorites then favorites - {c.id} else favorites + {c.id}
  }

  /** Toggling twice restores the set. */
  lemma ToggleTwice(current: Option<Channel>, favorites: set<string>)
    ensures ToggleFavorite(current, ToggleFavorite(current, favorites)) == favorites
  {
  }
}
