/** The metadata accessors of `YouTubeAPI` — `details`, `title`,
    `duration`, `thumbnail` and `track` (SHUKLAMUSIC/platforms/Youtube.py:197-330).
    Each resolves the reference, returns its "invalid" value when it does not
    normalise, and otherwise reads the info record that the engine returns
    for the normalised URL; that record is a parameter here. */
module Metadata {
  import opened Optional
  import opened Text
  import opened VideoIds
  import opened Durations

  /** The fields of the engine's info dictionary these accessors read;
      `None` stands for a missing key or a `None` value. */
  datatype Info = Info(
    title: Option<string>,
    duration: Option<nat>,
    thumbnail: Option<string>,
    id: Option<string>,
    webpageUrl: Option<string>)

  /** The five-tuple of `details`. */
  datatype Details = Details(
    title: Option<string>,
    durationText: Option<string>,
    seconds: nat,
    thumbnail: Option<string>,
    id: Option<string>)

  /** The dictionary `track` returns beside the identifier. */
  datatype Track = Track(
    title: Option<string>,
    link: string,
    vidid: Option<string>,
    durationMin: Option<string>,
    thumb: string)

  /** Python's `x or default` on an optional string: a missing or empty value
      gives the default. */
  function OrElse(x: Option<string>, default: string): (r: string)
    ensures x.Some? && x.value != "" ==> r == x.value
    ensures (x.None? || x.value == "") ==> r == default
  {
    if x.Some? && x.value != "" then x.value else default
  }

  /** The URL every accessor hands to the engine, or `None` for an invalid reference. */
  function Target(link: string, videoid: bool): Option<string> {
    NormalizeWatchUrl(ResolveLink(link, videoid))
  }

  /** `details`: `(None, None, 0, None, None)` for an invalid reference. */
  function GetDetails(link: string, videoid: bool, info: Info): (r: Details)
    ensures Target(link, videoid).None? ==> r == Details(None, None, 0, None, None)
    ensures Target(link, videoid).Some? ==>
              && r.title == info.title && r.id == info.id
              && r.seconds == info.duration.GetOr(0)
              && (r.durationText.None? <==> r.seconds == 0)
              && (r.durationText.Some? ==> ParseClock(r.durationText.value) == Some(r.seconds))
              && r.thumbnail.Some?
              && (info.thumbnail.Some? && info.thumbnail.value != "" ==> r.thumbnail == info.thumbnail)
              && ((info.thumbnail.None? || info.thumbnail.value == "") ==> r.thumbnail == Some(""))
  {
    match Target(link, videoid)
    case None => Details(None, None, 0, None, None)
    case Some(_) =>
      var (text, seconds) := DetailsDuration(info.duration);
      Details(info.title, text, seconds, Some(OrElse(info.thumbnail, "")), info.id)
  }

  /** `title`: `None` for an invalid reference, else the engine's title. */
  function GetTitle(link: string, videoid: bool, info: Info): (r: Option<string>)
    ensures Target(link, videoid).None? ==> r.None?
    ensures Target(link, videoid).Some? ==> r == info.title
  {
    if Target(link, videoid).None? then None else info.title
  }

  /** `duration`: `None` for an invalid reference or an absent duration. */
  function GetDuration(link: string, videoid: bool, info: Info): (r: Option<string>)
    ensures r.Some? <==> Target(link, videoid).Some? && info.duration.Some?
    ensures r.Some? ==> ParseClock(r.value) == info.duration
  {
    if Target(link, videoid).None? then None else AccessorDuration(info.duration)
  }

  /** `thumbnail`: `None` for an invalid reference, else the thumbnail or `""`. */
  function GetThumbnail(link: string, videoid: bool, info: Info): (r: Option<string>)
    ensures r.None? <==> Target(link, videoid).None?
    ensures r.Some? && info.thumbnail.Some? && info.thumbnail.value != "" ==> r == info.thumbnail
    ensures r.Some? && (info.thumbnail.None? || info.thumbnail.value == "") ==> r == Some("")
  {
    if Target(link, videoid).None? then None else Some(OrElse(info.thumbnail, ""))
  }

  /** `track`: `(None, None)` for an invalid reference; the link is the
      engine's page URL, or the normalised URL when it has none. */
  function GetTrack(link: string, videoid: bool, info: Info): (r: (Option<Track>, Option<string>))
    ensures Target(link, videoid).None? ==> r == (None, None)
    ensures Target(link, videoid).Some? ==>
              && r.0.Some? && r.1 == info.id && r.0.value.vidid == info.id
              && r.0.value.title == info.title
              && (r.0.value.durationMin.None? <==> info.duration.GetOr(0) == 0)
              && (r.0.value.durationMin.Some? ==> ParseClock(r.0.value.durationMin.value) == info.duration)
              && r.0.value.link == OrElse(info.webpageUrl, Target(link, videoid).value)
  {
    match Target(link, videoid)
    case None => (None, None)
    case Some(norm) =>
      var t := Track(info.title, OrElse(info.webpageUrl, norm), info.id,
                     TrackDuration(info.duration), OrElse(info.thumbnail, ""));
      (Some(t), info.id)
  }

  /** `title` and `thumbnail` answer what `details` reports in the same
      positions, for valid and invalid references alike; `duration` does
      too, except for a zero duration, which `details` reports as `None`
      and `duration` as `0:00`. */
  lemma AccessorsAgreeWithDetails(link: string, videoid: bool, info: Info)
    ensures GetTitle(link, videoid, info) == GetDetails(link, videoid, info).title
    ensures GetThumbnail(link, videoid, info) == GetDetails(link, videoid, info).thumbnail
    ensures info.duration != Some(0) ==>
              GetDuration(link, videoid, info) == GetDetails(link, videoid, info).durationText
    ensures Target(link, videoid).Some? && info.duration == Some(0) ==>
              GetDuration(link, videoid, info) == Some("0:00") && GetDetails(link, videoid, info).durationText.None?
  {
    DurationVariantsAgree(info.duration);
  }

  /** `track` and `details` report the same title, identifier, thumbnail and
      duration text for the same info record. */
  lemma TrackAgreesWithDetails(link: string, videoid: bool, info: Info)
    requires Target(link, videoid).Some?
    ensures GetTrack(link, videoid, info).0.value.title == GetDetails(link, videoid, info).title
    ensures GetTrack(link, videoid, info).1 == GetDetails(link, videoid, info).id
    ensures Some(GetTrack(link, videoid, info).0.value.thumb) == GetDetails(link, videoid, info).thumbnail
    ensures GetTrack(link, videoid, info).0.value.durationMin == GetDetails(link, videoid, info).durationText
    ensures Some(GetTrack(link, videoid, info).0.value.thumb) == GetThumbnail(link, videoid, info)
  {
    DurationVariantsAgree(info.duration);
  }

  /** The link `track` reports is the page URL or a normalised reference. */
  lemma TrackLinkIsResolved(link: string, videoid: bool, info: Info)
    requires Target(link, videoid).Some?
    requires info.webpageUrl.None? || info.webpageUrl.value == ""
    ensures var l := GetTrack(link, videoid, info).0.value.link;
            IsCanonical(l) || IsWatchLike(l)
  {
  }
}
