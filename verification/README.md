# YouTube reference resolution in Dafny

This project models the platform layer of a Telegram music bot, SHUKLAMUSIC/platforms/Youtube.py. That layer turns what a user typed into a YouTube video or playlist, and decides how the media is fetched. The model covers the following:

- **Identifier extraction** (`YTB_REGEX_ID`, `extract_video_id`). The verbose, case-insensitive regular expression is modelled as scanners that try its alternatives and lazy repetitions in the order Python's backtracking engine does. `re.search` is the leftmost match. The `urlparse`/`parse_qs` fallback reads the first `v` value.
- **Normalisation** (`normalize_watch_url`). Three routes lead to a result: a bare 11-character identifier, an extractable one, or a reference that already looks like a watch link.
- **Playlist detection** (`is_playlist_url`). It uses CPython 3.12's `urlsplit` rules, including the bracket checks on the network location (`_check_bracketed_netloc`, as patched for CVE-2025-0938), and falls back to a substring test when parsing raises.
- **Durations.** `details`, `duration` and `track` each render the `H:MM:SS` / `M:SS` text, and each treats absent or zero durations differently.
- **Metadata accessors** `details`, `title`, `duration`, `thumbnail` and `track`. They read an info record that is a parameter.
- **The quality picker** `formats`, and the size sum `parse_size` of `check_file_size`.
- **Playlist listing.** This covers `shell_cmd`'s choice between standard output and standard error, and the non-blank line split of `playlist`.
- **The acquisition decision** of `download` and the stream lookup of `video`. The engine's answers, the `is_on_off(1)` switch and the set of existing files are inputs.
- **The message scan** of `url`. It looks for the first URL entity, or a caption text link, in a message or the message it replies to.

Every external effect is a parameter:

- the `yt_dlp` info records and the media identifier and extension they report;
- the decoded output streams of the `yt-dlp` subprocesses;
- the feature switch;
- the set of files under `downloads/`.

Strings are `seq<char>`, and Python's `divmod` on durations is `/` and `%` on `nat`.

Modules, one file each:

- `Optional`: `Option`, `Result`.
- `Text`: `strip`, `in`, ASCII `lower`, `split`/`join`, list-comprehension filter.
- `Decimal`: `f"{n:d}"`, `f"{n:02d}"` and their inverse.
- `Addresses`: the bracketed-host check of `urlsplit`, with the IPv4, IPv6 and IPvFuture address texts it accepts.
- `Urls`: `urlparse(...).query`, `parse_qs`, `is_playlist_url`.
- `VideoIds`: the regex scanners, `extract_video_id`, `normalize_watch_url`.
- `Shapes`: which link shapes extract, the canonical fixed point, wrapping.
- `Durations`, `Metadata`, `Formats`, `Playlists`, `Acquisition`, `Messages`.

Where the two identifier extractions differ (see Findings), the rest of the model uses the corrected `VideoIds.ExtractVideoId`, and so does `VideoIds.NormalizeWatchUrl`. `VideoIds.NormalizeWatchUrlAsWritten` keeps the as-written extraction.

## Model

| member | source | states |
|---|---|---|
| Urls.UrlQueryOfPlain | SHUKLAMUSIC/platforms/Youtube.py:60-61 | a URL that starts with a visible character and has no tab, CR, LF or bracket passes the modelled checks of `urlparse`, and its query is the text between the first `?` and the first `#` |
| Urls.NetlocDecides | SHUKLAMUSIC/platforms/Youtube.py:91 | for `scheme://n` followed by a path, query or fragment, `urlparse` raises exactly when the network location `n` fails the bracket checks (both directions) |
| Urls.BracketedHostDecides | SHUKLAMUSIC/platforms/Youtube.py:91 | for `scheme://[h]…`, `urlparse` raises exactly when `h` is neither an IPv6 address nor an IPvFuture literal |
| Urls.BracketedNameIsNotPlaylist | SHUKLAMUSIC/platforms/Youtube.py:88-95 | `https://[x]/watch?list=PL1` makes `urlparse` raise, and the substring fallback then answers false |
| Addresses.HostInBrackets | SHUKLAMUSIC/platforms/Youtube.py:91 | a network location `[h]` or `[h]:port` passes the bracket check exactly when its host does |
| Addresses.TextAfterBracket | SHUKLAMUSIC/platforms/Youtube.py:91 | text after the `]` that does not start a `:port` is refused, whatever the host |
| Addresses.TextBeforeBracket | SHUKLAMUSIC/platforms/Youtube.py:91 | text before the `[` is refused |
| Addresses.LoopbackIsHost | SHUKLAMUSIC/platforms/Youtube.py:91 | `::1` is accepted as a bracketed host |
| Addresses.NameIsNotHost | SHUKLAMUSIC/platforms/Youtube.py:91 | a name such as `x` is refused as a bracketed host |
| Addresses.IPv4IsNotHost | SHUKLAMUSIC/platforms/Youtube.py:91 | an IPv4 address such as `1.2.3.4` is refused in brackets |
| Addresses.FutureIsHost | SHUKLAMUSIC/platforms/Youtube.py:91 | an IPvFuture literal such as `v1.x` is accepted in brackets |
| Urls.QueryAfterMark | SHUKLAMUSIC/platforms/Youtube.py:60-61 | when no `#` occurs, the query is everything after the first `?` |
| Urls.FieldPairOf | SHUKLAMUSIC/platforms/Youtube.py:61 | `parse_qs` splits a field `name=value` at its first `=` back into name and non-empty value |
| Urls.QueryValuesIffParam | SHUKLAMUSIC/platforms/Youtube.py:92-93 | `parse_qs` has a value for a name exactly when some `&`-field of the query reads `name=` followed by at least one character (both directions, against a character-level definition) |
| Urls.IsPlaylistUrl | SHUKLAMUSIC/platforms/Youtube.py:88-95 | true iff the query has a non-empty `list` value; when `urlparse` raises, true iff the text contains `playlist?list=`; `None` reads as `""` |
| Urls.EmptyIsNotPlaylist | SHUKLAMUSIC/platforms/Youtube.py:91 | `None` and `""` are not playlists |
| VideoIds.Search | SHUKLAMUSIC/platforms/Youtube.py:54 | a reported match is an 11-character group of the class; reporting nothing means no start position matches |
| VideoIds.SearchFirst | SHUKLAMUSIC/platforms/Youtube.py:54 | `re.search` returns the match at the leftmost position where the pattern matches |
| VideoIds.ExtractVideoIdAsWritten | SHUKLAMUSIC/platforms/Youtube.py:47-68 | as written: empty input gives `None`; a result has 11 characters, each in the class as Unicode case folding widens it |
| VideoIds.ExtractVideoId | SHUKLAMUSIC/platforms/Youtube.py:47-68 | empty input gives `None`; every result is exactly 11 characters of `[A-Za-z0-9_-]` |
| VideoIds.FoldedLettersEscapeAlphabet | SHUKLAMUSIC/platforms/Youtube.py:36-45 | `youtu.be/` followed by eleven dotless i's extracts a non-identifier as written, and nothing once folding is ASCII-only |
| VideoIds.BracketedNameHasNoId | SHUKLAMUSIC/platforms/Youtube.py:58-68 | `http://[x]/?v=abcdefghijk` gives `None`: the pattern does not match, and `urlparse` raises inside the fallback, which the `except` turns into nothing found |
| VideoIds.NoQueryNoFallback | SHUKLAMUSIC/platforms/Youtube.py:58-67 | without a `?` the `parse_qs` fallback finds no identifier |
| VideoIds.BareIdNotExtracted | SHUKLAMUSIC/platforms/Youtube.py:47-68 | `extract_video_id` alone does not accept a bare 11-character identifier |
| VideoIds.NormalizeWatchUrl | SHUKLAMUSIC/platforms/Youtube.py:70-86 | empty gives `None`; a trimmed identifier, or an extracted one, gives the canonical URL; otherwise the trimmed text is returned iff it contains `youtube.com/watch` or `youtu.be/`, else `None` |
| VideoIds.NormalizeWatchUrlAsWritten | SHUKLAMUSIC/platforms/Youtube.py:70-86 | as written, on top of the as-written extraction: the same three routes, with a case-folded identifier also becoming a watch URL |
| VideoIds.DotlessNormalizedAsWritten | SHUKLAMUSIC/platforms/Youtube.py:70-86 | as written, `youtu.be/` and eleven dotless i's normalises to a watch URL that is not canonical |
| VideoIds.DotlessNormalizedCorrected | SHUKLAMUSIC/platforms/Youtube.py:70-86 | corrected, the same reference has no identifier and is returned unchanged as a watch-looking link |
| VideoIds.WatchUrlIsCanonical | SHUKLAMUSIC/platforms/Youtube.py:79 | the canonical URL of an identifier is the watch base followed by exactly that identifier |
| Shapes.ShortLinkExtracts | SHUKLAMUSIC/platforms/Youtube.py:38 | `youtu.be/<id>` after a prefix without `y` extracts `<id>` |
| Shapes.HostLinkExtracts | SHUKLAMUSIC/platforms/Youtube.py:39-42 | `youtube.com/` or `youtube-nocookie.com/` followed by `watch?v=`, `embed/`, `shorts/`, `live/` or `v/` and an identifier extracts that identifier |
| Shapes.CanonicalExtracts | SHUKLAMUSIC/platforms/Youtube.py:79 | the canonical URL extracts back to its identifier |
| Shapes.CanonicalFixedPoint | SHUKLAMUSIC/platforms/Youtube.py:80-82 | normalising a canonical URL returns it unchanged |
| Shapes.NormalizeIdempotent | SHUKLAMUSIC/platforms/Youtube.py:70-86 | normalising a normalised result that `strip` leaves alone returns it unchanged |
| Shapes.PassedThrough | SHUKLAMUSIC/platforms/Youtube.py:76-84 | a normalised result that is not canonical is the trimmed reference itself, which is no bare identifier, has none to extract and looks like a watch link |
| Shapes.WrappingIgnored | SHUKLAMUSIC/platforms/Youtube.py:53 | surrounding blanks and angle brackets change neither the extracted identifier nor the normalised URL |
| Shapes.BareIdNormalizes | SHUKLAMUSIC/platforms/Youtube.py:76-79 | a bare identifier normalises to its canonical URL |
| Shapes.IdFlagIrrelevant | SHUKLAMUSIC/platforms/Youtube.py:198-200 | an identifier reaches the same canonical URL with or without the `videoid` prefixing |
| Shapes.CanonicalIsNotPlaylist | SHUKLAMUSIC/platforms/Youtube.py:88-93 | `is_playlist_url` is false for `https://www.youtube.com/watch?v=<id>` |
| Text.StripWrapped | SHUKLAMUSIC/platforms/Youtube.py:53 | `strip().strip("<>")` removes outer blanks and the angle brackets inside them, and nothing of the core |
| Text.SplitJoin | SHUKLAMUSIC/platforms/Youtube.py:296 | `split` loses nothing: joining the pieces with the separator restores the text |
| Decimal.ParseNatToString | SHUKLAMUSIC/platforms/Youtube.py:220 | reading back `f"{n:d}"` gives `n` |
| Decimal.NatToStringCanonical | SHUKLAMUSIC/platforms/Youtube.py:220 | `f"{n:d}"` has no leading zero, and is `0` exactly for 0 |
| Decimal.CanonicalRoundTrip | SHUKLAMUSIC/platforms/Youtube.py:220 | a digit string without leading zero is `f"{n:d}"` of the number it reads as |
| Decimal.PaddedRoundTrip | SHUKLAMUSIC/platforms/Youtube.py:220 | a two-digit string is `f"{n:02d}"` of the number it reads as |
| Durations.ToClock | SHUKLAMUSIC/platforms/Youtube.py:218-219 | `h*3600 + m*60 + s` is the duration, with `m, s < 60` |
| Durations.ClockRoundTrip | SHUKLAMUSIC/platforms/Youtube.py:220 | the rendered text reads back to the duration, with three fields exactly when it reaches an hour. The reader accepts only a leading field without leading zeros (minutes below 60, or a non-zero hour count) followed by two-digit fields below 60 |
| Durations.ParseClockExact | SHUKLAMUSIC/platforms/Youtube.py:218-220 | every text the reader accepts is exactly the rendering of the duration it reads as, so the reader accepts only `M:SS` and `H:MM:SS` texts the renderer writes |
| Durations.ParseClockInjective | SHUKLAMUSIC/platforms/Youtube.py:218-220 | two accepted texts that read as the same duration are the same text |
| Durations.ClockExamples | SHUKLAMUSIC/platforms/Youtube.py:220 | 45 renders as `0:45`, 125 as `2:05`, 3725 as `1:02:05` |
| Durations.DetailsDuration | SHUKLAMUSIC/platforms/Youtube.py:214-227 | the seconds field is the duration or 0; the text is absent exactly for 0 or absent, and reads back to the seconds |
| Durations.AccessorDuration | SHUKLAMUSIC/platforms/Youtube.py:247-252 | the text is absent only for an absent duration, and reads back to it |
| Durations.TrackDuration | SHUKLAMUSIC/platforms/Youtube.py:312-318 | the text is absent for an absent or zero duration, and reads back to it |
| Durations.DurationVariantsAgree | SHUKLAMUSIC/platforms/Youtube.py:247-252 | `track` and `details` render alike; `duration` differs only in rendering 0 as `0:00` |
| Metadata.GetDetails | SHUKLAMUSIC/platforms/Youtube.py:197-227 | `(None, None, 0, None, None)` for an invalid reference; otherwise the title and id, the seconds, a duration text that reads back to them, and the thumbnail, or `""` when it is absent or empty |
| Metadata.GetDuration | SHUKLAMUSIC/platforms/Youtube.py:239-252 | text present iff the reference is valid and a duration exists; it reads back to that duration |
| Metadata.AccessorsAgreeWithDetails | SHUKLAMUSIC/platforms/Youtube.py:229-262 | `title` and `thumbnail` report what `details` reports at the same positions; `duration` does too, except that a zero duration is `0:00` there and `None` in `details` |
| Metadata.GetTrack | SHUKLAMUSIC/platforms/Youtube.py:302-330 | `(None, None)` for an invalid reference; otherwise a record whose link is the page URL or the normalised URL, with the duration text absent exactly for a zero or absent duration |
| Metadata.TrackAgreesWithDetails | SHUKLAMUSIC/platforms/Youtube.py:302-330 | `track` reports the same title, id, thumbnail and duration text as `details` and `thumbnail` |
| Metadata.TrackLinkIsResolved | SHUKLAMUSIC/platforms/Youtube.py:320 | without a page URL, the track link is canonical or a watch-looking reference |
| Formats.SelectFormats | SHUKLAMUSIC/platforms/Youtube.py:349-369 | the kept entries are exactly the records that are not DASH and have all five keys. They keep their relative order, and each copies its record's five values and carries the normalised URL |
| Formats.PickTrue | SHUKLAMUSIC/platforms/Youtube.py:349-369 | the positions returned are increasing, each holds a set flag, and every set flag's position is among them |
| Formats.PickKept | SHUKLAMUSIC/platforms/Youtube.py:349-369 | the positions returned are increasing and are exactly those of the records to keep |
| Formats.GetFormats | SHUKLAMUSIC/platforms/Youtube.py:333-370 | `([], link)` for an invalid reference; otherwise the normalised URL, and one entry per kept record, in order, each copying its record and carrying that URL |
| Formats.PickedFit | SHUKLAMUSIC/platforms/Youtube.py:349-369 | strictly increasing positions below `n` number at most `n` |
| Formats.ParseSize | SHUKLAMUSIC/platforms/Youtube.py:117-122 | raises exactly when some record's `filesize` key holds a non-integer; otherwise the sum of the integer sizes |
| Formats.ParseSizeConcat | SHUKLAMUSIC/platforms/Youtube.py:117-122 | the total over a concatenation is the sum of the totals, and it fails iff either part fails |
| Formats.SizelessAddNothing | SHUKLAMUSIC/platforms/Youtube.py:120 | records without a `filesize` key contribute 0 |
| Formats.CheckFileSize | SHUKLAMUSIC/platforms/Youtube.py:124-132 | `None` when the engine call failed or no formats exist, else `parse_size` |
| Playlists.ShellOutput | SHUKLAMUSIC/platforms/Youtube.py:145-150 | the result is standard output iff standard error is empty, holds the hidden-videos notice in any case, or equals it; otherwise it is the error text |
| Playlists.NonBlankLines | SHUKLAMUSIC/platforms/Youtube.py:296 | every listed line has a non-blank character and no newline |
| Playlists.Playlist | SHUKLAMUSIC/platforms/Youtube.py:287-299 | a line is in the result iff the link is a playlist and the line is a non-blank line of `shell_cmd`'s result |
| Playlists.LinesRoundTrip | SHUKLAMUSIC/platforms/Youtube.py:296 | when no line is blank, joining the result restores the output |
| Playlists.LinesAreExact | SHUKLAMUSIC/platforms/Youtube.py:296 | a line is listed iff it is a line of the output with a non-blank character |
| Playlists.ErrorTextBecomesIds | SHUKLAMUSIC/platforms/Youtube.py:145-150 | with a real error text, the caller receives the error's lines as identifiers |
| Playlists.ListBaseIsPlaylist | SHUKLAMUSIC/platforms/Youtube.py:288-290 | a plain playlist identifier after the list base is recognised as a playlist |
| Acquisition.FirstLine | SHUKLAMUSIC/platforms/Youtube.py:282 | the first line is the text up to the first newline: it holds no newline, and is the whole text when there is none |
| Acquisition.FetchLocal | SHUKLAMUSIC/platforms/Youtube.py:419-424 | the path is `downloads/<id>.<ext>`; a download is requested iff that file does not exist |
| Acquisition.Download | SHUKLAMUSIC/platforms/Youtube.py:399-518 | `("", True)` for an invalid reference. A bare path is returned exactly in the song modes. The probe runs only in video mode with the switch off, and a non-direct result is its first line. A direct local result is a `downloads/<id>.<ext>` path, downloaded iff absent |
| Acquisition.VideoStream | SHUKLAMUSIC/platforms/Youtube.py:265-284 | status 1 iff the reference is valid and the probe printed something, with its first line; `(0, "Invalid YouTube URL")` for an invalid reference; `(0, err)` for a valid one with no output |
| Acquisition.SongModesFirst | SHUKLAMUSIC/platforms/Youtube.py:485-492 | `songvideo` and `songaudio` return `downloads/<title>.mp4` / `.mp3` whatever the other switches; `songvideo` wins and requests `<format_id>+140` |
| Acquisition.SwitchOnIsLocal | SHUKLAMUSIC/platforms/Youtube.py:493-496 | video mode with the switch on is local and direct, without probing |
| Acquisition.SwitchOffProbes | SHUKLAMUSIC/platforms/Youtube.py:497-514 | with the switch off the probe runs; printed output streams with `direct=False`, none falls back to the local file |
| Acquisition.AudioIsDefault | SHUKLAMUSIC/platforms/Youtube.py:515-517 | with no mode switch the local audio file is returned, direct |
| Acquisition.CacheReuse | SHUKLAMUSIC/platforms/Youtube.py:439-444 | once the returned file exists, the same request downloads nothing and returns the same result |
| Acquisition.ProbeMatchesVideo | SHUKLAMUSIC/platforms/Youtube.py:271-284 | `download`'s probe and `video` agree on success and on the stream URL |
| Messages.FirstOfKind | SHUKLAMUSIC/platforms/Youtube.py:183-184 | the position of the first entity of a kind, with none of that kind before it |
| Messages.ScanMessage | SHUKLAMUSIC/platforms/Youtube.py:182-191 | a message with entities yields the span of its first URL entity; only a message without entities yields its first caption text link |
| Messages.Slice | SHUKLAMUSIC/platforms/Youtube.py:194 | Python slicing clamps to the text, and is the exact slice when the span fits |
| Messages.ScanThread | SHUKLAMUSIC/platforms/Youtube.py:179-194 | how the scan of a message and its reply ends, for either guard: a text link at once, a span the guard accepts or no reply ends it, otherwise the reply's link, span or nothing decides |
| Messages.UrlAsWritten | SHUKLAMUSIC/platforms/Youtube.py:169-194 | as written: a text link is returned at once; the message's own span is used when its offset is non-zero or there is no reply; with offset 0 and a reply, the reply's link or span replaces it and a reply without either keeps it |
| Messages.Url | SHUKLAMUSIC/platforms/Youtube.py:169-194 | the first message that has a URL entity, or a caption text link, decides the result; when neither message has one the result is `None` |
| Messages.FirstMessageWins | SHUKLAMUSIC/platforms/Youtube.py:179-194 | a URL entity in the message itself gives the slice of its own text, whatever the reply holds |
| Messages.CaptionOnlyWithoutEntities | SHUKLAMUSIC/platforms/Youtube.py:182-191 | caption entities are ignored when the message has entities |
| Messages.NothingFound | SHUKLAMUSIC/platforms/Youtube.py:192-193 | when neither message yields anything the result is `None` |
| Messages.GuardsAgreeOtherwise | SHUKLAMUSIC/platforms/Youtube.py:180 | the `if offset:` guard and the intended one differ only for a URL at offset 0 with a reply present |
| Messages.OffsetZeroDefersToReply | SHUKLAMUSIC/platforms/Youtube.py:180 | a URL at offset 0 in the message is overridden by the reply's URL as written, and kept once corrected |

## Left out

- `cookie_txt_file` draws a random file and appends to a log. Its result appears only inside engine options and command lines, which are not modelled.
- `Metadata.GetDetails`, `Metadata.GetDuration`, `Metadata.GetTrack`, `Formats.GetFormats`, `Formats.CheckFileSize`, `Playlists.Playlist`, `Acquisition.VideoStream` and `Acquisition.Download` assume that `cookies/` holds a `.txt` file. Without one, `cookie_txt_file` raises `FileNotFoundError` (SHUKLAMUSIC/platforms/Youtube.py:24-26), and so does every accessor that reaches its engine call. That path is not modelled: the members always return a value.
- The `yt_dlp` calls, `asyncio` subprocesses and `run_in_executor` threads are not modelled. Their results are parameters: info records, decoded output streams, and what a download request would be. Engine exceptions (for example a failed extraction) are not modelled.
- `slider` depends on a network search API and is not part of this model.
- `exists` and the unused escape-sequence regex `self.reg` are not part of this model.
- For `check_file_size`, the subprocess and JSON decoding of `get_format_info` are not modelled. `Formats.CheckFileSize` takes the decoded format list, or `None` for a failed call.
- The command lines passed to `yt-dlp` are not modelled, for example `--playlist-end {limit}`. So `limit` and `user_id` of `playlist` do not appear.
- Byte decoding of process output is not modelled: the streams are given as text, and a `UnicodeDecodeError` is not modelled.
- `Urls.UrlQuery`:
  - models the `ValueError`s of `urlsplit` for brackets in the network location: an unbalanced bracket, and a bracketed host that `_check_bracketed_netloc` refuses;
  - does not model `_checknetloc`, which raises when NFKC normalisation of a non-ASCII network location produces one of `/?#@:`;
  - does not percent-decode field names or values, or turn `+` into a space, as `parse_qsl` does.
- `Urls.IsPlaylistUrl` compares field names literally. So `https://www.youtube.com/watch?%6Cist=PL1`, a playlist in Python because the name decodes to `list`, is not one in the model.
- `VideoIds.ExtractVideoId` and `VideoIds.ExtractVideoIdAsWritten` also read the `v` field by its literal name. So `youtube.com/watch?%76=abcdefghijk`, where Python's fallback returns `abcdefghijk`, gives `None` in the model.
- `Urls.UrlQueryOfPlain` therefore covers a URL such as `http://a＃b/` (a fullwidth `#`), on which `urlparse` raises; the lemma promises only the modelled checks.
- `VideoIds.NormalizeWatchUrl` uses the corrected extraction, as do `details`, `title`, `duration`, `thumbnail`, `track`, `formats`, `video` and `download`, which all call it. The as-written behaviour on case-folded identifiers is `VideoIds.NormalizeWatchUrlAsWritten`.
- Durations are natural numbers. Float durations and the `except Exception` branch of `details` that they could reach are not modelled.
- `Formats.ParseSize`: a float `filesize` is not modelled. A value is `None`, a string or an integer, and only integers add.
- `Formats.SelectFormats`: `str()` cannot raise for the modelled values, so the `except Exception: continue` branch is not modelled.
- `Text.LowerAscii` replaces `str.lower()`. That is enough for the substrings `dash` and `unavailable videos are hidden`: no non-ASCII character lowers into a run of ASCII letters that could complete them.
- `Shapes.NormalizeIdempotent` requires that `strip` leave the normalised result alone. Normalisation is not idempotent in general: `< youtu.be/` normalises to ` youtu.be/`, which normalises to `youtu.be/`.
- `Shapes.ShortLinkExtracts` and `Shapes.HostLinkExtracts` need a prefix without `y` (a scheme, `www.`, `m.`). No lemma covers the `#…v=` fragment form, which the scanners do model.
- `Messages.Slice` indexes code points. Pyrogram's message text type slices in UTF-16 units, as the entity offsets count them. So the model's slice differs from the source's when a character outside the Basic Multilingual Plane, such as an emoji, comes before the span. Offsets and lengths are non-negative.
- The `videoid`, `video`, `songaudio` and `songvideo` arguments are booleans, standing for their Python truthiness.
- Download options that do not change the decision, such as `geo_bypass`, `quiet` and `prefer_ffmpeg`, are not modelled. A request keeps its format, output template and post-processing kind.

## Findings

| source | as written | input that shows it | evidently intended | confidence | as-written member | corrected member |
|---|---|---|---|---|---|---|
| SHUKLAMUSIC/platforms/Youtube.py:36-45 | `([A-Za-z0-9_-]{11})` compiled with `re.IGNORECASE` on a `str` pattern, so Unicode case folding lets U+0130, U+0131, U+017F and U+212A match the class | `youtu.be/ııııııııııı` (eleven U+0131) extracts `ııııııııııı`, and `normalize_watch_url` turns it into `https://www.youtube.com/watch?v=ııııııııııı` | identifiers only from the ASCII alphabet, which `re.ASCII` gives | medium; not executed | VideoIds.ExtractVideoIdAsWritten, VideoIds.FoldedLettersEscapeAlphabet, VideoIds.NormalizeWatchUrlAsWritten, VideoIds.DotlessNormalizedAsWritten | VideoIds.ExtractVideoId, VideoIds.NormalizeWatchUrl, VideoIds.DotlessNormalizedCorrected |
| SHUKLAMUSIC/platforms/Youtube.py:180 | `if offset: break` treats a URL entity at offset 0 as nothing found, so the reply is scanned and its URL replaces the message's own | message `ab` with a URL entity at 0..2, replying to `cd` with a URL entity at 0..2, gives `cd` | `if offset is not None: break`, so the message's own first URL wins | high; not executed | Messages.UrlAsWritten, Messages.OffsetZeroDefersToReply | Messages.Url, Messages.FirstMessageWins |
