/** The acquisition decision of `download` and the stream lookup of `video`
    (SHUKLAMUSIC/platforms/Youtube.py:265-284, 388-518). The engine, the
    `is_on_off(1)` switch and the file system become inputs: the identifier
    and extension the engine reports for each format choice, the decoded
    standard output of the `-g` probe, and the set of files that exist. The
    result records the value returned, whether the probe ran, and the one
    download the engine is asked for, if any. */
module Acquisition {
  import opened Optional
  import opened Text
  import opened VideoIds

  const AudioFormat: string := "bestaudio/best"
  const VideoFormat: string := "(bestvideo[height<=?720][width<=?1280][ext=mp4])+(bestaudio[ext=m4a])"
  const StreamFormat: string := "best[height<=?720][width<=?1280]"
  const IdTemplate: string := "downloads/%(id)s.%(ext)s"

  /** What `extract_info` reports for a format choice: `info['id']`, `info['ext']`. */
  datatype Media = Media(id: string, ext: string)

  /** The engine's answers for one reference. */
  datatype Engine = Engine(audio: Media, video: Media, probeOut: string)

  /** The post-processing a download asks for. */
  datatype Post = Plain | MergeMp4 | ExtractMp3

  /** A `YoutubeDL(...).download([link])` request: format selector (`None`
      leaves the engine's default), output template and post-processing. */
  datatype Job = Job(format: Option<string>, template: string, post: Post)

  /** `download` returns a bare path for the song modes and a
      `(path, direct)` pair otherwise. */
  datatype Outcome = Bare(path: string) | Pair(path: string, direct: bool)

  datatype Plan = Plan(outcome: Outcome, probed: bool, job: Option<Job>)

  /** The caller's switches; each is Python truthiness of the argument. */
  datatype Request = Request(
    link: string, videoid: bool, video: bool, songaudio: bool, songvideo: bool,
    formatId: Option<string>, title: Option<string>)

  /** An f-string rendering of an optional argument: `None` prints as `None`. */
  function Show(x: Option<string>): string {
    match x
    case None => "None"
    case Some(s) => s
  }

  /** `os.path.join("downloads", f"{info['id']}.{info['ext']}")`. */
  function LocalPath(m: Media): string {
    "downloads/" + m.id + "." + m.ext
  }

  predicate IsNewline(c: char) {
    c == '\n'
  }

  /** The part of `stdout.decode().split("\n")` at index 0: the text up to
      its first newline. */
  function FirstLine(out: string): (r: string)
    ensures '\n' !in r
    ensures '\n' !in out ==> r == out
    ensures r == out[..FirstWhere(out, IsNewline)]
  {
    var i := FirstWhere(out, IsNewline);
    if i < |out| then
      assert out == out[..i] + ['\n'] + out[i + 1..];
      assert forall j :: 0 <= j < i ==> out[..i][j] != '\n';
      SplitAtFirstSep(out[..i], '\n', out[i + 1..]);
      Split(out, '\n')[0]
    else
      assert out[..i] == out;
      SplitWithoutSep(out, '\n');
      Split(out, '\n')[0]
  }

  /** `audio_dl` / `video_dl`: reuse the file when it exists, else download it. */
  function FetchLocal(m: Media, format: string, post: Post, cache: set<string>): (r: (string, Option<Job>))
    ensures r.0 == LocalPath(m)
    ensures r.1.Some? <==> LocalPath(m) !in cache
    ensures r.1.Some? ==> r.1.value == Job(Some(format), IdTemplate, post)
  {
    if LocalPath(m) in cache then (LocalPath(m), None)
    else (LocalPath(m), Some(Job(Some(format), IdTemplate, post)))
  }

  function LocalVideo(e: Engine, cache: set<string>, probed: bool): Plan {
    var (p, job) := FetchLocal(e.video, VideoFormat, MergeMp4, cache);
    Plan(Pair(p, true), probed, job)
  }

  function LocalAudio(e: Engine, cache: set<string>): Plan {
    var (p, job) := FetchLocal(e.audio, AudioFormat, Plain, cache);
    Plan(Pair(p, true), false, job)
  }

  /** `download`. */
  function Download(q: Request, flagOn: bool, e: Engine, cache: set<string>): (r: Plan)
    ensures NormalizeWatchUrl(ResolveLink(q.link, q.videoid)).None? ==> r == Plan(Pair("", true), false, None)
    ensures r.outcome.Bare? <==> NormalizeWatchUrl(ResolveLink(q.link, q.videoid)).Some? && (q.songvideo || q.songaudio)
    ensures r.probed ==> q.video && !q.songvideo && !q.songaudio && !flagOn
    ensures r.outcome.Pair? && !r.outcome.direct ==>
              r.probed && e.probeOut != "" && r.job.None? && r.outcome.path == FirstLine(e.probeOut)
    ensures r.outcome.Pair? && r.outcome.direct && r.outcome.path != "" ==>
              (r.outcome.path == LocalPath(e.audio) || r.outcome.path == LocalPath(e.video))
              && (r.job.Some? <==> r.outcome.path !in cache)
  {
    match NormalizeWatchUrl(ResolveLink(q.link, q.videoid))
    case None => Plan(Pair("", true), false, None)
    case Some(_) =>
      if q.songvideo then
        Plan(Bare("downloads/" + Show(q.title) + ".mp4"), false,
             Some(Job(Some(Show(q.formatId) + "+140"), "downloads/" + Show(q.title), MergeMp4)))
      else if q.songaudio then
        Plan(Bare("downloads/" + Show(q.title) + ".mp3"), false,
             Some(Job(q.formatId, "downloads/" + Show(q.title) + ".%(ext)s", ExtractMp3)))
      else if q.video then
        if flagOn then LocalVideo(e, cache, false)
        else if e.probeOut != "" then Plan(Pair(FirstLine(e.probeOut), false), true, None)
        else LocalVideo(e, cache, true)
      else LocalAudio(e, cache)
  }

  /** `video`: `(0, "Invalid YouTube URL")`, `(1, first line of the probe
      output)`, or `(0, error text)` when the probe printed nothing. */
  function VideoStream(link: string, videoid: bool, out: string, err: string): (r: (int, string))
    ensures r.0 == 1 <==> NormalizeWatchUrl(ResolveLink(link, videoid)).Some? && out != ""
    ensures r.0 == 1 ==> r.1 == FirstLine(out)
    ensures r.0 != 1 ==> r.0 == 0 && (r.1 == "Invalid YouTube URL" || r.1 == err)
    ensures NormalizeWatchUrl(ResolveLink(link, videoid)).None? ==> r == (0, "Invalid YouTube URL")
    ensures NormalizeWatchUrl(ResolveLink(link, videoid)).Some? && out == "" ==> r == (0, err)
  {
    match NormalizeWatchUrl(ResolveLink(link, videoid))
    case None => (0, "Invalid YouTube URL")
    case Some(_) => if out != "" then (1, FirstLine(out)) else (0, err)
  }

  /** The song modes return their bare path whatever the other switches say;
      `songvideo` wins over `songaudio` and asks for `<format_id>+140`. */
  lemma SongModesFirst(q: Request, flagOn: bool, e: Engine, cache: set<string>)
    requires NormalizeWatchUrl(ResolveLink(q.link, q.videoid)).Some?
    requires q.songvideo || q.songaudio
    ensures var r := Download(q, flagOn, e, cache);
            && r.outcome == Bare("downloads/" + Show(q.title) + (if q.songvideo then ".mp4" else ".mp3"))
            && !r.probed && r.job.Some?
            && (q.songvideo ==> r.job.value.format == Some(Show(q.formatId) + "+140"))
            && (!q.songvideo ==> r.job.value.format == q.formatId)
  {
  }

  /** Video mode with the switch on uses the local file and never probes. */
  lemma SwitchOnIsLocal(q: Request, e: Engine, cache: set<string>)
    requires NormalizeWatchUrl(ResolveLink(q.link, q.videoid)).Some?
    requires q.video && !q.songvideo && !q.songaudio
    ensures var r := Download(q, true, e, cache);
            r.outcome == Pair(LocalPath(e.video), true) && !r.probed
  {
  }

  /** With the switch off, the probe decides: a printed line streams
      directly, no output falls back to the local file. */
  lemma SwitchOffProbes(q: Request, e: Engine, cache: set<string>)
    requires NormalizeWatchUrl(ResolveLink(q.link, q.videoid)).Some?
    requires q.video && !q.songvideo && !q.songaudio
    ensures var r := Download(q, false, e, cache);
            && r.probed
            && (e.probeOut != "" ==> r.outcome == Pair(FirstLine(e.probeOut), false) && r.job.None?)
            && (e.probeOut == "" ==> r.outcome == Pair(LocalPath(e.video), true))
  {
  }

  /** Audio is the default when no mode switch is set. */
  lemma AudioIsDefault(q: Request, flagOn: bool, e: Engine, cache: set<string>)
    requires NormalizeWatchUrl(ResolveLink(q.link, q.videoid)).Some?
    requires !q.video && !q.songvideo && !q.songaudio
    ensures Download(q, flagOn, e, cache).outcome == Pair(LocalPath(e.audio), true)
  {
  }

  /** Once the downloaded file exists, asking again downloads nothing and
      returns the same result. */
  lemma CacheReuse(q: Request, flagOn: bool, e: Engine, cache: set<string>)
    requires !q.songvideo && !q.songaudio
    ensures var r := Download(q, flagOn, e, cache);
            var again := Download(q, flagOn, e, cache + {r.outcome.path});
            again.outcome == r.outcome && again.job.None?
  {
    var r := Download(q, flagOn, e, cache);
    var c := cache + {r.outcome.path};
    if NormalizeWatchUrl(ResolveLink(q.link, q.videoid)).Some? {
      if !q.video {
        assert r == LocalAudio(e, cache);
        assert Download(q, flagOn, e, c) == LocalAudio(e, c);
      } else if !flagOn && e.probeOut != "" {
        var line := FirstLine(e.probeOut);
        assert r == Plan(Pair(line, false), true, None);
        assert Download(q, flagOn, e, c) == Plan(Pair(line, false), true, None);
      } else {
        var probed := !flagOn;
        assert r == LocalVideo(e, cache, probed);
        assert Download(q, flagOn, e, c) == LocalVideo(e, c, probed);
      }
    }
  }

  /** The probe of `download` and the lookup of `video` use the same format
      and agree on the stream URL. */
  lemma ProbeMatchesVideo(q: Request, e: Engine, cache: set<string>, err: string)
    requires q.video && !q.songvideo && !q.songaudio
    requires e.probeOut != ""
    ensures var r := Download(q, false, e, cache);
            var v := VideoStream(q.link, q.videoid, e.probeOut, err);
            (v.0 == 1 <==> r.outcome.Pair? && !r.outcome.direct)
            && (v.0 == 1 ==> v.1 == r.outcome.path)
  {
  }
}
