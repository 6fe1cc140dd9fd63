/** What `extract_video_id`, `normalize_watch_url` and `is_playlist_url`
    (SHUKLAMUSIC/platforms/Youtube.py:36-95) do with the link shapes YouTube
    hands out: each recognised shape yields its identifier, the canonical
    URL is a fixed point of normalisation, and wrapping blanks and angle
    brackets change nothing. */
module Shapes {
  import opened Optional
  import opened Text
  import opened Urls
  import opened VideoIds

  /** A prefix that cannot start a match and survives `Strip` in front. */
  predicate QuietPrefix(p: string) {
    'y' !in p && 'Y' !in p && (|p| == 0 || (!IsSpace(p[0]) && !IsAngle(p[0])))
  }

  /** The two host spellings of the pattern. */
  datatype Host = YouTube | NoCookie

  function HostName(h: Host): string {
    match h
    case YouTube => "youtube.com/"
    case NoCookie => "youtube-nocookie.com/"
  }

  /** The path words that `AfterHost` accepts right before the identifier. */
  datatype IdPath = WatchPath | EmbedPath | ShortsPath | LivePath | VPath

  function PathText(w: IdPath): string {
    match w
    case WatchPath => "watch?v="
    case EmbedPath => "embed/"
    case ShortsPath => "shorts/"
    case LivePath => "live/"
    case VPath => "v/"
  }

  /** `s` holds `w` from position `n` on. */
  predicate Spells(s: string, n: int, w: string) {
    0 <= n && n + |w| <= |s| && s[n..n + |w|] == w
  }

  lemma SpellsChar(s: string, n: int, w: string, j: int)
    requires Spells(s, n, w) && 0 <= j < |w|
    ensures s[n + j] == w[j]
  {
    assert s[n + j] == s[n..n + |w|][j];
  }

  /** Spelling `x + y` is spelling `x` and then `y`. */
  lemma SpellsSplit(s: string, n: int, x: string, y: string)
    requires Spells(s, n, x + y)
    ensures Spells(s, n, x) && Spells(s, n + |x|, y)
  {
    forall j | 0 <= j < |x| ensures s[n..n + |x|][j] == x[j] {
      SpellsChar(s, n, x + y, j);
    }
    forall j | 0 <= j < |y| ensures s[n + |x|..n + |x| + |y|][j] == y[j] {
      SpellsChar(s, n, x + y, |x| + j);
    }
  }

  /** What the text spells, the pattern matches. */
  lemma SpellsMatch(s: string, n: int, w: string)
    requires Spells(s, n, w)
    ensures MatchesAt(s, n, w, Ascii)
  {
    forall j | 0 <= j < |w| ensures LitChar(Ascii, s[n + j], w[j]) {
      SpellsChar(s, n, w, j);
    }
  }

  /** An identifier spelled at `k` is the group the pattern wants there. */
  lemma IdAtSpelled(s: string, k: nat)
    requires k + 11 <= |s| && IsVideoId(s[k..k + 11])
    ensures IdAt(s, k, Ascii)
  {
  }

  /** No match starts among leading characters that are not `y`. */
  lemma NoMatchInPrefix(s: string, n: nat)
    requires n <= |s| && 'y' !in s[..n] && 'Y' !in s[..n]
    ensures forall j :: 0 <= j < n ==> MatchAt(s, j, Ascii).None?
  {
    forall j | 0 <= j < n ensures MatchAt(s, j, Ascii).None? {
      assert s[j] == s[..n][j] && s[..n][j] in s[..n];
      NoMatchWithoutY(s, j, Ascii);
    }
  }

  /** When no match starts before `n`, a match at `n` decides the extraction
      of a trimmed text. */
  lemma FirstMatchExtracts(s: string, n: nat, k: nat)
    requires n <= |s| && Strip(s) == s
    requires 'y' !in s[..n] && 'Y' !in s[..n]
    requires MatchAt(s, n, Ascii) == Some(k)
    ensures ExtractVideoId(s) == Some(s[k..k + 11])
  {
    NoMatchInPrefix(s, n);
    SearchFirst(s, 0, n, Ascii);
    ExtractFromMatch(s, Ascii, k);
  }

  /** A text that starts with a quiet prefix and then `y`, and ends with an
      identifier, is left alone by `Strip`. */
  lemma QuietTextIsStripped(p: string, s: string, k: nat)
    requires QuietPrefix(p) && |p| < k && k + 11 == |s|
    requires s[..|p|] == p && s[|p|] == 'y'
    requires IsVideoId(s[k..k + 11])
    ensures Strip(s) == s
  {
    if |p| > 0 {
      assert s[0] == s[..|p|][0];
    }
    assert s[|s| - 1] == s[k..k + 11][10];
    StripUnchanged(s);
  }

  /** A trimmed-looking text whose first match starts after a quiet prefix
      and runs to the last eleven characters yields those characters. */
  lemma FirstMatchAtEnd(p: string, s: string, k: nat)
    requires QuietPrefix(p) && |p| < k && k + 11 == |s|
    requires s[..|p|] == p && s[|p|] == 'y'
    requires IsVideoId(s[k..k + 11])
    requires MatchAt(s, |p|, Ascii) == Some(k)
    ensures ExtractVideoId(s) == Some(s[k..k + 11])
  {
    QuietTextIsStripped(p, s, k);
    FirstMatchExtracts(s, |p|, k);
  }

  /** Where the parts of `p + x + id` sit. */
  lemma ThreeParts(p: string, x: string, id: string)
    ensures (p + x + id)[..|p|] == p
    ensures Spells(p + x + id, |p|, x)
    ensures Spells(p + x + id, |p| + |x|, id)
  {
    var s := p + x + id;
    assert s[..|p|] == p;
    assert s[|p|..|p| + |x|] == x;
    assert s[|p| + |x|..|p| + |x| + |id|] == id;
  }

  /** Where the four parts of `p + x + y + id` sit, at offsets named by the caller. */
  lemma LaidOut(p: string, x: string, y: string, id: string, s: string, m: nat, k: nat)
    requires s == p + x + y + id && m == |p| + |x| && k == m + |y|
    ensures s[..|p|] == p && |s| == k + |id|
    ensures Spells(s, |p|, x) && Spells(s, m, y) && Spells(s, k, id)
  {
    assert s[..|p|] == p;
    assert s[|p|..m] == x;
    assert s[m..k] == y;
    assert s[k..k + |id|] == id;
  }

  lemma ShortMatches(s: string, n: nat)
    requires Spells(s, n, "youtu.be/") && IdAt(s, n + 9, Ascii)
    ensures MatchAt(s, n, Ascii) == Some(n + 9)
  {
    SpellsMatch(s, n, "youtu.be/");
  }

  /** `youtu.be/<id>` after a quiet prefix yields the identifier. */
  lemma ShortLinkExtracts(p: string, id: string)
    requires QuietPrefix(p) && IsVideoId(id)
    ensures ExtractVideoId(p + "youtu.be/" + id) == Some(id)
  {
    ThreeParts(p, "youtu.be/", id);
    ShortTextExtracts(p, p + "youtu.be/" + id);
  }

  /** The same on a text already known to be laid out that way. */
  lemma ShortTextExtracts(p: string, s: string)
    requires QuietPrefix(p) && |p| + 9 + 11 == |s| && s[..|p|] == p
    requires Spells(s, |p|, "youtu.be/") && IsVideoId(s[|p| + 9..|p| + 20])
    ensures ExtractVideoId(s) == Some(s[|p| + 9..|p| + 20])
  {
    IdAtSpelled(s, |p| + 9);
    ShortMatches(s, |p|);
    SpellsChar(s, |p|, "youtu.be/", 0);
    FirstMatchAtEnd(p, s, |p| + 9);
  }

  lemma WatchPathAt(s: string, m: nat, k: nat)
    requires Spells(s, m, "watch?v=") && k == m + 8 && IdAt(s, k, Ascii)
    ensures AfterHost(s, m, Ascii) == Some(k)
  {
    assert "watch?v=" == "watch?" + "v=";
    SpellsSplit(s, m, "watch?", "v=");
    SpellsMatch(s, m, "watch?");
    SpellsMatch(s, m + 6, "v=");
    assert WatchV(s, m + 6, Ascii) == Some(k);
  }

  /** The first character of a path word other than `watch?v=` rules out `watch?`. */
  lemma NotWatch(s: string, m: nat)
    requires m < |s| && s[m] != 'w' && s[m] != 'W'
    ensures !MatchesAt(s, m, "watch?", Ascii)
  {
    assert "watch?"[0] == 'w';
  }

  lemma EmbedPathAt(s: string, m: nat, k: nat)
    requires Spells(s, m, "embed/") && k == m + 6 && IdAt(s, k, Ascii)
    ensures AfterHost(s, m, Ascii) == Some(k)
  {
    SpellsChar(s, m, "embed/", 0);
    assert "embed/"[0] == 'e';
    NotWatch(s, m);
    SpellsMatch(s, m, "embed/");
  }

  lemma ShortsPathAt(s: string, m: nat, k: nat)
    requires Spells(s, m, "shorts/") && k == m + 7 && IdAt(s, k, Ascii)
    ensures AfterHost(s, m, Ascii) == Some(k)
  {
    SpellsChar(s, m, "shorts/", 0);
    assert "shorts/"[0] == 's';
    NotWatch(s, m);
    assert "embed/"[0] == 'e';
    SpellsMatch(s, m, "shorts/");
  }

  lemma LivePathAt(s: string, m: nat, k: nat)
    requires Spells(s, m, "live/") && k == m + 5 && IdAt(s, k, Ascii)
    ensures AfterHost(s, m, Ascii) == Some(k)
  {
    SpellsChar(s, m, "live/", 0);
    assert "live/"[0] == 'l';
    NotWatch(s, m);
    assert "embed/"[0] == 'e';
    assert "shorts/"[0] == 's';
    SpellsMatch(s, m, "live/");
  }

  lemma VPathAt(s: string, m: nat, k: nat)
    requires Spells(s, m, "v/") && k == m + 2 && IdAt(s, k, Ascii)
    ensures AfterHost(s, m, Ascii) == Some(k)
  {
    SpellsChar(s, m, "v/", 0);
    assert "v/"[0] == 'v';
    NotWatch(s, m);
    assert "embed/"[0] == 'e';
    assert "shorts/"[0] == 's';
    assert "live/"[0] == 'l';
    SpellsMatch(s, m, "v/");
  }

  /** Every path word leads the scanner to the identifier right after it. */
  lemma PathAt(s: string, m: nat, k: nat, w: IdPath)
    requires Spells(s, m, PathText(w)) && k == m + |PathText(w)| && IdAt(s, k, Ascii)
    ensures AfterHost(s, m, Ascii) == Some(k)
  {
    match w
    case WatchPath => WatchPathAt(s, m, k);
    case EmbedPath => EmbedPathAt(s, m, k);
    case ShortsPath => ShortsPathAt(s, m, k);
    case LivePath => LivePathAt(s, m, k);
    case VPath => VPathAt(s, m, k);
  }

  /** `youtube-nocookie.com/` is the first host alternative tried. */
  lemma NoCookieMatches(s: string, n: nat, m: nat, k: nat)
    requires Spells(s, n, "youtube-nocookie.com/") && m == n + 21 && AfterHost(s, m, Ascii) == Some(k)
    ensures MatchAt(s, n, Ascii) == Some(k)
  {
    SpellsChar(s, n, "youtube-nocookie.com/", 5);
    assert "youtube-nocookie.com/"[5] == 'b' && "youtu.be/"[5] == '.';
    assert !MatchesAt(s, n, "youtu.be/", Ascii);
    SpellsMatch(s, n, "youtube-nocookie.com/");
  }

  /** `youtube.com/` parts from `youtube-nocookie.com/` at its eighth character. */
  lemma YouTubeMatches(s: string, n: nat, m: nat, k: nat)
    requires Spells(s, n, "youtube.com/") && m == n + 12 && AfterHost(s, m, Ascii) == Some(k)
    ensures MatchAt(s, n, Ascii) == Some(k)
  {
    SpellsChar(s, n, "youtube.com/", 5);
    SpellsChar(s, n, "youtube.com/", 7);
    assert "youtube.com/"[5] == 'b' && "youtube.com/"[7] == '.';
    assert "youtu.be/"[5] == '.' && "youtube-nocookie.com/"[7] == '-';
    assert !MatchesAt(s, n, "youtu.be/", Ascii);
    assert !MatchesAt(s, n, "youtube-nocookie.com/", Ascii);
    SpellsMatch(s, n, "youtube.com/");
  }

  /** After either host the path alternatives decide the match. */
  lemma HostMatches(s: string, n: nat, m: nat, k: nat, h: Host)
    requires Spells(s, n, HostName(h)) && m == n + |HostName(h)| && AfterHost(s, m, Ascii) == Some(k)
    ensures MatchAt(s, n, Ascii) == Some(k)
  {
    match h
    case YouTube => YouTubeMatches(s, n, m, k);
    case NoCookie => NoCookieMatches(s, n, m, k);
  }

  lemma HostStartsWithY(h: Host)
    ensures |HostName(h)| > 0 && HostName(h)[0] == 'y'
  {
  }

  /** `youtube.com/` or `youtube-nocookie.com/`, then `watch?v=`, `embed/`,
      `shorts/`, `live/` or `v/`, then an identifier, after a quiet prefix:
      the identifier is extracted. */
  lemma HostLinkExtracts(p: string, h: Host, w: IdPath, id: string)
    requires QuietPrefix(p) && IsVideoId(id)
    ensures ExtractVideoId(p + HostName(h) + PathText(w) + id) == Some(id)
  {
    var s := p + HostName(h) + PathText(w) + id;
    var m := |p| + |HostName(h)|;
    var k := m + |PathText(w)|;
    LaidOut(p, HostName(h), PathText(w), id, s, m, k);
    HostTextExtracts(p, s, m, k, h, w, id);
  }

  /** The same on a text already known to be laid out that way. */
  lemma HostTextExtracts(p: string, s: string, m: nat, k: nat, h: Host, w: IdPath, id: string)
    requires QuietPrefix(p) && IsVideoId(id)
    requires Spells(s, |p|, HostName(h)) && m == |p| + |HostName(h)|
    requires Spells(s, m, PathText(w)) && k == m + |PathText(w)|
    requires Spells(s, k, id) && k + |id| == |s| && s[..|p|] == p
    ensures ExtractVideoId(s) == Some(id)
  {
    assert s[k..k + 11] == id;
    IdAtSpelled(s, k);
    PathAt(s, m, k, w);
    HostMatches(s, |p|, m, k, h);
    HostStartsWithY(h);
    SpellsChar(s, |p|, HostName(h), 0);
    FirstMatchAtEnd(p, s, k);
  }

  /** The canonical URL is a `youtube.com/watch?v=` link after `https://www.`. */
  lemma WatchBaseParts()
    ensures WatchBase == "https://www." + HostName(YouTube) + PathText(WatchPath)
  {
  }

  /** The canonical URL carries its identifier in the `watch?v=` shape. */
  lemma CanonicalExtracts(id: string)
    requires IsVideoId(id)
    ensures ExtractVideoId(WatchUrl(id)) == Some(id)
  {
    WatchBaseParts();
    HostLinkExtracts("https://www.", YouTube, WatchPath, id);
  }

  lemma CanonicalIsStripped(id: string)
    requires IsVideoId(id)
    ensures Strip(WatchUrl(id)) == WatchUrl(id)
  {
    var u := WatchUrl(id);
    assert u[0] == WatchBase[0] == 'h';
    assert u[|u| - 1] == id[10];
    StripUnchanged(u);
  }

  /** Normalising a canonical URL gives it back. */
  lemma CanonicalFixedPoint(id: string)
    requires IsVideoId(id)
    ensures NormalizeWatchUrl(WatchUrl(id)) == Some(WatchUrl(id))
  {
    CanonicalIsStripped(id);
    CanonicalExtracts(id);
  }

  /** A normalised reference that `Strip` leaves alone normalises to itself. */
  lemma NormalizeIdempotent(ref: string)
    requires NormalizeWatchUrl(ref).Some?
    requires Strip(NormalizeWatchUrl(ref).value) == NormalizeWatchUrl(ref).value
    ensures NormalizeWatchUrl(NormalizeWatchUrl(ref).value) == NormalizeWatchUrl(ref)
  {
    var u := NormalizeWatchUrl(ref).value;
    if IsCanonical(u) {
      CanonicalSplits(u);
      CanonicalFixedPoint(u[|WatchBase|..]);
    } else {
      PassedThrough(ref);
      PassThroughFixed(u);
    }
  }

  /** A canonical URL is the watch base followed by its identifier. */
  lemma CanonicalSplits(u: string)
    requires IsCanonical(u)
    ensures IsVideoId(u[|WatchBase|..]) && u == WatchUrl(u[|WatchBase|..])
  {
    assert u == u[..|WatchBase|] + u[|WatchBase|..];
  }

  /** A normalised result that is not canonical is the trimmed reference,
      which has no identifier. */
  lemma PassedThrough(ref: string)
    requires NormalizeWatchUrl(ref).Some? && !IsCanonical(NormalizeWatchUrl(ref).value)
    ensures var c := Strip(ref);
            !IsVideoId(c) && ExtractVideoId(c).None? && IsWatchLike(c) && NormalizeWatchUrl(ref).value == c
  {
    var c := Strip(ref);
    if IsVideoId(c) {
      WatchUrlIsCanonical(c);
    } else if ExtractVideoId(c).Some? {
      WatchUrlIsCanonical(ExtractVideoId(c).value);
    }
  }

  /** A trimmed watch-looking reference without an identifier is its own
      normal form. */
  lemma PassThroughFixed(c: string)
    requires Strip(c) == c && !IsVideoId(c) && ExtractVideoId(c).None? && IsWatchLike(c)
    ensures NormalizeWatchUrl(c) == Some(c)
  {
    var w := if Contains(c, "youtu.be/") then "youtu.be/" else "youtube.com/watch";
    var i :| 0 <= i <= |c| - |w| && OccursAt(c, w, i);
    assert |c| >= |w| > 0;
  }

  /** Blanks and angle brackets around a reference do not change the
      extracted identifier nor the normalised URL. */
  lemma WrappingIgnored(lead: string, la: string, u: string, ra: string, trail: string)
    requires |u| > 0
    requires !IsSpace(u[0]) && !IsAngle(u[0])
    requires !IsSpace(u[|u| - 1]) && !IsAngle(u[|u| - 1])
    requires forall i :: 0 <= i < |lead| ==> IsSpace(lead[i])
    requires forall i :: 0 <= i < |trail| ==> IsSpace(trail[i])
    requires forall i :: 0 <= i < |la| ==> IsAngle(la[i])
    requires forall i :: 0 <= i < |ra| ==> IsAngle(ra[i])
    ensures ExtractVideoId(lead + la + u + ra + trail) == ExtractVideoId(u)
    ensures NormalizeWatchUrl(lead + la + u + ra + trail) == NormalizeWatchUrl(u)
  {
    var w := lead + la + u + ra + trail;
    StripWrapped(lead, la, u, ra, trail);
    StripUnchanged(u);
    assert |w| >= |u|;
    SameStripExtracts(w, u);
    SameStripNormalizes(w, u);
  }

  /** The extractor sees a reference only through `Strip`. */
  lemma SameStripExtracts(w: string, u: string)
    requires u != "" && w != "" && Strip(w) == Strip(u)
    ensures ExtractVideoId(w) == ExtractVideoId(u)
  {
    assert ExtractWith(w, Ascii) == ExtractWith(u, Ascii);
  }

  /** So does the normaliser. */
  lemma SameStripNormalizes(w: string, u: string)
    requires u != "" && w != "" && Strip(w) == Strip(u)
    ensures NormalizeWatchUrl(w) == NormalizeWatchUrl(u)
  {
  }

  /** The canonical URL splits at its `?` into the watch page and the `v` field. */
  lemma WatchBaseQueryParts()
    ensures WatchBase == "https://www.youtube.com/watch" + "?" + "v="
  {
  }

  lemma WatchPageLetters()
    ensures forall c :: c in "https://www.youtube.com/watch" ==> UrlLetter(c)
  {
  }

  /** An identifier holds nothing that `urlsplit` drops or objects to. */
  lemma IdIsPlain(id: string)
    requires IsVideoId(id)
    ensures PlainTail(id)
  {
    assert forall c :: c in id ==> IsIdChar(c);
  }

  /** The query of the canonical URL is `v=<id>`. */
  lemma CanonicalQuery(id: string)
    requires IsVideoId(id)
    ensures UrlQuery(WatchUrl(id)) == Ok("v=" + id)
  {
    var page := "https://www.youtube.com/watch";
    WatchBaseQueryParts();
    WatchPageLetters();
    LettersArePlain(page);
    assert page[0] == 'h';
    IdIsPlain(id);
    QueryOfPlainField(page, "v=", id);
  }

  /** A query made of one `v` field has no `list` value. */
  lemma OnlyVHasNoList(id: string)
    requires IsVideoId(id)
    ensures QueryValues("v=" + id, "list") == []
  {
    var q := "v=" + id;
    assert forall j :: 0 <= j < |id| ==> IsIdChar(id[j]);
    assert '&' !in q;
    SplitWithoutSep(q, '&');
    FieldPairOf("v", id);
    assert q == "v" + "=" + id;
    assert ValuesIn([q][1..], "list") == [];
  }

  /** `is_playlist_url` is false for a canonical watch URL. */
  lemma CanonicalIsNotPlaylist(id: string)
    requires IsVideoId(id)
    ensures !IsPlaylistUrl(Some(WatchUrl(id)))
  {
    CanonicalQuery(id);
    OnlyVHasNoList(id);
  }

  /** A bare identifier normalises to its canonical URL. */
  lemma BareIdNormalizes(id: string)
    requires IsVideoId(id)
    ensures NormalizeWatchUrl(id) == Some(WatchUrl(id))
  {
    assert IsIdChar(id[0]) && IsIdChar(id[10]);
    StripUnchanged(id);
  }

  /** An identifier resolves to its canonical URL whether or not the caller
      sets the `videoid` flag. */
  lemma IdFlagIrrelevant(id: string)
    requires IsVideoId(id)
    ensures NormalizeWatchUrl(ResolveLink(id, true)) == Some(WatchUrl(id))
    ensures NormalizeWatchUrl(ResolveLink(id, false)) == Some(WatchUrl(id))
  {
    CanonicalFixedPoint(id);
    BareIdNormalizes(id);
  }
}
