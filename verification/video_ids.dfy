/** Identifier extraction and URL normalisation
    (`YTB_REGEX_ID`, `extract_video_id`, `normalize_watch_url`,
    SHUKLAMUSIC/platforms/Youtube.py:36-86).

    The verbose regular expression
      (?:youtu\.be/|youtube(?:-nocookie)?\.com/
         (?:watch\?.*?v=|embed/|shorts/|live/|v/|.+?\#(?:.*?&)?v=))
      ([A-Za-z0-9_-]{11})
    is modelled as explicit scanners that try the alternatives, and the lazy
    repetitions, in the order Python's backtracking engine does; each returns
    the index where the 11-character group starts. `.` never matches a
    newline. Python's `re.search` returns the match at the leftmost start
    position, which `Search` states. */
module VideoIds {
  import opened Optional
  import opened Text
  import opened Urls
  import Addresses

  /** How `re.IGNORECASE` compares letters. Python applies Unicode case
      folding to a `str` pattern (`Unicode`), under which four non-ASCII
      letters match ASCII ones; with `re.ASCII` only ASCII letters fold (`Ascii`). */
  datatype Fold = Unicode | Ascii

  /** The identifier alphabet `[A-Za-z0-9_-]`. */
  predicate IsIdChar(c: char) {
    ('A' <= c <= 'Z') || ('a' <= c <= 'z') || ('0' <= c <= '9') || c == '_' || c == '-'
  }

  /** A canonical identifier: exactly 11 characters of the alphabet. */
  predicate IsVideoId(s: string) {
    |s| == 11 && forall i :: 0 <= i < |s| ==> IsIdChar(s[i])
  }

  /** U+0130, U+0131, U+017F and U+212A: the letters that Unicode
      case-insensitive matching equates with `i`, `i`, `s` and `k`. */
  function FoldedAscii(c: char): Option<char> {
    if c == '\U{130}' || c == '\U{131}' then Some('i')
    else if c == '\U{17F}' then Some('s')
    else if c == '\U{212A}' then Some('k')
    else None
  }

  /** A character the class `[A-Za-z0-9_-]` accepts under `f`. */
  predicate ClassChar(f: Fold, c: char) {
    IsIdChar(c) || (f == Unicode && FoldedAscii(c).Some?)
  }

  /** Text character `c` matches pattern character `p` (pattern letters are lower case). */
  predicate LitChar(f: Fold, c: char, p: char) {
    || c == p
    || ('a' <= p <= 'z' && c == (p as int - 32) as char)
    || (f == Unicode && FoldedAscii(c) == Some(p))
  }

  /** The literal `w` matches `s` at `i`, case-insensitively under `f`. */
  predicate MatchesAt(s: string, i: int, w: string, f: Fold) {
    0 <= i && i + |w| <= |s| && forall j :: 0 <= j < |w| ==> LitChar(f, s[i + j], w[j])
  }

  /** The group `([A-Za-z0-9_-]{11})` matches at `i`; nothing is required after it. */
  predicate IdAt(s: string, i: int, f: Fold) {
    0 <= i && i + 11 <= |s| && ClassRun(f, s[i..i + 11])
  }

  /** Every character of `t` is in the class under `f`. */
  predicate ClassRun(f: Fold, t: string) {
    forall j :: 0 <= j < |t| ==> ClassChar(f, t[j])
  }

  function IdFrom(s: string, k: nat, f: Fold): (r: Option<nat>)
    ensures r.Some? ==> IdAt(s, r.value, f) && r.value == k
  {
    if IdAt(s, k, f) then Some(k) else None
  }

  /** `watch\?.*?v=`, after `watch?`: the lazy `.*?` tries the shortest run first. */
  function WatchV(s: string, p: nat, f: Fold): (r: Option<nat>)
    requires p <= |s|
    ensures r.Some? ==> IdAt(s, r.value, f) && p + 2 <= r.value
    decreases |s| - p
  {
    if MatchesAt(s, p, "v=", f) && IdAt(s, p + 2, f) then Some(p + 2)
    else if p < |s| && s[p] != '\n' then WatchV(s, p + 1, f)
    else None
  }

  /** `(?:.*?&)?v=` tried with the group present: the first `&` (reached
      without crossing a newline) that is followed by `v=` and an identifier. */
  function AmpScan(s: string, r: nat, f: Fold): (res: Option<nat>)
    requires r <= |s|
    ensures res.Some? ==> IdAt(s, res.value, f) && r + 3 <= res.value
    decreases |s| - r
  {
    if r == |s| then None
    else if s[r] == '&' && MatchesAt(s, r + 1, "v=", f) && IdAt(s, r + 3, f) then Some(r + 3)
    else if s[r] != '\n' then AmpScan(s, r + 1, f)
    else None
  }

  /** After `\#`: the optional group is greedy, so it is tried before `v=` directly. */
  function AfterHash(s: string, h: nat, f: Fold): (r: Option<nat>)
    requires h <= |s|
    ensures r.Some? ==> IdAt(s, r.value, f) && h + 2 <= r.value
  {
    var viaAmp := AmpScan(s, h, f);
    if viaAmp.Some? then viaAmp
    else if MatchesAt(s, h, "v=", f) && IdAt(s, h + 2, f) then Some(h + 2)
    else None
  }

  /** `.+?\#…`: `q` is the next candidate position of the `#`. */
  function HashScan(s: string, q: nat, f: Fold): (r: Option<nat>)
    requires q <= |s|
    ensures r.Some? ==> IdAt(s, r.value, f) && q + 3 <= r.value
    decreases |s| - q
  {
    if q == |s| then None
    else
      var hit := if s[q] == '#' then AfterHash(s, q + 1, f) else None;
      if hit.Some? then hit
      else if s[q] != '\n' then HashScan(s, q + 1, f)
      else None
  }

  /** `.+?\#(?:.*?&)?v=`: at least one character before the `#`. */
  function Fragment(s: string, k: nat, f: Fold): (r: Option<nat>)
    ensures r.Some? ==> IdAt(s, r.value, f) && k < r.value
  {
    if k < |s| && s[k] != '\n' then HashScan(s, k + 1, f) else None
  }

  /** The path alternatives after `.com/`, in the pattern's order. */
  function AfterHost(s: string, k: nat, f: Fold): (r: Option<nat>)
    ensures r.Some? ==> IdAt(s, r.value, f) && k < r.value
  {
    if MatchesAt(s, k, "watch?", f) && WatchV(s, k + 6, f).Some? then WatchV(s, k + 6, f)
    else if MatchesAt(s, k, "embed/", f) && IdAt(s, k + 6, f) then Some(k + 6)
    else if MatchesAt(s, k, "shorts/", f) && IdAt(s, k + 7, f) then Some(k + 7)
    else if MatchesAt(s, k, "live/", f) && IdAt(s, k + 5, f) then Some(k + 5)
    else if MatchesAt(s, k, "v/", f) && IdAt(s, k + 2, f) then Some(k + 2)
    else Fragment(s, k, f)
  }

  /** The whole pattern anchored at `i`. The two hosts differ at their eighth
      character, so trying `-nocookie` first and then without it is the same
      as testing each spelling. */
  function MatchAt(s: string, i: nat, f: Fold): (r: Option<nat>)
    ensures r.Some? ==> IdAt(s, r.value, f) && i < r.value
  {
    if MatchesAt(s, i, "youtu.be/", f) then IdFrom(s, i + 9, f)
    else if MatchesAt(s, i, "youtube-nocookie.com/", f) then AfterHost(s, i + 21, f)
    else if MatchesAt(s, i, "youtube.com/", f) then AfterHost(s, i + 12, f)
    else None
  }

  /** `re.search` from position `i`: the match at the leftmost start position. */
  function Search(s: string, i: nat, f: Fold): (r: Option<nat>)
    ensures r.Some? ==> IdAt(s, r.value, f)
    decreases |s| - i
  {
    if i >= |s| then None
    else
      match MatchAt(s, i, f)
      case Some(p) => Some(p)
      case None => Search(s, i + 1, f)
  }

  /** When `re.search` finds nothing, no start position matches. */
  lemma {:induction false} SearchNone(s: string, i: nat, f: Fold)
    requires Search(s, i, f).None?
    ensures forall j :: i <= j < |s| ==> MatchAt(s, j, f).None?
    decreases |s| - i
  {
    if i < |s| {
      var m := MatchAt(s, i, f);
      assert m.None?;
      SearchNone(s, i + 1, f);
      forall j | i <= j < |s| ensures MatchAt(s, j, f).None? {
        if j == i {
          assert MatchAt(s, j, f) == m;
        }
      }
    }
  }

  /** The `parse_qs` fallback: the first `v` value, if it is an identifier
      (checked with `re.fullmatch` and no case folding). `None` when
      `urlparse` raises. */
  function QueryFallback(s: string): (r: Option<string>)
    ensures r.Some? ==> IsVideoId(r.value)
  {
    match UrlQuery(s)
    case Err(_) => None
    case Ok(q) =>
      var vs := QueryValues(q, "v");
      if |vs| > 0 && IsVideoId(vs[0]) then Some(vs[0]) else None
  }

  /** `extract_video_id` with the regex compared under `f`. */
  function ExtractWith(url: string, f: Fold): (r: Option<string>)
    ensures url == "" ==> r.None?
    ensures r.Some? ==> |r.value| == 11 && ClassRun(f, r.value)
  {
    if url == "" then None
    else
      var s := Strip(url);
      match Search(s, 0, f)
      case Some(p) => Some(s[p..p + 11])
      case None => QueryFallback(s)
  }

  /** `extract_video_id` as written: `re.IGNORECASE` on a `str` pattern. Its
      result can hold letters outside the identifier alphabet. */
  function ExtractVideoIdAsWritten(url: string): (r: Option<string>)
    ensures url == "" ==> r.None?
    ensures r.Some? ==> |r.value| == 11 && ClassRun(Unicode, r.value)
  {
    ExtractWith(url, Unicode)
  }

  /** `extract_video_id` with ASCII-only case folding (`re.ASCII`), as the
      alphabet in the pattern intends. The rest of the model uses this one. */
  function ExtractVideoId(url: string): (r: Option<string>)
    ensures url == "" ==> r.None?
    ensures r.Some? ==> IsVideoId(r.value)
  {
    ExtractWith(url, Ascii)
  }

  const DotlessLink: string := "youtu.be/ııııııııııı"

  lemma DotlessLinkIsStripped()
    ensures Strip(DotlessLink) == DotlessLink
  {
    StripUnchanged(DotlessLink);
  }

  /** Without a `?` there is no query, hence no fallback identifier. */
  lemma NoQueryNoFallback(s: string)
    requires PlainUrl(s) && '?' !in s
    ensures QueryFallback(s).None?
  {
    UrlQueryOfPlain(s);
    forall j | 0 <= j < |s| ensures s[j] != '?' {
      assert s[j] in s;
    }
    assert QueryOf(s) == "";
    assert QueryValues("", "v") == [];
  }

  lemma DotlessLinkMatchesFolded()
    ensures Search(DotlessLink, 0, Unicode) == Some(9)
  {
    var s := DotlessLink;
    assert MatchesAt(s, 0, "youtu.be/", Unicode);
    assert IdAt(s, 9, Unicode);
    assert MatchAt(s, 0, Unicode) == Some(9);
  }

  lemma DotlessLinkMissesAscii()
    ensures Search(DotlessLink, 0, Ascii).None?
  {
    var s := DotlessLink;
    assert !IdAt(s, 9, Ascii) by {
      assert !ClassChar(Ascii, s[9]);
    }
    assert MatchAt(s, 0, Ascii).None?;
    forall j | 1 <= j < |s| ensures MatchAt(s, j, Ascii).None? {
      assert s[j] != 'y' && s[j] != 'Y';
      NoMatchWithoutY(s, j, Ascii);
    }
    SearchFirst(s, 0, |s|, Ascii);
  }

  /** On a trimmed reference, a regex match decides the result. */
  lemma ExtractFromMatch(url: string, f: Fold, p: nat)
    requires url != "" && Strip(url) == url && Search(url, 0, f) == Some(p)
    ensures ExtractWith(url, f) == Some(url[p..p + 11])
  {
  }

  /** On a trimmed reference without a regex match, the query decides. */
  lemma ExtractWithoutMatch(url: string, f: Fold)
    requires url != "" && Strip(url) == url && Search(url, 0, f).None?
    ensures ExtractWith(url, f) == QueryFallback(url)
  {
  }

  lemma DotlessAsWritten()
    ensures ExtractVideoIdAsWritten(DotlessLink) == Some("ııııııııııı")
  {
    var s := DotlessLink;
    DotlessLinkIsStripped();
    DotlessLinkMatchesFolded();
    ExtractFromMatch(s, Unicode, 9);
    assert s[9..20] == "ııııııııııı";
  }

  /** A trimmed reference with neither a regex match nor a `?` yields nothing. */
  lemma NoMatchNoQuery(url: string, f: Fold)
    requires Strip(url) == url && Search(url, 0, f).None?
    requires PlainUrl(url) && '?' !in url
    ensures ExtractWith(url, f).None?
  {
    ExtractWithoutMatch(url, f);
    NoQueryNoFallback(url);
  }

  lemma DotlessLinkIsPlain()
    ensures PlainUrl(DotlessLink) && '?' !in DotlessLink
  {
  }

  lemma DotlessCorrected()
    ensures ExtractVideoId(DotlessLink) == None
  {
    DotlessLinkIsStripped();
    DotlessLinkMissesAscii();
    DotlessLinkIsPlain();
    NoMatchNoQuery(DotlessLink, Ascii);
  }

  /** The as-written extraction accepts eleven dotless i's after `youtu.be/`;
      the corrected one rejects them. */
  lemma FoldedLettersEscapeAlphabet()
    ensures ExtractVideoIdAsWritten(DotlessLink) == Some("ııııııııııı")
    ensures !IsVideoId("ııııııııııı")
    ensures ExtractVideoId(DotlessLink) == None
  {
    DotlessAsWritten();
    DotlessCorrected();
    assert "ııııııııııı"[0] == '\U{131}';
  }

  /** Every alternative starts with `y`, which folds only with `Y`. */
  lemma NoMatchWithoutY(s: string, i: nat, f: Fold)
    requires i < |s| && s[i] != 'y' && s[i] != 'Y'
    ensures MatchAt(s, i, f).None?
  {
    assert "youtu.be/"[0] == 'y';
    assert "youtube-nocookie.com/"[0] == 'y';
    assert "youtube.com/"[0] == 'y';
  }

  /** Every alternative needs a `.` at or after `i`. */
  lemma NoMatchWithoutDot(s: string, i: nat, f: Fold)
    requires forall j :: i <= j < |s| ==> s[j] != '.'
    ensures MatchAt(s, i, f).None?
  {
    assert "youtu.be/"[5] == '.';
    assert "youtube-nocookie.com/"[16] == '.';
    assert "youtube.com/"[7] == '.';
  }

  /** `re.search` reports the first start position at which the pattern
      matches, or nothing when no position does. */
  lemma {:induction false} SearchFirst(s: string, i: nat, k: nat, f: Fold)
    requires i <= k <= |s|
    requires forall j :: i <= j < k ==> MatchAt(s, j, f).None?
    requires k == |s| || MatchAt(s, k, f).Some?
    ensures Search(s, i, f) == if k == |s| then None else MatchAt(s, k, f)
    decreases k - i
  {
    if i < k {
      var m := MatchAt(s, i, f);
      assert m.None?;
      SearchFirst(s, i + 1, k, f);
    } else if k < |s| {
      var m := MatchAt(s, k, f);
      assert m.Some?;
    }
  }

  /** `extract_video_id` does not accept a bare identifier: it has no `.`
      for the pattern and no `?` for a query. */
  lemma BareIdNotExtracted(id: string)
    requires IsVideoId(id)
    ensures ExtractVideoId(id).None?
  {
    StripUnchanged(id);
    NoDotNoMatch(id, Ascii);
    NoMatchNoQuery(id, Ascii);
  }

  /** A text without `.` holds no match. */
  lemma NoDotNoMatch(s: string, f: Fold)
    requires forall j :: 0 <= j < |s| ==> s[j] != '.'
    ensures Search(s, 0, f).None?
  {
    forall j | 0 <= j < |s| ensures MatchAt(s, j, f).None? {
      NoMatchWithoutDot(s, j, f);
    }
    SearchFirst(s, 0, |s|, f);
  }

  /** A bracketed name followed by a `v` query. */
  const BracketedIdLink: string := "http://[x]/?v=abcdefghijk"

  /** `http://[x]/?v=abcdefghijk` holds no `.` for the pattern, and its
      query is never read because `urlparse` raises: no identifier. */
  lemma BracketedNameHasNoId()
    ensures ExtractVideoId(BracketedIdLink) == None
  {
    var s := BracketedIdLink;
    BracketedIdPieces();
    BracketedIdParts();
    BracketedIdEnds();
    BracketedHostDecides("http", "x", "/?v=abcdefghijk");
    Addresses.NameIsNotHost();
    StripUnchanged(s);
    NoDotNoMatch(s, Ascii);
    ExtractWithoutMatch(s, Ascii);
  }

  lemma BracketedIdPieces()
    ensures "http" + "://[" + "x" + "]" + "/?v=abcdefghijk" == BracketedIdLink
  {
  }

  lemma BracketedIdParts()
    ensures IsScheme("http") && AllSafe("x") && AllSafe("/?v=abcdefghijk")
  {
  }

  lemma BracketedIdEnds()
    ensures forall j :: 0 <= j < |BracketedIdLink| ==> BracketedIdLink[j] != '.'
    ensures |BracketedIdLink| > 0 && !IsSpace(BracketedIdLink[0]) && !IsAngle(BracketedIdLink[0])
    ensures !IsSpace(BracketedIdLink[|BracketedIdLink| - 1]) && !IsAngle(BracketedIdLink[|BracketedIdLink| - 1])
  {
  }

  const WatchBase: string := "https://www.youtube.com/watch?v="

  /** The canonical watch URL of an identifier. */
  function WatchUrl(id: string): string {
    WatchBase + id
  }

  predicate IsCanonical(u: string) {
    |u| == |WatchBase| + 11 && u[..|WatchBase|] == WatchBase && IsVideoId(u[|WatchBase|..])
  }

  /** The canonical URL of an identifier is canonical, and the identifier is its tail. */
  lemma WatchUrlIsCanonical(id: string)
    requires IsVideoId(id)
    ensures IsCanonical(WatchUrl(id)) && WatchUrl(id)[|WatchBase|..] == id
  {
    var u := WatchUrl(id);
    assert u[..|WatchBase|] == WatchBase;
    assert u[|WatchBase|..] == id;
  }

  /** The case-sensitive test of line 84. */
  predicate IsWatchLike(u: string) {
    Contains(u, "youtube.com/watch") || Contains(u, "youtu.be/")
  }

  /** `normalize_watch_url`: a bare identifier or an extractable one gives the
      canonical URL; otherwise a watch-looking reference passes through
      trimmed; otherwise `None`. The two identifier routes never disagree,
      since a bare identifier is not extractable. */
  function NormalizeWatchUrl(ref: string): (r: Option<string>)
    ensures ref == "" ==> r.None?
    ensures r.Some? ==> IsCanonical(r.value) || (r.value == Strip(ref) && IsWatchLike(r.value))
    ensures ref != "" && IsVideoId(Strip(ref)) ==> r == Some(WatchUrl(Strip(ref)))
    ensures ref != "" && ExtractVideoId(Strip(ref)).Some? ==> r == Some(WatchUrl(ExtractVideoId(Strip(ref)).value))
    ensures ref != "" && !IsVideoId(Strip(ref)) && ExtractVideoId(Strip(ref)).None? ==>
              (r.Some? <==> IsWatchLike(Strip(ref))) && (r.Some? ==> r.value == Strip(ref))
  {
    if ref == "" then None
    else
      var candidate := Strip(ref);
      if IsVideoId(candidate) then
        BareIdNotExtracted(candidate);
        WatchUrlIsCanonical(candidate);
        Some(WatchUrl(candidate))
      else
        match ExtractVideoId(candidate)
        case Some(vid) => WatchUrlIsCanonical(vid); Some(WatchUrl(vid))
        case None => if IsWatchLike(candidate) then Some(candidate) else None
  }

  /** `normalize_watch_url` as written, on top of the as-written extraction:
      an identifier with case-folded letters becomes a watch URL too. */
  function NormalizeWatchUrlAsWritten(ref: string): (r: Option<string>)
    ensures ref == "" ==> r.None?
    ensures ref != "" && IsVideoId(Strip(ref)) ==> r == Some(WatchUrl(Strip(ref)))
    ensures ref != "" && !IsVideoId(Strip(ref)) && ExtractVideoIdAsWritten(Strip(ref)).Some? ==>
              r == Some(WatchUrl(ExtractVideoIdAsWritten(Strip(ref)).value))
    ensures ref != "" && !IsVideoId(Strip(ref)) && ExtractVideoIdAsWritten(Strip(ref)).None? ==>
              (r.Some? <==> IsWatchLike(Strip(ref))) && (r.Some? ==> r.value == Strip(ref))
  {
    if ref == "" then None
    else
      var candidate := Strip(ref);
      if IsVideoId(candidate) then Some(WatchUrl(candidate))
      else
        match ExtractVideoIdAsWritten(candidate)
        case Some(vid) => Some(WatchUrl(vid))
        case None => if IsWatchLike(candidate) then Some(candidate) else None
  }

  /** As written, `youtu.be/` and eleven dotless i's becomes a watch URL
      whose identifier lies outside the identifier alphabet. */
  lemma DotlessNormalizedAsWritten()
    ensures NormalizeWatchUrlAsWritten(DotlessLink) == Some(WatchBase + "ııııııııııı")
    ensures !IsCanonical(WatchBase + "ııııııııııı")
  {
    DotlessLinkIsStripped();
    DotlessAsWritten();
    assert |DotlessLink| != 11;
    var u := WatchBase + "ııııııııııı";
    assert u[|WatchBase|..] == "ııııııııııı";
    FoldedLettersEscapeAlphabet();
  }

  /** Corrected, the same reference has no identifier to extract and passes
      through unchanged as a link that looks like a watch URL. */
  lemma DotlessNormalizedCorrected()
    ensures NormalizeWatchUrl(DotlessLink) == Some(DotlessLink)
  {
    DotlessLinkIsStripped();
    DotlessCorrected();
    DotlessLinkLooksLikeWatch();
  }

  lemma DotlessLinkLooksLikeWatch()
    ensures DotlessLink != "" && !IsVideoId(DotlessLink) && IsWatchLike(DotlessLink)
  {
    assert |DotlessLink| == 20;
    assert OccursAt(DotlessLink, "youtu.be/", 0);
  }

  /** `if videoid: link = self.base + link`, done by every accessor. */
  function ResolveLink(link: string, videoid: bool): string {
    if videoid then WatchBase + link else link
  }
}
