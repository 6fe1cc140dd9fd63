/** The parts of `urllib.parse` the resolver uses — the query of `urlparse`
    and the pairs of `parse_qs` — and the playlist classifier built on them
    (`is_playlist_url`, SHUKLAMUSIC/platforms/Youtube.py:88-95).

    `urlparse` follows CPython 3.12's `urlsplit`: leading C0 controls and
    spaces are dropped, tab/CR/LF are removed everywhere, a scheme and a
    `//netloc` are split off, and a netloc with an unmatched bracket, or with
    both brackets around something other than an IPv6 or IPvFuture host,
    raises `ValueError`. Field names and values are not percent- or
    `+`-decoded. */
module Urls {
  import opened Optional
  import opened Text
  import opened Addresses

  /** The `ValueError` raised by `urlsplit`. */
  datatype ParseError = InvalidIPv6Url

  predicate IsC0OrSpace(c: char) {
    c <= ' '
  }

  predicate IsUnsafe(c: char) {
    c == '\t' || c == '\r' || c == '\n'
  }

  predicate IsSafe(c: char) {
    !IsUnsafe(c)
  }

  /** No tab, CR or LF anywhere in `s`. */
  predicate AllSafe(s: string) {
    forall j :: 0 <= j < |s| ==> IsSafe(s[j])
  }

  lemma AllSafeConcat(a: string, b: string)
    requires AllSafe(a) && AllSafe(b)
    ensures AllSafe(a + b)
  {
    forall j | 0 <= j < |a + b| ensures IsSafe((a + b)[j]) {
      if j < |a| {
        assert (a + b)[j] == a[j];
      } else {
        assert (a + b)[j] == b[j - |a|];
      }
    }
  }

  predicate IsAsciiLetter(c: char) {
    ('a' <= c <= 'z') || ('A' <= c <= 'Z')
  }

  /** `urllib.parse.scheme_chars`. */
  predicate IsSchemeChar(c: char) {
    IsAsciiLetter(c) || ('0' <= c <= '9') || c == '+' || c == '-' || c == '.'
  }

  /** What follows the scheme: when the text before the first `:` is a
      non-empty run of scheme characters starting with a letter, it is split off. */
  function AfterScheme(u: string): (rest: string)
    ensures |rest| <= |u| && rest == u[|u| - |rest|..]
  {
    var i := FirstWhere(u, c => c == ':');
    if 0 < i < |u| && IsAsciiLetter(u[0]) && (forall j :: 0 <= j < i ==> IsSchemeChar(u[j]))
    then u[i + 1..]
    else u
  }

  predicate EndsNetloc(c: char) {
    c == '/' || c == '?' || c == '#'
  }

  /** The network location: after a leading `//`, up to the first `/`, `?` or `#`. */
  function Netloc(rest: string): (r: Option<string>)
    ensures r.Some? ==> forall c :: c in r.value ==> c in rest
  {
    if |rest| >= 2 && rest[0] == '/' && rest[1] == '/' then
      var tail := rest[2..];
      Some(tail[..FirstWhere(tail, EndsNetloc)])
    else
      None
  }

  /** The query: after the first `?` of the part before the first `#`. A
      scheme and a netloc never contain `?` or `#`, so the first of each in
      the whole text is the one `urlsplit` finds after removing them. */
  function QueryOf(u: string): (q: string)
    ensures '#' !in q
  {
    var head := u[..FirstWhere(u, c => c == '#')];
    var i := FirstWhere(head, c => c == '?');
    if i < |head| then head[i + 1..] else ""
  }

  /** `urlparse(url).query`, or the `ValueError` `urlparse` raises. */
  function UrlQuery(url: string): (r: Result<string, ParseError>)
    ensures r.Ok? ==> '#' !in r.value
  {
    var u := RemoveUnsafe(LStrip(url, IsC0OrSpace));
    match Netloc(AfterScheme(u))
    case Some(n) => if NetlocOk(n) then Ok(QueryOf(u)) else Err(InvalidIPv6Url)
    case None => Ok(QueryOf(u))
  }

  /** The bracket checks of `urlsplit` on a network location: `[` and `]`
      occur together or not at all, and when they occur the bracketed host
      must pass `_check_bracketed_netloc`. */
  predicate NetlocOk(n: string) {
    ('[' in n) == (']' in n) && ('[' in n ==> BracketedNetlocOk(n))
  }

  /** A scheme `urlsplit` splits off: a letter, then scheme characters. */
  predicate IsScheme(scheme: string) {
    |scheme| > 0 && IsAsciiLetter(scheme[0]) && forall j :: 0 <= j < |scheme| ==> IsSchemeChar(scheme[j])
  }

  /** A text starting with a visible character and holding no tab, CR or
      LF is left as it is by the cleaning `urlsplit` does first. */
  lemma CleanUnchanged(u: string)
    requires |u| > 0 && !IsC0OrSpace(u[0]) && AllSafe(u)
    ensures RemoveUnsafe(LStrip(u, IsC0OrSpace)) == u
  {
    assert LStrip(u, IsC0OrSpace) == u;
    FilterKeepsAll(u, IsSafe);
  }

  /** A scheme and its `:` are split off, leaving the rest. */
  lemma SchemeSplit(scheme: string, rest: string)
    requires IsScheme(scheme)
    ensures AfterScheme(scheme + ":" + rest) == rest
  {
    var u := scheme + ":" + rest;
    var m := |scheme|;
    forall j | 0 <= j < m ensures u[j] == scheme[j] && u[j] != ':' && IsSchemeChar(u[j]) {
    }
    assert u[m] == ':';
    assert FirstWhere(u, c => c == ':') == m;
    assert u[m + 1..] == rest;
  }

  /** After `//`, the network location runs up to the first `/`, `?` or `#`. */
  lemma NetlocCut(n: string, t: string)
    requires forall j :: 0 <= j < |n| ==> !EndsNetloc(n[j])
    requires t == "" || EndsNetloc(t[0])
    ensures Netloc("//" + n + t) == Some(n)
  {
    var rest := "//" + n + t;
    var tail := n + t;
    assert rest[2..] == tail;
    forall j | 0 <= j < |n| ensures tail[j] == n[j] && !EndsNetloc(tail[j]) {
    }
    var k := FirstWhere(tail, EndsNetloc);
    if t != "" {
      assert tail[|n|] == t[0];
    }
    assert k == |n|;
    assert tail[..|n|] == n;
  }

  /** For `scheme://n` followed by a path, query or fragment, parsing fails
      exactly when the bracket checks refuse the network location `n`. */
  lemma NetlocDecides(scheme: string, n: string, t: string)
    requires IsScheme(scheme)
    requires forall j :: 0 <= j < |n| ==> !EndsNetloc(n[j])
    requires t == "" || EndsNetloc(t[0])
    requires AllSafe(n) && AllSafe(t)
    ensures UrlQuery(scheme + "://" + n + t).Err? <==> !NetlocOk(n)
  {
    var rest := "//" + n + t;
    var u := scheme + ":" + rest;
    assert scheme + "://" + n + t == u;
    assert AllSafe(scheme);
    assert AllSafe(":") && AllSafe("//");
    AllSafeConcat("//", n);
    AllSafeConcat("//" + n, t);
    AllSafeConcat(scheme, ":");
    AllSafeConcat(scheme + ":", rest);
    assert u[0] == scheme[0];
    CleanUnchanged(u);
    SchemeSplit(scheme, rest);
    NetlocCut(n, t);
  }

  /** For `scheme://[h]` followed by a path, query or fragment, parsing
      fails exactly when `h` is neither an IPv6 nor an IPvFuture host. */
  lemma BracketedHostDecides(scheme: string, h: string, t: string)
    requires IsScheme(scheme)
    requires forall j :: 0 <= j < |h| ==> !EndsNetloc(h[j]) && h[j] != '@' && h[j] != '[' && h[j] != ']'
    requires t == "" || EndsNetloc(t[0])
    requires AllSafe(h) && AllSafe(t)
    ensures UrlQuery(scheme + "://[" + h + "]" + t).Err? <==> !BracketedHostOk(h)
  {
    var n := "[" + h + "]";
    BracketedNetloc(h);
    assert scheme + "://[" + h + "]" + t == scheme + "://" + n + t;
    NetlocDecides(scheme, n, t);
    HostInBrackets(h, "");
  }

  /** `[h]` as a network location: no character ending it, nothing unsafe,
      and both brackets present. */
  lemma BracketedNetloc(h: string)
    requires forall j :: 0 <= j < |h| ==> !EndsNetloc(h[j]) && h[j] != '@' && h[j] != '[' && h[j] != ']'
    requires AllSafe(h)
    ensures forall j :: 0 <= j < |"[" + h + "]"| ==> !EndsNetloc(("[" + h + "]")[j])
    ensures AllSafe("[" + h + "]")
    ensures '[' in "[" + h + "]" && ']' in "[" + h + "]" && "[" + h + "]" + "" == "[" + h + "]"
    ensures '@' !in h && '[' !in h && ']' !in h
  {
    var n := "[" + h + "]";
    forall j | 0 <= j < |n| ensures !EndsNetloc(n[j]) && IsSafe(n[j]) {
      if 0 < j < |n| - 1 {
        assert n[j] == h[j - 1];
      }
    }
    assert n[0] == '[' && n[|n| - 1] == ']';
  }

  /** A bracketed name followed by a `list` query. */
  const BracketedListLink: string := "https://[x]/watch?list=PL1"

  /** `https://[x]/watch?list=PL1` makes `urlparse` raise. */
  lemma BracketedListRaises()
    ensures UrlQuery(BracketedListLink).Err?
  {
    BracketedListPieces();
    BracketedListParts();
    BracketedHostDecides("https", "x", "/watch?list=PL1");
    NameIsNotHost();
  }

  /** The substring fallback finds no `playlist?list=` in it. */
  lemma BracketedListLacksMarker()
    ensures !Contains(BracketedListLink, "playlist?list=")
  {
    BracketedListHasNoY();
    NotContainsMissing(BracketedListLink, "playlist?list=", 3);
  }

  /** `https://[x]/watch?list=PL1` is not a playlist: `urlparse` raises,
      and the substring fallback does not match. */
  lemma BracketedNameIsNotPlaylist()
    ensures UrlQuery(BracketedListLink).Err?
    ensures !IsPlaylistUrl(Some(BracketedListLink))
  {
    BracketedListRaises();
    BracketedListLacksMarker();
    assert Some(BracketedListLink).GetOr("") == BracketedListLink;
  }

  lemma BracketedListPieces()
    ensures "https" + "://[" + "x" + "]" + "/watch?list=PL1" == BracketedListLink
  {
  }

  lemma BracketedListParts()
    ensures IsScheme("https") && AllSafe("x") && AllSafe("/watch?list=PL1")
  {
  }

  lemma BracketedListHasNoY()
    ensures 'y' !in BracketedListLink
  {
  }

  /** A URL that starts with a visible character and holds no tab, CR, LF
      or bracket. */
  predicate PlainUrl(s: string) {
    |s| > 0 && !IsC0OrSpace(s[0]) && '\t' !in s && '\r' !in s && '\n' !in s && '[' !in s && ']' !in s
  }

  /** A plain URL parses; its query is the one `QueryOf` reads off the text. */
  lemma UrlQueryOfPlain(s: string)
    requires PlainUrl(s)
    ensures UrlQuery(s) == Ok(QueryOf(s))
  {
    assert LStrip(s, IsC0OrSpace) == s;
    forall j | 0 <= j < |s| ensures IsSafe(s[j]) {
      assert s[j] in s;
    }
    FilterKeepsAll(s, IsSafe);
    assert RemoveUnsafe(s) == s;
    var rest := AfterScheme(s);
    assert '[' !in rest && ']' !in rest;
    match Netloc(rest)
    case Some(n) =>
      assert '[' !in n && ']' !in n;
    case None =>
  }

  /** The query is everything after the first `?` when no `#` follows. */
  lemma QueryAfterMark(a: string, b: string)
    requires '?' !in a && '#' !in a && '#' !in b
    ensures QueryOf(a + "?" + b) == b
  {
    var u := a + "?" + b;
    forall j | 0 <= j < |u| ensures u[j] != '#' {
      if j < |a| {
        assert u[j] == a[j] && a[j] in a;
      } else if j > |a| {
        assert u[j] == b[j - |a| - 1] && b[j - |a| - 1] in b;
      }
    }
    assert u[..FirstWhere(u, c => c == '#')] == u;
    assert u[|a|] == '?';
    forall j | 0 <= j < |a| ensures u[j] != '?' {
      assert u[j] == a[j] && a[j] in a;
    }
    assert u[|a| + 1..] == b;
  }

  /** A plain URL whose first `?` has no `#` after it has the rest as its query. */
  lemma QueryOfPlainMark(a: string, b: string)
    requires |a| > 0 && !IsC0OrSpace(a[0])
    requires '?' !in a && '#' !in a && '#' !in b
    requires '\t' !in a && '\r' !in a && '\n' !in a && '[' !in a && ']' !in a
    requires '\t' !in b && '\r' !in b && '\n' !in b && '[' !in b && ']' !in b
    ensures UrlQuery(a + "?" + b) == Ok(b)
  {
    var u := a + "?" + b;
    assert u[0] == a[0];
    UrlQueryOfPlain(u);
    QueryAfterMark(a, b);
  }

  /** No character `urlsplit` drops or objects to, nor a `#`. */
  predicate PlainTail(b: string) {
    '#' !in b && '\t' !in b && '\r' !in b && '\n' !in b && '[' !in b && ']' !in b
  }

  /** A word with no `?` and nothing `PlainTail` excludes. */
  predicate PlainWord(w: string) {
    '?' !in w && PlainTail(w)
  }

  /** The letters a page address like `https://host/path` is written with. */
  predicate UrlLetter(c: char) {
    ('a' <= c <= 'z') || c == ':' || c == '/' || c == '.'
  }

  lemma LettersArePlain(w: string)
    requires forall c :: c in w ==> UrlLetter(c)
    ensures PlainWord(w)
  {
  }

  /** A page, a `?`, then a field and its tail: the query is the field and tail. */
  lemma QueryOfPlainField(page: string, field: string, tail: string)
    requires |page| > 0 && !IsC0OrSpace(page[0]) && PlainWord(page)
    requires PlainTail(field) && PlainTail(tail)
    ensures UrlQuery(page + "?" + field + tail) == Ok(field + tail)
  {
    Regroup(page, "?", field, tail);
    QueryOfPlainMark(page, field + tail);
  }

  function RemoveUnsafe(s: string): (r: string)
    ensures forall i :: 0 <= i < |r| ==> !IsUnsafe(r[i])
  {
    Filter(s, IsSafe)
  }

  predicate IsEqualsSign(c: char) {
    c == '='
  }

  /** One `&`-separated field as `parse_qsl` keeps it with blank values
      dropped: split at the first `=`; a field without `=`, or whose value is
      empty, yields nothing. */
  function FieldPair(field: string): (r: Option<(string, string)>)
    ensures r.Some? ==> '=' !in r.value.0 && |r.value.1| > 0
    ensures r.Some? ==> field == r.value.0 + "=" + r.value.1
  {
    var e := FirstWhere(field, IsEqualsSign);
    if e + 1 < |field| then
      assert field == field[..e] + "=" + field[e + 1..];
      Some((field[..e], field[e + 1..]))
    else
      None
  }

  /** A field `name=value` with a non-empty value splits back into its parts. */
  lemma FieldPairOf(name: string, value: string)
    requires '=' !in name && |value| > 0
    ensures FieldPair(name + "=" + value) == Some((name, value))
  {
    var f := name + "=" + value;
    assert f[|name|] == '=';
    assert forall j :: 0 <= j < |name| ==> f[j] == name[j];
    assert FirstWhere(f, IsEqualsSign) == |name|;
    assert f[..|name|] == name;
  }

  /** The values `parse_qs` collects under `name`, in order of appearance. */
  function ValuesIn(fields: seq<string>, name: string): (r: seq<string>)
    ensures forall k :: 0 <= k < |r| ==> |r[k]| > 0
    decreases |fields|
  {
    if |fields| == 0 then []
    else
      var rest := ValuesIn(fields[1..], name);
      var f := FieldPair(fields[0]);
      if f.Some? && f.value.0 == name then [f.value.1] + rest else rest
  }

  /** `parse_qs(q).get(name, [])`. */
  function QueryValues(q: string, name: string): seq<string> {
    ValuesIn(Split(q, '&'), name)
  }

  /** A field starts at `k`: at the beginning or right after an `&`. */
  predicate FieldStart(q: string, k: int) {
    k == 0 || (0 < k <= |q| && q[k - 1] == '&')
  }

  /** The field starting at `k` reads `name=` followed by at least one character. */
  predicate ParamAt(q: string, name: string, k: int) {
    && FieldStart(q, k)
    && OccursAt(q, name + "=", k)
    && k + |name| + 1 < |q|
    && q[k + |name| + 1] != '&'
  }

  /** Character-level reading of "the query has a non-empty `name` value",
      independent of the splitting above. */
  predicate HasParam(q: string, name: string) {
    exists k :: 0 <= k <= |q| && ParamAt(q, name, k)
  }

  lemma FieldHasValue(f: string, name: string)
    requires '&' !in f && '=' !in name
    ensures (FieldPair(f).Some? && FieldPair(f).value.0 == name) <==> HasParam(f, name)
  {
    var e := FirstWhere(f, IsEqualsSign);
    var w := name + "=";
    if FieldPair(f).Some? && FieldPair(f).value.0 == name {
      assert f[..e] == name;
      assert f[..e + 1] == f[..e] + [f[e]];
      assert ParamAt(f, name, 0);
    }
    if HasParam(f, name) {
      var k :| 0 <= k <= |f| && ParamAt(f, name, k);
      assert forall j :: 0 <= j < |f| ==> f[j] != '&';
      assert k == 0;
      assert f[..|w|] == w;
      assert forall j :: 0 <= j < |name| ==> f[j] == w[j] == name[j];
      assert f[|name|] == w[|name|] == '=';
      assert e == |name|;
      assert f[..e] == name;
    }
  }

  /** A parameter of the field before the first `&` is a parameter of the query. */
  lemma ParamBeforeAmpersand(a: string, b: string, name: string)
    requires '&' !in a && '&' !in name && '=' !in name
    requires HasParam(a, name)
    ensures HasParam(a + "&" + b, name)
  {
    var q := a + "&" + b;
    var w := name + "=";
    var k :| 0 <= k <= |a| && ParamAt(a, name, k);
    assert forall j :: 0 <= j < |a| ==> a[j] != '&';
    assert k == 0;
    assert q[..|w|] == a[..|w|];
    assert q[|w|] == a[|w|];
    assert ParamAt(q, name, 0);
  }

  /** A parameter after the first `&` is a parameter of the query, shifted. */
  lemma ParamAfterAmpersand(a: string, b: string, name: string)
    requires '&' !in a && '&' !in name && '=' !in name
    requires HasParam(b, name)
    ensures HasParam(a + "&" + b, name)
  {
    var q := a + "&" + b;
    var w := name + "=";
    var k :| 0 <= k <= |b| && ParamAt(b, name, k);
    var k' := |a| + 1 + k;
    assert q[k'..k' + |w|] == b[k..k + |w|];
    assert q[k' + |w|] == b[k + |w|];
    assert q[k' - 1] == if k == 0 then '&' else b[k - 1];
    assert ParamAt(q, name, k');
  }

  /** Every parameter of the query lies wholly before or wholly after the
      first `&`. */
  lemma ParamSplitsAtAmpersand(a: string, b: string, name: string)
    requires '&' !in a && '&' !in name && '=' !in name
    requires HasParam(a + "&" + b, name)
    ensures HasParam(a, name) || HasParam(b, name)
  {
    var q := a + "&" + b;
    var w := name + "=";
    assert '&' !in w;
    var k :| 0 <= k <= |q| && ParamAt(q, name, k);
    if k <= |a| {
      assert forall j :: 0 <= j < |a| ==> q[j] == a[j] && a[j] != '&';
      assert k == 0;
      assert q[..|w|] == w;
      assert forall j :: 0 <= j < |w| ==> q[j] == w[j] && w[j] != '&';
      assert q[|a|] == '&';
      assert |w| < |a|;
      assert a[..|w|] == q[..|w|];
      assert a[|w|] == q[|w|];
      assert ParamAt(a, name, 0);
    } else {
      var k' := k - |a| - 1;
      assert q[k..k + |w|] == b[k'..k' + |w|];
      assert q[k + |w|] == b[k' + |w|];
      assert k' > 0 ==> b[k' - 1] == q[k - 1];
      assert ParamAt(b, name, k');
    }
  }

  /** `parse_qs` has a value for `name` exactly when some field reads
      `name=` followed by a non-empty value. */
  lemma {:induction false} QueryValuesIffParam(q: string, name: string)
    requires '&' !in name && '=' !in name
    ensures |QueryValues(q, name)| > 0 <==> HasParam(q, name)
    decreases |q|
  {
    var i := FirstWhere(q, c => c == '&');
    if i == |q| {
      assert '&' !in q;
      SplitWithoutSep(q, '&');
      assert ValuesIn([q][1..], name) == [];
      FieldHasValue(q, name);
    } else {
      var a := q[..i];
      var b := q[i + 1..];
      assert q == a + "&" + b;
      assert '&' !in a;
      SplitAtFirstSep(a, '&', b);
      var fields := Split(q, '&');
      assert fields[0] == a && fields[1..] == Split(b, '&');
      QueryValuesIffParam(b, name);
      FieldHasValue(a, name);
      if HasParam(a, name) {
        ParamBeforeAmpersand(a, b, name);
      }
      if HasParam(b, name) {
        ParamAfterAmpersand(a, b, name);
      }
      if HasParam(q, name) {
        ParamSplitsAtAmpersand(a, b, name);
      }
    }
  }

  /** `is_playlist_url`: a non-empty `list` query value, or, when `urlparse`
      raises, the substring `playlist?list=`. A missing URL reads as `""`. */
  function IsPlaylistUrl(url: Option<string>): (r: bool)
    ensures UrlQuery(url.GetOr("")).Ok? ==> (r <==> HasParam(UrlQuery(url.GetOr("")).value, "list"))
    ensures UrlQuery(url.GetOr("")).Err? ==> (r <==> Contains(url.GetOr(""), "playlist?list="))
  {
    var u := url.GetOr("");
    var parsed := UrlQuery(u);
    if parsed.Ok? then
      ListValuesIffParam(parsed.value);
      |QueryValues(parsed.value, "list")| > 0
    else
      Contains(u, "playlist?list=")
  }

  lemma ListValuesIffParam(q: string)
    ensures |QueryValues(q, "list")| > 0 <==> HasParam(q, "list")
  {
    QueryValuesIffParam(q, "list");
  }

  /** Missing and empty input are not playlists. */
  lemma EmptyIsNotPlaylist()
    ensures !IsPlaylistUrl(None)
    ensures !IsPlaylistUrl(Some(""))
  {
    EmptyQuery();
    EmptyHasNoList();
    assert None.GetOr("") == "" && Some("").GetOr("") == "";
  }

  /** The empty text splits without error and has an empty query. */
  lemma EmptyQuery()
    ensures UrlQuery("") == Ok("")
  {
    EmptyCleaned();
    EmptyHasNoNetloc();
    EmptyQueryPart();
  }

  lemma EmptyCleaned()
    ensures RemoveUnsafe(LStrip("", IsC0OrSpace)) == ""
  {
    var e: string := "";
    assert |RemoveUnsafe(LStrip(e, IsC0OrSpace))| == 0;
  }

  lemma EmptyHasNoNetloc()
    ensures Netloc(AfterScheme("")) == None
  {
    assert |AfterScheme("")| == 0;
  }

  lemma EmptyQueryPart()
    ensures QueryOf("") == ""
  {
    var e: string := "";
    assert |e[..FirstWhere(e, c => c == '#')]| == 0;
  }

  lemma EmptyHasNoList()
    ensures !HasParam("", "list")
  {
    forall k | 0 <= k <= 0 ensures !ParamAt("", "list", k) {}
  }
}
