/** `shell_cmd`'s choice between the two output streams and the line
    splitting of `playlist` (SHUKLAMUSIC/platforms/Youtube.py:138-150,
    287-299). The streams are given as decoded text. */
module Playlists {
  import opened Optional
  import opened Text
  import opened Urls

  const HiddenNotice: string := "unavailable videos are hidden"

  /** `shell_cmd`: standard output, unless standard error is non-empty and
      is not the hidden-videos notice (compared case-insensitively), in which
      case the error text itself. */
  function ShellOutput(out: string, err: string): (r: string)
    ensures r == out <==> (err == "" || Contains(LowerAscii(err), HiddenNotice) || err == out)
    ensures r == out || r == err
  {
    if err != "" then
      if Contains(LowerAscii(err), HiddenNotice) then out else err
    else out
  }

  const ListBase: string := "https://youtube.com/playlist?list="

  /** `if videoid: link = self.listbase + link`. */
  function PlaylistLink(link: string, videoid: bool): string {
    if videoid then ListBase + link else link
  }

  /** The non-blank lines of a text, unstripped and in order. */
  function NonBlankLines(text: string): (r: seq<string>)
    ensures forall k :: 0 <= k < |r| ==> HasNonSpace(r[k]) && '\n' !in r[k]
  {
    Filter(Split(text, '\n'), HasNonSpace)
  }

  /** `playlist`: `[]` for a link that is not a playlist, else the non-blank
      lines of what `shell_cmd` returns. The engine's two streams are
      parameters; `limit` and `user_id` only shape the command line. */
  function Playlist(link: string, videoid: bool, out: string, err: string): (r: seq<string>)
    ensures !IsPlaylistUrl(Some(PlaylistLink(link, videoid))) ==> r == []
    ensures IsPlaylistUrl(Some(PlaylistLink(link, videoid))) ==>
              r == NonBlankLines(ShellOutput(out, err))
    ensures forall x :: x in r <==>
              IsPlaylistUrl(Some(PlaylistLink(link, videoid)))
              && x in Split(ShellOutput(out, err), '\n') && HasNonSpace(x)
  {
    if !IsPlaylistUrl(Some(PlaylistLink(link, videoid))) then []
    else
      var text := ShellOutput(out, err);
      assert forall x :: x in NonBlankLines(text) <==> x in Split(text, '\n') && HasNonSpace(x) by {
        forall x ensures x in NonBlankLines(text) <==> x in Split(text, '\n') && HasNonSpace(x) {
          LinesAreExact(text, x);
        }
      }
      NonBlankLines(text)
  }

  /** Every line of the output that has a visible character is listed, so
      a text with no blank line is recovered by joining the result. */
  lemma {:induction false} LinesRoundTrip(text: string)
    requires forall k :: 0 <= k < |Split(text, '\n')| ==> HasNonSpace(Split(text, '\n')[k])
    ensures Join(NonBlankLines(text), '\n') == text
  {
    FilterKeepsAll(Split(text, '\n'), HasNonSpace);
    SplitJoin(text, '\n');
  }

  /** The lines of the result are exactly the non-blank lines of the text:
      nothing is lost and nothing is invented. */
  lemma LinesAreExact(text: string, line: string)
    ensures line in NonBlankLines(text) <==> line in Split(text, '\n') && HasNonSpace(line)
  {
    var parts := Split(text, '\n');
    if line in parts && HasNonSpace(line) {
      var i :| 0 <= i < |parts| && parts[i] == line;
      assert parts[i] in Filter(parts, HasNonSpace);
    }
    if line in NonBlankLines(text) {
      var k :| 0 <= k < |NonBlankLines(text)| && NonBlankLines(text)[k] == line;
    }
  }

  /** With an error text that is not the notice, the error's own lines are
      what the caller gets as identifiers. */
  lemma ErrorTextBecomesIds(link: string, videoid: bool, out: string, err: string)
    requires IsPlaylistUrl(Some(PlaylistLink(link, videoid)))
    requires err != "" && !Contains(LowerAscii(err), HiddenNotice)
    ensures Playlist(link, videoid, out, err) == NonBlankLines(err)
  {
  }

  /** The list base splits at its `?` into the playlist page and the `list` field. */
  lemma ListBaseParts()
    ensures ListBase == "https://youtube.com/playlist" + "?" + "list="
  {
  }

  lemma ListPageLetters()
    ensures forall c :: c in "https://youtube.com/playlist" ==> UrlLetter(c)
  {
  }

  lemma ListBaseQuery(pid: string)
    requires PlainTail(pid)
    ensures UrlQuery(ListBase + pid) == Ok("list=" + pid)
  {
    var page := "https://youtube.com/playlist";
    ListBaseParts();
    ListPageLetters();
    LettersArePlain(page);
    assert page[0] == 'h';
    QueryOfPlainField(page, "list=", pid);
  }

  lemma ListParam(pid: string)
    requires |pid| > 0 && pid[0] != '&'
    ensures HasParam("list=" + pid, "list")
  {
    var b := "list=" + pid;
    assert b[..5] == "list=";
    assert ParamAt(b, "list", 0);
  }

  /** A playlist identifier of plain characters, prefixed with the list base,
      is recognised as a playlist. */
  lemma ListBaseIsPlaylist(pid: string)
    requires |pid| > 0 && pid[0] != '&'
    requires PlainTail(pid)
    ensures IsPlaylistUrl(Some(PlaylistLink(pid, true)))
  {
    ListBaseQuery(pid);
    ListParam(pid);
  }
}
