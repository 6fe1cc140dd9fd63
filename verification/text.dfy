/** Python string primitives the resolver relies on: `strip`, `in`, `lower`,
    `split` and the list-comprehension filter, on `seq<char>`. */
module Text {

  /** Characters for which Python's `str.isspace()` holds. */
  predicate IsSpace(c: char) {
    || c == ' '
    || ('\t' <= c <= '\r')
    || ('\U{1C}' <= c <= '\U{1F}')
    || c == '\U{85}' || c == '\U{A0}' || c == '\U{1680}'
    || ('\U{2000}' <= c <= '\U{200A}')
    || c == '\U{2028}' || c == '\U{2029}' || c == '\U{202F}'
    || c == '\U{205F}' || c == '\U{3000}'
  }

  /** The characters removed by `strip("<>")`. */
  predicate IsAngle(c: char) {
    c == '<' || c == '>'
  }

  /** Removes the longest prefix of characters satisfying `p`. */
  function LStrip(s: string, p: char -> bool): (r: string)
    ensures |r| <= |s| && r == s[|s| - |r|..]
    ensures |r| == 0 || !p(r[0])
    ensures forall i :: 0 <= i < |s| - |r| ==> p(s[i])
    decreases |s|
  {
    if |s| > 0 && p(s[0]) then LStrip(s[1..], p) else s
  }

  /** Removes the longest suffix of characters satisfying `p`. */
  function RStrip(s: string, p: char -> bool): (r: string)
    ensures |r| <= |s| && r == s[..|r|]
    ensures |r| == 0 || !p(r[|r| - 1])
    ensures forall i :: |r| <= i < |s| ==> p(s[i])
    decreases |s|
  {
    if |s| > 0 && p(s[|s| - 1]) then RStrip(s[..|s| - 1], p) else s
  }

  /** Python's `s.strip(chars)`: both ends. */
  function StripBy(s: string, p: char -> bool): string {
    RStrip(LStrip(s, p), p)
  }

  /** `s.strip().strip("<>")`, the clean-up applied to every user reference. */
  function Strip(s: string): (r: string)
    ensures |r| <= |s|
    ensures |r| == 0 || (!IsAngle(r[0]) && !IsAngle(r[|r| - 1]))
  {
    StripBy(StripBy(s, IsSpace), IsAngle)
  }

  /** A string whose first and last characters are neither blanks nor angle
      brackets is unaffected at the front by `Strip`, and can lose only a tail
      of whatever follows it. */
  lemma StripKeepsCore(u: string, v: string)
    requires |u| > 0
    requires !IsSpace(u[0]) && !IsAngle(u[0])
    requires !IsSpace(u[|u| - 1]) && !IsAngle(u[|u| - 1])
    ensures exists k :: 0 <= k <= |v| && Strip(u + v) == u + v[..k]
  {
    var s := u + v;
    assert s[0] == u[0];
    var a := LStrip(s, IsSpace);
    assert a == s;
    var b := RStrip(a, IsSpace);
    assert s[|u| - 1] == u[|u| - 1];
    assert |b| >= |u|;
    assert b == u + v[..|b| - |u|];
    var c := LStrip(b, IsAngle);
    assert b[0] == u[0];
    assert c == b;
    var d := RStrip(c, IsAngle);
    assert b[|u| - 1] == u[|u| - 1];
    assert |d| >= |u|;
    assert d == u + v[..|d| - |u|];
  }

  /** `Strip` leaves alone a string that starts and ends with neither a blank
      nor an angle bracket. */
  lemma StripUnchanged(s: string)
    requires |s| > 0
    requires !IsSpace(s[0]) && !IsAngle(s[0])
    requires !IsSpace(s[|s| - 1]) && !IsAngle(s[|s| - 1])
    ensures Strip(s) == s
  {
    StripKeepsCore(s, "");
    assert s + "" == s;
  }

  /** A prefix whose characters all satisfy `p` is removed by `LStrip`. */
  lemma {:induction false} LStripSkips(a: string, b: string, p: char -> bool)
    requires forall i :: 0 <= i < |a| ==> p(a[i])
    ensures LStrip(a + b, p) == LStrip(b, p)
    decreases |a|
  {
    if |a| > 0 {
      assert (a + b)[0] == a[0];
      assert (a + b)[1..] == a[1..] + b;
      LStripSkips(a[1..], b, p);
    } else {
      assert a + b == b;
    }
  }

  /** A suffix whose characters all satisfy `p` is removed by `RStrip`. */
  lemma {:induction false} RStripSkips(a: string, b: string, p: char -> bool)
    requires forall i :: 0 <= i < |b| ==> p(b[i])
    ensures RStrip(a + b, p) == RStrip(a, p)
    decreases |b|
  {
    if |b| > 0 {
      assert (a + b)[|a + b| - 1] == b[|b| - 1];
      assert (a + b)[..|a + b| - 1] == a + b[..|b| - 1];
      RStripSkips(a, b[..|b| - 1], p);
    } else {
      assert a + b == a;
    }
  }

  /** `StripBy` removes exactly a wrapping of characters satisfying `p`
      around a core that neither starts nor ends with one. */
  lemma StripByWrapped(a: string, core: string, b: string, p: char -> bool)
    requires |core| > 0 && !p(core[0]) && !p(core[|core| - 1])
    requires forall i :: 0 <= i < |a| ==> p(a[i])
    requires forall i :: 0 <= i < |b| ==> p(b[i])
    ensures StripBy(a + core + b, p) == core
  {
    assert a + core + b == a + (core + b);
    LStripSkips(a, core + b, p);
    assert (core + b)[0] == core[0];
    assert LStrip(core + b, p) == core + b;
    RStripSkips(core, b, p);
  }

  /** Blanks outside and angle brackets inside them are all removed by `Strip`. */
  lemma StripWrapped(lead: string, la: string, u: string, ra: string, trail: string)
    requires |u| > 0
    requires !IsSpace(u[0]) && !IsAngle(u[0])
    requires !IsSpace(u[|u| - 1]) && !IsAngle(u[|u| - 1])
    requires forall i :: 0 <= i < |lead| ==> IsSpace(lead[i])
    requires forall i :: 0 <= i < |trail| ==> IsSpace(trail[i])
    requires forall i :: 0 <= i < |la| ==> IsAngle(la[i])
    requires forall i :: 0 <= i < |ra| ==> IsAngle(ra[i])
    ensures Strip(lead + la + u + ra + trail) == u
  {
    var core := la + u + ra;
    assert lead + la + u + ra + trail == lead + core + trail;
    assert core[0] == if |la| > 0 then la[0] else u[0];
    assert core[|core| - 1] == if |ra| > 0 then ra[|ra| - 1] else u[|u| - 1];
    StripByWrapped(lead, core, trail, IsSpace);
    StripByWrapped(la, u, ra, IsAngle);
  }

  /** `w` occurs in `s` starting at index `i`. */
  predicate OccursAt(s: string, w: string, i: int) {
    0 <= i && i + |w| <= |s| && s[i..i + |w|] == w
  }

  /** Python's substring test `w in s`. */
  predicate Contains(s: string, w: string) {
    exists i :: 0 <= i <= |s| - |w| && OccursAt(s, w, i)
  }

  /** Regrouping a concatenation of four parts. */
  lemma Regroup<T>(a: seq<T>, b: seq<T>, c: seq<T>, d: seq<T>)
    ensures a + b + c + d == a + b + (c + d)
  {
  }

  /** A string with no occurrence of the first character of `w` does not contain `w`. */
  lemma NotContainsWithoutHead(s: string, w: string)
    requires |w| > 0 && w[0] !in s
    ensures !Contains(s, w)
  {
    forall i | 0 <= i <= |s| - |w|
      ensures !OccursAt(s, w, i)
    {
      assert s[i] in s;
      assert s[i..i + |w|][0] == s[i];
    }
  }

  /** A string that lacks some character of `w` does not contain `w`. */
  lemma NotContainsMissing(s: string, w: string, k: nat)
    requires k < |w| && w[k] !in s
    ensures !Contains(s, w)
  {
    forall i | 0 <= i <= |s| - |w|
      ensures !OccursAt(s, w, i)
    {
      assert s[i + k] in s;
      assert s[i..i + |w|][k] == s[i + k];
    }
  }

  function LowerChar(c: char): char {
    if 'A' <= c <= 'Z' then (c as int + 32) as char else c
  }

  /** `str.lower()` restricted to ASCII letters: no other character can lower
      into the ASCII words this model searches for. */
  function LowerAscii(s: string): (r: string)
    ensures |r| == |s|
    ensures forall i :: 0 <= i < |s| ==> r[i] == LowerChar(s[i])
  {
    seq(|s|, i requires 0 <= i < |s| => LowerChar(s[i]))
  }

  /** `str.split(sep)` with a one-character separator: always at least one
      piece, and no piece contains the separator. */
  function Split(s: string, sep: char): (r: seq<string>)
    ensures |r| >= 1
    ensures forall k :: 0 <= k < |r| ==> sep !in r[k]
    decreases |s|
  {
    if |s| == 0 then [""]
    else
      var rest := Split(s[1..], sep);
      if s[0] == sep then [""] + rest
      else [[s[0]] + rest[0]] + rest[1..]
  }

  /** `sep.join(parts)`. */
  function Join(parts: seq<string>, sep: char): string
    decreases |parts|
  {
    if |parts| == 0 then ""
    else if |parts| == 1 then parts[0]
    else parts[0] + [sep] + Join(parts[1..], sep)
  }

  /** Splitting loses nothing: joining the pieces restores the text. */
  lemma {:induction false} SplitJoin(s: string, sep: char)
    ensures Join(Split(s, sep), sep) == s
    decreases |s|
  {
    if |s| > 0 {
      var rest := Split(s[1..], sep);
      SplitJoin(s[1..], sep);
      if s[0] == sep {
        assert Split(s, sep) == [""] + rest;
        assert ([""] + rest)[1..] == rest;
      } else {
        var parts := Split(s, sep);
        assert parts == [[s[0]] + rest[0]] + rest[1..];
        if |rest| == 1 {
          assert Join(rest, sep) == rest[0];
        } else {
          assert Join(rest, sep) == rest[0] + [sep] + Join(rest[1..], sep);
          assert parts[1..] == rest[1..];
        }
        assert s == [s[0]] + s[1..];
      }
    }
  }

  /** A text without the separator is a single piece. */
  lemma {:induction false} SplitWithoutSep(a: string, sep: char)
    requires sep !in a
    ensures Split(a, sep) == [a]
    decreases |a|
  {
    if |a| > 0 {
      assert sep !in a[1..] by {
        forall k | 0 <= k < |a| - 1
          ensures a[1..][k] != sep
        {
          assert a[1..][k] == a[k + 1];
        }
      }
      SplitWithoutSep(a[1..], sep);
      assert [a[0]] + a[1..] == a;
    }
  }

  /** The first piece ends at the first separator. */
  lemma {:induction false} SplitAtFirstSep(a: string, sep: char, b: string)
    requires sep !in a
    ensures Split(a + [sep] + b, sep) == [a] + Split(b, sep)
    decreases |a|
  {
    var s := a + [sep] + b;
    if |a| == 0 {
      assert s[0] == sep && s[1..] == b;
    } else {
      assert s[1..] == a[1..] + [sep] + b;
      assert sep !in a[1..] by {
        forall k | 0 <= k < |a| - 1
          ensures a[1..][k] != sep
        {
          assert a[1..][k] == a[k + 1];
        }
      }
      SplitAtFirstSep(a[1..], sep, b);
      assert [a[0]] + a[1..] == a;
    }
  }

  /** The order-preserving filter of a Python list comprehension
      `[x for x in s if p(x)]`. */
  function Filter<T>(s: seq<T>, p: T -> bool): (r: seq<T>)
    ensures |r| <= |s|
    ensures forall i :: 0 <= i < |r| ==> r[i] in s && p(r[i])
    ensures forall i :: 0 <= i < |s| && p(s[i]) ==> s[i] in r
    decreases |s|
  {
    if |s| == 0 then []
    else if p(s[0]) then [s[0]] + Filter(s[1..], p)
    else Filter(s[1..], p)
  }

  /** Filtering distributes over concatenation, so it keeps the relative order
      of the elements it retains. */
  lemma {:induction false} FilterConcat<T>(a: seq<T>, b: seq<T>, p: T -> bool)
    ensures Filter(a + b, p) == Filter(a, p) + Filter(b, p)
    decreases |a|
  {
    if |a| > 0 {
      assert (a + b)[1..] == a[1..] + b;
      assert (a + b)[0] == a[0];
      FilterConcat(a[1..], b, p);
    } else {
      assert a + b == b;
    }
  }

  /** A filter that every element passes is the identity. */
  lemma {:induction false} FilterKeepsAll<T>(s: seq<T>, p: T -> bool)
    requires forall i :: 0 <= i < |s| ==> p(s[i])
    ensures Filter(s, p) == s
    decreases |s|
  {
    if |s| > 0 {
      assert p(s[0]);
      FilterKeepsAll(s[1..], p);
      assert [s[0]] + s[1..] == s;
    }
  }

  /** The index of the first character satisfying `p`, or `|s|` when there is
      none: Python's `str.find` generalised to a character class. */
  function FirstWhere(s: string, p: char -> bool): (r: nat)
    ensures r <= |s|
    ensures r < |s| ==> p(s[r])
    ensures forall j :: 0 <= j < r ==> !p(s[j])
    decreases |s|
  {
    if |s| == 0 then 0 else if p(s[0]) then 0 else 1 + FirstWhere(s[1..], p)
  }

  /** Python truthiness of `x.strip()`: some character is not whitespace. */
  predicate HasNonSpace(x: string) {
    exists i :: 0 <= i < |x| && !IsSpace(x[i])
  }
}
