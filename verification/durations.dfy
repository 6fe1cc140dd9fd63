/** The `H:MM:SS` / `M:SS` duration text that `details`, `duration` and
    `track` build from the engine's duration in seconds
    (SHUKLAMUSIC/platforms/Youtube.py). Python's `divmod` on non-negative
    integers is Dafny's `/` and `%` on `nat`. */
module Durations {
  import opened Optional
  import opened Text
  import opened Decimal

  datatype Clock = Clock(hours: nat, minutes: nat, seconds: nat)

  /** The seconds a clock reading stands for. */
  function Seconds(c: Clock): nat {
    c.hours * 3600 + c.minutes * 60 + c.seconds
  }

  /** `m, s = divmod(sec, 60); h, m = divmod(m, 60)`. */
  function ToClock(sec: nat): (c: Clock)
    ensures c.hours * 3600 + c.minutes * 60 + c.seconds == sec
    ensures c.minutes < 60 && c.seconds < 60
  {
    var m := sec / 60;
    Clock(m / 60, m % 60, sec % 60)
  }

  /** `f"{h:d}:{m:02d}:{s:02d}" if h else f"{m:d}:{s:02d}"`. */
  function Render(c: Clock): string {
    if c.hours > 0 then NatToString(c.hours) + ":" + Pad2(c.minutes) + ":" + Pad2(c.seconds)
    else NatToString(c.minutes) + ":" + Pad2(c.seconds)
  }

  /** The text for a duration in seconds. */
  function FormatClock(sec: nat): string {
    Render(ToClock(sec))
  }

  /** A minutes or seconds field as `f"{m:02d}"` writes a value below 60. */
  predicate IsSixtyField(x: string) {
    |x| == 2 && AllDigits(x) && ParseDigits(x) < 60
  }

  /** Reads `M:SS` or `H:MM:SS`, exactly as `FormatClock` writes them, back
      into seconds; anything else is `None`. */
  function ParseClock(t: string): Option<nat> {
    ReadFields(Split(t, ':'))
  }

  /** The seconds the colon-separated fields of a clock text stand for: a
      canonical leading number (minutes below 60, or a non-zero hour count)
      followed by two-digit fields below 60. */
  function ReadFields(f: seq<string>): Option<nat> {
    if |f| == 2 && IsCanonicalNumeral(f[0]) && ParseDigits(f[0]) < 60 && IsSixtyField(f[1]) then
      Some(Seconds(Clock(0, ParseDigits(f[0]), ParseDigits(f[1]))))
    else if |f| == 3 && IsCanonicalNumeral(f[0]) && f[0] != "0" && IsSixtyField(f[1]) && IsSixtyField(f[2]) then
      Some(Seconds(Clock(ParseDigits(f[0]), ParseDigits(f[1]), ParseDigits(f[2]))))
    else
      None
  }

  lemma DigitsHaveNoColon(x: string)
    requires AllDigits(x)
    ensures ':' !in x
  {
    forall i | 0 <= i < |x| ensures x[i] != ':' {
      assert IsDigit(x[i]);
    }
  }

  /** The text determines the duration: reading it back gives the seconds,
      and it has three fields exactly when the duration reaches an hour. */
  lemma ClockRoundTrip(sec: nat)
    ensures ParseClock(FormatClock(sec)) == Some(sec)
    ensures |Split(FormatClock(sec), ':')| == (if sec >= 3600 then 3 else 2)
  {
    if ToClock(sec).hours > 0 {
      HoursRoundTrip(sec);
    } else {
      MinutesRoundTrip(sec);
    }
  }

  /** From an hour up the text is `H:MM:SS`. */
  lemma HoursRoundTrip(sec: nat)
    requires ToClock(sec).hours > 0
    ensures ParseClock(FormatClock(sec)) == Some(sec)
    ensures |Split(FormatClock(sec), ':')| == 3
  {
    var c := ToClock(sec);
    var hh, mm, ss := NatToString(c.hours), Pad2(c.minutes), Pad2(c.seconds);
    ParseNatToString(c.hours);
    NatToStringCanonical(c.hours);
    ParsePad2(c.minutes);
    ParsePad2(c.seconds);
    var t := FormatClock(sec);
    HoursText(sec);
    ThreeFields(hh, mm, ss);
    ReadThree(t, hh, mm, ss);
  }

  lemma HoursText(sec: nat)
    requires ToClock(sec).hours > 0
    ensures FormatClock(sec) == NatToString(ToClock(sec).hours) + [':'] + (Pad2(ToClock(sec).minutes) + [':'] + Pad2(ToClock(sec).seconds))
  {
    var c := ToClock(sec);
    var hh, mm, ss := NatToString(c.hours), Pad2(c.minutes), Pad2(c.seconds);
    assert FormatClock(sec) == hh + ":" + mm + ":" + ss;
  }

  /** Digit strings joined by colons split back into themselves. */
  lemma ThreeFields(hh: string, mm: string, ss: string)
    requires AllDigits(hh) && AllDigits(mm) && AllDigits(ss)
    ensures Split(hh + [':'] + (mm + [':'] + ss), ':') == [hh, mm, ss]
  {
    DigitsHaveNoColon(hh);
    DigitsHaveNoColon(mm);
    DigitsHaveNoColon(ss);
    SplitWithoutSep(ss, ':');
    SplitAtFirstSep(mm, ':', ss);
    SplitAtFirstSep(hh, ':', mm + [':'] + ss);
  }

  /** Below an hour the text is `M:SS`. */
  lemma MinutesRoundTrip(sec: nat)
    requires ToClock(sec).hours == 0
    ensures ParseClock(FormatClock(sec)) == Some(sec)
    ensures |Split(FormatClock(sec), ':')| == 2
  {
    var c := ToClock(sec);
    var m, ss := NatToString(c.minutes), Pad2(c.seconds);
    ParseNatToString(c.minutes);
    NatToStringCanonical(c.minutes);
    ParsePad2(c.seconds);
    DigitsHaveNoColon(m);
    DigitsHaveNoColon(ss);
    SplitWithoutSep(ss, ':');
    SplitAtFirstSep(m, ':', ss);
    var t := FormatClock(sec);
    assert t == m + [':'] + ss;
    ReadTwo(t, m, ss);
  }

  /** `ParseClock` on a text whose fields are already known. */
  lemma ReadThree(t: string, hh: string, mm: string, ss: string)
    requires Split(t, ':') == [hh, mm, ss]
    requires IsCanonicalNumeral(hh) && hh != "0" && IsSixtyField(mm) && IsSixtyField(ss)
    ensures ParseClock(t) == Some(Seconds(Clock(ParseDigits(hh), ParseDigits(mm), ParseDigits(ss))))
  {
    var f := [hh, mm, ss];
    assert |f| == 3 && f[0] == hh && f[1] == mm && f[2] == ss;
    assert ReadFields(f) == Some(Seconds(Clock(ParseDigits(hh), ParseDigits(mm), ParseDigits(ss))));
  }

  lemma ReadTwo(t: string, m: string, ss: string)
    requires Split(t, ':') == [m, ss]
    requires IsCanonicalNumeral(m) && ParseDigits(m) < 60 && IsSixtyField(ss)
    ensures ParseClock(t) == Some(Seconds(Clock(0, ParseDigits(m), ParseDigits(ss))))
  {
    var f := [m, ss];
    assert |f| == 2 && f[0] == m && f[1] == ss;
    assert ReadFields(f) == Some(Seconds(Clock(0, ParseDigits(m), ParseDigits(ss))));
  }

  /** The reading accepts nothing but renderings: every text it reads is
      the one `FormatClock` writes for the value read. */
  lemma ParseClockExact(t: string)
    requires ParseClock(t).Some?
    ensures FormatClock(ParseClock(t).value) == t
  {
    var f := Split(t, ':');
    SplitJoin(t, ':');
    if |f| == 2 {
      JoinTwo(f);
      MinutesText(f[0], f[1]);
    } else {
      JoinThree(f);
      HoursClockText(f[0], f[1], f[2]);
    }
  }

  /** Two texts the reading accepts with the same value are the same text. */
  lemma ParseClockInjective(t: string, u: string)
    requires ParseClock(t).Some? && ParseClock(t) == ParseClock(u)
    ensures t == u
  {
    ParseClockExact(t);
    ParseClockExact(u);
  }

  lemma JoinTwo(f: seq<string>)
    requires |f| == 2
    ensures Join(f, ':') == f[0] + [':'] + f[1]
  {
    assert Join(f[1..], ':') == f[1];
  }

  lemma JoinThree(f: seq<string>)
    requires |f| == 3
    ensures Join(f, ':') == f[0] + [':'] + (f[1] + [':'] + f[2])
  {
    assert f[1..][1..] == [f[2]];
    assert Join(f[1..], ':') == f[1] + [':'] + f[2];
  }

  /** `divmod(q * 60 + r, 60)` for `r < 60`. */
  lemma DivMod60(q: nat, r: nat)
    requires r < 60
    ensures (q * 60 + r) / 60 == q && (q * 60 + r) % 60 == r
  {
  }

  /** Fields below 60 are what `ToClock` recovers, so they are rendered as given. */
  lemma FormatOf(c: Clock)
    requires c.minutes < 60 && c.seconds < 60
    ensures FormatClock(Seconds(c)) == Render(c)
  {
    var k := c.hours * 60 + c.minutes;
    assert Seconds(c) == k * 60 + c.seconds;
    DivMod60(k, c.seconds);
    DivMod60(c.hours, c.minutes);
    assert ToClock(Seconds(c)) == c;
  }

  /** `M:SS` with the minutes and seconds below 60 is the rendering of its value. */
  lemma MinutesText(m: string, ss: string)
    requires IsCanonicalNumeral(m) && ParseDigits(m) < 60 && IsSixtyField(ss)
    ensures FormatClock(Seconds(Clock(0, ParseDigits(m), ParseDigits(ss)))) == m + [':'] + ss
  {
    FormatOf(Clock(0, ParseDigits(m), ParseDigits(ss)));
    RenderMinutes(m, ss);
  }

  lemma RenderMinutes(m: string, ss: string)
    requires IsCanonicalNumeral(m) && IsSixtyField(ss)
    ensures Render(Clock(0, ParseDigits(m), ParseDigits(ss))) == m + [':'] + ss
  {
    CanonicalRoundTrip(m);
    PaddedRoundTrip(ss);
  }

  /** `H:MM:SS` with a non-zero hour count is the rendering of its value. */
  lemma HoursClockText(hh: string, mm: string, ss: string)
    requires IsCanonicalNumeral(hh) && hh != "0" && IsSixtyField(mm) && IsSixtyField(ss)
    ensures FormatClock(Seconds(Clock(ParseDigits(hh), ParseDigits(mm), ParseDigits(ss)))) == hh + [':'] + (mm + [':'] + ss)
  {
    FormatOf(Clock(ParseDigits(hh), ParseDigits(mm), ParseDigits(ss)));
    RenderHours(hh, mm, ss);
  }

  lemma RenderHours(hh: string, mm: string, ss: string)
    requires IsCanonicalNumeral(hh) && hh != "0" && IsSixtyField(mm) && IsSixtyField(ss)
    ensures Render(Clock(ParseDigits(hh), ParseDigits(mm), ParseDigits(ss))) == hh + [':'] + (mm + [':'] + ss)
  {
    CanonicalRoundTrip(hh);
    LeadingDigitPositive(hh);
    PaddedRoundTrip(mm);
    PaddedRoundTrip(ss);
  }

  /** The documented renderings. */
  lemma ClockExamples()
    ensures FormatClock(45) == "0:45"
    ensures FormatClock(125) == "2:05"
    ensures FormatClock(3725) == "1:02:05"
  {
    SecondsOnly();
    MinutesAndSeconds();
    HoursMinutesSeconds();
  }

  lemma SecondsOnly()
    ensures FormatClock(45) == "0:45"
  {
    assert ToClock(45) == Clock(0, 0, 45);
    assert NatToString(4) == "4" && NatToString(45) == "45";
  }

  lemma MinutesAndSeconds()
    ensures FormatClock(125) == "2:05"
  {
    assert ToClock(125) == Clock(0, 2, 5);
    assert NatToString(2) == "2" && Pad2(5) == "05";
  }

  lemma HoursMinutesSeconds()
    ensures FormatClock(3725) == "1:02:05"
  {
    assert ToClock(3725) == Clock(1, 2, 5);
    assert NatToString(1) == "1" && Pad2(2) == "02" && Pad2(5) == "05";
  }

  /** `details`: `duration_sec = info.get("duration") or 0`, the text only for
      a non-zero duration, and `int(duration_sec or 0)` as the seconds field. */
  function DetailsDuration(d: Option<nat>): (r: (Option<string>, nat))
    ensures r.1 == d.GetOr(0)
    ensures r.0.None? <==> d.GetOr(0) == 0
    ensures r.0.Some? ==> ParseClock(r.0.value) == Some(r.1)
  {
    var sec := d.GetOr(0);
    if sec != 0 then ClockRoundTrip(sec); (Some(FormatClock(sec)), sec) else (None, 0)
  }

  /** `duration`: `None` only for an absent duration; zero renders as `0:00`. */
  function AccessorDuration(d: Option<nat>): (r: Option<string>)
    ensures r.None? <==> d.None?
    ensures r.Some? ==> ParseClock(r.value) == d
  {
    match d
    case None => None
    case Some(sec) => ClockRoundTrip(sec); Some(FormatClock(sec))
  }

  /** `track`: no text for an absent or zero duration. */
  function TrackDuration(d: Option<nat>): (r: Option<string>)
    ensures r.None? <==> d.GetOr(0) == 0
    ensures r.Some? ==> ParseClock(r.value) == d
  {
    match d
    case Some(sec) => if sec != 0 then ClockRoundTrip(sec); Some(FormatClock(sec)) else None
    case None => None
  }

  /** The three renderings agree, except that `duration` alone shows a zero
      duration as `0:00`. */
  lemma DurationVariantsAgree(d: Option<nat>)
    ensures TrackDuration(d) == DetailsDuration(d).0
    ensures d != Some(0) ==> AccessorDuration(d) == TrackDuration(d)
    ensures AccessorDuration(Some(0)) == Some("0:00")
  {
    ZeroText();
  }

  lemma ZeroText()
    ensures FormatClock(0) == "0:00"
  {
    assert ToClock(0) == Clock(0, 0, 0);
  }
}
