/** The check `urlsplit` applies to a network location that holds both `[`
    and `]`: CPython 3.12's `_check_bracketed_netloc` and
    `_check_bracketed_host`, as patched for CVE-2025-0938, together with the
    textual address forms of the `ipaddress` module that the host check
    relies on. Only whether a text is accepted is modelled, not the address
    value it denotes. */
module Addresses {
  import opened Text
  import opened Decimal

  predicate IsHexDigit(c: char) {
    ('0' <= c <= '9') || ('a' <= c <= 'f') || ('A' <= c <= 'F')
  }

  predicate NotHexDigit(c: char) {
    !IsHexDigit(c)
  }

  predicate IsAt(c: char) {
    c == '@'
  }

  predicate IsOpenBracket(c: char) {
    c == '['
  }

  predicate IsCloseBracket(c: char) {
    c == ']'
  }

  predicate IsColon(c: char) {
    c == ':'
  }

  predicate IsPercent(c: char) {
    c == '%'
  }

  /** `_parse_octet`: one to three ASCII digits, no leading zero unless the
      octet is `0` itself, and a value of at most 255. */
  predicate IsOctet(s: string) {
    1 <= |s| <= 3 && AllDigits(s) && (s == "0" || s[0] != '0') && ParseDigits(s) <= 255
  }

  /** `IPv4Address(s)` accepts `s`: exactly four octets separated by dots. */
  predicate IsIPv4Text(s: string) {
    var o := Split(s, '.');
    |o| == 4 && forall i :: 0 <= i < 4 ==> IsOctet(o[i])
  }

  /** `_parse_hextet`: one to four hexadecimal digits. */
  predicate IsHextet(s: string) {
    1 <= |s| <= 4 && forall i :: 0 <= i < |s| ==> IsHexDigit(s[i])
  }

  /** The first position from `i` on, short of the last field, that holds an
      empty field; a position at or past the last field when there is none. */
  function NextGap(parts: seq<string>, i: nat): (g: nat)
    ensures g >= i
    ensures g + 1 < |parts| ==> parts[g] == ""
    ensures forall j :: i <= j < g && j + 1 < |parts| ==> parts[j] != ""
    decreases |parts| - i
  {
    if i + 1 >= |parts| then i
    else if parts[i] == "" then i
    else NextGap(parts, i + 1)
  }

  /** The field checks of `IPv6Address._ip_int_from_string`, once an IPv4
      tail has become two hextets: at most nine fields, and either eight
      hextets, or a single `::` (an empty inner field) that stands for at
      least one zero hextet, with hextets before and after it. An empty
      first or last field is allowed only next to the `::`. */
  predicate HextetsOk(parts: seq<string>) {
    var n := |parts|;
    var g := NextGap(parts, 1);
    1 <= n <= 9 &&
    if g + 1 >= n then
      n == 8 && forall i :: 0 <= i < n ==> IsHextet(parts[i])
    else
      var hi := if parts[0] == "" then g - 1 else g;
      var lo := if parts[n - 1] == "" then n - g - 2 else n - g - 1;
      && NextGap(parts, g + 1) + 1 >= n
      && (parts[0] == "" ==> g == 1)
      && (parts[n - 1] == "" ==> g == n - 2)
      && hi + lo <= 7
      && (forall i :: 0 <= i < hi ==> IsHextet(parts[i]))
      && (forall i :: n - lo <= i < n ==> IsHextet(parts[i]))
  }

  /** The `:`-separated fields of an address without its scope: at least
      three, and a last field holding a `.` must be an IPv4 address, which
      counts as two hextets. */
  predicate IPv6Fields(parts: seq<string>) {
    |parts| >= 3 &&
    var last := parts[|parts| - 1];
    if '.' in last then IsIPv4Text(last) && HextetsOk(parts[..|parts| - 1] + ["0", "0"])
    else HextetsOk(parts)
  }

  /** `IPv6Address(s)` accepts `s`: no `/`; a `%scope` suffix, if any, that is
      non-empty and holds no second `%`; then the fields before the scope. */
  predicate IsIPv6Text(s: string) {
    var p := FirstWhere(s, IsPercent);
    && '/' !in s
    && (p < |s| ==> p + 1 < |s| && '%' !in s[p + 1..])
    && IPv6Fields(Split(s[..p], ':'))
  }

  /** `re.match(r"\Av[a-fA-F0-9]+\..+\Z", h)`: `v`, hexadecimal digits, a
      dot, then at least one character other than a newline. A hexadecimal
      digit is never a dot, so the run of digits ends exactly at the dot. */
  predicate IsIPvFuture(h: string) {
    |h| >= 1 && h[0] == 'v' &&
    var k := 1 + FirstWhere(h[1..], NotHexDigit);
    k >= 2 && k + 1 < |h| && h[k] == '.' && '\n' !in h[k + 1..]
  }

  /** `_check_bracketed_host`: a host starting with `v` must be an IPvFuture
      literal; any other must pass `ip_address` as an IPv6 address, since an
      IPv4 address in brackets is refused as well. */
  predicate BracketedHostOk(h: string) {
    if |h| > 0 && h[0] == 'v' then IsIPvFuture(h)
    else !IsIPv4Text(h) && IsIPv6Text(h)
  }

  /** `netloc.rpartition('@')[2]`: the text after the last `@`, or all of it. */
  function AfterLastAt(n: string): (r: string)
    ensures '@' !in r && |r| <= |n|
    ensures '@' !in n ==> r == n
    decreases |n|
  {
    var i := FirstWhere(n, IsAt);
    if i < |n| then AfterLastAt(n[i + 1..]) else n
  }

  /** `_check_bracketed_netloc`: after the last `@`, a `[` must open the host
      part; whatever follows the `]` must be empty or start a `:port`; the
      text between the brackets, or, with no `[` there, the text before the
      first `:`, must pass the host check. */
  predicate BracketedNetlocOk(n: string) {
    var hp := AfterLastAt(n);
    var b := FirstWhere(hp, IsOpenBracket);
    if b < |hp| then
      var bracketed := hp[b + 1..];
      var e := FirstWhere(bracketed, IsCloseBracket);
      var port := if e < |bracketed| then bracketed[e + 1..] else "";
      && b == 0
      && (port == "" || port[0] == ':')
      && BracketedHostOk(bracketed[..e])
    else
      BracketedHostOk(hp[..FirstWhere(hp, IsColon)])
  }

  /** How `_check_bracketed_netloc` cuts `[h]` followed by `t`. */
  lemma BracketCut(h: string, t: string)
    requires '@' !in h && '[' !in h && ']' !in h && '@' !in t
    ensures AfterLastAt("[" + h + "]" + t) == "[" + h + "]" + t
    ensures FirstWhere("[" + h + "]" + t, IsOpenBracket) == 0
    ensures ("[" + h + "]" + t)[1..] == h + "]" + t
    ensures FirstWhere(h + "]" + t, IsCloseBracket) == |h|
    ensures (h + "]" + t)[..|h|] == h && (h + "]" + t)[|h| + 1..] == t
  {
    var n := "[" + h + "]" + t;
    forall j | 0 <= j < |n| ensures n[j] != '@' {
      if 1 <= j <= |h| {
        assert n[j] == h[j - 1] && h[j - 1] in h;
      } else if j > |h| + 1 {
        assert n[j] == t[j - |h| - 2] && t[j - |h| - 2] in t;
      }
    }
    assert n[0] == '[';
    var b := h + "]" + t;
    assert n[1..] == b;
    forall j | 0 <= j < |h| ensures b[j] != ']' {
      assert b[j] == h[j] && h[j] in h;
    }
    assert b[|h|] == ']';
  }

  /** A network location `[h]` or `[h]:port`, with no `@` and no further
      bracket, passes exactly when its host does. */
  lemma HostInBrackets(h: string, port: string)
    requires '@' !in h && '[' !in h && ']' !in h && '@' !in port
    requires port == "" || port[0] == ':'
    ensures BracketedNetlocOk("[" + h + "]" + port) <==> BracketedHostOk(h)
  {
    BracketCut(h, port);
  }

  /** Text between the `]` and a `:port` is refused, whatever the host. */
  lemma TextAfterBracket(h: string, t: string)
    requires '@' !in h && '[' !in h && ']' !in h && '@' !in t
    requires |t| > 0 && t[0] != ':'
    ensures !BracketedNetlocOk("[" + h + "]" + t)
  {
    BracketCut(h, t);
  }

  /** Text before the `[` is refused, whatever follows. */
  lemma TextBeforeBracket(a: string, rest: string)
    requires |a| > 0 && '@' !in a && '[' !in a && '@' !in rest
    ensures !BracketedNetlocOk(a + "[" + rest)
  {
    var n := a + "[" + rest;
    forall j | 0 <= j < |n| ensures n[j] != '@' {
      if j < |a| {
        assert n[j] == a[j] && a[j] in a;
      } else if j > |a| {
        assert n[j] == rest[j - |a| - 1] && rest[j - |a| - 1] in rest;
      }
    }
    forall j | 0 <= j < |a| ensures n[j] != '[' {
      assert n[j] == a[j] && a[j] in a;
    }
    assert n[|a|] == '[';
  }

  /** The loopback address `::1` is a bracketable host. */
  lemma LoopbackIsHost()
    ensures BracketedHostOk("::1")
  {
    var s := "::1";
    assert FirstWhere(s, IsPercent) == 3;
    assert s[..3] == s;
    SplitWithoutSep("1", ':');
    SplitAtFirstSep("", ':', "1");
    assert ":1" == "" + [':'] + "1";
    SplitAtFirstSep("", ':', ":1");
    assert s == "" + [':'] + ":1";
    var parts := Split(s, ':');
    assert parts == ["", "", "1"];
    assert NextGap(parts, 1) == 1;
    assert NextGap(parts, 2) == 2;
    assert IsHextet("1");
    SplitWithoutSep(s, '.');
  }

  /** A name is not a bracketable host. */
  lemma NameIsNotHost()
    ensures !BracketedHostOk("x")
  {
    assert FirstWhere("x", IsPercent) == 1;
    assert "x"[..1] == "x";
    SplitWithoutSep("x", ':');
  }

  /** A single non-zero digit is an octet. */
  lemma DigitIsOctet(c: char)
    requires '1' <= c <= '9'
    ensures IsOctet([c])
  {
    assert [c][1..] == [];
  }

  /** `1.2.3.4` splits into its four octets. */
  lemma DottedQuadFields()
    ensures Split("1.2.3.4", '.') == ["1", "2", "3", "4"]
  {
    SplitWithoutSep("4", '.');
    assert "3.4" == "3" + ['.'] + "4";
    SplitAtFirstSep("3", '.', "4");
    assert "2.3.4" == "2" + ['.'] + "3.4";
    SplitAtFirstSep("2", '.', "3.4");
    assert "1.2.3.4" == "1" + ['.'] + "2.3.4";
    SplitAtFirstSep("1", '.', "2.3.4");
  }

  /** An IPv4 address is refused in brackets. */
  lemma IPv4IsNotHost()
    ensures !BracketedHostOk("1.2.3.4")
  {
    DottedQuadFields();
    DigitIsOctet('1');
    DigitIsOctet('2');
    DigitIsOctet('3');
    DigitIsOctet('4');
    assert IsIPv4Text("1.2.3.4");
  }

  /** `v1.x` is an IPvFuture literal. */
  lemma FutureIsHost()
    ensures BracketedHostOk("v1.x")
  {
    var h := "v1.x";
    assert h[1..] == "1.x";
    assert FirstWhere("1.x", NotHexDigit) == 1;
  }
}
