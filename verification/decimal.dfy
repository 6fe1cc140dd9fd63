/** Decimal rendering of natural numbers as Python's `f"{n:d}"` and
    `f"{n:02d}"` produce it, and the reading that inverts it. */
module Decimal {

  predicate IsDigit(c: char) {
    '0' <= c <= '9'
  }

  predicate AllDigits(s: string) {
    forall i :: 0 <= i < |s| ==> IsDigit(s[i])
  }

  function DigitChar(d: nat): (c: char)
    requires d < 10
    ensures IsDigit(c)
  {
    ('0' as int + d) as char
  }

  function DigitValue(c: char): (d: nat)
    requires IsDigit(c)
    ensures d < 10
  {
    c as int - '0' as int
  }

  /** `f"{n:d}"`: the shortest decimal numeral of `n`. */
  function NatToString(n: nat): (r: string)
    ensures |r| >= 1 && AllDigits(r)
    ensures n < 10 <==> |r| == 1
    decreases n
  {
    if n < 10 then [DigitChar(n)] else NatToString(n / 10) + [DigitChar(n % 10)]
  }

  /** `f"{n:02d}"`: zero-padded to at least two digits. */
  function Pad2(n: nat): (r: string)
    ensures |r| >= 2 && AllDigits(r)
    ensures n < 100 ==> |r| == 2
  {
    if n < 10 then ['0'] + NatToString(n) else NatToString(n)
  }

  /** The value of a numeral; leading zeros are allowed. */
  function ParseDigits(s: string): nat
    requires AllDigits(s)
    decreases |s|
  {
    if |s| == 0 then 0 else ParseDigits(s[..|s| - 1]) * 10 + DigitValue(s[|s| - 1])
  }

  /** Reading back a rendered number gives the number. */
  lemma {:induction false} ParseNatToString(n: nat)
    ensures ParseDigits(NatToString(n)) == n
    decreases n
  {
    var s := NatToString(n);
    if n < 10 {
      assert s[..0] == [];
    } else {
      assert s[..|s| - 1] == NatToString(n / 10);
      ParseNatToString(n / 10);
    }
  }

  /** Zero padding does not change the value read back. */
  lemma ParsePad2(n: nat)
    ensures ParseDigits(Pad2(n)) == n
  {
    ParseNatToString(n);
    if n < 10 {
      var s := Pad2(n);
      assert s[..1] == ['0'];
      assert s[..1][..0] == [];
    }
  }

  /** A numeral as `f"{n:d}"` writes it: no leading zero unless it is `0`. */
  predicate IsCanonicalNumeral(x: string) {
    |x| >= 1 && AllDigits(x) && (x == "0" || x[0] != '0')
  }

  /** Rendered numbers are canonical, and only zero renders as `0`. */
  lemma {:induction false} NatToStringCanonical(n: nat)
    ensures IsCanonicalNumeral(NatToString(n))
    ensures NatToString(n) == "0" <==> n == 0
    decreases n
  {
    if n >= 10 {
      NatToStringCanonical(n / 10);
      assert NatToString(n)[0] == NatToString(n / 10)[0];
    }
  }

  /** A numeral with a non-zero leading digit has a positive value. */
  lemma {:induction false} LeadingDigitPositive(x: string)
    requires |x| >= 1 && AllDigits(x) && x[0] != '0'
    ensures ParseDigits(x) >= 1
    decreases |x|
  {
    if |x| > 1 {
      var p := x[..|x| - 1];
      assert p[0] == x[0];
      LeadingDigitPositive(p);
    }
  }

  /** A canonical numeral is the rendering of its own value. */
  lemma {:induction false} CanonicalRoundTrip(x: string)
    requires IsCanonicalNumeral(x)
    ensures NatToString(ParseDigits(x)) == x
    decreases |x|
  {
    var d := DigitValue(x[|x| - 1]);
    if |x| == 1 {
      assert x[..0] == [];
      assert DigitChar(d) == x[0];
    } else {
      var p := x[..|x| - 1];
      assert p[0] == x[0] && p != "0";
      LeadingDigitPositive(p);
      CanonicalRoundTrip(p);
      var n := ParseDigits(x);
      assert n == ParseDigits(p) * 10 + d;
      assert n / 10 == ParseDigits(p) && n % 10 == d;
      assert DigitChar(d) == x[|x| - 1];
      assert x == p + [x[|x| - 1]];
    }
  }

  /** Two digits are the zero-padded rendering of their value. */
  lemma PaddedRoundTrip(x: string)
    requires |x| == 2 && AllDigits(x)
    ensures Pad2(ParseDigits(x)) == x
  {
    var a, b := DigitValue(x[0]), DigitValue(x[1]);
    assert x[..1][..0] == [];
    assert ParseDigits(x[..1]) == a;
    var n := ParseDigits(x);
    assert n == a * 10 + b;
    assert DigitChar(a) == x[0] && DigitChar(b) == x[1];
    if a == 0 {
      assert Pad2(n) == ['0'] + [DigitChar(b)];
    } else {
      assert n / 10 == a && n % 10 == b;
      assert NatToString(n) == NatToString(a) + [DigitChar(b)];
    }
  }

  /** `str(n)` for any integer. */
  function IntToString(n: int): (r: string)
    ensures |r| >= 1
    ensures n >= 0 ==> AllDigits(r)
    ensures n < 0 ==> r[0] == '-' && AllDigits(r[1..])
  {
    if n < 0 then "-" + NatToString(-n) else NatToString(n)
  }
}
