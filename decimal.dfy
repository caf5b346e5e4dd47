/** Exact decimal text of integers, and its inverse. This is what
    JavaScript's `Number.prototype.toString()` writes for an integer of
    magnitude at most 2^53; above that a JavaScript number is a double, and
    `toString` writes the shortest digits that round back to it, padded with
    zeros (2^60 gives `1152921504606847000`). */
module Decimal {
  import opened Wrappers

  predicate IsDigit(c: char) {
    '0' <= c <= '9'
  }

  function DigitChar(d: int): (c: char)
    requires 0 <= d < 10
    ensures IsDigit(c)
  {
    ('0' as int + d) as char
  }

  /** Digits of `n`, most significant first, with no leading zero. */
  function NatToString(n: nat): (r: string)
    ensures |r| >= 1
    ensures forall i :: 0 <= i < |r| ==> IsDigit(r[i])
    ensures r[0] == '0' ==> n == 0 && r == "0"
  {
    if n < 10 then [DigitChar(n)] else NatToString(n / 10) + [DigitChar(n % 10)]
  }

  /** A negative number gets a leading `-`. */
  function IntToString(n: int): (r: string)
    ensures |r| >= 1
    ensures forall i :: 0 <= i < |r| ==> IsDigit(r[i]) || (i == 0 && r[i] == '-')
    ensures r[0] == '-' <==> n < 0
    ensures IsCanonical(r)
  {
    if n < 0 then "-" + NatToString(-n) else NatToString(n)
  }

  predicate IsNumeral(s: string) {
    |s| >= 1 && forall i :: 0 <= i < |s| ==> IsDigit(s[i])
  }

  /** A numeral with no leading zero: `0`, or digits starting with `1`-`9`. */
  predicate IsPlainNumeral(s: string) {
    IsNumeral(s) && (s[0] == '0' ==> |s| == 1)
  }

  /** The form `toString` writes an integer in: a plain numeral, with a `-`
      in front of a non-zero one for a negative number (never `-0`). */
  predicate IsCanonical(s: string) {
    if |s| >= 1 && s[0] == '-' then IsPlainNumeral(s[1..]) && s[1..] != "0"
    else IsPlainNumeral(s)
  }

  function ParseDigits(s: string): nat
    requires forall i :: 0 <= i < |s| ==> IsDigit(s[i])
  {
    if s == [] then 0
    else
      assert forall i :: 0 <= i < |s| - 1 ==> s[..|s| - 1][i] == s[i];
      assert IsDigit(s[|s| - 1]);
      ParseDigits(s[..|s| - 1]) * 10 + (s[|s| - 1] as int - '0' as int)
  }

  function ParseInt(s: string): Option<int>
  {
    if |s| >= 1 && s[0] == '-' then
      if IsNumeral(s[1..]) then Some(-(ParseDigits(s[1..]) as int)) else None
    else if IsNumeral(s) then Some(ParseDigits(s))
    else None
  }

  lemma {:induction false} ParseNatToString(n: nat)
    ensures ParseDigits(NatToString(n)) == n
  {
    if n >= 10 {
      var r := NatToString(n);
      assert r[..|r| - 1] == NatToString(n / 10);
      ParseNatToString(n / 10);
    }
  }

  /** The decimal text reads back as the same integer. */
  lemma IntRoundTrip(n: int)
    ensures ParseInt(IntToString(n)) == Some(n)
  {
    if n < 0 {
      assert IntToString(n)[1..] == NatToString(-n);
      ParseNatToString(-n);
    } else {
      ParseNatToString(n);
    }
  }

  /** A plain numeral is the decimal text of the number it denotes. */
  lemma {:induction false} PlainNumeralUnique(s: string)
    requires IsPlainNumeral(s)
    ensures NatToString(ParseDigits(s)) == s
    decreases |s|
  {
    if |s| == 1 {
      assert s[..0] == [];
    } else {
      var p := s[..|s| - 1];
      assert p[0] == s[0];
      assert forall i :: 0 <= i < |p| ==> p[i] == s[i];
      PlainNumeralUnique(p);
      var m := ParseDigits(p);
      assert m != 0;
      var n := ParseDigits(s);
      assert n / 10 == m && n % 10 == s[|s| - 1] as int - '0' as int;
      assert s == p + [s[|s| - 1]];
    }
  }

  /** Decimal text in canonical form is unique: the only canonical text that
      reads as `n` is `IntToString(n)`, so the digits carry no padding. */
  lemma CanonicalUnique(s: string, n: int)
    requires IsCanonical(s) && ParseInt(s) == Some(n)
    ensures s == IntToString(n)
  {
    if |s| >= 1 && s[0] == '-' {
      PlainNumeralUnique(s[1..]);
      assert ParseDigits(s[1..]) != 0;
      assert s == "-" + s[1..];
    } else {
      PlainNumeralUnique(s);
    }
  }
}
