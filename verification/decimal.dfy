/** Decimal rendering of integers, as `Number.prototype.toString()` produces
    it for integral values, together with its inverse. */
module Decimal {
  import opened Results

  predicate IsDigit(c: char) {
    '0' <= c <= '9'
  }

  function DigitChar(d: nat): (c: char)
    requires d < 10
    ensures IsDigit(c)
    ensures DigitValue(c) == d
  {
    "0123456789"[d]
  }

  function DigitValue(c: char): nat
    requires IsDigit(c)
  {
    (c as int - '0' as int) as nat
  }

  predicate AllDigits(s: string) {
    forall i :: 0 <= i < |s| ==> IsDigit(s[i])
  }

  /** Digits of a non-negative integer, most significant first, no leading zero. */
  function NatToString(n: nat): (s: string)
    ensures |s| >= 1
    ensures AllDigits(s)
    ensures |s| > 1 ==> s[0] != '0'
    decreases n
  {
    if n < 10 then [DigitChar(n)] else NatToString(n / 10) + [DigitChar(n % 10)]
  }

  /** `n.toString()` for an integral number: a minus sign, then the digits of |n|. */
  function IntToString(n: int): (s: string)
    ensures |s| >= 1
    ensures s[0] == '-' || IsDigit(s[0])
  {
    if n < 0 then "-" + NatToString(-n) else NatToString(n)
  }

  /** Value of a string of decimal digits. */
  function ParseNat(s: string): nat
    requires AllDigits(s)
  {
    if |s| == 0 then 0 else ParseNat(s[..|s| - 1]) * 10 + DigitValue(s[|s| - 1])
  }

  /** Reads back an optionally signed decimal string; `None` for anything else. */
  function ParseInt(s: string): Option<int> {
    if |s| > 1 && s[0] == '-' && AllDigits(s[1..]) then Some(0 - ParseNat(s[1..]) as int)
    else if |s| > 0 && AllDigits(s) then Some(ParseNat(s) as int)
    else None
  }

  lemma {:induction false} ParseNatToString(n: nat)
    ensures ParseNat(NatToString(n)) == n
    decreases n
  {
    if n >= 10 {
      var prefix := NatToString(n / 10);
      var s := prefix + [DigitChar(n % 10)];
      assert s[..|s| - 1] == prefix;
      ParseNatToString(n / 10);
    }
  }

  /** `ParseInt` reads back the rendering of a non-negative integer. */
  lemma ParseNonNegative(m: nat)
    ensures ParseInt(NatToString(m)) == Some(m)
  {
    var digits := NatToString(m);
    assert IsDigit(digits[0]);
    ParseNatToString(m);
  }

  /** `ParseInt` reads back the rendering of a negative integer. */
  lemma ParseNegative(m: nat)
    requires m > 0
    ensures ParseInt("-" + NatToString(m)) == Some(0 - m as int)
  {
    var digits := NatToString(m);
    var s := "-" + digits;
    assert s[1..] == digits;
    ParseNatToString(m);
  }

  /** `ParseInt` undoes `IntToString`. */
  lemma ParseIntToString(n: int)
    ensures ParseInt(IntToString(n)) == Some(n)
  {
    if n < 0 {
      ParseNegative(-n);
    } else {
      ParseNonNegative(n);
    }
  }

  /** Distinct integers render as distinct strings. */
  lemma IntToStringInjective(a: int, b: int)
    ensures IntToString(a) == IntToString(b) <==> a == b
  {
    if IntToString(a) == IntToString(b) {
      ParseIntToString(a);
      ParseIntToString(b);
    }
  }
}
