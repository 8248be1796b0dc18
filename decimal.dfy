/**
 * Decimal text of integers, as Python's `str()` writes them, and a reader
 * that turns such text back into the integer.
 */
module Decimal {
  import opened Wrappers

  predicate IsDigit(c: char) {
    '0' <= c <= '9'
  }

  /** Every character of `s` is a decimal digit (checked from the last one back). */
  predicate AllDigits(s: string) {
    s == [] || (IsDigit(s[|s| - 1]) && AllDigits(s[..|s| - 1]))
  }

  lemma {:induction false} AllDigitsPointwise(s: string)
    ensures AllDigits(s) <==> forall i :: 0 <= i < |s| ==> IsDigit(s[i])
  {
    if s != [] {
      var p := s[..|s| - 1];
      AllDigitsPointwise(p);
      assert forall i :: 0 <= i < |p| ==> p[i] == s[i];
    }
  }

  function DigitChar(d: nat): (c: char)
    requires d < 10
    ensures IsDigit(c)
  {
    ('0' as int + d) as char
  }

  function DigitValue(c: char): (d: nat)
    requires IsDigit(c)
    ensures d < 10
  {
    c as int - '0' as int
  }

  /** `str(n)` for a non-negative `n`. */
  function NatToString(n: nat): string {
    if n < 10 then [DigitChar(n)] else NatToString(n / 10) + [DigitChar(n % 10)]
  }

  /** `str(n)` is at least one digit, with no leading zero unless `n` is 0. */
  lemma {:induction false} NatToStringDigits(n: nat)
    ensures |NatToString(n)| >= 1 && AllDigits(NatToString(n))
    ensures IsDigit(NatToString(n)[0])
    ensures NatToString(n)[0] == '0' <==> n == 0
  {
    if n >= 10 {
      NatToStringDigits(n / 10);
      var p := NatToString(n / 10);
      var s := p + [DigitChar(n % 10)];
      assert s[..|s| - 1] == p;
      assert s[0] == p[0];
    } else {
      assert NatToString(n)[..0] == [];
    }
  }

  /** `str(i)` for any integer. */
  function IntToString(i: int): string {
    if i < 0 then "-" + NatToString(-i) else NatToString(i)
  }

  /** `str(i)` has a minus sign exactly for negative values and digits everywhere else. */
  lemma IntToStringShape(i: int)
    ensures |IntToString(i)| >= 1
    ensures IntToString(i)[0] == '-' <==> i < 0
    ensures forall k :: 0 < k < |IntToString(i)| ==> IsDigit(IntToString(i)[k])
    ensures IntToString(i)[0] == '-' || IsDigit(IntToString(i)[0])
  {
    if i < 0 {
      NatToStringDigits(-i);
      AllDigitsPointwise(NatToString(-i));
      assert forall k :: 0 < k < |IntToString(i)| ==> IntToString(i)[k] == NatToString(-i)[k - 1];
    } else {
      NatToStringDigits(i);
      AllDigitsPointwise(NatToString(i));
    }
  }

  /** The value of a string of decimal digits, most significant first. */
  function DigitsValue(s: string): nat
    requires AllDigits(s)
  {
    if s == [] then 0 else DigitsValue(s[..|s| - 1]) * 10 + DigitValue(s[|s| - 1])
  }

  /** Reads an optionally signed decimal integer; anything else gives `None`. */
  function ParseInt(t: string): Option<int> {
    if t == [] then None
    else if t[0] == '-' then
      if |t| > 1 && AllDigits(t[1..]) then Some(-(DigitsValue(t[1..]) as int)) else None
    else if AllDigits(t) then Some(DigitsValue(t))
    else None
  }

  lemma {:induction false} NatToStringValue(n: nat)
    requires AllDigits(NatToString(n))
    ensures DigitsValue(NatToString(n)) == n
  {
    if n >= 10 {
      NatToStringDigits(n / 10);
      var p := NatToString(n / 10);
      var s := p + [DigitChar(n % 10)];
      assert s[..|s| - 1] == p;
      NatToStringValue(n / 10);
    }
  }

  /** A non-empty digit string parses to its value, with or without a leading minus sign. */
  lemma ParseDigits(d: string, n: nat)
    requires |d| >= 1 && AllDigits(d) && IsDigit(d[0]) && DigitsValue(d) == n
    ensures ParseInt(d) == Some(n)
    ensures ParseInt("-" + d) == Some(-(n as int))
  {
    var t := "-" + d;
    assert t[0] == '-' && |t| > 1;
    assert t[1..] == d;
  }

  /** Reading back what `str()` wrote gives the original integer. */
  lemma IntToStringRoundTrip(i: int)
    ensures ParseInt(IntToString(i)) == Some(i)
  {
    var n: nat := if i < 0 then -i else i;
    NatToStringDigits(n);
    NatToStringValue(n);
    ParseDigits(NatToString(n), n);
  }
}
