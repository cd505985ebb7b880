// Natural numbers written in decimal, as `format!("{}")`/`str()` write
// them and as `str::parse`/`int()` read them back.
module Decimal {
  import opened Common

  predicate IsDigit(c: char) { '0' <= c <= '9' }

  predicate AllDigits(s: string) { forall i :: 0 <= i < |s| ==> IsDigit(s[i]) }

  function DigitChar(d: nat): (c: char)
    requires d < 10
    ensures IsDigit(c) && (c as int) - ('0' as int) == d
  {
    ('0' as int + d) as char
  }

  function DigitValue(c: char): (d: nat)
    requires IsDigit(c)
    ensures d < 10 && DigitChar(d) == c
  {
    (c as int) - ('0' as int)
  }

  /** The decimal form of `n`, without leading zeros. */
  function NatToString(n: nat): (s: string)
    ensures |s| >= 1 && AllDigits(s)
  {
    if n < 10 then [DigitChar(n)] else NatToString(n / 10) + [DigitChar(n % 10)]
  }

  /** The value of a digit string, leading zeros allowed. */
  function DigitsValue(s: string): nat
    requires AllDigits(s)
  {
    if s == [] then 0 else 10 * DigitsValue(s[..|s| - 1]) + DigitValue(s[|s| - 1])
  }

  /** Reading a decimal number: it must be non-empty and all digits. */
  function ParseNat(s: string): (r: Option<nat>)
    ensures r.Some? <==> (|s| >= 1 && AllDigits(s))
  {
    if |s| >= 1 && AllDigits(s) then Some(DigitsValue(s)) else None
  }

  /** Reading back what was written gives the number. */
  lemma {:induction false} ParseNatToString(n: nat)
    ensures ParseNat(NatToString(n)) == Some(n)
  {
    DigitsValueToString(n);
  }

  lemma {:induction false} DigitsValueToString(n: nat)
    ensures DigitsValue(NatToString(n)) == n
  {
    var s := NatToString(n);
    if n < 10 {
      assert s[..0] == [];
    } else {
      DigitsValueToString(n / 10);
      assert s[..|s| - 1] == NatToString(n / 10);
    }
  }

  /** Appending one digit multiplies by ten and adds it. */
  lemma DigitsValueSnoc(s: string, d: nat)
    requires AllDigits(s) && d < 10
    ensures AllDigits(s + [DigitChar(d)])
    ensures DigitsValue(s + [DigitChar(d)]) == 10 * DigitsValue(s) + d
  {
    var t := s + [DigitChar(d)];
    assert t[..|t| - 1] == s;
  }

  /** Different numbers are written differently. */
  lemma NatToStringInjective(m: nat, n: nat)
    requires NatToString(m) == NatToString(n)
    ensures m == n
  {
    DigitsValueToString(m);
    DigitsValueToString(n);
  }

  /** A decimal form contains no separator character such as ':'. */
  lemma NatToStringNoColon(n: nat)
    ensures ':' !in NatToString(n)
  {
  }

  /** A number of six digits lies in 100000..999999. */
  lemma SixDigits(n: nat)
    requires 100000 <= n <= 999999
    ensures |NatToString(n)| == 6
  {
    var n1, n2, n3, n4, n5 := n / 10, n / 100, n / 1000, n / 10000, n / 100000;
    assert 10000 <= n1 && 1000 <= n2 && 100 <= n3 && 10 <= n4 && 1 <= n5 < 10;
    assert n1 / 10 == n2 && n2 / 10 == n3 && n3 / 10 == n4 && n4 / 10 == n5;
    OneMoreDigit(n);
    OneMoreDigit(n1);
    OneMoreDigit(n2);
    OneMoreDigit(n3);
    OneMoreDigit(n4);
  }

  lemma OneMoreDigit(n: nat)
    requires n >= 10
    ensures |NatToString(n)| == |NatToString(n / 10)| + 1
  {
  }

  /** `str()` of an integer: a minus sign before the decimal form of a negative one. */
  function IntToString(i: int): (s: string)
    ensures |s| >= 1 && ':' !in s
  {
    if i >= 0 then NatToString(i) else "-" + NatToString(-i)
  }

  /** Python's `int()` on an optional minus sign followed by decimal digits. */
  function ParseInt(s: string): (r: Option<int>)
    ensures r.Some? ==> (AllDigits(s) || (|s| >= 2 && s[0] == '-' && AllDigits(s[1..])))
  {
    if |s| >= 2 && s[0] == '-' then
      match ParseNat(s[1..])
      case None => None
      case Some(n) => Some(0 - n as int)
    else
      match ParseNat(s)
      case None => None
      case Some(n) => Some(n as int)
  }

  /** Reading back what `str()` wrote gives the integer. */
  lemma ParseIntToString(i: int)
    ensures ParseInt(IntToString(i)) == Some(i)
  {
    if i >= 0 {
      ParseNatToString(i);
      assert NatToString(i)[0] != '-';
    } else {
      ParseNatToString(-i);
      assert ("-" + NatToString(-i))[1..] == NatToString(-i);
    }
  }

  /** Different integers are written differently. */
  lemma IntToStringInjective(i: int, j: int)
    requires IntToString(i) == IntToString(j)
    ensures i == j
  {
    ParseIntToString(i);
    ParseIntToString(j);
  }
}
