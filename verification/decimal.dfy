/**
 * Decimal text of a 32-bit integer as Int32.ToString(CultureInfo.InvariantCulture)
 * writes it (an optional leading '-', then digits without leading zeros), and a
 * parser that reads it back.
 */
module Decimal {
  import opened Wrappers

  /** System.Int32. */
  type Int32 = x: int | -0x8000_0000 <= x < 0x8000_0000

  predicate IsDigit(c: char)
  {
    '0' <= c <= '9'
  }

  function DigitValue(c: char): (d: nat)
    requires IsDigit(c)
    ensures d < 10
  {
    c as int - '0' as int
  }

  function DigitChar(d: nat): (c: char)
    requires d < 10
    ensures IsDigit(c) && DigitValue(c) == d
  {
    (d + '0' as int) as char
  }

  /** The shortest decimal digit string of `n`. */
  function NatText(n: nat): (r: string)
    ensures r != []
    ensures forall i :: 0 <= i < |r| ==> IsDigit(r[i])
    ensures r[0] == '0' ==> n == 0 && r == "0"
    decreases n
  {
    if n < 10 then [DigitChar(n)] else NatText(n / 10) + [DigitChar(n % 10)]
  }

  /** Int32.ToString(CultureInfo.InvariantCulture). */
  function InvariantText(n: Int32): (r: string)
    ensures r != []
    ensures r[0] == '-' <==> n < 0
    ensures forall i :: 0 < i < |r| ==> IsDigit(r[i])
    ensures IsDigit(r[0]) <==> 0 <= n
    ensures 0 <= n && r[0] == '0' ==> r == "0"
    ensures n < 0 ==> |r| > 1 && r[1] != '0'
  {
    if n < 0 then "-" + NatText(-(n as int)) else NatText(n)
  }

  /** Reads a non-empty digit string as a natural number. */
  function ParseDigits(s: string): (r: Option<nat>)
    ensures r.Some? <==> s != [] && forall i :: 0 <= i < |s| ==> IsDigit(s[i])
    decreases |s|
  {
    if s == [] || !IsDigit(s[|s| - 1]) then None
    else if |s| == 1 then Some(DigitValue(s[0]))
    else
      var init := ParseDigits(s[..|s| - 1]);
      assert forall i :: 0 <= i < |s| - 1 ==> s[..|s| - 1][i] == s[i];
      match init
      case None => None
      case Some(n) => Some(10 * n + DigitValue(s[|s| - 1]))
  }

  /** Reads decimal text with an optional leading '-'. */
  function Parse(s: string): Option<int>
  {
    if s != [] && s[0] == '-' then
      match ParseDigits(s[1..])
      case None => None
      case Some(n) => Some(0 - (n as int))
    else
      match ParseDigits(s)
      case None => None
      case Some(n) => Some(n)
  }

  lemma {:induction false} ParseNatText(n: nat)
    ensures ParseDigits(NatText(n)) == Some(n)
    decreases n
  {
    if n >= 10 {
      var s := NatText(n);
      assert s[..|s| - 1] == NatText(n / 10);
      ParseNatText(n / 10);
    }
  }

  /** Parsing the invariant-culture text of an integer gives the integer back. */
  lemma ParseInvariantText(n: Int32)
    ensures Parse(InvariantText(n)) == Some(n)
  {
    if n < 0 {
      var m: nat := -(n as int);
      var s := "-" + NatText(m);
      assert InvariantText(n) == s;
      assert s != [] && s[0] == '-';
      assert s[1..] == NatText(m);
      ParseNatText(m);
      assert ParseDigits(s[1..]) == Some(m);
    } else {
      var s := NatText(n);
      assert InvariantText(n) == s;
      assert IsDigit(s[0]);
      ParseNatText(n);
    }
  }

  /** Distinct integers have distinct texts. */
  lemma InvariantTextInjective(m: Int32, n: Int32)
    requires InvariantText(m) == InvariantText(n)
    ensures m == n
  {
    ParseInvariantText(m);
    ParseInvariantText(n);
  }
}
