/** Python's str() of an int, and the names "FaceN" / "SolidN" built from it. */
module Decimal {

  function Digit(d: nat): (c: char)
    requires d < 10
  {
    "0123456789"[d]
  }

  function DigitValue(c: char): nat
  {
    if '0' <= c <= '9' then (c as int - '0' as int) as nat else 0
  }

  /** str(n) for n >= 0: decimal digits, no leading zero. */
  function NatToString(n: nat): (s: string)
    ensures |s| >= 1
    ensures n >= 10 ==> |s| >= 2
  {
    if n < 10 then [Digit(n)] else NatToString(n / 10) + [Digit(n % 10)]
  }

  /** str(i) for any int: a minus sign before the digits of a negative value. */
  function IntToString(i: int): (s: string)
    ensures |s| >= 1 && (s[0] == '-' <==> i < 0)
  {
    DigitsOnly(if i < 0 then -i else i);
    if i < 0 then "-" + NatToString(-i) else NatToString(i)
  }

  /** Reads a string of decimal digits back as a number. */
  function DecimalValue(s: string): nat
  {
    if s == [] then 0 else DecimalValue(s[..|s| - 1]) * 10 + DigitValue(s[|s| - 1])
  }

  /** Reads an optional minus sign followed by decimal digits. */
  function IntValue(s: string): int
  {
    if |s| > 0 && s[0] == '-' then 0 - DecimalValue(s[1..]) as int else DecimalValue(s)
  }

  lemma DigitRoundTrip(d: nat)
    requires d < 10
    ensures DigitValue(Digit(d)) == d
  {
  }

  /** Reading back what NatToString wrote gives the number again. */
  lemma {:induction false} NatToStringRoundTrip(n: nat)
    ensures DecimalValue(NatToString(n)) == n
  {
    if n < 10 {
      DigitRoundTrip(n);
    } else {
      var s := NatToString(n / 10);
      NatToStringRoundTrip(n / 10);
      DigitRoundTrip(n % 10);
      assert (s + [Digit(n % 10)])[..|s|] == s;
    }
  }

  /** The decimal text of an int reads back as that int. */
  lemma IntToStringRoundTrip(i: int)
    ensures IntValue(IntToString(i)) == i
  {
    if i < 0 {
      var t := NatToString(-i);
      NatToStringRoundTrip(-i);
      assert ("-" + t)[1..] == t;
    } else {
      DigitsOnly(i);
      NatToStringRoundTrip(i);
    }
  }

  lemma {:induction false} DigitsOnly(n: nat)
    ensures forall k :: 0 <= k < |NatToString(n)| ==> '0' <= NatToString(n)[k] <= '9'
  {
    if n >= 10 {
      DigitsOnly(n / 10);
    }
  }

  /** Two numbers with the same decimal text are equal. */
  lemma NatToStringInjective(a: nat, b: nat)
    requires NatToString(a) == NatToString(b)
    ensures a == b
  {
    NatToStringRoundTrip(a);
    NatToStringRoundTrip(b);
  }

  /** "Face" + str(n), the name of the n-th (1-based) face of a compound filter. */
  function FaceName(n: nat): (r: string)
    ensures |r| > 4 && r[..4] == "Face" && DecimalValue(r[4..]) == n
  {
    NatToStringRoundTrip(n);
    assert ("Face" + NatToString(n))[4..] == NatToString(n);
    "Face" + NatToString(n)
  }

  /** "Solid" + str(n), the name of the n-th (1-based) solid of a compound filter. */
  function SolidName(n: nat): (r: string)
    ensures |r| > 5 && r[..5] == "Solid" && DecimalValue(r[5..]) == n
  {
    NatToStringRoundTrip(n);
    assert ("Solid" + NatToString(n))[5..] == NatToString(n);
    "Solid" + NatToString(n)
  }

  lemma FaceNameInjective(a: nat, b: nat)
    requires FaceName(a) == FaceName(b)
    ensures a == b
  {
    assert FaceName(a)[4..] == NatToString(a);
    assert FaceName(b)[4..] == NatToString(b);
    NatToStringInjective(a, b);
  }

  lemma SolidNameInjective(a: nat, b: nat)
    requires SolidName(a) == SolidName(b)
    ensures a == b
  {
    assert SolidName(a)[5..] == NatToString(a);
    assert SolidName(b)[5..] == NatToString(b);
    NatToStringInjective(a, b);
  }
}
