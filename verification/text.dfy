/**
 * Decimal rendering of integers, as a JavaScript template literal shows a
 * whole number (`${n}`) of magnitude below 2^53: optional minus sign, then
 * digits without leading zeros.
 */
module Text {

  predicate IsDigit(c: char) {
    '0' <= c <= '9'
  }

  predicate AllDigits(s: string) {
    forall i :: 0 <= i < |s| ==> IsDigit(s[i])
  }

  function DigitChar(d: nat): (c: char)
    requires d < 10
    ensures IsDigit(c)
    ensures c as int - '0' as int == d
  {
    (d + '0' as int) as char
  }

  function DigitValue(c: char): nat
    requires IsDigit(c)
  {
    c as int - '0' as int
  }

  /**
   * A digit string as JavaScript prints a whole number: at least one digit,
   * and no leading zero unless the number is zero itself.
   */
  predicate Canonical(s: string) {
    |s| >= 1 && AllDigits(s) && (|s| > 1 ==> s[0] != '0')
  }

  /** Decimal digits of `n`, most significant first. */
  function NatToString(n: nat): (s: string)
    ensures Canonical(s)
    ensures s[0] == '0' ==> n == 0
  {
    if n < 10 then [DigitChar(n)] else NatToString(n / 10) + [DigitChar(n % 10)]
  }

  /** The number a digit string denotes, "" denoting 0 (independent of NatToString). */
  function ValueOf(s: string): nat
    requires AllDigits(s)
  {
    if |s| == 0 then 0 else ValueOf(s[..|s| - 1]) * 10 + DigitValue(s[|s| - 1])
  }

  /** Reading back the rendered digits gives the number that was rendered. */
  lemma {:induction false} ValueOfNatToString(n: nat)
    ensures ValueOf(NatToString(n)) == n
  {
    if n >= 10 {
      var s := NatToString(n);
      assert s[..|s| - 1] == NatToString(n / 10);
      ValueOfNatToString(n / 10);
    }
  }

  /** A digit string whose last digit is dropped still has no leading zero. */
  lemma CanonicalPrefix(s: string)
    requires Canonical(s) && |s| > 1
    ensures Canonical(s[..|s| - 1]) && s[..|s| - 1][0] == s[0]
  {
  }

  /** A digit string that starts with a non-zero digit denotes a positive number. */
  lemma {:induction false} LeadingDigitPositive(s: string)
    requires AllDigits(s) && |s| >= 1 && s[0] != '0'
    ensures ValueOf(s) >= 1
  {
    if |s| > 1 {
      LeadingDigitPositive(s[..|s| - 1]);
    }
  }

  /**
   * Printing is the only way to obtain a canonical digit string: any
   * canonical string is the rendering of the number it denotes, so two
   * canonical strings with the same value are equal.
   */
  lemma {:induction false} CanonicalIsNatToString(s: string)
    requires Canonical(s)
    ensures NatToString(ValueOf(s)) == s
  {
    if |s| > 1 {
      var p := s[..|s| - 1];
      CanonicalPrefix(s);
      CanonicalIsNatToString(p);
      LeadingDigitPositive(p);
      var v := ValueOf(s);
      assert v / 10 == ValueOf(p) && v % 10 == DigitValue(s[|s| - 1]);
      assert s == p + [s[|s| - 1]];
    }
  }

  /** A whole number as JavaScript prints it: a minus sign for negatives, then canonical digits. */
  function IntToString(i: int): (s: string)
    ensures |s| >= 1
    ensures i < 0 <==> s[0] == '-'
    ensures i >= 0 ==> Canonical(s) && ValueOf(s) == i
    ensures i < 0 ==> Canonical(s[1..]) && s[1] != '0' && ValueOf(s[1..]) == -i
  {
    ValueOfNatToString(if i < 0 then -i else i);
    if i < 0 then "-" + NatToString(-i) else NatToString(i)
  }

  /**
   * `(people / 1000000).toFixed(1)` for a head count that is a whole number
   * of tenths of a million, where no rounding happens: whole millions, a
   * point, one digit.
   */
  function TenthsOfMillion(people: nat): (s: string)
    requires people % 100000 == 0
    ensures |s| >= 3 && s[|s| - 2] == '.'
    ensures AllDigits(s[..|s| - 2]) && IsDigit(s[|s| - 1])
    ensures ValueOf(s[..|s| - 2]) * 10 + DigitValue(s[|s| - 1]) == people / 100000
    ensures Canonical(s[..|s| - 2])
  {
    var whole := NatToString(people / 1000000);
    var s := whole + "." + [DigitChar((people / 100000) % 10)];
    assert s[..|s| - 2] == whole;
    ValueOfNatToString(people / 1000000);
    s
  }
}
