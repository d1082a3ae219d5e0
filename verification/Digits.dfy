/** Decimal digits as text. */
module Digits {

  predicate IsDigit(c: char) {
    '0' <= c <= '9'
  }

  function DigitValue(c: char): nat
    requires IsDigit(c)
  {
    c as int - '0' as int
  }

  function DigitChar(d: nat): (c: char)
    requires d < 10
    ensures IsDigit(c) && DigitValue(c) == d
  {
    ('0' as int + d) as char
  }

  predicate AllDigits(s: string) {
    forall i :: 0 <= i < |s| ==> IsDigit(s[i])
  }

  /** A non-empty run of digits. */
  predicate IsInteger(s: string) {
    s != [] && AllDigits(s)
  }

  function NumberOf(s: string): nat
    requires AllDigits(s)
  {
    if s == [] then 0 else 10 * NumberOf(s[..|s| - 1]) + DigitValue(s[|s| - 1])
  }

  /** A number without leading zeros. */
  function Print(n: nat): (s: string)
    ensures IsInteger(s)
  {
    if n < 10 then [DigitChar(n)] else Print(n / 10) + [DigitChar(n % 10)]
  }

  /** The last digits of a number, as many as asked for. */
  function LastDigits(n: nat, width: nat): (s: string)
    ensures |s| == width && AllDigits(s)
  {
    if width == 0 then [] else LastDigits(n / 10, width - 1) + [DigitChar(n % 10)]
  }

  function Pow10(k: nat): (p: nat)
    ensures p > 0
  {
    if k == 0 then 1 else 10 * Pow10(k - 1)
  }

  /** At least the given width, filled up with zeros. */
  function Padded(n: nat, width: nat): (s: string)
    ensures IsInteger(s) || (width == 0 && n == 0)
    ensures AllDigits(s)
  {
    if n < Pow10(width) then LastDigits(n, width) else Print(n)
  }

  lemma {:induction false} PrintHasNoLead(n: nat)
    ensures Print(n) == "0" || Print(n)[0] != '0'
    ensures n > 0 ==> Print(n)[0] != '0'
  {
    if n >= 10 {
      PrintHasNoLead(n / 10);
    } else {
      assert DigitValue(Print(n)[0]) == n;
    }
  }

  lemma {:induction false} PrintRoundTrip(n: nat)
    ensures NumberOf(Print(n)) == n
  {
    if n < 10 {
      assert Print(n)[..0] == [];
    } else {
      PrintRoundTrip(n / 10);
      assert Print(n)[..|Print(n)| - 1] == Print(n / 10);
    }
  }

  lemma {:induction false} LastDigitsRoundTrip(n: nat, width: nat)
    requires n < Pow10(width)
    ensures NumberOf(LastDigits(n, width)) == n
  {
    if width > 0 {
      LastDigitsRoundTrip(n / 10, width - 1);
      OneMoreDigit(LastDigits(n / 10, width - 1), n % 10);
    }
  }

  lemma {:induction false} OneMoreDigit(s: string, d: nat)
    requires AllDigits(s) && d < 10
    ensures AllDigits(s + [DigitChar(d)]) && NumberOf(s + [DigitChar(d)]) == 10 * NumberOf(s) + d
  {
    assert (s + [DigitChar(d)])[..|s|] == s;
  }

  lemma {:induction false} PaddedRoundTrip(n: nat, width: nat)
    ensures NumberOf(Padded(n, width)) == n
    ensures n < Pow10(width) ==> |Padded(n, width)| == width
  {
    if n < Pow10(width) {
      LastDigitsRoundTrip(n, width);
    } else {
      PrintRoundTrip(n);
    }
  }

  /** More digits than the width when the number does not fit. */
  lemma {:induction false} PrintIsLong(n: nat, width: nat)
    requires n >= Pow10(width)
    ensures |Print(n)| > width
  {
    if width > 0 {
      PrintIsLong(n / 10, width - 1);
    }
  }

  lemma {:induction false} NumberBelow(s: string)
    requires AllDigits(s)
    ensures NumberOf(s) < Pow10(|s|)
  {
    if s != [] {
      NumberBelow(s[..|s| - 1]);
    }
  }
}
