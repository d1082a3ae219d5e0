/** Exact decimals: a 64-bit count of units of ten to the minus scale, and its text. */
module DecimalText {
  import opened Digits

  datatype Option<+T> = None | Some(value: T)

  const U64_RANGE: nat := 0x1_0000_0000_0000_0000
  const S64_LIMIT: nat := 0x8000_0000_0000_0000
  const MAX_SCALE: nat := 18

  function Min(a: nat, b: nat): nat {
    if a < b then a else b
  }

  /** The position of the first point, the size when there is none. */
  function FindPoint(s: string): (dot: nat)
    ensures dot <= |s| && (dot < |s| ==> s[dot] == '.')
    ensures forall i :: 0 <= i < dot ==> s[i] != '.'
  {
    if s == [] then 0 else if s[0] == '.' then 0 else 1 + FindPoint(s[1..])
  }

  function SignOf(s: string): int {
    if s != [] && s[0] == '-' then -1 else 1
  }

  function Unsigned(s: string): string {
    if s != [] && (s[0] == '-' || s[0] == '+') then s[1..] else s
  }

  function IntPart(rest: string): string {
    rest[..FindPoint(rest)]
  }

  function FracPart(rest: string): string {
    if FindPoint(rest) < |rest| then rest[FindPoint(rest) + 1..] else []
  }

  /** Digits before the point, after it, or both. */
  predicate IsDecimal(rest: string) {
    (IntPart(rest) != [] || FracPart(rest) != []) && AllDigits(IntPart(rest)) && AllDigits(FracPart(rest))
  }

  predicate RoundsUp(frac: string, scale: nat)
    requires AllDigits(frac)
  {
    |frac| > scale && frac[scale] >= '5'
  }

  /** k zeros appended. */
  function Shift(n: nat, k: nat): nat {
    if k == 0 then n else 10 * Shift(n, k - 1)
  }

  /** The kept digits of the fraction, filled up with zeros to the scale. */
  function FractionUnits(frac: string, scale: nat): nat
    requires AllDigits(frac)
  {
    var kept := Min(|frac|, scale);
    Shift(NumberOf(frac[..kept]), scale - kept)
  }

  /** The units without regard to width. */
  function Units(rest: string, scale: nat): nat
    requires IsDecimal(rest)
  {
    Shift(NumberOf(IntPart(rest)), scale) + FractionUnits(FracPart(rest), scale) + if RoundsUp(FracPart(rest), scale) then 1 else 0
  }

  /** The value of 64 bits as a signed number. */
  function ToSigned(bits: int): int {
    var low := bits % U64_RANGE;
    if low >= S64_LIMIT then low - U64_RANGE else low
  }

  /** Parsing in 64-bit arithmetic, which wraps around. */
  function FromText(s: string, scale: nat): Option<int> {
    var rest := Unsigned(s);
    if !IsDecimal(rest) then None
    else
      var whole := NumberOf(IntPart(rest)) % U64_RANGE;
      var units := (whole * (Pow10(scale) % U64_RANGE) + FractionUnits(FracPart(rest), scale)) % U64_RANGE;
      var magnitude := (units + if RoundsUp(FracPart(rest), scale) then 1 else 0) % U64_RANGE;
      Some(ToSigned(SignOf(s) * ToSigned(magnitude)))
  }

  function Quotient(a: nat, n: nat): nat
    requires n > 0
  {
    a / n
  }

  function Rest(a: nat, n: nat): (r: nat)
    requires n > 0
    ensures r < n
  {
    a % n
  }

  lemma {:induction false} QuotientAndRest(a: nat, n: nat)
    requires n > 0
    ensures Quotient(a, n) * n + Rest(a, n) == a
  {
  }

  function UnsignedText(magnitude: nat, scale: nat): string {
    if scale == 0 then Print(magnitude)
    else Print(Quotient(magnitude, Pow10(scale))) + "." + Padded(Rest(magnitude, Pow10(scale)), scale)
  }

  function ToText(raw: int, scale: nat): string {
    if raw < 0 then "-" + UnsignedText(-raw, scale) else UnsignedText(raw, scale)
  }

  // ---- Appending zeros ----

  lemma {:induction false} ShiftIsProduct(n: nat, k: nat)
    ensures Shift(n, k) == n * Pow10(k)
  {
    if k > 0 {
      ShiftIsProduct(n, k - 1);
      Tenfold(n, Pow10(k - 1));
    }
  }

  lemma {:induction false} Tenfold(n: nat, p: nat)
    ensures 10 * (n * p) == n * (10 * p)
  {
  }

  lemma {:induction false} ShiftSum(a: nat, b: nat, k: nat)
    ensures Shift(a + b, k) == Shift(a, k) + Shift(b, k)
  {
    if k > 0 {
      ShiftSum(a, b, k - 1);
    }
  }

  lemma {:induction false} ShiftTwice(n: nat, i: nat, j: nat)
    ensures Shift(Shift(n, i), j) == Shift(n, i + j)
  {
    if j > 0 {
      ShiftTwice(n, i, j - 1);
    }
  }

  lemma {:induction false} ShiftOne(k: nat)
    ensures Shift(1, k) == Pow10(k)
  {
    if k > 0 {
      ShiftOne(k - 1);
    }
  }

  lemma {:induction false} ShiftGrows(a: nat, b: nat, k: nat)
    requires a <= b
    ensures Shift(a, k) <= Shift(b, k) && Shift(a, k) >= a
  {
    if k > 0 {
      ShiftGrows(a, b, k - 1);
    }
  }

  /** Digits joined count what the first ones do with zeros appended, and the rest. */
  lemma {:induction false} NumberJoined(a: string, b: string)
    requires AllDigits(a) && AllDigits(b)
    ensures AllDigits(a + b) && NumberOf(a + b) == Shift(NumberOf(a), |b|) + NumberOf(b)
  {
    if b == [] {
      assert a + b == a;
    } else {
      var init := b[..|b| - 1];
      NumberJoined(a, init);
      assert (a + b)[..|a + b| - 1] == a + init;
    }
  }

  lemma {:induction false} Pow10Grows(a: nat, b: nat)
    requires a <= b
    ensures Pow10(a) <= Pow10(b)
  {
    if a < b {
      Pow10Grows(a, b - 1);
    }
  }

  lemma {:induction false} ScaleFits(scale: nat)
    requires scale <= MAX_SCALE
    ensures Pow10(scale) <= 1_000_000_000_000_000_000
  {
    var top := MAX_SCALE;
    Pow10Grows(scale, top);
    assert Pow10(9) == 1_000_000_000;
    assert Pow10(18) == 1_000_000_000_000_000_000;
  }

  // ---- The exact units ----

  lemma {:induction false} Smaller(x: nat, n: nat)
    requires x < n
    ensures x % n == x
  {
  }

  /** Units that a signed 64-bit value can hold under the sign. */
  predicate HoldsUnits(sign: int, units: nat) {
    units < S64_LIMIT || (units == S64_LIMIT && sign == -1)
  }

  /** The value is exact when its units fit; the smallest 64-bit value wraps around
      twice and comes out right. */
  lemma {:induction false} FitsExactly(s: string, scale: nat)
    requires IsDecimal(Unsigned(s)) && scale <= MAX_SCALE && HoldsUnits(SignOf(s), Units(Unsigned(s), scale))
    ensures FromText(s, scale) == Some(SignOf(s) * Units(Unsigned(s), scale))
  {
    var rest := Unsigned(s);
    var whole := NumberOf(IntPart(rest));
    ScaleFits(scale);
    ShiftGrows(whole, whole, scale);
    ShiftIsProduct(whole, scale);
    Smaller(whole, U64_RANGE);
    Smaller(Pow10(scale), U64_RANGE);
    Smaller(Shift(whole, scale) + FractionUnits(FracPart(rest), scale), U64_RANGE);
    Smaller(Units(rest, scale), U64_RANGE);
    SignedIsSame(SignOf(s), Units(rest, scale));
  }

  lemma {:induction false} SignedIsSame(sign: int, units: nat)
    requires HoldsUnits(sign, units) && (sign == 1 || sign == -1)
    ensures ToSigned(sign * ToSigned(units)) == sign * units
  {
    if units == S64_LIMIT {
      assert ToSigned(units) == units - U64_RANGE && sign * ToSigned(units) == units;
    } else if sign == -1 {
      var negative: int := 0 - units;
      assert sign * ToSigned(units) == negative;
      assert negative < 0 ==> negative % U64_RANGE == negative + U64_RANGE;
    }
  }

  lemma {:induction false} FindPointIs(s: string, dot: nat)
    requires dot <= |s| && (dot < |s| ==> s[dot] == '.') && forall i :: 0 <= i < dot ==> s[i] != '.'
    ensures FindPoint(s) == dot
  {
    if s != [] && s[0] != '.' {
      FindPointIs(s[1..], dot - 1);
    }
  }

  lemma {:induction false} PointAfter(whole: string, frac: string)
    requires AllDigits(whole) && AllDigits(frac)
    ensures IntPart(whole + "." + frac) == whole && FracPart(whole + "." + frac) == frac
  {
    var s := whole + "." + frac;
    FindPointIs(s, |whole|);
    assert s[..|whole|] == whole && s[|whole| + 1..] == frac;
  }

  lemma {:induction false} NoPoint(whole: string)
    requires AllDigits(whole)
    ensures IntPart(whole) == whole && FracPart(whole) == []
  {
    FindPointIs(whole, |whole|);
  }

  lemma {:induction false} UnitsOfParts(whole: string, frac: string, scale: nat)
    requires IsInteger(whole) && AllDigits(frac) && |frac| == scale
    ensures IsDecimal(whole + "." + frac) && Units(whole + "." + frac, scale) == Shift(NumberOf(whole), scale) + NumberOf(frac)
  {
    PointAfter(whole, frac);
    assert frac[..scale] == frac;
  }

  /** The digits of a raw value, without its sign, count its units. */
  lemma {:induction false} UnitsOfText(magnitude: nat, scale: nat)
    ensures var text := UnsignedText(magnitude, scale);
            text != [] && IsDigit(text[0]) && IsDecimal(text) && Units(text, scale) == magnitude
  {
    if scale == 0 {
      NoPoint(Print(magnitude));
      PrintRoundTrip(magnitude);
    } else {
      var q, r := Quotient(magnitude, Pow10(scale)), Rest(magnitude, Pow10(scale));
      UnitsOfParts(Print(q), Padded(r, scale), scale);
      PrintRoundTrip(q);
      PaddedRoundTrip(r, scale);
      QuotientAndRest(magnitude, Pow10(scale));
      ShiftIsProduct(q, scale);
    }
  }

  /** Printing and parsing gives every 64-bit value back. */
  lemma {:induction false} DecimalRoundTrip(raw: int, scale: nat)
    requires scale <= MAX_SCALE && 0 - S64_LIMIT <= raw < S64_LIMIT
    ensures FromText(ToText(raw, scale), scale) == Some(raw)
  {
    hide Unsigned, SignOf, UnsignedText, IsDecimal, Units, FromText;
    var magnitude := if raw < 0 then -raw else raw;
    UnitsOfText(magnitude, scale);
    SignsOfText(UnsignedText(magnitude, scale));
    FitsExactly(ToText(raw, scale), scale);
  }

  lemma {:induction false} SignsOfText(text: string)
    requires text != [] && IsDigit(text[0])
    ensures Unsigned(text) == text && SignOf(text) == 1
    ensures Unsigned("-" + text) == text && SignOf("-" + text) == -1
  {
  }

  // ---- Rounding ----

  /** All digits of the text, the point left out. */
  function AllDigitsOf(rest: string): nat
    requires IsDecimal(rest)
  {
    NumberOf(IntPart(rest) + FracPart(rest))
  }

  lemma {:induction false} UpFromHalf(dropped: string)
    requires AllDigits(dropped) && dropped != []
    ensures dropped[0] >= '5' <==> 2 * NumberOf(dropped) >= Pow10(|dropped|)
    ensures NumberOf(dropped) < Pow10(|dropped|)
  {
    var first, others := dropped[..1], dropped[1..];
    var d, k := DigitValue(dropped[0]), |dropped| - 1;
    assert dropped == first + others && first[..0] == [];
    NumberJoined(first, others);
    NumberBelow(others);
    NumberBelow(dropped);
    ShiftOne(k);
    ShiftFive(k);
    if d >= 5 {
      ShiftGrows(5, d, k);
    } else {
      ShiftGrows(d, 4, k);
      ShiftSum(4, 1, k);
    }
  }

  lemma {:induction false} ShiftFive(k: nat)
    ensures 2 * Shift(5, k) == Pow10(k + 1)
  {
    if k > 0 {
      ShiftFive(k - 1);
    }
  }

  /** The digits kept and the digits dropped. */
  lemma {:induction false} DigitsSplit(rest: string, scale: nat)
    requires IsDecimal(rest) && |FracPart(rest)| > scale
    ensures var frac := FracPart(rest);
            var kept := Shift(NumberOf(IntPart(rest)), scale) + NumberOf(frac[..scale]);
            AllDigitsOf(rest) == Shift(kept, |frac| - scale) + NumberOf(frac[scale..])
  {
    var frac := FracPart(rest);
    var first := IntPart(rest) + frac[..scale];
    assert IntPart(rest) + frac == first + frac[scale..];
    NumberJoined(IntPart(rest), frac[..scale]);
    NumberJoined(first, frac[scale..]);
  }

  /** Nothing is lost when the scale keeps all digits. */
  lemma {:induction false} ExactWhenKept(rest: string, scale: nat)
    requires IsDecimal(rest) && |FracPart(rest)| <= scale
    ensures Units(rest, scale) == Shift(AllDigitsOf(rest), scale - |FracPart(rest)|)
  {
    var frac := FracPart(rest);
    assert frac[..|frac|] == frac;
    NumberJoined(IntPart(rest), frac);
    ShiftSum(Shift(NumberOf(IntPart(rest)), |frac|), NumberOf(frac), scale - |frac|);
    ShiftTwice(NumberOf(IntPart(rest)), |frac|, scale - |frac|);
  }

  /** Otherwise the units are the nearest whole, halves away from zero: with n / p
      the exact value in units, twice the error is above -p and at most p. */
  lemma {:induction false} RoundsToNearest(rest: string, scale: nat)
    requires IsDecimal(rest) && |FracPart(rest)| > scale
    ensures var m := |FracPart(rest)| - scale;
            var error: int := 2 * (Shift(Units(rest, scale), m) - AllDigitsOf(rest));
            0 - Pow10(m) < error <= Pow10(m)
  {
    var frac := FracPart(rest);
    var m := |frac| - scale;
    var kept := Shift(NumberOf(IntPart(rest)), scale) + NumberOf(frac[..scale]);
    DigitsSplit(rest, scale);
    UpFromHalf(frac[scale..]);
    assert Units(rest, scale) == kept + if frac[scale] >= '5' then 1 else 0;
    ShiftSum(kept, 1, m);
    ShiftOne(m);
  }

  // ---- Which texts are decimals ----

  /** An optional sign and digits before and behind a point, at least one of them; the
      point may be left out when nothing follows it. */
  predicate NamesDecimal(s: string, lead: string, whole: string, frac: string) {
    && (lead == "" || lead == "+" || lead == "-")
    && AllDigits(whole) && AllDigits(frac) && |whole| + |frac| > 0
    && (s == lead + whole + "." + frac || (frac == "" && s == lead + whole))
  }

  /** The parser finds the parts of such a text. */
  lemma {:induction false} PartsAre(s: string, lead: string, whole: string, frac: string)
    requires NamesDecimal(s, lead, whole, frac)
    ensures SignOf(s) == (if lead == "-" then -1 else 1)
    ensures IsDecimal(Unsigned(s)) && IntPart(Unsigned(s)) == whole && FracPart(Unsigned(s)) == frac
  {
    if s == lead + whole + "." + frac {
      var rest := whole + "." + frac;
      assert lead + whole + "." + frac == lead + rest && (rest[0] == '.' || rest[0] == whole[0]);
      PointAfter(whole, frac);
      hide IntPart, FracPart, AllDigits;
      LeadIs(s, lead, rest);
    } else {
      NoPoint(whole);
      hide IntPart, FracPart;
      LeadIs(s, lead, whole);
    }
  }

  lemma {:induction false} LeadIs(s: string, lead: string, rest: string)
    requires lead == "" || lead == "+" || lead == "-"
    requires s == lead + rest && rest != [] && rest[0] != '+' && rest[0] != '-'
    ensures Unsigned(s) == rest && SignOf(s) == (if lead == "-" then -1 else 1)
  {
    if lead != "" {
      assert s[0] == lead[0] && s[1..] == rest;
    }
  }

  /** Exactly these texts are accepted. */
  lemma {:induction false} AcceptedIff(s: string, scale: nat)
    ensures FromText(s, scale).Some? <==> exists lead, whole, frac :: NamesDecimal(s, lead, whole, frac)
  {
    if lead, whole, frac :| NamesDecimal(s, lead, whole, frac) {
      PartsAre(s, lead, whole, frac);
    }
    if IsDecimal(Unsigned(s)) {
      var lead := HasParts(s);
    }
  }

  lemma {:induction false} HasParts(s: string) returns (lead: string)
    requires IsDecimal(Unsigned(s))
    ensures NamesDecimal(s, lead, IntPart(Unsigned(s)), FracPart(Unsigned(s)))
  {
    var rest := Unsigned(s);
    lead := if |rest| < |s| then s[..1] else "";
    assert s == lead + rest;
    var dot := FindPoint(rest);
    hide Unsigned, FindPoint, AllDigits;
    if dot < |rest| {
      SplitAtPoint(rest, dot);
      TextsAssociate(lead, rest[..dot], ".", rest[dot + 1..]);
    } else {
      assert rest[..dot] == rest;
    }
  }

  lemma {:induction false} SplitAtPoint(rest: string, dot: nat)
    requires dot < |rest| && rest[dot] == '.'
    ensures rest == rest[..dot] + "." + rest[dot + 1..]
  {
  }

  lemma {:induction false} TextsAssociate(a: string, b: string, c: string, d: string)
    ensures a + (b + c + d) == a + b + c + d
  {
  }

  /** The print has a minus sign for negative values only, no leading zeros, and as many
      digits behind the point as the scale, without a point for scale 0. */
  lemma {:induction false} PrintedForm(raw: int, scale: nat) returns (whole: string, frac: string)
    ensures NamesDecimal(ToText(raw, scale), if raw < 0 then "-" else "", whole, frac)
    ensures |frac| == scale && ('.' in ToText(raw, scale) <==> scale > 0)
    ensures whole == "0" || (whole != "" && whole[0] != '0')
  {
    var magnitude := if raw < 0 then -raw else raw;
    var lead := if raw < 0 then "-" else "";
    var q, r := Quotient(magnitude, Pow10(scale)), Rest(magnitude, Pow10(scale));
    if scale == 0 {
      whole, frac := Print(magnitude), "";
    } else {
      whole, frac := Print(q), Padded(r, scale);
      PaddedRoundTrip(r, scale);
      assert lead + (whole + "." + frac) == lead + whole + "." + frac;
      assert (lead + whole + "." + frac)[|lead + whole|] == '.';
    }
    assert ToText(raw, scale) == lead + UnsignedText(magnitude, scale);
    PrintHasNoLead(if scale == 0 then magnitude else q);
  }
}
