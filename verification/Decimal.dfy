/** Decimal digits: printing an amount with twelve fraction digits, and reading it back. */
module Decimal {

  function Pow10(k: nat): (p: nat)
    ensures p > 0
  {
    if k == 0 then 1 else 10 * Pow10(k - 1)
  }

  function DigitChar(d: nat): char
    requires d < 10
  {
    "0123456789"[d]
  }

  predicate IsDigit(c: char) {
    '0' <= c <= '9'
  }

  /** `n` without leading zeros, "0" for zero. */
  function Print(n: nat): string {
    if n < 10 then [DigitChar(n)] else Print(n / 10) + [DigitChar(n % 10)]
  }

  /** The last `width` digits of `n`, zeros in front. */
  function PrintPadded(n: nat, width: nat): string {
    if width == 0 then [] else PrintPadded(n / 10, width - 1) + [DigitChar(n % 10)]
  }

  /** The number a string of digits denotes. */
  function Value(s: string): nat {
    if s == [] then 0
    else var c := s[|s| - 1];
         10 * Value(s[..|s| - 1]) + (if IsDigit(c) then c as int - '0' as int else 0)
  }

  lemma LastDigit(s: string, d: nat)
    requires d < 10
    ensures Value(s + [DigitChar(d)]) == 10 * Value(s) + d && IsDigit(DigitChar(d))
  {
    assert (s + [DigitChar(d)])[..|s|] == s;
  }

  lemma {:induction false} PrintedValue(n: nat)
    ensures Value(Print(n)) == n && Print(n) != [] && forall c <- Print(n) :: IsDigit(c)
    ensures n > 0 ==> Print(n)[0] != '0'
  {
    if n >= 10 {
      PrintedValue(n / 10);
      LastDigit(Print(n / 10), n % 10);
    }
  }

  lemma {:induction false} PaddedValue(n: nat, width: nat)
    requires n < Pow10(width)
    ensures Value(PrintPadded(n, width)) == n && |PrintPadded(n, width)| == width
    ensures forall c <- PrintPadded(n, width) :: IsDigit(c)
    decreases width
  {
    if width > 0 {
      PaddedValue(n / 10, width - 1);
      LastDigit(PrintPadded(n / 10, width - 1), n % 10);
    }
  }

  const SCALE_DIGITS := 12
  const SCALE := 1_000_000_000_000

  lemma ScaleIsPow10()
    ensures Pow10(SCALE_DIGITS) == SCALE
  {
    assert Pow10(3) == 1000;
    assert Pow10(6) == 1000 * Pow10(3);
    assert Pow10(9) == 1000 * Pow10(6);
    assert Pow10(12) == 1000 * Pow10(9);
  }

  /** The amount `units / SCALE`, exactly. */
  function PrintAmount(units: nat): string {
    Print(units / SCALE) + "." + PrintPadded(units % SCALE, SCALE_DIGITS)
  }

  /** Reads `whole.fraction` with exactly twelve fraction digits, in units of 1 / SCALE. */
  function ReadAmount(s: string): nat {
    if |s| <= SCALE_DIGITS then 0
    else SCALE * Value(s[..|s| - SCALE_DIGITS - 1]) + Value(s[|s| - SCALE_DIGITS..])
  }

  /** The printed amount reads back to exactly the same units. */
  lemma AmountRoundTrip(units: nat)
    ensures ReadAmount(PrintAmount(units)) == units
    ensures var s := PrintAmount(units);
      |s| >= SCALE_DIGITS + 2 && s[|s| - SCALE_DIGITS - 1] == '.'
      && forall i | 0 <= i < |s| && i != |s| - SCALE_DIGITS - 1 :: IsDigit(s[i])
  {
    ScaleIsPow10();
    var whole, fraction := Print(units / SCALE), PrintPadded(units % SCALE, SCALE_DIGITS);
    PrintedValue(units / SCALE);
    PaddedValue(units % SCALE, SCALE_DIGITS);
    var s := PrintAmount(units);
    assert s[..|s| - SCALE_DIGITS - 1] == whole && s[|s| - SCALE_DIGITS..] == fraction;
    forall i | 0 <= i < |s| && i != |s| - SCALE_DIGITS - 1
      ensures IsDigit(s[i])
    {
      assert s[i] == if i < |whole| then whole[i] else fraction[i - |whole| - 1];
    }
  }
}
