/** The text forms of Go's `math/big.Int` used at the boundary:
    `x.Text(base)` and `x.String()` (base 10) write lower-case digits with a
    leading `-` for negative values, and `z.SetString(s, base)` with a fixed
    base reads an optional sign followed by at least one digit of that base,
    letters of either case, and nothing else (no `0x` prefix, no `_`). */
module BigText {
  import opened Wrappers
  import opened HexCodec

  /** The two bases the gateway uses. */
  predicate IsBase(base: nat) {
    base == 10 || base == 16
  }

  predicate IsDigitIn(c: char, base: nat) {
    DigitValue(c).Some? && DigitValue(c).value < base
  }

  predicate AllDigitsIn(s: string, base: nat) {
    forall i :: 0 <= i < |s| ==> IsDigitIn(s[i], base)
  }

  /** The digits of a non-negative value, most significant first. */
  function NatText(n: nat, base: nat): (s: string)
    requires IsBase(base)
    ensures |s| >= 1
    ensures AllDigitsIn(s, base)
    decreases n
  {
    if n < base then [DigitChar(n)] else NatText(n / base, base) + [DigitChar(n % base)]
  }

  /** `x.Text(base)`; `x.String()` is `Text(x, 10)`: a minus sign exactly
      for negative values, then digits of the base with no leading zero. */
  function Text(x: int, base: nat): (r: string)
    requires IsBase(base)
    ensures |r| >= (if x < 0 then 2 else 1)
    ensures r[0] == '-' <==> x < 0
    ensures AllDigitsIn(if x < 0 then r[1..] else r, base)
    ensures (if x < 0 then r[1] else r[0]) == '0' <==> x == 0
  {
    if x < 0 then LeadingDigitNonZero(-x, base); "-" + NatText(-x, base)
    else if x > 0 then LeadingDigitNonZero(x, base); NatText(x, base)
    else NatText(x, base)
  }

  /** The value of a string of digits, read most significant first. */
  function DigitsValue(s: string, base: nat): nat
    requires IsBase(base) && AllDigitsIn(s, base)
  {
    if s == [] then 0
    else DigitsValue(s[..|s| - 1], base) * base + DigitValue(s[|s| - 1]).value
  }

  /** `z.SetString(s, base)`: `None` is the `(nil, false)` failure. */
  function SetString(s: string, base: nat): (r: Option<int>)
    requires IsBase(base)
    ensures r.Some? <==>
      || (|s| >= 1 && AllDigitsIn(s, base))
      || (|s| >= 2 && (s[0] == '-' || s[0] == '+') && AllDigitsIn(s[1..], base))
    ensures r.Some? && r.value < 0 ==> s[0] == '-'
  {
    var negative := |s| > 0 && s[0] == '-';
    var digits := if |s| > 0 && (s[0] == '-' || s[0] == '+') then s[1..] else s;
    if digits == [] || !AllDigitsIn(digits, base) then None
    else
      var magnitude: int := DigitsValue(digits, base);
      Some(if negative then -magnitude else magnitude)
  }

  lemma {:induction false} NatTextValue(n: nat, base: nat)
    requires IsBase(base)
    ensures DigitsValue(NatText(n, base), base) == n
    decreases n
  {
    var s := NatText(n, base);
    if n >= base {
      NatTextValue(n / base, base);
      assert s[..|s| - 1] == NatText(n / base, base);
    }
  }

  lemma SetStringOfDigits(t: string, base: nat)
    requires IsBase(base) && |t| >= 1 && AllDigitsIn(t, base)
    ensures SetString(t, base) == Some(DigitsValue(t, base))
  {
    assert IsDigitIn(t[0], base);
    assert t[0] != '-' && t[0] != '+';
  }

  lemma SetStringOfNegated(t: string, base: nat)
    requires IsBase(base) && |t| >= 1 && AllDigitsIn(t, base)
    ensures SetString("-" + t, base) == Some(-(DigitsValue(t, base) as int))
  {
    var s := "-" + t;
    assert s[0] == '-' && s[1..] == t;
  }

  /** Every value survives a trip through its text in either base:
      numeric fields are never truncated. */
  lemma TextRoundTrip(x: int, base: nat)
    requires IsBase(base)
    ensures SetString(Text(x, base), base) == Some(x)
  {
    var n: nat := if x < 0 then -x else x;
    NatTextValue(n, base);
    if x < 0 {
      SetStringOfNegated(NatText(n, base), base);
    } else {
      SetStringOfDigits(NatText(n, base), base);
    }
  }

  /** The leading digit of a positive value is not zero. */
  lemma {:induction false} LeadingDigitNonZero(n: nat, base: nat)
    requires IsBase(base) && n >= 1
    ensures DigitValue(NatText(n, base)[0]).value >= 1
    decreases n
  {
    if n >= base {
      LeadingDigitNonZero(n / base, base);
      assert NatText(n, base)[0] == NatText(n / base, base)[0];
    }
  }

  /** Read in base 16, a decimal numeral of two or more digits without a
      leading zero is worth more than in base 10. */
  lemma {:induction false} HexReadingExceedsDecimal(s: string)
    requires |s| >= 2 && AllDigitsIn(s, 10)
    requires DigitValue(s[0]).value >= 1
    ensures AllDigitsIn(s, 16)
    ensures DigitsValue(s, 16) > DigitsValue(s, 10) >= 1
    decreases |s|
  {
    var init := s[..|s| - 1];
    assert AllDigitsIn(init, 10) && AllDigitsIn(init, 16);
    if |s| == 2 {
      assert init[..0] == [];
      assert DigitsValue(init, 10) == DigitValue(s[0]).value == DigitsValue(init, 16);
    } else {
      HexReadingExceedsDecimal(init);
    }
  }

  /** Base 16 and base 10 texts agree only on single-digit values, so a
      receipt's block number (base 16) and a block-number query (base 10)
      are distinguishable from 10 on. */
  lemma BasesAgreeOnlyBelowTen(n: nat)
    ensures Text(n, 16) == Text(n, 10) <==> n < 10
  {
    if n >= 10 && Text(n, 16) == Text(n, 10) {
      var t := NatText(n, 10);
      NatTextValue(n, 10);
      NatTextValue(n, 16);
      LeadingDigitNonZero(n, 10);
      assert |t| >= 2;
      HexReadingExceedsDecimal(t);
      assert false;
    }
    if n >= 10 && n < 16 {
      assert Text(n, 16) == [DigitChar(n)];
      assert |Text(n, 10)| >= 2;
    }
  }
}
