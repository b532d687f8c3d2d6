/** Decimal rendering of numbers, as JavaScript's template strings and
    `Number.prototype.toFixed(2)` produce it for non-negative integers below
    10^21 (from there on JavaScript switches to exponent form). */
module Decimal {

  predicate IsDigit(c: char) {
    '0' <= c <= '9'
  }

  predicate IsDigits(s: string) {
    forall i :: 0 <= i < |s| ==> IsDigit(s[i])
  }

  function Digit(d: nat): (c: char)
    requires d < 10
    ensures IsDigit(c) && c as int - '0' as int == d
  {
    ('0' as int + d) as char
  }

  /** The value a string of decimal digits denotes. */
  function DigitsValue(s: string): nat
    requires IsDigits(s)
  {
    if s == [] then 0
    else DigitsValue(s[..|s| - 1]) * 10 + (s[|s| - 1] as int - '0' as int)
  }

  /** `${n}` for a non-negative integer below 10^21: shortest decimal form,
      no leading zero. */
  function NatToString(n: nat): (s: string)
    ensures |s| >= 1 && IsDigits(s)
    ensures s[0] == '0' <==> n == 0
    decreases n
  {
    if n < 10 then [Digit(n)] else NatToString(n / 10) + [Digit(n % 10)]
  }

  /** Reading the rendered digits back gives the number. */
  lemma {:induction false} NatToStringRoundTrip(n: nat)
    ensures DigitsValue(NatToString(n)) == n
    decreases n
  {
    if n >= 10 {
      NatToStringRoundTrip(n / 10);
      var prefix := NatToString(n / 10);
      assert (prefix + [Digit(n % 10)])[..|prefix|] == prefix;
    }
  }

  lemma NatToStringInjective(a: nat, b: nat)
    requires NatToString(a) == NatToString(b)
    ensures a == b
  {
    NatToStringRoundTrip(a);
    NatToStringRoundTrip(b);
  }

  /** The hundredths `toFixed(2)` selects for `bytes / (1024 * 1024)`: the
      integer n for which n / 100 is nearest to the quotient, the larger one
      on a tie. */
  function Hundredths(bytes: nat): (n: nat)
    ensures n * 1048576 - bytes * 100 <= 524288
    ensures bytes * 100 - n * 1048576 < 524288
  {
    (bytes * 100 + 524288) / 1048576
  }

  lemma TwoDigitsValue(a: nat, b: nat)
    requires a < 10 && b < 10
    ensures IsDigits([Digit(a), Digit(b)])
    ensures DigitsValue([Digit(a), Digit(b)]) == a * 10 + b
  {
    var single, pair := [Digit(a)], [Digit(a), Digit(b)];
    assert single[..0] == [];
    assert DigitsValue(single) == a;
    assert pair[..1] == single;
  }

  lemma DigitsOfHundredths(n: nat)
    ensures n == n / 100 * 100 + n / 10 % 10 * 10 + n % 10
  {
    var t := n / 10;
    assert n == t * 10 + n % 10;
    assert t == t / 10 * 10 + t % 10;
    assert t / 10 == n / 100;
  }

  /** `toFixed(2)` of the value `hundredths / 100`. */
  function FixedTwo(hundredths: nat): (s: string)
    ensures |s| >= 4 && s[|s| - 3] == '.'
    ensures IsDigits(s[..|s| - 3]) && IsDigits(s[|s| - 2..])
    ensures DigitsValue(s[..|s| - 3]) * 100 + DigitsValue(s[|s| - 2..]) == hundredths
    ensures s[0] == '0' ==> |s| == 4
  {
    var whole := NatToString(hundredths / 100);
    NatToStringRoundTrip(hundredths / 100);
    var frac := [Digit(hundredths / 10 % 10), Digit(hundredths % 10)];
    TwoDigitsValue(hundredths / 10 % 10, hundredths % 10);
    DigitsOfHundredths(hundredths);
    var s := whole + "." + frac;
    assert |s| == |whole| + 3;
    assert s[..|whole|] == whole;
    assert s[|whole| + 1..] == frac;
    s
  }

  /** The megabyte figure of a byte count, `(bytes / (1024 * 1024)).toFixed(2)`. */
  function Megabytes(bytes: nat): (s: string)
    ensures |s| >= 4 && s[|s| - 3] == '.'
    ensures IsDigits(s[..|s| - 3]) && IsDigits(s[|s| - 2..])
    ensures DigitsValue(s[..|s| - 3]) * 100 + DigitsValue(s[|s| - 2..]) == Hundredths(bytes)
    ensures s[0] == '0' ==> |s| == 4
  {
    FixedTwo(Hundredths(bytes))
  }
}
