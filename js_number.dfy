/**
 * The numbers the calorie form computes with. A cleaned calorie value is turned
 * into a number by JavaScript's `Number(...)`; this model gives a finite value to
 * the empty string (0) and to strings of decimal digits, and `NaN` to everything
 * else. The arithmetic below follows JavaScript's treatment of `NaN`.
 */
module JsNumber {

  /** A JavaScript number: an (unbounded) integer or `NaN`. */
  datatype Num = Finite(value: int) | NaN

  /** `a + b`: `NaN` if either side is `NaN`. */
  function Add(a: Num, b: Num): Num
  {
    if a.Finite? && b.Finite? then Finite(a.value + b.value) else NaN
  }

  /** `a - b`: `NaN` if either side is `NaN`. */
  function Sub(a: Num, b: Num): Num
  {
    if a.Finite? && b.Finite? then Finite(a.value - b.value) else NaN
  }

  /** `Math.abs(a)`: `Math.abs(NaN)` is `NaN`. */
  function Abs(a: Num): Num
  {
    match a
    case Finite(v) => Finite(if v < 0 then -v else v)
    case NaN => NaN
  }

  /** `a >= 0`: every comparison with `NaN` is false. */
  predicate AtLeastZero(a: Num)
  {
    a.Finite? && a.value >= 0
  }

  /** JavaScript's `\d`: the ASCII decimal digits only. */
  predicate IsDigit(c: char)
  {
    '0' <= c <= '9'
  }

  predicate AllDigits(s: string)
  {
    forall i :: 0 <= i < |s| ==> IsDigit(s[i])
  }

  function DigitValue(c: char): nat
    requires IsDigit(c)
  {
    c as int - '0' as int
  }

  function DigitChar(d: nat): char
    requires d < 10
  {
    ('0' as int + d) as char
  }

  /** The value of a string of decimal digits, most significant digit first. */
  function DigitsValue(s: string): nat
    requires AllDigits(s)
  {
    if s == [] then 0 else DigitsValue(s[..|s| - 1]) * 10 + DigitValue(s[|s| - 1])
  }

  /**
   * `Number(s)` on a cleaned calorie value: the empty string is 0, a string of
   * decimal digits is its value, anything else is `NaN`.
   */
  function NumberOf(s: string): (r: Num)
    ensures r.Finite? <==> AllDigits(s)
    ensures s == [] ==> r == Finite(0)
  {
    if AllDigits(s) then Finite(DigitsValue(s)) else NaN
  }

  /** The decimal text of a natural number, as a template literal renders it. */
  function Decimal(n: nat): (s: string)
    ensures 0 < |s| && AllDigits(s)
    ensures s[0] == '0' ==> n == 0
  {
    if n < 10 then [DigitChar(n)] else Decimal(n / 10) + [DigitChar(n % 10)]
  }

  /** Reading back a rendered number gives the number. */
  lemma {:induction false} NumberOfDecimal(n: nat)
    ensures NumberOf(Decimal(n)) == Finite(n)
  {
    var s := Decimal(n);
    if n >= 10 {
      NumberOfDecimal(n / 10);
      assert s[..|s| - 1] == Decimal(n / 10);
      assert DigitsValue(s) == DigitsValue(Decimal(n / 10)) * 10 + n % 10;
    }
  }

  /** Different numbers are rendered differently. */
  lemma DecimalInjective(a: nat, b: nat)
    ensures Decimal(a) == Decimal(b) ==> a == b
  {
    NumberOfDecimal(a);
    NumberOfDecimal(b);
  }
}
