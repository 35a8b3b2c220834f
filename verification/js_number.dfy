/** The part of JavaScript's number semantics the query handlers depend on: the values
    `Number(text)` can produce, and how `===` and `>=` compare an integer heart count with them. */
module JsNumber {

  /** A JavaScript number as seen by a comparison with an integer. `NaN` compares false with
      everything; `-0` and `0` are the same `Finite(0.0)` because `===` and `>=` cannot tell them apart. */
  datatype Number = NaN | NegativeInfinity | Finite(value: real) | PositiveInfinity

  /** `h === n` for an integer heart count `h`. */
  predicate StrictEquals(h: int, n: Number) {
    n.Finite? && n.value == h as real
  }

  /** `h >= n` for an integer heart count `h`. */
  predicate AtLeast(h: int, n: Number) {
    match n
    case NaN => false
    case NegativeInfinity => true
    case Finite(v) => h as real >= v
    case PositiveInfinity => false
  }

  predicate IsDigit(c: char) {
    '0' <= c <= '9'
  }

  /** A non-empty run of decimal digits. */
  predicate IsDigits(s: string) {
    |s| > 0 && forall i :: 0 <= i < |s| ==> IsDigit(s[i])
  }

  function Digit(d: nat): (c: char)
    requires d < 10
    ensures IsDigit(c) && c as int - '0' as int == d
  {
    ('0' as int + d) as char
  }

  /** The value of a string of decimal digits, most significant first. */
  function DigitsValue(s: string): nat
    requires forall i :: 0 <= i < |s| ==> IsDigit(s[i])
  {
    if |s| == 0 then 0
    else
      assert IsDigit(s[|s| - 1]);
      10 * DigitsValue(s[..|s| - 1]) + (s[|s| - 1] as int - '0' as int)
  }

  /** The decimal digits of `n`, without leading zeros. */
  function NatDigits(n: nat): (s: string)
    ensures IsDigits(s)
  {
    if n < 10 then [Digit(n)] else NatDigits(n / 10) + [Digit(n % 10)]
  }

  /** The plain decimal text of an integer: a minus sign when negative, then its digits. */
  function DecimalString(n: int): string {
    if n < 0 then "-" + NatDigits(-n) else NatDigits(n)
  }

  /** `Number(s)` on the strings a client types as a heart count: an optional sign followed by
      decimal digits, or one of the spellings of Infinity; every other string is `NaN`. */
  function FromDecimal(s: string): Number
  {
    if s == "Infinity" || s == "+Infinity" then PositiveInfinity
    else if s == "-Infinity" then NegativeInfinity
    else if IsDigits(s) then Finite(DigitsValue(s) as real)
    else if |s| > 1 && s[0] == '+' && IsDigits(s[1..]) then Finite(DigitsValue(s[1..]) as real)
    else if |s| > 1 && s[0] == '-' && IsDigits(s[1..]) then Finite(-(DigitsValue(s[1..]) as real))
    else NaN
  }

  lemma {:induction false} DigitsValueOfNatDigits(n: nat)
    ensures DigitsValue(NatDigits(n)) == n
  {
    if n >= 10 {
      var s := NatDigits(n);
      assert s[..|s| - 1] == NatDigits(n / 10);
      DigitsValueOfNatDigits(n / 10);
    }
  }

  /** Parsing the decimal text of any integer gives that integer back. */
  lemma FromDecimalOfDecimalString(n: int)
    ensures FromDecimal(DecimalString(n)) == Finite(n as real)
  {
    if n < 0 {
      var ds := NatDigits(-n);
      var s := "-" + ds;
      assert s[1..] == ds;
      assert !IsDigit(s[0]);
      assert s != "Infinity" && s != "+Infinity";
      assert s != "-Infinity" by { assert IsDigit(s[1]); }
      DigitsValueOfNatDigits(-n);
    } else {
      var s := NatDigits(n);
      assert IsDigit(s[0]);
      DigitsValueOfNatDigits(n);
    }
  }
}
