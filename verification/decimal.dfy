/**
 * Decimal text of integers. The server renders scores and countdown seconds with
 * Go's `strconv.Itoa`; the client reads them back with JavaScript's `Number`.
 */
module Decimal {

  predicate IsDigit(c: char) {
    '0' <= c <= '9'
  }

  predicate AllDigits(s: string) {
    forall i :: 0 <= i < |s| ==> IsDigit(s[i])
  }

  function DigitChar(d: nat): (c: char)
    requires d < 10
    ensures IsDigit(c)
  {
    ('0' as int + d) as char
  }

  function DigitValue(c: char): (d: nat)
    requires IsDigit(c)
    ensures d < 10
  {
    c as int - '0' as int
  }

  /** The digits of `n`, most significant first, without leading zeros. */
  function Digits(n: nat): (s: string)
    ensures |s| > 0 && AllDigits(s)
    ensures n > 0 ==> s[0] != '0'
  {
    if n < 10 then [DigitChar(n)] else Digits(n / 10) + [DigitChar(n % 10)]
  }

  /** The number a digit string denotes, read left to right. */
  function ValueOf(s: string): nat
    requires AllDigits(s)
  {
    if |s| == 0 then 0 else ValueOf(s[..|s| - 1]) * 10 + DigitValue(s[|s| - 1])
  }

  /** Go's `strconv.Itoa`: a minus sign for negative numbers, then the digits of the magnitude. */
  function Itoa(n: int): (s: string)
    ensures |s| > 0
    ensures s[0] == '-' <==> n < 0
    ensures n >= 0 ==> AllDigits(s)
  {
    if n < 0 then "-" + Digits(-n) else Digits(n)
  }

  /** What JavaScript's `Number(text)` yields, restricted to integer values. */
  datatype JsNumber = Finite(value: int) | NaN

  /**
   * JavaScript's `Number(text)` on integer text: the empty text is 0, an optional sign
   * followed by one or more digits is that integer, and any other text is NaN.
   */
  function ToNumber(s: string): (n: JsNumber)
    ensures s == "" ==> n == Finite(0)
    ensures n.Finite? && |s| > 0 && s[0] == '-' ==> n.value <= 0
    ensures n.Finite? && (|s| == 0 || s[0] != '-') ==> n.value >= 0
    ensures |s| > 0 && !IsDigit(s[|s| - 1]) ==> n == NaN
    ensures |s| > 0 && !IsDigit(s[0]) && s[0] != '-' && s[0] != '+' ==> n == NaN
  {
    if s == "" then Finite(0)
    else if AllDigits(s) then Finite(ValueOf(s))
    else if |s| > 1 && (s[0] == '-' || s[0] == '+') && AllDigits(s[1..]) then
      var magnitude: int := ValueOf(s[1..]);
      Finite(if s[0] == '-' then -magnitude else magnitude)
    else NaN
  }

  /** Reading the digits of `n` gives `n` back. */
  lemma {:induction false} ValueOfDigits(n: nat)
    ensures ValueOf(Digits(n)) == n
  {
    if n >= 10 {
      var s := Digits(n);
      var prefix := Digits(n / 10);
      assert s[..|s| - 1] == prefix;
      ValueOfDigits(n / 10);
    }
  }

  /** The client's `Number` recovers every integer the server rendered with `Itoa`. */
  lemma NumberOfItoa(n: int)
    ensures ToNumber(Itoa(n)) == Finite(n)
  {
    if n < 0 {
      var s := Itoa(n);
      assert s[1..] == Digits(-n);
      ValueOfDigits(-n);
    } else {
      ValueOfDigits(n);
    }
  }
}
