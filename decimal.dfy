/** Base-10 text for integers: the rendering of `String(n, radix: 10)` and the parse that Swift's
    `init?(_ text: String)` performs on fixed-width integers before its range check. Integers are
    unbounded here; every caller applies the range of its own width (module Keys). */
module Decimal {
  import opened Wrappers

  predicate IsDigit(c: char) {
    '0' <= c <= '9'
  }

  function DigitValue(c: char): (d: nat)
    requires IsDigit(c)
    ensures d < 10
  {
    c as int - '0' as int
  }

  function DigitChar(d: nat): (c: char)
    requires d < 10
    ensures IsDigit(c) && DigitValue(c) == d
  {
    ('0' as int + d) as char
  }

  predicate AllDigits(s: string) {
    forall i :: 0 <= i < |s| ==> IsDigit(s[i])
  }

  /** The digits of `n`, most significant first, with no leading zero. */
  function Digits(n: nat): (s: string)
    ensures 1 <= |s| && AllDigits(s)
    ensures n < 10 <==> |s| == 1
  {
    if n < 10 then [DigitChar(n)] else Digits(n / 10) + [DigitChar(n % 10)]
  }

  /** `String(n, radix: 10)`: a minus sign for a negative number, then the digits of its magnitude. */
  function Render(n: int): string {
    if n < 0 then "-" + Digits(-n) else Digits(n)
  }

  /** The number a string of digits denotes, read most significant digit first. */
  function DigitsValue(s: string): nat
    requires AllDigits(s)
  {
    if s == [] then 0 else DigitsValue(s[..|s| - 1]) * 10 + DigitValue(s[|s| - 1])
  }

  /** The text parse: an optional `+` or `-`, then one or more decimal digits and nothing else
      (leading zeros are accepted, so is `-0`). */
  function Parse(s: string): Option<int> {
    if |s| == 0 then None
    else if s[0] == '-' || s[0] == '+' then
      if 1 < |s| && AllDigits(s[1..]) then
        var magnitude: int := DigitsValue(s[1..]);
        Some(if s[0] == '-' then -magnitude else magnitude)
      else None
    else if AllDigits(s) then Some(DigitsValue(s))
    else None
  }

  /** Reading back the digits of `n` gives `n`. */
  lemma {:induction false} DigitsValueOfDigits(n: nat)
    ensures DigitsValue(Digits(n)) == n
  {
    if n >= 10 {
      var s := Digits(n);
      assert s[..|s| - 1] == Digits(n / 10);
      DigitsValueOfDigits(n / 10);
    }
  }

  /** The parse is a left inverse of the rendering, for every integer. */
  lemma ParseRender(n: int)
    ensures Parse(Render(n)) == Some(n)
  {
    var s := Render(n);
    if n < 0 {
      var digits := Digits(-n);
      assert s == "-" + digits;
      assert s[1..] == digits;
      DigitsValueOfDigits(-n);
      var magnitude: int := DigitsValue(digits);
      assert Parse(s) == Some(-magnitude);
    } else {
      assert IsDigit(s[0]);
      DigitsValueOfDigits(n);
      assert Parse(s) == Some(DigitsValue(s));
    }
  }

  /** Distinct integers render to distinct strings. */
  lemma RenderInjective(m: int, n: int)
    requires Render(m) == Render(n)
    ensures m == n
  {
    ParseRender(m);
    ParseRender(n);
  }

  /** The rendering is one character long exactly for the numbers 0 to 9, and is then that digit. */
  lemma RenderSingleCharacter(n: int)
    ensures |Render(n)| == 1 <==> 0 <= n <= 9
    ensures 0 <= n <= 9 ==> Render(n) == [DigitChar(n)]
  {
  }

  /** A one-character string parses exactly when it is a digit, to that digit's value. */
  lemma ParseSingleCharacter(c: char)
    ensures Parse([c]).Some? <==> IsDigit(c)
    ensures IsDigit(c) ==> Parse([c]) == Some(DigitValue(c))
  {
    if IsDigit(c) {
      assert [c][..0] == [];
      assert DigitsValue([c]) == DigitValue(c);
    }
  }
}
