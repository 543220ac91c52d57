/** Decimal numerals, as JavaScript prints integers. */
module Decimal {
  import opened Common

  predicate IsDigit(c: char) {
    '0' <= c <= '9'
  }

  predicate AllDigits(s: string) {
    forall i :: 0 <= i < |s| ==> IsDigit(s[i])
  }

  function Digit(d: nat): (r: char)
    requires d < 10
    ensures IsDigit(r) && DigitValue(r) == d
  {
    '0' + d as char
  }

  function DigitValue(c: char): (r: nat)
    requires IsDigit(c)
    ensures r < 10
  {
    (c - '0') as nat
  }

  lemma DigitsAreDecimal()
    ensures forall d: nat :: d < 10 ==> Digit(d) == "0123456789"[d]
  {
    assert Digit(0) == '0' && Digit(1) == '1' && Digit(2) == '2' && Digit(3) == '3' && Digit(4) == '4';
    assert Digit(5) == '5' && Digit(6) == '6' && Digit(7) == '7' && Digit(8) == '8' && Digit(9) == '9';
    forall d: nat | d < 10
      ensures Digit(d) == "0123456789"[d]
    {
    }
  }

  function Numeral(n: nat): (r: string)
    ensures r != "" && AllDigits(r)
  {
    if n < 10 then [Digit(n)] else Numeral(n / 10) + [Digit(n % 10)]
  }

  function Value(s: string): (r: nat)
    requires AllDigits(s)
  {
    if s == "" then 0 else Value(s[..|s| - 1]) * 10 + DigitValue(s[|s| - 1])
  }

  lemma {:induction false} ValueOfNumeral(n: nat)
    ensures Value(Numeral(n)) == n
    decreases n
  {
    if n >= 10 {
      ValueOfNumeral(n / 10);
      assert Numeral(n)[..|Numeral(n)| - 1] == Numeral(n / 10);
    } else {
      assert Numeral(n)[..0] == "";
    }
  }

  function Print(n: int): (r: string) {
    if n < 0 then "-" + Numeral(-n) else Numeral(n)
  }

  /**
   * Conversion of a string to an integer as the unary plus does it: the empty string is 0, plain
   * numerals are read, and `other` stands for the rest of the grammar (blanks, hexadecimal,
   * exponents), with `None` for what is not an integer.
   */
  function ToNumber(s: string, other: string -> Option<int>): (r: Option<int>) {
    if AllDigits(s) then Some(Value(s) as int)
    else if |s| > 1 && s[0] == '-' && AllDigits(s[1..]) then Some(0 - Value(s[1..]))
    else other(s)
  }

  lemma PrintedIsRead(n: int, other: string -> Option<int>)
    ensures ToNumber(Print(n), other) == Some(n)
    ensures ':' !in Print(n)
  {
    if n < 0 {
      ValueOfNumeral(-n);
      assert Print(n)[1..] == Numeral(-n);
      assert !IsDigit(Print(n)[0]);
    } else {
      ValueOfNumeral(n);
    }
  }
}
