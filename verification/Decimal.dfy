/** Decimal numerals: what %d prints, and what std::stof and std::stoi read from digits. */
module Decimal {
  import opened AlphaParser

  predicate AllDigits(s: string) {
    forall c <- s :: IsDigit(c)
  }

  function DigitValue(c: char): nat
    requires IsDigit(c)
  {
    (c - '0') as nat
  }

  function ValueOf(s: string): nat
    requires AllDigits(s)
  {
    if s == "" then 0
    else
      assert s[|s| - 1] in s;
      10 * ValueOf(s[..|s| - 1]) + DigitValue(s[|s| - 1])
  }

  function Print(n: nat): (s: string)
    ensures AllDigits(s) && s != ""
  {
    var last := ['0' + (n % 10) as char];
    if n < 10 then last else Print(n / 10) + last
  }

  lemma {:induction false} ValueOfPrint(n: nat)
    ensures ValueOf(Print(n)) == n
  {
    var s := Print(n);
    if n >= 10 {
      ValueOfPrint(n / 10);
      assert s[..|s| - 1] == Print(n / 10);
    }
  }

  /** %d of a signed number. */
  function PrintInt(n: int): string {
    if n < 0 then "-" + Print(-n) else Print(n)
  }

  datatype Number = BadNumber | Number(value: real)
  datatype Integer = BadInteger | Integer(value: int)

  /** Numerals from here on round past the largest float, and stof throws out_of_range. */
  const FLOAT_OVERFLOW: nat := 0xFFFF_FF80_0000_0000_0000_0000_0000_0000

  const INT_LIMIT: nat := 0x8000_0000

  /** stof on a string of digits: it throws on the empty string and on overflow. */
  function ReadFloat(s: string): Number
    requires AllDigits(s)
  {
    if s == "" || ValueOf(s) >= FLOAT_OVERFLOW then BadNumber else Number(ValueOf(s) as real)
  }

  function ReadInt(s: string): Integer
    requires AllDigits(s)
  {
    if s == "" || ValueOf(s) >= INT_LIMIT then BadInteger else Integer(ValueOf(s))
  }

  function PowerOfTwo(n: nat): nat {
    if n == 0 then 1 else 2 * PowerOfTwo(n - 1)
  }

  lemma {:induction false} PowersMultiply(a: nat, b: nat)
    ensures PowerOfTwo(a + b) == PowerOfTwo(a) * PowerOfTwo(b)
  {
    if a > 0 {
      PowersMultiply(a - 1, b);
    }
  }

  /** stof reads all numerals below the middle between the largest float, 2^128 - 2^104, and 2^128; stoi reads what an int of 32 bits holds. */
  lemma ReadableNumerals(s: string)
    requires AllDigits(s)
    ensures ReadFloat(s) == (if s != "" && ValueOf(s) < PowerOfTwo(128) - PowerOfTwo(103) then Number(ValueOf(s) as real) else BadNumber)
    ensures ReadInt(s) == (if s != "" && ValueOf(s) < PowerOfTwo(31) then Integer(ValueOf(s)) else BadInteger)
  {
    assert PowerOfTwo(8) == 0x100 && PowerOfTwo(7) == 0x80;
    PowersMultiply(8, 8);
    PowersMultiply(16, 16);
    PowersMultiply(7, 24);
    PowersMultiply(8, 16);
    PowersMultiply(32, 32);
    PowersMultiply(64, 64);
    PowersMultiply(7, 96);
    PowersMultiply(64, 32);
    hide PowerOfTwo, ValueOf;
  }
}
