/** Printing numbers in decimal and reading digit strings of any script. */
module Numerals {
  import opened Common

  function DigitChar(d: nat): char
    requires d < 10
  {
    ('0' as int + d) as char
  }

  /** The decimal digits a runtime knows: the ASCII ones and any others, but no punctuation of a citation. */
  ghost predicate DigitTable(digit: char -> Option<nat>) {
    && (forall d: nat :: d < 10 ==> digit(DigitChar(d)) == Some(d))
    && (forall c :: digit(c).Some? ==> digit(c).value < 10)
    && digit('-').None? && digit(';').None? && digit(']').None?
  }

  predicate Digits(s: string, digit: char -> Option<nat>) {
    forall i :: 0 <= i < |s| ==> digit(s[i]).Some?
  }

  /** int() of a digit string. */
  function Number(s: string, digit: char -> Option<nat>): nat
    requires Digits(s, digit)
  {
    if s == "" then 0 else 10 * Number(s[..|s| - 1], digit) + digit(s[|s| - 1]).value
  }

  /** str() of a number. */
  function Decimal(n: nat): string {
    if n < 10 then [DigitChar(n)] else Decimal(n / 10) + [DigitChar(n % 10)]
  }

  predicate AsciiDigit(c: char) { '0' <= c <= '9' }

  /** ASCII digits without a needless leading zero: the only form str() gives. */
  predicate Canonical(s: string) {
    s != "" && (forall i :: 0 <= i < |s| ==> AsciiDigit(s[i])) && (|s| > 1 ==> s[0] != '0')
  }

  /** Reading a printed number gives it back, and what is printed is canonical. */
  lemma {:induction false} NumberOfDecimal(n: nat, digit: char -> Option<nat>)
    requires DigitTable(digit)
    ensures Digits(Decimal(n), digit) && Number(Decimal(n), digit) == n
    ensures Canonical(Decimal(n)) && (n > 0 ==> Decimal(n)[0] != '0')
  {
    if n >= 10 {
      NumberOfDecimal(n / 10, digit);
      assert Decimal(n)[..|Decimal(n)| - 1] == Decimal(n / 10);
    }
  }

  lemma AsciiDigitIsDigit(c: char, digit: char -> Option<nat>)
    requires DigitTable(digit) && AsciiDigit(c)
    ensures digit(c).Some? && digit(c).value < 10 && DigitChar(digit(c).value) == c
  {
    var d := c as int - '0' as int;
    assert DigitChar(d) == c;
  }

  /** A canonical digit string is what its number prints as. */
  lemma {:induction false} DecimalOfNumber(s: string, digit: char -> Option<nat>)
    requires DigitTable(digit) && Canonical(s)
    ensures Digits(s, digit) && Decimal(Number(s, digit)) == s
    ensures s[0] != '0' ==> Number(s, digit) > 0
  {
    forall i | 0 <= i < |s| ensures digit(s[i]).Some? {
      AsciiDigitIsDigit(s[i], digit);
    }
    var front, last := s[..|s| - 1], s[|s| - 1];
    AsciiDigitIsDigit(last, digit);
    if front == "" {
      assert Number(s, digit) == digit(last).value;
    } else {
      DecimalOfNumber(front, digit);
      var n := Number(front, digit);
      assert (10 * n + digit(last).value) / 10 == n && (10 * n + digit(last).value) % 10 == digit(last).value;
      assert s == front + [last];
    }
  }
}
