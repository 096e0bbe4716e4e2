/** Digits, and the numbers they denote, for everything that prints or reads numbers. */
module Numerals {

  predicate IsDigit(c: char) { '0' <= c <= '9' }

  /** The value of a digit, as a reader would take it. */
  function DigitValue(c: char): int {
    if '0' <= c <= '9' then c as int - '0' as int
    else if 'a' <= c <= 'z' then c as int - 'a' as int + 10
    else if 'A' <= c <= 'Z' then c as int - 'A' as int + 10
    else -1
  }

  lemma DigitIs(c: char)
    ensures IsDigit(c) <==> 0 <= DigitValue(c) < 10
  {
  }

  /** The number a digit string denotes. */
  function ValueOf(s: string, base: nat): int {
    if s == "" then 0 else ValueOf(s[..|s| - 1], base) * base + DigitValue(s[|s| - 1])
  }

  lemma ValueOfSnoc(s: string, c: char, base: nat)
    ensures ValueOf(s + [c], base) == ValueOf(s, base) * base + DigitValue(c)
  {
    assert (s + [c])[..|s|] == s;
  }

  lemma NothingReadsZero(base: nat)
    ensures ValueOf("", base) == 0
  {
  }
}
