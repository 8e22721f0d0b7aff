/** Decimal notation of natural numbers, without leading zeros. */
module Decimal {

  function Digit(d: nat): (c: char)
    requires d < 10
    ensures IsDigit(c) && DigitValue(c) == d
  {
    '0' + d as char
  }

  predicate IsDigit(c: char) {
    '0' <= c <= '9'
  }

  function DigitValue(c: char): (d: nat)
    requires IsDigit(c)
  {
    (c - '0') as nat
  }

  function Digits(n: nat): (s: string)
    ensures |s| >= 1
    ensures forall i :: 0 <= i < |s| ==> IsDigit(s[i])
  {
    if n < 10 then [Digit(n)] else Digits(n / 10) + [Digit(n % 10)]
  }

  function Itoa(n: int): (s: string) {
    if n < 0 then "-" + Digits(-n) else Digits(n)
  }

  /** The number that a string of digits stands for. */
  function Number(s: string): (n: int) {
    if s == "" then 0 else 10 * Number(s[..|s| - 1]) + (s[|s| - 1] as int - 48)
  }

  lemma {:induction false} DigitsRead(n: nat)
    ensures Number(Digits(n)) == n && (n > 0 ==> Digits(n)[0] != '0')
  {
    if n < 10 {
      assert Digits(n)[..0] == "";
    } else {
      DigitsRead(n / 10);
      assert Digits(n)[..|Digits(n)| - 1] == Digits(n / 10);
    }
  }

  /** An integer is written as its digits, after a minus sign if it is negative. */
  lemma ItoaReads(n: int)
    ensures n >= 0 ==> Itoa(n) == Digits(n) && Number(Digits(n)) == n
    ensures n < 0 ==> Itoa(n) == "-" + Digits(-n) && Number(Digits(-n)) == -n
  {
    DigitsRead(if n < 0 then -n else n);
  }

  lemma DigitsLength(n: nat)
    ensures n < 100 ==> |Digits(n)| <= 2
    ensures n < 1_000_000 ==> |Digits(n)| <= 6
  {
    assert n < 1000 ==> |Digits(n)| <= 3;
    assert n < 10000 ==> |Digits(n / 10)| <= 3;
    assert n < 100000 ==> |Digits(n / 10 / 10)| <= 3;
    assert n < 1000000 ==> |Digits(n / 10 / 10 / 10)| <= 3;
  }
}
