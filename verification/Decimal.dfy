/** Decimal printing of integers (Go's `%d` and `fmt.Sprint`) and what it means as text. */
module Decimal {
  predicate IsDigit(c: char) { '0' <= c <= '9' }

  function Digit(d: nat): (c: char)
    requires d < 10
    ensures IsDigit(c) && DigitValue(c) == d
  {
    ['0', '1', '2', '3', '4', '5', '6', '7', '8', '9'][d]
  }

  function DigitValue(c: char): (d: nat)
    requires IsDigit(c)
    ensures d < 10
  {
    c as int - '0' as int
  }

  predicate AllDigits(s: string) { forall i | 0 <= i < |s| :: IsDigit(s[i]) }

  function PrintNat(n: nat): (s: string)
    ensures AllDigits(s) && s != ""
  {
    if n < 10 then [Digit(n)] else PrintNat(n / 10) + [Digit(n % 10)]
  }

  function Print(n: int): string {
    if n < 0 then "-" + PrintNat(-n) else PrintNat(n)
  }

  /** The number a string of digits denotes. */
  function Value(s: string): nat
    requires AllDigits(s)
  {
    if s == "" then 0 else Value(s[..|s| - 1]) * 10 + DigitValue(s[|s| - 1])
  }

  lemma {:induction false} ValueOfPrint(n: nat)
    ensures Value(PrintNat(n)) == n
  {
    if n < 10 {
      assert PrintNat(n)[..0] == "";
    } else {
      ValueOfPrint(n / 10);
      assert PrintNat(n)[..|PrintNat(n)| - 1] == PrintNat(n / 10);
    }
  }

  /** Two numbers with the same print are the same number. */
  lemma PrintIsInjective(m: int, n: int)
    requires Print(m) == Print(n)
    ensures m == n
  {
    var s := Print(m);
    assert m < 0 ==> s[0] == '-' && s[1..] == PrintNat(-m);
    assert n < 0 ==> s[0] == '-' && s[1..] == PrintNat(-n);
    assert IsDigit(PrintNat(if m < 0 then -m else m)[0]) && IsDigit(PrintNat(if n < 0 then -n else n)[0]);
    assert m < 0 <==> n < 0;
    ValueOfPrint(if m < 0 then -m else m);
    ValueOfPrint(if n < 0 then -n else n);
  }
}
