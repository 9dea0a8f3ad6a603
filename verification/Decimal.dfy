/** `str(n)` and `int(text)` on non-negative decimal numbers. */
module Decimal {
  import opened Outcome

  function Digit(d: nat): (c: char)
    requires d < 10
    ensures IsDigit(c) && c as int - '0' as int == d
  {
    ('0' as int + d) as char
  }

  predicate IsDigit(c: char) {
    '0' <= c <= '9'
  }

  predicate AllDigits(text: string) {
    forall i :: 0 <= i < |text| ==> IsDigit(text[i])
  }

  function Print(n: nat): (text: string)
    ensures text != "" && AllDigits(text)
  {
    if n < 10 then [Digit(n)] else Print(n / 10) + [Digit(n % 10)]
  }

  function Value(digits: string): nat
    requires AllDigits(digits)
  {
    if digits == "" then 0
    else
      var last := digits[|digits| - 1];
      assert IsDigit(last);
      10 * Value(digits[..|digits| - 1]) + (last as int - '0' as int)
  }

  function Parse(text: string): Option<nat> {
    if text != "" && AllDigits(text) then Some(Value(text)) else None
  }

  lemma {:induction false} ParsePrint(n: nat)
    ensures Parse(Print(n)) == Some(n)
  {
    var text := Print(n);
    if n < 10 {
      assert text[..|text| - 1] == "" && Value("") == 0;
      assert text[|text| - 1] == Digit(n);
    } else {
      ParsePrint(n / 10);
      assert text[..|text| - 1] == Print(n / 10);
      assert text[|text| - 1] == Digit(n % 10);
    }
  }
}
