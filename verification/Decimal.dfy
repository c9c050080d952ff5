/** Decimal numbers as fmt and strconv print and read them. */
module Decimal {
  import Int64

  predicate IsDigit(c: char) {
    '0' <= c <= '9'
  }

  predicate AllDigits(s: string) {
    forall i | 0 <= i < |s| :: IsDigit(s[i])
  }

  function Digit(d: nat): (c: char)
    requires d <= 9
    ensures IsDigit(c) && DigitValue(c) == d
  {
    '0' + d as char
  }

  function DigitValue(c: char): nat
    requires IsDigit(c)
  {
    (c - '0') as nat
  }

  function Print(n: nat): (s: string)
    ensures s != "" && AllDigits(s)
  {
    if n < 10 then [Digit(n)] else Print(n / 10) + [Digit(n % 10)]
  }

  function Value(s: string): nat
    requires AllDigits(s)
  {
    if s == "" then 0 else Value(s[..|s| - 1]) * 10 + DigitValue(s[|s| - 1])
  }

  lemma {:induction false} ValuePrint(n: nat)
    ensures Value(Print(n)) == n
  {
    var s := Print(n);
    if n < 10 {
      assert s[..0] == "";
    } else {
      assert s[..|s| - 1] == Print(n / 10);
      ValuePrint(n / 10);
    }
  }

  datatype Parsed = NotANumber | Number(value: nat)

  /** A nonempty run of digits that fits int64. */
  function ParseNumber(s: string): (r: Parsed)
    ensures r.Number? ==> r.value <= Int64.MAX
  {
    if s == "" || !AllDigits(s) || Value(s) > Int64.MAX then NotANumber else Number(Value(s))
  }

  /** parseRangeNumber and parseNonNegativeInt64: the digit loop, then strconv.ParseInt. */
  method ParseChecked(s: string) returns (r: Parsed)
    ensures r == ParseNumber(s)
  {
    if s == "" {
      return NotANumber;
    }
    for i := 0 to |s|
      invariant forall j | 0 <= j < i :: IsDigit(s[j])
    {
      if s[i] < '0' || s[i] > '9' {
        return NotANumber;
      }
    }
    if Value(s) > Int64.MAX {
      return NotANumber;
    }
    return Number(Value(s));
  }

  lemma ParsePrint(n: nat)
    requires n <= Int64.MAX
    ensures ParseNumber(Print(n)) == Number(n)
  {
    ValuePrint(n);
  }
}
