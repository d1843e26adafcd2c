/** Decimal numerals, as printed into cursors and locators and read back. */
module Decimal {

  predicate IsDigit(c: char) {
    '0' <= c <= '9'
  }

  function Digits(n: nat): string {
    (if n < 10 then "" else Digits(n / 10)) + [('0' as int + n % 10) as char]
  }

  function Value(s: string): nat
    requires forall c <- s :: IsDigit(c)
  {
    if s == [] then 0
    else
      var last := s[|s| - 1];
      assert IsDigit(last);
      Value(s[..|s| - 1]) * 10 + (last as int - '0' as int)
  }

  lemma AppendDigit(front: string, last: char)
    requires (forall c <- front :: IsDigit(c)) && IsDigit(last)
    ensures forall c <- front + [last] :: IsDigit(c)
    ensures Value(front + [last]) == Value(front) * 10 + (last as int - '0' as int)
  {
    assert (front + [last])[..|front|] == front;
  }

  lemma {:induction false} DigitsValue(n: nat)
    ensures |Digits(n)| > 0 && (forall c <- Digits(n) :: IsDigit(c)) && Value(Digits(n)) == n
  {
    var front, last := if n < 10 then "" else Digits(n / 10), ('0' as int + n % 10) as char;
    assert Digits(n) == front + [last];
    if n >= 10 {
      DigitsValue(n / 10);
    }
    hide Digits, Value;
    NoDigits();
    AppendDigit(front, last);
  }

  lemma NoDigits()
    ensures Value("") == 0
  {
  }

  lemma DigitsInjective(a: nat, b: nat)
    requires Digits(a) == Digits(b)
    ensures a == b
  {
    DigitsValue(a);
    DigitsValue(b);
  }

  /** The length of the longest prefix of digits. */
  function Run(s: string): (n: nat)
    ensures n <= |s| && forall c <- s[..n] :: IsDigit(c)
  {
    if s == [] || !IsDigit(s[0]) then 0
    else
      assert s[..1 + Run(s[1..])] == [s[0]] + s[1..][..Run(s[1..])];
      1 + Run(s[1..])
  }

  lemma {:induction false} RunStops(digits: string, rest: string)
    requires forall c <- digits :: IsDigit(c)
    requires rest == [] || !IsDigit(rest[0])
    ensures Run(digits + rest) == |digits|
  {
    if digits == [] {
      assert digits + rest == rest;
    } else {
      assert (digits + rest)[1..] == digits[1..] + rest;
      RunStops(digits[1..], rest);
    }
  }
}
