/** Decimal printing and parsing of integers, with unbounded integers. */
module Decimal {
  import opened Common

  predicate IsDigit(c: char) {
    '0' <= c <= '9'
  }

  predicate AllDigits(s: string) {
    forall i :: 0 <= i < |s| ==> IsDigit(s[i])
  }

  function DigitValue(c: char): nat
    requires IsDigit(c)
  {
    c as int - '0' as int
  }

  function Digit(d: nat): (c: char)
    requires d < 10
    ensures IsDigit(c) && DigitValue(c) == d
  {
    ('0' as int + d) as char
  }

  function Itoa(n: nat): (s: string)
    ensures s != [] && AllDigits(s)
  {
    if n < 10 then [Digit(n)] else Itoa(n / 10) + [Digit(n % 10)]
  }

  function Magnitude(s: string): nat
    requires AllDigits(s)
  {
    if s == [] then 0 else 10 * Magnitude(s[..|s| - 1]) + DigitValue(s[|s| - 1])
  }

  /** Accepts an optional sign and at least one digit, and nothing else. */
  function Atoi(s: string): Option<int> {
    if s == [] then None
    else
      var signed := s[0] == '-' || s[0] == '+';
      var digits := if signed then s[1..] else s;
      if digits == [] || !AllDigits(digits) then None
      else
        var m: int := Magnitude(digits);
        Some(if s[0] == '-' then -m else m)
  }

  lemma {:induction false} MagnitudeOfItoa(n: nat)
    ensures Magnitude(Itoa(n)) == n
  {
    if n < 10 {
      assert Itoa(n)[..0] == [];
    } else {
      MagnitudeOfItoa(n / 10);
      assert Itoa(n)[..|Itoa(n)| - 1] == Itoa(n / 10);
    }
  }

  /** Parsing undoes printing. */
  lemma AtoiOfItoa(n: nat)
    ensures Atoi(Itoa(n)) == Some(n)
  {
    MagnitudeOfItoa(n);
    assert IsDigit(Itoa(n)[0]);
  }

  lemma {:induction false} ItoaShape(n: nat)
    ensures n > 0 ==> Itoa(n)[0] != '0'
    ensures n == 0 ==> Itoa(n) == "0"
  {
    if n >= 10 {
      ItoaShape(n / 10);
    }
  }

  /** The value of a digit string. */
  lemma MagnitudeSnoc(digits: string, c: char)
    requires AllDigits(digits) && IsDigit(c)
    ensures AllDigits(digits + [c]) && Magnitude(digits + [c]) == 10 * Magnitude(digits) + (c as int - '0' as int)
    ensures Magnitude("") == 0
  {
    assert (digits + [c])[..|digits|] == digits;
  }

  /** A sign may come before the digits; anything else is refused. */
  lemma AtoiAccepts(s: string)
    ensures Atoi(s).Some? <==>
            (s != "" && AllDigits(s)) || (|s| > 1 && s[0] in {'+', '-'} && AllDigits(s[1..]))
    ensures s != "" && AllDigits(s) ==> Atoi(s) == Some(Magnitude(s))
    ensures |s| > 1 && s[0] == '+' && AllDigits(s[1..]) ==> Atoi(s) == Some(Magnitude(s[1..]))
    ensures |s| > 1 && s[0] == '-' && AllDigits(s[1..]) ==> Atoi(s).value + Magnitude(s[1..]) == 0
  {
    if s != "" && AllDigits(s) {
      assert IsDigit(s[0]);
    }
  }
}
