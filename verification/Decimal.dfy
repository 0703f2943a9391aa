/** Unsigned integers printed in decimal, as `itoa`, `format!` and template literals do. */
module Decimal {
  function Digit(d: nat): char
    requires d < 10
  {
    '0' + d as char
  }

  predicate IsDigit(c: char) {
    '0' <= c <= '9'
  }

  function Text(n: nat): string {
    if n < 10 then [Digit(n)] else Text(n / 10) + [Digit(n % 10)]
  }

  lemma {:induction false} TextIsDigits(n: nat)
    ensures Text(n) != [] && forall c | c in Text(n) :: IsDigit(c)
  {
    if n >= 10 {
      TextIsDigits(n / 10);
    }
  }

  lemma {:induction false} TextInjective(m: nat, n: nat)
    requires Text(m) == Text(n)
    ensures m == n
  {
    var s, t := Text(m), Text(n);
    assert s[|s| - 1] == Digit(m % 10) && t[|t| - 1] == Digit(n % 10);
    if m >= 10 && n >= 10 {
      assert s[..|s| - 1] == Text(m / 10) && t[..|t| - 1] == Text(n / 10);
      TextInjective(m / 10, n / 10);
    } else {
      TextLength(m);
      TextLength(n);
    }
  }

  /** The number written by a string of digits. */
  function Value(digits: string): nat
    requires forall c | c in digits :: IsDigit(c)
  {
    if digits == [] then 0
    else
      var last := digits[|digits| - 1];
      assert IsDigit(last);
      Value(digits[..|digits| - 1]) * 10 + (last - '0') as nat
  }

  lemma {:induction false} ValueOfText(n: nat)
    ensures (forall c | c in Text(n) :: IsDigit(c)) && Value(Text(n)) == n
  {
    TextIsDigits(n);
    if n < 10 {
      assert Text(n)[..0] == [];
    } else {
      ValueOfText(n / 10);
      assert Text(n)[..|Text(n)| - 1] == Text(n / 10);
    }
  }

  lemma TextLength(n: nat)
    ensures |Text(n)| == 1 <==> n < 10
  {
    if n >= 10 {
      TextIsDigits(n / 10);
    }
  }
}
