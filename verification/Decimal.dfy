/** Decimal rendering of natural numbers, as Python's `str` and f-strings produce it. */
module Decimal {

  function Digit(d: nat): char
    requires d < 10
  {
    "0123456789"[d]
  }

  function Str(n: nat): string {
    if n < 10 then [Digit(n)] else Str(n / 10) + [Digit(n % 10)]
  }

  ghost predicate IsDigit(c: char) {
    '0' <= c <= '9'
  }

  function Value(s: string): nat {
    if s == [] then 0
    else
      var c := s[|s| - 1];
      10 * Value(s[..|s| - 1]) + (if '0' <= c <= '9' then (c - '0') as nat else 0)
  }

  lemma {:induction false} StrIsDigits(n: nat)
    ensures Str(n) != [] && forall i | 0 <= i < |Str(n)| :: IsDigit(Str(n)[i])
  {
    if n >= 10 {
      StrIsDigits(n / 10);
    }
  }

  lemma ValueSnoc(s: string, d: nat)
    requires d < 10
    ensures Value(s + [Digit(d)]) == 10 * Value(s) + d
  {
    assert (s + [Digit(d)])[..|s|] == s;
  }

  /** Reading a rendered number back gives the number; it is non-empty and all digits. */
  lemma {:induction false} StrRoundTrip(n: nat)
    ensures Value(Str(n)) == n && Str(n) != []
    ensures forall c | c in Str(n) :: IsDigit(c)
  {
    StrIsDigits(n);
    if n < 10 {
      ValueSnoc([], n);
      assert [] + [Digit(n)] == [Digit(n)];
    } else {
      StrRoundTrip(n / 10);
      ValueSnoc(Str(n / 10), n % 10);
    }
  }
}
