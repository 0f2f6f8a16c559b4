/** Decimal rendering of natural numbers, as %d prints them. */
module Decimals {
  function Digit(d: nat): char
    requires d < 10
  {
    '0' + d as char
  }

  function Dec(n: nat): (s: string)
    ensures s != []
    ensures forall i | 0 <= i < |s| :: '0' <= s[i] <= '9'
  {
    if n < 10 then [Digit(n)] else Dec(n / 10) + [Digit(n % 10)]
  }

  lemma {:induction false} DecInjective(a: nat, b: nat)
    requires Dec(a) == Dec(b)
    ensures a == b
  {
    if a < 10 && b < 10 {
      assert Dec(a)[0] == Digit(a) && Dec(b)[0] == Digit(b);
    } else if a >= 10 && b >= 10 {
      assert Dec(a)[..|Dec(a)| - 1] == Dec(a / 10) && Dec(b)[..|Dec(b)| - 1] == Dec(b / 10);
      assert Dec(a)[|Dec(a)| - 1] == Digit(a % 10) && Dec(b)[|Dec(b)| - 1] == Digit(b % 10);
      DecInjective(a / 10, b / 10);
    }
  }
}
