/**
 Python's `str(n)` for a non-negative integer: its decimal digits, most
 significant first, without leading zeros.
 */
module Decimal {

  /** The character of one decimal digit: the digits `'0'` to `'9'` are consecutive code points. */
  function Digit(d: nat): (c: char)
    requires d < 10
    ensures '0' <= c <= '9'
    ensures c as int - '0' as int == d
  {
    ('0' as int + d) as char
  }

  function NatToString(n: nat): (s: string)
    ensures |s| > 0
    ensures n >= 10 ==> |s| >= 2
    ensures forall i :: 0 <= i < |s| ==> '0' <= s[i] <= '9'
  {
    if n < 10 then [Digit(n)] else NatToString(n / 10) + [Digit(n % 10)]
  }

  /** Different numbers have different decimal representations. */
  lemma {:induction false} NatToStringInjective(m: nat, n: nat)
    ensures NatToString(m) == NatToString(n) ==> m == n
    decreases m
  {
    if NatToString(m) == NatToString(n) {
      var s := NatToString(m);
      if m < 10 && n < 10 {
        assert Digit(m) == s[0] == Digit(n);
      } else if m >= 10 && n >= 10 {
        assert s[..|s| - 1] == NatToString(m / 10) == NatToString(n / 10);
        assert Digit(m % 10) == s[|s| - 1] == Digit(n % 10);
        NatToStringInjective(m / 10, n / 10);
      }
    }
  }
}
