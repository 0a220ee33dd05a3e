/** Decimal rendering, as %d prints a non-negative number. */
module Decimals {
  import opened Text

  function Digit(d: nat): (c: char)
    requires d < 10
    ensures IsDigit(c)
  {
    '0' + d as char
  }

  function Show10(n: nat): (s: string)
    ensures s != "" && forall c | c in s :: IsDigit(c)
  {
    if n < 10 then [Digit(n)] else Show10(n / 10) + [Digit(n % 10)]
  }

  function Value10(s: string): nat {
    if s == "" then 0
    else
      var c := s[|s| - 1];
      10 * Value10(s[..|s| - 1]) + if IsDigit(c) then (c - '0') as nat else 0
  }

  lemma {:induction false} ShowValue(n: nat)
    ensures Value10(Show10(n)) == n
  {
    if n < 10 {
      assert [Digit(n)][..0] == "";
    } else {
      ShowValue(n / 10);
      var s := Show10(n / 10);
      assert (s + [Digit(n % 10)])[..|s|] == s;
    }
  }
}
