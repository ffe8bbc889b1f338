/** Decimal digits of natural numbers, as `str(n)` prints and `int(s)` reads them. */
module Decimal {
  predicate IsDigit(c: char) { '0' <= c <= '9' }

  predicate AllDigits(s: string) { forall i | 0 <= i < |s| :: IsDigit(s[i]) }

  function Digit(d: nat): (c: char)
    requires d < 10
    ensures IsDigit(c) && c as int - '0' as int == d
  {
    ('0' as int + d) as char
  }

  /** `str(n)`. */
  function Print(n: nat): (s: string)
    ensures s != "" && AllDigits(s)
  {
    if n < 10 then [Digit(n)] else Print(n / 10) + [Digit(n % 10)]
  }

  /** `int(s)` of a run of digits; 0 for the empty run. */
  function Parse(s: string): nat
    requires AllDigits(s)
  {
    if s == "" then 0
    else 10 * Parse(s[..|s| - 1]) + (s[|s| - 1] as int - '0' as int)
  }

  lemma {:induction false} ParsePrint(n: nat)
    ensures Parse(Print(n)) == n
  {
    if n >= 10 {
      var s := Print(n);
      assert s[..|s| - 1] == Print(n / 10);
      ParsePrint(n / 10);
    } else {
      assert Print(n)[..0] == "";
    }
  }

  /** More digits behind a number never make it smaller. */
  lemma {:induction false} ParsePrefix(s: string, k: nat)
    requires AllDigits(s) && k <= |s|
    ensures Parse(s[..k]) <= Parse(s)
    decreases |s|
  {
    if k == |s| {
      assert s[..k] == s;
    } else {
      ParsePrefix(s[..|s| - 1], k);
      assert s[..|s| - 1][..k] == s[..k];
    }
  }

  /** Numbers below a power of ten have at most that many digits. */
  lemma {:induction false} PrintLength(n: nat, digits: nat)
    requires digits >= 1 && n < Ten(digits)
    ensures |Print(n)| <= digits
    decreases digits
  {
    if n >= 10 {
      assert Ten(1) == 10;
      PrintLength(n / 10, digits - 1);
    }
  }

  function Ten(k: nat): nat { if k == 0 then 1 else 10 * Ten(k - 1) }
}
