/** Decimal literals: what `%d` reads and what it prints. */
module Decimal {
  import opened Ascii

  predicate IsDigits(s: string)
  {
    forall i :: 0 <= i < |s| ==> IsDigit(s[i])
  }

  function Pow10(n: nat): (p: nat)
    ensures p >= 1
  {
    if n == 0 then 1 else 10 * Pow10(n - 1)
  }

  /** The number a run of digits denotes; leading zeros are allowed. */
  function Parse(s: string): (v: nat)
    requires IsDigits(s)
  {
    if s == [] then 0
    else 10 * Parse(s[..|s| - 1]) + (s[|s| - 1] as int - '0' as int)
  }

  function DigitChar(d: nat): (c: char)
    requires d < 10
    ensures IsDigit(c) && c as int - '0' as int == d
  {
    (d + '0' as int) as char
  }

  function Print(n: nat): (s: string)
    ensures s != [] && IsDigits(s)
  {
    if n < 10 then [DigitChar(n)] else Print(n / 10) + [DigitChar(n % 10)]
  }

  lemma {:induction false} ParsePrint(n: nat)
    ensures Parse(Print(n)) == n
  {
    if n >= 10 {
      ParsePrint(n / 10);
      assert Print(n)[..|Print(n)| - 1] == Print(n / 10);
    } else {
      assert Print(n)[..0] == [];
    }
  }

  /** The value is positional: the first digit counts as many tens as digits follow it. */
  lemma {:induction false} ParseFirst(c: char, rest: string)
    requires '0' <= c <= '9' && IsDigits(rest)
    ensures IsDigits([c] + rest) && Parse([]) == 0
    ensures Parse([c] + rest) == (c as int - 48) * Pow10(|rest|) + Parse(rest)
  {
    var s, n := [c] + rest, |rest|;
    assert s[..n + 1] == s;
    if n == 0 {
      assert s[..0] == [];
    } else {
      ParseFirst(c, rest[..n - 1]);
      assert s[..n] == [c] + rest[..n - 1];
      assert 10 * ((c as int - 48) * Pow10(n - 1)) == (c as int - 48) * Pow10(n);
    }
  }

  lemma {:induction false} ParseBound(s: string)
    requires IsDigits(s)
    ensures Parse(s) < Pow10(|s|)
  {
    if s != [] {
      ParseBound(s[..|s| - 1]);
    }
  }

  /** `Print` writes no leading zero, so it is the shortest literal. */
  lemma {:induction false} PrintShort(n: nat, k: nat)
    requires n < Pow10(k) && k >= 1
    ensures |Print(n)| <= k
  {
    if n >= 10 {
      assert k >= 2;
      assert n / 10 < Pow10(k - 1);
      PrintShort(n / 10, k - 1);
    }
  }

  /** A literal of a value above `n` is at least as long as `Print(n)`. */
  lemma PrintNotLonger(n: nat, s: string)
    requires IsDigits(s) && n < Parse(s)
    ensures |Print(n)| <= |s|
  {
    ParseBound(s);
    if s == [] {
    } else {
      PrintShort(n, |s|);
    }
  }
}
