/** The scanner behind `(?i)\bLIMIT\s+(\d+)`: where it matches, what it matches,
    and how matching reacts to text being appended or replaced. */
module LimitScanner {
  import opened Ascii
  import opened Decimal

  /** The keyword, folded to lower case. */
  function Keyword(): (k: string)
    ensures |k| == 5 && forall i :: 0 <= i < |k| ==> IsLower(k[i])
  {
    Lower("LIMIT")
  }

  /** Zero or more blanks and then a digit. */
  predicate SkipsToDigit(s: string)
  {
    s != [] && (IsDigit(s[0]) || (IsBlank(s[0]) && SkipsToDigit(s[1..])))
  }

  /** The rest `pat` of the keyword, in any case, one or more blanks, and a digit. */
  predicate Continues(pat: string, s: string)
  {
    && s != []
    && if pat == [] then IsBlank(s[0]) && SkipsToDigit(s[1..])
       else ToLower(s[0]) == pat[0] && Continues(pat[1..], s[1..])
  }

  predicate ClauseAhead(s: string)
  {
    Continues(Keyword(), s)
  }

  /** `\d+` is greedy: the longest run of digits at the front of `s`. */
  function DigitsLen(s: string): (n: nat)
    ensures n <= |s| && IsDigits(s[..n])
    ensures n < |s| ==> !IsDigit(s[n])
  {
    if s == [] || !IsDigit(s[0]) then 0 else 1 + DigitsLen(s[1..])
  }

  function SkipLen(s: string): (n: nat)
    requires SkipsToDigit(s)
    ensures 1 <= n <= |s|
  {
    if IsDigit(s[0]) then DigitsLen(s) else 1 + SkipLen(s[1..])
  }

  function ContinueLen(pat: string, s: string): (n: nat)
    requires Continues(pat, s)
    ensures |pat| + 2 <= n <= |s|
  {
    if pat == [] then 1 + SkipLen(s[1..]) else 1 + ContinueLen(pat[1..], s[1..])
  }

  /** Length of the match that starts at the front of `s`. */
  function ClauseLen(s: string): (n: nat)
    requires ClauseAhead(s)
    ensures 7 <= n <= |s|
  {
    ContinueLen(Keyword(), s)
  }

  function SkipLiteral(s: string): (d: string)
    requires SkipsToDigit(s)
    ensures d != [] && IsDigits(d)
    ensures |d| <= SkipLen(s)
  {
    if IsDigit(s[0]) then s[..DigitsLen(s)] else SkipLiteral(s[1..])
  }

  function ContinueLiteral(pat: string, s: string): (d: string)
    requires Continues(pat, s)
    ensures d != [] && IsDigits(d)
    ensures |d| + |pat| + 1 <= ContinueLen(pat, s)
  {
    if pat == [] then SkipLiteral(s[1..]) else ContinueLiteral(pat[1..], s[1..])
  }

  /** The digits captured by the match at the front of `s`. */
  function Literal(s: string): (d: string)
    requires ClauseAhead(s)
    ensures d != [] && IsDigits(d) && |d| + 6 <= ClauseLen(s)
  {
    ContinueLiteral(Keyword(), s)
  }

  function Value(s: string): (v: nat)
    requires ClauseAhead(s)
  {
    Parse(Literal(s))
  }

  /** `s` is one match and nothing else. */
  predicate IsClause(s: string)
  {
    ClauseAhead(s) && ClauseLen(s) == |s|
  }

  /** A match ends with a digit, and no digit follows it. */
  lemma {:induction false} SkipEnds(s: string)
    requires SkipsToDigit(s)
    ensures var n := SkipLen(s); IsDigit(s[n - 1]) && (n < |s| ==> !IsDigit(s[n]))
  {
    if !IsDigit(s[0]) { SkipEnds(s[1..]); }
  }

  lemma {:induction false} ContinueEnds(pat: string, s: string)
    requires Continues(pat, s)
    ensures var n := ContinueLen(pat, s); IsDigit(s[n - 1]) && (n < |s| ==> !IsDigit(s[n]))
  {
    if pat == [] { SkipEnds(s[1..]); } else { ContinueEnds(pat[1..], s[1..]); }
  }

  lemma ClauseEnds(s: string)
    requires ClauseAhead(s)
    ensures var n := ClauseLen(s); IsDigit(s[n - 1]) && (n < |s| ==> !IsDigit(s[n]))
  {
    ContinueEnds(Keyword(), s);
  }

  // ---- A match does not depend on what follows its last digit ----

  lemma {:induction false} DigitsCut(s: string, n: nat, r: string)
    requires n == DigitsLen(s) && (r == [] || !IsDigit(r[0]))
    ensures DigitsLen(s[..n] + r) == n
  {
    if n > 0 {
      DigitsCut(s[1..], n - 1, r);
      assert (s[..n] + r)[1..] == s[1..][..n - 1] + r;
    } else {
      assert s[..0] + r == r;
    }
  }

  lemma {:induction false} SkipCut(s: string, r: string)
    requires SkipsToDigit(s) && (r == [] || !IsDigit(r[0]))
    ensures var t := s[..SkipLen(s)] + r;
            SkipsToDigit(t) && SkipLen(t) == SkipLen(s) && SkipLiteral(t) == SkipLiteral(s)
  {
    var n := SkipLen(s);
    var t := s[..n] + r;
    assert t[0] == s[0];
    if IsDigit(s[0]) {
      DigitsCut(s, n, r);
      assert DigitsLen(t) == n;
      assert t[..n] == s[..n];
    } else {
      SkipCut(s[1..], r);
      assert t[1..] == s[1..][..n - 1] + r;
      assert SkipLen(t) == 1 + SkipLen(t[1..]);
    }
  }

  lemma {:induction false} ContinueCut(pat: string, s: string, r: string)
    requires Continues(pat, s) && (r == [] || !IsDigit(r[0]))
    ensures var t := s[..ContinueLen(pat, s)] + r;
            && Continues(pat, t) && ContinueLen(pat, t) == ContinueLen(pat, s)
            && ContinueLiteral(pat, t) == ContinueLiteral(pat, s)
  {
    var n := ContinueLen(pat, s);
    var t := s[..n] + r;
    assert t[1..] == s[1..][..n - 1] + r;
    if pat == [] {
      SkipCut(s[1..], r);
    } else {
      ContinueCut(pat[1..], s[1..], r);
    }
  }

  lemma ClauseCut(s: string, r: string)
    requires ClauseAhead(s) && (r == [] || !IsDigit(r[0]))
    ensures var t := s[..ClauseLen(s)] + r;
            ClauseAhead(t) && ClauseLen(t) == ClauseLen(s) && Literal(t) == Literal(s)
  {
    ContinueCut(Keyword(), s, r);
  }

  lemma ClauseAlone(s: string)
    requires ClauseAhead(s)
    ensures var t := s[..ClauseLen(s)]; IsClause(t) && Literal(t) == Literal(s)
  {
    ClauseCut(s, []);
    assert s[..ClauseLen(s)] + [] == s[..ClauseLen(s)];
  }

  // ---- What a match looks like ----

  /** The keyword in any case, then only blanks up to `i`, then only digits; neither run empty. */
  predicate HasForm(pat: string, t: string, i: nat)
  {
    && |pat| < i < |t|
    && Lower(t[..|pat|]) == pat
    && (forall j :: |pat| <= j < i ==> var b := t[j] as int; b == 32 || b == 9 || b == 10 || b == 12 || b == 13)
    && (forall j :: i <= j < |t| ==> '0' <= t[j] <= '9')
  }

  lemma {:induction false} AllDigits(d: string)
    requires IsDigits(d)
    ensures DigitsLen(d) == |d|
  {
    if d != [] { AllDigits(d[1..]); }
  }

  lemma {:induction false} BlanksThenDigits(s: string, i: nat)
    requires i < |s|
    requires forall j :: 0 <= j < i ==> IsBlank(s[j])
    requires forall j :: i <= j < |s| ==> IsDigit(s[j])
    ensures SkipsToDigit(s) && SkipLen(s) == |s| && SkipLiteral(s) == s[i..]
  {
    if i == 0 {
      AllDigits(s);
      assert s[..|s|] == s && s[0..] == s;
    } else {
      BlanksThenDigits(s[1..], i - 1);
      assert s[1..][i - 1..] == s[i..];
    }
  }

  lemma {:induction false} FormIsMatch(pat: string, t: string, i: nat)
    requires HasForm(pat, t, i)
    ensures Continues(pat, t) && ContinueLen(pat, t) == |t| && ContinueLiteral(pat, t) == t[i..]
  {
    assert t[1..][i - 1..] == t[i..];
    if pat == [] {
      BlanksThenDigits(t[1..], i - 1);
    } else {
      assert Lower(t[..|pat|])[0] == ToLower(t[0]);
      assert Lower(t[..|pat|])[1..] == Lower(t[1..][..|pat| - 1]);
      FormIsMatch(pat[1..], t[1..], i - 1);
    }
  }

  lemma {:induction false} SkipHasForm(s: string) returns (i: nat)
    requires SkipsToDigit(s) && SkipLen(s) == |s|
    ensures i < |s|
    ensures forall j :: 0 <= j < i ==> IsBlank(s[j])
    ensures forall j :: i <= j < |s| ==> IsDigit(s[j])
  {
    if IsDigit(s[0]) {
      i := 0;
      assert s[..|s|] == s;
    } else {
      i := SkipHasForm(s[1..]);
      i := i + 1;
    }
  }

  lemma {:induction false} MatchHasForm(pat: string, t: string) returns (i: nat)
    requires Continues(pat, t) && ContinueLen(pat, t) == |t|
    ensures HasForm(pat, t, i)
  {
    if pat == [] {
      i := SkipHasForm(t[1..]);
    } else {
      i := MatchHasForm(pat[1..], t[1..]);
      assert Lower(t[..|pat|]) == [ToLower(t[0])] + Lower(t[1..][..|pat| - 1]);
    }
    i := i + 1;
  }

  /** A string is one match exactly when it is the keyword, blanks and digits. */
  lemma ClauseForm(t: string)
    ensures IsClause(t) <==> exists i: nat :: HasForm(Keyword(), t, i)
    ensures forall i: nat :: HasForm(Keyword(), t, i) ==> IsClause(t) && Literal(t) == t[i..]
  {
    forall i: nat | HasForm(Keyword(), t, i) ensures IsClause(t) && Literal(t) == t[i..] {
      FormIsMatch(Keyword(), t, i);
    }
    if IsClause(t) { var i := MatchHasForm(Keyword(), t); }
  }

  /** There is a match at the front exactly when some prefix is a match; the longest is taken. */
  lemma ClauseIsLongestPrefix(s: string, n: nat)
    requires n <= |s| && IsClause(s[..n])
    ensures ClauseAhead(s) && n <= ClauseLen(s)
  {
    var d := DigitsLen(s[n..]);
    var i := MatchHasForm(Keyword(), s[..n]);
    var t := s[..n + d];
    assert s == s[..n] + s[n..];
    assert HasForm(Keyword(), t, i) by {
      assert t[..5] == s[..n][..5];
      forall j | i <= j < |t| ensures IsDigit(t[j]) {
        if j >= n { assert t[j] == s[n..][..d][j - n]; } else { assert t[j] == s[..n][j]; }
      }
      forall j | 5 <= j < i ensures IsBlank(t[j]) { assert t[j] == s[..n][j]; }
    }
    FormIsMatch(Keyword(), t, i);
    assert t[..|t|] == t && s == t + s[n + d..];
    ClauseCut(t, s[n + d..]);
  }

  /** A clause as the program writes it. */
  lemma WrittenClause(d: string)
    requires d != [] && IsDigits(d)
    ensures IsClause("LIMIT " + d) && Literal("LIMIT " + d) == d
  {
    var t := "LIMIT " + d;
    assert t[..5] == "LIMIT" && t[6..] == d;
    assert HasForm(Keyword(), t, 6) by {
      forall j | 6 <= j < |t| ensures IsDigit(t[j]) { assert t[j] == d[j - 6]; }
    }
    FormIsMatch(Keyword(), t, 6);
  }
}
