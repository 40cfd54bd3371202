/** Capping every `LIMIT n` of a statement, and appending one. */
module LimitRewriter {
  import opened Ascii
  import opened Decimal
  import opened LimitScanner

  /** Largest value that fits the `int` that `Sscanf` fills. */
  const MAX_INT: int := 0x7FFF_FFFF_FFFF_FFFF

  // ---- capLimit ----

  /** The replacement of one match. */
  function CapMatch(m: string, max: int): string
    requires IsClause(m) && max > 0
  {
    if max < Value(m) <= MAX_INT then "LIMIT " + Print(max) else m
  }

  /** `ReplaceAllStringFunc` from a position whose previous byte is a word byte iff `w`. */
  function CapFrom(w: bool, s: string, max: int): string
    requires max > 0
    decreases |s|
  {
    if s == [] then []
    else if !w && ClauseAhead(s) then
      var n := ClauseLen(s);
      ClauseAlone(s);
      CapMatch(s[..n], max) + CapFrom(true, s[n..], max)
    else [s[0]] + CapFrom(IsWord(s[0]), s[1..], max)
  }

  lemma CapMatchStep(s: string, max: int, n: nat)
    requires max > 0 && ClauseAhead(s) && n == ClauseLen(s)
    ensures IsClause(s[..n])
    ensures CapFrom(false, s, max) == CapMatch(s[..n], max) + CapFrom(true, s[n..], max)
  {
    ClauseAlone(s);
  }

  function CapLimit(sql: string, max: int): string
  {
    if max <= 0 then sql else CapFrom(false, sql, max)
  }

  // ---- The statement as a list of matches and of bytes outside them ----

  datatype Tokens = End | Byte(c: char, rest: Tokens) | Limit(text: string, rest: Tokens)

  function Lex(w: bool, s: string): Tokens
    decreases |s|
  {
    if s == [] then End
    else if !w && ClauseAhead(s) then Limit(s[..ClauseLen(s)], Lex(true, s[ClauseLen(s)..]))
    else Byte(s[0], Lex(IsWord(s[0]), s[1..]))
  }

  function Text(ts: Tokens): string
  {
    match ts
    case End => []
    case Byte(c, rest) => [c] + Text(rest)
    case Limit(text, rest) => text + Text(rest)
  }

  predicate Proper(ts: Tokens)
  {
    match ts
    case End => true
    case Byte(_, rest) => Proper(rest)
    case Limit(text, rest) => IsClause(text) && Proper(rest)
  }

  function CapTokens(ts: Tokens, max: int): Tokens
    requires max > 0 && Proper(ts)
  {
    match ts
    case End => End
    case Byte(c, rest) => Byte(c, CapTokens(rest, max))
    case Limit(text, rest) => Limit(CapMatch(text, max), CapTokens(rest, max))
  }

  /** `Lex` splits the statement, and its matches are matches. */
  lemma {:induction false} LexSplits(w: bool, s: string)
    ensures Text(Lex(w, s)) == s && Proper(Lex(w, s))
    decreases |s|
  {
    if s == [] {
    } else if !w && ClauseAhead(s) {
      ClauseAlone(s);
      LexSplits(true, s[ClauseLen(s)..]);
    } else {
      LexSplits(IsWord(s[0]), s[1..]);
    }
  }

  // ---- Lex finds exactly the places where the expression matches ----

  /** The declarative reading of `\bLIMIT\s+\d+` at offset `p`. */
  predicate MatchesAt(w: bool, s: string, p: nat)
  {
    p < |s| && ClauseAhead(s[p..]) && !(if p == 0 then w else InWord(s[p - 1]))
  }

  /** A letter, a digit or an underscore. */
  predicate InWord(c: char)
  {
    '0' <= c <= '9' || 'A' <= c <= 'Z' || c == '_' || 'a' <= c <= 'z'
  }

  predicate MatchStartsAt(ts: Tokens, p: nat)
  {
    match ts
    case End => false
    case Byte(_, rest) => p >= 1 && MatchStartsAt(rest, p - 1)
    case Limit(text, rest) => p == 0 || (p >= |text| && MatchStartsAt(rest, p - |text|))
  }

  lemma {:induction false} SkipInterior(s: string, p: nat)
    requires SkipsToDigit(s) && p < SkipLen(s)
    ensures IsBlank(s[p]) || IsDigit(s[p])
  {
    if IsDigit(s[0]) {
      assert s[..DigitsLen(s)][p] == s[p];
    } else if p > 0 {
      SkipInterior(s[1..], p - 1);
    }
  }

  lemma {:induction false} ContinueInterior(pat: string, s: string, p: nat)
    requires Continues(pat, s) && 0 < p < ContinueLen(pat, s)
    requires forall i :: 0 <= i < |pat| ==> IsLower(pat[i])
    ensures IsWord(s[p - 1]) || !ClauseAhead(s[p..])
  {
    if pat == [] {
      SkipInterior(s[1..], p - 1);
    } else if p > 1 {
      ContinueInterior(pat[1..], s[1..], p - 1);
      assert s[1..][p - 1..] == s[p..];
    }
  }

  lemma MatchesAtShift(w: bool, s: string, n: nat, p: nat)
    requires 0 < n <= |s| && n <= p
    ensures MatchesAt(w, s, p) == MatchesAt(IsWord(s[n - 1]), s[n..], p - n)
  {
    if p < |s| { assert s[n..][p - n..] == s[p..]; }
  }

  lemma MatchesAtFront(w: bool, s: string)
    ensures MatchesAt(w, s, 0) <==> s != [] && !w && ClauseAhead(s)
  {
    assert s[0..] == s;
  }

  /** No match starts inside a match. */
  lemma NoMatchInside(w: bool, s: string, p: nat)
    requires ClauseAhead(s) && 0 < p < ClauseLen(s)
    ensures !MatchesAt(w, s, p)
  {
    ContinueInterior(Keyword(), s, p);
  }

  /** What a match contributes, and what a byte outside matches does. */
  lemma StartsInMatch(s: string, p: nat)
    requires ClauseAhead(s) && p < ClauseLen(s)
    ensures MatchStartsAt(Lex(false, s), p) <==> MatchesAt(false, s, p)
  {
    if p == 0 { MatchesAtFront(false, s); } else { NoMatchInside(false, s, p); }
  }

  lemma StartsAfterMatch(s: string, p: nat)
    requires ClauseAhead(s) && ClauseLen(s) <= p
    ensures var n := ClauseLen(s);
      && MatchStartsAt(Lex(false, s), p) == MatchStartsAt(Lex(true, s[n..]), p - n)
      && MatchesAt(false, s, p) == MatchesAt(true, s[n..], p - n)
  {
    ClauseEnds(s);
    MatchesAtShift(false, s, ClauseLen(s), p);
  }

  lemma StartsAfterByte(w: bool, s: string, p: nat)
    requires s != [] && (w || !ClauseAhead(s)) && p > 0
    ensures MatchStartsAt(Lex(w, s), p) == MatchStartsAt(Lex(IsWord(s[0]), s[1..]), p - 1)
    ensures MatchesAt(w, s, p) == MatchesAt(IsWord(s[0]), s[1..], p - 1)
  {
    MatchesAtShift(w, s, 1, p);
  }

  lemma {:induction false} LexFindsMatches(w: bool, s: string, p: nat)
    ensures MatchStartsAt(Lex(w, s), p) <==> MatchesAt(w, s, p)
    decreases |s|
  {
    if s == [] {
    } else if !w && ClauseAhead(s) {
      var n := ClauseLen(s);
      if p < n {
        StartsInMatch(s, p);
      } else {
        StartsAfterMatch(s, p);
        LexFindsMatches(true, s[n..], p - n);
      }
    } else if p == 0 {
      MatchesAtFront(w, s);
    } else {
      StartsAfterByte(w, s, p);
      LexFindsMatches(IsWord(s[0]), s[1..], p - 1);
    }
  }

  // ---- Capping one match ----

  lemma CapMatchIsClause(m: string, max: int)
    requires IsClause(m) && max > 0
    ensures var r := CapMatch(m, max);
            && IsClause(r) && |r| <= |m|
            && Value(r) == if Value(m) > MAX_INT then Value(m) else if max < Value(m) then max else Value(m)
  {
    if max < Value(m) <= MAX_INT {
      WrittenClause(Print(max));
      ParsePrint(max);
      PrintNotLonger(max, Literal(m));
    }
  }

  lemma CapWritten(a: int, m: int)
    requires 0 < a <= MAX_INT && 0 < m
    ensures IsClause("LIMIT " + Print(a))
    ensures CapMatch("LIMIT " + Print(a), m) == "LIMIT " + Print(if a < m then a else m)
  {
    WrittenClause(Print(a));
    ParsePrint(a);
  }

  lemma CapMatchTwice(m: string, a: int, b: int)
    requires IsClause(m) && 0 < a <= MAX_INT && b > 0
    ensures IsClause(CapMatch(m, a))
    ensures CapMatch(CapMatch(m, a), b) == CapMatch(m, if a < b then a else b)
  {
    if a < Value(m) <= MAX_INT { CapWritten(a, b); }
  }

  // ---- The matches of the output realign with the matches of the input ----

  lemma {:induction false} SkipSurvivesCap(w: bool, s: string, max: int)
    requires max > 0
    ensures SkipsToDigit(CapFrom(w, s, max)) == SkipsToDigit(s)
    decreases |s|
  {
    if s == [] {
    } else if !w && ClauseAhead(s) {
      ClauseAlone(s);
      CapMatchIsClause(s[..ClauseLen(s)], max);
      assert CapFrom(w, s, max)[0] == CapMatch(s[..ClauseLen(s)], max)[0];
    } else {
      var t := CapFrom(w, s, max);
      assert t[0] == s[0] && t[1..] == CapFrom(IsWord(s[0]), s[1..], max);
      SkipSurvivesCap(IsWord(s[0]), s[1..], max);
    }
  }

  lemma {:induction false} ContinueSurvivesCap(pat: string, s: string, max: int)
    requires max > 0 && forall i :: 0 <= i < |pat| ==> IsLower(pat[i])
    ensures Continues(pat, CapFrom(true, s, max)) == Continues(pat, s)
  {
    if s != [] {
      var t := CapFrom(true, s, max);
      assert t[0] == s[0] && t[1..] == CapFrom(IsWord(s[0]), s[1..], max);
      if pat == [] {
        SkipSurvivesCap(IsWord(s[0]), s[1..], max);
      } else if ToLower(s[0]) == pat[0] {
        ContinueSurvivesCap(pat[1..], s[1..], max);
      }
    }
  }

  /** No match appears at a byte that starts none. */
  lemma NoNewMatch(s: string, max: int)
    requires max > 0 && s != [] && !ClauseAhead(s)
    ensures !ClauseAhead([s[0]] + CapFrom(IsWord(s[0]), s[1..], max))
  {
    var t := [s[0]] + CapFrom(IsWord(s[0]), s[1..], max);
    assert t[1..] == CapFrom(IsWord(s[0]), s[1..], max);
    if ToLower(s[0]) == Keyword()[0] {
      ContinueSurvivesCap(Keyword()[1..], s[1..], max);
    }
  }

  /** A capped match followed by the capped rest is still that match. */
  lemma MatchKept(m: string, r: string)
    requires IsClause(m) && (r == [] || !IsDigit(r[0]))
    ensures ClauseAhead(m + r) && ClauseLen(m + r) == |m|
    ensures Lex(false, m + r) == Limit(m, Lex(true, r))
  {
    ClauseCut(m, r);
    assert m[..|m|] == m;
    assert (m + r)[..|m|] == m && (m + r)[|m|..] == r;
  }

  /** Lexing the capped text yields the capped tokens. */
  lemma {:induction false} LexCap(w: bool, s: string, max: int)
    requires max > 0
    ensures Proper(Lex(w, s))
    ensures Lex(w, CapFrom(w, s, max)) == CapTokens(Lex(w, s), max)
    decreases |s|
  {
    LexSplits(w, s);
    if s == [] {
    } else if !w && ClauseAhead(s) {
      var n := ClauseLen(s);
      ClauseEnds(s);
      CapMatchStep(s, max, n);
      CapMatchIsClause(s[..n], max);
      MatchKept(CapMatch(s[..n], max), CapFrom(true, s[n..], max));
      LexCap(true, s[n..], max);
    } else {
      var o := CapFrom(w, s, max);
      if !ClauseAhead(s) { NoNewMatch(s, max); }
      assert o[0] == s[0] && o[1..] == CapFrom(IsWord(s[0]), s[1..], max);
      LexCap(IsWord(s[0]), s[1..], max);
    }
  }

  lemma CapIsText(w: bool, s: string, max: int)
    requires max > 0
    ensures Proper(Lex(w, s)) && CapFrom(w, s, max) == Text(CapTokens(Lex(w, s), max))
  {
    LexCap(w, s, max);
    LexSplits(w, CapFrom(w, s, max));
  }

  // ---- The main results ----

  /** `after` is `before` with each bounded value v replaced by min(v, max): same bytes
      outside the matches, the i-th match still the i-th, no match longer than it was. */
  predicate PointwiseCapped(before: Tokens, after: Tokens, max: int)
    requires max > 0 && Proper(before) && Proper(after)
  {
    match (before, after)
    case (End, End) => true
    case (Byte(c, b), Byte(d, a)) => c == d && PointwiseCapped(b, a, max)
    case (Limit(x, b), Limit(y, a)) =>
      && |y| <= |x|
      && (if Value(x) > 9223372036854775807 || Value(x) <= max then y == x
          else y == "LIMIT " + Print(max) && Value(y) == max)
      && PointwiseCapped(b, a, max)
    case _ => false
  }

  lemma {:induction false} CapTokensIsPointwise(ts: Tokens, max: int)
    requires max > 0 && Proper(ts)
    ensures Proper(CapTokens(ts, max)) && PointwiseCapped(ts, CapTokens(ts, max), max)
    ensures |Text(CapTokens(ts, max))| <= |Text(ts)|
  {
    if ts.Limit? { CapMatchIsClause(ts.text, max); }
    if !ts.End? { CapTokensIsPointwise(ts.rest, max); }
  }

  /** capLimit is exactly a pointwise cap and never lengthens the statement. */
  lemma CapIsPointwise(s: string, max: int)
    requires max > 0
    ensures Text(Lex(false, s)) == s && Proper(Lex(false, s))
    ensures Proper(Lex(false, CapLimit(s, max)))
    ensures PointwiseCapped(Lex(false, s), Lex(false, CapLimit(s, max)), max)
    ensures |CapLimit(s, max)| <= |s|
  {
    LexSplits(false, s);
    CapIsText(false, s, max);
    LexCap(false, s, max);
    CapTokensIsPointwise(Lex(false, s), max);
  }

  lemma {:induction false} CapTokensTwice(ts: Tokens, a: int, b: int)
    requires 0 < a <= MAX_INT && 0 < b && Proper(ts)
    ensures Proper(CapTokens(ts, a))
    ensures CapTokens(CapTokens(ts, a), b) == CapTokens(ts, if a < b then a else b)
  {
    if ts.Limit? { CapMatchTwice(ts.text, a, b); }
    if !ts.End? { CapTokensTwice(ts.rest, a, b); }
  }

  /** Capping twice is capping once by the smaller bound. */
  lemma CapComposes(s: string, a: int, b: int)
    requires 0 < a <= MAX_INT && 0 < b <= MAX_INT
    ensures CapLimit(CapLimit(s, a), b) == CapLimit(s, if a < b then a else b)
  {
    LexCap(false, s, a);
    CapIsText(false, CapFrom(false, s, a), b);
    CapIsText(false, s, if a < b then a else b);
    CapTokensTwice(Lex(false, s), a, b);
  }

  /** A bound that is not positive caps nothing. */
  lemma NoBoundNoCap(s: string, max: int)
    requires max <= 0
    ensures CapLimit(s, max) == s
  {
  }

  lemma CapIsIdempotent(s: string, max: int)
    requires max <= MAX_INT
    ensures CapLimit(CapLimit(s, max), max) == CapLimit(s, max)
  {
    if max > 0 { CapComposes(s, max, max); }
  }
}
