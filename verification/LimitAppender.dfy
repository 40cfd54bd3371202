/** Appending `LIMIT n`, and how it interacts with capping. */
module LimitAppender {
  import opened Ascii
  import opened Decimal
  import opened LimitScanner
  import opened LimitRewriter

  function TrimLeft(s: string): string
  {
    if s != [] && IsTrimmed(s[0]) then TrimLeft(s[1..]) else s
  }

  function TrimRight(s: string): string
  {
    if s != [] && IsTrimmed(s[|s| - 1]) then TrimRight(s[..|s| - 1]) else s
  }

  /** `strings.TrimRight(_, ";")`. */
  function TrimSemicolons(s: string): string
  {
    if s != [] && s[|s| - 1] == ';' then TrimSemicolons(s[..|s| - 1]) else s
  }

  function Trimmed(s: string): string
  {
    TrimSemicolons(TrimRight(TrimLeft(s)))
  }

  function AddLimit(sql: string, limit: int): string
  {
    if limit <= 0 then sql else Trimmed(sql) + " LIMIT " + Print(limit)
  }

  // ---- What trimming removes ----

  /** Tab, line feed, vertical tab, form feed, carriage return or space. */
  predicate IsSpace(c: char) { 9 <= c as int <= 13 || c as int == 32 }

  predicate AllSpace(s: string) { forall i :: 0 <= i < |s| ==> IsSpace(s[i]) }

  predicate AllSemicolons(s: string) { forall i :: 0 <= i < |s| ==> s[i] == ';' }

  /** White space around a statement `t` and the semicolons that end it; what they enclose neither begins
      nor ends with white space, and `t` does not end with a semicolon. */
  predicate Encloses(s: string, l: string, t: string, semis: string, r: string)
  {
    && s == l + (t + semis) + r
    && AllSpace(l) && AllSpace(r) && AllSemicolons(semis)
    && (t + semis != [] ==> !IsSpace((t + semis)[0]) && !IsSpace((t + semis)[|t + semis| - 1]))
    && (t != [] ==> t[|t| - 1] != ';')
  }

  lemma {:induction false} LeftRemoved(s: string) returns (l: string)
    ensures s == l + TrimLeft(s) && AllSpace(l)
    ensures TrimLeft(s) != [] ==> !IsSpace(TrimLeft(s)[0])
  {
    if s != [] && IsTrimmed(s[0]) {
      l := LeftRemoved(s[1..]);
      l := [s[0]] + l;
      assert s == [s[0]] + s[1..];
    } else {
      l := [];
    }
  }

  lemma {:induction false} RightRemoved(s: string) returns (r: string)
    ensures s == TrimRight(s) + r && AllSpace(r)
    ensures TrimRight(s) != [] ==> !IsSpace(TrimRight(s)[|TrimRight(s)| - 1])
  {
    var n := |s| - 1;
    if s != [] && IsTrimmed(s[n]) {
      r := RightRemoved(s[..n]);
      r := r + [s[n]];
      assert s == s[..n] + [s[n]];
    } else {
      r := [];
    }
  }

  lemma {:induction false} SemicolonsRemoved(s: string) returns (semis: string)
    ensures s == TrimSemicolons(s) + semis && AllSemicolons(semis)
    ensures TrimSemicolons(s) != [] ==> TrimSemicolons(s)[|TrimSemicolons(s)| - 1] != ';'
  {
    var n := |s| - 1;
    if s != [] && s[n] == ';' {
      semis := SemicolonsRemoved(s[..n]);
      semis := semis + [s[n]];
      assert s == s[..n] + [s[n]];
    } else {
      semis := [];
    }
  }

  /** Every text encloses its trimmed part. */
  lemma TrimmedIsEnclosed(s: string) returns (l: string, semis: string, r: string)
    ensures Encloses(s, l, Trimmed(s), semis, r)
  {
    l := LeftRemoved(s);
    var x := TrimLeft(s);
    r := RightRemoved(x);
    var y := TrimRight(x);
    semis := SemicolonsRemoved(y);
    assert y != [] ==> y[0] == x[0];
    assert s == l + y + r;
  }

  lemma {:induction false} TrimLeftOf(l: string, x: string)
    requires AllSpace(l) && (x != [] ==> !IsSpace(x[0]))
    ensures TrimLeft(l + x) == x
  {
    if l == [] {
      assert l + x == x;
    } else {
      TrimLeftOf(l[1..], x);
      assert (l + x)[1..] == l[1..] + x;
    }
  }

  lemma {:induction false} TrimRightOf(x: string, r: string)
    requires AllSpace(r) && (x != [] ==> !IsSpace(x[|x| - 1]))
    ensures TrimRight(x + r) == x
  {
    if r == [] {
      assert x + r == x;
    } else {
      TrimRightOf(x, r[..|r| - 1]);
      assert (x + r)[..|x + r| - 1] == x + r[..|r| - 1];
    }
  }

  lemma {:induction false} TrimSemicolonsOf(t: string, semis: string)
    requires AllSemicolons(semis) && (t != [] ==> t[|t| - 1] != ';')
    ensures TrimSemicolons(t + semis) == t
  {
    if semis == [] {
      assert t + semis == t;
    } else {
      TrimSemicolonsOf(t, semis[..|semis| - 1]);
      assert (t + semis)[..|t + semis| - 1] == t + semis[..|semis| - 1];
    }
  }

  lemma {:induction false} TrimLeftOfSpace(s: string)
    requires AllSpace(s)
    ensures TrimLeft(s) == []
  {
    if s != [] { TrimLeftOfSpace(s[1..]); }
  }

  /** Whatever a text encloses in this way is its trimmed part. */
  lemma EnclosedIsTrimmed(s: string, l: string, t: string, semis: string, r: string)
    requires Encloses(s, l, t, semis, r)
    ensures Trimmed(s) == t
  {
    var x := t + semis;
    if x == [] {
      assert s == l + r;
      TrimLeftOfSpace(s);
    } else {
      assert s == l + (x + r) && (x + r)[0] == x[0];
      TrimLeftOf(l, x + r);
      TrimRightOf(x, r);
      TrimSemicolonsOf(t, semis);
    }
  }

  /** The limit goes right behind the statement: every text is white space around a statement and the
      semicolons that end it, the statement is the same however the text is taken apart, and the clause is
      appended to it.  A limit that is not positive adds nothing. */
  lemma AddLimitGoesBehindTheStatement(s: string, a: int)
    ensures a <= 0 ==> AddLimit(s, a) == s
    ensures exists l, t, semis, r :: Encloses(s, l, t, semis, r)
    ensures forall l, t, semis, r :: a > 0 && Encloses(s, l, t, semis, r) ==> AddLimit(s, a) == t + " LIMIT " + Print(a)
  {
    var l, semis, r := TrimmedIsEnclosed(s);
    forall l, t, semis, r | a > 0 && Encloses(s, l, t, semis, r) ensures AddLimit(s, a) == t + " LIMIT " + Print(a) {
      EnclosedIsTrimmed(s, l, t, semis, r);
    }
  }

  lemma AddLimitText(s: string, a: int)
    requires a > 0
    ensures AddLimit(s, a) == Trimmed(s) + (" LIMIT " + Print(a))
  {
  }

  // ---- Lexing a concatenation ----

  predicate EndsInWord(w: bool, s: string)
  {
    if s == [] then w else IsWord(s[|s| - 1])
  }

  /** Text that can neither continue a match begun before it nor be swallowed by one. */
  predicate Separates(x: string)
  {
    x != [] && !IsWord(x[0]) && !SkipsToDigit(x)
  }

  lemma {:induction false} SkipAppend(t: string, x: string)
    requires Separates(x)
    ensures SkipsToDigit(t + x) == SkipsToDigit(t)
  {
    if t == [] {
      assert t + x == x;
    } else {
      assert (t + x)[1..] == t[1..] + x;
      SkipAppend(t[1..], x);
    }
  }

  lemma {:induction false} ContinueAppend(pat: string, t: string, x: string)
    requires Separates(x) && forall i :: 0 <= i < |pat| ==> IsLower(pat[i])
    ensures Continues(pat, t + x) == Continues(pat, t)
  {
    if t == [] {
      assert t + x == x;
      if pat == [] && IsBlank(x[0]) {
        assert SkipsToDigit(x) == SkipsToDigit(x[1..]);
      }
    } else {
      assert (t + x)[1..] == t[1..] + x;
      if pat == [] { SkipAppend(t[1..], x); } else { ContinueAppend(pat[1..], t[1..], x); }
    }
  }

  lemma ClauseAppend(t: string, x: string)
    requires Separates(x)
    ensures ClauseAhead(t + x) == ClauseAhead(t)
    ensures ClauseAhead(t) ==> ClauseLen(t + x) == ClauseLen(t)
  {
    ContinueAppend(Keyword(), t, x);
    if ClauseAhead(t) {
      var n := ClauseLen(t);
      ClauseEnds(t);
      ClauseCut(t, t[n..] + x);
      assert t[..n] + (t[n..] + x) == t + x;
    }
  }

  function Append(a: Tokens, b: Tokens): Tokens
  {
    match a
    case End => b
    case Byte(c, rest) => Byte(c, Append(rest, b))
    case Limit(text, rest) => Limit(text, Append(rest, b))
  }

  /** Lexing a concatenation is lexing the parts. */
  lemma {:induction false} LexAppend(w: bool, t: string, x: string)
    requires Separates(x)
    ensures Lex(w, t + x) == Append(Lex(w, t), Lex(EndsInWord(w, t), x))
    decreases |t|
  {
    if t == [] {
      assert t + x == x;
    } else {
      ClauseAppend(t, x);
      if !w && ClauseAhead(t) {
        var n := ClauseLen(t);
        ClauseEnds(t);
        assert (t + x)[..n] == t[..n] && (t + x)[n..] == t[n..] + x;
        LexAppend(true, t[n..], x);
      } else {
        assert (t + x)[1..] == t[1..] + x;
        LexAppend(IsWord(t[0]), t[1..], x);
      }
    }
  }

  lemma {:induction false} CapTokensAppend(a: Tokens, b: Tokens, max: int)
    requires max > 0 && Proper(a) && Proper(b)
    ensures Proper(Append(a, b))
    ensures Text(CapTokens(Append(a, b), max)) == Text(CapTokens(a, max)) + Text(CapTokens(b, max))
  {
    if !a.End? { CapTokensAppend(a.rest, b, max); }
  }

  lemma CapAppend(w: bool, t: string, x: string, max: int)
    requires Separates(x) && max > 0
    ensures CapFrom(w, t + x, max) == CapFrom(w, t, max) + CapFrom(EndsInWord(w, t), x, max)
  {
    var e := EndsInWord(w, t);
    LexAppend(w, t, x);
    CapIsText(w, t + x, max);
    CapIsText(w, t, max);
    CapIsText(e, x, max);
    CapTokensAppend(Lex(w, t), Lex(e, x), max);
  }

  // ---- Trimming commutes with capping ----

  /** The same byte, or two bytes that trimming leaves alone. */
  predicate Alike(c: char, d: char) { c == d || (IsWord(c) && IsWord(d)) }

  predicate AlikeEnds(o: string, s: string)
  {
    o != [] && s != [] && Alike(o[0], s[0]) && Alike(o[|o| - 1], s[|s| - 1])
  }

  lemma AlikeEndsConcat(o: string, s: string, p: string, t: string)
    requires AlikeEnds(o, s) && (p == t == [] || AlikeEnds(p, t))
    ensures AlikeEnds(o + p, s + t)
  {
  }

  lemma CapMatchKeepsEnds(m: string, max: int)
    requires max > 0 && IsClause(m)
    ensures AlikeEnds(CapMatch(m, max), m)
  {
    CapMatchIsClause(m, max);
    ClauseEnds(m);
    ClauseEnds(CapMatch(m, max));
  }

  lemma MatchKeepsEnds(s: string, max: int, n: nat)
    requires max > 0 && ClauseAhead(s) && n == ClauseLen(s)
    requires n < |s| ==> AlikeEnds(CapFrom(true, s[n..], max), s[n..])
    ensures AlikeEnds(CapFrom(false, s, max), s)
  {
    CapMatchStep(s, max, n);
    CapMatchKeepsEnds(s[..n], max);
    AlikeEndsConcat(CapMatch(s[..n], max), s[..n], CapFrom(true, s[n..], max), s[n..]);
    assert s == s[..n] + s[n..];
  }

  /** Capping keeps the first and the last byte as far as trimming can tell. */
  lemma {:induction false} CapKeepsEnds(w: bool, s: string, max: int)
    requires max > 0 && s != []
    ensures AlikeEnds(CapFrom(w, s, max), s)
    decreases |s|
  {
    if !w && ClauseAhead(s) {
      var n := ClauseLen(s);
      if n < |s| { CapKeepsEnds(true, s[n..], max); }
      MatchKeepsEnds(s, max, n);
    } else {
      if |s| > 1 { CapKeepsEnds(IsWord(s[0]), s[1..], max); }
      AlikeEndsConcat([s[0]], [s[0]], CapFrom(IsWord(s[0]), s[1..], max), s[1..]);
      assert s == [s[0]] + s[1..];
    }
  }

  lemma {:induction false} CapTrimLeft(s: string, max: int)
    requires max > 0
    ensures TrimLeft(CapFrom(false, s, max)) == CapFrom(false, TrimLeft(s), max)
  {
    if s != [] && IsTrimmed(s[0]) {
      var o := CapFrom(false, s, max);
      assert o[0] == s[0] && o[1..] == CapFrom(false, s[1..], max);
      CapTrimLeft(s[1..], max);
    } else if s != [] {
      CapKeepsEnds(false, s, max);
    }
  }

  /** A last byte that no match can contain is not touched. */
  lemma CapLast(w: bool, s: string, max: int)
    requires max > 0 && s != [] && !IsWord(s[|s| - 1])
    ensures var o := CapFrom(w, s, max); var n := |s| - 1;
            o != [] && o[|o| - 1] == s[n] && o[..|o| - 1] == CapFrom(w, s[..n], max)
  {
    var t, x := s[..|s| - 1], s[|s| - 1..];
    assert s == t + x && x[1..] == [] && !SkipsToDigit(x);
    CapAppend(w, t, x, max);
    assert !ClauseAhead(x);
    assert CapFrom(EndsInWord(w, t), x, max) == [x[0]] + CapFrom(IsWord(x[0]), x[1..], max) == x;
  }

  lemma {:induction false} CapTrimRight(s: string, max: int)
    requires max > 0
    ensures TrimRight(CapFrom(false, s, max)) == CapFrom(false, TrimRight(s), max)
  {
    if s != [] && IsTrimmed(s[|s| - 1]) {
      CapLast(false, s, max);
      CapTrimRight(s[..|s| - 1], max);
    } else if s != [] {
      CapKeepsEnds(false, s, max);
    }
  }

  lemma {:induction false} CapTrimSemicolons(s: string, max: int)
    requires max > 0
    ensures TrimSemicolons(CapFrom(false, s, max)) == CapFrom(false, TrimSemicolons(s), max)
  {
    if s != [] && s[|s| - 1] == ';' {
      CapLast(false, s, max);
      CapTrimSemicolons(s[..|s| - 1], max);
    } else if s != [] {
      CapKeepsEnds(false, s, max);
    }
  }

  lemma CapTrims(s: string, max: int)
    requires max > 0
    ensures Trimmed(CapFrom(false, s, max)) == CapFrom(false, Trimmed(s), max)
  {
    CapTrimLeft(s, max);
    CapTrimRight(TrimLeft(s), max);
    CapTrimSemicolons(TrimRight(TrimLeft(s)), max);
  }

  // ---- The appended clause ----

  function Suffix(n: nat): Tokens
  {
    Byte(' ', Limit("LIMIT " + Print(n), End))
  }

  lemma LexSuffix(w: bool, n: nat)
    ensures Separates(" LIMIT " + Print(n)) && Lex(w, " LIMIT " + Print(n)) == Suffix(n)
  {
    var x, y := " LIMIT " + Print(n), "LIMIT " + Print(n);
    WrittenClause(Print(n));
    assert x[0] == ' ' && x[1..] == y && y[0] == 'L';
    assert !SkipsToDigit(y);
    assert y[|y|..] == [] && y[..|y|] == y;
    assert Lex(false, y) == Limit(y, End);
  }

  lemma TextSuffix(n: nat)
    ensures Text(Suffix(n)) == " LIMIT " + Print(n)
  {
    assert Text(End) == [];
    assert Text(Limit("LIMIT " + Print(n), End)) == "LIMIT " + Print(n);
  }

  lemma CapSuffix(w: bool, a: int, m: int)
    requires 0 < a <= MAX_INT && 0 < m
    ensures CapFrom(w, " LIMIT " + Print(a), m) == " LIMIT " + Print(if a < m then a else m)
  {
    var b := if a < m then a else m;
    LexSuffix(w, a);
    CapIsText(w, " LIMIT " + Print(a), m);
    CapWritten(a, m);
    assert CapTokens(End, m) == End;
    assert CapTokens(Limit("LIMIT " + Print(a), End), m) == Limit("LIMIT " + Print(b), End);
    TextSuffix(b);
  }

  /** The appended clause is one more match, of the given value, after those of the trimmed text. */
  lemma AddLimitAppendsOneMatch(s: string, a: int)
    requires a > 0
    ensures Lex(false, AddLimit(s, a)) == Append(Lex(false, Trimmed(s)), Suffix(a))
    ensures IsClause("LIMIT " + Print(a)) && Value("LIMIT " + Print(a)) == a
  {
    var t := Trimmed(s);
    LexSuffix(EndsInWord(false, t), a);
    LexAppend(false, t, " LIMIT " + Print(a));
    AddLimitText(s, a);
    WrittenClause(Print(a));
    ParsePrint(a);
  }

  /** Adding a limit and capping commute. */
  lemma AddThenCap(s: string, a: int, m: int)
    requires 0 < a <= MAX_INT && 0 < m
    ensures CapLimit(AddLimit(s, a), m) == AddLimit(CapLimit(s, m), if a < m then a else m)
  {
    var t := Trimmed(s);
    var x := " LIMIT " + Print(a);
    var b := if a < m then a else m;
    LexSuffix(EndsInWord(false, t), a);
    calc {
      CapLimit(AddLimit(s, a), m);
      { AddLimitText(s, a); }
      CapFrom(false, t + x, m);
      { CapAppend(false, t, x, m); }
      CapFrom(false, t, m) + CapFrom(EndsInWord(false, t), x, m);
      { CapSuffix(EndsInWord(false, t), a, m); CapTrims(s, m); }
      Trimmed(CapLimit(s, m)) + (" LIMIT " + Print(b));
      { AddLimitText(CapLimit(s, m), b); }
      AddLimit(CapLimit(s, m), b);
    }
  }
}
