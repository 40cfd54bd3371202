/** What a match of `LIMIT n` means to MySQL: `n` rows, or, before a comma and another number, an offset
    of `n` and that number of rows (section 15.2.13 of the MySQL 8.0 Reference Manual).  The rewriter
    caps `n` either way. */
module LimitPages {
  import opened Ascii
  import opened Decimal
  import opened Options
  import opened LimitScanner
  import opened LimitRewriter

  function SkipBlanks(ts: Tokens): Tokens
  {
    if ts.Byte? && IsTrimmed(ts.c) then SkipBlanks(ts.rest) else ts
  }

  function DigitsOf(ts: Tokens): (d: string)
    ensures IsDigits(d)
  {
    if ts.Byte? && IsDigit(ts.c) then [ts.c] + DigitsOf(ts.rest) else []
  }

  /** The match before `rest` is followed by blanks and a comma, so it is an offset. */
  predicate Paged(rest: Tokens)
  {
    SkipBlanks(rest).Byte? && SkipBlanks(rest).c == ','
  }

  /** The number after the comma, if there is one. */
  function PageSize(rest: Tokens): Option<nat>
    requires Paged(rest)
  {
    var d := DigitsOf(SkipBlanks(SkipBlanks(rest).rest));
    if d == [] then None else Some(Parse(d))
  }

  /** The number of rows that a match and what follows it allow. */
  function RowCount(text: string, rest: Tokens): Option<nat>
    requires IsClause(text)
  {
    if Paged(rest) then PageSize(rest) else Some(Value(text))
  }

  /** No clause allows more than `max` rows. */
  predicate RowsWithin(ts: Tokens, max: int)
    requires Proper(ts)
  {
    match ts
    case End => true
    case Byte(_, rest) => RowsWithin(rest, max)
    case Limit(text, rest) =>
      (RowCount(text, rest).Some? ==> RowCount(text, rest).value <= max) && RowsWithin(rest, max)
  }

  /** Every number after a comma is within the bound, and every other one fits an int. */
  predicate Cappable(ts: Tokens, max: int)
    requires Proper(ts)
  {
    match ts
    case End => true
    case Byte(_, rest) => Cappable(rest, max)
    case Limit(text, rest) =>
      && (if Paged(rest) then PageSize(rest).Some? ==> PageSize(rest).value <= max else Value(text) <= MAX_INT)
      && Cappable(rest, max)
  }

  // ---- Capping does not see the second number ----

  lemma {:induction false} SkipBlanksCap(ts: Tokens, max: int)
    requires Proper(ts) && max > 0
    ensures Proper(SkipBlanks(ts)) && SkipBlanks(CapTokens(ts, max)) == CapTokens(SkipBlanks(ts), max)
  {
    if ts.Byte? && IsTrimmed(ts.c) { SkipBlanksCap(ts.rest, max); }
  }

  lemma {:induction false} DigitsCap(ts: Tokens, max: int)
    requires Proper(ts) && max > 0
    ensures DigitsOf(CapTokens(ts, max)) == DigitsOf(ts)
  {
    if ts.Byte? && IsDigit(ts.c) { DigitsCap(ts.rest, max); }
  }

  lemma PageCap(rest: Tokens, max: int)
    requires Proper(rest) && max > 0
    ensures Paged(CapTokens(rest, max)) == Paged(rest)
    ensures Paged(rest) ==> PageSize(CapTokens(rest, max)) == PageSize(rest)
  {
    SkipBlanksCap(rest, max);
    if Paged(rest) {
      var number := SkipBlanks(rest).rest;
      SkipBlanksCap(number, max);
      DigitsCap(SkipBlanks(number), max);
    }
  }

  /** The clauses after capping, compared with those before: an offset is still one, and the number of
      rows beside it is the same. */
  predicate PageSizesKept(before: Tokens, after: Tokens)
  {
    match (before, after)
    case (End, End) => true
    case (Byte(_, b), Byte(_, a)) => PageSizesKept(b, a)
    case (Limit(_, b), Limit(_, a)) =>
      Paged(a) == Paged(b) && (Paged(b) ==> PageSize(a) == PageSize(b)) && PageSizesKept(b, a)
    case _ => false
  }

  lemma {:induction false} CapTokensRows(ts: Tokens, max: int)
    requires Proper(ts) && 0 < max <= MAX_INT
    ensures Proper(CapTokens(ts, max)) && PageSizesKept(ts, CapTokens(ts, max))
    ensures RowsWithin(CapTokens(ts, max), max) <==> Cappable(ts, max)
  {
    if ts.Limit? {
      CapMatchIsClause(ts.text, max);
      PageCap(ts.rest, max);
    }
    if !ts.End? { CapTokensRows(ts.rest, max); }
  }

  /** After capping no clause allows more than `max` rows exactly when, in the statement given, every
      number after a comma was within the bound and every other one fitted an int: behind a comma the
      cap falls on the offset, and the number of rows stays as it was. */
  lemma CapBoundsRowsExactlyWhen(s: string, max: int)
    requires 0 < max <= MAX_INT
    ensures Proper(Lex(false, s)) && Proper(Lex(false, CapLimit(s, max)))
    ensures PageSizesKept(Lex(false, s), Lex(false, CapLimit(s, max)))
    ensures RowsWithin(Lex(false, CapLimit(s, max)), max) <==> Cappable(Lex(false, s), max)
  {
    LexCap(false, s, max);
    CapTokensRows(Lex(false, s), max);
  }
}
