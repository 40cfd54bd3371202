/** The rewriter object and what it does to a parsed statement. */
module Rewriter {
  import opened Options
  import opened Sql
  import opened LimitScanner
  import opened LimitRewriter
  import opened LimitAppender

  datatype RewriteResult = RewriteResult(sql: string, changed: bool)

  /** An UPDATE or DELETE that would touch every row. */
  predicate Unguarded(p: ParsedSQL)
  {
    (p.kind.Update? || p.kind.Delete?) && !p.hasWhere
  }

  function Rewritten(rules: Option<SecurityRules>, parsed: Option<ParsedSQL>): RewriteResult
  {
    if parsed.None? || rules.None? then RewriteResult("", false)
    else
      var p, r := parsed.value, rules.value;
      if Unguarded(p) && !p.hasLimit && r.autoLimit > 0 then
        RewriteResult(AddLimit(p.original, r.autoLimit), true)
      else if p.kind.Select? && r.maxLimit > 0 && p.hasLimit then
        var capped := CapLimit(p.original, r.maxLimit);
        RewriteResult(capped, capped != p.original)
      else RewriteResult(p.original, false)
  }

  class Rewriter {
    var rules: Option<SecurityRules>

    constructor (rules: Option<SecurityRules>)
      ensures this.rules == rules
    {
      this.rules := rules;
    }

    method Rewrite(parsed: Option<ParsedSQL>) returns (r: RewriteResult)
      ensures r == Rewritten(rules, parsed)
    {
      if parsed.None? || rules.None? {
        return RewriteResult("", false);
      }
      var p := parsed.value;
      var sql := p.original;
      if (p.kind.Update? || p.kind.Delete?) && !p.hasWhere {
        if !p.hasLimit && rules.value.autoLimit > 0 {
          sql := AddLimit(sql, rules.value.autoLimit);
          return RewriteResult(sql, true);
        }
      }
      if p.kind.Select? && rules.value.maxLimit > 0 && p.hasLimit {
        var newSQL := CapLimit(sql, rules.value.maxLimit);
        if newSQL != sql {
          return RewriteResult(newSQL, true);
        }
      }
      return RewriteResult(sql, false);
    }

    method UpdateRules(rules: Option<SecurityRules>)
      modifies this
      ensures this.rules == rules
    {
      this.rules := rules;
    }
  }

  // ---- What a rewrite achieves ----

  /** No match has a value in (max, 2^63 - 1]. */
  predicate Bounded(ts: Tokens, max: int)
    requires Proper(ts)
  {
    match ts
    case End => true
    case Byte(_, rest) => Bounded(rest, max)
    case Limit(text, rest) => !(max < Value(text) <= MAX_INT) && Bounded(rest, max)
  }

  lemma {:induction false} CapTokensBounds(ts: Tokens, max: int)
    requires Proper(ts) && max > 0
    ensures Proper(CapTokens(ts, max)) && Bounded(CapTokens(ts, max), max)
  {
    if ts.Limit? { CapMatchIsClause(ts.text, max); }
    if !ts.End? { CapTokensBounds(ts.rest, max); }
  }

  lemma {:induction false} BoundedIsFixed(ts: Tokens, max: int)
    requires Proper(ts) && max > 0 && Bounded(ts, max)
    ensures CapTokens(ts, max) == ts
  {
    if !ts.End? { BoundedIsFixed(ts.rest, max); }
  }

  /** Capping bounds every matched literal that fits an int, and changes the text exactly when some
      such literal was above the bound. */
  lemma CapBoundsEveryLimit(s: string, max: int)
    requires max > 0
    ensures Proper(Lex(false, s)) && Proper(Lex(false, CapLimit(s, max)))
    ensures Bounded(Lex(false, CapLimit(s, max)), max)
    ensures CapLimit(s, max) == s <==> Bounded(Lex(false, s), max)
  {
    LexSplits(false, s);
    LexCap(false, s, max);
    CapTokensBounds(Lex(false, s), max);
    if Bounded(Lex(false, s), max) {
      BoundedIsFixed(Lex(false, s), max);
      CapIsText(false, s, max);
    }
  }

  /** The last match of a non-empty list of tokens that ends in a match. */
  function LastLimit(ts: Tokens): Option<string>
  {
    match ts
    case End => None
    case Byte(_, rest) => LastLimit(rest)
    case Limit(text, rest) => if rest == End then Some(text) else LastLimit(rest)
  }

  lemma {:induction false} LastOfAppend(a: Tokens, text: string)
    ensures LastLimit(Append(a, Byte(' ', Limit(text, End)))) == Some(text)
  {
    if !a.End? { LastOfAppend(a.rest, text); }
  }

  /** A rewritten statement carries the configured limit: an unguarded UPDATE or DELETE ends in
      `LIMIT autoLimit`; a SELECT has no match with a representable value above `maxLimit`, and is
      reported as changed exactly when it had one. Everything else keeps its text. */
  lemma RewriteEnforcesRules(rules: SecurityRules, p: ParsedSQL)
    ensures var r := Rewritten(Some(rules), Some(p));
      if Unguarded(p) && !p.hasLimit && rules.autoLimit > 0 then
        && r.changed
        && Lex(false, r.sql) == Append(Lex(false, Trimmed(p.original)), Suffix(rules.autoLimit))
        && LastLimit(Lex(false, r.sql)).Some?
        && var last := LastLimit(Lex(false, r.sql)).value;
           IsClause(last) && Value(last) == rules.autoLimit
      else if p.kind.Select? && rules.maxLimit > 0 && p.hasLimit then
        && Proper(Lex(false, p.original)) && Proper(Lex(false, r.sql))
        && Bounded(Lex(false, r.sql), rules.maxLimit)
        && (r.changed <==> !Bounded(Lex(false, p.original), rules.maxLimit))
        && PointwiseCapped(Lex(false, p.original), Lex(false, r.sql), rules.maxLimit)
      else
        r == RewriteResult(p.original, false)
  {
    if Unguarded(p) && !p.hasLimit && rules.autoLimit > 0 {
      AddLimitAppendsOneMatch(p.original, rules.autoLimit);
      LastOfAppend(Lex(false, Trimmed(p.original)), Suffix(rules.autoLimit).rest.text);
    } else if p.kind.Select? && rules.maxLimit > 0 && p.hasLimit {
      CapBoundsEveryLimit(p.original, rules.maxLimit);
      CapIsPointwise(p.original, rules.maxLimit);
    }
  }

  /** Rewriting a SELECT again under the same rules changes nothing. */
  lemma RewriteSelectTwice(rules: SecurityRules, p: ParsedSQL)
    requires p.kind.Select? && rules.maxLimit <= MAX_INT
    ensures var once := Rewritten(Some(rules), Some(p));
            Rewritten(Some(rules), Some(p.(original := once.sql))) == RewriteResult(once.sql, false)
  {
    CapIsIdempotent(p.original, rules.maxLimit);
  }
}
