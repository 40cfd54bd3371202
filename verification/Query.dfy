/** The statement that `executeQuery` sends to the database: the checker decides whether it runs and
    whether the rewriter is asked.  Updates reach the two one after the other, so they may hold
    different rules. */
module Query {
  import opened Options
  import opened Sql
  import opened LimitScanner
  import opened LimitRewriter
  import opened LimitAppender
  import opened Policy
  import opened Rewriter
  import opened Decimal
  import opened SqlText

  /** None when the statement is refused. */
  function Executed(checking: Option<SecurityRules>, rewriting: Option<SecurityRules>, p: ParsedSQL): Option<string>
  {
    var c := Check(checking, Some(p));
    if !c.allowed then None
    else if c.autoRewrite then Some(Rewritten(rewriting, Some(p)).sql)
    else Some(p.original)
  }

  /** What the lists say, name by name. */
  predicate Permitted(r: SecurityRules, kind: SQLType)
  {
    match kind
    case Select => Names(r.allowedDML, "SELECT")
    case Insert => Names(r.allowedDML, "INSERT")
    case Update => Names(r.allowedDML, "UPDATE")
    case Delete => Names(r.allowedDML, "DELETE")
    case CreateTable => Names(r.allowedDDL, "CREATE_TABLE")
    case CreateIndex => Names(r.allowedDDL, "CREATE_INDEX")
    case AlterTable => Names(r.allowedDDL, "ALTER_TABLE")
    case Drop => Names(r.allowedDDL, "DROP") && !Names(r.blocked, "DROP")
    case Truncate => Names(r.allowedDDL, "TRUNCATE") && !Names(r.blocked, "TRUNCATE")
    case Rename => Names(r.allowedDDL, "RENAME") && !Names(r.blocked, "RENAME")
    case Show => true
    case Explain => true
    case Other => false
  }

  /** A statement runs exactly when the lists permit it, or, without rules, unless it is of no known
      kind; and it runs as it is, unless it is an UPDATE or DELETE without WHERE and there are rules. */
  lemma RunsExactlyWhen(checking: Option<SecurityRules>, rewriting: Option<SecurityRules>, p: ParsedSQL)
    ensures Executed(checking, rewriting, p).Some? <==>
      if checking.None? then !p.kind.Other? else Permitted(checking.value, p.kind)
    ensures Executed(checking, rewriting, p).Some? && !(checking.Some? && Unguarded(p)) ==>
      Executed(checking, rewriting, p) == Some(p.original)
  {
    if checking.Some? {
      ListedExactlyWhen(checking.value.allowedDML, p.kind.Name());
      ListedExactlyWhen(checking.value.allowedDDL, p.kind.Name());
      ListedExactlyWhen(checking.value.blocked, p.kind.Name());
    }
  }

  /** The last token is a match of value `n`. */
  predicate EndsInLimit(sql: string, n: nat)
  {
    var last := LastLimit(Lex(false, sql));
    last.Some? && IsClause(last.value) && Value(last.value) == n
  }

  /** With rules on both sides, an UPDATE or DELETE that would touch every row runs as it is if it has a
      limit of its own or the configured one is not positive.  Otherwise the configured limit is
      appended as the last match of the text; it is read as code exactly when the trimmed text does
      not end in an open comment, literal or quoted identifier, and not a byte of it is when it
      does. */
  lemma UnguardedWritesAreLimited(checking: SecurityRules, rewriting: SecurityRules, p: ParsedSQL)
    requires Unguarded(p) && Executed(Some(checking), Some(rewriting), p).Some?
    ensures var sql := Executed(Some(checking), Some(rewriting), p).value; var n := rewriting.autoLimit;
      if p.hasLimit || n <= 0 then sql == p.original
      else
        var text, clause := Trimmed(p.original), "LIMIT " + Print(n);
        && EndsInLimit(sql, n)
        && Lex(false, sql) == Append(Lex(false, text), Suffix(n))
        && sql == text + " " + clause
        && (InForce(text + " ", clause) <==> !EndsOpen(text))
        && (Swallowed(text + " ", clause) <==> EndsOpen(text))
  {
    UnguardedRuns(checking, rewriting, p);
    if !p.hasLimit && rewriting.autoLimit > 0 { AppendedLimit(p.original, rewriting.autoLimit); }
  }

  lemma UnguardedRuns(checking: SecurityRules, rewriting: SecurityRules, p: ParsedSQL)
    requires Unguarded(p) && Executed(Some(checking), Some(rewriting), p).Some?
    ensures Executed(Some(checking), Some(rewriting), p).value ==
      if p.hasLimit || rewriting.autoLimit <= 0 then p.original else AddLimit(p.original, rewriting.autoLimit)
  {
  }

  lemma AppendedLimit(s: string, n: nat)
    requires n > 0
    ensures var sql, text, clause := AddLimit(s, n), Trimmed(s), "LIMIT " + Print(n);
      && EndsInLimit(sql, n)
      && Lex(false, sql) == Append(Lex(false, text), Suffix(n))
      && sql == text + " " + clause
      && (InForce(text + " ", clause) <==> !EndsOpen(text))
      && (Swallowed(text + " ", clause) <==> EndsOpen(text))
  {
    var text := Trimmed(s);
    AddLimitAppendsOneMatch(s, n);
    LastOfAppend(Lex(false, text), "LIMIT " + Print(n));
    AddLimitText(s, n);
    SpaceApart(text, Print(n));
    AppendedLimitIsInForceExactlyWhen(text, n);
  }

  lemma SpaceApart(text: string, digits: string)
    ensures text + (" LIMIT " + digits) == text + " " + ("LIMIT " + digits)
  {
    assert " LIMIT " == " " + "LIMIT ";
  }

  /** The cap on SELECT is not in force here: a SELECT runs with the text the rewriter would have
      given it exactly when it had no literal above the bound to begin with. */
  lemma SelectRunsUncapped(rules: SecurityRules, p: ParsedSQL)
    requires p.kind.Select? && p.hasLimit && rules.maxLimit > 0 && Executed(Some(rules), Some(rules), p).Some?
    ensures Proper(Lex(false, p.original))
    ensures Executed(Some(rules), Some(rules), p) == Some(Rewritten(Some(rules), Some(p)).sql) <==>
            Bounded(Lex(false, p.original), rules.maxLimit)
  {
    CapBoundsEveryLimit(p.original, rules.maxLimit);
  }

  /** If the checker has rules and the rewriter has none, an unguarded write runs as the empty statement;
      in no other case does a non-empty statement become empty.  A server gets there when its first
      rules have reached the checker only.  The server program never does: a reload brings rules
      only if the server was started with some, so it takes a direct call of `UpdateConfig`. */
  lemma EmptiedExactlyBeforeTheFirstRules(
      checking: Option<SecurityRules>, rewriting: Option<SecurityRules>, p: ParsedSQL)
    requires p.original != "" && Executed(checking, rewriting, p).Some?
    ensures Executed(checking, rewriting, p) == Some("") <==> Unguarded(p) && checking.Some? && rewriting.None?
  {
    if rewriting.Some? && Unguarded(p) && !p.hasLimit && rewriting.value.autoLimit > 0 {
      AddLimitText(p.original, rewriting.value.autoLimit);
    }
  }
}
