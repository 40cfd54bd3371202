/** Allow and block lists: what the checker decides, and when the block list matters. */
module Policy {
  import opened Ascii
  import opened Options
  import opened Sql

  /** `IsBlocked`, `IsDMLAllowed` and `IsDDLAllowed`: membership up to case. */
  predicate Listed(list: seq<string>, op: string)
  {
    exists i :: 0 <= i < |list| && EqualFold(list[i], Upper(op))
  }

  datatype Reason = NoReason | InvalidSQL | Blocked | DMLNotAllowed | DDLNotAllowed | AutoLimitAdded | UnknownOperation

  datatype CheckResult = CheckResult(allowed: bool, autoRewrite: bool, reason: Reason)

  /** The only operations the block list is consulted for. */
  predicate Blockable(kind: SQLType) { kind.Drop? || kind.Truncate? || kind.Rename? }

  predicate IsBlocked(rules: Option<SecurityRules>, kind: SQLType)
  {
    rules.Some? && Blockable(kind) && Listed(rules.value.blocked, kind.Name())
  }

  function CheckDML(rules: Option<SecurityRules>, p: ParsedSQL): CheckResult
  {
    if rules.None? then CheckResult(true, false, NoReason)
    else if !Listed(rules.value.allowedDML, p.kind.Name()) then CheckResult(false, false, DMLNotAllowed)
    else if (p.kind.Update? || p.kind.Delete?) && !p.hasWhere then CheckResult(true, true, AutoLimitAdded)
    else CheckResult(true, false, NoReason)
  }

  function CheckDDL(rules: Option<SecurityRules>, p: ParsedSQL): CheckResult
  {
    if rules.None? || Listed(rules.value.allowedDDL, p.kind.Name()) then CheckResult(true, false, NoReason)
    else CheckResult(false, false, DDLNotAllowed)
  }

  function Check(rules: Option<SecurityRules>, parsed: Option<ParsedSQL>): CheckResult
  {
    if parsed.None? then CheckResult(false, false, InvalidSQL)
    else
      var p := parsed.value;
      if IsBlocked(rules, p.kind) then CheckResult(false, false, Blocked)
      else if p.kind.IsDML() then CheckDML(rules, p)
      else if p.kind.IsDDL() then CheckDDL(rules, p)
      else if p.kind.Show? || p.kind.Explain? then CheckResult(true, false, NoReason)
      else CheckResult(false, false, UnknownOperation)
  }

  class Checker {
    var rules: Option<SecurityRules>

    constructor (rules: Option<SecurityRules>)
      ensures this.rules == rules
    {
      this.rules := rules;
    }

    method CheckStatement(parsed: Option<ParsedSQL>) returns (r: CheckResult)
      ensures r == Check(rules, parsed)
    {
      r := Check(rules, parsed);
    }

    method UpdateRules(rules: Option<SecurityRules>)
      modifies this
      ensures this.rules == rules
    {
      this.rules := rules;
    }
  }

  // ---- SecurityRules.Validate ----

  /** Five minutes, in nanoseconds. */
  const MAX_QUERY_TIMEOUT: int := 300_000_000_000
  const MAX_ROWS_LIMIT: int := 1_000_000
  const MAX_AUTO_LIMIT: int := 10_000

  datatype RulesError =
    | ConflictDML(op: string) | ConflictDDL(op: string)
    | TimeoutTooLong | MaxRowsTooLarge | AutoLimitTooLarge

  /** The first entry of an allow list that is blocked too. */
  function FirstBlocked(allowed: seq<string>, blocked: seq<string>): Option<string>
  {
    if allowed == [] then None
    else if Listed(blocked, allowed[0]) then Some(allowed[0])
    else FirstBlocked(allowed[1..], blocked)
  }

  function Validate(r: SecurityRules): Option<RulesError>
  {
    var dml, ddl := FirstBlocked(r.allowedDML, r.blocked), FirstBlocked(r.allowedDDL, r.blocked);
    if dml.Some? then Some(ConflictDML(dml.value))
    else if ddl.Some? then Some(ConflictDDL(ddl.value))
    else if r.queryTimeout > MAX_QUERY_TIMEOUT then Some(TimeoutTooLong)
    else if r.maxRows > MAX_ROWS_LIMIT then Some(MaxRowsTooLarge)
    else if r.autoLimit > MAX_AUTO_LIMIT then Some(AutoLimitTooLarge)
    else None
  }

  // ---- Case folding is an equivalence, so lists are sets of folded names ----

  lemma ListedFolds(list: seq<string>, op: string)
    ensures Listed(list, op) <==> exists i :: 0 <= i < |list| && EqualFold(list[i], op)
  {
    UpperFolds(op);
  }

  /** The operation is in the list, in some spelling. */
  predicate Names(list: seq<string>, op: string)
  {
    exists i :: 0 <= i < |list| && SameButCase(list[i], op)
  }

  lemma ListedExactlyWhen(list: seq<string>, op: string)
    ensures Listed(list, op) <==> Names(list, op)
  {
    ListedFolds(list, op);
    forall i | 0 <= i < |list| ensures EqualFold(list[i], op) <==> SameButCase(list[i], op) {
      FoldsExactlyWhen(list[i], op);
    }
  }

  lemma ListedUpToCase(list: seq<string>, a: string, b: string)
    requires EqualFold(a, b)
    ensures Listed(list, a) == Listed(list, b)
  {
    ListedFolds(list, a);
    ListedFolds(list, b);
  }

  // ---- When the block list matters ----

  /** No operation that can be blocked is both blocked and allowed. */
  predicate NoConflict(r: SecurityRules)
  {
    forall k :: Blockable(k) ==> !(Listed(r.blocked, k.Name()) && Listed(r.allowedDDL, k.Name()))
  }

  predicate SameDecision(a: CheckResult, b: CheckResult)
  {
    a.allowed == b.allowed && a.autoRewrite == b.autoRewrite
  }

  /** Emptying the block list changes no decision exactly when no operation that can be blocked is
      both blocked and allowed. */
  lemma BlockListMattersOnlyInConflict(r: SecurityRules)
    ensures NoConflict(r) <==>
      forall p :: SameDecision(Check(Some(r), p), Check(Some(r.(blocked := [])), p))
  {
    if NoConflict(r) {
      forall p ensures SameDecision(Check(Some(r), p), Check(Some(r.(blocked := [])), p)) {
        UnblockedDecides(r, p);
      }
    } else {
      var k :| Blockable(k) && Listed(r.blocked, k.Name()) && Listed(r.allowedDDL, k.Name());
      var p := Some(ParsedSQL("", k, false, false));
      ConflictDecides(r, p.value);
    }
  }

  lemma ConflictDecides(r: SecurityRules, p: ParsedSQL)
    requires Blockable(p.kind) && Listed(r.blocked, p.kind.Name()) && Listed(r.allowedDDL, p.kind.Name())
    ensures !Check(Some(r), Some(p)).allowed && Check(Some(r.(blocked := [])), Some(p)).allowed
  {
  }

  lemma UnblockedDecides(r: SecurityRules, p: Option<ParsedSQL>)
    requires p.Some? && Blockable(p.value.kind) ==>
      !(Listed(r.blocked, p.value.kind.Name()) && Listed(r.allowedDDL, p.value.kind.Name()))
    ensures SameDecision(Check(Some(r), p), Check(Some(r.(blocked := [])), p))
  {
  }

  lemma {:induction false} FirstBlockedIsNone(allowed: seq<string>, blocked: seq<string>, op: string)
    requires FirstBlocked(allowed, blocked).None? && Listed(allowed, op)
    ensures !Listed(blocked, op)
  {
    ListedFolds(allowed, op);
    var i :| 0 <= i < |allowed| && EqualFold(allowed[i], op);
    if i == 0 {
      ListedUpToCase(blocked, allowed[0], op);
    } else {
      assert EqualFold(allowed[1..][i - 1], op);
      ListedFolds(allowed[1..], op);
      FirstBlockedIsNone(allowed[1..], blocked, op);
    }
  }

  /** For rules that `Validate` accepts, the block list decides nothing. */
  lemma ValidRulesNeedNoBlockList(r: SecurityRules, p: Option<ParsedSQL>)
    requires Validate(r).None?
    ensures SameDecision(Check(Some(r), p), Check(Some(r.(blocked := [])), p))
  {
    forall k | Blockable(k) && Listed(r.allowedDDL, k.Name()) ensures !Listed(r.blocked, k.Name()) {
      FirstBlockedIsNone(r.allowedDDL, r.blocked, k.Name());
    }
    BlockListMattersOnlyInConflict(r);
  }

  /** `Validate` reports a conflict exactly when some operation, in some spelling, is in an allow
      list and in the block list. */
  lemma ConflictsAreFound(allowed: seq<string>, blocked: seq<string>)
    ensures FirstBlocked(allowed, blocked).Some? <==> exists op :: Listed(allowed, op) && Listed(blocked, op)
  {
    if op :| Listed(allowed, op) && Listed(blocked, op) {
      if FirstBlocked(allowed, blocked).None? { FirstBlockedIsNone(allowed, blocked, op); }
    }
    if FirstBlocked(allowed, blocked).Some? { FirstBlockedIsBoth(allowed, blocked); }
  }

  lemma {:induction false} FirstBlockedIsBoth(allowed: seq<string>, blocked: seq<string>)
    requires FirstBlocked(allowed, blocked).Some?
    ensures var op := FirstBlocked(allowed, blocked).value; Listed(allowed, op) && Listed(blocked, op)
  {
    var op := FirstBlocked(allowed, blocked).value;
    ListedFolds(allowed, op);
    if Listed(blocked, allowed[0]) {
      assert EqualFold(allowed[0], op);
    } else {
      FirstBlockedIsBoth(allowed[1..], blocked);
      ListedFolds(allowed[1..], op);
      var i :| 0 <= i < |allowed[1..]| && EqualFold(allowed[1..][i], op);
      assert EqualFold(allowed[i + 1], op);
    }
  }

  /** `Validate` accepts exactly the rules without an operation that is allowed and blocked, and with
      a timeout of at most five minutes, at most a million rows and an automatic limit of at most
      ten thousand. */
  lemma AcceptedExactlyWhen(r: SecurityRules)
    ensures Validate(r).None? <==>
      && (forall op :: Names(r.blocked, op) ==> !Names(r.allowedDML, op) && !Names(r.allowedDDL, op))
      && r.queryTimeout <= 5 * 60 * 1_000_000_000 && r.maxRows <= 1_000_000 && r.autoLimit <= 10_000
  {
    ConflictsAreFound(r.allowedDML, r.blocked);
    ConflictsAreFound(r.allowedDDL, r.blocked);
    forall op
      ensures Listed(r.blocked, op) == Names(r.blocked, op)
      ensures Listed(r.allowedDML, op) == Names(r.allowedDML, op)
      ensures Listed(r.allowedDDL, op) == Names(r.allowedDDL, op)
    {
      ListedExactlyWhen(r.blocked, op);
      ListedExactlyWhen(r.allowedDML, op);
      ListedExactlyWhen(r.allowedDDL, op);
    }
  }

  // ---- Monotonicity ----

  predicate Within(a: seq<string>, b: seq<string>)
  {
    forall i :: 0 <= i < |a| ==> a[i] in b
  }

  lemma ListedGrows(a: seq<string>, b: seq<string>, op: string)
    requires Within(a, b) && Listed(a, op)
    ensures Listed(b, op)
  {
    var i :| 0 <= i < |a| && EqualFold(a[i], Upper(op));
    assert a[i] in b;
  }

  /** Growing the allow lists and shrinking the block list never refuses what was allowed; read
      the other way, growing the block list never allows what was refused. */
  lemma MoreAllowedLessBlocked(r: SecurityRules, s: SecurityRules, p: Option<ParsedSQL>)
    requires Within(r.allowedDML, s.allowedDML) && Within(r.allowedDDL, s.allowedDDL) && Within(s.blocked, r.blocked)
    requires Check(Some(r), p).allowed
    ensures Check(Some(s), p).allowed && Check(Some(s), p).autoRewrite == Check(Some(r), p).autoRewrite
  {
    var name := p.value.kind.Name();
    if Listed(s.blocked, name) { ListedGrows(s.blocked, r.blocked, name); }
    if Listed(r.allowedDML, name) { ListedGrows(r.allowedDML, s.allowedDML, name); }
    if Listed(r.allowedDDL, name) { ListedGrows(r.allowedDDL, s.allowedDDL, name); }
  }

  /** Only DROP, TRUNCATE and RENAME are looked up in the block list: any two that agree on these
      decide alike, whatever else they name. */
  lemma BlockListCoversThreeOperations(r: SecurityRules, blocked: seq<string>, p: Option<ParsedSQL>)
    requires forall k :: Blockable(k) ==> Listed(blocked, k.Name()) == Listed(r.blocked, k.Name())
    ensures Check(Some(r.(blocked := blocked)), p) == Check(Some(r), p)
  {
    if p.Some? {
      var name := p.value.kind.Name();
      assert Blockable(p.value.kind) ==> Listed(blocked, name) == Listed(r.blocked, name);
    }
  }
}
