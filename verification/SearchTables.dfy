/** The bounded collection loops of `search_tables` and `list_tables`, and what they leave out when a
    database fails. */
module SearchTables {
  import opened Ascii
  import opened Options
  import opened Sql
  import opened LikePattern

  /** How the rows of an answer end: all of them come; or they break off after some, for instance
      because the time is up, before the next row is fetched or between fetching it and scanning
      it.  A scan fails only in the second case, and no row follows. */
  datatype Ending = Complete | AtNext(after: nat) | AtScan(after: nat)

  /** How one database answers a query: it cannot be reached, the query fails, or rows come back. */
  datatype Answer = Unreachable | QueryFails | Answers(tables: seq<string>, ends: Ending)

  datatype Database = Database(name: string, answer: Answer)

  datatype Row = Scanned(name: string) | Unscannable

  datatype TableMatch = TableMatch(database: string, table: string)

  const DEFAULT_MAX_ROWS: nat := 10000
  const DEFAULT_MAX_TABLES: nat := 1000

  /** `getMaxRows`. */
  function MaxRows(rules: Option<SecurityRules>): (r: nat)
    ensures r > 0
    ensures rules.Some? && rules.value.maxRows > 0 ==> r == rules.value.maxRows
    ensures rules.None? || rules.value.maxRows <= 0 ==> r == 10000
  {
    if rules.Some? && rules.value.maxRows > 0 then rules.value.maxRows else DEFAULT_MAX_ROWS
  }

  function Min(a: nat, b: nat): nat { if a < b then a else b }

  /** The tables whose rows can be scanned. */
  function Kept(a: Answer): seq<string>
    requires a.Answers?
  {
    if a.ends.Complete? then a.tables else a.tables[..Min(a.ends.after, |a.tables|)]
  }

  predicate ScanBreaks(a: Answer)
  {
    a.Answers? && a.ends.AtScan? && a.ends.after < |a.tables|
  }

  function AsRows(names: seq<string>): (r: seq<Row>)
    ensures |r| == |names| && forall i :: 0 <= i < |r| ==> r[i] == Scanned(names[i])
  {
    seq(|names|, i requires 0 <= i < |names| => Scanned(names[i]))
  }

  function Broken(breaks: bool): seq<Row> { if breaks then [Unscannable] else [] }

  /** The rows that `rows.Next` yields without a LIMIT, and with one. */
  function Stream(a: Answer): seq<Row>
    requires a.Answers?
  {
    AsRows(Kept(a)) + Broken(ScanBreaks(a))
  }

  function Delivered(a: Answer, limit: nat): seq<Row>
    requires a.Answers?
  {
    Stream(a)[..Min(limit, |Stream(a)|)]
  }

  // ---- The loops as functions ----

  function Scan(rows: seq<Row>, db: string, matches: seq<TableMatch>, max: nat): (seq<TableMatch>, bool)
    decreases |rows|
  {
    if rows == [] then (matches, false)
    else if |matches| >= max then (matches, true)
    else Scan(rows[1..], db, if rows[0].Scanned? then matches + [TableMatch(db, rows[0].name)] else matches, max)
  }

  function Search(dbs: seq<Database>, matches: seq<TableMatch>, max: nat): (seq<TableMatch>, bool)
    decreases |dbs|
  {
    if dbs == [] then (matches, false)
    else
      var db := dbs[0];
      if db.answer.Unreachable? then Search(dbs[1..], matches, max)
      else if |matches| >= max then (matches, true)
      else if db.answer.QueryFails? then Search(dbs[1..], matches, max)
      else
        var (m, full) := Scan(Delivered(db.answer, max - |matches| + 1), db.name, matches, max);
        if full then (m, true) else Search(dbs[1..], m, max)
  }

  method ScanRows(rows: seq<Row>, db: string, before: seq<TableMatch>, max: nat)
      returns (matches: seq<TableMatch>, truncated: bool)
    ensures (matches, truncated) == Scan(rows, db, before, max)
  {
    matches, truncated := before, false;
    var i := 0;
    while i < |rows|
      invariant i <= |rows| && !truncated
      invariant Scan(rows, db, before, max) == Scan(rows[i..], db, matches, max)
    {
      if |matches| >= max {
        truncated := true;
        break;
      }
      if rows[i].Scanned? {
        matches := matches + [TableMatch(db, rows[i].name)];
      }
      assert rows[i..][1..] == rows[i + 1..];
      i := i + 1;
    }
  }

  lemma SearchNext(dbs: seq<Database>, i: nat, matches: seq<TableMatch>, max: nat)
    requires i < |dbs|
    ensures var answer := dbs[i].answer;
      Search(dbs[i..], matches, max) ==
        if answer.Unreachable? then Search(dbs[i + 1..], matches, max)
        else if |matches| >= max then (matches, true)
        else if answer.QueryFails? then Search(dbs[i + 1..], matches, max)
        else
          var (m, full) := Scan(Delivered(answer, max - |matches| + 1), dbs[i].name, matches, max);
          if full then (m, true) else Search(dbs[i + 1..], m, max)
  {
    assert dbs[i..][1..] == dbs[i + 1..];
  }

  method ExecuteSearchTables(databases: seq<Database>, rules: Option<SecurityRules>)
      returns (matches: seq<TableMatch>, truncated: bool)
    ensures (matches, truncated) == Search(databases, [], MaxRows(rules))
  {
    var max := MaxRows(rules);
    matches, truncated := [], false;
    var i := 0;
    while i < |databases|
      invariant i <= |databases|
      invariant Search(databases, [], max) ==
        if truncated then (matches, true) else Search(databases[i..], matches, max)
    {
      if truncated { break; }
      SearchNext(databases, i, matches, max);
      var db := databases[i];
      i := i + 1;
      if db.answer.Unreachable? { continue; }
      var remaining := max - |matches|;
      if remaining <= 0 {
        truncated := true;
        break;
      }
      if db.answer.QueryFails? { continue; }
      matches, truncated := ScanRows(Delivered(db.answer, remaining + 1), db.name, matches, max);
    }
  }

  // ---- What is collected ----

  function InDatabase(names: seq<string>, db: string): (r: seq<TableMatch>)
    ensures |r| == |names| && forall i :: 0 <= i < |r| ==> r[i] == TableMatch(db, names[i])
  {
    seq(|names|, i requires 0 <= i < |names| => TableMatch(db, names[i]))
  }

  /** Everything that one database delivers. */
  function Offer(db: Database): seq<TableMatch>
  {
    if db.answer.Answers? then InDatabase(Kept(db.answer), db.name) else []
  }

  /** Everything that all of them deliver, in the order they are visited. */
  function All(dbs: seq<Database>): seq<TableMatch>
  {
    if dbs == [] then [] else Offer(dbs[0]) + All(dbs[1..])
  }

  /** A database asks for room when there is none: it is reached, or has a row left that turns out
      not to scan. */
  predicate Presses(db: Database, have: nat, max: nat)
  {
    || (!db.answer.Unreachable? && have >= max)
    || (ScanBreaks(db.answer) && have + |Offer(db)| >= max)
  }

  predicate PressedWhenFull(dbs: seq<Database>, have: nat, max: nat)
  {
    exists j :: 0 <= j < |dbs| && Presses(dbs[j], have + |All(dbs[..j])|, max)
  }

  lemma ScanNext(name: string, rest: seq<Row>, db: string, matches: seq<TableMatch>, max: nat)
    ensures Scan([Scanned(name)] + rest, db, matches, max) ==
      if |matches| >= max then (matches, true) else Scan(rest, db, matches + [TableMatch(db, name)], max)
  {
    assert ([Scanned(name)] + rest)[1..] == rest;
  }

  lemma ScanBroken(breaks: bool, db: string, matches: seq<TableMatch>, max: nat)
    ensures Scan(Broken(breaks), db, matches, max) == (matches, breaks && |matches| >= max)
  {
    if breaks { assert Broken(breaks)[1..] == []; }
  }

  lemma FirstName(names: seq<string>, breaks: bool, db: string, matches: seq<TableMatch>)
    requires names != []
    ensures AsRows(names) + Broken(breaks) == [Scanned(names[0])] + (AsRows(names[1..]) + Broken(breaks))
    ensures matches + InDatabase(names, db) == matches + [TableMatch(db, names[0])] + InDatabase(names[1..], db)
  {
  }

  lemma {:induction false} ScanTakes(names: seq<string>, breaks: bool, db: string, matches: seq<TableMatch>, max: nat)
    requires |matches| <= max
    ensures var all := matches + InDatabase(names, db);
      Scan(AsRows(names) + Broken(breaks), db, matches, max) ==
        (all[..Min(max, |all|)], |all| > max || (breaks && |all| >= max))
    decreases |names|
  {
    var all := matches + InDatabase(names, db);
    if names == [] {
      ScanBroken(breaks, db, matches, max);
      assert AsRows(names) + Broken(breaks) == Broken(breaks) && all == matches && all[..|all|] == all;
    } else {
      FirstName(names, breaks, db, matches);
      ScanNext(names[0], AsRows(names[1..]) + Broken(breaks), db, matches, max);
      if |matches| == max {
        assert all[..max] == matches;
      } else {
        ScanTakes(names[1..], breaks, db, matches + [TableMatch(db, names[0])], max);
      }
    }
  }

  lemma AllPrefix(dbs: seq<Database>, j: nat)
    requires 0 < j <= |dbs|
    ensures |All(dbs[..j])| == |Offer(dbs[0])| + |All(dbs[1..][..j - 1])|
  {
    assert dbs[..j][1..] == dbs[1..][..j - 1];
  }

  lemma PressedStep(dbs: seq<Database>, have: nat, max: nat)
    requires dbs != []
    ensures PressedWhenFull(dbs, have, max) <==>
            Presses(dbs[0], have, max) || PressedWhenFull(dbs[1..], have + |Offer(dbs[0])|, max)
  {
    var n, rest := have + |Offer(dbs[0])|, dbs[1..];
    if Presses(dbs[0], have, max) {
      assert Presses(dbs[0], have + |All(dbs[..0])|, max);
    }
    if j :| 0 <= j < |rest| && Presses(rest[j], n + |All(rest[..j])|, max) {
      AllPrefix(dbs, j + 1);
      assert Presses(dbs[j + 1], have + |All(dbs[..j + 1])|, max);
    }
    if j :| 0 <= j < |dbs| && Presses(dbs[j], have + |All(dbs[..j])|, max) {
      if j > 0 {
        AllPrefix(dbs, j);
        assert Presses(rest[j - 1], n + |All(rest[..j - 1])|, max);
      }
    }
  }

  /** Fetching one row more than there is room for decides as well as fetching all of them. */
  lemma ScanDelivered(db: Database, matches: seq<TableMatch>, max: nat)
    requires db.answer.Answers? && |matches| < max
    ensures var all := matches + Offer(db);
      Scan(Delivered(db.answer, max - |matches| + 1), db.name, matches, max) ==
        (all[..Min(max, |all|)], |all| > max || (ScanBreaks(db.answer) && |all| >= max))
  {
    var limit := max - |matches| + 1;
    var names, breaks := Kept(db.answer), ScanBreaks(db.answer);
    if |names| >= limit {
      assert Delivered(db.answer, limit) == AsRows(names[..limit]) + Broken(false);
      ScanTakes(names[..limit], false, db.name, matches, max);
      assert (matches + InDatabase(names[..limit], db.name))[..max] == (matches + Offer(db))[..max];
    } else {
      assert Delivered(db.answer, limit) == AsRows(names) + Broken(breaks);
      ScanTakes(names, breaks, db.name, matches, max);
    }
  }

  /** What a search that starts with `matches` in hand must answer. */
  predicate Collects(r: (seq<TableMatch>, bool), dbs: seq<Database>, matches: seq<TableMatch>, max: nat)
  {
    var all := matches + All(dbs);
    && r.0 == all[..Min(max, |all|)]
    && (r.1 <==> |all| > max || PressedWhenFull(dbs, |matches|, max))
  }

  lemma AllStep(dbs: seq<Database>, matches: seq<TableMatch>)
    requires dbs != []
    ensures matches + All(dbs) == matches + Offer(dbs[0]) + All(dbs[1..])
  {
  }

  lemma FrontOf(a: seq<TableMatch>, b: seq<TableMatch>, max: nat)
    requires max <= |a|
    ensures (a + b)[..max] == a[..max]
  {
  }

  /** The room ran out at the first database. */
  lemma CollectsFull(dbs: seq<Database>, matches: seq<TableMatch>, max: nat)
    requires dbs != [] && |matches| <= max
    requires max < |matches + Offer(dbs[0])| || (max <= |matches + Offer(dbs[0])| && Presses(dbs[0], |matches|, max))
    ensures Collects(((matches + Offer(dbs[0]))[..max], true), dbs, matches, max)
  {
    PressedStep(dbs, |matches|, max);
    AllStep(dbs, matches);
    FrontOf(matches + Offer(dbs[0]), All(dbs[1..]), max);
  }

  /** One database taken in: the rest is collected after it. */
  lemma CollectsMore(r: (seq<TableMatch>, bool), dbs: seq<Database>, matches: seq<TableMatch>, max: nat)
    requires dbs != [] && !Presses(dbs[0], |matches|, max)
    requires Collects(r, dbs[1..], matches + Offer(dbs[0]), max)
    ensures Collects(r, dbs, matches, max)
  {
    PressedStep(dbs, |matches|, max);
    AllStep(dbs, matches);
  }

  lemma {:induction false} SearchCollects(dbs: seq<Database>, matches: seq<TableMatch>, max: nat)
    requires |matches| <= max
    ensures Collects(Search(dbs, matches, max), dbs, matches, max)
    decreases |dbs|
  {
    if dbs == [] {
      assert matches + All(dbs) == matches;
    } else {
      var db := dbs[0];
      var now := matches + Offer(db);
      if db.answer.Answers? && |matches| < max { ScanDelivered(db, matches, max); }
      assert !db.answer.Answers? ==> now == matches;
      if |now| > max || Presses(db, |matches|, max) {
        FrontOf(matches, Offer(db), if |matches| == max then max else 0);
        CollectsFull(dbs, matches, max);
      } else {
        SearchCollects(dbs[1..], now, max);
        assert now[..|now|] == now;
        CollectsMore(Search(dbs, matches, max), dbs, matches, max);
      }
    }
  }

  lemma {:induction false} AllSplits(dbs: seq<Database>, j: nat)
    requires j < |dbs|
    ensures |All(dbs[..j])| + |Offer(dbs[j])| <= |All(dbs)|
  {
    if j > 0 {
      AllSplits(dbs[1..], j - 1);
      assert dbs[..j][1..] == dbs[1..][..j - 1];
    }
  }

  /** The matches are the first `max` of everything delivered.  The result says it was truncated
      exactly when there was more, or a database asked for room that was used up.  So an untruncated
      result has everything that was delivered, and a truncated one is full. */
  lemma SearchCollectsTheFirst(dbs: seq<Database>, max: nat)
    ensures var (matches, truncated) := Search(dbs, [], max);
      && matches == All(dbs)[..Min(max, |All(dbs)|)]
      && (truncated <==> |All(dbs)| > max || PressedWhenFull(dbs, 0, max))
      && (!truncated ==> matches == All(dbs))
      && (truncated ==> |matches| == max)
  {
    SearchCollects(dbs, [], max);
    assert [] + All(dbs) == All(dbs);
    if j :| 0 <= j < |dbs| && Presses(dbs[j], |All(dbs[..j])|, max) { AllSplits(dbs, j); }
  }

  // ---- With the LIKE filter, and with failures ----

  /** The tables of a database that `LOWER(TABLE_NAME) LIKE ?` keeps, in order. */
  function Matching(pattern: string, tables: seq<string>): seq<string>
  {
    if tables == [] then []
    else
      var rest := Matching(pattern, tables[1..]);
      if Like(SearchPattern(pattern), Lower(tables[0])) then [tables[0]] + rest else rest
  }

  datatype Reach = NoConnection | NoResult | Reads(ends: Ending)

  /** A database, its tables, and how the query fares. */
  datatype Schema = Schema(name: string, tables: seq<string>, reach: Reach)

  function AnswerOf(pattern: string, s: Schema): Answer
  {
    match s.reach
    case NoConnection => Unreachable
    case NoResult => QueryFails
    case Reads(ends) => Answers(Matching(pattern, s.tables), ends)
  }

  function AnswerTo(pattern: string, schemas: seq<Schema>): (r: seq<Database>)
    ensures |r| == |schemas|
    ensures forall i :: 0 <= i < |r| ==> r[i] == Database(schemas[i].name, AnswerOf(pattern, schemas[i]))
  {
    seq(|schemas|, i requires 0 <= i < |schemas| => Database(schemas[i].name, AnswerOf(pattern, schemas[i])))
  }

  /** Some database has that table, and its name contains the pattern up to case. */
  predicate Wanted(pattern: string, schemas: seq<Schema>, m: TableMatch)
  {
    exists i :: 0 <= i < |schemas| && schemas[i].name == m.database && m.table in schemas[i].tables
                && ContainsUpToCase(m.table, pattern)
  }

  /** `m` is number `j` of the tables that database `i` should deliver. */
  predicate OccursAs(pattern: string, schemas: seq<Schema>, m: TableMatch, i: nat, j: nat)
  {
    && i < |schemas| && schemas[i].name == m.database
    && j < |Matching(pattern, schemas[i].tables)| && Matching(pattern, schemas[i].tables)[j] == m.table
  }

  /** That place lies in a database that failed, or past the point where its rows broke off. */
  predicate Lost(s: Schema, j: nat)
  {
    !s.reach.Reads? || (!s.reach.ends.Complete? && s.reach.ends.after <= j)
  }

  lemma {:induction false} MatchingIs(pattern: string, tables: seq<string>, t: string)
    ensures t in Matching(pattern, tables) <==> t in tables && ContainsUpToCase(t, pattern)
  {
    if tables != [] {
      MatchingIs(pattern, tables[1..], t);
      SearchIsSubstring(pattern, tables[0]);
      assert tables == [tables[0]] + tables[1..];
    }
  }

  /** What is wanted is what occurs. */
  lemma WantedOccurs(pattern: string, schemas: seq<Schema>, m: TableMatch)
    ensures Wanted(pattern, schemas, m) <==> exists i: nat, j: nat :: OccursAs(pattern, schemas, m, i, j)
  {
    forall i | 0 <= i < |schemas|
      ensures m.table in Matching(pattern, schemas[i].tables) <==>
              m.table in schemas[i].tables && ContainsUpToCase(m.table, pattern)
    {
      MatchingIs(pattern, schemas[i].tables, m.table);
    }
    if Wanted(pattern, schemas, m) {
      var i :| 0 <= i < |schemas| && schemas[i].name == m.database && m.table in schemas[i].tables
               && ContainsUpToCase(m.table, pattern);
      var names := Matching(pattern, schemas[i].tables);
      var j :| 0 <= j < |names| && names[j] == m.table;
      assert OccursAs(pattern, schemas, m, i, j);
    }
    if i: nat, j: nat :| OccursAs(pattern, schemas, m, i, j) {
      assert m.table in Matching(pattern, schemas[i].tables);
    }
  }

  predicate OfferedBySome(dbs: seq<Database>, m: TableMatch)
  {
    exists i :: 0 <= i < |dbs| && m in Offer(dbs[i])
  }

  lemma OfferedByFirstOrRest(dbs: seq<Database>, m: TableMatch)
    requires dbs != []
    ensures OfferedBySome(dbs, m) <==> m in Offer(dbs[0]) || OfferedBySome(dbs[1..], m)
  {
    if i :| 0 < i < |dbs| && m in Offer(dbs[i]) { assert m in Offer(dbs[1..][i - 1]); }
    if i :| 0 <= i < |dbs[1..]| && m in Offer(dbs[1..][i]) { assert m in Offer(dbs[i + 1]); }
  }

  lemma {:induction false} InAll(dbs: seq<Database>, m: TableMatch)
    ensures m in All(dbs) <==> OfferedBySome(dbs, m)
  {
    if dbs != [] {
      InAll(dbs[1..], m);
      OfferedByFirstOrRest(dbs, m);
    }
  }

  lemma OfferIs(pattern: string, schemas: seq<Schema>, m: TableMatch, i: nat)
    requires i < |schemas|
    ensures m in Offer(AnswerTo(pattern, schemas)[i]) <==>
      exists j: nat :: OccursAs(pattern, schemas, m, i, j) && !Lost(schemas[i], j)
  {
    var s, offer := schemas[i], Offer(AnswerTo(pattern, schemas)[i]);
    var names := Matching(pattern, s.tables);
    if j :| 0 <= j < |offer| && offer[j] == m {
      assert names[j] == m.table && OccursAs(pattern, schemas, m, i, j) && !Lost(s, j);
    }
    if j: nat :| OccursAs(pattern, schemas, m, i, j) && !Lost(s, j) {
      assert offer[j] == m;
    }
  }

  /** Whatever fails: every match found is wanted, a truncated search finds `max` of them, and an
      untruncated one misses a wanted table exactly when each of its occurrences lies in a database
      that failed, or past the point where its rows broke off. */
  lemma UntruncatedSearchMissesExactlyTheLost(pattern: string, schemas: seq<Schema>, max: nat, m: TableMatch)
    ensures var (matches, truncated) := Search(AnswerTo(pattern, schemas), [], max);
      && (m in matches ==> Wanted(pattern, schemas, m))
      && (truncated ==> |matches| == max)
      && (!truncated && Wanted(pattern, schemas, m) ==>
            (m !in matches <==>
               forall i: nat, j: nat :: OccursAs(pattern, schemas, m, i, j) ==> Lost(schemas[i], j)))
  {
    var dbs := AnswerTo(pattern, schemas);
    SearchCollectsTheFirst(dbs, max);
    InAll(dbs, m);
    WantedOccurs(pattern, schemas, m);
    forall i | 0 <= i < |dbs|
      ensures m in Offer(dbs[i]) <==> exists j: nat :: OccursAs(pattern, schemas, m, i, j) && !Lost(schemas[i], j)
    {
      OfferIs(pattern, schemas, m, i);
    }
  }

  /** If every database answers in full, an untruncated search finds exactly the wanted tables. */
  lemma UntruncatedSearchFindsExactlyTheMatches(pattern: string, schemas: seq<Schema>, max: nat, m: TableMatch)
    requires forall i :: 0 <= i < |schemas| ==> schemas[i].reach == Reads(Complete)
    ensures var (matches, truncated) := Search(AnswerTo(pattern, schemas), [], max);
      !truncated ==> (m in matches <==> Wanted(pattern, schemas, m))
  {
    UntruncatedSearchMissesExactlyTheLost(pattern, schemas, max, m);
    WantedOccurs(pattern, schemas, m);
  }

  // ---- list_tables ----

  datatype ListResult = Failed | Listed(tables: seq<string>, truncated: bool)

  /** Lists at most 1000 tables.  A row that breaks off while it is scanned fails the call; rows that
      end early are taken for all of them, so that a result not marked as truncated is incomplete
      exactly when the rows broke off before a row that was to be listed or counted. */
  method ExecuteListTables(answer: Answer) returns (r: ListResult)
    ensures r.Failed? <==>
      !answer.Answers? || (ScanBreaks(answer) && answer.ends.after < 1000)
    ensures r.Listed? ==> r.tables == Kept(answer)[..Min(1000, |Kept(answer)|)]
    ensures r.Listed? && answer.ends.Complete? ==> (r.truncated <==> |answer.tables| > 1000)
    ensures r.Listed? ==>
      (!r.truncated && r.tables != answer.tables <==>
         answer.ends.AtNext? && answer.ends.after < |answer.tables| && answer.ends.after <= 1000)
  {
    if !answer.Answers? { return Failed; }
    ghost var names := Kept(answer);
    var rows := Delivered(answer, DEFAULT_MAX_TABLES + 1);
    var tables: seq<string>, truncated := [], false;
    var i := 0;
    while i < |rows|
      invariant i <= |rows| && i <= DEFAULT_MAX_TABLES && i <= |names| && !truncated
      invariant tables == names[..i]
    {
      if |tables| >= DEFAULT_MAX_TABLES {
        truncated := true;
        break;
      }
      if rows[i].Unscannable? {
        return Failed;
      }
      tables := tables + [rows[i].name];
      i := i + 1;
    }
    return Listed(tables, truncated);
  }
}
