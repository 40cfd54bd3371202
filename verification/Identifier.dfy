/** Quoting identifiers, against the identifier syntax of section 11.2 of the MySQL 8.0
    Reference Manual, and the names the validators accept. */
module Identifier {
  import opened Ascii
  import opened Options

  // ---- Reading a quoted identifier ----

  /** The rest of a quoted identifier after its opening backtick: a doubled backtick is a
      backtick, a single one ends the identifier.  Answers the name and the text that follows. */
  function LexBody(s: string): Option<(string, string)>
  {
    if s == [] then None
    else if s[0] != '`' then Prepend(s[0], LexBody(s[1..]))
    else if |s| > 1 && s[1] == '`' then Prepend('`', LexBody(s[2..]))
    else Some(([], s[1..]))
  }

  function Prepend(c: char, r: Option<(string, string)>): Option<(string, string)>
  {
    if r.None? then None else Some(([c] + r.value.0, r.value.1))
  }

  function LexQuoted(s: string): Option<(string, string)>
  {
    if s == [] || s[0] != '`' then None else LexBody(s[1..])
  }

  /** `db`.`table` and nothing after it. */
  function LexQualified(s: string): Option<(string, string)>
  {
    var db := LexQuoted(s);
    if db.None? || db.value.1 == [] || db.value.1[0] != '.' then None
    else
      var table := LexQuoted(db.value.1[1..]);
      if table.None? || table.value.1 != [] then None else Some((db.value.0, table.value.0))
  }

  // ---- Writing one ----

  function Doubled(name: string): string
  {
    if name == [] then [] else (if name[0] == '`' then "``" else [name[0]]) + Doubled(name[1..])
  }

  function QuoteIdentifier(name: string): string
  {
    "`" + Doubled(name) + "`"
  }

  /** What `executeShowCreateTable` appends to `SHOW CREATE TABLE `. */
  function QualifiedName(db: string, table: string): string
  {
    QuoteIdentifier(db) + "." + QuoteIdentifier(table)
  }

  /** What `useDB` appends to `USE `: no doubling. */
  function RawQuoted(name: string): string
  {
    "`" + name + "`"
  }

  lemma {:induction false} BodyLexes(name: string, rest: string)
    requires rest == [] || rest[0] != '`'
    ensures LexBody(Doubled(name) + "`" + rest) == Some((name, rest))
  {
    var s := Doubled(name) + "`" + rest;
    if name == [] {
      assert s == "`" + rest && s[1..] == rest;
    } else {
      BodyLexes(name[1..], rest);
      var tail := Doubled(name[1..]) + "`" + rest;
      assert name == [name[0]] + name[1..];
      if name[0] == '`' {
        assert s == "``" + tail && s[2..] == tail;
      } else {
        assert s == [name[0]] + tail && s[1..] == tail;
      }
    }
  }

  lemma {:induction false} LexedBody(s: string, name: string, rest: string)
    requires LexBody(s) == Some((name, rest))
    ensures s == Doubled(name) + "`" + rest && (rest == [] || rest[0] != '`')
  {
    if s[0] != '`' {
      LexedBody(s[1..], name[1..], rest);
      assert s == [s[0]] + s[1..];
    } else if |s| > 1 && s[1] == '`' {
      LexedBody(s[2..], name[1..], rest);
      assert s == "``" + s[2..];
    } else {
      assert s == "`" + rest;
    }
  }

  /** The lexer reads a name out of a text exactly when the text is that name quoted, followed by
      something that does not go on with a backtick. */
  lemma QuotingIsLexing(s: string, name: string, rest: string)
    ensures LexQuoted(s) == Some((name, rest)) <==>
            s == QuoteIdentifier(name) + rest && (rest == [] || rest[0] != '`')
  {
    if s == QuoteIdentifier(name) + rest && (rest == [] || rest[0] != '`') {
      BodyLexes(name, rest);
      assert s[1..] == Doubled(name) + "`" + rest;
    }
    if LexQuoted(s) == Some((name, rest)) {
      LexedBody(s[1..], name, rest);
      assert s == "`" + s[1..];
    }
  }

  /** Quoted names lex back: for all names, backticks included. */
  lemma QualifiedNameLexesBack(db: string, table: string)
    ensures LexQualified(QualifiedName(db, table)) == Some((db, table))
  {
    var rest := "." + QuoteIdentifier(table);
    assert QualifiedName(db, table) == QuoteIdentifier(db) + rest;
    QuotingIsLexing(QualifiedName(db, table), db, rest);
    assert rest[1..] == QuoteIdentifier(table) + [];
    QuotingIsLexing(rest[1..], table, []);
  }

  lemma QualifiedNamesAreDistinct(d1: string, t1: string, d2: string, t2: string)
    requires QualifiedName(d1, t1) == QualifiedName(d2, t2)
    ensures d1 == d2 && t1 == t2
  {
    QualifiedNameLexesBack(d1, t1);
    QualifiedNameLexesBack(d2, t2);
  }

  // ---- Validated names need no doubling ----

  const MAX_IDENTIFIER_LENGTH: nat := 64

  datatype NameError = EmptyName | TooLong | Invalid

  /** `^[a-zA-Z_][a-zA-Z0-9_]*$` */
  predicate MatchesIdentifier(s: string)
  {
    && s != []
    && IsWord(s[0]) && !IsDigit(s[0])
    && forall i :: 1 <= i < |s| ==> IsWord(s[i])
  }

  function ValidateDatabaseName(name: string): Option<NameError>
  {
    if name == "" then Some(EmptyName)
    else if |name| > MAX_IDENTIFIER_LENGTH then Some(TooLong)
    else if !MatchesIdentifier(name) then Some(Invalid)
    else None
  }

  /** Accepted are exactly the names of 1 to 64 letters, digits and underscores that do not begin with a
      digit; a rejected name is told the first of the three reasons that applies. */
  lemma AcceptedExactlyWhen(name: string)
    ensures ValidateDatabaseName(name).None? <==>
      && 1 <= |name| <= 64
      && !('0' <= name[0] <= '9')
      && forall i :: 0 <= i < |name| ==>
           'a' <= name[i] <= 'z' || 'A' <= name[i] <= 'Z' || '0' <= name[i] <= '9' || name[i] == '_'
    ensures ValidateDatabaseName(name) == Some(EmptyName) <==> |name| == 0
    ensures ValidateDatabaseName(name) == Some(TooLong) <==> |name| > 64
  {
  }

  lemma {:induction false} DoubledIsSame(name: string)
    ensures Doubled(name) == name <==> '`' !in name
    ensures |Doubled(name)| >= |name|
  {
    if name != [] {
      DoubledIsSame(name[1..]);
      assert name == [name[0]] + name[1..];
      if name[0] != '`' {
        assert Doubled(name)[1..] == Doubled(name[1..]);
      }
    }
  }

  /** Raw quoting is right for exactly the names without a backtick: there it is the quoting of
      the name, and only there does the text read back as the name. */
  lemma RawQuotingIsRightWithoutBackticks(name: string)
    ensures RawQuoted(name) == QuoteIdentifier(name) <==> '`' !in name
    ensures LexQuoted(RawQuoted(name)) == Some((name, [])) <==> '`' !in name
  {
    DoubledIsSame(name);
    assert RawQuoted(name)[1..|name| + 1] == name;
    assert |Doubled(name)| == |name| ==> QuoteIdentifier(name)[1..|name| + 1] == Doubled(name);
    assert QuoteIdentifier(name) + [] == QuoteIdentifier(name);
    QuotingIsLexing(RawQuoted(name), name, []);
  }

  /** Every accepted name is quoted correctly by `useDB`, and differs from every rejected one in
      what was accepted: 1 to 64 word bytes that do not begin with a digit. */
  lemma AcceptedNamesQuoteRaw(name: string)
    requires ValidateDatabaseName(name).None?
    ensures RawQuoted(name) == QuoteIdentifier(name)
    ensures LexQuoted(RawQuoted(name)) == Some((name, []))
  {
    forall i | 0 <= i < |name| ensures name[i] != '`' {
    }
    RawQuotingIsRightWithoutBackticks(name);
  }
}
