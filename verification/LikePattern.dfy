/** Escaping a search pattern, against the LIKE operator of section 14.8.1 of the MySQL 8.0
    Reference Manual. */
module LikePattern {
  import opened Ascii

  /** `%` matches any run of bytes, `_` any byte, and a backslash makes the byte after it stand
      for itself; a backslash at the end of the pattern stands for itself. */
  predicate Like(p: string, s: string)
    decreases |p|, |s|
  {
    if p == [] then s == []
    else if p[0] == '%' then Like(p[1..], s) || (s != [] && Like(p, s[1..]))
    else if p[0] == '_' then s != [] && Like(p[1..], s[1..])
    else if p[0] == '\\' && |p| > 1 then s != [] && s[0] == p[1] && Like(p[2..], s[1..])
    else s != [] && s[0] == p[0] && Like(p[1..], s[1..])
  }

  predicate Special(c: char) { c == '\\' || c == '%' || c == '_' }

  function EscapeByte(c: char): string
  {
    if Special(c) then ['\\', c] else [c]
  }

  /** `EscapeLikePattern`: one pass of the replacer. */
  function Escape(p: string): string
  {
    if p == [] then [] else EscapeByte(p[0]) + Escape(p[1..])
  }

  /** What `executeSearchTables` passes for the LIKE placeholder. */
  function SearchPattern(tablePattern: string): string
  {
    "%" + Lower(Escape(tablePattern)) + "%"
  }

  predicate OccursAt(s: string, q: string, k: nat)
  {
    k + |q| <= |s| && s[k..k + |q|] == q
  }

  predicate Contains(s: string, q: string)
  {
    exists k: nat :: k <= |s| && OccursAt(s, q, k)
  }

  /** Some part of the name is the pattern in another spelling. */
  predicate ContainsUpToCase(name: string, pattern: string)
  {
    exists k: nat :: k <= |name| && OccursUpToCase(name, pattern, k)
  }

  predicate OccursUpToCase(name: string, pattern: string, k: nat)
  {
    k + |pattern| <= |name| && SameButCase(name[k..k + |pattern|], pattern)
  }

  lemma OccursFolded(name: string, pattern: string, k: nat)
    ensures OccursAt(Lower(name), Lower(pattern), k) <==> OccursUpToCase(name, pattern, k)
  {
    if k + |pattern| <= |name| {
      assert Lower(name)[k..k + |pattern|] == Lower(name[k..k + |pattern|]);
      FoldsExactlyWhen(name[k..k + |pattern|], pattern);
    }
  }

  lemma ContainsFolded(name: string, pattern: string)
    ensures Contains(Lower(name), Lower(pattern)) <==> ContainsUpToCase(name, pattern)
  {
    forall k: nat | k <= |name|
      ensures OccursAt(Lower(name), Lower(pattern), k) <==> OccursUpToCase(name, pattern, k)
    {
      OccursFolded(name, pattern, k);
    }
  }

  // ---- An escaped pattern matches itself only ----

  lemma LikeEscapedByte(c: char, rest: string, s: string)
    ensures Like(EscapeByte(c) + rest, s) <==> s != [] && s[0] == c && Like(rest, s[1..])
  {
    var p := EscapeByte(c) + rest;
    if Special(c) {
      assert p[0] == '\\' && p[1] == c && p[2..] == rest;
    } else {
      assert p[0] == c && p[1..] == rest;
    }
  }

  lemma PrefixStep(c: char, q: string, s: string)
    ensures [c] + q <= s <==> s != [] && s[0] == c && q <= s[1..]
  {
    if s != [] { assert s == [s[0]] + s[1..]; }
  }

  lemma {:induction false} LikeEscaped(q: string, tail: string, s: string)
    ensures Like(Escape(q) + tail, s) <==> q <= s && Like(tail, s[|q|..])
  {
    if q == [] {
      assert Escape(q) + tail == tail && s[0..] == s;
    } else {
      var rest := Escape(q[1..]) + tail;
      assert Escape(q) + tail == EscapeByte(q[0]) + rest;
      LikeEscapedByte(q[0], rest, s);
      PrefixStep(q[0], q[1..], s);
      assert q == [q[0]] + q[1..];
      if s != [] {
        LikeEscaped(q[1..], tail, s[1..]);
        if |q| <= |s| { assert s[1..][|q| - 1..] == s[|q|..]; }
      }
    }
  }

  lemma EscapedMatchesOnlyItself(q: string, s: string)
    ensures Like(Escape(q), s) <==> s == q
  {
    LikeEscaped(q, [], s);
    assert Escape(q) + [] == Escape(q);
    if q <= s && s[|q|..] == [] { assert s[..|q|] == s; }
  }

  // ---- Percent signs ----

  lemma {:induction false} PercentMatchesAll(s: string)
    ensures Like("%", s)
  {
    assert "%"[1..] == [];
    if s != [] { PercentMatchesAll(s[1..]); }
  }

  lemma {:induction false} LikePercent(p: string, s: string)
    ensures Like("%" + p, s) <==> exists k :: 0 <= k <= |s| && Like(p, s[k..])
    decreases |s|
  {
    assert ("%" + p)[1..] == p && s[0..] == s;
    if s != [] {
      LikePercent(p, s[1..]);
      if k :| 0 <= k <= |s[1..]| && Like(p, s[1..][k..]) {
        assert s[1..][k..] == s[k + 1..];
      }
      if k :| 0 < k <= |s| && Like(p, s[k..]) {
        assert s[1..][k - 1..] == s[k..];
      }
    }
  }

  // ---- Folding ----

  lemma {:induction false} LowerEscape(p: string)
    ensures Lower(Escape(p)) == Escape(Lower(p))
  {
    if p != [] {
      LowerEscape(p[1..]);
      assert Lower(p)[1..] == Lower(p[1..]);
      assert Lower(EscapeByte(p[0])) == EscapeByte(ToLower(p[0]));
      assert Lower(EscapeByte(p[0]) + Escape(p[1..])) == Lower(EscapeByte(p[0])) + Lower(Escape(p[1..]));
    }
  }

  /** The LIKE test of a table search is a case-insensitive substring test, whatever wildcard or
      escape bytes the pattern contains. */
  lemma SearchIsSubstring(tablePattern: string, tableName: string)
    ensures Like(SearchPattern(tablePattern), Lower(tableName)) <==> ContainsUpToCase(tableName, tablePattern)
  {
    ContainsFolded(tableName, tablePattern);
    var q, s := Lower(tablePattern), Lower(tableName);
    var p := Escape(q) + "%";
    LowerEscape(tablePattern);
    assert SearchPattern(tablePattern) == "%" + p;
    LikePercent(p, s);
    forall k: nat | k <= |s| ensures Like(p, s[k..]) <==> OccursAt(s, q, k) {
      LikeTail(q, s, k);
    }
  }

  lemma LikeTail(q: string, s: string, k: nat)
    requires k <= |s|
    ensures Like(Escape(q) + "%", s[k..]) <==> OccursAt(s, q, k)
  {
    LikeEscaped(q, "%", s[k..]);
    if |q| <= |s[k..]| {
      PercentMatchesAll(s[k..][|q|..]);
      assert s[k..][..|q|] == s[k..k + |q|];
    }
  }
}
