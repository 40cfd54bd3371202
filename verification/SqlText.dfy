/** Which bytes of a statement MySQL reads as code: not inside a comment (section 11.7 of the MySQL 8.0
    Reference Manual), a string literal (section 11.1.1) or a quoted identifier (section 11.2). */
module SqlText {
  import opened Ascii
  import opened Decimal
  import opened LimitAppender

  /** What has been read so far: code, perhaps with a dash, two dashes or a slash just before; text
      inside quotes `q`, perhaps just after a backslash; a comment to the end of the line; or a
      comment up to an asterisk and a slash, perhaps just after an asterisk. */
  datatype Mode = Code | Dash | DashDash | Slash | Quoted(q: char) | Escaped(q: char) | Line | Block | Star

  predicate IsQuote(c: char) { c == '\'' || c == '"' || c == '`' }

  /** Two dashes open a comment only before one of these; a line feed ends it at once. */
  predicate IsSpaceOrControl(c: char) { c as int <= 32 || c as int == 127 }

  /** A byte of code that nothing before it gives a meaning to. */
  function Start(c: char): Mode
  {
    if IsQuote(c) then Quoted(c)
    else if c == '#' then Line
    else if c == '-' then Dash
    else if c == '/' then Slash
    else Code
  }

  function Step(m: Mode, c: char): Mode
  {
    match m
    case Code => Start(c)
    case Dash => if c == '-' then DashDash else Start(c)
    case DashDash =>
      if c == '\n' then Code else if IsSpaceOrControl(c) then Line else if c == '-' then DashDash else Start(c)
    case Slash => if c == '*' then Block else Start(c)
    case Quoted(q) => if c == q then Code else if c == '\\' && q != '`' then Escaped(q) else m
    case Escaped(q) => Quoted(q)
    case Line => if c == '\n' then Code else Line
    case Block => if c == '*' then Star else Block
    case Star => if c == '/' then Code else if c == '*' then Star else Block
  }

  function Read(s: string): Mode
  {
    if s == [] then Code else Step(Read(s[..|s| - 1]), s[|s| - 1])
  }

  lemma ReadOne(s: string, c: char)
    ensures Read(s + [c]) == Step(Read(s), c)
  {
    assert (s + [c])[..|s|] == s;
  }

  /** Where the text so far is code, the rest is read as if it stood alone. */
  lemma {:induction false} ReadAfterCode(s: string, rest: string)
    requires Read(s) == Code
    ensures Read(s + rest) == Read(rest)
  {
    if rest == [] {
      assert s + rest == s;
    } else {
      var n := |rest| - 1;
      ReadAfterCode(s, rest[..n]);
      assert s + rest == s + rest[..n] + [rest[n]];
      ReadOne(s + rest[..n], rest[n]);
    }
  }

  /** A line of two bare dashes says nothing about the lines after it. */
  lemma DashesEndWithTheirLine(rest: string)
    ensures Read("--\n" + rest) == Read(rest)
  {
    ReadOne([], '-');
    ReadOne("-", '-');
    ReadOne("--", '\n');
    assert [] + ['-'] == "-" && "-" + ['-'] == "--" && "--" + ['\n'] == "--\n";
    ReadAfterCode("--\n", rest);
  }

  /** The text ends inside a comment, a literal or a quoted identifier, or in the two dashes that the
      next space makes a comment. */
  predicate EndsOpen(s: string)
  {
    var m := Read(s);
    m.Quoted? || m.Escaped? || m.Line? || m.Block? || m.Star? || m.DashDash?
  }

  // ---- The modes are what they say ----

  /** A comment to the end of the line begins with the last byte before `p`. */
  predicate OpensLine(s: string, p: nat)
  {
    && 0 < p <= |s|
    && var m := Read(s[..p - 1]);
       (s[p - 1] == '#' && (m.Code? || m.Dash? || m.DashDash? || m.Slash?)) ||
       (IsSpaceOrControl(s[p - 1]) && s[p - 1] != '\n' && m.DashDash?)
  }

  predicate OpenLine(s: string, p: nat)
  {
    OpensLine(s, p) && forall i :: p <= i < |s| ==> s[i] != '\n'
  }

  lemma OpenLineShorter(s: string, p: nat)
    requires p < |s|
    ensures OpensLine(s, p) == OpensLine(s[..|s| - 1], p)
    ensures OpenLine(s, p) <==> OpenLine(s[..|s| - 1], p) && s[|s| - 1] != '\n'
  {
    var t := s[..|s| - 1];
    if p > 0 { assert s[..p - 1] == t[..p - 1]; }
    assert forall i :: 0 <= i < |t| ==> t[i] == s[i];
  }

  /** Inside such a comment is where one has begun and no line has ended since. */
  lemma {:induction false} InLineExactlyWhen(s: string)
    ensures Read(s).Line? <==> exists p: nat :: p <= |s| && OpenLine(s, p)
  {
    if s != [] {
      var n := |s| - 1;
      InLineExactlyWhen(s[..n]);
      forall p: nat | p <= n
        ensures OpenLine(s, p) <==> OpenLine(s[..n], p) && s[n] != '\n'
      {
        OpenLineShorter(s, p);
      }
      if Read(s).Line? && !(exists p: nat :: p <= n && OpenLine(s[..n], p)) { assert OpenLine(s, n + 1); }
      if p: nat :| p <= |s| && OpenLine(s, p) {
        if p <= n { assert OpenLine(s[..n], p); }
      }
    }
  }

  /** A comment between slashes and asterisks begins with the two bytes before `p`. */
  predicate OpensBlock(s: string, p: nat)
  {
    0 < p <= |s| && s[p - 1] == '*' && Read(s[..p - 1]).Slash?
  }

  predicate OpenBlock(s: string, p: nat)
  {
    OpensBlock(s, p) && forall i :: p < i < |s| ==> !(s[i - 1] == '*' && s[i] == '/')
  }

  lemma OpenBlockShorter(s: string, p: nat)
    requires p < |s|
    ensures OpensBlock(s, p) == OpensBlock(s[..|s| - 1], p)
    ensures OpenBlock(s, p) <==>
      OpenBlock(s[..|s| - 1], p) && !(p < |s| - 1 && s[|s| - 2] == '*' && s[|s| - 1] == '/')
  {
    var t := s[..|s| - 1];
    if p > 0 { assert s[..p - 1] == t[..p - 1]; }
    assert forall i :: 0 <= i < |t| ==> t[i] == s[i];
  }

  /** Inside such a comment is where one has begun and no asterisk and slash have come since. */
  lemma {:induction false} InBlockExactlyWhen(s: string)
    ensures Read(s).Block? || Read(s).Star? <==> exists p: nat :: p <= |s| && OpenBlock(s, p)
    ensures Read(s).Star? ==> s != [] && s[|s| - 1] == '*'
    ensures forall p: nat :: p < |s| && OpenBlock(s, p) ==> (Read(s).Star? <==> s[|s| - 1] == '*')
    ensures OpenBlock(s, |s|) ==> Read(s).Block?
  {
    if s != [] {
      var n := |s| - 1;
      var t := s[..n];
      InBlockExactlyWhen(t);
      forall p: nat | p <= n
        ensures OpenBlock(s, p) <==> OpenBlock(t, p) && !(p < n && s[n - 1] == '*' && s[n] == '/')
      {
        OpenBlockShorter(s, p);
      }
      if (Read(s).Block? || Read(s).Star?) && !(Read(t).Block? || Read(t).Star?) { assert OpenBlock(s, n + 1); }
      if Read(t).Block? || Read(t).Star? {
        var p: nat :| p <= n && OpenBlock(t, p);
        assert n > 0 && t[n - 1] == s[n - 1];
        if Read(s).Block? || Read(s).Star? { assert OpenBlock(s, p); }
      }
    }
  }

  // ---- An appended clause ----

  /** Every byte of the clause is read as code. */
  predicate InForce(before: string, clause: string)
  {
    forall i :: 0 <= i <= |clause| ==> Read(before + clause[..i]) == Code
  }

  /** None of it is. */
  predicate Swallowed(before: string, clause: string)
  {
    forall i :: 0 <= i <= |clause| ==>
      var m := Read(before + clause[..i]); m.Quoted? || m.Line? || m.Block?
  }

  /** Bytes that mean nothing to the modes. */
  predicate Plain(c: char) { IsWord(c) || c == ' ' }

  lemma {:induction false} QuotesAreQuotes(s: string)
    ensures Read(s).Quoted? || Read(s).Escaped? ==> IsQuote(Read(s).q)
  {
    if s != [] { QuotesAreQuotes(s[..|s| - 1]); }
  }

  lemma PlainStep(m: Mode, c: char)
    requires Plain(c) && (m.Code? || (m.Quoted? && IsQuote(m.q)) || m.Line? || m.Block?)
    ensures Step(m, c) == m
  {
  }

  lemma {:induction false} PlainStays(before: string, clause: string, n: nat)
    requires n <= |clause| && forall i :: 0 <= i < |clause| ==> Plain(clause[i])
    requires var m := Read(before); m.Code? || m.Quoted? || m.Line? || m.Block?
    ensures Read(before + clause[..n]) == Read(before)
  {
    if n == 0 {
      assert before + clause[..0] == before;
    } else {
      PlainStays(before, clause, n - 1);
      assert before + clause[..n] == before + clause[..n - 1] + [clause[n - 1]];
      ReadOne(before + clause[..n - 1], clause[n - 1]);
      QuotesAreQuotes(before);
      PlainStep(Read(before), clause[n - 1]);
    }
  }

  /** The clause that `addLimit` appends to the trimmed text is in force exactly when that text does not
      end in an open comment, literal or quoted identifier; otherwise not a byte of it is. */
  lemma AppendedLimitIsInForceExactlyWhen(t: string, n: nat)
    ensures InForce(t + " ", "LIMIT " + Print(n)) <==> !EndsOpen(t)
    ensures Swallowed(t + " ", "LIMIT " + Print(n)) <==> EndsOpen(t)
  {
    var clause := "LIMIT " + Print(n);
    ReadOne(t, ' ');
    var m := Read(t + " ");
    QuotesAreQuotes(t);
    assert if EndsOpen(t) then m.Quoted? || m.Line? || m.Block? else m == Code;
    forall i | 0 <= i <= |clause| ensures Read(t + " " + clause[..i]) == m {
      PlainStays(t + " ", clause, i);
    }
    assert Read(t + " " + clause[..0]) == m && 0 <= |clause|;
  }
}
