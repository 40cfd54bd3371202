/** Byte classes and ASCII case folding.  A `char` stands for one byte of a Go
    string; every byte outside ASCII is neither a word byte, nor a space, nor cased. */
module Ascii {

  predicate IsDigit(c: char) { '0' <= c <= '9' }

  predicate IsUpper(c: char) { 'A' <= c <= 'Z' }

  predicate IsLower(c: char) { 'a' <= c <= 'z' }

  /** What `\b` looks at. */
  predicate IsWord(c: char) { IsDigit(c) || IsUpper(c) || IsLower(c) || c == '_' }

  /** What `\s` matches: tab, line feed, form feed, carriage return, space. */
  predicate IsBlank(c: char) { c == '\t' || c == '\n' || c == '\r' || c == ' ' || c == 12 as char }

  /** What `strings.TrimSpace` trims: `\s` and the vertical tab. */
  predicate IsTrimmed(c: char) { IsBlank(c) || c == 11 as char }

  function ToLower(c: char): char
  {
    if IsUpper(c) then (c as int + 32) as char else c
  }

  function ToUpper(c: char): char
  {
    if IsLower(c) then (c as int - 32) as char else c
  }

  function Lower(s: string): (r: string)
    ensures |r| == |s|
    ensures forall i :: 0 <= i < |s| ==> r[i] == ToLower(s[i])
  {
    seq(|s|, i requires 0 <= i < |s| => ToLower(s[i]))
  }

  function Upper(s: string): (r: string)
    ensures |r| == |s|
    ensures forall i :: 0 <= i < |s| ==> r[i] == ToUpper(s[i])
  {
    seq(|s|, i requires 0 <= i < |s| => ToUpper(s[i]))
  }

  /** `strings.EqualFold` on ASCII. */
  predicate EqualFold(s: string, t: string)
  {
    Lower(s) == Lower(t)
  }

  /** The same byte, or the same letter in the other case: 32 apart. */
  predicate SameLetter(c: char, d: char)
  {
    || c == d
    || ('a' <= c <= 'z' && d as int == c as int - 32)
    || ('A' <= c <= 'Z' && d as int == c as int + 32)
  }

  /** Two spellings of one text. */
  predicate SameButCase(s: string, t: string)
  {
    |s| == |t| && forall i :: 0 <= i < |s| ==> SameLetter(s[i], t[i])
  }

  lemma LowerLetters(c: char, d: char)
    ensures ToLower(c) == ToLower(d) <==> SameLetter(c, d)
  {
  }

  lemma FoldsExactlyWhen(s: string, t: string)
    ensures EqualFold(s, t) <==> SameButCase(s, t)
  {
    if |s| == |t| {
      forall i | 0 <= i < |s| ensures Lower(s)[i] == Lower(t)[i] <==> SameLetter(s[i], t[i]) {
        LowerLetters(s[i], t[i]);
      }
    }
    if EqualFold(s, t) { assert forall i :: 0 <= i < |s| ==> Lower(s)[i] == Lower(t)[i]; }
  }

  lemma UpperFolds(s: string)
    ensures EqualFold(s, Upper(s))
  {
  }
}
