/**
 * String operations of the JavaScript runtime that the compiler relies on,
 * written out over `seq<char>`: ASCII lower-casing, global replacement of a
 * literal pattern, `String.prototype.replace` with a string pattern (first
 * occurrence only, `$` patterns in the replacement honoured) and the line
 * splitting used for diagnostics.
 */
module TextUtil {
  import opened Wrappers

  // ---------------------------------------------------------------------------
  // Character classes
  // ---------------------------------------------------------------------------

  predicate IsUpper(c: char) {
    'A' <= c <= 'Z'
  }

  /** `[a-z\d\-_]` under the `i` flag: the characters a namespace must contain one of. */
  predicate IsNameChar(c: char) {
    ('a' <= c <= 'z') || IsUpper(c) || ('0' <= c <= '9') || c == '-' || c == '_'
  }

  predicate IsLineBreak(c: char) {
    c == '\r' || c == '\n'
  }

  predicate StartsWith(s: string, p: string) {
    |p| <= |s| && s[..|p|] == p
  }

  // ---------------------------------------------------------------------------
  // Lower-casing. The tokenizer only admits `[a-z\-_]` (case-insensitively) in
  // tag and attribute names, so ASCII lower-casing is exactly `toLowerCase()`
  // on every name it produces.
  // ---------------------------------------------------------------------------

  function LowerChar(c: char): char {
    if IsUpper(c) then (c as int + 32) as char else c
  }

  function Lower(s: string): (r: string)
    ensures |r| == |s|
    ensures forall i :: 0 <= i < |s| ==> r[i] == LowerChar(s[i])
  {
    seq(|s|, i requires 0 <= i < |s| => LowerChar(s[i]))
  }

  /** Lower-casing leaves no upper-case letter behind and is idempotent. */
  lemma LowerIsIdempotent(s: string)
    ensures forall i :: 0 <= i < |s| ==> !IsUpper(Lower(s)[i])
    ensures Lower(Lower(s)) == Lower(s)
  {
  }

  // ---------------------------------------------------------------------------
  // Global replacement of a literal pattern (`s.replace(/pat/g, rep)` where
  // neither `pat` nor `rep` contains a special character).
  // ---------------------------------------------------------------------------

  function ReplaceAll(s: string, pat: string, rep: string): string
    requires |pat| > 0
    decreases |s|
  {
    if |s| < |pat| then s
    else if s[..|pat|] == pat then rep + ReplaceAll(s[|pat|..], pat, rep)
    else [s[0]] + ReplaceAll(s[1..], pat, rep)
  }

  /** A string that does not contain the pattern's first character is left alone. */
  lemma {:induction false} ReplaceAllAbsent(s: string, pat: string, rep: string)
    requires |pat| > 0
    requires forall i :: 0 <= i < |s| ==> s[i] != pat[0]
    ensures ReplaceAll(s, pat, rep) == s
    decreases |s|
  {
    if |s| < |pat| {
    } else {
      assert s[..|pat|][0] == s[0];
      ReplaceAllAbsent(s[1..], pat, rep);
    }
  }

  /** A replacement no longer than its pattern never lengthens the string. */
  lemma {:induction false} ReplaceAllShrinks(s: string, pat: string, rep: string)
    requires |pat| > 0 && |rep| <= |pat|
    ensures |ReplaceAll(s, pat, rep)| <= |s|
    decreases |s|
  {
    if |s| < |pat| {
    } else if s[..|pat|] == pat {
      ReplaceAllShrinks(s[|pat|..], pat, rep);
    } else {
      ReplaceAllShrinks(s[1..], pat, rep);
    }
  }

  // ---------------------------------------------------------------------------
  // `String.prototype.replace(pattern: string, replacement: string)`: only the
  // first occurrence is replaced, and the replacement is expanded by the
  // GetSubstitution rules of the language (no capture groups exist for a
  // string pattern, so only `$$`, `$&`, `` $` `` and `$'` are special).
  // ---------------------------------------------------------------------------

  /** `pat` occurs in `s` at index `j`. */
  predicate MatchAt(s: string, pat: string, j: nat) {
    j + |pat| <= |s| && s[j..j + |pat|] == pat
  }

  /** Index of the first occurrence of `pat` in `s` at or after `k`. */
  function IndexOfFrom(s: string, pat: string, k: nat): (r: Option<nat>)
    requires k <= |s|
    ensures r.Some? ==> k <= r.value && MatchAt(s, pat, r.value)
    ensures r.Some? ==> forall j :: k <= j < r.value ==> !MatchAt(s, pat, j)
    ensures r.None? ==> forall j :: k <= j ==> !MatchAt(s, pat, j)
    decreases |s| - k
  {
    if k + |pat| > |s| then None
    else if s[k..k + |pat|] == pat then Some(k)
    else IndexOfFrom(s, pat, k + 1)
  }

  function IndexOf(s: string, pat: string): Option<nat> {
    IndexOfFrom(s, pat, 0)
  }

  /** GetSubstitution for a string pattern: expands `rep` for a match `matched`
      that is preceded by `before` and followed by `after`. */
  function Substitute(rep: string, matched: string, before: string, after: string): string
    decreases |rep|
  {
    if |rep| == 0 then ""
    else if rep[0] == '$' && |rep| >= 2 && rep[1] == '$' then "$" + Substitute(rep[2..], matched, before, after)
    else if rep[0] == '$' && |rep| >= 2 && rep[1] == '&' then matched + Substitute(rep[2..], matched, before, after)
    else if rep[0] == '$' && |rep| >= 2 && rep[1] == '`' then before + Substitute(rep[2..], matched, before, after)
    else if rep[0] == '$' && |rep| >= 2 && rep[1] == '\'' then after + Substitute(rep[2..], matched, before, after)
    else [rep[0]] + Substitute(rep[1..], matched, before, after)
  }

  /** A replacement without `$` is inserted literally. */
  lemma {:induction false} SubstituteLiteral(rep: string, matched: string, before: string, after: string)
    requires forall i :: 0 <= i < |rep| ==> rep[i] != '$'
    ensures Substitute(rep, matched, before, after) == rep
    decreases |rep|
  {
    if |rep| > 0 {
      SubstituteLiteral(rep[1..], matched, before, after);
    }
  }

  function ReplaceFirst(s: string, pat: string, rep: string): string {
    match IndexOf(s, pat)
    case None => s
    case Some(i) => s[..i] + Substitute(rep, pat, s[..i], s[i + |pat|..]) + s[i + |pat|..]
  }

  /** With a `$`-free replacement, the first occurrence of the pattern is
      exchanged for the replacement and the text around it is kept. */
  lemma ReplaceFirstLiteral(s: string, pat: string, rep: string, i: nat)
    requires forall k :: 0 <= k < |rep| ==> rep[k] != '$'
    requires MatchAt(s, pat, i)
    requires forall j :: 0 <= j < i ==> !MatchAt(s, pat, j)
    ensures ReplaceFirst(s, pat, rep) == s[..i] + rep + s[i + |pat|..]
  {
    var r := IndexOf(s, pat);
    assert r.Some?;
    assert r.value <= i;
    assert r.value >= i;
    SubstituteLiteral(rep, pat, s[..i], s[i + |pat|..]);
  }

  // ---------------------------------------------------------------------------
  // Occurrence counting, used for the template markers.
  // ---------------------------------------------------------------------------

  function Occurrences(s: string, pat: string): nat
    requires |pat| > 0
    decreases |s|
  {
    if |s| < |pat| then 0
    else (if s[..|pat|] == pat then 1 else 0) + Occurrences(s[1..], pat)
  }

  // ---------------------------------------------------------------------------
  // Line splitting. `s.split(/(?:\r\n)|\r|\n/)` yields the pieces between line
  // terminators, a CRLF pair counting as one terminator.
  // ---------------------------------------------------------------------------

  function Lines(s: string): (pieces: seq<string>)
    ensures |pieces| >= 1
    decreases |s|
  {
    if s == [] then [""]
    else if s[0] == '\r' && |s| >= 2 && s[1] == '\n' then [""] + Lines(s[2..])
    else if IsLineBreak(s[0]) then [""] + Lines(s[1..])
    else
      var rest := Lines(s[1..]);
      [[s[0]] + rest[0]] + rest[1..]
  }

  /** Number of `\r` and `\n` characters. */
  function BreakChars(s: string): nat
    decreases |s|
  {
    if s == [] then 0 else (if IsLineBreak(s[0]) then 1 else 0) + BreakChars(s[1..])
  }

  /** Number of CRLF pairs. */
  function CrlfPairs(s: string): nat
    decreases |s|
  {
    if |s| < 2 then 0 else (if s[0] == '\r' && s[1] == '\n' then 1 else 0) + CrlfPairs(s[1..])
  }

  /** No piece of a split contains a line terminator, and the number of pieces
      is one more than the number of terminators, a CRLF pair counting once. */
  lemma {:induction false} LinesCount(s: string)
    ensures |Lines(s)| + CrlfPairs(s) == 1 + BreakChars(s)
    ensures forall p, k :: p in Lines(s) && 0 <= k < |p| ==> !IsLineBreak(p[k])
    decreases |s|
  {
    if s == [] {
    } else if s[0] == '\r' && |s| >= 2 && s[1] == '\n' {
      LinesCount(s[2..]);
      assert s[1..][1..] == s[2..];
      assert CrlfPairs(s[1..]) == CrlfPairs(s[2..]);
      assert BreakChars(s) == 1 + BreakChars(s[1..]);
    } else if IsLineBreak(s[0]) {
      LinesCount(s[1..]);
    } else {
      LinesCount(s[1..]);
      var rest := Lines(s[1..]);
      assert Lines(s) == [[s[0]] + rest[0]] + rest[1..];
      forall p, k | p in Lines(s) && 0 <= k < |p|
        ensures !IsLineBreak(p[k])
      {
        if p == [s[0]] + rest[0] {
          if k > 0 {
            assert p[k] == rest[0][k - 1];
          }
        } else {
          assert p in rest;
        }
      }
    }
  }

  /** A text without line terminators is one line. */
  lemma {:induction false} SingleLine(s: string)
    requires forall i :: 0 <= i < |s| ==> !IsLineBreak(s[i])
    ensures Lines(s) == [s]
    decreases |s|
  {
    if s != [] {
      SingleLine(s[1..]);
      assert [s[0]] + s[1..] == s;
    }
  }
}
