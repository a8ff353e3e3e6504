/**
 * The handful of JavaScript string operations the modelled code relies on,
 * written out over `seq<char>`: prefix and substring tests, replacing the
 * first or every occurrence of a literal, ASCII lower-casing, `trim`,
 * `join`, the last `/`-separated segment, and decimal rendering of a number.
 */
module Strings {

  predicate StartsWith(s: string, prefix: string) {
    |prefix| <= |s| && s[..|prefix|] == prefix
  }

  /** `t` occurs in `s` starting at position `j`. */
  predicate OccursAt(s: string, t: string, j: int) {
    0 <= j && j + |t| <= |s| && s[j..j + |t|] == t
  }

  /** `s.includes(t)`: `t` occurs in `s` as a contiguous block (the empty string occurs everywhere). */
  predicate Contains(s: string, t: string) {
    exists j | 0 <= j <= |s| :: OccursAt(s, t, j)
  }

  /** `s.indexOf(t)`: the first position at which `t` occurs in `s`, or -1. */
  function IndexOf(s: string, t: string): (i: int)
    ensures -1 <= i <= |s|
    ensures i >= 0 ==> OccursAt(s, t, i)
    decreases |s|
  {
    if StartsWith(s, t) then 0
    else if |s| == 0 then -1
    else
      var k := IndexOf(s[1..], t);
      if k == -1 then -1
      else
        assert s[1..][k..k + |t|] == s[k + 1..k + 1 + |t|];
        k + 1
  }

  lemma OccursAtTail(s: string, t: string, j: int)
    requires |s| > 0 && j >= 1
    ensures OccursAt(s, t, j) <==> OccursAt(s[1..], t, j - 1)
  {
    if j + |t| <= |s| {
      assert s[1..][j - 1..j - 1 + |t|] == s[j..j + |t|];
    }
  }

  /** `IndexOf` finds the first occurrence: none starts earlier, and -1 means there is none at all. */
  lemma {:induction false} IndexOfIsFirst(s: string, t: string)
    ensures forall j :: 0 <= j && (IndexOf(s, t) == -1 || j < IndexOf(s, t)) ==> !OccursAt(s, t, j)
    ensures IndexOf(s, t) == -1 <==> !Contains(s, t)
    decreases |s|
  {
    var i := IndexOf(s, t);
    if StartsWith(s, t) {
      assert OccursAt(s, t, 0);
    } else if |s| == 0 {
      assert forall j :: !OccursAt(s, t, j);
    } else {
      IndexOfIsFirst(s[1..], t);
      assert !OccursAt(s, t, 0);
      forall j | 0 <= j && (i == -1 || j < i) ensures !OccursAt(s, t, j) {
        if j >= 1 { OccursAtTail(s, t, j); }
      }
      if i >= 0 { assert OccursAt(s, t, i); }
    }
  }

  /** `s.replace(t, rep)` with a string pattern: only the first occurrence of `t` is replaced. */
  function ReplaceFirst(s: string, t: string, rep: string): string {
    var i := IndexOf(s, t);
    if i < 0 then s else s[..i] + rep + s[i + |t|..]
  }

  /** `s.replace(/t/g, rep)` for a literal, non-empty pattern: every non-overlapping occurrence, left to right. */
  function ReplaceAll(s: string, t: string, rep: string): string
    requires |t| > 0
    decreases |s|
  {
    if |s| < |t| then s
    else if s[..|t|] == t then rep + ReplaceAll(s[|t|..], t, rep)
    else [s[0]] + ReplaceAll(s[1..], t, rep)
  }

  /** A string in which the pattern does not occur is left unchanged. */
  lemma {:induction false} ReplaceAllWithoutOccurrence(s: string, t: string, rep: string)
    requires |t| > 0
    requires !Contains(s, t)
    ensures ReplaceAll(s, t, rep) == s
    decreases |s|
  {
    if |s| >= |t| {
      assert !OccursAt(s, t, 0);
      forall j | 0 <= j <= |s[1..]| ensures !OccursAt(s[1..], t, j) {
        OccursAtTail(s, t, j + 1);
      }
      ReplaceAllWithoutOccurrence(s[1..], t, rep);
      assert [s[0]] + s[1..] == s;
    }
  }

  /** Replacing a one-character pattern by text without that character removes the character entirely. */
  lemma {:induction false} ReplaceAllRemovesChar(s: string, c: char, rep: string)
    requires c !in rep
    ensures c !in ReplaceAll(s, [c], rep)
    decreases |s|
  {
    if |s| >= 1 {
      ReplaceAllRemovesChar(s[1..], c, rep);
    }
  }

  /** With a one-character pattern, replacing is done piece by piece: it distributes over concatenation. */
  lemma {:induction false} ReplaceCharAppend(a: string, b: string, c: char, rep: string)
    ensures ReplaceAll(a + b, [c], rep) == ReplaceAll(a, [c], rep) + ReplaceAll(b, [c], rep)
    decreases |a|
  {
    if a == [] {
      assert a + b == b;
    } else {
      assert (a + b)[..1] == a[..1];
      assert (a + b)[1..] == a[1..] + b;
      ReplaceCharAppend(a[1..], b, c, rep);
    }
  }

  /** A single character becomes the replacement when it is the pattern's character, and stays otherwise. */
  lemma ReplaceCharSingle(x: char, c: char, rep: string)
    ensures ReplaceAll([x], [c], rep) == if x == c then rep else [x]
  {
    assert [x][..1] == [x] && [x][1..] == [];
  }

  /** `replace(/\n/g, rep)`: every newline replaced by `rep`; no newline is left when `rep` has none. */
  function ReplaceNewlines(s: string, rep: string): (r: string)
    ensures '\n' !in rep ==> '\n' !in r
  {
    if '\n' in rep then ReplaceAll(s, "\n", rep)
    else (ReplaceAllRemovesChar(s, '\n', rep); ReplaceAll(s, "\n", rep))
  }

  /** Replacing newlines works piece by piece: it distributes over concatenation, so the text keeps its order. */
  lemma ReplaceNewlinesAppend(a: string, b: string, rep: string)
    ensures ReplaceNewlines(a + b, rep) == ReplaceNewlines(a, rep) + ReplaceNewlines(b, rep)
  {
    ReplaceCharAppend(a, b, '\n', rep);
  }

  /** A newline becomes `rep` and every other character is kept. */
  lemma ReplaceNewlinesChar(c: char, rep: string)
    ensures ReplaceNewlines([c], rep) == if c == '\n' then rep else [c]
  {
    ReplaceCharSingle(c, '\n', rep);
  }

  /** Replacing a pattern by text without character `c` introduces no `c`. */
  lemma {:induction false} ReplaceAllKeepsCharAbsent(s: string, t: string, rep: string, c: char)
    requires |t| > 0 && c !in s && c !in rep
    ensures c !in ReplaceAll(s, t, rep)
    decreases |s|
  {
    if |s| >= |t| {
      if s[..|t|] == t {
        ReplaceAllKeepsCharAbsent(s[|t|..], t, rep, c);
      } else {
        ReplaceAllKeepsCharAbsent(s[1..], t, rep, c);
      }
    }
  }

  /** `LowerChar` is `toLowerCase` restricted to the ASCII letters. */
  function LowerChar(c: char): char {
    if 'A' <= c <= 'Z' then (c as int + 32) as char else c
  }

  function ToLower(s: string): (r: string)
    ensures |r| == |s|
  {
    seq(|s|, i requires 0 <= i < |s| => LowerChar(s[i]))
  }

  /** The characters ECMAScript's `trim` removes: WhiteSpace and LineTerminator. */
  predicate IsJsWhitespace(c: char) {
    c == '\t' || c == '\n' || c == '\U{B}' || c == '\U{C}' || c == '\r' || c == ' '
    || c == '\U{A0}' || c == '\U{1680}' || ('\U{2000}' <= c <= '\U{200A}')
    || c == '\U{2028}' || c == '\U{2029}' || c == '\U{202F}' || c == '\U{205F}'
    || c == '\U{3000}' || c == '\U{FEFF}'
  }

  function TrimStart(s: string): string
    decreases |s|
  {
    if |s| > 0 && IsJsWhitespace(s[0]) then TrimStart(s[1..]) else s
  }

  function TrimEnd(s: string): string
    decreases |s|
  {
    if |s| > 0 && IsJsWhitespace(s[|s| - 1]) then TrimEnd(s[..|s| - 1]) else s
  }

  function Trim(s: string): string {
    TrimEnd(TrimStart(s))
  }

  /** `!s.trim()`: nothing but whitespace is left. */
  predicate IsBlank(s: string) {
    Trim(s) == ""
  }

  predicate AllWhitespace(s: string) {
    forall i :: 0 <= i < |s| ==> IsJsWhitespace(s[i])
  }

  lemma {:induction false} TrimStartEmpty(s: string)
    ensures TrimStart(s) == "" <==> AllWhitespace(s)
    ensures TrimStart(s) != "" ==> !IsJsWhitespace(TrimStart(s)[0])
    decreases |s|
  {
    if |s| > 0 && IsJsWhitespace(s[0]) {
      TrimStartEmpty(s[1..]);
      assert AllWhitespace(s) <==> AllWhitespace(s[1..]) by {
        if AllWhitespace(s[1..]) {
          forall i | 0 <= i < |s| ensures IsJsWhitespace(s[i]) {
            if i > 0 { assert s[i] == s[1..][i - 1]; }
          }
        }
      }
    }
  }

  lemma {:induction false} TrimEndOfNonBlankStart(s: string)
    requires |s| > 0 && !IsJsWhitespace(s[0])
    ensures TrimEnd(s) != ""
    decreases |s|
  {
    if IsJsWhitespace(s[|s| - 1]) {
      TrimEndOfNonBlankStart(s[..|s| - 1]);
    }
  }

  lemma {:induction false} TrimEndOfBlank(s: string)
    requires AllWhitespace(s)
    ensures TrimEnd(s) == ""
    decreases |s|
  {
    if |s| > 0 {
      TrimEndOfBlank(s[..|s| - 1]);
    }
  }

  /** `trim` leaves nothing exactly when every character is whitespace. */
  lemma BlankIffAllWhitespace(s: string)
    ensures IsBlank(s) <==> AllWhitespace(s)
  {
    TrimStartEmpty(s);
    var t := TrimStart(s);
    if t == "" {
      assert TrimEnd(t) == "";
    } else {
      TrimEndOfNonBlankStart(t);
    }
  }

  /** `parts.join(sep)`. */
  function Join(parts: seq<string>, sep: string): string
    decreases |parts|
  {
    if |parts| == 0 then ""
    else if |parts| == 1 then parts[0]
    else parts[0] + sep + Join(parts[1..], sep)
  }

  /** The part of `s` after its last `/` (all of `s` when it has none): `s.split("/").pop()`. */
  function LastSegment(s: string): (r: string)
    ensures '/' !in r
    ensures |r| <= |s| && r == s[|s| - |r|..]
    ensures |r| < |s| ==> s[|s| - |r| - 1] == '/'
    decreases |s|
  {
    if |s| == 0 then ""
    else if s[|s| - 1] == '/' then ""
    else
      var init := s[..|s| - 1];
      var r := LastSegment(init) + [s[|s| - 1]];
      assert init[|init| - |LastSegment(init)|..] + [s[|s| - 1]] == s[|s| - |r|..];
      r
  }

  function DigitChar(d: nat): (c: char)
    requires d < 10
    ensures '0' <= c <= '9'
  {
    "0123456789"[d]
  }

  predicate IsDigit(c: char) {
    '0' <= c <= '9'
  }

  /** The decimal rendering of a natural number (`String(n)`), never empty and all digits. */
  function NatToString(n: nat): (r: string)
    ensures |r| > 0
    ensures forall i :: 0 <= i < |r| ==> IsDigit(r[i])
    decreases n
  {
    if n < 10 then [DigitChar(n)] else NatToString(n / 10) + [DigitChar(n % 10)]
  }
}
