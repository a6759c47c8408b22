/**
 * The two whitespace notions the agent relies on: Kotlin's `String.trim()`
 * (node text and content description) and `isBlank()` (commands and service
 * messages). Only the ASCII characters that `Char.isWhitespace` accepts are
 * treated as whitespace here.
 */
module KotlinText {
  import opened Wrappers

  predicate IsWhitespace(c: char) {
    c == ' ' || c == '\t' || c == '\n' || c == '\U{B}' || c == '\U{C}' || c == '\r'
    || ('\U{1C}' <= c <= '\U{1F}')
  }

  /** `isBlank()`: empty or made of whitespace only. */
  predicate IsBlank(s: string) {
    forall i :: 0 <= i < |s| ==> IsWhitespace(s[i])
  }

  /** `isNullOrBlank()`. */
  predicate IsNullOrBlank(s: Option<string>) {
    s.None? || IsBlank(s.value)
  }

  /** Drops the leading whitespace. */
  function TrimStart(s: string): string {
    if s == [] || !IsWhitespace(s[0]) then s else TrimStart(s[1..])
  }

  /** Drops the trailing whitespace. */
  function TrimEnd(s: string): string {
    if s == [] || !IsWhitespace(s[|s| - 1]) then s else TrimEnd(s[..|s| - 1])
  }

  /** `trim()`: drops whitespace at both ends. */
  function Trim(s: string): string {
    TrimEnd(TrimStart(s))
  }

  /** What remains after `TrimStart` is a suffix that is empty or starts with a non-blank character; all that was dropped is whitespace. */
  lemma {:induction false} TrimStartDropsLeadingBlanks(s: string)
    ensures |TrimStart(s)| <= |s| && TrimStart(s) == s[|s| - |TrimStart(s)|..]
    ensures forall i :: 0 <= i < |s| - |TrimStart(s)| ==> IsWhitespace(s[i])
    ensures TrimStart(s) == [] || !IsWhitespace(TrimStart(s)[0])
  {
    if s != [] && IsWhitespace(s[0]) {
      var t, r := s[1..], TrimStart(s);
      TrimStartDropsLeadingBlanks(t);
      assert r == TrimStart(t);
      assert t[|t| - |r|..] == s[|s| - |r|..];
      forall i | 0 <= i < |s| - |r| ensures IsWhitespace(s[i]) {
        if i > 0 {
          assert s[i] == t[i - 1];
        }
      }
    }
  }

  /** What remains after `TrimEnd` is a prefix that is empty or ends with a non-blank character; all that was dropped is whitespace. */
  lemma {:induction false} TrimEndDropsTrailingBlanks(s: string)
    ensures |TrimEnd(s)| <= |s| && TrimEnd(s) == s[..|TrimEnd(s)|]
    ensures forall i :: |TrimEnd(s)| <= i < |s| ==> IsWhitespace(s[i])
    ensures TrimEnd(s) == [] || !IsWhitespace(TrimEnd(s)[|TrimEnd(s)| - 1])
  {
    if s != [] && IsWhitespace(s[|s| - 1]) {
      TrimEndDropsTrailingBlanks(s[..|s| - 1]);
      assert s[..|s| - 1][..|TrimEnd(s)|] == s[..|TrimEnd(s)|];
    }
  }

  /**
   * `trim()` leaves an infix of `s` that is empty exactly when `s` is blank,
   * and otherwise starts and ends with a non-blank character.
   */
  lemma TrimEmptyIffBlank(s: string)
    ensures |Trim(s)| <= |s|
    ensures Trim(s) == [] <==> IsBlank(s)
    ensures Trim(s) == [] || (!IsWhitespace(Trim(s)[0]) && !IsWhitespace(Trim(s)[|Trim(s)| - 1]))
  {
    var t := TrimStart(s);
    TrimStartDropsLeadingBlanks(s);
    TrimEndDropsTrailingBlanks(t);
    var r := TrimEnd(t);
    // A blank suffix that does not start with whitespace is empty.
    assert r == [] ==> t == [];
    assert r != [] ==> r[0] == t[0];
  }
}
