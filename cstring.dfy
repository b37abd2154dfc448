/**
 * C-string conventions shared by the whole model.
 *
 * A C string is a `string` with no NUL inside it; reading at or past its end
 * yields the terminator, which is what `At` returns. libft's `ft_strchr`
 * matches the terminator too, so `StrChr(set, NUL)` holds for every set.
 *
 * The character classes METACHARS, SPECIALCHARS, NON_EXPANDABLE and ISSPACE
 * are macros of includes/minishell.h, which is not part of this model; the
 * values below are stand-ins. The proofs only rely on the facts stated in
 * `ClassesDisjoint`.
 */
module CStr {

  const NUL: char := 0 as char

  /** No character of a C string is its terminator. */
  predicate IsCString(s: string) {
    NUL !in s
  }

  /** `s[i]` as C reads it: the terminator at or past the end. */
  function At(s: string, i: int): char {
    if 0 <= i < |s| then s[i] else NUL
  }

  /** The ISSPACE set given to ft_strtrim: space, tab, newline, vertical tab, form feed, return. */
  const WHITESPACE: set<char> := {' ', '\t', '\n', 11 as char, 12 as char, '\r'}

  /** ft_isspace: ASCII 32, or 9 through 13; the same characters ft_strtrim strips. */
  function IsSpace(c: char): (b: bool)
    ensures b <==> c in WHITESPACE
  {
    c as int == 32 || (9 <= c as int <= 13)
  }

  /** libft ft_strchr(set, c) != NULL; the terminator of `set` is found for c == NUL. */
  function StrChr(chars: string, c: char): bool {
    c == NUL || c in chars
  }

  const METACHARS: string := "|<>"
  const SPECIALCHARS: string := "\\;&()"
  const NON_EXPANDABLE: string := "!#%&()*+,-./:;<=>@[\\]^{}~"
  const SQUOTE: char := '\''
  const DQUOTE: char := '"'

  predicate IsMeta(c: char) { c in METACHARS }
  predicate IsSpecial(c: char) { c in SPECIALCHARS }
  predicate IsQuote(c: char) { c == SQUOTE || c == DQUOTE }

  /** The only facts about the character classes that the proofs use. */
  lemma ClassesDisjoint(c: char)
    ensures IsQuote(c) ==> !IsMeta(c) && !IsSpecial(c) && !IsSpace(c) && c != '$' && c != NUL
    ensures IsMeta(c) ==> !IsSpecial(c) && !IsSpace(c) && c != '$' && c != NUL
    ensures IsSpecial(c) ==> !IsSpace(c) && c != '$' && c != NUL
    ensures IsSpace(c) ==> c != '$' && c != NUL
    ensures IsMeta(c) <==> c == '|' || c == '<' || c == '>'
  {
  }

  /**
   * strncmp(a, b, n) == 0: the first n characters agree, where both strings
   * read as NUL past their ends (the comparison stops at a common terminator).
   */
  predicate StrNEq(a: string, b: string, n: int) {
    forall k :: 0 <= k < n ==> At(a, k) == At(b, k)
  }

  /** For C strings, strncmp(a, b, strlen(b)) == 0 says exactly that b is a prefix of a. */
  lemma StrNEqPrefix(a: string, b: string)
    requires IsCString(a) && IsCString(b)
    ensures StrNEq(a, b, |b|) <==> b <= a
  {
    if b <= a {
      forall k | 0 <= k < |b| ensures At(a, k) == At(b, k) {
      }
    }
    if StrNEq(a, b, |b|) {
      forall k | 0 <= k < |b| ensures k < |a| && a[k] == b[k] {
        assert At(a, k) == At(b, k) == b[k];
        assert b[k] != NUL;
      }
      if |b| > 0 {
        assert At(a, |b| - 1) == b[|b| - 1] != NUL;
      }
      assert a[..|b|] == b;
    }
  }

  /** Index of the first occurrence of c in s. */
  function FirstIndex(s: string, c: char): (k: nat)
    requires c in s
    ensures k < |s| && s[k] == c
    ensures forall j :: 0 <= j < k ==> s[j] != c
  {
    if s[0] == c then 0 else 1 + FirstIndex(s[1..], c)
  }

  /** Number of whitespace characters at the start of s. */
  function LeadingBlanks(s: string): (n: nat)
    ensures n <= |s|
    ensures forall j :: 0 <= j < n ==> IsSpace(s[j])
    ensures n < |s| ==> !IsSpace(s[n])
  {
    if s == [] || !IsSpace(s[0]) then 0 else 1 + LeadingBlanks(s[1..])
  }

  /** End of s once trailing whitespace is dropped, never before lo. */
  function TrailingStart(s: string, lo: nat): (hi: nat)
    requires lo <= |s|
    ensures lo <= hi <= |s|
    ensures forall j :: hi <= j < |s| ==> IsSpace(s[j])
    ensures lo < hi ==> !IsSpace(s[hi - 1])
    decreases |s|
  {
    if |s| == lo || !IsSpace(s[|s| - 1]) then |s| else TrailingStart(s[..|s| - 1], lo)
  }

  /**
   * ft_strtrim(s, ISSPACE): the infix of s left once whitespace is removed
   * from both ends.
   */
  function Trim(s: string): (t: string)
    ensures t == s[LeadingBlanks(s)..TrailingStart(s, LeadingBlanks(s))]
    ensures t != [] ==> !IsSpace(t[0]) && !IsSpace(t[|t| - 1])
  {
    s[LeadingBlanks(s)..TrailingStart(s, LeadingBlanks(s))]
  }

  lemma TrimPreservesCString(s: string)
    requires IsCString(s)
    ensures IsCString(Trim(s))
  {
    var lo := LeadingBlanks(s);
    var t := Trim(s);
    forall k | 0 <= k < |t| ensures t[k] != NUL {
      assert t[k] == s[lo + k];
    }
  }

  /** The trimmed line starts at the first non-blank character of the line. */
  lemma TrimStartsAtFirstNonBlank(s: string, k: nat)
    requires k < |s| && !IsSpace(s[k])
    requires forall j :: 0 <= j < k ==> IsSpace(s[j])
    ensures Trim(s) != [] && Trim(s)[0] == s[k]
  {
    var lo := LeadingBlanks(s);
    assert lo == k;
  }

  /** A line made only of whitespace trims to the empty string. */
  lemma TrimBlank(s: string)
    requires forall j :: 0 <= j < |s| ==> IsSpace(s[j])
    ensures Trim(s) == []
  {
  }
}
