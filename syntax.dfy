/**
 * The syntax validator (srcs/tokenize/ft_validate_syntax.c).
 *
 * The line is trimmed, its first character is screened, and then a scan
 * walks it left to right with a `special` flag that is set by an operator
 * and cleared by an operand. The scan is `ValidateSyntax`; `Validate` is the
 * same scan as a function, and `Acceptable` is an independent description of
 * the accepted lines, proved equivalent in `ValidateAcceptsExactly`.
 */
module Syntax {
  import opened Wrappers
  import opened CStr
  import opened Quotes

  /** The diagnostics the validator prints (their wording is not modelled). */
  datatype Diag =
    | UnexpectedToken(c: char)       // "syntax error near unexpected token `c'"
    | UnsupportedExpansion(c: char)  // "expansion is not supported `$c'"

  /** ft_validate_syntax's answer (1 or 0) together with what it printed. */
  datatype Verdict = Accept | Reject(diag: Option<Diag>)

  /** ft_iterate_str's answer: -1 with what it printed, or the next index and flag. */
  datatype Step = Fail(diag: Option<Diag>) | Next(i: nat, special: bool)

  /**
   * ft_is_invalid_first_char: None when the line may start with c, otherwise
   * the rejection; a comment is rejected without a diagnostic.
   */
  function FirstCharRejection(c: char): (r: Option<Option<Diag>>)
    ensures r == Some(None) <==> c == '#'
    ensures r.Some? && r.value.Some? ==> r.value.value == UnexpectedToken(c)
    ensures r.None? ==> c != NUL && !IsSpecial(c) && c != '|'
    ensures c == '<' || c == '>' ==> r.None?
    ensures c == '%' || c == '~' || c == NUL || IsSpecial(c) || c == '|' ==> r == Some(Some(UnexpectedToken(c)))
    ensures c != '#' && c != '%' && c != '~' && c != NUL && !IsSpecial(c) && c != '|' ==> r.None?
  {
    if c == '#' then Some(None)
    else if c == '%' || c == '~' then Some(Some(UnexpectedToken(c)))
    else if (StrChr(SPECIALCHARS, c) || StrChr(METACHARS, c)) && c != '<' && c != '>' then
      Some(Some(UnexpectedToken(c)))
    else None
  }

  /**
   * ft_iterate_str: skips a quoted span whole (which clears the flag), then
   * refuses a special character, or an operator while one is pending; a
   * doubled `<` or `>` is consumed as one operator.
   */
  function IterateStr(t: string, i: nat, special: bool): (r: Step)
    requires i < |t|
    ensures r.Next? ==> i <= r.i < |t|
  {
    var (k, sp) := if IsQuote(t[i]) then (FindNextQuote(t, i, t[i]), false) else (i, special);
    if k == -1 then Fail(None)
    else if StrChr(SPECIALCHARS, t[k]) then Fail(Some(UnexpectedToken(t[k])))
    else if StrChr(METACHARS, t[k]) then
      if sp then Fail(Some(UnexpectedToken(t[k])))
      else if (t[k] == '<' || t[k] == '>') && At(t, k + 1) == t[k] then Next(k + 1, true)
      else Next(k, true)
    else Next(k, sp)
  }

  /** The main loop of ft_validate_syntax from index i of the trimmed line t, as a function. */
  function Scan(s: string, t: string, i: nat, special: bool): Verdict
    requires i <= |t|
    decreases |t| - i
  {
    if i == |t| then
      if special then Reject(Some(UnexpectedToken(At(t, i - 1)))) else Accept
    else match IterateStr(t, i, special)
      case Fail(d) => Reject(d)
      case Next(j, sp) =>
        var sp' := if t[j] != NUL && !IsSpace(t[j]) && !StrChr(METACHARS, t[j]) then false else sp;
        if t[j] == '$' && StrChr(NON_EXPANDABLE, At(t, j + 1)) then
          // the source prints the character of the untrimmed line at that index
          Reject(Some(UnsupportedExpansion(At(s, j + 1))))
        else Scan(s, t, j + 1, sp')
  }

  /** ft_validate_syntax as a function of the line. */
  function Validate(s: string): Verdict {
    var t := Trim(s);
    match FirstCharRejection(At(t, 0))
    case Some(d) => Reject(d)
    case None => Scan(s, t, 0, false)
  }

  /** ft_validate_syntax: 1 (Accept) or 0 (Reject) for the line s. */
  method ValidateSyntax(s: string) returns (v: Verdict)
    requires IsCString(s)
    ensures v == Validate(s)
  {
    var trim := Trim(s);
    TrimPreservesCString(s);
    var i: nat := 0;
    var rejection := FirstCharRejection(At(trim, i));
    if rejection.Some? {
      return Reject(rejection.value);
    }
    var special := false;
    while At(trim, i) != NUL
      invariant i <= |trim|
      invariant Scan(s, trim, i, special) == Validate(s)
      decreases |trim| - i
    {
      var st := IterateStr(trim, i, special);
      if st.Fail? {
        return Reject(st.diag);
      }
      i, special := st.i, st.special;
      if At(trim, i) != NUL && !IsSpace(trim[i]) && !StrChr(METACHARS, trim[i]) {
        special := false;
      }
      if At(trim, i) == '$' && StrChr(NON_EXPANDABLE, At(trim, i + 1)) {
        return Reject(Some(UnsupportedExpansion(At(s, i + 1))));
      }
      if At(trim, i) != NUL {
        i := i + 1;
      }
    }
    if special {
      return Reject(Some(UnexpectedToken(At(trim, i - 1))));
    }
    return Accept;
  }

  // ---------------------------------------------------------------------
  // An independent description of the accepted lines

  /** From m on, after blanks only, comes an operand: a character that is not an operator. */
  predicate OperandAfter(t: string, m: nat)
    decreases |t| - m
  {
    m < |t| && (if IsSpace(t[m]) then OperandAfter(t, m + 1) else !IsMeta(t[m]))
  }

  /** Index just past the operator that starts at k: `<<` and `>>` are one operator. */
  function OpEnd(t: string, k: nat): nat
    requires k < |t|
  {
    if (t[k] == '<' || t[k] == '>') && At(t, k + 1) == t[k] then k + 2 else k + 1
  }

  /** `$` followed by a character that cannot be expanded, or by the end of the line. */
  predicate BadExpansion(t: string, k: nat)
    requires k < |t|
  {
    t[k] == '$' && StrChr(NON_EXPANDABLE, At(t, k + 1))
  }

  /** What every character outside quotes must satisfy. */
  predicate UnquotedOk(t: string, k: nat)
    requires k < |t|
  {
    && !IsSpecial(t[k])
    && !BadExpansion(t, k)
    && (IsMeta(t[k]) ==> OperandAfter(t, OpEnd(t, k)))
  }

  /** The trimmed lines the validator accepts. */
  predicate Acceptable(t: string) {
    && FirstCharRejection(At(t, 0)).None?
    && Balanced(t)
    && forall k | k in Unquoted(t, 0) :: UnquotedOk(t, k)
  }

  /** One step of the scan over a quoted span: skipped whole, or an unclosed quote. */
  lemma ScanQuote(s: string, t: string, i: nat, sp: bool)
    requires i < |t| && IsQuote(t[i])
    ensures var j := FindNextQuote(t, i, t[i]);
      && (j == -1 ==> Scan(s, t, i, sp) == Reject(None))
      && (j != -1 ==> Scan(s, t, i, sp) == Scan(s, t, j + 1, false))
  {
    var j := FindNextQuote(t, i, t[i]);
    if j != -1 {
      ClassesDisjoint(t[j]);
    }
  }

  /** One step of the scan over an operator: refused while one is pending. */
  lemma ScanMeta(s: string, t: string, i: nat, sp: bool)
    requires i < |t| && IsMeta(t[i])
    ensures sp ==> Scan(s, t, i, sp) == Reject(Some(UnexpectedToken(t[i])))
    ensures !sp ==> Scan(s, t, i, sp) == Scan(s, t, OpEnd(t, i), true)
  {
    ClassesDisjoint(t[i]);
    if !sp && OpEnd(t, i) == i + 2 {
      ClassesDisjoint(t[i + 1]);
    }
  }

  /** One step of the scan over a special character: always refused. */
  lemma ScanSpecial(s: string, t: string, i: nat, sp: bool)
    requires i < |t| && IsSpecial(t[i])
    ensures Scan(s, t, i, sp) == Reject(Some(UnexpectedToken(t[i])))
  {
    ClassesDisjoint(t[i]);
  }

  /** One step of the scan over a blank: the flag is kept. */
  lemma ScanSpace(s: string, t: string, i: nat, sp: bool)
    requires i < |t| && IsSpace(t[i])
    ensures Scan(s, t, i, sp) == Scan(s, t, i + 1, sp)
  {
    ClassesDisjoint(t[i]);
  }

  /** One step of the scan over any other character: an operand, which clears the flag. */
  lemma ScanOperand(s: string, t: string, i: nat, sp: bool)
    requires i < |t| && t[i] != NUL
    requires !IsQuote(t[i]) && !IsMeta(t[i]) && !IsSpecial(t[i]) && !IsSpace(t[i])
    ensures BadExpansion(t, i) ==> Scan(s, t, i, sp) == Reject(Some(UnsupportedExpansion(At(s, i + 1))))
    ensures !BadExpansion(t, i) ==> Scan(s, t, i, sp) == Scan(s, t, i + 1, false)
  {
    ClassesDisjoint(t[i]);
  }

  /** What an accepting scan from i guarantees about the rest of the line. */
  lemma {:induction false} ScanAccepted(s: string, t: string, i: nat, sp: bool)
    requires i <= |t| && IsCString(t)
    requires Scan(s, t, i, sp) == Accept
    ensures ClosedFrom(t, i)
    ensures sp ==> OperandAfter(t, i)
    ensures forall k | k in Unquoted(t, i) :: UnquotedOk(t, k)
    decreases |t| - i, 1
  {
    if i < |t| {
      ClassesDisjoint(t[i]);
      if IsQuote(t[i]) {
        ScanAcceptedQuote(s, t, i, sp);
      } else if IsMeta(t[i]) {
        ScanAcceptedMeta(s, t, i, sp);
      } else if IsSpecial(t[i]) {
        ScanSpecial(s, t, i, sp);
      } else {
        ScanAcceptedPlain(s, t, i, sp);
      }
    }
  }

  /** ScanAccepted at a quote: the span is skipped and the rest is accepted. */
  lemma {:induction false} ScanAcceptedQuote(s: string, t: string, i: nat, sp: bool)
    requires i < |t| && IsCString(t) && IsQuote(t[i])
    requires Scan(s, t, i, sp) == Accept
    ensures ClosedFrom(t, i)
    ensures forall k | k in Unquoted(t, i) :: UnquotedOk(t, k)
    decreases |t| - i, 0
  {
    var j := FindNextQuote(t, i, t[i]);
    assert j != -1 && Scan(s, t, j + 1, false) == Accept by {
      ScanQuote(s, t, i, sp);
    }
    ScanAccepted(s, t, j + 1, false);
    UnquotedStep(t, i);
    forall k | k in Unquoted(t, i)
      ensures UnquotedOk(t, k)
    {
      assert k in Unquoted(t, j + 1);
    }
  }

  /** ScanAccepted at an operator: no operator is pending, and an operand follows it. */
  lemma {:induction false} ScanAcceptedMeta(s: string, t: string, i: nat, sp: bool)
    requires i < |t| && IsCString(t) && IsMeta(t[i])
    requires Scan(s, t, i, sp) == Accept
    ensures !sp && ClosedFrom(t, i)
    ensures forall k | k in Unquoted(t, i) :: UnquotedOk(t, k)
    decreases |t| - i, 0
  {
    ClassesDisjoint(t[i]);
    ScanMeta(s, t, i, sp);
    UnquotedStep(t, i);
    var e := OpEnd(t, i);
    ScanAccepted(s, t, e, true);
    assert UnquotedOk(t, i);
    if e == i + 2 {
      ClassesDisjoint(t[i + 1]);
      UnquotedStep(t, i + 1);
      assert OpEnd(t, i + 1) == i + 2 by {
        if i + 2 < |t| {
          ClassesDisjoint(t[i + 2]);
        }
      }
      assert UnquotedOk(t, i + 1);
      assert Unquoted(t, i) == {i, i + 1} + Unquoted(t, e);
    } else {
      assert Unquoted(t, i) == {i} + Unquoted(t, e);
    }
  }

  /** ScanAccepted at a blank or an operand: one character is consumed. */
  lemma {:induction false} ScanAcceptedPlain(s: string, t: string, i: nat, sp: bool)
    requires i < |t| && IsCString(t) && !IsQuote(t[i]) && !IsMeta(t[i]) && !IsSpecial(t[i])
    requires Scan(s, t, i, sp) == Accept
    ensures ClosedFrom(t, i)
    ensures sp ==> OperandAfter(t, i)
    ensures forall k | k in Unquoted(t, i) :: UnquotedOk(t, k)
    decreases |t| - i, 0
  {
    ClassesDisjoint(t[i]);
    UnquotedStep(t, i);
    if IsSpace(t[i]) {
      ScanSpace(s, t, i, sp);
      ScanAccepted(s, t, i + 1, sp);
    } else {
      ScanOperand(s, t, i, sp);
      ScanAccepted(s, t, i + 1, false);
    }
    assert UnquotedOk(t, i);
  }

  /** Conversely, a scan from i accepts whenever the rest of the line is acceptable. */
  lemma {:induction false} ScanAcceptsWhen(s: string, t: string, i: nat, sp: bool)
    requires i <= |t| && IsCString(t)
    requires ClosedFrom(t, i)
    requires sp ==> OperandAfter(t, i)
    requires forall k | k in Unquoted(t, i) :: UnquotedOk(t, k)
    ensures Scan(s, t, i, sp) == Accept
    decreases |t| - i
  {
    if i < |t| {
      ClassesDisjoint(t[i]);
      UnquotedStep(t, i);
      if IsQuote(t[i]) {
        ScanQuote(s, t, i, sp);
        var j := FindNextQuote(t, i, t[i]);
        ScanAcceptsWhen(s, t, j + 1, false);
      } else if IsMeta(t[i]) {
        assert i in Unquoted(t, i);
        ScanMeta(s, t, i, sp);
        var e := OpEnd(t, i);
        if e == i + 2 {
          ClassesDisjoint(t[i + 1]);
          UnquotedStep(t, i + 1);
        }
        ScanAcceptsWhen(s, t, e, true);
      } else {
        assert i in Unquoted(t, i);
        if IsSpace(t[i]) {
          ScanSpace(s, t, i, sp);
          ScanAcceptsWhen(s, t, i + 1, sp);
        } else {
          ScanOperand(s, t, i, sp);
          ScanAcceptsWhen(s, t, i + 1, false);
        }
      }
    }
  }

  /** The validator accepts a line exactly when its trimmed form is acceptable. */
  lemma ValidateAcceptsExactly(s: string)
    requires IsCString(s)
    ensures Validate(s) == Accept <==> Acceptable(Trim(s))
  {
    var t := Trim(s);
    TrimPreservesCString(s);
    if Validate(s) == Accept {
      ScanAccepted(s, t, 0, false);
    }
    if Acceptable(t) {
      ScanAcceptsWhen(s, t, 0, false);
    }
  }

  /** A comment line is refused without a diagnostic. */
  lemma CommentLineRejectedSilently(s: string, k: nat)
    requires k < |s| && s[k] == '#'
    requires forall j :: 0 <= j < k ==> IsSpace(s[j])
    ensures Validate(s) == Reject(None)
  {
    TrimStartsAtFirstNonBlank(s, k);
  }

  /** A line whose first non-blank character may not start a command is refused with that character. */
  lemma FirstCharRejected(s: string, k: nat)
    requires k < |s| && !IsSpace(s[k])
    requires forall j :: 0 <= j < k ==> IsSpace(s[j])
    requires FirstCharRejection(s[k]).Some?
    ensures Validate(s) == Reject(FirstCharRejection(s[k]).value)
  {
    TrimStartsAtFirstNonBlank(s, k);
  }

  /**
   * A blank line is refused with a diagnostic naming the terminator:
   * ft_strchr finds NUL in every class.
   */
  lemma BlankLineRejected(s: string)
    requires forall j :: 0 <= j < |s| ==> IsSpace(s[j])
    ensures Validate(s) == Reject(Some(UnexpectedToken(NUL)))
  {
    TrimBlank(s);
  }

  /** A quote left open is never accepted. */
  lemma UnclosedQuoteRejected(s: string)
    requires IsCString(s) && !Balanced(Trim(s))
    ensures Validate(s) != Accept
  {
    ValidateAcceptsExactly(s);
  }

  /** A special character outside quotes is never accepted. */
  lemma UnquotedSpecialRejected(s: string, k: nat)
    requires IsCString(s) && k in Unquoted(Trim(s), 0) && IsSpecial(Trim(s)[k])
    ensures Validate(s) != Accept
  {
    ValidateAcceptsExactly(s);
  }

  /** `$` outside quotes before a character that cannot start a name, or at the end, is never accepted. */
  lemma UnsupportedExpansionRejected(s: string, k: nat)
    requires IsCString(s) && k in Unquoted(Trim(s), 0) && BadExpansion(Trim(s), k)
    ensures Validate(s) != Accept
  {
    ValidateAcceptsExactly(s);
  }

  /** Blanks from a up to an operator at m: no operand follows a. */
  lemma {:induction false} BlanksThenOperator(t: string, a: nat, m: nat)
    requires a <= m < |t| && IsMeta(t[m])
    requires forall j :: a <= j < m ==> IsSpace(t[j])
    ensures !OperandAfter(t, a)
    decreases m - a
  {
    if a < m {
      BlanksThenOperator(t, a + 1, m);
    }
  }

  /**
   * Two operators outside quotes separated only by blanks are never
   * accepted; with m == OpEnd(t, k) this covers `<<<`, `>>>`, `|>` and `||`.
   */
  lemma AdjacentOperatorsRejected(s: string, k: nat, m: nat)
    requires IsCString(s)
    requires k in Unquoted(Trim(s), 0) && IsMeta(Trim(s)[k])
    requires OpEnd(Trim(s), k) <= m < |Trim(s)| && IsMeta(Trim(s)[m])
    requires forall j :: OpEnd(Trim(s), k) <= j < m ==> IsSpace(Trim(s)[j])
    ensures Validate(s) != Accept
  {
    BlanksThenOperator(Trim(s), OpEnd(Trim(s), k), m);
    ValidateAcceptsExactly(s);
  }

  /** In a balanced line whose last character is not a quote, that character is outside quotes. */
  lemma {:induction false} LastUnquoted(t: string, i: nat)
    requires i < |t| && ClosedFrom(t, i) && !IsQuote(t[|t| - 1])
    ensures |t| - 1 in Unquoted(t, i)
    decreases |t| - i
  {
    UnquotedStep(t, i);
    if IsQuote(t[i]) {
      LastUnquoted(t, FindNextQuote(t, i, t[i]) + 1);
    } else if i < |t| - 1 {
      LastUnquoted(t, i + 1);
    }
  }

  /** A line that ends with an operator is never accepted. */
  lemma DanglingOperatorRejected(s: string)
    requires IsCString(s) && Trim(s) != [] && IsMeta(Trim(s)[|Trim(s)| - 1])
    ensures Validate(s) != Accept
  {
    var t := Trim(s);
    ValidateAcceptsExactly(s);
    ClassesDisjoint(t[|t| - 1]);
    if Balanced(t) {
      LastUnquoted(t, 0);
      assert !OperandAfter(t, OpEnd(t, |t| - 1));
    }
  }
}
