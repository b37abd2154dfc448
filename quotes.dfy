/**
 * Quoted spans, as both the validator and the tokenizer see them: a quote
 * character outside a span opens one, and the next occurrence of the same
 * character closes it.
 */
module Quotes {
  import opened CStr

  /**
   * ft_find_next_quote (its body is not part of this model): the index of the
   * first q strictly after i, or -1 when there is none.
   */
  function FindNextQuote(t: string, i: nat, q: char): (j: int)
    ensures j == -1 || (i < j < |t| && t[j] == q)
    decreases |t| - i
  {
    if i + 1 >= |t| then -1
    else if t[i + 1] == q then i + 1
    else FindNextQuote(t, i + 1, q)
  }

  /** No q lies strictly between i and the answer, or after i at all when the answer is -1. */
  lemma {:induction false} FindNextQuoteFirst(t: string, i: nat, q: char, k: nat)
    requires i < k < |t|
    requires FindNextQuote(t, i, q) == -1 || k < FindNextQuote(t, i, q)
    ensures t[k] != q
    decreases |t| - i
  {
    if k > i + 1 {
      FindNextQuoteFirst(t, i + 1, q, k);
    }
  }

  /** Every quoted span that opens at or after i is closed. */
  predicate ClosedFrom(t: string, i: nat)
    decreases |t| - i
  {
    if i >= |t| then true
    else if IsQuote(t[i]) then
      var j := FindNextQuote(t, i, t[i]);
      j != -1 && ClosedFrom(t, j + 1)
    else ClosedFrom(t, i + 1)
  }

  predicate Balanced(t: string) {
    ClosedFrom(t, 0)
  }

  /**
   * The positions from i on that lie outside every quoted span; the quote
   * characters that delimit a span are not among them, nor is anything after
   * a quote that is never closed.
   */
  function Unquoted(t: string, i: nat): (u: set<nat>)
    ensures forall k :: k in u ==> i <= k < |t| && !IsQuote(t[k])
    decreases |t| - i
  {
    if i >= |t| then {}
    else if IsQuote(t[i]) then
      var j := FindNextQuote(t, i, t[i]);
      if j == -1 then {} else Unquoted(t, j + 1)
    else {i} + Unquoted(t, i + 1)
  }

  /** Past a character that opens no quote, the rest is still balanced. */
  lemma ClosedFromPlain(t: string, i: nat)
    requires i < |t| && ClosedFrom(t, i) && !IsQuote(t[i])
    ensures ClosedFrom(t, i + 1)
  {
  }

  /**
   * The answer depends only on the characters up to it: a text that agrees
   * with t on them, at another offset, closes at the same distance.
   */
  lemma {:induction false} FindNextQuoteTransfer(t: string, i: nat, u: string, j: nat, q: char, n: nat)
    requires 1 <= n && i + n < |t| && j + n < |u|
    requires FindNextQuote(t, i, q) == i + n
    requires t[i + 1..i + n + 1] == u[j + 1..j + n + 1]
    ensures FindNextQuote(u, j, q) == j + n
    decreases n
  {
    assert t[i + 1] == t[i + 1..i + n + 1][0] == u[j + 1..j + n + 1][0] == u[j + 1];
    if n > 1 {
      assert t[i + 2..i + n + 1] == t[i + 1..i + n + 1][1..];
      assert u[j + 2..j + n + 1] == u[j + 1..j + n + 1][1..];
      FindNextQuoteTransfer(t, i + 1, u, j + 1, q, n - 1);
    }
  }

  /** Searching after a prefix v finds the same quote, shifted by |v|. */
  lemma {:induction false} FindNextQuoteShift(u: string, v: string, j: nat, q: char)
    requires j < |u|
    ensures FindNextQuote(v + u, |v| + j, q) == (if FindNextQuote(u, j, q) == -1 then -1 else |v| + FindNextQuote(u, j, q))
    decreases |u| - j
  {
    if j + 1 < |u| {
      assert (v + u)[|v| + j + 1] == u[j + 1];
      if u[j + 1] != q {
        FindNextQuoteShift(u, v, j + 1, q);
      }
    }
  }

  /** A text with no quote character from k on is closed from k. */
  lemma {:induction false} ClosedFromNoQuotes(t: string, k: nat)
    requires forall j :: k <= j < |t| ==> !IsQuote(t[j])
    ensures ClosedFrom(t, k)
    decreases |t| - k
  {
    if k < |t| {
      ClosedFromNoQuotes(t, k + 1);
    }
  }

  /** Characters that open no quote may come before a place the text is closed from. */
  lemma {:induction false} ClosedFromBefore(t: string, k: nat, m: nat)
    requires k <= m <= |t| && ClosedFrom(t, m)
    requires forall j :: k <= j < m ==> !IsQuote(t[j])
    ensures ClosedFrom(t, k)
    decreases m - k
  {
    if k < m {
      ClosedFromBefore(t, k + 1, m);
    }
  }

  /**
   * A text t closed from i, found at offset off inside u with no quote
   * character after it, leaves u closed from the same place.
   */
  lemma {:induction false} ClosedFromInside(t: string, i: nat, u: string, off: nat)
    requires i <= |t| && off + |t| <= |u| && u[off..off + |t|] == t && ClosedFrom(t, i)
    requires forall j :: off + |t| <= j < |u| ==> !IsQuote(u[j])
    ensures ClosedFrom(u, off + i)
    decreases |t| - i
  {
    if i == |t| {
      ClosedFromNoQuotes(u, off + i);
    } else {
      assert u[off + i] == t[i];
      if IsQuote(t[i]) {
        var j := FindNextQuote(t, i, t[i]);
        FindNextQuoteEmbed(t, i, u, off, j);
        ClosedFromInside(t, j + 1, u, off);
      } else {
        ClosedFromInside(t, i + 1, u, off);
      }
    }
  }

  /** A quote of t closing at j closes at the same place once t is found at offset off inside u. */
  lemma {:induction false} FindNextQuoteEmbed(t: string, i: nat, u: string, off: nat, j: int)
    requires i < j < |t| && off + |t| <= |u| && u[off..off + |t|] == t
    requires FindNextQuote(t, i, t[i]) == j
    ensures u[off + i] == t[i] && FindNextQuote(u, off + i, t[i]) == off + j
  {
    forall m | i <= m < j + 1
      ensures t[m] == u[off + m]
    {
      assert u[off..off + |t|][m] == u[off + m];
    }
    assert t[i + 1..j + 1] == u[off + i + 1..off + j + 1];
    FindNextQuoteTransfer(t, i, u, off + i, t[i], j - i);
  }

  /** The positions outside quotes from i on, one step at a time. */
  lemma UnquotedStep(t: string, i: nat)
    requires i < |t|
    ensures IsQuote(t[i]) && FindNextQuote(t, i, t[i]) != -1 ==>
      Unquoted(t, i) == Unquoted(t, FindNextQuote(t, i, t[i]) + 1)
    ensures !IsQuote(t[i]) ==> Unquoted(t, i) == {i} + Unquoted(t, i + 1)
  {
  }
}
