/**
 * The tokenizer (srcs/tokenize/ft_create_token_list.c).
 *
 * `ProcessTokens` is the character loop; `Lex` is the same split as a
 * function. Independently of how `Lex` is computed, `LexKeepsAllButBlanks`
 * shows that the tokens spell the line with exactly its unquoted blanks
 * removed, and `LexShapes` that every token is one operator or one word
 * with no unquoted blank or operator inside. `LexSegments` places the
 * tokens in the line, and `LexIsOnlySegmentation` shows that no other list
 * of words and operators cuts the line at blanks and operator characters.
 */
module Tokenizer {
  import opened CStr
  import opened Quotes
  import opened Tokens
  import Syntax

  /**
   * Lines the loop is defined on: a C string with its quotes closed, not
   * ending in `<` or `>` (ft_handle_metachar would read the terminator as a
   * second operator character and the loop would run past it).
   */
  predicate LexReady(s: string) {
    && IsCString(s)
    && Balanced(s)
    && (s != [] ==> s[|s| - 1] != '<' && s[|s| - 1] != '>')
  }

  /** End of the operator token starting at i: `<` or `>` absorbs a following operator character. */
  function MetaEnd(s: string, i: nat): (e: nat)
    requires LexReady(s) && i < |s| && IsMeta(s[i])
    ensures i < e <= |s|
  {
    if (s[i] == '<' || s[i] == '>') && i + 1 < |s| && IsMeta(s[i + 1]) then i + 2 else i + 1
  }

  /** The pending word becomes a token unless it is empty (a NULL `value`). */
  function Flush(v: string): seq<string> {
    if v == [] then [] else [v]
  }

  /** The token values the loop produces from index i with pending word v. */
  function LexFrom(s: string, i: nat, v: string): seq<string>
    requires LexReady(s) && i <= |s| && ClosedFrom(s, i)
    decreases |s| - i
  {
    if i == |s| then Flush(v)
    else
    ClassesDisjoint(s[i]);
    if IsSpace(s[i]) then Flush(v) + LexFrom(s, i + 1, [])
    else if IsMeta(s[i]) then
      var e := MetaEnd(s, i);
      ClassesDisjoint(s[e - 1]);
      ClosedFromPlain(s, i);
      ClosedFromPlain(s, e - 1);
      Flush(v) + [s[i..e]] + LexFrom(s, e, [])
    else if IsQuote(s[i]) then
      var j := FindNextQuote(s, i, s[i]);
      LexFrom(s, j + 1, v + s[i..j + 1])
    else LexFrom(s, i + 1, v + [s[i]])
  }

  /** The token values of the line s. */
  function Lex(s: string): seq<string>
    requires LexReady(s)
  {
    LexFrom(s, 0, [])
  }

  /** LexFrom at a blank: the pending word is flushed. */
  lemma {:induction false} LexBlank(s: string, i: nat, v: string, done: seq<string>)
    requires LexReady(s) && i < |s| && ClosedFrom(s, i) && IsSpace(s[i])
    ensures ClosedFrom(s, i + 1)
    ensures done + LexFrom(s, i, v) == (done + Flush(v)) + LexFrom(s, i + 1, [])
  {
    ClassesDisjoint(s[i]);
  }

  /** LexFrom at an operator: the pending word, then the operator. */
  lemma {:induction false} LexOperator(s: string, i: nat, v: string, done: seq<string>)
    requires LexReady(s) && i < |s| && ClosedFrom(s, i) && IsMeta(s[i])
    ensures ClosedFrom(s, MetaEnd(s, i))
    ensures done + LexFrom(s, i, v) == (done + Flush(v) + [s[i..MetaEnd(s, i)]]) + LexFrom(s, MetaEnd(s, i), [])
  {
    ClassesDisjoint(s[i]);
    ClassesDisjoint(s[MetaEnd(s, i) - 1]);
    ClosedFromPlain(s, i);
    ClosedFromPlain(s, MetaEnd(s, i) - 1);
  }

  /** LexFrom at a quote: the whole span joins the pending word. */
  lemma {:induction false} LexQuote(s: string, i: nat, v: string)
    requires LexReady(s) && i < |s| && ClosedFrom(s, i) && IsQuote(s[i])
    ensures FindNextQuote(s, i, s[i]) != -1
    ensures ClosedFrom(s, FindNextQuote(s, i, s[i]) + 1)
    ensures LexFrom(s, i, v) == LexFrom(s, FindNextQuote(s, i, s[i]) + 1, v + s[i..FindNextQuote(s, i, s[i]) + 1])
  {
    ClassesDisjoint(s[i]);
  }

  /** LexFrom at any other character: it joins the pending word. */
  lemma {:induction false} LexPlain(s: string, i: nat, v: string)
    requires LexReady(s) && i < |s| && ClosedFrom(s, i)
    requires !IsSpace(s[i]) && !IsMeta(s[i]) && !IsQuote(s[i])
    ensures ClosedFrom(s, i + 1)
    ensures LexFrom(s, i, v) == LexFrom(s, i + 1, v + [s[i]])
  {
  }

  /**
   * ft_add_to_token_list (not part of this model) as its call sites use it:
   * a non-empty pending word becomes a token typed by `classify`; an empty
   * one (a NULL `value`) adds nothing.
   */
  method AddToTokenList(tokens: seq<Token>, value: string, classify: string -> TokenType)
    returns (tokens': seq<Token>)
    ensures tokens' == tokens + Typed(Flush(value), classify)
  {
    tokens' := tokens;
    if value != [] {
      tokens' := tokens + [Token(classify(value), value)];
    }
  }

  /** ft_handle_quotes: copies the quoted span starting at i, both quotes included. */
  method HandleQuotes(value: string, s: string, i: nat, quote: char) returns (value': string, j: nat)
    requires i < |s| && s[i] == quote && FindNextQuote(s, i, quote) != -1
    ensures j == FindNextQuote(s, i, quote)
    ensures value' == value + s[i..j + 1]
  {
    ghost var close := FindNextQuote(s, i, quote);
    value' := value + [s[i]];
    j := i + 1;
    while s[j] != quote
      invariant i < j <= close
      invariant FindNextQuote(s, j - 1, quote) == close
      invariant value' == value + s[i..j]
      decreases close - j
    {
      value' := value' + [s[j]];
      j := j + 1;
    }
    value' := value' + [s[j]];
  }

  /**
   * ft_handle_metachar: the operator token at i and the index of its last
   * character.
   */
  method HandleMetachar(s: string, i: nat, tokens: seq<Token>, classify: string -> TokenType)
    returns (tokens': seq<Token>, last: nat)
    requires LexReady(s) && i < |s| && IsMeta(s[i])
    ensures last + 1 == MetaEnd(s, i)
    ensures tokens' == tokens + Typed([s[i..last + 1]], classify)
  {
    var value := [s[i]];
    last := i;
    if (s[i] == '>' || s[i] == '<') && StrChr(METACHARS, At(s, i + 1)) {
      value := value + [s[i + 1]];
      last := i + 1;
    }
    assert value == s[i..last + 1] && Flush(value) == [value];
    tokens' := AddToTokenList(tokens, value, classify);
  }

  /** One operator of the loop of ft_process_tokens: the word so far, then the operator, join `done`. */
  lemma {:induction false} OperatorStep(s: string, i: nat, v: string, done: seq<string>, classify: string -> TokenType)
    requires LexReady(s) && i < |s| && ClosedFrom(s, i) && IsMeta(s[i])
    ensures ClosedFrom(s, MetaEnd(s, i))
    ensures var done' := done + Flush(v) + [s[i..MetaEnd(s, i)]];
      && done + LexFrom(s, i, v) == done' + LexFrom(s, MetaEnd(s, i), [])
      && Typed(done', classify) == Typed(done, classify) + Typed(Flush(v), classify) + Typed([s[i..MetaEnd(s, i)]], classify)
  {
    LexOperator(s, i, v, done);
    TypedAppend(done, Flush(v), classify);
    TypedAppend(done + Flush(v), [s[i..MetaEnd(s, i)]], classify);
  }

  /**
   * One pass of the loop of ft_process_tokens at a character s[i] that is
   * not the terminator: the word grows, or an operator or a blank ends it.
   * `done` holds the values of the tokens added so far.
   */
  method ProcessChar(s: string, i: nat, value: string, tokens: seq<Token>, classify: string -> TokenType,
                     ghost done: seq<string>, ghost all: seq<string>)
    returns (i': nat, value': string, tokens': seq<Token>, ghost done': seq<string>)
    requires LexReady(s) && i < |s| && ClosedFrom(s, i)
    requires done + LexFrom(s, i, value) == all && tokens == Typed(done, classify)
    ensures i < i' <= |s| && ClosedFrom(s, i')
    ensures done' + LexFrom(s, i', value') == all && tokens' == Typed(done', classify)
  {
    i', value', tokens', done' := i, value, tokens, done;
    if !IsSpace(s[i']) {
      i', value', tokens', done' := ProcessNonBlank(s, i', value', tokens', classify, done', all);
    } else {
      LexBlank(s, i', value', done');
      TypedAppend(done', Flush(value'), classify);
      done' := done' + Flush(value');
    }
    if IsSpace(s[i']) && value' != [] {
      tokens' := AddToTokenList(tokens', value', classify);
      value' := [];
    }
    i' := i' + 1;
  }

  /**
   * The part of one pass of the loop of ft_process_tokens at a character
   * that is not a blank: an operator ends the word, a quoted span or any
   * other character joins it. The index ends on the last character used.
   */
  method ProcessNonBlank(s: string, i: nat, value: string, tokens: seq<Token>, classify: string -> TokenType,
                         ghost done: seq<string>, ghost all: seq<string>)
    returns (last: nat, value': string, tokens': seq<Token>, ghost done': seq<string>)
    requires LexReady(s) && i < |s| && ClosedFrom(s, i) && !IsSpace(s[i])
    requires done + LexFrom(s, i, value) == all && tokens == Typed(done, classify)
    ensures i <= last < |s| && !IsSpace(s[last]) && ClosedFrom(s, last + 1)
    ensures done' + LexFrom(s, last + 1, value') == all && tokens' == Typed(done', classify)
  {
    last, value', tokens', done' := i, value, tokens, done;
    ClassesDisjoint(s[i]);
    if StrChr(METACHARS, s[i]) {
      OperatorStep(s, i, value, done, classify);
      tokens' := AddToTokenList(tokens, value, classify);
      done' := done + Flush(value) + [s[i..MetaEnd(s, i)]];
      value' := [];
      tokens', last := HandleMetachar(s, i, tokens', classify);
    } else if s[i] == SQUOTE || s[i] == DQUOTE {
      LexQuote(s, i, value);
      value', last := HandleQuotes(value, s, i, s[i]);
    } else {
      LexPlain(s, i, value);
      value' := value + [s[i]];
    }
    ClassesDisjoint(s[last]);
  }

  /**
   * ft_process_tokens: appends one token per value of `Lex(s)`, each typed
   * by `classify` (ft_add_to_token_list, which is not part of this model).
   */
  method ProcessTokens(s: string, classify: string -> TokenType) returns (tokens: seq<Token>)
    requires LexReady(s)
    ensures tokens == Typed(Lex(s), classify)
  {
    var i: nat := 0;
    var value: string := [];
    tokens := [];
    ghost var done: seq<string> := [];
    ghost var all := Lex(s);
    while At(s, i) != NUL
      invariant i <= |s| && ClosedFrom(s, i)
      invariant done + LexFrom(s, i, value) == all
      invariant tokens == Typed(done, classify)
      decreases |s| - i
    {
      i, value, tokens, done := ProcessChar(s, i, value, tokens, classify, done, all);
    }
    TypedAppend(done, Flush(value), classify);
    tokens := AddToTokenList(tokens, value, classify);
  }

  // ---------------------------------------------------------------------
  // Nothing but unquoted blanks is dropped

  /** The token values joined end to end. */
  function Concat(ws: seq<string>): string {
    if ws == [] then [] else ws[0] + Concat(ws[1..])
  }

  lemma {:induction false} ConcatAppend(a: seq<string>, b: seq<string>)
    ensures Concat(a + b) == Concat(a) + Concat(b)
  {
    if a == [] {
      assert a + b == b;
    } else {
      assert (a + b)[1..] == a[1..] + b;
      ConcatAppend(a[1..], b);
    }
  }

  /** s from i on, without the characters at the positions in `gone`. */
  function Erase(s: string, i: nat, gone: set<nat>): string
    decreases |s| - i
  {
    if i >= |s| then [] else (if i in gone then [] else [s[i]]) + Erase(s, i + 1, gone)
  }

  /** The positions of blanks outside quotes, from i on. */
  function Blanks(s: string, i: nat): set<nat> {
    set k | k in Unquoted(s, i) && IsSpace(s[k])
  }

  lemma {:induction false} EraseAgree(s: string, i: nat, g: set<nat>, h: set<nat>)
    requires forall k :: i <= k < |s| ==> (k in g <==> k in h)
    ensures Erase(s, i, g) == Erase(s, i, h)
    decreases |s| - i
  {
    if i < |s| {
      EraseAgree(s, i + 1, g, h);
    }
  }

  lemma {:induction false} EraseKeep(s: string, i: nat, j: nat, g: set<nat>)
    requires i <= j <= |s|
    requires forall k :: i <= k < j ==> k !in g
    ensures Erase(s, i, g) == s[i..j] + Erase(s, j, g)
    decreases j - i
  {
    if i < j {
      calc {
        Erase(s, i, g);
        [s[i]] + Erase(s, i + 1, g);
        { EraseKeep(s, i + 1, j, g); }
        [s[i]] + (s[i + 1..j] + Erase(s, j, g));
        { assert s[i..j] == [s[i]] + s[i + 1..j]; }
        s[i..j] + Erase(s, j, g);
      }
    }
  }

  /** Erasing the unquoted blanks from i, one character or one quoted span at a time. */
  lemma {:induction false} EraseStep(s: string, i: nat)
    requires i < |s|
    ensures !IsQuote(s[i]) ==>
      Erase(s, i, Blanks(s, i)) == (if IsSpace(s[i]) then [] else [s[i]]) + Erase(s, i + 1, Blanks(s, i + 1))
    ensures IsQuote(s[i]) && FindNextQuote(s, i, s[i]) != -1 ==>
      var q := FindNextQuote(s, i, s[i]);
      Erase(s, i, Blanks(s, i)) == s[i..q + 1] + Erase(s, q + 1, Blanks(s, q + 1))
  {
    UnquotedStep(s, i);
    if IsQuote(s[i]) {
      var q := FindNextQuote(s, i, s[i]);
      if q != -1 {
        assert Blanks(s, i) == Blanks(s, q + 1);
        EraseKeep(s, i, q + 1, Blanks(s, i));
      }
    } else {
      EraseAgree(s, i + 1, Blanks(s, i), Blanks(s, i + 1));
    }
  }

  lemma {:induction false} ConcatFlush(v: string, rest: seq<string>)
    ensures Concat(Flush(v) + rest) == v + Concat(rest)
  {
    ConcatAppend(Flush(v), rest);
    assert Concat(Flush(v)) == v;
  }

  lemma {:induction false} ConcatFlushOp(v: string, op: string, rest: seq<string>)
    ensures Concat(Flush(v) + [op] + rest) == v + op + Concat(rest)
  {
    ConcatAppend(Flush(v) + [op], rest);
    ConcatFlush(v, [op]);
    assert Concat([op]) == op;
  }

  /** The operator's characters are kept by Erase: operators are not blanks. */
  lemma {:induction false} EraseOperator(s: string, i: nat)
    requires LexReady(s) && i < |s| && IsMeta(s[i])
    ensures Erase(s, i, Blanks(s, i)) == s[i..MetaEnd(s, i)] + Erase(s, MetaEnd(s, i), Blanks(s, MetaEnd(s, i)))
  {
    var e := MetaEnd(s, i);
    ClassesDisjoint(s[i]);
    EraseStep(s, i);
    if e == i + 2 {
      ClassesDisjoint(s[i + 1]);
      EraseStep(s, i + 1);
      KeepTwo(Erase(s, i, Blanks(s, i)), Erase(s, i + 1, Blanks(s, i + 1)), Erase(s, e, Blanks(s, e)), s, i);
    } else {
      assert s[i..e] == [s[i]];
    }
  }

  /** Two characters kept one after the other are the slice they form. */
  lemma {:induction false} KeepTwo(x: string, y: string, z: string, s: string, i: nat)
    requires i + 2 <= |s|
    requires x == (if IsSpace(s[i]) then [] else [s[i]]) + y && !IsSpace(s[i])
    requires y == (if IsSpace(s[i + 1]) then [] else [s[i + 1]]) + z && !IsSpace(s[i + 1])
    ensures x == s[i..i + 2] + z
  {
    assert s[i..i + 2] == [s[i]] + [s[i + 1]];
  }

  /** From index i with pending word v, the tokens spell v and then the rest without its unquoted blanks. */
  lemma {:induction false} LexKeepsFrom(s: string, i: nat, v: string)
    requires LexReady(s) && i <= |s| && ClosedFrom(s, i)
    ensures Concat(LexFrom(s, i, v)) == v + Erase(s, i, Blanks(s, i))
    decreases |s| - i, 1
  {
    if i == |s| {
      assert Concat(Flush(v)) == v;
    } else {
      ClassesDisjoint(s[i]);
      if IsSpace(s[i]) {
        LexKeepsBlank(s, i, v);
      } else if IsMeta(s[i]) {
        LexKeepsOperator(s, i, v);
      } else if IsQuote(s[i]) {
        LexKeepsQuote(s, i, v);
      } else {
        LexKeepsPlain(s, i, v);
      }
    }
  }

  /** LexKeepsFrom at a blank: the word is flushed and the blank erased. */
  lemma {:induction false} LexKeepsBlank(s: string, i: nat, v: string)
    requires LexReady(s) && i < |s| && ClosedFrom(s, i) && IsSpace(s[i])
    ensures Concat(LexFrom(s, i, v)) == v + Erase(s, i, Blanks(s, i))
    decreases |s| - i, 0
  {
    ClassesDisjoint(s[i]);
    LexBlank(s, i, v, []);
    EraseStep(s, i);
    LexKeepsFrom(s, i + 1, []);
    SpellBlank(LexFrom(s, i, v), LexFrom(s, i + 1, []), v, Erase(s, i + 1, Blanks(s, i + 1)), Erase(s, i, Blanks(s, i)));
  }

  /** The spelling of a flushed word and the rest, the blank between them gone. */
  lemma {:induction false} SpellBlank(lex: seq<string>, rest: seq<string>, v: string, tail: string, whole: string)
    requires [] + lex == ([] + Flush(v)) + rest
    requires Concat(rest) == [] + tail
    requires whole == [] + tail
    ensures Concat(lex) == v + whole
  {
    assert [] + lex == lex;
    assert [] + Flush(v) == Flush(v);
    ConcatFlush(v, rest);
  }

  /** LexKeepsFrom at an operator: the word is flushed and the operator kept. */
  lemma {:induction false} LexKeepsOperator(s: string, i: nat, v: string)
    requires LexReady(s) && i < |s| && ClosedFrom(s, i) && IsMeta(s[i])
    ensures Concat(LexFrom(s, i, v)) == v + Erase(s, i, Blanks(s, i))
    decreases |s| - i, 0
  {
    var e := MetaEnd(s, i);
    LexOperator(s, i, v, []);
    LexKeepsFrom(s, e, []);
    EraseOperator(s, i);
    SpellOperator(LexFrom(s, i, v), LexFrom(s, e, []), v, s[i..e], Erase(s, e, Blanks(s, e)), Erase(s, i, Blanks(s, i)));
  }

  /** The spelling of a flushed word, an operator and the rest. */
  lemma {:induction false} SpellOperator(lex: seq<string>, rest: seq<string>, v: string, op: string, tail: string, whole: string)
    requires [] + lex == ([] + Flush(v) + [op]) + rest
    requires Concat(rest) == [] + tail
    requires whole == op + tail
    ensures Concat(lex) == v + whole
  {
    assert [] + lex == lex;
    assert [] + Flush(v) + [op] == Flush(v) + [op];
    ConcatFlushOp(v, op, rest);
  }

  /** LexKeepsFrom at a quote: the whole span joins the word and is kept. */
  lemma {:induction false} LexKeepsQuote(s: string, i: nat, v: string)
    requires LexReady(s) && i < |s| && ClosedFrom(s, i) && IsQuote(s[i])
    ensures Concat(LexFrom(s, i, v)) == v + Erase(s, i, Blanks(s, i))
    decreases |s| - i, 0
  {
    var q := FindNextQuote(s, i, s[i]);
    LexQuote(s, i, v);
    var span := s[i..q + 1];
    LexKeepsFrom(s, q + 1, v + span);
    EraseStep(s, i);
    SpellJoined(LexFrom(s, i, v), LexFrom(s, q + 1, v + span), v, span, Erase(s, q + 1, Blanks(s, q + 1)), Erase(s, i, Blanks(s, i)));
  }

  /** LexKeepsFrom at any other character: it joins the word and is kept. */
  lemma {:induction false} LexKeepsPlain(s: string, i: nat, v: string)
    requires LexReady(s) && i < |s| && ClosedFrom(s, i)
    requires !IsSpace(s[i]) && !IsMeta(s[i]) && !IsQuote(s[i])
    ensures Concat(LexFrom(s, i, v)) == v + Erase(s, i, Blanks(s, i))
    decreases |s| - i, 0
  {
    LexPlain(s, i, v);
    LexKeepsFrom(s, i + 1, v + [s[i]]);
    EraseStep(s, i);
    SpellJoined(LexFrom(s, i, v), LexFrom(s, i + 1, v + [s[i]]), v, [s[i]], Erase(s, i + 1, Blanks(s, i + 1)), Erase(s, i, Blanks(s, i)));
  }

  /** The spelling of a word that grew by `part`, and the rest. */
  lemma {:induction false} SpellJoined(lex: seq<string>, later: seq<string>, v: string, part: string, tail: string, whole: string)
    requires lex == later
    requires Concat(later) == (v + part) + tail
    requires whole == part + tail
    ensures Concat(lex) == v + whole
  {
  }

  /**
   * The tokens, joined in order, are the line with its blanks outside quotes
   * removed: nothing else is dropped, added or reordered.
   */
  lemma {:induction false} LexKeepsAllButBlanks(s: string)
    requires LexReady(s)
    ensures Concat(Lex(s)) == Erase(s, 0, Blanks(s, 0))
  {
    LexKeepsFrom(s, 0, []);
  }

  // ---------------------------------------------------------------------
  // Every token is an operator or a word

  /** From i on, w is a word: closed quoted spans and characters that are neither blanks nor operators. */
  predicate WordFrom(w: string, i: nat)
    decreases |w| - i
  {
    if i >= |w| then true
    else if IsQuote(w[i]) then
      var q := FindNextQuote(w, i, w[i]);
      q != -1 && WordFrom(w, q + 1)
    else !IsSpace(w[i]) && !IsMeta(w[i]) && WordFrom(w, i + 1)
  }

  /** A word token: blanks and operator characters occur in it only inside quotes. */
  predicate IsWord(w: string) {
    w != [] && WordFrom(w, 0)
  }

  /** An operator token: one operator character, or `<`/`>` followed by one. */
  predicate IsOperator(w: string) {
    || (|w| == 1 && IsMeta(w[0]))
    || (|w| == 2 && (w[0] == '<' || w[0] == '>') && IsMeta(w[1]))
  }

  /** A word stays a word when followed by a text that is a word on its own. */
  lemma {:induction false} WordExtend(v: string, x: string, i: nat)
    requires i <= |v| && WordFrom(v, i) && WordFrom(v + x, |v|)
    ensures WordFrom(v + x, i)
    decreases |v| - i
  {
    if i < |v| {
      var w := v + x;
      if IsQuote(v[i]) {
        var q := FindNextQuote(v, i, v[i]);
        assert v[i + 1..q + 1] == w[i + 1..q + 1];
        FindNextQuoteTransfer(v, i, w, i, v[i], q - i);
        WordExtend(v, x, q + 1);
      } else {
        WordExtend(v, x, i + 1);
      }
    }
  }

  /** A quoted span closed by the last character is a word. */
  lemma {:induction false} ClosingSpanIsWord(w: string, a: nat)
    requires a < |w| && IsQuote(w[a]) && FindNextQuote(w, a, w[a]) == |w| - 1
    ensures WordFrom(w, a)
  {
  }

  /** A quoted span s[i..q + 1] of the line, copied after v, still closes at its last character. */
  lemma {:induction false} SpanCopyCloses(v: string, s: string, i: nat, q: nat, w: string)
    requires i < q < |s| && FindNextQuote(s, i, s[i]) == q
    requires w == v + s[i..q + 1]
    ensures |v| < |w| && w[|v|] == s[i]
    ensures FindNextQuote(w, |v|, s[i]) == |w| - 1
  {
    var span := s[i..q + 1];
    SpanCloses(s, i, q);
    FindNextQuoteShift(span, v, 0, s[i]);
  }

  /** The span s[i..q + 1] on its own closes at its last character. */
  lemma {:induction false} SpanCloses(s: string, i: nat, q: nat)
    requires i < q < |s| && FindNextQuote(s, i, s[i]) == q
    ensures FindNextQuote(s[i..q + 1], 0, s[i]) == q - i
  {
    var span := s[i..q + 1];
    assert s[i + 1..i + (q - i) + 1] == span[0 + 1..0 + (q - i) + 1];
    FindNextQuoteTransfer(s, i, span, 0, s[i], q - i);
  }

  /** The pending word stays a word when a quoted span of the line joins it. */
  lemma {:induction false} WordAddSpan(v: string, s: string, i: nat)
    requires i < |s| && IsQuote(s[i]) && FindNextQuote(s, i, s[i]) != -1
    requires WordFrom(v, 0)
    ensures WordFrom(v + s[i..FindNextQuote(s, i, s[i]) + 1], 0)
  {
    var q := FindNextQuote(s, i, s[i]);
    var span := s[i..q + 1];
    CopiedSpanIsWord(v, s, i, q);
    WordExtend(v, span, 0);
  }

  /** A quoted span s[i..q + 1] of the line, copied after v, is a word on its own. */
  lemma {:induction false} CopiedSpanIsWord(v: string, s: string, i: nat, q: nat)
    requires i < q < |s| && IsQuote(s[i]) && FindNextQuote(s, i, s[i]) == q
    ensures WordFrom(v + s[i..q + 1], |v|)
  {
    var w := v + s[i..q + 1];
    SpanCopyCloses(v, s, i, q, w);
    ClosingSpanIsWord(w, |v|);
  }

  /** From index i with a pending word v, every token is a word or an operator. */
  lemma {:induction false} LexShapesFrom(s: string, i: nat, v: string)
    requires LexReady(s) && i <= |s| && ClosedFrom(s, i) && WordFrom(v, 0)
    ensures forall w | w in LexFrom(s, i, v) :: IsWord(w) || IsOperator(w)
    decreases |s| - i
  {
    if i < |s| {
      ClassesDisjoint(s[i]);
      if IsSpace(s[i]) {
        LexBlank(s, i, v, []);
        LexShapesFrom(s, i + 1, []);
      } else if IsMeta(s[i]) {
        LexOperator(s, i, v, []);
        LexShapesFrom(s, MetaEnd(s, i), []);
      } else if IsQuote(s[i]) {
        LexQuote(s, i, v);
        WordAddSpan(v, s, i);
        LexShapesFrom(s, FindNextQuote(s, i, s[i]) + 1, v + s[i..FindNextQuote(s, i, s[i]) + 1]);
      } else {
        LexPlain(s, i, v);
        WordExtend(v, [s[i]], 0);
        LexShapesFrom(s, i + 1, v + [s[i]]);
      }
    }
  }

  /**
   * Every token is a word, in which blanks and operator characters occur
   * only inside quotes, or a single operator, where `|` is always alone.
   */
  lemma {:induction false} LexShapes(s: string)
    requires LexReady(s)
    ensures forall w | w in Lex(s) :: IsWord(w) || IsOperator(w)
  {
    LexShapesFrom(s, 0, []);
  }

  // ---------------------------------------------------------------------
  // Where the tokens lie in the line, and why no other split fits

  /** The stretch s[start..end] of the line that a token was cut from. */
  datatype Span = Span(start: nat, end: nat)

  /** A word may end before position e: the line ends there, or a blank or an operator character follows. */
  predicate EndsAt(s: string, e: nat) {
    e >= |s| || IsSpace(s[e]) || IsMeta(s[e])
  }

  /** The characters that can start a two-character operator. */
  predicate IsRedirect(c: char) {
    c == '<' || c == '>'
  }

  /** No span covers position j. */
  predicate Outside(sp: seq<Span>, j: nat) {
    forall k :: 0 <= k < |sp| ==> !(sp[k].start <= j < sp[k].end)
  }

  /** The spans are non-empty, lie in s from `from` on, and come in order without overlapping. */
  predicate InOrder(s: string, sp: seq<Span>, from: nat) {
    && (forall k :: 0 <= k < |sp| ==> from <= sp[k].start < sp[k].end <= |s|)
    && (forall k, l :: 0 <= k < l < |sp| ==> sp[k].end <= sp[l].start)
  }

  /** Every character from `from` on that no span covers is a blank. */
  predicate GapsBlank(s: string, sp: seq<Span>, from: nat) {
    forall j :: from <= j < |s| && Outside(sp, j) ==> IsSpace(s[j])
  }

  /**
   * Each span is as long as it can be: one that does not start at an
   * operator character stops only where a word may end, and one that is a
   * single `<` or `>` is not followed by an operator character.
   */
  predicate Maximal(s: string, sp: seq<Span>) {
    && (forall k :: 0 <= k < |sp| && sp[k].start < |s| && !IsMeta(s[sp[k].start]) ==> EndsAt(s, sp[k].end))
    && (forall k :: 0 <= k < |sp| && sp[k].end == sp[k].start + 1 < |s| && IsRedirect(s[sp[k].start]) ==> !IsMeta(s[sp[k].end]))
  }

  /** Spans that cut the line from `from` on into tokens. */
  predicate Cuts(s: string, sp: seq<Span>, from: nat) {
    InOrder(s, sp, from) && GapsBlank(s, sp, from) && Maximal(s, sp)
  }

  /** The text of each span, in order. */
  function Texts(s: string, sp: seq<Span>): (ws: seq<string>)
    requires forall k :: 0 <= k < |sp| ==> sp[k].start <= sp[k].end <= |s|
    ensures |ws| == |sp|
  {
    if sp == [] then [] else [s[sp[0].start..sp[0].end]] + Texts(s, sp[1..])
  }

  /** The tokens ws lie in s, from index `from` on, at the spans sp. */
  predicate Segmented(s: string, ws: seq<string>, sp: seq<Span>, from: nat) {
    Cuts(s, sp, from) && ws == Texts(s, sp)
  }

  /** A span placed before spans that cut the rest, with blanks around it. */
  lemma {:induction false} CutsCons(s: string, a: nat, e: nat, sp: seq<Span>, from: nat, b: nat)
    requires Cuts(s, sp, b)
    requires from <= a < e <= b <= |s|
    requires forall j :: from <= j < a ==> IsSpace(s[j])
    requires forall j :: e <= j < b ==> IsSpace(s[j])
    requires !IsMeta(s[a]) ==> EndsAt(s, e)
    requires e == a + 1 < |s| && IsRedirect(s[a]) ==> !IsMeta(s[e])
    ensures Cuts(s, [Span(a, e)] + sp, from)
  {
    InOrderCons(s, a, e, sp, from, b);
    GapsBlankCons(s, a, e, sp, from, b);
    MaximalCons(s, a, e, sp);
  }

  lemma {:induction false} InOrderCons(s: string, a: nat, e: nat, sp: seq<Span>, from: nat, b: nat)
    requires InOrder(s, sp, b) && from <= a < e <= b <= |s|
    ensures InOrder(s, [Span(a, e)] + sp, from)
  {
    var sp' := [Span(a, e)] + sp;
    assert forall k :: 0 < k < |sp'| ==> sp'[k] == sp[k - 1];
  }

  lemma {:induction false} GapsBlankCons(s: string, a: nat, e: nat, sp: seq<Span>, from: nat, b: nat)
    requires GapsBlank(s, sp, b) && from <= a < e <= b <= |s|
    requires forall j :: from <= j < a ==> IsSpace(s[j])
    requires forall j :: e <= j < b ==> IsSpace(s[j])
    ensures GapsBlank(s, [Span(a, e)] + sp, from)
  {
    var sp' := [Span(a, e)] + sp;
    forall j | from <= j < |s| && Outside(sp', j)
      ensures IsSpace(s[j])
    {
      if b <= j {
        forall k | 0 <= k < |sp|
          ensures !(sp[k].start <= j < sp[k].end)
        {
          assert sp'[k + 1] == sp[k];
        }
      } else {
        assert !(sp'[0].start <= j < sp'[0].end);
      }
    }
  }

  lemma {:induction false} MaximalCons(s: string, a: nat, e: nat, sp: seq<Span>)
    requires Maximal(s, sp) && a < e <= |s|
    requires !IsMeta(s[a]) ==> EndsAt(s, e)
    requires e == a + 1 < |s| && IsRedirect(s[a]) ==> !IsMeta(s[e])
    ensures Maximal(s, [Span(a, e)] + sp)
  {
    var sp' := [Span(a, e)] + sp;
    assert forall k :: 0 < k < |sp'| ==> sp'[k] == sp[k - 1];
  }

  /** Blanks before spans that cut the rest. */
  lemma {:induction false} CutsSkip(s: string, sp: seq<Span>, from: nat, b: nat)
    requires Cuts(s, sp, b) && from <= b <= |s|
    requires forall j :: from <= j < b ==> IsSpace(s[j])
    ensures Cuts(s, sp, from)
  {
  }

  /** The spans after the first cut the line from the end of the first on. */
  lemma {:induction false} CutsTail(s: string, sp: seq<Span>, from: nat)
    requires Cuts(s, sp, from) && sp != []
    ensures Cuts(s, sp[1..], sp[0].end)
  {
    var rest := sp[1..];
    forall j | sp[0].end <= j < |s| && Outside(rest, j)
      ensures IsSpace(s[j])
    {
      forall k | 0 <= k < |sp|
        ensures !(sp[k].start <= j < sp[k].end)
      {
        if k > 0 {
          assert rest[k - 1] == sp[k];
        }
      }
    }
  }

  /** One token s[a..e] placed before tokens segmented from e on. */
  lemma {:induction false} SegmentedCons(s: string, a: nat, e: nat, later: seq<string>, rest: seq<Span>)
    requires a < e <= |s| && Segmented(s, later, rest, e)
    requires !IsMeta(s[a]) ==> EndsAt(s, e)
    requires e == a + 1 < |s| && IsRedirect(s[a]) ==> !IsMeta(s[e])
    ensures Segmented(s, [s[a..e]] + later, [Span(a, e)] + rest, a)
  {
    var sp := [Span(a, e)] + rest;
    CutsCons(s, a, e, rest, a, e);
    assert sp[1..] == rest;
  }

  /** The pending word s[p..i], if any, flushed where a word may end, before a rest segmented from b. */
  lemma {:induction false} SegmentedFlush(s: string, p: nat, i: nat, b: nat, lex: seq<string>, later: seq<string>, rest: seq<Span>)
    requires p <= i <= b <= |s| && Segmented(s, later, rest, b)
    requires forall j :: i <= j < b ==> IsSpace(s[j])
    requires EndsAt(s, i) && (p < i ==> !IsMeta(s[p]))
    requires [] + lex == ([] + Flush(s[p..i])) + later
    ensures Segmented(s, lex, (if p < i then [Span(p, i)] else []) + rest, p)
  {
    CutsSkip(s, rest, i, b);
    if p < i {
      SegmentedFlushWord(s, p, i, lex, later, rest);
    } else {
      assert s[p..i] == [];
      assert lex == [] + lex == ([] + []) + later == later;
      assert [] + rest == rest;
    }
  }

  /** SegmentedFlush when there is a pending word. */
  lemma {:induction false} SegmentedFlushWord(s: string, p: nat, i: nat, lex: seq<string>, later: seq<string>, rest: seq<Span>)
    requires p < i <= |s| && Segmented(s, later, rest, i)
    requires EndsAt(s, i) && !IsMeta(s[p])
    requires [] + lex == ([] + Flush(s[p..i])) + later
    ensures Segmented(s, lex, [Span(p, i)] + rest, p)
  {
    assert [] + lex == lex && [] + Flush(s[p..i]) == Flush(s[p..i]) == [s[p..i]];
    SegmentedCons(s, p, i, later, rest);
  }

  /** Concatenation regroups. */
  lemma {:induction false} ConcatAssoc<T>(a: seq<T>, b: seq<T>, c: seq<T>)
    ensures (a + b) + c == a + (b + c)
  {
  }

  /** The pending word s[p..i], if any, flushed at the blank s[i]. */
  lemma {:induction false} SegmentedFlushBlank(s: string, p: nat, i: nat, lex: seq<string>, later: seq<string>, rest: seq<Span>)
    requires p <= i < |s| && IsSpace(s[i]) && Segmented(s, later, rest, i + 1)
    requires p < i ==> !IsMeta(s[p])
    requires [] + lex == ([] + Flush(s[p..i])) + later
    ensures Segmented(s, lex, (if p < i then [Span(p, i)] else []) + rest, p)
  {
    SegmentedFlush(s, p, i, i + 1, lex, later, rest);
  }

  /** The pending word s[p..i], if any, flushed before the operator s[i..e]. */
  lemma {:induction false} SegmentedFlushOperator(s: string, p: nat, i: nat, e: nat, lex: seq<string>, later: seq<string>, rest: seq<Span>)
    requires p <= i < e <= |s| && IsMeta(s[i]) && Segmented(s, later, rest, e)
    requires e == i + 1 < |s| && IsRedirect(s[i]) ==> !IsMeta(s[e])
    requires p < i ==> !IsMeta(s[p])
    requires [] + lex == ([] + Flush(s[p..i]) + [s[i..e]]) + later
    ensures Segmented(s, lex, (if p < i then [Span(p, i)] else []) + ([Span(i, e)] + rest), p)
  {
    SegmentedCons(s, i, e, later, rest);
    assert [] + lex == ([] + Flush(s[p..i])) + ([s[i..e]] + later) by {
      ConcatAssoc([] + Flush(s[p..i]), [s[i..e]], later);
    }
    SegmentedFlush(s, p, i, i, lex, [s[i..e]] + later, [Span(i, e)] + rest);
  }

  /**
   * From index i, with the pending word v == s[p..i], the tokens LexFrom
   * yields are segmented from p on.
   */
  lemma {:induction false} SegmentFrom(s: string, p: nat, i: nat, v: string) returns (sp: seq<Span>)
    requires LexReady(s) && p <= i <= |s| && ClosedFrom(s, i) && v == s[p..i]
    requires p < i ==> !IsMeta(s[p])
    ensures Segmented(s, LexFrom(s, i, v), sp, p)
    decreases |s| - i, 1
  {
    if i == |s| {
      sp := SegmentEnd(s, p, v);
    } else {
      ClassesDisjoint(s[i]);
      if IsSpace(s[i]) {
        sp := SegmentBlank(s, p, i, v);
      } else if IsMeta(s[i]) {
        sp := SegmentOperator(s, p, i, v);
      } else if IsQuote(s[i]) {
        sp := SegmentQuote(s, p, i, v);
      } else {
        sp := SegmentPlain(s, p, i, v);
      }
    }
  }

  /** SegmentFrom at the end of the line: the pending word, if any, is the last token. */
  lemma {:induction false} SegmentEnd(s: string, p: nat, v: string) returns (sp: seq<Span>)
    requires LexReady(s) && p <= |s| && v == s[p..|s|]
    requires p < |s| ==> !IsMeta(s[p])
    ensures Segmented(s, LexFrom(s, |s|, v), sp, p)
  {
    SegmentedFlush(s, p, |s|, |s|, LexFrom(s, |s|, v), [], []);
    sp := (if p < |s| then [Span(p, |s|)] else []) + [];
  }

  /** SegmentFrom at a blank: the pending word, if any, ends there. */
  lemma {:induction false} SegmentBlank(s: string, p: nat, i: nat, v: string) returns (sp: seq<Span>)
    requires LexReady(s) && p <= i < |s| && ClosedFrom(s, i) && IsSpace(s[i]) && v == s[p..i]
    requires p < i ==> !IsMeta(s[p])
    ensures Segmented(s, LexFrom(s, i, v), sp, p)
    decreases |s| - i, 0
  {
    assert s[i + 1..i + 1] == [];
    var rest := SegmentFrom(s, i + 1, i + 1, []);
    LexBlank(s, i, v, []);
    SegmentedFlushBlank(s, p, i, LexFrom(s, i, v), LexFrom(s, i + 1, []), rest);
    sp := (if p < i then [Span(p, i)] else []) + rest;
  }

  /** SegmentFrom at an operator: the pending word, if any, then the operator. */
  lemma {:induction false} SegmentOperator(s: string, p: nat, i: nat, v: string) returns (sp: seq<Span>)
    requires LexReady(s) && p <= i < |s| && ClosedFrom(s, i) && IsMeta(s[i]) && v == s[p..i]
    requires p < i ==> !IsMeta(s[p])
    ensures Segmented(s, LexFrom(s, i, v), sp, p)
    decreases |s| - i, 0
  {
    var e := MetaEnd(s, i);
    assert s[e..e] == [];
    var rest := SegmentFrom(s, e, e, []);
    LexOperator(s, i, v, []);
    SegmentedFlushOperator(s, p, i, e, LexFrom(s, i, v), LexFrom(s, e, []), rest);
    sp := (if p < i then [Span(p, i)] else []) + ([Span(i, e)] + rest);
  }

  /** SegmentFrom at a quote: the quoted span joins the pending word. */
  lemma {:induction false} SegmentQuote(s: string, p: nat, i: nat, v: string) returns (sp: seq<Span>)
    requires LexReady(s) && p <= i < |s| && ClosedFrom(s, i) && IsQuote(s[i]) && v == s[p..i]
    requires p < i ==> !IsMeta(s[p])
    ensures Segmented(s, LexFrom(s, i, v), sp, p)
    decreases |s| - i, 0
  {
    var q := FindNextQuote(s, i, s[i]);
    ClassesDisjoint(s[i]);
    LexQuote(s, i, v);
    SliceJoin(s, p, i, q + 1);
    sp := SegmentFrom(s, p, q + 1, v + s[i..q + 1]);
  }

  /** SegmentFrom at any other character: it joins the pending word. */
  lemma {:induction false} SegmentPlain(s: string, p: nat, i: nat, v: string) returns (sp: seq<Span>)
    requires LexReady(s) && p <= i < |s| && ClosedFrom(s, i) && v == s[p..i]
    requires !IsSpace(s[i]) && !IsMeta(s[i]) && !IsQuote(s[i])
    requires p < i ==> !IsMeta(s[p])
    ensures Segmented(s, LexFrom(s, i, v), sp, p)
    decreases |s| - i, 0
  {
    LexPlain(s, i, v);
    SliceJoin(s, p, i, i + 1);
    assert s[i..i + 1] == [s[i]];
    sp := SegmentFrom(s, p, i + 1, v + [s[i]]);
  }

  /** Two adjacent slices of the line make one. */
  lemma {:induction false} SliceJoin(s: string, p: nat, i: nat, j: nat)
    requires p <= i <= j <= |s|
    ensures s[p..i] + s[i..j] == s[p..j]
  {
  }

  /**
   * Where the tokens lie in the line: each one is a stretch of it, in order,
   * with nothing but blanks between, and each is as long as it can be.
   */
  lemma {:induction false} LexSegments(s: string) returns (sp: seq<Span>)
    requires LexReady(s)
    ensures Segmented(s, Lex(s), sp, 0)
  {
    sp := SegmentFrom(s, 0, 0, []);
  }

  /** A token never starts with a blank, and its first character tells an operator from a word. */
  lemma {:induction false} TokenStart(w: string)
    requires IsWord(w) || IsOperator(w)
    ensures !IsSpace(w[0])
    ensures IsMeta(w[0]) ==> IsOperator(w)
    ensures !IsMeta(w[0]) ==> IsWord(w)
  {
    ClassesDisjoint(w[0]);
  }

  /** A word that is a proper prefix of another word is followed in it by neither a blank nor an operator character. */
  lemma {:induction false} WordPrefixNext(w: string, m: nat, i: nat)
    requires i <= m < |w| && WordFrom(w[..m], i) && WordFrom(w, i)
    ensures !IsSpace(w[m]) && !IsMeta(w[m])
    decreases m - i
  {
    var u := w[..m];
    if i == m {
      ClassesDisjoint(w[m]);
    } else {
      assert u[i] == w[i];
      if IsQuote(w[i]) {
        var q := FindNextQuote(u, i, w[i]);
        assert u[i + 1..q + 1] == w[i + 1..q + 1];
        FindNextQuoteTransfer(u, i, w, i, w[i], q - i);
        WordPrefixNext(w, m, q + 1);
      } else {
        WordPrefixNext(w, m, i + 1);
      }
    }
  }

  /** Every text is a word or an operator. */
  predicate Shaped(ws: seq<string>) {
    forall w | w in ws :: IsWord(w) || IsOperator(w)
  }

  /** The first text of a cut is its first span's, and is shaped when all are. */
  lemma {:induction false} FirstText(s: string, sp: seq<Span>, from: nat)
    requires Cuts(s, sp, from) && sp != [] && Shaped(Texts(s, sp))
    ensures Texts(s, sp)[0] == s[sp[0].start..sp[0].end]
    ensures IsWord(Texts(s, sp)[0]) || IsOperator(Texts(s, sp)[0])
    ensures Texts(s, sp)[0][0] == s[sp[0].start]
    ensures Texts(s, sp[1..]) == Texts(s, sp)[1..] && Shaped(Texts(s, sp[1..]))
  {
    assert Texts(s, sp)[0] in Texts(s, sp);
    assert forall w | w in Texts(s, sp)[1..] :: w in Texts(s, sp);
  }

  /** The first span of one cut does not start before the first span of another. */
  lemma {:induction false} FirstStartAgrees(s: string, sp: seq<Span>, sp': seq<Span>, from: nat)
    requires Cuts(s, sp, from) && Cuts(s, sp', from) && sp != [] && sp' != []
    requires Shaped(Texts(s, sp))
    ensures sp'[0].start <= sp[0].start
  {
    var a := sp[0].start;
    FirstText(s, sp, from);
    if a < sp'[0].start {
      assert Outside(sp', a);
      TokenStart(Texts(s, sp)[0]);
    }
  }

  /** Where an operator token starting at a ends: it takes a second character only after `<` or `>`. */
  lemma {:induction false} OperatorSpanEnd(s: string, a: nat, e: nat)
    requires a < e <= |s| && IsOperator(s[a..e])
    requires e == a + 1 < |s| && IsRedirect(s[a]) ==> !IsMeta(s[e])
    ensures e == if (s[a] == '<' || s[a] == '>') && a + 1 < |s| && IsMeta(s[a + 1]) then a + 2 else a + 1
  {
    assert s[a..e][0] == s[a];
    if e == a + 2 {
      assert s[a..e][1] == s[a + 1];
    }
  }

  /** A word token starting at a ends at the first place a word may end. */
  lemma {:induction false} WordSpanEnd(s: string, a: nat, e: nat, e': nat)
    requires a < e <= e' <= |s| && IsWord(s[a..e]) && IsWord(s[a..e']) && EndsAt(s, e)
    ensures e == e'
  {
    if e < e' {
      var w := s[a..e'];
      assert w[..e - a] == s[a..e];
      assert w[e - a] == s[e];
      WordPrefixNext(w, e - a, 0);
    }
  }

  /** Two cuts into words and operators agree on their first span. */
  lemma {:induction false} FirstSpanAgrees(s: string, sp: seq<Span>, sp': seq<Span>, from: nat)
    requires Cuts(s, sp, from) && Cuts(s, sp', from) && sp != [] && sp' != []
    requires Shaped(Texts(s, sp)) && Shaped(Texts(s, sp'))
    ensures sp[0] == sp'[0]
  {
    FirstStartAgrees(s, sp, sp', from);
    FirstStartAgrees(s, sp', sp, from);
    FirstText(s, sp, from);
    FirstText(s, sp', from);
    var a, e, e' := sp[0].start, sp[0].end, sp'[0].end;
    TokenStart(Texts(s, sp)[0]);
    TokenStart(Texts(s, sp')[0]);
    if IsMeta(s[a]) {
      OperatorSpanEnd(s, a, e);
      OperatorSpanEnd(s, a, e');
    } else if e <= e' {
      WordSpanEnd(s, a, e, e');
    } else {
      WordSpanEnd(s, a, e', e);
    }
  }

  /** Where one cut has no span left, the other has none either. */
  lemma {:induction false} NoSpansEither(s: string, sp: seq<Span>, sp': seq<Span>, from: nat)
    requires Cuts(s, sp, from) && Cuts(s, sp', from) && sp == []
    requires Shaped(Texts(s, sp'))
    ensures sp' == []
  {
    if sp' != [] {
      var a := sp'[0].start;
      FirstText(s, sp', from);
      assert Outside(sp, a);
      TokenStart(Texts(s, sp')[0]);
    }
  }

  /** Two cuts of the same line into words and operators are the same spans. */
  lemma {:induction false} CutsUnique(s: string, sp: seq<Span>, sp': seq<Span>, from: nat)
    requires Cuts(s, sp, from) && Cuts(s, sp', from)
    requires Shaped(Texts(s, sp)) && Shaped(Texts(s, sp'))
    ensures sp == sp'
    decreases |sp|
  {
    if sp == [] {
      NoSpansEither(s, sp, sp', from);
    } else if sp' == [] {
      NoSpansEither(s, sp', sp, from);
    } else {
      FirstSpanAgrees(s, sp, sp', from);
      assert sp[1..] == sp'[1..] by {
        FirstText(s, sp, from);
        FirstText(s, sp', from);
        CutsTail(s, sp, from);
        CutsTail(s, sp', from);
        CutsUnique(s, sp[1..], sp'[1..], sp[0].end);
      }
      SameHeadTail(sp, sp');
    }
  }

  lemma {:induction false} SameHeadTail<T>(xs: seq<T>, ys: seq<T>)
    requires xs != [] && ys != [] && xs[0] == ys[0] && xs[1..] == ys[1..]
    ensures xs == ys
  {
    assert xs == [xs[0]] + xs[1..];
    assert ys == [ys[0]] + ys[1..];
  }

  /**
   * `Lex(s)` is the only way to cut the line into words and operators that
   * lie in it as `Segmented` describes: unquoted blanks end a word, an
   * operator is a token of its own, and a quoted span is glued to what
   * touches it.
   */
  lemma {:induction false} LexIsOnlySegmentation(s: string, ws: seq<string>, sp: seq<Span>)
    requires LexReady(s)
    requires Segmented(s, ws, sp, 0) && Shaped(ws)
    ensures ws == Lex(s)
  {
    var lexed := LexSegments(s);
    LexShapes(s);
    CutsUnique(s, sp, lexed, 0);
  }

  /** A line the validator accepts, once trimmed, is one the tokenizer loop is defined on. */
  lemma {:induction false} AcceptedLineIsLexReady(s: string)
    requires IsCString(s) && Syntax.Validate(s) == Syntax.Accept
    ensures LexReady(Trim(s))
  {
    var t := Trim(s);
    TrimPreservesCString(s);
    Syntax.ValidateAcceptsExactly(s);
    if t != [] {
      ClassesDisjoint(t[|t| - 1]);
      if IsMeta(t[|t| - 1]) {
        Syntax.DanglingOperatorRejected(s);
      }
    }
  }

  /**
   * A line the validator accepts is, as it stands, one the tokenizer loop is
   * defined on: the blanks trimming removes open no quote, and a line ending
   * in `<` or `>` trims to one that ends in it too.
   */
  lemma {:induction false} AcceptedRawLineIsLexReady(s: string)
    requires IsCString(s) && Syntax.Validate(s) == Syntax.Accept
    ensures LexReady(s)
  {
    var lo := LeadingBlanks(s);
    var hi := TrailingStart(s, lo);
    var t := Trim(s);
    Syntax.ValidateAcceptsExactly(s);
    forall j | hi <= j < |s|
      ensures !IsQuote(s[j])
    {
      ClassesDisjoint(s[j]);
    }
    ClosedFromInside(t, 0, s, lo);
    forall j | 0 <= j < lo
      ensures !IsQuote(s[j])
    {
      ClassesDisjoint(s[j]);
    }
    ClosedFromBefore(s, 0, lo);
    if s != [] && (s[|s| - 1] == '<' || s[|s| - 1] == '>') {
      ClassesDisjoint(s[|s| - 1]);
      assert hi == |s|;
      assert t != [] && t[|t| - 1] == s[|s| - 1];
      Syntax.DanglingOperatorRejected(s);
    }
  }

  // ---------------------------------------------------------------------
  // Reclassifying `export`

  predicate IsExportKind(k: TokenType) {
    k == Export || k == ExportAppend
  }

  /** The kind token k ends up with: an export that does not start a command becomes EXEC. */
  function ReclassifiedKind(ts: seq<Token>, k: nat): TokenType
    requires k < |ts|
  {
    if IsExportKind(ts[k].kind) && k > 0 && ts[k - 1].kind != Pipe then Exec else ts[k].kind
  }

  /** The token list after ft_validate_export_tokens. */
  function ReclassifyExports(ts: seq<Token>): (r: seq<Token>)
    ensures |r| == |ts|
    ensures forall k :: 0 <= k < |ts| ==> r[k] == ts[k].(kind := ReclassifiedKind(ts, k))
  {
    seq(|ts|, k requires 0 <= k < |ts| => ts[k].(kind := ReclassifiedKind(ts, k)))
  }

  /**
   * ft_validate_export_tokens: walks the list with the previous node at
   * hand and rewrites the kind of each export token in place.
   */
  method ValidateExportTokens(list: array<Token>)
    modifies list
    ensures list[..] == ReclassifyExports(old(list[..]))
  {
    var pos := 0;
    while pos < list.Length
      invariant 0 <= pos <= list.Length
      invariant forall k :: 0 <= k < pos ==> list[k] == old(list[k]).(kind := ReclassifiedKind(old(list[..]), k))
      invariant forall k :: pos <= k < list.Length ==> list[k] == old(list[k])
    {
      if IsExportKind(list[pos].kind) && pos > 0 && list[pos - 1].kind != Pipe {
        list[pos] := list[pos].(kind := Exec);
      }
      pos := pos + 1;
    }
  }

  /** Only the kind of export tokens changes, and only to EXEC; values and order stay. */
  lemma {:induction false} ReclassifyOnlyExports(ts: seq<Token>)
    ensures Values(ReclassifyExports(ts)) == Values(ts)
    ensures forall k :: 0 <= k < |ts| && !IsExportKind(ts[k].kind) ==> ReclassifyExports(ts)[k] == ts[k]
    ensures forall k :: 0 <= k < |ts| && ReclassifyExports(ts)[k].kind != ts[k].kind ==>
      IsExportKind(ts[k].kind) && ReclassifyExports(ts)[k].kind == Exec
  {
    assert Values(ReclassifyExports(ts)) == Values(ts);
  }

  /**
   * Afterwards an export token either starts the list or follows a pipe, and
   * every export token that did so before keeps its kind.
   */
  lemma {:induction false} ReclassifiedExportsStartCommands(ts: seq<Token>)
    ensures var r := ReclassifyExports(ts);
      forall k :: 0 <= k < |r| && IsExportKind(r[k].kind) ==> k == 0 || r[k - 1].kind == Pipe
    ensures var r := ReclassifyExports(ts);
      forall k :: 0 <= k < |r| && IsExportKind(ts[k].kind) && (k == 0 || ts[k - 1].kind == Pipe) ==>
        r[k] == ts[k]
  {
    var r := ReclassifyExports(ts);
    forall k | 0 < k < |r| && IsExportKind(r[k].kind)
      ensures r[k - 1].kind == Pipe
    {
      assert r[k - 1].kind == ReclassifiedKind(ts, k - 1);
    }
  }

  /** Reclassifying twice changes nothing more. */
  lemma {:induction false} ReclassifyIdempotent(ts: seq<Token>)
    ensures ReclassifyExports(ReclassifyExports(ts)) == ReclassifyExports(ts)
  {
    var r := ReclassifyExports(ts);
    forall k | 0 < k < |r|
      ensures ReclassifiedKind(r, k) == r[k].kind
    {
      assert r[k - 1].kind == Pipe <==> ts[k - 1].kind == Pipe;
    }
    assert ReclassifyExports(r) == r;
  }

  /**
   * ft_create_token_list: the tokens of s, typed by `classify`, with exports
   * that do not start a command turned into EXEC.
   */
  method CreateTokenList(s: string, classify: string -> TokenType) returns (list: array<Token>)
    requires LexReady(s)
    ensures fresh(list)
    ensures list[..] == ReclassifyExports(Typed(Lex(s), classify))
  {
    var tokens := ProcessTokens(s, classify);
    list := new Token[|tokens|](k requires 0 <= k < |tokens| => tokens[k]);
    assert list[..] == tokens;
    ValidateExportTokens(list);
  }
}
