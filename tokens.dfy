/**
 * Tokens as the tokenizer produces them and the tree builder consumes them
 * (t_token of includes/minishell.h, which is not part of this model: only
 * the kinds the modelled code mentions appear here).
 */
module Tokens {
  /** EXEC, PIPE, INFILE, OUTFILE, APPEND, HEREDOC, EXPORT and EXPORT_AP. */
  datatype TokenType = Exec | Pipe | Infile | Outfile | Append | Heredoc | Export | ExportAppend

  datatype Token = Token(kind: TokenType, value: string)

  /** The four redirection operators. */
  predicate IsRedirection(k: TokenType) {
    k == Infile || k == Outfile || k == Append || k == Heredoc
  }

  /** The kinds whose values become command arguments. */
  predicate IsArgument(k: TokenType) {
    k == Exec || k == Export || k == ExportAppend
  }

  /** The values of a token list, in order. */
  function Values(ts: seq<Token>): (vs: seq<string>)
    ensures |vs| == |ts|
    ensures forall k :: 0 <= k < |ts| ==> vs[k] == ts[k].value
  {
    seq(|ts|, k requires 0 <= k < |ts| => ts[k].value)
  }

  /** The tokens with values vs, each typed by `classify`. */
  function Typed(vs: seq<string>, classify: string -> TokenType): (ts: seq<Token>)
    ensures Values(ts) == vs
    ensures forall k :: 0 <= k < |ts| ==> ts[k].kind == classify(ts[k].value)
  {
    seq(|vs|, k requires 0 <= k < |vs| => Token(classify(vs[k]), vs[k]))
  }

  lemma TypedAppend(a: seq<string>, b: seq<string>, classify: string -> TokenType)
    ensures Typed(a + b, classify) == Typed(a, classify) + Typed(b, classify)
  {
  }
}
