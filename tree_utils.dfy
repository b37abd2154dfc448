/**
 * Segment helpers of the tree builder (srcs/tokenize/ft_build_tree_utils.c).
 *
 * The token list is a sequence and a list cursor is an index into it; the
 * index |ts| stands for the NULL pointer past the last node. A NULL-terminated
 * `char **` vector is an `array?<string>` holding the entries, `null` for
 * NULL; the terminator itself is implicit in the array's length.
 */
module TreeUtils {
  import opened Tokens

  /** The entries of a vector; a NULL vector has none. */
  function Entries(vector: array?<string>): seq<string>
    reads vector
  {
    if vector == null then [] else vector[..]
  }

  /**
   * ft_add_to_vector: a fresh vector holding the old entries in order and then
   * new_str, one entry longer.
   */
  method AddToVector(vector: array?<string>, newStr: string) returns (res: array<string>)
    ensures fresh(res)
    ensures res[..] == Entries(vector) + [newStr]
    ensures res.Length == |Entries(vector)| + 1
  {
    var n := if vector == null then 0 else vector.Length;
    res := new string[n + 1];
    var i := 0;
    while i < n
      invariant 0 <= i <= n
      invariant forall k :: 0 <= k < i ==> res[k] == Entries(vector)[k]
      modifies res
    {
      res[i] := vector[i];
      i := i + 1;
    }
    res[i] := newStr;
  }

  /** Index of the first PIPE at or after i, or |ts| when there is none. */
  function SegmentEnd(ts: seq<Token>, i: nat): (e: nat)
    requires i <= |ts|
    ensures i <= e <= |ts|
    ensures forall k :: i <= k < e ==> ts[k].kind != Pipe
    ensures e < |ts| ==> ts[e].kind == Pipe
    decreases |ts| - i
  {
    if i == |ts| || ts[i].kind == Pipe then i else SegmentEnd(ts, i + 1)
  }

  /** The arguments ft_get_args collects from index i on. */
  function SegmentArgs(ts: seq<Token>, i: nat): seq<string>
    decreases |ts| - i
  {
    if i >= |ts| then []
    else match ts[i].kind
      case Exec | Export | ExportAppend => [ts[i].value] + SegmentArgs(ts, i + 1)
      case Infile | Outfile | Append | Heredoc =>
        if i + 1 < |ts| && ts[i + 1].kind != Pipe then SegmentArgs(ts, i + 2) else SegmentArgs(ts, i + 1)
      case Pipe => []
  }

  /**
   * ft_get_args: the argument vector of the command starting at `from`, NULL
   * when it has no arguments.
   */
  method GetArgs(ts: seq<Token>, from: nat) returns (args: array?<string>)
    ensures args == null <==> SegmentArgs(ts, from) == []
    ensures args != null ==> args[..] == SegmentArgs(ts, from) && fresh(args)
  {
    args := null;
    ghost var got: seq<string> := [];
    var curr := from;
    while curr < |ts|
      invariant got == Entries(args)
      invariant got + SegmentArgs(ts, curr) == SegmentArgs(ts, from)
      invariant args != null ==> args.Length > 0 && fresh(args)
      decreases |ts| - curr
    {
      var token := ts[curr];
      if IsArgument(token.kind) {
        args := AddToVector(args, token.value);
        got := got + [token.value];
      } else if IsRedirection(token.kind) {
        if curr + 1 < |ts| && ts[curr + 1].kind != Pipe {
          curr := curr + 1;
        }
      } else if token.kind == Pipe {
        break;
      }
      curr := curr + 1;
    }
  }

  /** No redirection token directly follows another, which the validator guarantees. */
  predicate NoAdjacentRedirections(ts: seq<Token>) {
    forall k :: 0 < k < |ts| ==> !(IsRedirection(ts[k - 1].kind) && IsRedirection(ts[k].kind))
  }

  /**
   * The values, from k up to end, of the argument tokens that do not directly
   * follow a redirection token inside the segment starting at lo.
   */
  function Unredirected(ts: seq<Token>, lo: nat, k: nat, end: nat): seq<string>
    requires end <= |ts|
    decreases end - k
  {
    if k >= end then []
    else
      (if IsArgument(ts[k].kind) && !(k > lo && IsRedirection(ts[k - 1].kind)) then [ts[k].value] else [])
      + Unredirected(ts, lo, k + 1, end)
  }

  lemma {:induction false} SegmentArgsFrom(ts: seq<Token>, i: nat, j: nat)
    requires i <= |ts| && i <= j <= SegmentEnd(ts, i) && NoAdjacentRedirections(ts)
    requires j == i || j == SegmentEnd(ts, i) || !IsRedirection(ts[j - 1].kind)
    ensures SegmentArgs(ts, j) == Unredirected(ts, i, j, SegmentEnd(ts, i))
    decreases |ts| - j, 1
  {
    if j < SegmentEnd(ts, i) {
      if IsRedirection(ts[j].kind) {
        SegmentArgsRedirection(ts, i, j);
      } else {
        SegmentArgsArgument(ts, i, j);
      }
    }
  }

  /** SegmentArgsFrom at a redirection: it and the word it names are skipped. */
  lemma {:induction false} SegmentArgsRedirection(ts: seq<Token>, i: nat, j: nat)
    requires i <= |ts| && i <= j < SegmentEnd(ts, i) && NoAdjacentRedirections(ts)
    requires j == i || !IsRedirection(ts[j - 1].kind)
    requires IsRedirection(ts[j].kind)
    ensures SegmentArgs(ts, j) == Unredirected(ts, i, j, SegmentEnd(ts, i))
    decreases |ts| - j, 0
  {
    var e := SegmentEnd(ts, i);
    UnredirectedSkip(ts, i, j, e);
    if j + 1 < |ts| && ts[j + 1].kind != Pipe {
      assert !IsRedirection(ts[j + 1].kind) by {
        assert !(IsRedirection(ts[j].kind) && IsRedirection(ts[j + 1].kind));
      }
      UnredirectedSkip(ts, i, j + 1, e);
      SegmentArgsFrom(ts, i, j + 2);
    } else {
      SegmentArgsFrom(ts, i, j + 1);
    }
  }

  /** A token that is not a kept argument adds nothing to Unredirected. */
  lemma UnredirectedSkip(ts: seq<Token>, lo: nat, k: nat, end: nat)
    requires k < end <= |ts|
    requires !IsArgument(ts[k].kind) || (k > lo && IsRedirection(ts[k - 1].kind))
    ensures Unredirected(ts, lo, k, end) == Unredirected(ts, lo, k + 1, end)
  {
    assert Unredirected(ts, lo, k, end) == [] + Unredirected(ts, lo, k + 1, end);
  }

  /** SegmentArgsFrom at an argument that no redirection names: its value is kept. */
  lemma {:induction false} SegmentArgsArgument(ts: seq<Token>, i: nat, j: nat)
    requires i <= |ts| && i <= j < SegmentEnd(ts, i) && NoAdjacentRedirections(ts)
    requires j == i || !IsRedirection(ts[j - 1].kind)
    requires !IsRedirection(ts[j].kind)
    ensures SegmentArgs(ts, j) == Unredirected(ts, i, j, SegmentEnd(ts, i))
    decreases |ts| - j, 0
  {
    assert SegmentArgs(ts, j) == [ts[j].value] + SegmentArgs(ts, j + 1);
    SegmentArgsFrom(ts, i, j + 1);
  }

  /**
   * Given no two adjacent redirections, ft_get_args yields, in order, the
   * values of the EXEC/EXPORT/EXPORT_AP tokens before the first PIPE except
   * the operand right after a redirection.
   */
  lemma ArgsAreUnredirectedArguments(ts: seq<Token>, i: nat)
    requires i <= |ts| && NoAdjacentRedirections(ts)
    ensures SegmentArgs(ts, i) == Unredirected(ts, i, i, SegmentEnd(ts, i))
  {
    SegmentArgsFrom(ts, i, i);
  }

  /** The tokens after the first PIPE have no bearing on the arguments. */
  lemma {:induction false} ArgsStopAtPipe(ts: seq<Token>, rest: seq<Token>, i: nat)
    requires i <= |ts| && SegmentEnd(ts, i) < |ts|
    ensures SegmentArgs(ts + rest, i) == SegmentArgs(ts, i)
    decreases |ts| - i
  {
    var u := ts + rest;
    assert u[i] == ts[i];
    if ts[i].kind != Pipe {
      if IsRedirection(ts[i].kind) && i + 1 < |ts| && ts[i + 1].kind != Pipe {
        assert u[i + 1] == ts[i + 1];
        ArgsStopAtPipe(ts, rest, i + 2);
      } else if IsRedirection(ts[i].kind) {
        assert u[i + 1] == ts[i + 1];
        ArgsStopAtPipe(ts, rest, i + 1);
      } else {
        ArgsStopAtPipe(ts, rest, i + 1);
      }
    }
  }

  /**
   * ft_find_next_pipe: on success the cursor is just past the first PIPE at
   * or after it; otherwise it is at the end (NULL).
   */
  method FindNextPipe(ts: seq<Token>, cur: nat) returns (found: bool, cur': nat)
    requires cur <= |ts|
    ensures found <==> SegmentEnd(ts, cur) < |ts|
    ensures found ==> cur' == SegmentEnd(ts, cur) + 1
    ensures !found ==> cur' == |ts|
  {
    cur' := cur;
    while cur' < |ts|
      invariant cur <= cur' <= |ts|
      invariant SegmentEnd(ts, cur') == SegmentEnd(ts, cur)
    {
      if ts[cur'].kind == Pipe {
        cur' := cur' + 1;
        return true, cur';
      }
      cur' := cur' + 1;
    }
    return false, cur';
  }

  /**
   * ft_find_next_redir: on success the cursor is at the first redirection
   * token before any PIPE; otherwise it stops at that PIPE, or at the end.
   */
  method FindNextRedir(ts: seq<Token>, cur: nat) returns (found: bool, cur': nat)
    requires cur <= |ts|
    ensures cur <= cur' <= SegmentEnd(ts, cur)
    ensures forall k :: cur <= k < cur' ==> !IsRedirection(ts[k].kind)
    ensures found ==> cur' < |ts| && IsRedirection(ts[cur'].kind)
    ensures !found ==> cur' == SegmentEnd(ts, cur)
  {
    cur' := cur;
    while cur' < |ts|
      invariant cur <= cur' <= SegmentEnd(ts, cur)
      invariant SegmentEnd(ts, cur') == SegmentEnd(ts, cur)
      invariant forall k :: cur <= k < cur' ==> !IsRedirection(ts[k].kind)
    {
      if ts[cur'].kind == Pipe {
        break;
      }
      if IsRedirection(ts[cur'].kind) {
        return true, cur';
      }
      cur' := cur' + 1;
    }
    return false, cur';
  }

  /**
   * ft_find_next_exec: on success the cursor is at the first EXEC token
   * before any PIPE; otherwise it stops at that PIPE, or at the end.
   */
  method FindNextExec(ts: seq<Token>, cur: nat) returns (found: bool, cur': nat)
    requires cur <= |ts|
    ensures cur <= cur' <= SegmentEnd(ts, cur)
    ensures forall k :: cur <= k < cur' ==> ts[k].kind != Exec
    ensures found ==> cur' < |ts| && ts[cur'].kind == Exec
    ensures !found ==> cur' == SegmentEnd(ts, cur)
  {
    cur' := cur;
    while cur' < |ts|
      invariant cur <= cur' <= SegmentEnd(ts, cur)
      invariant SegmentEnd(ts, cur') == SegmentEnd(ts, cur)
      invariant forall k :: cur <= k < cur' ==> ts[k].kind != Exec
    {
      if ts[cur'].kind == Pipe {
        break;
      }
      if ts[cur'].kind == Exec {
        return true, cur';
      }
      cur' := cur' + 1;
    }
    return false, cur';
  }
}
