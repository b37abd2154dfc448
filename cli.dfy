/**
 * The read-eval loop of the shell (srcs/ft_cli.c): each line read is
 * recorded in the history when it is not blank, and only then parsed;
 * a parsed line whose heredocs were all collected, and that is not a
 * builtin run in the shell itself, is handed to the launcher. The shell
 * state is reset after every non-blank line, and end of input ends the
 * loop.
 *
 * readline is the sequence `lines`, after which it reports end of input.
 * Parsing (ft_process_input), heredoc collection (ft_search_heredoc),
 * in-shell builtins (ft_single_command) and the launcher are not part of
 * this model: the first three are the parameters `parses`, `collected`
 * (the value of run once the heredocs are collected) and `single`, and a
 * launch is recorded in the field `launched`.
 */
module Cli {
  import opened Wrappers
  import opened CStr
  import opened Os
  import opened ShellState
  import opened SignalControl

  /** Every character of line is whitespace (the empty line included). */
  predicate Blank(line: string) {
    forall j :: 0 <= j < |line| ==> IsSpace(line[j])
  }

  /**
   * ft_history: counts the characters and the whitespace ones; when they
   * differ the line is added to the history and 1 returned, else 0.
   */
  method History(sh: Shell, input: string) returns (r: int)
    modifies sh`history
    ensures r == (if Blank(input) then 0 else 1)
    ensures sh.history == old(sh.history) + (if Blank(input) then [] else [input])
  {
    var i := 0;
    var w := 0;
    while i < |input|
      invariant 0 <= w <= i <= |input|
      invariant w == i <==> Blank(input[..i])
    {
      assert input[..i + 1] == input[..i] + [input[i]];
      if IsSpace(input[i]) {
        w := w + 1;
      }
      i := i + 1;
    }
    assert input[..i] == input;
    if i != w {
      sh.history := sh.history + [input];
      return 1;
    }
    return 0;
  }

  /** The lines the loop records in the history: the non-blank ones, in order. */
  function Recorded(lines: seq<string>): (r: seq<string>)
    ensures |r| <= |lines|
    decreases |lines|
  {
    if lines == [] then []
    else
      var last := lines[|lines| - 1];
      Recorded(lines[..|lines| - 1]) + (if Blank(last) then [] else [last])
  }

  /** Whether the loop hands a line to the launcher. */
  predicate Launches(line: string, parses: string -> bool, collected: string -> bool, single: string -> bool) {
    !Blank(line) && parses(line) && collected(line) && !single(line)
  }

  /** The lines the loop launches, in order. */
  function Launched(lines: seq<string>, parses: string -> bool, collected: string -> bool, single: string -> bool): (r: seq<string>)
    ensures |r| <= |lines|
    decreases |lines|
  {
    if lines == [] then []
    else
      var last := lines[|lines| - 1];
      Launched(lines[..|lines| - 1], parses, collected, single)
        + (if Launches(last, parses, collected, single) then [last] else [])
  }

  /**
   * Every launched line was recorded in the history, parsed, had its
   * heredocs collected and was not run in the shell itself; there are never
   * more launches than recorded lines.
   */
  lemma {:induction false} LaunchedAreRecorded(lines: seq<string>, parses: string -> bool, collected: string -> bool, single: string -> bool)
    ensures forall l :: l in Launched(lines, parses, collected, single) ==>
      l in Recorded(lines) && !Blank(l) && parses(l) && collected(l) && !single(l)
    ensures |Launched(lines, parses, collected, single)| <= |Recorded(lines)|
    decreases |lines|
  {
    if lines != [] {
      LaunchedAreRecorded(lines[..|lines| - 1], parses, collected, single);
    }
  }

  /** A blank line is never recorded, so it is never parsed nor launched. */
  lemma {:induction false} BlankLinesIgnored(lines: seq<string>, parses: string -> bool, collected: string -> bool, single: string -> bool)
    ensures forall l :: l in Recorded(lines) ==> l in lines && !Blank(l)
    ensures (forall l :: l in lines ==> Blank(l)) ==> Recorded(lines) == [] && Launched(lines, parses, collected, single) == []
    decreases |lines|
  {
    if lines != [] {
      var init := lines[..|lines| - 1];
      BlankLinesIgnored(init, parses, collected, single);
      assert forall l :: l in init ==> l in lines;
    }
  }

  /** Recorded over one more line. */
  lemma RecordedStep(lines: seq<string>, i: nat)
    requires i < |lines|
    ensures Recorded(lines[..i + 1]) == Recorded(lines[..i]) + (if Blank(lines[i]) then [] else [lines[i]])
  {
    assert lines[..i + 1][..i] == lines[..i];
  }

  /** Launched over one more line. */
  lemma LaunchedStep(lines: seq<string>, i: nat, parses: string -> bool, collected: string -> bool, single: string -> bool)
    requires i < |lines|
    ensures Launched(lines[..i + 1], parses, collected, single) == Launched(lines[..i], parses, collected, single)
      + (if Launches(lines[i], parses, collected, single) then [lines[i]] else [])
  {
    assert lines[..i + 1][..i] == lines[..i];
  }

  /**
   * One pass of the ft_cli loop after the read: record the line, and for a
   * non-blank one parse it, collect its heredocs, launch it when run is
   * TRUE and it is not a single builtin, then reset the per-line state.
   */
  method HandleLine(sh: Shell, input: string, parses: string -> bool, collected: string -> bool, single: string -> bool)
    returns (recorded: bool)
    modifies sh`signals, sh`history, sh`run, sh`launched, sh`fdsSaved, sh`prev, sh`heredocs
    ensures recorded <==> !Blank(input)
    ensures sh.history == old(sh.history) + (if Blank(input) then [] else [input])
    ensures sh.launched == old(sh.launched) + (if Launches(input, parses, collected, single) then [input] else [])
    ensures recorded ==> sh.fdsSaved == 0 && sh.run && sh.prev == None && sh.heredocs == []
    ensures Launches(input, parses, collected, single) ==>
      sh.signals == old(sh.signals).(sigtstp := Ignore, sigquit := Default, sigint := Default)
    ensures !Launches(input, parses, collected, single) ==> sh.signals == old(sh.signals)
    ensures !recorded ==>
      sh.fdsSaved == old(sh.fdsSaved) && sh.run == old(sh.run) && sh.prev == old(sh.prev)
      && sh.heredocs == old(sh.heredocs) && sh.signals == old(sh.signals)
  {
    var r := History(sh, input);
    recorded := r == 1;
    if recorded {
      if parses(input) {
        sh.run := collected(input);
        if sh.run && !single(input) {
          FtSignal(sh, DefaultMode);
          sh.launched := sh.launched + [input];
        }
      }
      RestoreCli(sh);
    }
  }

  /**
   * ft_cli: until end of input, install the parent signal handlers, read a
   * line, and for a non-blank one: record it, parse it, collect its
   * heredocs (which sets run), launch it with default signals when run is
   * TRUE and it is not a single builtin, then reset the per-line state.
   */
  method Cli(sh: Shell, lines: seq<string>, parses: string -> bool, collected: string -> bool, single: string -> bool)
    modifies sh`signals, sh`history, sh`run, sh`launched, sh`fdsSaved, sh`prev, sh`heredocs
    ensures sh.history == old(sh.history) + Recorded(lines)
    ensures sh.launched == old(sh.launched) + Launched(lines, parses, collected, single)
    ensures sh.signals == Signals(Handle(ParentHandler), Ignore, Ignore)
    ensures Recorded(lines) != [] ==> sh.fdsSaved == 0 && sh.run && sh.prev == None && sh.heredocs == []
    ensures Recorded(lines) == [] ==>
      sh.fdsSaved == old(sh.fdsSaved) && sh.run == old(sh.run) && sh.prev == old(sh.prev) && sh.heredocs == old(sh.heredocs)
  {
    var i := 0;
    ghost var reset := false;
    while true
      invariant 0 <= i <= |lines|
      invariant sh.history == old(sh.history) + Recorded(lines[..i])
      invariant sh.launched == old(sh.launched) + Launched(lines[..i], parses, collected, single)
      invariant reset <==> Recorded(lines[..i]) != []
      invariant reset ==> sh.fdsSaved == 0 && sh.run && sh.prev == None && sh.heredocs == []
      invariant !reset ==>
        sh.fdsSaved == old(sh.fdsSaved) && sh.run == old(sh.run) && sh.prev == old(sh.prev) && sh.heredocs == old(sh.heredocs)
      decreases |lines| - i
    {
      FtSignal(sh, ParentMode);
      if i == |lines| {
        break;
      }
      var input := lines[i];
      RecordedStep(lines, i);
      LaunchedStep(lines, i, parses, collected, single);
      ghost var line := if Blank(input) then [] else [input];
      AppendAssoc(old(sh.history), Recorded(lines[..i]), line);
      var recorded := HandleLine(sh, input, parses, collected, single);
      if recorded {
        reset := true;
      }
      AppendAssoc(old(sh.launched), Launched(lines[..i], parses, collected, single),
        if Launches(input, parses, collected, single) then [input] else []);
      i := i + 1;
    }
    assert lines[..i] == lines;
  }
}
