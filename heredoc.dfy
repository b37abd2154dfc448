/**
 * Heredoc capture (srcs/ft_heredoc.c): lines are read until one is a
 * non-empty prefix of the limiter or input ends, each captured line is
 * appended with a newline to a temporary file, and the file is then wired
 * onto standard input and unlinked.
 *
 * readline is the sequence `input`: `input[k]` is what the k-th call
 * returns, None standing for end of input; reading past the end of the
 * sequence also yields None. The "next" line printed after each capture is
 * not modelled.
 */
module Heredoc {
  import opened Wrappers
  import opened CStr
  import opened Os
  import opened ShellState
  import opened SignalControl

  const TMP_PATH: string := "/tmp/.heredoc_tmp"

  /** What the k-th readline call returns. */
  function ReadLine(input: seq<Option<string>>, k: nat): Option<string> {
    if k < |input| then input[k] else None
  }

  /** The stop test of read_heredoc: end of input, or a non-empty line that strncmp finds at the start of the limiter. */
  predicate Stops(limiter: string, line: Option<string>) {
    line.None? || (|line.value| != 0 && StrNEq(limiter, line.value, |line.value|))
  }

  /** For C strings the stop test is: end of input, or a non-empty prefix of the limiter. */
  lemma StopsOnPrefix(limiter: string, line: string)
    requires IsCString(limiter) && IsCString(line)
    ensures Stops(limiter, Some(line)) <==> line != [] && line <= limiter
  {
    StrNEqPrefix(limiter, line);
  }

  /** Index of the first readline call, from i on, whose line stops the capture. */
  function StopFrom(limiter: string, input: seq<Option<string>>, i: nat): (k: nat)
    requires i <= |input|
    ensures i <= k <= |input| && Stops(limiter, ReadLine(input, k))
    ensures forall j :: i <= j < k ==> !Stops(limiter, ReadLine(input, j))
    decreases |input| - i
  {
    if Stops(limiter, ReadLine(input, i)) then i else StopFrom(limiter, input, i + 1)
  }

  function StopIndex(limiter: string, input: seq<Option<string>>): nat {
    StopFrom(limiter, input, 0)
  }

  /** The lines read before the stopping one, in input order. */
  function Captured(limiter: string, input: seq<Option<string>>): (lines: seq<string>)
    ensures |lines| == StopIndex(limiter, input) <= |input|
    ensures forall j :: 0 <= j < |lines| ==>
      && ReadLine(input, j) == input[j] == Some(lines[j])
      && !Stops(limiter, ReadLine(input, j))
  {
    var k := StopIndex(limiter, input);
    assert forall j :: 0 <= j < k ==> !Stops(limiter, ReadLine(input, j)) && ReadLine(input, j) == input[j];
    seq(k, j requires 0 <= j < k => input[j].value)
  }

  /** The text ft_putendl_fd writes for the lines: each one followed by a newline. */
  function Body(lines: seq<string>): (text: string)
    ensures |text| >= |lines|
  {
    if lines == [] then [] else Body(lines[..|lines| - 1]) + lines[|lines| - 1] + "\n"
  }

  /** Capture ends at the first line that is end of input or a non-empty prefix of the limiter. */
  lemma CaptureStopsAtFirstPrefix(limiter: string, input: seq<Option<string>>)
    requires IsCString(limiter)
    requires forall j :: 0 <= j < |input| && input[j].Some? ==> IsCString(input[j].value)
    ensures var k := StopIndex(limiter, input);
      && (k == |input| || input[k] == None || (input[k].value != [] && input[k].value <= limiter))
      && (forall j :: 0 <= j < k ==> input[j].Some? && (input[j].value == [] || !(input[j].value <= limiter)))
  {
    var k := StopIndex(limiter, input);
    if k < |input| && input[k].Some? {
      StopsOnPrefix(limiter, input[k].value);
    }
    forall j | 0 <= j < k
      ensures input[j].Some? && (input[j].value == [] || !(input[j].value <= limiter))
    {
      assert !Stops(limiter, ReadLine(input, j));
      StopsOnPrefix(limiter, input[j].value);
    }
  }

  /** An empty line never ends the capture: it is captured, and becomes a blank line of the body. */
  lemma {:induction false} EmptyLineCaptured(limiter: string, input: seq<Option<string>>, j: nat)
    requires j < |input| && input[j] == Some("")
    requires forall m :: 0 <= m < j ==> !Stops(limiter, ReadLine(input, m))
    ensures j < StopIndex(limiter, input) && Captured(limiter, input)[j] == ""
  {
    assert !Stops(limiter, ReadLine(input, j));
  }

  /** The body of a longer capture extends the body of a shorter one. */
  lemma {:induction false} BodyAppend(a: seq<string>, b: seq<string>)
    ensures Body(a + b) == Body(a) + Body(b)
    decreases |b|
  {
    if b == [] {
      assert a + b == a;
    } else {
      var b' := b[..|b| - 1];
      assert (a + b)[..|a + b| - 1] == a + b';
      BodyAppend(a, b');
    }
  }

  /** The body of one more line. */
  lemma BodyStep(lines: seq<string>, i: nat)
    requires i < |lines|
    ensures Body(lines[..i + 1]) == Body(lines[..i]) + (lines[i] + "\n")
  {
    assert lines[..i + 1][..i] == lines[..i];
  }

  /** What the temporary file held before the capture (O_APPEND keeps it). */
  function OldContents(p: Proc): string
    requires Valid(p)
  {
    if TMP_PATH in p.names then p.data[p.names[TMP_PATH]] else []
  }

  /** The counter after `captured` calls of count_line(1): unchanged if none, else counted on from at least 1. */
  function LineAfter(start: nat, captured: nat): nat {
    if captured == 0 then start else (if start == 0 then 1 else start) + captured
  }

  /** count_line: the static counter is at least 1 once called, and mode 1 advances it. */
  method CountLine(sh: Shell, mode: int) returns (line: nat)
    modifies sh`heredocLine
    ensures line == sh.heredocLine
    ensures sh.heredocLine == (if old(sh.heredocLine) == 0 then 1 else old(sh.heredocLine)) + (if mode == 1 then 1 else 0)
  {
    if sh.heredocLine == 0 {
      sh.heredocLine := 1;
    }
    if mode == 1 {
      sh.heredocLine := sh.heredocLine + 1;
    }
    line := sh.heredocLine;
  }

  /** The temporary file is open for appending on fd, through inode ino, and holds text. */
  ghost predicate Appending(p: Proc, fd: int, ino: nat, text: string) {
    && Valid(p) && p.nextFd >= 3
    && TMP_PATH in p.names && p.names[TMP_PATH] == ino && TMP_PATH !in p.denied
    && fd in p.fds && p.fds[fd] == ino && ino in p.data && ino != NULL_INODE
    && p.data[ino] == text
  }

  /** Opening the temporary file with O_APPEND keeps what it held. */
  lemma OpenForAppend(p: Proc)
    requires Valid(p) && TMP_PATH !in p.denied
    ensures var w := Open(p, TMP_PATH, WriteAppend);
      Appending(w.proc, w.fd, w.proc.names[TMP_PATH], OldContents(p))
  {
  }

  /** ft_putendl_fd on the appending descriptor adds the line and a newline at the end. */
  lemma AppendLine(p: Proc, fd: int, ino: nat, text: string, line: string)
    requires Appending(p, fd, ino, text)
    ensures Appending(WriteLine(p, fd, line), fd, ino, text + line + "\n")
  {
  }

  /** Closing the writer and reopening the file for reading gives a descriptor onto the same contents. */
  lemma ReopenForReading(p: Proc, fd: int, ino: nat, text: string)
    requires Appending(p, fd, ino, text)
    ensures var r := Open(Close(p, fd), TMP_PATH, ReadOnly);
      && Valid(r.proc) && r.fd >= 3 && r.proc.denied == p.denied
      && TMP_PATH in r.proc.names && r.fd in r.proc.fds && r.proc.fds[r.fd] == r.proc.names[TMP_PATH] == ino
      && r.proc.data[ino] == text
  {
    var c := Close(p, fd);
    assert Readable(c, TMP_PATH);
  }

  /**
   * The reading loop of read_heredoc: it stops at StopIndex, appends every
   * captured line to the file behind fdWrite and reports end of input.
   */
  method CaptureLines(sh: Shell, limiter: string, input: seq<Option<string>>, fdWrite: int, ghost ino: nat, ghost base: string)
    returns (i: nat)
    modifies sh`proc, sh`heredocLine, sh`diagnostics
    ensures i == StopIndex(limiter, input)
    ensures var eof := ReadLine(input, i).None?;
      var l := LineAfter(old(sh.heredocLine), i);
      && sh.heredocLine == (if eof && l == 0 then 1 else l)
      && sh.diagnostics == old(sh.diagnostics) + (if eof then [HeredocEof(sh.heredocLine, limiter)] else [])
    ensures Valid(old(sh.proc)) ==> Valid(sh.proc)
    ensures sh.proc.denied == old(sh.proc).denied
    ensures Appending(old(sh.proc), fdWrite, ino, base) ==>
      Appending(sh.proc, fdWrite, ino, base + Body(Captured(limiter, input)))
  {
    ghost var ok := Appending(sh.proc, fdWrite, ino, base);
    ghost var lines := Captured(limiter, input);
    ghost var start := sh.heredocLine;
    i := 0;
    while true
      invariant 0 <= i <= StopIndex(limiter, input)
      invariant sh.heredocLine == LineAfter(start, i)
      invariant sh.diagnostics == old(sh.diagnostics)
      invariant Valid(old(sh.proc)) ==> Valid(sh.proc)
      invariant sh.proc.denied == old(sh.proc).denied
      invariant ok ==> Appending(sh.proc, fdWrite, ino, base + Body(lines[..i]))
      decreases StopIndex(limiter, input) - i
    {
      var line := ReadLine(input, i);
      if Stops(limiter, line) {
        if line.None? {
          var n := CountLine(sh, 0);
          sh.diagnostics := sh.diagnostics + [HeredocEof(n, limiter)];
        }
        break;
      }
      if ok {
        BodyStep(lines, i);
        AppendLine(sh.proc, fdWrite, ino, base + Body(lines[..i]), line.value);
        AppendAssoc(base, Body(lines[..i]), line.value + "\n");
      }
      sh.proc := WriteLine(sh.proc, fdWrite, line.value);
      var _ := CountLine(sh, 1);
      i := i + 1;
    }
    assert lines[..i] == lines;
  }

  /**
   * read_heredoc: the captured lines are appended to the temporary file,
   * end of input is reported with the counter and the limiter, and the
   * file is reopened for reading. `calls` is the number of readline calls.
   */
  method ReadHeredoc(sh: Shell, limiter: string, input: seq<Option<string>>) returns (fd: int, calls: nat)
    modifies sh`proc, sh`heredocLine, sh`diagnostics
    ensures calls == StopIndex(limiter, input) + 1
    ensures var k := StopIndex(limiter, input);
      var eof := ReadLine(input, k).None?;
      var l := LineAfter(old(sh.heredocLine), k);
      && sh.heredocLine == (if eof && l == 0 then 1 else l)
      && sh.diagnostics == old(sh.diagnostics) + (if eof then [HeredocEof(sh.heredocLine, limiter)] else [])
    ensures Valid(old(sh.proc)) ==> Valid(sh.proc)
    ensures Valid(old(sh.proc)) && TMP_PATH !in old(sh.proc).denied ==>
      && TMP_PATH in sh.proc.names && fd in sh.proc.fds && sh.proc.fds[fd] == sh.proc.names[TMP_PATH]
      && sh.proc.data[sh.proc.names[TMP_PATH]] == OldContents(old(sh.proc)) + Body(Captured(limiter, input))
      && fd >= 3
    ensures sh.proc.denied == old(sh.proc).denied
  {
    ghost var p0 := sh.proc;
    ghost var ok := Valid(p0) && TMP_PATH !in p0.denied;
    ghost var base := if Valid(p0) then OldContents(p0) else [];
    var w := Open(sh.proc, TMP_PATH, WriteAppend);
    var fdWrite := w.fd;
    sh.proc := w.proc;
    ghost var ino := if TMP_PATH in sh.proc.names then sh.proc.names[TMP_PATH] else 0;
    if ok {
      OpenForAppend(p0);
    }
    var i := CaptureLines(sh, limiter, input, fdWrite, ino, base);
    if ok {
      ReopenForReading(sh.proc, fdWrite, ino, base + Body(Captured(limiter, input)));
    }
    sh.proc := Close(sh.proc, fdWrite);
    var r := Open(sh.proc, TMP_PATH, ReadOnly);
    fd := r.fd;
    sh.proc := r.proc;
    calls := i + 1;
  }

  /**
   * heredoc_fd: ft_signal installs the dispositions of `mode`, the lines
   * are captured as by read_heredoc (counter and end-of-input report
   * included), the capture is wired onto standard input, the temporary file
   * is removed and the status is 0. `mode` is the value
   * passed to ft_signal; the source passes the token kind HEREDOC rather
   * than HEREDOC_, and the numeric values of both are fixed in
   * includes/minishell.h, which is not part of this model.
   */
  method HeredocFd(sh: Shell, limiter: string, input: seq<Option<string>>, mode: Mode) returns (r: int)
    modifies sh`signals, sh`proc, sh`heredocLine, sh`diagnostics, sh`status
    ensures r == 0 && sh.status == 0
    ensures sh.signals.sigtstp == Ignore
    ensures mode == HeredocMode ==> sh.signals.sigquit == Ignore && sh.signals.sigint == Handle(HeredocHandler)
    ensures mode == ParentMode ==> sh.signals.sigquit == Ignore && sh.signals.sigint == Handle(ParentHandler)
    ensures mode == DefaultMode ==> sh.signals.sigquit == Default && sh.signals.sigint == Default
    ensures mode == ChildMode ==>
      sh.signals.sigquit == Handle(ChildHandler) && sh.signals.sigint == Handle(ChildHandler)
    ensures mode.OtherMode? ==>
      sh.signals.sigquit == old(sh.signals.sigquit) && sh.signals.sigint == old(sh.signals.sigint)
    ensures var k := StopIndex(limiter, input);
      var eof := ReadLine(input, k).None?;
      var l := LineAfter(old(sh.heredocLine), k);
      && sh.heredocLine == (if eof && l == 0 then 1 else l)
      && sh.diagnostics == old(sh.diagnostics) + (if eof then [HeredocEof(sh.heredocLine, limiter)] else [])
    ensures TMP_PATH !in sh.proc.names
    ensures Valid(old(sh.proc)) ==> Valid(sh.proc)
    ensures Valid(old(sh.proc)) && TMP_PATH !in old(sh.proc).denied ==>
      STDIN in sh.proc.fds && sh.proc.fds[STDIN] in sh.proc.data &&
      sh.proc.data[sh.proc.fds[STDIN]] == OldContents(old(sh.proc)) + Body(Captured(limiter, input))
  {
    ghost var p0 := sh.proc;
    FtSignal(sh, mode);
    var fd, _ := ReadHeredoc(sh, limiter, input);
    ghost var ino := if fd in sh.proc.fds then sh.proc.fds[fd] else 0;
    sh.proc := Dup2(sh.proc, fd, STDIN);
    sh.proc := Close(sh.proc, fd);
    sh.proc := Unlink(sh.proc, TMP_PATH);
    r := 0;
    sh.status := 0;
  }
}
