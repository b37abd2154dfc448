/**
 * Redirection resolution of the mandatory shell (srcs/execution/ft_redir.c).
 *
 * A command's redirections form a chain of nodes; `chain[k]` is the node
 * at hand and `chain[k + 1..]` the nodes its `next` pointers reach. A
 * node's target is expanded before it is opened; expansion
 * (ft_process_token_list over the merged environment) is not part of this
 * model and is the parameter `expanded`: the first word it produces, or
 * None when it produces nothing.
 *
 * curr_fd is an error gate: 0 while every redirection so far has worked,
 * -1 after the first failure, after which no named file is opened (a
 * missing or unreadable input file still gets a /dev/null descriptor, a
 * readable one gets -1) and no further message is printed.
 */
module Redirection {
  import opened Wrappers
  import opened Os
  import opened Tokens
  import opened ShellState

  /** A redirection node: its kind, the flags it opens with, and its target word before expansion. */
  datatype RedirNode = RedirNode(kind: TokenType, flags: Flags, target: string)

  /** The kinds ft_redir opens a file for. */
  predicate OpensFile(kind: TokenType) {
    kind == Outfile || kind == Infile || kind == Append
  }

  /** Some node after chain[k] is the command itself. */
  predicate ExecFollows(chain: seq<RedirNode>, k: nat) {
    exists j :: k < j < |chain| && chain[j].kind == Exec
  }

  /** ft_search_exec: whether a node strictly after chain[k] is an EXEC node. */
  method SearchExec(chain: seq<RedirNode>, k: nat) returns (exec: bool)
    requires k < |chain|
    ensures exec <==> ExecFollows(chain, k)
  {
    exec := false;
    var curr := k + 1;
    while curr < |chain|
      invariant k + 1 <= curr <= |chain|
      invariant forall j :: k < j < curr ==> chain[j].kind != Exec
    {
      if chain[curr].kind == Exec {
        exec := true;
        break;
      }
      curr := curr + 1;
    }
  }

  /** What ft_open leaves behind: the descriptor, the process, the gate, and whether it failed and whether it printed. */
  datatype Gated = Gated(fd: int, proc: Proc, gate: int, failed: bool, reported: bool)

  /**
   * ft_open, on the gate value it reads and writes (curr_fd here, error_fd
   * in the bonus shell). A missing or unreadable input file yields a
   * /dev/null descriptor; once the gate is closed no named file is opened.
   */
  function OpenGate(p: Proc, gate: int, kind: TokenType, path: string, flags: Flags): (r: Gated)
    ensures r.failed <==> r.gate == -1
    ensures r.failed ==> r.fd == -1 || (kind == Infile && !Readable(p, path))
    ensures r.failed ==> r.gate == -1 && (r.reported <==> gate == 0)
    ensures !r.failed ==> r.gate == gate == 0 && !r.reported
    ensures kind == Infile && !Readable(p, path) ==>
      r.failed && r.fd == p.nextFd && r.proc == OpenNull(p).proc && r.proc.fds[r.fd] == NULL_INODE
    ensures gate != 0 ==> r.failed && r.proc.names == p.names && r.proc.data == p.data
    ensures gate != 0 ==> (kind == Infile && !Readable(p, path)) || (r.fd == -1 && r.proc == p)
    ensures gate == 0 && !(kind == Infile && !Readable(p, path)) ==>
      r.fd == Open(p, path, flags).fd && r.proc == Open(p, path, flags).proc && (r.failed <==> OpenFails(p, path, flags) || r.fd == -1)
    ensures Valid(p) ==> Valid(r.proc)
  {
    if kind == Infile && !Readable(p, path) then
      var n := OpenNull(p);
      Gated(n.fd, n.proc, -1, true, gate == 0)
    else
      var o := if gate == 0 then Open(p, path, flags) else Opened(-1, p);
      if o.fd == -1 then Gated(-1, o.proc, -1, true, gate == 0)
      else Gated(o.fd, o.proc, gate, false, false)
  }

  /** ft_open of the mandatory shell, gated by curr_fd; a failure sets status 1 and names the path once. */
  method FtOpen(sh: Shell, kind: TokenType, path: string, flags: Flags) returns (fd: int)
    modifies sh`currFd, sh`status, sh`proc, sh`diagnostics
    ensures var r := OpenGate(old(sh.proc), old(sh.currFd), kind, path, flags);
      && fd == r.fd && sh.proc == r.proc && sh.currFd == r.gate
      && sh.status == (if r.failed then 1 else old(sh.status))
      && sh.diagnostics == old(sh.diagnostics) + (if r.reported then [FileError(path)] else [])
  {
    fd := -1;
    if kind == Infile {
      if !Readable(sh.proc, path) {
        if sh.currFd == 0 {
          sh.diagnostics := sh.diagnostics + [FileError(path)];
        }
        sh.currFd := -1;
        sh.status := 1;
        var n := OpenNull(sh.proc);
        fd := n.fd;
        sh.proc := n.proc;
        return;
      }
    }
    if sh.currFd == 0 {
      var o := Open(sh.proc, path, flags);
      fd := o.fd;
      sh.proc := o.proc;
    }
    if fd == -1 {
      if sh.currFd == 0 {
        sh.diagnostics := sh.diagnostics + [FileError(path)];
      }
      sh.currFd := -1;
      sh.status := 1;
      return;
    }
  }

  /** The standard stream a file redirection replaces: stdout for > and >>, stdin for <. */
  function StreamOf(kind: TokenType): int {
    if kind == Outfile || kind == Append then STDOUT else STDIN
  }

  /**
   * dup2(fd, stream) then close(fd): stream now refers to fd's file, fd is
   * gone, every other descriptor is as it was.
   */
  lemma DupThenClose(p: Proc, fd: int, stream: int)
    requires fd in p.fds && fd != stream
    ensures var r := Close(Dup2(p, fd, stream), fd);
      && stream in r.fds && r.fds[stream] == p.fds[fd] && fd !in r.fds
      && (forall d :: d != fd && d != stream ==> (d in r.fds <==> d in p.fds))
      && (forall d :: d != fd && d != stream && d in r.fds ==> r.fds[d] == p.fds[d])
      && r.names == p.names && r.data == p.data
  {
  }

  /** dup2 and close on -1 change nothing, which is why ft_redir may call them after a failed ft_open. */
  lemma DupThenCloseFailed(p: Proc, stream: int)
    requires Valid(p)
    ensures Close(Dup2(p, -1, stream), -1) == p
  {
    assert p.fds - {-1} == p.fds;
  }

  /**
   * ft_redir_heredoc: the head of the heredoc queue is dequeued whatever
   * happens; only when the command follows is it opened onto stdin and
   * unlinked.
   */
  method RedirHeredoc(sh: Shell, chain: seq<RedirNode>, k: nat)
    requires k < |chain| && |sh.heredocs| > 0
    modifies sh`proc, sh`heredocs
    ensures sh.heredocs == old(sh.heredocs)[1..]
    ensures var path := old(sh.heredocs)[0];
      var o := Open(old(sh.proc), path, ReadOnly);
      sh.proc == (if ExecFollows(chain, k) then Unlink(Close(Dup2(o.proc, o.fd, STDIN), o.fd), path) else old(sh.proc))
  {
    var pathname := sh.heredocs[0];
    var exec := SearchExec(chain, k);
    if exec {
      var o := Open(sh.proc, pathname, ReadOnly);
      sh.proc := Dup2(o.proc, o.fd, STDIN);
      sh.proc := Close(sh.proc, o.fd);
      sh.proc := Unlink(sh.proc, pathname);
    }
    sh.heredocs := sh.heredocs[1..];
  }

  /** A heredoc whose file is there wires that file onto stdin and removes its name. */
  lemma HeredocWiresStdin(p: Proc, path: string)
    requires Valid(p) && Readable(p, path)
    ensures var o := Open(p, path, ReadOnly);
      var r := Unlink(Close(Dup2(o.proc, o.fd, STDIN), o.fd), path);
      && STDIN in r.fds && r.fds[STDIN] == p.names[path] && path !in r.names && r.data == p.data
  {
    var o := Open(p, path, ReadOnly);
    DupThenClose(o.proc, o.fd, STDIN);
  }

  /**
   * ft_redir: for <, > and >> the target must expand to a word, else
   * "ambiguous redirect", status 1 and FALSE with nothing opened; the
   * opened descriptor replaces stdout or stdin (dup2 runs even when ft_open
   * returned -1) and is closed, TRUE. A heredoc node dequeues one file,
   * TRUE. Any other node is FALSE and changes nothing.
   */
  method Redir(sh: Shell, chain: seq<RedirNode>, k: nat, expanded: Option<string>) returns (ok: bool)
    requires k < |chain|
    requires chain[k].kind == Heredoc ==> |sh.heredocs| > 0
    modifies sh`currFd, sh`status, sh`proc, sh`diagnostics, sh`heredocs
    ensures ok <==> (OpensFile(chain[k].kind) && expanded.Some?) || chain[k].kind == Heredoc
    ensures OpensFile(chain[k].kind) && expanded.None? ==>
      && sh.status == 1 && sh.diagnostics == old(sh.diagnostics) + [AmbiguousRedirect(None)]
      && sh.proc == old(sh.proc) && sh.currFd == old(sh.currFd) && sh.heredocs == old(sh.heredocs)
    ensures OpensFile(chain[k].kind) && expanded.Some? ==>
      var r := OpenGate(old(sh.proc), old(sh.currFd), chain[k].kind, expanded.value, chain[k].flags);
      && sh.proc == Close(Dup2(r.proc, r.fd, StreamOf(chain[k].kind)), r.fd)
      && sh.currFd == r.gate && sh.status == (if r.failed then 1 else old(sh.status))
      && sh.diagnostics == old(sh.diagnostics) + (if r.reported then [FileError(expanded.value)] else [])
      && sh.heredocs == old(sh.heredocs)
    ensures chain[k].kind == Heredoc ==>
      var path := old(sh.heredocs)[0];
      var o := Open(old(sh.proc), path, ReadOnly);
      && sh.heredocs == old(sh.heredocs)[1..]
      && sh.proc == (if ExecFollows(chain, k) then Unlink(Close(Dup2(o.proc, o.fd, STDIN), o.fd), path) else old(sh.proc))
      && sh.status == old(sh.status) && sh.currFd == old(sh.currFd) && sh.diagnostics == old(sh.diagnostics)
    ensures !OpensFile(chain[k].kind) && chain[k].kind != Heredoc ==>
      sh.proc == old(sh.proc) && sh.status == old(sh.status) && sh.heredocs == old(sh.heredocs)
      && sh.currFd == old(sh.currFd) && sh.diagnostics == old(sh.diagnostics)
  {
    var node := chain[k];
    if node.kind == Outfile || node.kind == Infile || node.kind == Append {
      if expanded.None? {
        sh.diagnostics := sh.diagnostics + [AmbiguousRedirect(None)];
        sh.status := 1;
        return false;
      }
      var fd := FtOpen(sh, node.kind, expanded.value, node.flags);
      if node.kind == Outfile || node.kind == Append {
        sh.proc := Dup2(sh.proc, fd, STDOUT);
      } else {
        sh.proc := Dup2(sh.proc, fd, STDIN);
      }
      sh.proc := Close(sh.proc, fd);
      return true;
    } else if node.kind == Heredoc {
      RedirHeredoc(sh, chain, k);
      return true;
    }
    return false;
  }

  /**
   * With the gate open and the file available, a redirection replaces its
   * stream with the named file; with the gate closed an output redirection
   * leaves every descriptor as it was.
   */
  lemma RedirectionReplacesStream(p: Proc, gate: int, node: RedirNode, path: string)
    requires Valid(p) && OpensFile(node.kind)
    ensures var r := OpenGate(p, gate, node.kind, path, node.flags);
      var q := Close(Dup2(r.proc, r.fd, StreamOf(node.kind)), r.fd);
      && (gate == 0 && !OpenFails(p, path, node.flags) && !(node.kind == Infile && !Readable(p, path)) ==>
            StreamOf(node.kind) in q.fds && path in r.proc.names && q.fds[StreamOf(node.kind)] == r.proc.names[path])
      && (gate != 0 && node.kind != Infile ==> q == p)
  {
    var r := OpenGate(p, gate, node.kind, path, node.flags);
    if gate == 0 && !OpenFails(p, path, node.flags) && !(node.kind == Infile && !Readable(p, path)) {
      DupThenClose(r.proc, r.fd, StreamOf(node.kind));
    }
    if gate != 0 && node.kind != Infile {
      DupThenCloseFailed(p, StreamOf(node.kind));
    }
  }
}
