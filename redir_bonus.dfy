/**
 * Redirection resolution of the bonus shell
 * (bonus/srcs/execution/ft_redir_bonus.c). It differs from the mandatory
 * one in four ways: the gate is error_fd; a target word containing '*' is
 * an ambiguous redirect too; dup2 and close run only for a real
 * descriptor; and a heredoc file that cannot be opened is dropped and the
 * next queued one is tried.
 *
 * The retry as written (ft_try_open_heredoc) is `TryOpenAsWritten`: it
 * reads the new head of the queue before checking that there is one, and
 * drops the descriptor its recursive call opens. `TryOpenHeredoc` is the
 * corrected retry that `RedirHeredocBonus` uses.
 */
module RedirectionBonus {
  import opened Wrappers
  import opened Os
  import opened Tokens
  import opened ShellState
  import opened Redirection

  /** ft_is_star, which is not part of this model, taken as: the word contains '*'. */
  predicate IsStar(word: string) {
    '*' in word
  }

  /** ft_open of the bonus shell: OpenGate on error_fd. */
  method FtOpenBonus(sh: Shell, kind: TokenType, path: string, flags: Flags) returns (fd: int)
    modifies sh`errorFd, sh`status, sh`proc, sh`diagnostics
    ensures var r := OpenGate(old(sh.proc), old(sh.errorFd), kind, path, flags);
      && fd == r.fd && sh.proc == r.proc && sh.errorFd == r.gate
      && sh.status == (if r.failed then 1 else old(sh.status))
      && sh.diagnostics == old(sh.diagnostics) + (if r.reported then [FileError(path)] else [])
  {
    fd := -1;
    if kind == Infile {
      if !Readable(sh.proc, path) {
        if sh.errorFd == 0 {
          sh.diagnostics := sh.diagnostics + [FileError(path)];
        }
        sh.errorFd := -1;
        sh.status := 1;
        var n := OpenNull(sh.proc);
        fd := n.fd;
        sh.proc := n.proc;
        return;
      }
    }
    if sh.errorFd == 0 {
      var o := Open(sh.proc, path, flags);
      fd := o.fd;
      sh.proc := o.proc;
    }
    if fd == -1 {
      if sh.errorFd == 0 {
        sh.diagnostics := sh.diagnostics + [FileError(path)];
      }
      sh.errorFd := -1;
      sh.status := 1;
      return;
    }
  }

  /** How ft_try_open_heredoc as written ends: reading through a NULL head, or returning. */
  datatype Attempt = NullDeref | Returned(fd: int, queue: seq<string>, proc: Proc)

  /**
   * ft_try_open_heredoc as written, called once the head of `queue` has
   * failed to open: the head is dropped and the new head's pathname read
   * (a NULL dereference when the queue has become empty); if that file does
   * not open either, the function calls itself and returns -1 whatever the
   * recursive call opened.
   */
  function TryOpenAsWritten(p: Proc, queue: seq<string>): (r: Attempt)
    requires |queue| >= 1
    ensures r.Returned? ==> 1 <= |r.queue| < |queue|
    decreases |queue|
  {
    var rest := queue[1..];
    if rest == [] then NullDeref
    else
      var o := Open(p, rest[0], ReadOnly);
      if o.fd != -1 then Returned(o.fd, rest, o.proc)
      else
        match TryOpenAsWritten(p, rest)
        case NullDeref => NullDeref
        case Returned(_, q, p') => Returned(-1, q, p')
  }

  /** The first queue position, from i on, whose file can be opened for reading; |queue| if none. */
  function FirstReadable(p: Proc, queue: seq<string>, i: nat): (n: nat)
    requires i <= |queue|
    ensures i <= n <= |queue|
    ensures n < |queue| ==> Readable(p, queue[n])
    ensures forall j :: i <= j < n ==> !Readable(p, queue[j])
    decreases |queue| - i
  {
    if i == |queue| || Readable(p, queue[i]) then i else FirstReadable(p, queue, i + 1)
  }

  /** A process with `unreadable` missing and `present` holding a one-character file. */
  function Sample(unreadable: set<string>, present: string): Proc {
    Proc(map[present := 1], map[0 := [], 1 := "x"], unreadable, map[], 3, 2)
  }

  /** With a single queued file that cannot be opened, the retry as written reads through a NULL head. */
  lemma TryOpenLastEntryDereferencesNull()
    ensures TryOpenAsWritten(Sample({"a"}, "c"), ["a"]) == NullDeref
  {
  }

  /** With two queued files that cannot be opened, the recursive retry reads through a NULL head. */
  lemma TryOpenTwoFailuresDereferenceNull()
    ensures TryOpenAsWritten(Sample({"a", "b"}, "c"), ["a", "b"]) == NullDeref
  {
    var p := Sample({"a", "b"}, "c");
    assert Open(p, "b", ReadOnly).fd == -1;
  }

  /**
   * With ["a", "b", "c"] where only c opens, the retry as written returns
   * -1, although the corrected retry finds c.
   */
  lemma TryOpenDropsRecursiveResult()
    ensures var p := Sample({"a", "b"}, "c");
      && TryOpenAsWritten(p, ["a", "b", "c"]).Returned?
      && TryOpenAsWritten(p, ["a", "b", "c"]).fd == -1
      && FirstReadable(p, ["a", "b", "c"], 1) == 2 && Readable(p, "c")
  {
    var p := Sample({"a", "b"}, "c");
    assert Open(p, "b", ReadOnly).fd == -1;
    assert Open(p, "c", ReadOnly).fd == 3;
    assert ["a", "b", "c"][1..] == ["b", "c"];
    assert ["b", "c"][1..] == ["c"];
    assert !Readable(p, ["a", "b", "c"][1]);
  }

  /**
   * ft_try_open_heredoc, corrected: the failed head is dropped and the next
   * queued file tried, until one opens; when the queue runs out, /dev/null
   * is opened and the last failed pathname reported.
   */
  method TryOpenHeredoc(sh: Shell) returns (fd: int)
    requires |sh.heredocs| >= 1
    modifies sh`heredocs, sh`proc, sh`diagnostics
    ensures sh.proc.names == old(sh.proc).names && sh.proc.data == old(sh.proc).data
    ensures sh.proc.denied == old(sh.proc).denied
    ensures Valid(old(sh.proc)) ==> Valid(sh.proc)
    ensures Valid(old(sh.proc)) ==>
      && old(sh.proc).nextFd <= fd < sh.proc.nextFd
      && fd in sh.proc.fds && sh.proc.fds == old(sh.proc).fds[fd := sh.proc.fds[fd]]
    ensures Valid(old(sh.proc)) ==>
      var q := old(sh.heredocs);
      var n := FirstReadable(old(sh.proc), q, 1);
      && sh.heredocs == q[n..]
      && fd in sh.proc.fds && fd >= 3
      && (n < |q| ==> sh.proc.fds[fd] == old(sh.proc).names[q[n]] && sh.diagnostics == old(sh.diagnostics))
      && (n == |q| ==> sh.proc.fds[fd] == NULL_INODE && sh.diagnostics == old(sh.diagnostics) + [FileError(q[|q| - 1])])
    decreases |sh.heredocs|
  {
    var failed := sh.heredocs[0];
    sh.heredocs := sh.heredocs[1..];
    if sh.heredocs == [] {
      var n := OpenNull(sh.proc);
      fd := n.fd;
      sh.proc := n.proc;
      sh.diagnostics := sh.diagnostics + [FileError(failed)];
      return;
    }
    var o := Open(sh.proc, sh.heredocs[0], ReadOnly);
    fd := o.fd;
    sh.proc := o.proc;
    if fd == -1 {
      ghost var q := old(sh.heredocs);
      ghost var p := sh.proc;
      fd := TryOpenHeredoc(sh);
      if Valid(old(sh.proc)) {
        assert q[1..][1..] == q[2..];
        FirstReadableShift(p, q, 1);
        assert forall m :: 1 <= m <= |q[1..]| ==> q[1..][m..] == q[m + 1..];
      }
    }
  }

  /** Searching from i + 1 in queue is searching from i in its tail, shifted by one. */
  lemma FirstReadableShift(p: Proc, queue: seq<string>, i: nat)
    requires 1 <= i <= |queue|
    ensures FirstReadable(p, queue, i) == FirstReadable(p, queue[1..], i - 1) + 1
    decreases |queue| - i
  {
    if i < |queue| && !Readable(p, queue[i]) {
      FirstReadableShift(p, queue, i + 1);
    }
  }

  /**
   * ft_redir_heredoc of the bonus shell, with the corrected retry: when the
   * command follows, the first openable queued file is wired onto stdin and
   * unlinked, the files before it being dropped; then one entry is
   * dequeued. When no queued file opens, stdin gets /dev/null and, no head
   * being left to name, nothing is unlinked. Without a following command
   * only the head is dequeued.
   */
  method RedirHeredocBonus(sh: Shell, chain: seq<RedirNode>, k: nat)
    requires k < |chain| && |sh.heredocs| > 0
    modifies sh`proc, sh`heredocs, sh`diagnostics
    ensures !ExecFollows(chain, k) ==>
      sh.heredocs == old(sh.heredocs)[1..] && sh.proc == old(sh.proc) && sh.diagnostics == old(sh.diagnostics)
    ensures ExecFollows(chain, k) && Valid(old(sh.proc)) ==>
      var q := old(sh.heredocs);
      var n := FirstReadable(old(sh.proc), q, 0);
      && sh.heredocs == (if n < |q| then q[n + 1..] else [])
      && sh.proc.fds == old(sh.proc).fds[STDIN := if n < |q| then old(sh.proc).names[q[n]] else NULL_INODE]
      && sh.proc.names == (if n < |q| then old(sh.proc).names - {q[n]} else old(sh.proc).names)
      && sh.proc.data == old(sh.proc).data && sh.proc.denied == old(sh.proc).denied
      && sh.diagnostics == old(sh.diagnostics) + (if n < |q| then [] else [FileError(q[|q| - 1])])
  {
    ghost var q := sh.heredocs;
    ghost var p0 := sh.proc;
    var pathname := sh.heredocs[0];
    var exec := SearchExec(chain, k);
    if exec {
      var o := Open(sh.proc, pathname, ReadOnly);
      var fd := o.fd;
      sh.proc := o.proc;
      var found := true;
      if fd == -1 {
        fd := TryOpenHeredoc(sh);
        if sh.heredocs != [] {
          pathname := sh.heredocs[0];
        } else {
          found := false;
        }
        if Valid(p0) {
          FirstReadableFrom0(p0, q);
        }
      }
      ghost var p1 := sh.proc;
      if Valid(p0) {
        assert fd in p1.fds && fd >= 3 && fd !in p0.fds;
        DupThenClose(p1, fd, STDIN);
        assert Close(Dup2(p1, fd, STDIN), fd).fds == p0.fds[STDIN := p1.fds[fd]];
      }
      sh.proc := Dup2(sh.proc, fd, STDIN);
      sh.proc := Close(sh.proc, fd);
      if found {
        sh.proc := Unlink(sh.proc, pathname);
      }
    }
    if sh.heredocs != [] {
      sh.heredocs := sh.heredocs[1..];
    }
  }

  /** When the head cannot be read, searching from 0 is searching from 1. */
  lemma FirstReadableFrom0(p: Proc, q: seq<string>)
    requires |q| > 0 && !Readable(p, q[0])
    ensures FirstReadable(p, q, 0) == FirstReadable(p, q, 1)
  {
  }

  /**
   * ft_redir of the bonus shell: a target that expands to nothing or whose
   * word contains '*' is an ambiguous redirect naming the word (status 1,
   * FALSE, nothing opened); otherwise the file is opened through the
   * error_fd gate and, if that gave a descriptor, it replaces stdout or
   * stdin and is closed (TRUE). A heredoc node goes to RedirHeredocBonus
   * (TRUE); other nodes are FALSE and change nothing.
   */
  method RedirBonus(sh: Shell, chain: seq<RedirNode>, k: nat, expanded: Option<string>) returns (ok: bool)
    requires k < |chain|
    requires chain[k].kind == Heredoc ==> |sh.heredocs| > 0
    modifies sh`errorFd, sh`status, sh`proc, sh`diagnostics, sh`heredocs
    ensures ok <==> (OpensFile(chain[k].kind) && expanded.Some? && !IsStar(chain[k].target)) || chain[k].kind == Heredoc
    ensures OpensFile(chain[k].kind) && (expanded.None? || IsStar(chain[k].target)) ==>
      && sh.status == 1 && sh.diagnostics == old(sh.diagnostics) + [AmbiguousRedirect(Some(chain[k].target))]
      && sh.proc == old(sh.proc) && sh.errorFd == old(sh.errorFd) && sh.heredocs == old(sh.heredocs)
    ensures OpensFile(chain[k].kind) && expanded.Some? && !IsStar(chain[k].target) ==>
      var r := OpenGate(old(sh.proc), old(sh.errorFd), chain[k].kind, expanded.value, chain[k].flags);
      && sh.proc == (if r.fd != -1 then Close(Dup2(r.proc, r.fd, StreamOf(chain[k].kind)), r.fd) else r.proc)
      && sh.errorFd == r.gate && sh.status == (if r.failed then 1 else old(sh.status))
      && sh.diagnostics == old(sh.diagnostics) + (if r.reported then [FileError(expanded.value)] else [])
      && sh.heredocs == old(sh.heredocs)
    ensures chain[k].kind == Heredoc ==> sh.status == old(sh.status) && sh.errorFd == old(sh.errorFd)
    ensures chain[k].kind == Heredoc && !ExecFollows(chain, k) ==>
      sh.heredocs == old(sh.heredocs)[1..] && sh.proc == old(sh.proc) && sh.diagnostics == old(sh.diagnostics)
    ensures chain[k].kind == Heredoc && ExecFollows(chain, k) && Valid(old(sh.proc)) ==>
      var q := old(sh.heredocs);
      var n := FirstReadable(old(sh.proc), q, 0);
      && sh.heredocs == (if n < |q| then q[n + 1..] else [])
      && sh.proc.fds == old(sh.proc).fds[STDIN := if n < |q| then old(sh.proc).names[q[n]] else NULL_INODE]
      && sh.proc.names == (if n < |q| then old(sh.proc).names - {q[n]} else old(sh.proc).names)
      && sh.proc.data == old(sh.proc).data && sh.proc.denied == old(sh.proc).denied
      && sh.diagnostics == old(sh.diagnostics) + (if n < |q| then [] else [FileError(q[|q| - 1])])
    ensures !OpensFile(chain[k].kind) && chain[k].kind != Heredoc ==>
      sh.proc == old(sh.proc) && sh.status == old(sh.status) && sh.heredocs == old(sh.heredocs)
      && sh.errorFd == old(sh.errorFd) && sh.diagnostics == old(sh.diagnostics)
  {
    var node := chain[k];
    if node.kind == Outfile || node.kind == Infile || node.kind == Append {
      var targetTmp := node.target;
      if expanded.None? || IsStar(targetTmp) {
        sh.diagnostics := sh.diagnostics + [AmbiguousRedirect(Some(targetTmp))];
        sh.status := 1;
        return false;
      }
      var fd := FtOpenBonus(sh, node.kind, expanded.value, node.flags);
      if fd != -1 {
        if node.kind == Outfile || node.kind == Append {
          sh.proc := Dup2(sh.proc, fd, STDOUT);
        } else {
          sh.proc := Dup2(sh.proc, fd, STDIN);
        }
        sh.proc := Close(sh.proc, fd);
      }
      return true;
    } else if node.kind == Heredoc {
      RedirHeredocBonus(sh, chain, k);
      return true;
    }
    return false;
  }

  /** Once error_fd is -1, the bonus redirections open no named file, print nothing and keep every name and file content. */
  lemma BonusGateSticky(p: Proc, node: RedirNode, path: string)
    requires Valid(p) && OpensFile(node.kind)
    ensures var r := OpenGate(p, -1, node.kind, path, node.flags);
      && r.gate == -1 && !r.reported && r.proc.names == p.names && r.proc.data == p.data
      && (r.fd == -1 ==> r.proc == p)
      && (r.fd != -1 ==> node.kind == Infile && r.proc.fds[r.fd] == NULL_INODE)
  {
  }
}
