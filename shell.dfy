/**
 * The shell's process-wide state (t_shell) and its per-line life cycle:
 * creation (ft_init_sh) and the reset after every non-blank line
 * (ft_restore_cli).
 *
 * Besides the fields of t_shell, the class holds the cells other parts of
 * the program keep elsewhere: the exit status kept by ft_exit_status, the
 * static line counter of count_line, the process's descriptor table and
 * signal dispositions, the history list, a log of what each diagnostic
 * names (its text is not modelled), and the lines handed to the launcher.
 */
module ShellState {
  import opened Wrappers
  import opened Os

  /** What a diagnostic written to standard error names. */
  datatype Diagnostic =
    | FileError(path: string)
    | AmbiguousRedirect(target: Option<string>)
    | HeredocEof(line: nat, limiter: string)

  class Shell {
    /** The exported environment and the unexported overlay, `KEY=VALUE` entries in order. */
    var global: seq<string>
    var local: seq<string>
    /** The value ft_exit_status keeps. */
    var status: int
    var run: bool
    /** The previous tree node the launcher saw, as an index into the current tree. */
    var prev: Option<nat>
    var fdsSaved: int
    /** Pathnames of captured heredoc files, oldest first. */
    var heredocs: seq<string>
    /** The error gate of the mandatory redirections (curr_fd) and of the bonus ones (error_fd). */
    var currFd: int
    var errorFd: int
    /** The static counter of count_line. */
    var heredocLine: nat
    var proc: Proc
    var signals: Signals
    var diagnostics: seq<Diagnostic>
    var history: seq<string>
    var launched: seq<string>

    /**
     * ft_init_sh once every allocation has succeeded. The gates curr_fd and
     * error_fd are not set there; they start as the given values.
     */
    constructor (envp: seq<string>, proc: Proc, signals: Signals, currFd: int, errorFd: int)
      ensures global == envp && local == []
      ensures fdsSaved == 0 && run && prev == None && heredocs == []
      ensures this.currFd == currFd && this.errorFd == errorFd
      ensures this.proc == proc && this.signals == signals
      ensures status == 0 && heredocLine == 0
      ensures diagnostics == [] && history == [] && launched == []
    {
      global := envp;
      local := [];
      status := 0;
      fdsSaved := 0;
      run := true;
      prev := None;
      heredocs := [];
      this.currFd := currFd;
      this.errorFd := errorFd;
      heredocLine := 0;
      this.proc := proc;
      this.signals := signals;
      diagnostics := [];
      history := [];
      launched := [];
    }
  }

  /**
   * ft_init_sh: a shell whose global store copies envp and whose local
   * store and heredoc queue are empty, or null when an allocation fails
   * (`allocOk` says whether every malloc succeeds).
   */
  method InitSh(envp: seq<string>, proc: Proc, signals: Signals, currFd: int, errorFd: int, allocOk: bool)
    returns (sh: Shell?)
    ensures sh == null <==> !allocOk
    ensures sh != null ==> fresh(sh)
    ensures sh != null ==> sh.global == envp && sh.local == [] && sh.heredocs == []
    ensures sh != null ==> sh.fdsSaved == 0 && sh.run && sh.prev == None
  {
    if !allocOk {
      return null;
    }
    sh := new Shell(envp, proc, signals, currFd, errorFd);
  }

  /** ft_restore_cli: the per-line fields go back to their start values; nothing else changes. */
  method RestoreCli(sh: Shell)
    modifies sh`fdsSaved, sh`run, sh`prev, sh`heredocs
    ensures sh.fdsSaved == 0 && sh.run && sh.prev == None && sh.heredocs == []
  {
    sh.fdsSaved := 0;
    sh.run := true;
    sh.prev := None;
    sh.heredocs := [];
  }
}
