/**
 * Signal discipline: ft_signal installs one of four disposition sets, and
 * the three handlers act on the shell's state when a signal arrives.
 * Terminal output of the handlers (newlines, "Quit (core dumped)", the
 * readline redisplay) is not modelled.
 */
module SignalControl {
  import opened Os
  import opened ShellState

  /**
   * The value ft_signal receives: one of the four modes PARENT_, HEREDOC_,
   * DEFAULT_ and CHILD_, or any other integer.
   */
  datatype Mode = ParentMode | HeredocMode | DefaultMode | ChildMode | OtherMode(value: int)

  /** ft_signal: SIGTSTP is always ignored; SIGINT and SIGQUIT follow the mode. */
  method FtSignal(sh: Shell, mode: Mode)
    modifies sh`signals
    ensures sh.signals.sigtstp == Ignore
    ensures mode == ParentMode ==> sh.signals.sigquit == Ignore && sh.signals.sigint == Handle(ParentHandler)
    ensures mode == HeredocMode ==> sh.signals.sigquit == Ignore && sh.signals.sigint == Handle(HeredocHandler)
    ensures mode == DefaultMode ==> sh.signals.sigquit == Default && sh.signals.sigint == Default
    ensures mode == ChildMode ==>
      sh.signals.sigquit == Handle(ChildHandler) && sh.signals.sigint == Handle(ChildHandler)
    ensures mode.OtherMode? ==>
      sh.signals.sigquit == old(sh.signals.sigquit) && sh.signals.sigint == old(sh.signals.sigint)
  {
    sh.signals := sh.signals.(sigtstp := Ignore);
    if mode == ParentMode {
      sh.signals := sh.signals.(sigtstp := Ignore, sigquit := Ignore, sigint := Handle(ParentHandler));
    }
    if mode == HeredocMode {
      sh.signals := sh.signals.(sigtstp := Ignore, sigquit := Ignore, sigint := Handle(HeredocHandler));
    }
    if mode == DefaultMode {
      sh.signals := sh.signals.(sigtstp := Ignore, sigquit := Default, sigint := Default);
    }
    if mode == ChildMode {
      sh.signals := sh.signals.(sigtstp := Ignore, sigint := Handle(ChildHandler), sigquit := Handle(ChildHandler));
    }
  }

  /** sig_parent_handler: the status becomes 130. */
  method SigParentHandler(sh: Shell, sig: Signal)
    modifies sh`status
    ensures sh.status == 130
  {
    sh.status := 130;
  }

  /** sig_heredoc_handler: on SIGINT standard input is closed and the status becomes 130. */
  method SigHeredocHandler(sh: Shell, sig: Signal)
    modifies sh`status, sh`proc
    ensures sig == SIGINT ==> sh.status == 130 && sh.proc == Close(old(sh.proc), STDIN)
    ensures sig != SIGINT ==> sh.status == old(sh.status) && sh.proc == old(sh.proc)
  {
    if sig == SIGINT {
      sh.proc := Close(sh.proc, STDIN);
      sh.status := 130;
    }
  }

  /** What becomes of the process when a signal arrives. */
  datatype Fate = Continues | Terminated | Stopped

  /**
   * Delivery of sig under the installed dispositions: ignored, the default
   * action (termination, or stopping for SIGTSTP), or the installed handler.
   * The child handler only writes to the terminal.
   */
  method Deliver(sh: Shell, sig: Signal) returns (fate: Fate)
    modifies sh`status, sh`proc
    ensures var d := DispositionOf(old(sh.signals), sig);
      && (d == Default <==> fate != Continues)
      && (d == Default ==> fate == (if sig == SIGTSTP then Stopped else Terminated))
      && (d.Handle? && d.handler == ParentHandler ==> sh.status == 130 && sh.proc == old(sh.proc))
      && (d.Handle? && d.handler == HeredocHandler && sig == SIGINT ==>
            sh.status == 130 && STDIN !in sh.proc.fds && sh.proc == Close(old(sh.proc), STDIN))
      && (d == Ignore || d == Default || d == Handle(ChildHandler) || (d == Handle(HeredocHandler) && sig != SIGINT) ==>
            sh.status == old(sh.status) && sh.proc == old(sh.proc))
  {
    fate := Continues;
    match DispositionOf(sh.signals, sig)
    case Ignore =>
    case Default =>
      fate := if sig == SIGTSTP then Stopped else Terminated;
    case Handle(h) =>
      match h
      case ParentHandler => SigParentHandler(sh, sig);
      case HeredocHandler => SigHeredocHandler(sh, sig);
      case ChildHandler =>
  }
}
