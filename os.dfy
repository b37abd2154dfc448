/**
 * The slice of the operating system the shell's state helpers touch:
 * a name table, file contents, a descriptor table and the signal
 * dispositions of the process.
 *
 * Paths in `denied` exist or may be created but cannot be read or written
 * (a permission failure); every other path can be read if it exists and
 * created if it does not. Descriptors are handed out from a counter rather
 * than as the lowest free number. "/dev/null" is the fixed inode NULL_INODE,
 * which reads as empty and discards what is written to it.
 */
module Os {

  const STDIN: int := 0
  const STDOUT: int := 1
  const NULL_INODE: nat := 0

  /** O_RDONLY, O_WRONLY|O_CREAT|O_TRUNC and O_WRONLY|O_CREAT|O_APPEND. */
  datatype Flags = ReadOnly | WriteTrunc | WriteAppend

  datatype Proc = Proc(
    names: map<string, nat>,
    data: map<nat, string>,
    denied: set<string>,
    fds: map<int, nat>,
    nextFd: int,
    nextInode: nat)

  /** Every descriptor and every name refers to an inode that exists, and fresh numbers are unused. */
  ghost predicate Valid(p: Proc) {
    && NULL_INODE in p.data
    && p.nextFd >= 3
    && 0 < p.nextInode
    && (forall fd :: fd in p.fds ==> 0 <= fd < p.nextFd && p.fds[fd] in p.data)
    && (forall n :: n in p.names ==> p.names[n] in p.data && p.names[n] != NULL_INODE)
    && (forall i :: i in p.data ==> i < p.nextInode)
  }

  datatype Opened = Opened(fd: int, proc: Proc)

  /** access(path, F_OK) == 0 && access(path, R_OK) == 0. */
  predicate Readable(p: Proc, path: string) {
    path in p.names && path !in p.denied
  }

  /** Whether open(path, flags, 0644) fails: a missing or unreadable file for reading, a denied path for writing. */
  predicate OpenFails(p: Proc, path: string, flags: Flags) {
    if flags == ReadOnly then !Readable(p, path) else path in p.denied
  }

  /** open(path, flags, 0644): -1 and no change when it fails. */
  function Open(p: Proc, path: string, flags: Flags): (r: Opened)
    ensures OpenFails(p, path, flags) ==> r == Opened(-1, p)
    ensures !OpenFails(p, path, flags) ==>
      && r.fd == p.nextFd && path in r.proc.names
      && r.proc.fds == p.fds[r.fd := r.proc.names[path]]
      && r.proc.denied == p.denied && r.proc.nextFd == r.fd + 1
    ensures Valid(p) ==> (r.fd == -1 <==> OpenFails(p, path, flags))
    ensures path in p.names ==> r.proc.names == p.names
    ensures Valid(p) ==> Valid(r.proc)
    ensures flags == ReadOnly ==> r.proc.data == p.data && r.proc.names == p.names
    ensures flags == WriteAppend && path in p.names ==> r.proc.data == p.data
    ensures flags == WriteAppend && path !in p.names && !OpenFails(p, path, flags) ==>
      r.proc.data == p.data[r.proc.names[path] := []] && (Valid(p) ==> r.proc.names[path] !in p.data)
  {
    if flags == ReadOnly then
      if Readable(p, path) then
        Opened(p.nextFd, p.(fds := p.fds[p.nextFd := p.names[path]], nextFd := p.nextFd + 1))
      else
        Opened(-1, p)
    else if path in p.denied then
      Opened(-1, p)
    else if path in p.names then
      var ino := p.names[path];
      var data := if flags == WriteTrunc then p.data[ino := []] else p.data;
      Opened(p.nextFd, p.(data := data, fds := p.fds[p.nextFd := ino], nextFd := p.nextFd + 1))
    else
      var ino := p.nextInode;
      Opened(p.nextFd, p.(names := p.names[path := ino], data := p.data[ino := []],
                          fds := p.fds[p.nextFd := ino], nextFd := p.nextFd + 1, nextInode := ino + 1))
  }

  /** open("/dev/null", O_RDONLY), which never fails. */
  function OpenNull(p: Proc): (r: Opened)
    ensures r.fd == p.nextFd && r.proc.fds == p.fds[r.fd := NULL_INODE]
    ensures r.proc == p.(fds := r.proc.fds, nextFd := r.fd + 1)
    ensures Valid(p) ==> Valid(r.proc)
  {
    Opened(p.nextFd, p.(fds := p.fds[p.nextFd := NULL_INODE], nextFd := p.nextFd + 1))
  }

  /** dup2(fd, target): target refers to what fd refers to; a descriptor that is not open changes nothing. */
  function Dup2(p: Proc, fd: int, target: int): (r: Proc)
    ensures fd in p.fds ==> r == p.(fds := p.fds[target := p.fds[fd]])
    ensures fd !in p.fds ==> r == p
    ensures Valid(p) && 0 <= target < 3 ==> Valid(r)
  {
    if fd in p.fds then p.(fds := p.fds[target := p.fds[fd]]) else p
  }

  /** close(fd). */
  function Close(p: Proc, fd: int): (r: Proc)
    ensures fd !in r.fds && r == p.(fds := r.fds)
    ensures forall d :: d in r.fds <==> d in p.fds && d != fd
    ensures forall d :: d in r.fds ==> r.fds[d] == p.fds[d]
    ensures Valid(p) ==> Valid(r)
  {
    p.(fds := p.fds - {fd})
  }

  /** unlink(path): the name goes; open descriptors keep the contents. */
  function Unlink(p: Proc, path: string): (r: Proc)
    ensures path !in r.names && r == p.(names := r.names)
    ensures forall n :: n in r.names <==> n in p.names && n != path
    ensures forall n :: n in r.names ==> r.names[n] == p.names[n]
    ensures Valid(p) ==> Valid(r)
  {
    p.(names := p.names - {path})
  }

  /** ft_putendl_fd(line, fd): line and a newline appended to the file behind fd. */
  function WriteLine(p: Proc, fd: int, line: string): (r: Proc)
    ensures fd in p.fds && p.fds[fd] in p.data && p.fds[fd] != NULL_INODE ==>
      r == p.(data := p.data[p.fds[fd] := p.data[p.fds[fd]] + line + "\n"])
    ensures !(fd in p.fds && p.fds[fd] in p.data && p.fds[fd] != NULL_INODE) ==> r == p
    ensures Valid(p) ==> Valid(r)
  {
    if fd in p.fds && p.fds[fd] in p.data && p.fds[fd] != NULL_INODE then
      var ino := p.fds[fd];
      p.(data := p.data[ino := p.data[ino] + line + "\n"])
    else
      p
  }

  datatype Signal = SIGINT | SIGQUIT | SIGTSTP

  /** The three handlers the shell installs. */
  datatype Handler = ParentHandler | HeredocHandler | ChildHandler

  /** SIG_IGN, SIG_DFL, or one of the shell's handlers. */
  datatype Disposition = Ignore | Default | Handle(handler: Handler)

  datatype Signals = Signals(sigint: Disposition, sigquit: Disposition, sigtstp: Disposition)

  function DispositionOf(s: Signals, sig: Signal): Disposition {
    match sig
    case SIGINT => s.sigint
    case SIGQUIT => s.sigquit
    case SIGTSTP => s.sigtstp
  }
}
