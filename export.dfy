/**
 * The export builtin (srcs/builtins/ft_export.c). An argument `KEY=VALUE`
 * replaces the entry named KEY or is appended; `KEY+=VALUE` appends VALUE
 * to the entry named KEY, or is appended verbatim. In LOCAL mode (a bare
 * assignment command) the global store is tried first and the local store
 * takes the assignment only when the global one has no such entry.
 *
 * check_key, ft_local_import and ft_print_export are not part of this
 * model: check_key is the function `checkKey` (0 when every key is well
 * formed), ft_local_import is `localImport` on the pair of stores, and the
 * listing printed for a bare `export` is left out.
 */
module ExportBuiltin {
  import opened Wrappers
  import opened CStr
  import opened EnvVars
  import opened ShellState

  /** replace_var's mode: LOCAL reports a missing entry, DEFAULT appends it. */
  datatype EnvMode = Local | Default

  /** The position of the first '=' of an assignment, computed as strlen(arg) - strlen(strchr(arg, '=')). */
  function KeySize(arg: string): nat
    requires '=' in arg
  {
    FirstIndex(arg, '=')
  }

  /** The first occurrence of a character is no later than any occurrence. */
  lemma FirstIndexAtMost(s: string, c: char, k: nat)
    requires k < |s| && s[k] == c
    ensures FirstIndex(s, c) <= k
  {
  }

  /** `KEY+=VALUE`: the character before the first '=' is '+'. */
  predicate IsAppend(arg: string)
    requires '=' in arg && KeySize(arg) > 0
  {
    arg[KeySize(arg) - 1] == '+'
  }

  /** What concatenate_var needs of its argument: a '+' with at least one character after it. */
  predicate Concatenable(str: string) {
    '+' in str && FirstIndex(str, '+') + 2 <= |str|
  }

  lemma AppendIsConcatenable(arg: string)
    requires '=' in arg && KeySize(arg) > 0 && IsAppend(arg)
    ensures Concatenable(arg)
  {
    FirstIndexAtMost(arg, '+', KeySize(arg) - 1);
  }

  /** The text after the first `+` and the character that follows it. */
  function AppendedValue(str: string): string
    requires Concatenable(str)
  {
    str[FirstIndex(str, '+') + 2..]
  }

  /** The store after replace_var in DEFAULT mode: the first entry named by str becomes str, or str is appended. */
  function Replaced(str: string, size: nat, envp: seq<string>): seq<string> {
    match FindVar(str, size, envp)
    case Some(k) => envp[k := str]
    case None => envp + [str]
  }

  /** The store after concatenate_var in DEFAULT mode: the value is appended to the named entry, or str is appended. */
  function Concatenated(str: string, envp: seq<string>): seq<string>
    requires Concatenable(str)
  {
    match FindVar(str, FirstIndex(str, '+'), envp)
    case Some(k) => envp[k := envp[k] + AppendedValue(str)]
    case None => envp + [str]
  }

  /** add_var: a fresh array of the old entries in order followed by a copy of str. */
  method AddVar(str: string, size: nat, envp: seq<string>) returns (res: seq<string>)
    requires size == |envp|
    ensures res == envp + [str]
  {
    var newEnvp := new string[size + 1];
    var i := 0;
    while i < size
      invariant 0 <= i <= size
      invariant newEnvp[..i] == envp[..i]
    {
      newEnvp[i] := envp[i];
      i := i + 1;
    }
    newEnvp[i] := str;
    res := newEnvp[..];
  }

  /**
   * replace_var: the first entry named by the first size characters of str
   * is replaced by str (0); with none, LOCAL mode reports -1 and changes
   * nothing, DEFAULT mode appends str (0).
   */
  method ReplaceVar(str: string, size: nat, envp: seq<string>, mode: EnvMode) returns (rc: int, res: seq<string>)
    ensures FindVar(str, size, envp).None? && mode == Local ==> rc == -1 && res == envp
    ensures FindVar(str, size, envp).Some? || mode == Default ==> rc == 0 && res == Replaced(str, size, envp)
  {
    var i := 0;
    while i < |envp|
      invariant 0 <= i <= |envp|
      invariant forall j :: 0 <= j < i ==> !NameMatch(str, size, envp[j])
    {
      if StrNEq(str, envp[i], size) && At(envp[i], size) == '=' {
        return 0, envp[i := str];
      }
      i := i + 1;
    }
    if mode == Local {
      return -1, envp;
    }
    res := AddVar(str, i, envp);
    rc := 0;
  }

  /**
   * concatenate_var: the entry named by the text before the first '+' gets
   * the text after "+=" appended (0); with none, LOCAL mode reports -1 and
   * changes nothing, DEFAULT mode appends str itself (0).
   */
  method ConcatenateVar(str: string, envp: seq<string>, mode: EnvMode) returns (rc: int, res: seq<string>)
    requires Concatenable(str)
    ensures FindVar(str, FirstIndex(str, '+'), envp).None? && mode == Local ==> rc == -1 && res == envp
    ensures FindVar(str, FirstIndex(str, '+'), envp).Some? || mode == Default ==> rc == 0 && res == Concatenated(str, envp)
  {
    var i := 0;
    while i < |envp|
      invariant 0 <= i <= |envp|
      invariant forall j :: 0 <= j < i ==> !NameMatch(str, FirstIndex(str, '+'), envp[j])
    {
      var value := str[FirstIndex(str, '+') + 2..];
      var size := (|str| - |value|) - 2;
      if StrNEq(str, envp[i], size) && At(envp[i], size) == '=' {
        return 0, envp[i := envp[i] + value];
      }
      i := i + 1;
    }
    if mode == Local {
      return -1, envp;
    }
    res := AddVar(str, i, envp);
    rc := 0;
  }

  /** After a replacement, the name is found again, at its old place or at the end, holding str; nothing else moves. */
  lemma ReplacedFindsValue(str: string, size: nat, envp: seq<string>)
    requires At(str, size) == '='
    ensures var r := Replaced(str, size, envp);
      var k := if FindVar(str, size, envp).Some? then FindVar(str, size, envp).value else |envp|;
      && FindVar(str, size, r) == Some(k) && r[k] == str
      && |r| == (if FindVar(str, size, envp).Some? then |envp| else |envp| + 1)
      && forall j :: 0 <= j < |envp| && j != k ==> r[j] == envp[j]
  {
    var r := Replaced(str, size, envp);
    var k := if FindVar(str, size, envp).Some? then FindVar(str, size, envp).value else |envp|;
    assert NameMatch(str, size, r[k]);
    assert forall j :: 0 <= j < k ==> r[j] == envp[j];
    FindVarIs(str, size, r, k);
  }

  /** Exporting the same assignment twice is the same as exporting it once. */
  lemma ReplacedIdempotent(str: string, size: nat, envp: seq<string>)
    requires At(str, size) == '='
    ensures Replaced(str, size, Replaced(str, size, envp)) == Replaced(str, size, envp)
  {
    var r := Replaced(str, size, envp);
    ReplacedFindsValue(str, size, envp);
    var k := FindVar(str, size, r).value;
    assert r[k := str] == r;
  }

  /** Concatenation keeps the entry's name, so the same entry is found again, now ending with the appended value. */
  lemma ConcatenatedKeepsEntry(str: string, envp: seq<string>)
    requires Concatenable(str)
    requires FindVar(str, FirstIndex(str, '+'), envp).Some?
    ensures var size := FirstIndex(str, '+');
      var k := FindVar(str, size, envp).value;
      var r := Concatenated(str, envp);
      && |r| == |envp| && r[k] == envp[k] + AppendedValue(str)
      && FindVar(str, size, r) == Some(k)
      && forall j :: 0 <= j < |envp| && j != k ==> r[j] == envp[j]
  {
    var size := FirstIndex(str, '+');
    var k := FindVar(str, size, envp).value;
    var r := Concatenated(str, envp);
    assert |envp[k]| > size;
    assert NameMatch(str, size, r[k]) by {
      forall m | 0 <= m < size ensures At(str, m) == At(r[k], m) {
        assert At(r[k], m) == At(envp[k], m);
      }
      assert At(r[k], size) == At(envp[k], size);
    }
    FindVarIs(str, size, r, k);
  }

  /**
   * With no entry of that name, DEFAULT concatenation appends the argument
   * verbatim, `+=` included, so the name is still not found afterwards.
   */
  lemma ConcatenatedVerbatimStaysUnnamed(str: string, envp: seq<string>)
    requires Concatenable(str)
    requires FindVar(str, FirstIndex(str, '+'), envp).None?
    ensures Concatenated(str, envp) == envp + [str]
    ensures FindVar(str, FirstIndex(str, '+'), Concatenated(str, envp)).None?
  {
    var size := FirstIndex(str, '+');
    var r := Concatenated(str, envp);
    assert At(str, size) == '+';
    assert !NameMatch(str, size, r[|envp|]);
  }

  /** What ft_export_local needs of check_key: a zero result means every assignment has a non-empty key. */
  predicate KeysChecked(args: seq<string>) {
    forall a :: a in args && '=' in a ==> 0 < FirstIndex(a, '=')
  }

  /**
   * One LOCAL-mode assignment: the global store takes it when it already
   * has the name, otherwise the local store does (DEFAULT mode there).
   */
  function LocalAssign(g: seq<string>, l: seq<string>, arg: string): (r: (seq<string>, seq<string>))
    requires '=' in arg && KeySize(arg) > 0
  {
    if IsAppend(arg) then
      AppendIsConcatenable(arg);
      if FindVar(arg, FirstIndex(arg, '+'), g).Some? then (Concatenated(arg, g), l) else (g, Concatenated(arg, l))
    else
      if FindVar(arg, KeySize(arg), g).Some? then (Replaced(arg, KeySize(arg), g), l)
      else (g, Replaced(arg, KeySize(arg), l))
  }

  /** The stores after ft_export_local's loop: assignments in order, up to the first argument without '='. */
  function LocalAssignments(g: seq<string>, l: seq<string>, args: seq<string>): (seq<string>, seq<string>)
    requires KeysChecked(args)
    decreases |args|
  {
    if args == [] || '=' !in args[0] then (g, l)
    else
      var (g', l') := LocalAssign(g, l, args[0]);
      LocalAssignments(g', l', args[1..])
  }

  /**
   * Global-then-local precedence: a name the global store holds is updated
   * there and the local store is untouched; any other name goes to the
   * local store and the global store is untouched. Never both.
   */
  lemma LocalPrecedence(g: seq<string>, l: seq<string>, arg: string)
    requires '=' in arg && KeySize(arg) > 0
    ensures var size := if IsAppend(arg) then FirstIndex(arg, '+') else KeySize(arg);
      var r := LocalAssign(g, l, arg);
      && (FindVar(arg, size, g).Some? ==> r.1 == l)
      && (FindVar(arg, size, g).None? ==> r.0 == g)
    ensures !IsAppend(arg) ==>
      var r := LocalAssign(g, l, arg);
      var store := if FindVar(arg, KeySize(arg), g).Some? then r.0 else r.1;
      FindVar(arg, KeySize(arg), store).Some? && store[FindVar(arg, KeySize(arg), store).value] == arg
  {
    if !IsAppend(arg) {
      ReplacedFindsValue(arg, KeySize(arg), g);
      ReplacedFindsValue(arg, KeySize(arg), l);
    }
  }

  /** An assignment command stops at its first argument without '=': later arguments change nothing. */
  lemma {:induction false} LocalStopsAtFirstNonAssignment(g: seq<string>, l: seq<string>, args: seq<string>, j: nat)
    requires KeysChecked(args)
    requires j < |args| && '=' !in args[j]
    ensures KeysChecked(args[..j])
    ensures LocalAssignments(g, l, args) == LocalAssignments(g, l, args[..j])
    decreases j
  {
    assert forall a :: a in args[..j] ==> a in args;
    if j > 0 && '=' in args[0] {
      var (g', l') := LocalAssign(g, l, args[0]);
      assert forall a :: a in args[1..] ==> a in args;
      assert args[1..][j - 1] == args[j];
      LocalStopsAtFirstNonAssignment(g', l', args[1..], j - 1);
      assert args[..j][1..] == args[1..][..j - 1];
    }
  }

  /** The stores after ft_export's DEFAULT-mode loop over its arguments. */
  function Exports(g: seq<string>, l: seq<string>, args: seq<string>,
                   localImport: (seq<string>, seq<string>, string) -> (seq<string>, seq<string>)): (seq<string>, seq<string>)
    requires KeysChecked(args)
    decreases |args|
  {
    if args == [] then (g, l)
    else
      var arg := args[0];
      var (g', l') :=
        if '=' !in arg then localImport(g, l, arg)
        else if IsAppend(arg) then (AppendIsConcatenable(arg); (Concatenated(arg, g), l))
        else (Replaced(arg, KeySize(arg), g), l);
      Exports(g', l', args[1..], localImport)
  }

  /** DEFAULT-mode export of assignments only never touches the local store. */
  lemma {:induction false} ExportsKeepLocal(g: seq<string>, l: seq<string>, args: seq<string>,
                                           localImport: (seq<string>, seq<string>, string) -> (seq<string>, seq<string>))
    requires KeysChecked(args)
    requires forall a :: a in args ==> '=' in a
    ensures Exports(g, l, args, localImport).1 == l
    decreases |args|
  {
    if args != [] {
      var arg := args[0];
      assert forall a :: a in args[1..] ==> a in args;
      if IsAppend(arg) {
        AppendIsConcatenable(arg);
        ExportsKeepLocal(Concatenated(arg, g), l, args[1..], localImport);
      } else {
        ExportsKeepLocal(Replaced(arg, KeySize(arg), g), l, args[1..], localImport);
      }
    }
  }

  /**
   * ft_export_local: a failing check_key gives status 2 and no change;
   * otherwise the assignments are made up to the first argument without
   * '=', and the status is 0.
   */
  method ExportLocal(sh: Shell, argv: seq<string>, checkKey: seq<string> -> int) returns (r: int)
    requires checkKey(argv) == 0 ==> KeysChecked(argv)
    modifies sh`global, sh`local, sh`status
    ensures checkKey(argv) != 0 ==> r == 2 && sh.global == old(sh.global) && sh.local == old(sh.local)
    ensures checkKey(argv) == 0 ==> r == 0 && (sh.global, sh.local) == LocalAssignments(old(sh.global), old(sh.local), argv)
    ensures sh.status == r
  {
    if checkKey(argv) != 0 {
      sh.status := 2;
      return 2;
    }
    var i := 0;
    while i < |argv|
      invariant 0 <= i <= |argv|
      invariant KeysChecked(argv[i..])
      invariant LocalAssignments(sh.global, sh.local, argv[i..]) == LocalAssignments(old(sh.global), old(sh.local), argv)
    {
      var arg := argv[i];
      assert arg == argv[i..][0];
      assert forall a :: a in argv[i + 1..] ==> a in argv[i..];
      if '=' !in arg {
        sh.status := 0;
        return 0;
      }
      var sKey := |arg| - |arg[FirstIndex(arg, '=')..]|;
      assert sKey == KeySize(arg) > 0;
      if arg[sKey - 1] == '+' {
        AppendIsConcatenable(arg);
        var rc, g := ConcatenateVar(arg, sh.global, Local);
        sh.global := g;
        if rc == -1 {
          var _, l := ConcatenateVar(arg, sh.local, Default);
          sh.local := l;
        }
      } else {
        var rc, g := ReplaceVar(arg, sKey, sh.global, Local);
        sh.global := g;
        if rc == -1 {
          var _, l := ReplaceVar(arg, sKey, sh.local, Default);
          sh.local := l;
        }
      }
      assert argv[i..][1..] == argv[i + 1..];
      i := i + 1;
    }
    sh.status := 0;
    r := 0;
  }

  /**
   * ft_export: LOCAL mode is ft_export_local on the whole argv; otherwise
   * argv[0] is the command name, a bare `export` changes no store (its
   * listing is not modelled), a failing check_key gives status 2 and no
   * change, and every argument is then exported into the global store
   * (or handed to ft_local_import when it has no '=').
   */
  method Export(sh: Shell, argv: seq<string>, mode: EnvMode, checkKey: seq<string> -> int,
                localImport: (seq<string>, seq<string>, string) -> (seq<string>, seq<string>)) returns (r: int)
    requires |argv| >= 1
    requires mode == Local && checkKey(argv) == 0 ==> KeysChecked(argv)
    requires mode == Default && checkKey(argv[1..]) == 0 ==> KeysChecked(argv[1..])
    modifies sh`global, sh`local, sh`status
    ensures sh.status == r
    ensures mode == Local ==>
      if checkKey(argv) != 0 then r == 2 && sh.global == old(sh.global) && sh.local == old(sh.local)
      else r == 0 && (sh.global, sh.local) == LocalAssignments(old(sh.global), old(sh.local), argv)
    ensures mode == Default && |argv| == 1 ==> r == 0 && sh.global == old(sh.global) && sh.local == old(sh.local)
    ensures mode == Default && |argv| > 1 && checkKey(argv[1..]) != 0 ==>
      r == 2 && sh.global == old(sh.global) && sh.local == old(sh.local)
    ensures mode == Default && |argv| > 1 && checkKey(argv[1..]) == 0 ==>
      r == 0 && (sh.global, sh.local) == Exports(old(sh.global), old(sh.local), argv[1..], localImport)
  {
    if mode == Local {
      r := ExportLocal(sh, argv, checkKey);
      return;
    }
    if |argv| == 1 {
      sh.status := 0;
      return 0;
    }
    var args := argv[1..];
    if checkKey(args) != 0 {
      sh.status := 2;
      return 2;
    }
    var i := 0;
    while i < |args|
      invariant 0 <= i <= |args|
      invariant KeysChecked(args[i..])
      invariant Exports(sh.global, sh.local, args[i..], localImport) == Exports(old(sh.global), old(sh.local), args, localImport)
    {
      var arg := args[i];
      assert arg == args[i..][0];
      assert forall a :: a in args[i + 1..] ==> a in args[i..];
      if '=' !in arg {
        var (g, l) := localImport(sh.global, sh.local, arg);
        sh.global, sh.local := g, l;
      } else {
        var sKey := |arg| - |arg[FirstIndex(arg, '=')..]|;
        assert sKey == KeySize(arg) > 0;
        if arg[sKey - 1] == '+' {
          AppendIsConcatenable(arg);
          var _, g := ConcatenateVar(arg, sh.global, Default);
          sh.global := g;
        } else {
          var _, g := ReplaceVar(arg, sKey, sh.global, Default);
          sh.global := g;
        }
      }
      assert args[i..][1..] == args[i + 1..];
      i := i + 1;
    }
    sh.status := 0;
    r := 0;
  }
}
