/**
 * The unset builtin (srcs/builtins/ft_unset.c): every entry named exactly
 * by an argument is removed from the global and the local store, and the
 * other entries keep their order.
 *
 * delete_var is modelled twice: `TerminatorIndex` follows its index walk
 * as written, which writes the terminator one slot past the allocation
 * when the deleted entry is the last one; `DeleteVar` is the corrected
 * copy loop, whose writes all stay inside the allocation.
 */
module UnsetBuiltin {
  import opened Wrappers
  import opened CStr
  import opened EnvVars
  import opened ShellState

  /** Whether an entry of envp is named exactly str. */
  predicate HasVar(str: string, envp: seq<string>) {
    FindVar(str, |str|, envp).Some?
  }

  /** envp without the entries named exactly str, the others in their order. */
  function Without(str: string, envp: seq<string>): (r: seq<string>)
    ensures |r| <= |envp|
    decreases |envp|
  {
    if envp == [] then []
    else
      var last := envp[|envp| - 1];
      Without(str, envp[..|envp| - 1]) + (if NameMatch(str, |str|, last) then [] else [last])
  }

  /** Removal is a filter: an entry stays exactly when it is not named str. */
  lemma {:induction false} WithoutMembers(str: string, envp: seq<string>)
    ensures forall e :: e in Without(str, envp) <==> e in envp && !NameMatch(str, |str|, e)
    decreases |envp|
  {
    if envp != [] {
      var init := envp[..|envp| - 1];
      WithoutMembers(str, init);
      assert envp == init + [envp[|envp| - 1]];
    }
  }

  /** Removal keeps the relative order: it distributes over concatenation. */
  lemma {:induction false} WithoutAppend(str: string, a: seq<string>, b: seq<string>)
    ensures Without(str, a + b) == Without(str, a) + Without(str, b)
    decreases |b|
  {
    if b == [] {
      assert a + b == a;
    } else {
      var b' := b[..|b| - 1];
      assert (a + b)[..|a + b| - 1] == a + b';
      WithoutAppend(str, a, b');
    }
  }

  /** A store with no entry named str is left as it is. */
  lemma {:induction false} WithoutNoMatch(str: string, envp: seq<string>)
    requires !HasVar(str, envp)
    ensures Without(str, envp) == envp
    decreases |envp|
  {
    if envp != [] {
      var init := envp[..|envp| - 1];
      assert !HasVar(str, init) by {
        assert forall j :: 0 <= j < |init| ==> init[j] == envp[j];
      }
      WithoutNoMatch(str, init);
      assert envp == init + [envp[|envp| - 1]];
    }
  }

  /** is_var: the number of entries when one is named exactly str, otherwise 0. */
  method IsVar(str: string, envp: seq<string>) returns (n: nat)
    ensures n == (if HasVar(str, envp) then |envp| else 0)
  {
    var flag := 0;
    var index := 0;
    var size := |str|;
    while index < |envp|
      invariant 0 <= index <= |envp|
      invariant flag > 0 <==> exists j :: 0 <= j < index && NameMatch(str, size, envp[j])
    {
      if StrNEq(str, envp[index], size) && At(envp[index], size) == '=' {
        flag := flag + 1;
      }
      index := index + 1;
    }
    if flag > 0 {
      n := index;
    } else {
      n := 0;
    }
  }

  /**
   * Where delete_var as written puts the terminator: from slot j and entry
   * i, a matching entry is skipped and the next one (the terminator once
   * past the end) is copied without being tested.
   */
  function TerminatorIndex(str: string, envp: seq<string>, i: nat, j: nat): (t: nat)
    requires i <= |envp| + 1
    decreases |envp| + 1 - i
  {
    if i >= |envp| then j
    else
      var i' := if NameMatch(str, |str|, envp[i]) then i + 1 else i;
      TerminatorIndex(str, envp, i' + 1, j + 1)
  }

  /**
   * When only the last entry is named str, delete_var as written puts the
   * terminator at slot size_env, one past the size_env slots it allocated.
   */
  lemma {:induction false} DeleteLastOverflows(str: string, envp: seq<string>, i: nat)
    requires i < |envp|
    requires NameMatch(str, |str|, envp[|envp| - 1])
    requires forall j :: i <= j < |envp| - 1 ==> !NameMatch(str, |str|, envp[j])
    ensures TerminatorIndex(str, envp, i, i) == |envp|
    decreases |envp| - i
  {
    if i < |envp| - 1 {
      DeleteLastOverflows(str, envp, i + 1);
    }
  }

  /** `unset A` with the store ["A=1"]: is_var reports 1 slot, and the terminator goes to slot 1. */
  lemma DeleteOnlyEntryOverflows()
    ensures HasVar("A", ["A=1"])
    ensures TerminatorIndex("A", ["A=1"], 0, 0) == 1 == |["A=1"]|
  {
    assert NameMatch("A", 1, "A=1");
    DeleteLastOverflows("A", ["A=1"], 0);
  }

  /**
   * delete_var, corrected: the entries not named str are copied into a
   * fresh array of size_env slots and the terminator follows them. Since
   * at least one entry is named str, the terminator fits.
   */
  method DeleteVar(str: string, envp: seq<string>, sizeEnv: nat) returns (res: seq<string>)
    requires sizeEnv == |envp| && HasVar(str, envp)
    ensures res == Without(str, envp)
  {
    var size := |str|;
    var newEnvp := new Option<string>[sizeEnv](_ => None);
    var i := 0;
    var j := 0;
    ghost var k := FindVar(str, size, envp).value;
    while i < sizeEnv
      invariant 0 <= i <= sizeEnv
      invariant j == |Without(str, envp[..i])|
      invariant i <= k ==> j == i
      invariant i > k ==> j < i
      invariant forall m :: 0 <= m < j ==> newEnvp[m] == Some(Without(str, envp[..i])[m])
    {
      assert envp[..i + 1] == envp[..i] + [envp[i]];
      assert envp[..i + 1][..i] == envp[..i];
      if !(StrNEq(str, envp[i], size) && At(envp[i], size) == '=') {
        newEnvp[j] := Some(envp[i]);
        j := j + 1;
      }
      i := i + 1;
    }
    newEnvp[j] := None;
    assert envp[..i] == envp;
    var slots := newEnvp[..j];
    res := seq(|slots|, m requires 0 <= m < |slots| => if slots[m].Some? then slots[m].value else "");
  }

  /** The stores after unsetting each of names in turn. */
  function UnsetAll(envp: seq<string>, names: seq<string>): seq<string>
    decreases |names|
  {
    if names == [] then envp else UnsetAll(Without(names[0], envp), names[1..])
  }

  /** After unset, no entry is named exactly by any argument. */
  lemma {:induction false} UnsetRemovesNames(envp: seq<string>, names: seq<string>)
    ensures forall e, n :: e in UnsetAll(envp, names) && n in names ==> !NameMatch(n, |n|, e)
    ensures forall e :: e in UnsetAll(envp, names) ==> e in envp
    decreases |names|
  {
    if names != [] {
      var rest := Without(names[0], envp);
      WithoutMembers(names[0], envp);
      UnsetRemovesNames(rest, names[1..]);
      assert UnsetAll(envp, names) == UnsetAll(rest, names[1..]);
      forall e, n | e in UnsetAll(envp, names) && n in names
        ensures !NameMatch(n, |n|, e)
      {
        if n != names[0] {
          assert n in names[1..];
        } else {
          assert e in rest;
        }
      }
    }
  }

  /** A store with no entry named by any argument is left unchanged. */
  lemma {:induction false} UnsetKeepsUnnamedStore(envp: seq<string>, names: seq<string>)
    requires forall n :: n in names ==> !HasVar(n, envp)
    ensures UnsetAll(envp, names) == envp
    decreases |names|
  {
    if names != [] {
      WithoutNoMatch(names[0], envp);
      UnsetKeepsUnnamedStore(envp, names[1..]);
    }
  }

  /** An entry not named by any argument survives, in its place relative to the other survivors. */
  lemma {:induction false} UnsetKeepsOthers(envp: seq<string>, names: seq<string>, e: string)
    requires e in envp
    requires forall n :: n in names ==> !NameMatch(n, |n|, e)
    ensures e in UnsetAll(envp, names)
    decreases |names|
  {
    if names != [] {
      WithoutMembers(names[0], envp);
      UnsetKeepsOthers(Without(names[0], envp), names[1..], e);
    }
  }

  /**
   * ft_unset: argv[0] is the command name; each further argument is
   * removed from the global store, then from the local one, when the store
   * is not empty and holds it. The status is always 0.
   */
  method Unset(sh: Shell, argv: seq<string>) returns (r: int)
    requires |argv| >= 1
    modifies sh`global, sh`local, sh`status
    ensures r == 0 && sh.status == 0
    ensures sh.global == UnsetAll(old(sh.global), argv[1..])
    ensures sh.local == UnsetAll(old(sh.local), argv[1..])
  {
    if |argv| == 1 {
      sh.status := 0;
      return 0;
    }
    var i := 1;
    while i < |argv|
      invariant 1 <= i <= |argv|
      invariant UnsetAll(sh.global, argv[i..]) == UnsetAll(old(sh.global), argv[1..])
      invariant UnsetAll(sh.local, argv[i..]) == UnsetAll(old(sh.local), argv[1..])
    {
      var name := argv[i];
      if |sh.global| > 0 {
        var sizeEnv := IsVar(name, sh.global);
        if sizeEnv > 0 {
          sh.global := DeleteVar(name, sh.global, sizeEnv);
        } else {
          WithoutNoMatch(name, sh.global);
        }
      }
      if |sh.local| > 0 {
        var sizeEnv := IsVar(name, sh.local);
        if sizeEnv > 0 {
          sh.local := DeleteVar(name, sh.local, sizeEnv);
        } else {
          WithoutNoMatch(name, sh.local);
        }
      }
      assert argv[i..][1..] == argv[i + 1..];
      i := i + 1;
    }
    sh.status := 0;
    r := 0;
  }
}
