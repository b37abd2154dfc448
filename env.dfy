/**
 * The environment stores: ordered `KEY=VALUE` entries, and the name test
 * that export and unset share: an entry matches a name of `size`
 * characters when strncmp agrees on those characters and the entry has
 * '=' right after them.
 */
module EnvVars {
  import opened Wrappers
  import opened CStr

  /** strncmp(str, e, size) == 0 && e[size] == '='. */
  predicate NameMatch(str: string, size: nat, e: string) {
    StrNEq(str, e, size) && At(e, size) == '='
  }

  /** Index of the first entry, from i on, whose name is the first size characters of str. */
  function FindFrom(str: string, size: nat, envp: seq<string>, i: nat): (r: Option<nat>)
    requires i <= |envp|
    ensures r.Some? ==> i <= r.value < |envp| && NameMatch(str, size, envp[r.value])
    ensures r.Some? ==> forall j :: i <= j < r.value ==> !NameMatch(str, size, envp[j])
    ensures r.None? ==> forall j :: i <= j < |envp| ==> !NameMatch(str, size, envp[j])
    decreases |envp| - i
  {
    if i == |envp| then None
    else if NameMatch(str, size, envp[i]) then Some(i)
    else FindFrom(str, size, envp, i + 1)
  }

  /** The entry the index loops of replace_var and concatenate_var stop at. */
  function FindVar(str: string, size: nat, envp: seq<string>): (r: Option<nat>)
    ensures r.Some? ==> r.value < |envp| && NameMatch(str, size, envp[r.value])
    ensures r.Some? ==> forall j :: 0 <= j < r.value ==> !NameMatch(str, size, envp[j])
    ensures r.None? ==> forall j :: 0 <= j < |envp| ==> !NameMatch(str, size, envp[j])
  {
    FindFrom(str, size, envp, 0)
  }

  /** An index whose entry matches, with no match before it, is what FindVar returns. */
  lemma FindVarIs(str: string, size: nat, envp: seq<string>, k: nat)
    requires k < |envp| && NameMatch(str, size, envp[k])
    requires forall j :: 0 <= j < k ==> !NameMatch(str, size, envp[j])
    ensures FindVar(str, size, envp) == Some(k)
  {
  }

  /**
   * For C strings the test on the whole of str is exact: the entry is str,
   * then '=', then its value.
   */
  lemma NameMatchExact(str: string, e: string)
    requires IsCString(str) && IsCString(e)
    ensures NameMatch(str, |str|, e) <==> str + "=" <= e
  {
    StrNEqPrefix(e, str);
    assert StrNEq(str, e, |str|) <==> StrNEq(e, str, |str|);
    if str + "=" <= e {
      assert str <= e;
      assert e[|str|] == (str + "=")[|str|];
    }
    if NameMatch(str, |str|, e) {
      assert str <= e && |str| < |e|;
      assert (str + "=")[..|str|] == str;
    }
  }

  /**
   * An entry `key=value` with no '=' in its key matches a name without '='
   * exactly when the name is the key: unsetting A never touches AB=1.
   */
  lemma KeyMatchExact(str: string, key: string, value: string)
    requires IsCString(str) && IsCString(key + "=" + value)
    requires '=' !in str && '=' !in key
    ensures NameMatch(str, |str|, key + "=" + value) <==> str == key
  {
    var e := key + "=" + value;
    NameMatchExact(str, e);
    if str + "=" <= e {
      assert e[|str|] == '=' && e[|key|] == '=';
      assert forall i :: 0 <= i < |str| ==> e[i] == str[i] != '=';
      assert forall i :: 0 <= i < |key| ==> e[i] == key[i] != '=';
      assert str == e[..|str|] == key;
    }
    if str == key {
      assert e == str + "=" + value;
    }
  }
}
