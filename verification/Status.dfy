/** `health.GetStatus`: the health of a named check, looked up in its source's registry. */
module Status {

  /** The sources of health results, each telling which of its checks are healthy. */
  type Registry = map<string, string -> bool>

  /** The first slash of `s` from position `i` on, or its end. */
  function Slash(s: string, i: nat): (d: nat)
    requires i <= |s|
    ensures i <= d <= |s| && (d < |s| ==> s[d] == '/')
    ensures forall j :: i <= j < d ==> s[j] != '/'
    decreases |s| - i
  {
    if i == |s| || s[i] == '/' then i else Slash(s, i + 1)
  }

  /** A name is a source, a slash and a check of that source; anything else is of unknown health. */
  function GetStatus(reg: Registry, name: string): (healthy: bool) {
    var d := Slash(name, 0);
    d < |name| && name[..d] in reg && reg[name[..d]](name[d + 1..])
  }

  function Oracle(reg: Registry): (healthy: string -> bool) {
    name => GetStatus(reg, name)
  }

  /** The check that a name made of source and check finds. */
  lemma StatusOfCheck(reg: Registry, source: string, check: string)
    requires '/' !in source
    ensures GetStatus(reg, source + "/" + check) <==> source in reg && reg[source](check)
  {
    var name := source + "/" + check;
    assert name[|source|] == '/';
    assert forall j :: 0 <= j < |source| ==> name[j] == source[j] && source[j] != '/';
    assert Slash(name, 0) == |source|;
    assert name[..|source|] == source && name[|source| + 1..] == check;
  }

  /** A name without a slash, such as a bare address, is never healthy. */
  lemma BareNameIsUnhealthy(reg: Registry, name: string)
    requires '/' !in name
    ensures !GetStatus(reg, name)
  {
  }
}
