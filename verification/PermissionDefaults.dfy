/** The rules the program starts with, and the role each namespace needs under them. */
module PermissionDefaults {
  import opened Wildcard
  import opened Permission

  const BUILT_IN: seq<AclRule> := [
    AclRule("*", "admin", 0, true), AclRule("common:*", "guest", 7, true), AclRule("guest:*", "guest", 6, true),
    AclRule("rpc.*", "guest", 4, true), AclRule("rpc:*", "guest", 4, true), AclRule("client:*", "client", 7, true),
    AclRule("admin:*", "admin", 6, true)]

  const PREFIXES: seq<string> := ["", "common:", "guest:", "rpc.", "rpc:", "client:", "admin:"]

  lemma Patterns(k: int)
    requires 0 <= k < 7
    ensures BUILT_IN[k].pattern == PREFIXES[k] + "*" && StarFree(PREFIXES[k])
    ensures BUILT_IN[k].specificity == |PREFIXES[k]|
  {
    if k == 0 {
    } else if k == 1 {
      assert "common:" + "*" == "common:*";
    } else if k == 2 {
      assert "guest:" + "*" == "guest:*";
    } else if k == 3 {
      assert "rpc." + "*" == "rpc.*";
    } else if k == 4 {
      assert "rpc:" + "*" == "rpc:*";
    } else if k == 5 {
      assert "client:" + "*" == "client:*";
    } else {
      assert "admin:" + "*" == "admin:*";
    }
  }

  lemma AppliesIffPrefix(k: int, name: string)
    requires 0 <= k < 7 && InnerStarFree(name)
    ensures Applies(BUILT_IN[k], name) <==> PREFIXES[k] <= name
  {
    hide Scan, Matches, StarFree;
    Patterns(k);
    ScanIsMeaning(BUILT_IN[k].pattern, name);
    PrefixPattern(PREFIXES[k], name);
  }

  /** The specificities are those the patterns are declared with. */
  lemma BuiltInSpecificity(k: int)
    requires 0 <= k < 7
    ensures BUILT_IN[k].specificity == SpecificityOf(BUILT_IN[k].pattern) && !StarFree(BUILT_IN[k].pattern)
  {
    hide Literals;
    Patterns(k);
    var prefix := PREFIXES[k];
    LiteralsAfter(prefix, "*");
    assert Literals("*") == 0 by { NoLiterals("*"); }
    assert BUILT_IN[k].pattern[|prefix|] == '*';
  }

  /** The role of a namespace. */
  function NamespaceRole(name: string): string {
    if "common:" <= name || "guest:" <= name || "rpc." <= name || "rpc:" <= name then "guest"
    else if "client:" <= name then "client"
    else "admin"
  }

  lemma OnePrefix(name: string, j: int, k: int)
    requires 0 < j < 7 && 0 < k < 7 && PREFIXES[j] <= name && PREFIXES[k] <= name
    ensures j == k
  {
    assert name[0] == PREFIXES[j][0] == PREFIXES[k][0] && name[1] == PREFIXES[j][1] == PREFIXES[k][1];
    assert |PREFIXES[j]| > 3 && |PREFIXES[k]| > 3;
    assert name[3] == PREFIXES[j][3] == PREFIXES[k][3];
  }

  /** Under the built-in rules a name without an inner star needs the role of its namespace, and
      administrators where nothing is declared. */
  lemma BuiltInRoles(name: string, role: string)
    requires InnerStarFree(name) && RoleNeeded(BUILT_IN, name, role)
    ensures role == NamespaceRole(name)
  {
    hide Applies;
    AppliesIffPrefix(0, name);
    var i :| Decides(BUILT_IN, name, i) && role == BUILT_IN[i].minRole;
    AppliesIffPrefix(i, name);
    Patterns(i);
    forall k | 0 < k < 7 && PREFIXES[k] <= name ensures k == i {
      AppliesIffPrefix(k, name);
      Patterns(k);
      StricterWins(BUILT_IN, name, i, k);
      if i > 0 {
        OnePrefix(name, i, k);
      }
    }
    assert PREFIXES[1] == "common:" && PREFIXES[2] == "guest:" && PREFIXES[3] == "rpc.";
    assert PREFIXES[4] == "rpc:" && PREFIXES[5] == "client:";
    if i > 0 {
      assert forall k :: 0 < k < 7 && k != i ==> !(PREFIXES[k] <= name);
    }
  }
}
