/** The access list: declared patterns with a minimum role, resolved to the most specific match. */
module Permission {
  import opened Wildcard

  const ROLE_GUEST: string := "guest"
  const ROLE_CLIENT: string := "client"
  const ROLE_ADMIN: string := "admin"
  const EXACT_BONUS: nat := 0x10_0000

  datatype AclRule = AclRule(pattern: string, minRole: string, specificity: int, hasWildcard: bool)

  /** Unknown roles count as guests. */
  function LevelOf(role: string): int {
    if role == ROLE_CLIENT then 1 else if role == ROLE_ADMIN then 2 else 0
  }

  function SpecificityOf(pattern: string): int {
    if StarFree(pattern) then EXACT_BONUS else Literals(pattern)
  }

  lemma LiteralsPush(pattern: string, c: char)
    ensures Literals(pattern + [c]) == Literals(pattern) + if c == '*' then 0 else 1
  {
    if pattern == "" {
      assert pattern + [c] == [c];
    } else {
      LiteralsPush(pattern[1..], c);
      assert (pattern + [c])[1..] == pattern[1..] + [c];
    }
  }

  method ComputeSpecificity(pattern: string) returns (spec: int, hasWildcard: bool)
    ensures spec == SpecificityOf(pattern) && hasWildcard == !StarFree(pattern)
  {
    var literal := 0;
    hasWildcard := false;
    var i := 0;
    while i < |pattern|
      invariant 0 <= i <= |pattern|
      invariant literal == Literals(pattern[..i]) && hasWildcard == !StarFree(pattern[..i])
    {
      assert pattern[..i + 1] == pattern[..i] + [pattern[i]];
      LiteralsPush(pattern[..i], pattern[i]);
      StarFreePush(pattern[..i], pattern[i]);
      if pattern[i] != '*' {
        literal := literal + 1;
      } else {
        hasWildcard := true;
      }
      i := i + 1;
    }
    assert pattern[..i] == pattern;
    return if !hasWildcard then EXACT_BONUS else literal, hasWildcard;
  }

  lemma StarFreePush(s: string, c: char)
    ensures StarFree(s + [c]) == (StarFree(s) && c != '*')
  {
    var t := s + [c];
    assert t[|s|] == c;
    assert forall i :: 0 <= i < |s| ==> t[i] == s[i];
  }

  /** A bare method name belongs to the default namespace. */
  function Normalised(name: string): string {
    if ':' !in name && !("rpc." <= name) then "common:" + name else name
  }

  predicate Applies(rule: AclRule, name: string) {
    Scan(rule.pattern, name, 0, 0, -1, 0)
  }

  /** Rule `b` is preferred to rule `a`: more specific, or as specific and stricter. */
  predicate Outranks(b: AclRule, a: AclRule) {
    b.specificity > a.specificity || (b.specificity == a.specificity && LevelOf(b.minRole) > LevelOf(a.minRole))
  }

  /** Rule `i` decides: nothing that applies outranks it, and it outranks what came before. */
  ghost predicate Decides(rules: seq<AclRule>, name: string, i: int) {
    && 0 <= i < |rules| && Applies(rules[i], name)
    && (forall j :: 0 <= j < |rules| && Applies(rules[j], name) ==> !Outranks(rules[j], rules[i]))
    && (forall j :: 0 <= j < i && Applies(rules[j], name) ==> Outranks(rules[i], rules[j]))
  }

  /** The role the rules ask for: the deciding rule's, or the administrators' if none applies. */
  ghost predicate RoleNeeded(rules: seq<AclRule>, name: string, role: string) {
    && ((forall i :: 0 <= i < |rules| ==> !Applies(rules[i], name)) ==> role == "admin")
    && ((exists i :: 0 <= i < |rules| && Applies(rules[i], name)) ==>
          exists i :: Decides(rules, name, i) && role == rules[i].minRole)
  }

  class AccessList {
    var rules: seq<AclRule>

    ghost predicate Valid()
      reads this
    {
      && (forall i :: 0 <= i < |rules| ==> rules[i].specificity == SpecificityOf(rules[i].pattern)
                                           && rules[i].hasWildcard == !StarFree(rules[i].pattern))
      && (forall i, j :: 0 <= i < j < |rules| ==> rules[i].pattern != rules[j].pattern)
    }

    constructor ()
      ensures Valid() && rules == []
    {
      rules := [];
    }

    /** Declares a rule; a pattern declared again replaces its rule in place. */
    method Allow(pattern: string, minRole: string)
      requires Valid()
      modifies this
      ensures Valid()
      ensures var rule := AclRule(pattern, minRole, SpecificityOf(pattern), !StarFree(pattern));
              if exists i :: 0 <= i < |old(rules)| && old(rules)[i].pattern == pattern
              then exists i :: 0 <= i < |old(rules)| && old(rules)[i].pattern == pattern && rules == old(rules)[i := rule]
              else rules == old(rules) + [rule]
    {
      var spec, hasWildcard := ComputeSpecificity(pattern);
      var rule := AclRule(pattern, minRole, spec, hasWildcard);
      var i := 0;
      while i < |rules|
        invariant 0 <= i <= |rules| && rules == old(rules)
        invariant forall j :: 0 <= j < i ==> rules[j].pattern != pattern
      {
        if rules[i].pattern == pattern {
          rules := rules[i := rule];
          return;
        }
        i := i + 1;
      }
      rules := rules + [rule];
    }

    /** The role of the deciding rule; methods nothing applies to are for administrators. */
    method ResolveMinRole(name: string) returns (role: string)
      requires Valid()
      ensures RoleNeeded(rules, if ':' !in name && !("rpc." <= name) then "common:" + name else name, role)
    {
      hide Scan, SpecificityOf, Decides;
      var n := Normalised(name);
      var bestSpec, bestRole, matched := -1, ROLE_ADMIN, false;
      ghost var best := -1;
      var i := 0;
      while i < |rules|
        invariant 0 <= i <= |rules|
        invariant !matched ==> bestSpec == -1 && forall j :: 0 <= j < i ==> !Applies(rules[j], n)
        invariant matched ==> 0 <= best < i && Decides(rules[..i], n, best)
                              && bestSpec == rules[best].specificity && bestRole == rules[best].minRole
      {
        var r := rules[i];
        var applies := WildcardMatch(r.pattern, n);
        SpecificityPositive(r.pattern);
        if applies && (r.specificity > bestSpec || (r.specificity == bestSpec && LevelOf(r.minRole) > LevelOf(bestRole))) {
          if matched {
            NewBest(rules, n, i, best);
          } else {
            FirstBest(rules, n, i);
          }
          bestSpec, bestRole, matched := r.specificity, r.minRole, true;
          best := i;
        } else if matched {
          SameBest(rules, n, i, best);
        }
        i := i + 1;
      }
      assert rules[..i] == rules;
      if matched {
        DecidingApplies(rules, n, best);
      }
      return if !matched then ROLE_ADMIN else bestRole;
    }

    /** Guests' methods are open to everyone; any other needs the very role it asks for. */
    method CheckPrincipal(roles: set<string>, name: string) returns (allowed: bool, ghost required: string)
      requires Valid()
      ensures RoleNeeded(rules, if ':' !in name && !("rpc." <= name) then "common:" + name else name, required)
      ensures allowed <==> required == "guest" || required in roles
    {
      hide RoleNeeded;
      var min := ResolveMinRole(name);
      required := min;
      allowed := min == ROLE_GUEST || min in roles;
    }
  }

  lemma SpecificityPositive(pattern: string)
    ensures SpecificityOf(pattern) >= 0
  {
  }

  lemma DecidingApplies(rules: seq<AclRule>, n: string, i: int)
    requires Decides(rules, n, i)
    ensures 0 <= i < |rules| && Applies(rules[i], n)
  {
  }

  lemma FirstBest(rules: seq<AclRule>, n: string, i: int)
    requires 0 <= i < |rules| && Applies(rules[i], n) && forall j :: 0 <= j < i ==> !Applies(rules[j], n)
    ensures Decides(rules[..i + 1], n, i)
  {
    hide Applies;
  }

  lemma NewBest(rules: seq<AclRule>, n: string, i: int, best: int)
    requires 0 <= i < |rules| && Decides(rules[..i], n, best)
    requires Applies(rules[i], n) && Outranks(rules[i], rules[best])
    ensures Decides(rules[..i + 1], n, i)
  {
    hide Applies;
    forall j | 0 <= j < i && Applies(rules[j], n) ensures Outranks(rules[i], rules[j]) {
      assert rules[..i][j] == rules[j];
    }
  }

  lemma SameBest(rules: seq<AclRule>, n: string, i: int, best: int)
    requires 0 <= i < |rules| && Decides(rules[..i], n, best)
    requires Applies(rules[i], n) ==> !Outranks(rules[i], rules[best])
    ensures Decides(rules[..i + 1], n, best)
  {
    hide Applies, Outranks;
    assert forall j :: 0 <= j < i ==> rules[..i][j] == rules[j];
  }

  // ---- what resolution promises ---------------------------------------------------------------------

  /** At most one rule decides. */
  lemma OneDecides(rules: seq<AclRule>, n: string, i: int, j: int)
    requires Decides(rules, n, i) && Decides(rules, n, j)
    ensures i == j
  {
    hide Applies;
    assert !Outranks(rules[j], rules[i]) && !Outranks(rules[i], rules[j]);
  }

  /** The rules ask for one role only. */
  lemma OneRoleNeeded(rules: seq<AclRule>, n: string, a: string, b: string)
    requires RoleNeeded(rules, n, a) && RoleNeeded(rules, n, b)
    ensures a == b
  {
    hide Applies;
    if exists k :: 0 <= k < |rules| && Applies(rules[k], n) {
      var i :| Decides(rules, n, i) && a == rules[i].minRole;
      var j :| Decides(rules, n, j) && b == rules[j].minRole;
      OneDecides(rules, n, i, j);
    }
  }

  /** The deciding rule is as specific as any that applies, and among those as strict as any:
      administrators before clients, clients before everyone else. */
  lemma StricterWins(rules: seq<AclRule>, n: string, i: int, j: int)
    requires Decides(rules, n, i) && 0 <= j < |rules| && Applies(rules[j], n)
    ensures rules[i].specificity >= rules[j].specificity
    ensures rules[i].specificity == rules[j].specificity && rules[j].minRole == "admin" ==> rules[i].minRole == "admin"
    ensures rules[i].specificity == rules[j].specificity && rules[j].minRole == "client" ==>
              rules[i].minRole == "admin" || rules[i].minRole == "client"
  {
    hide Applies;
  }

  /** Without stars the scan is equality. */
  lemma {:induction false} ScanExact(pattern: string, s: string, k: int)
    requires StarFree(pattern) && 0 <= k <= |pattern| && k <= |s| && pattern[..k] == s[..k]
    ensures Scan(pattern, s, k, k, -1, 0) == (pattern == s)
    decreases |s| - k
  {
    if k < |s| && k < |pattern| && pattern[k] == s[k] {
      assert pattern[..k + 1] == pattern[..k] + [pattern[k]] && s[..k + 1] == s[..k] + [s[k]];
      ScanExact(pattern, s, k + 1);
    } else if k == |s| {
      assert AllStars(pattern[k..]) <==> k == |pattern| by {
        assert k < |pattern| ==> pattern[k..][0] == pattern[k];
      }
      assert s[..k] == s;
      assert k == |pattern| ==> pattern[..k] == pattern;
    } else {
      assert k < |pattern| ==> pattern[k] != s[k];
    }
  }

  /** A rule for exactly this method decides over every pattern, as long as no pattern with a
      star has a million literals. */
  lemma ExactRuleDecides(list: AccessList, name: string, i: int)
    requires list.Valid() && 0 <= i < |list.rules| && list.rules[i].pattern == Normalised(name) && StarFree(Normalised(name))
    requires forall j :: 0 <= j < |list.rules| && list.rules[j].hasWildcard ==> Literals(list.rules[j].pattern) < 1_048_576
    ensures Decides(list.rules, Normalised(name), i)
  {
    hide Scan, Literals;
    var n, rules := Normalised(name), list.rules;
    ScanExact(n, n, 0);
    forall j | 0 <= j < |rules| && j != i && Applies(rules[j], n) ensures Outranks(rules[i], rules[j]) {
      if !rules[j].hasWildcard {
        ScanExact(rules[j].pattern, n, 0);
      }
    }
  }
}
