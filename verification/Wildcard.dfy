/** Matching method names against patterns in which `*` stands for any run of characters. */
module Wildcard {

  /** The meaning of a pattern. */
  predicate Matches(pattern: string, s: string)
    decreases |pattern| + |s|
  {
    if pattern == "" then s == ""
    else if pattern[0] == '*' then Matches(pattern[1..], s) || (s != "" && Matches(pattern, s[1..]))
    else s != "" && s[0] == pattern[0] && Matches(pattern[1..], s[1..])
  }

  predicate AllStars(pattern: string) {
    forall i :: 0 <= i < |pattern| ==> pattern[i] == '*'
  }

  predicate StarFree(s: string) {
    forall i :: 0 <= i < |s| ==> s[i] != '*'
  }

  /** No `*` but possibly as the last character. */
  predicate InnerStarFree(s: string) {
    forall i :: 0 <= i < |s| - 1 ==> s[i] != '*'
  }

  /** Where the scan stands: `star` is the last star taken as a wildcard, or -1, and `backup` the
      subject position from which it is currently tried. */
  ghost predicate Position(pattern: string, s: string, p: int, str: int, star: int, backup: int) {
    0 <= p <= |pattern| && 0 <= str <= |s| && -1 <= star < p && 0 <= backup <= str
  }

  /** One two-index scan with backtracking to the last star. */
  function Scan(pattern: string, s: string, p: int, str: int, star: int, backup: int): bool
    requires Position(pattern, s, p, str, star, backup)
    decreases |pattern| - star, |s| - backup, |s| - str
  {
    if str == |s| then AllStars(pattern[p..])
    else if p < |pattern| && pattern[p] == s[str] then Scan(pattern, s, p + 1, str + 1, star, backup)
    else if p < |pattern| && pattern[p] == '*' then Scan(pattern, s, p + 1, str, p, str)
    else if star != -1 then Scan(pattern, s, star + 1, backup + 1, star, backup + 1)
    else false
  }

  method WildcardMatch(pattern: string, s: string) returns (r: bool)
    ensures r == Scan(pattern, s, 0, 0, -1, 0)
    ensures InnerStarFree(s) ==> r == Matches(pattern, s)
  {
    var p, str, star, backup := 0, 0, -1, 0;
    if InnerStarFree(s) {
      ScanIsMeaning(pattern, s);
    }
    while str < |s|
      invariant Position(pattern, s, p, str, star, backup)
      invariant Scan(pattern, s, p, str, star, backup) == Scan(pattern, s, 0, 0, -1, 0)
      decreases |pattern| - star, |s| - backup, |s| - str
    {
      if p < |pattern| && pattern[p] == s[str] {
        p := p + 1;
        str := str + 1;
      } else if p < |pattern| && pattern[p] == '*' {
        star := p;
        backup := str;
        p := p + 1;
      } else if star != -1 {
        p := star + 1;
        backup := backup + 1;
        str := backup;
      } else {
        return false;
      }
    }
    ghost var q := p;
    while p < |pattern| && pattern[p] == '*'
      invariant q <= p <= |pattern| && forall i :: q <= i < p ==> pattern[i] == '*'
    {
      p := p + 1;
    }
    assert p < |pattern| ==> pattern[q..][p - q] != '*';
    return p == |pattern|;
  }

  // ---- the meaning ------------------------------------------------------------------------------

  lemma {:induction false} EmptySubject(pattern: string)
    ensures Matches(pattern, "") <==> AllStars(pattern)
  {
    if pattern != "" {
      EmptySubject(pattern[1..]);
      assert AllStars(pattern) ==> AllStars(pattern[1..]);
      assert AllStars(pattern[1..]) && pattern[0] == '*' ==> AllStars(pattern) by {
        assert pattern == [pattern[0]] + pattern[1..];
      }
    }
  }

  function Literals(pattern: string): nat {
    if pattern == "" then 0 else (if pattern[0] == '*' then 0 else 1) + Literals(pattern[1..])
  }

  /** Every literal needs a character of the subject. */
  lemma {:induction false} LiteralsFit(pattern: string, s: string)
    requires Matches(pattern, s)
    ensures Literals(pattern) <= |s|
    decreases |pattern| + |s|
  {
    if pattern != "" {
      if pattern[0] == '*' {
        if Matches(pattern[1..], s) {
          LiteralsFit(pattern[1..], s);
        } else {
          LiteralsFit(pattern, s[1..]);
        }
      } else {
        LiteralsFit(pattern[1..], s[1..]);
      }
    }
  }

  lemma {:induction false} NoLiterals(pattern: string)
    ensures Literals(pattern) == 0 <==> AllStars(pattern)
  {
    if pattern != "" {
      NoLiterals(pattern[1..]);
      assert pattern == [pattern[0]] + pattern[1..];
      assert AllStars(pattern) ==> AllStars(pattern[1..]);
    }
  }

  lemma {:induction false} LiteralsAfter(l: string, rest: string)
    requires StarFree(l)
    ensures Literals(l + rest) == |l| + Literals(rest)
  {
    if l == "" {
      assert l + rest == rest;
    } else {
      assert (l + rest)[1..] == l[1..] + rest;
      LiteralsAfter(l[1..], rest);
    }
  }

  /** A star-free prefix matches itself and nothing else. */
  lemma {:induction false} LiteralPrefix(l: string, rest: string, t: string)
    requires StarFree(l)
    ensures Matches(l + rest, t) <==> |l| <= |t| && t[..|l|] == l && Matches(rest, t[|l|..])
    decreases |l|
  {
    if l == "" {
      assert l + rest == rest;
    } else {
      assert (l + rest)[1..] == l[1..] + rest;
      if t != "" {
        LiteralPrefix(l[1..], rest, t[1..]);
        assert |l| <= |t| ==> t[..|l|] == [t[0]] + t[1..][..|l| - 1] && t[|l|..] == t[1..][|l| - 1..];
        assert l == [l[0]] + l[1..];
      }
    }
  }

  /** A leading star may absorb any prefix of the subject. */
  lemma {:induction false} StarAbsorbs(rest: string, t: string, k: nat)
    requires k <= |t| && Matches("*" + rest, t[k..])
    ensures Matches("*" + rest, t)
    decreases k
  {
    if k == 0 {
      assert t[0..] == t;
    } else {
      assert t[1..][k - 1..] == t[k..];
      StarAbsorbs(rest, t[1..], k - 1);
    }
  }

  /** A leading star tries every suffix. */
  lemma {:induction false} StarSomewhere(rest: string, t: string)
    requires Matches("*" + rest, t)
    ensures exists k :: 0 <= k <= |t| && Matches(rest, t[k..])
    decreases |t|
  {
    assert ("*" + rest)[1..] == rest;
    if Matches(rest, t) {
      assert t[0..] == t;
    } else {
      StarSomewhere(rest, t[1..]);
      var k :| 0 <= k <= |t[1..]| && Matches(rest, t[1..][k..]);
      assert t[k + 1..] == t[1..][k..];
    }
  }

  /** Taking the next star forgets the one before: the leftmost place for the literals between
      them is as good as any other. */
  lemma {:induction false} NextStar(l: string, rest: string, t: string)
    requires StarFree(l) && |l| <= |t| && t[..|l|] == l
    ensures Matches("*" + l + "*" + rest, t) <==> Matches("*" + rest, t[|l|..])
  {
    var tail := l + ("*" + rest);
    assert "*" + l + "*" + rest == "*" + tail;
    if Matches("*" + tail, t) {
      StarSomewhere(tail, t);
      var k :| 0 <= k <= |t| && Matches(tail, t[k..]);
      LiteralPrefix(l, "*" + rest, t[k..]);
      assert t[k..][|l|..] == t[|l|..][k..];
      StarAbsorbs(rest, t[|l|..], k);
    }
    if Matches("*" + rest, t[|l|..]) {
      LiteralPrefix(l, "*" + rest, t);
      assert ("*" + tail)[1..] == tail;
    }
  }

  /** A failed attempt at one place moves the star's end by one character. */
  lemma RetryLater(rest: string, t: string)
    requires t != "" && !Matches(rest, t)
    ensures Matches("*" + rest, t) <==> Matches("*" + rest, t[1..])
  {
    assert ("*" + rest)[1..] == rest;
  }

  // ---- the scan follows the meaning -------------------------------------------------------------------

  /** What the scan has settled so far. */
  ghost predicate Settled(pattern: string, s: string, p: int, str: int, star: int, backup: int)
    requires Position(pattern, s, p, str, star, backup)
  {
    if star == -1 then Matches(pattern, s) == Matches(pattern[p..], s[str..])
    else
      && pattern[star] == '*' && StarFree(pattern[star + 1..p]) && pattern[star + 1..p] == s[backup..str]
      && Matches(pattern, s) == Matches(pattern[star..], s[backup..])
  }

  /** The pattern from the last star on, cut at the current position. */
  lemma FromStar(pattern: string, s: string, p: int, str: int, star: int, backup: int)
    requires Position(pattern, s, p, str, star, backup) && star != -1 && Settled(pattern, s, p, str, star, backup)
    ensures var l, t := pattern[star + 1..p], s[backup..];
            && pattern[star..] == "*" + (l + pattern[p..]) && |l| <= |t| && t[..|l|] == l && t[|l|..] == s[str..]
            && Matches(pattern, s) == Matches("*" + (l + pattern[p..]), t)
  {
    hide Matches;
    CutTwice(pattern, star + 1, p);
    assert pattern[star..] == "*" + pattern[star + 1..];
    CutTwice(s, backup, str);
  }

  lemma CutTwice(s: string, i: int, j: int)
    requires 0 <= i <= j <= |s|
    ensures s[i..] == s[i..j] + s[j..]
  {
  }

  lemma SettleLiteral(pattern: string, s: string, p: int, str: int, star: int, backup: int)
    requires Position(pattern, s, p, str, star, backup) && Settled(pattern, s, p, str, star, backup)
    requires p < |pattern| && str < |s| && pattern[p] == s[str] != '*'
    ensures Settled(pattern, s, p + 1, str + 1, star, backup)
  {
    if star == -1 {
      assert pattern[p..][1..] == pattern[p + 1..] && s[str..][1..] == s[str + 1..];
    } else {
      assert pattern[star + 1..p + 1] == pattern[star + 1..p] + [pattern[p]];
      assert s[backup..str + 1] == s[backup..str] + [s[str]];
    }
  }

  lemma SettleStar(pattern: string, s: string, p: int, str: int, star: int, backup: int)
    requires Position(pattern, s, p, str, star, backup) && Settled(pattern, s, p, str, star, backup)
    requires p < |pattern| && pattern[p] == '*'
    ensures Settled(pattern, s, p + 1, str, p, str)
  {
    assert pattern[p + 1..p + 1] == s[str..str];
    if star != -1 {
      var l, t, rest := pattern[star + 1..p], s[backup..], pattern[p + 1..];
      FromStar(pattern, s, p, str, star, backup);
      assert pattern[p..] == "*" + rest;
      assert "*" + (l + ("*" + rest)) == "*" + l + "*" + rest;
      NextStar(l, rest, t);
    }
  }

  lemma SettleRetry(pattern: string, s: string, p: int, str: int, star: int, backup: int)
    requires Position(pattern, s, p, str, star, backup) && Settled(pattern, s, p, str, star, backup)
    requires str < |s| && star != -1 && (p < |pattern| ==> pattern[p] != s[str] && pattern[p] != '*')
    ensures Settled(pattern, s, star + 1, backup + 1, star, backup + 1)
  {
    var l, t := pattern[star + 1..p], s[backup..];
    FromStar(pattern, s, p, str, star, backup);
    LiteralPrefix(l, pattern[p..], t);
    assert !Matches(pattern[p..], s[str..]) by { Mismatch(pattern[p..], s[str..]); }
    RetryLater(l + pattern[p..], t);
    assert t[1..] == s[backup + 1..];
    assert pattern[star + 1..star + 1] == s[backup + 1..backup + 1];
  }

  lemma Mismatch(pattern: string, s: string)
    requires s != "" && (pattern != "" ==> pattern[0] != s[0] && pattern[0] != '*')
    ensures !Matches(pattern, s)
  {
  }

  lemma SettleEnd(pattern: string, s: string, p: int, star: int, backup: int)
    requires Position(pattern, s, p, |s|, star, backup) && Settled(pattern, s, p, |s|, star, backup)
    ensures Matches(pattern, s) == AllStars(pattern[p..])
  {
    var rest := pattern[p..];
    EmptySubject(rest);
    assert s[|s|..] == "";
    if star != -1 {
      var l, t := pattern[star + 1..p], s[backup..];
      FromStar(pattern, s, p, |s|, star, backup);
      assert l == t;
      assert ("*" + (l + rest))[1..] == l + rest;
      LiteralPrefix(l, rest, t);
      if Matches("*" + (l + rest), t) {
        LiteralsFit("*" + (l + rest), t);
        LiteralsAfter(l, rest);
        NoLiterals(rest);
      }
    }
  }

  /** A subject that ends in a star: the last pattern star meets it as a literal. */
  lemma SettleLastStar(pattern: string, s: string, p: int, str: int, star: int, backup: int)
    requires Position(pattern, s, p, str, star, backup) && Settled(pattern, s, p, str, star, backup)
    requires p < |pattern| && str == |s| - 1 && pattern[p] == '*' == s[str]
    ensures Matches(pattern, s) == AllStars(pattern[p + 1..])
  {
    SettleStar(pattern, s, p, str, star, backup);
    var rest := pattern[p + 1..];
    assert pattern[p..] == "*" + rest && s[str..] == "*" && s[str..][1..] == "";
    assert ("*" + rest)[1..] == rest;
    EmptySubject(rest);
    EmptySubject("*" + rest);
    OnlyStar(rest);
    assert AllStars("*" + rest) <==> AllStars(rest) by {
      assert AllStars(rest) ==> forall i :: 0 <= i < |"*" + rest| ==> ("*" + rest)[i] == '*';
    }
  }

  /** No literal of a pattern is a star, so a lone star is matched by stars only. */
  lemma {:induction false} OnlyStar(pattern: string)
    ensures Matches(pattern, "*") ==> AllStars(pattern)
  {
    if pattern != "" && Matches(pattern, "*") {
      assert "*"[1..] == "";
      if Matches(pattern[1..], "*") {
        OnlyStar(pattern[1..]);
      } else {
        EmptySubject(pattern);
      }
      assert pattern == [pattern[0]] + pattern[1..];
    }
  }

  lemma {:induction false} ScanFollows(pattern: string, s: string, p: int, str: int, star: int, backup: int)
    requires Position(pattern, s, p, str, star, backup) && Settled(pattern, s, p, str, star, backup) && InnerStarFree(s)
    ensures Scan(pattern, s, p, str, star, backup) == Matches(pattern, s)
    decreases |pattern| - star, |s| - backup, |s| - str
  {
    hide Matches, Settled, AllStars;
    if str == |s| {
      SettleEnd(pattern, s, p, star, backup);
    } else if p < |pattern| && pattern[p] == s[str] {
      if s[str] == '*' {
        SettleLastStar(pattern, s, p, str, star, backup);
      } else {
        SettleLiteral(pattern, s, p, str, star, backup);
        ScanFollows(pattern, s, p + 1, str + 1, star, backup);
      }
    } else if p < |pattern| && pattern[p] == '*' {
      SettleStar(pattern, s, p, str, star, backup);
      ScanFollows(pattern, s, p + 1, str, p, str);
    } else if star != -1 {
      SettleRetry(pattern, s, p, str, star, backup);
      ScanFollows(pattern, s, star + 1, backup + 1, star, backup + 1);
    } else {
      SettleFail(pattern, s, p, str, backup);
    }
  }

  lemma SettleFail(pattern: string, s: string, p: int, str: int, backup: int)
    requires Position(pattern, s, p, str, -1, backup) && Settled(pattern, s, p, str, -1, backup)
    requires str < |s| && (p < |pattern| ==> pattern[p] != s[str] && pattern[p] != '*')
    ensures !Matches(pattern, s)
  {
    Mismatch(pattern[p..], s[str..]);
  }

  /** For every pattern and every subject without an inner star the scan decides the meaning. */
  lemma ScanIsMeaning(pattern: string, s: string)
    requires InnerStarFree(s)
    ensures Scan(pattern, s, 0, 0, -1, 0) == Matches(pattern, s)
  {
    assert pattern[0..] == pattern && s[0..] == s;
    ScanFollows(pattern, s, 0, 0, -1, 0);
  }

  // ---- subjects with a star in them ----------------------------------------------------------------------

  /** A pattern equal to the start of the subject is consumed literally, stars included. */
  lemma {:induction false} ScanLiterally(s: string, n: int, k: int)
    requires 0 <= k <= n <= |s|
    ensures Scan(s[..n], s, k, k, -1, 0) == (n == |s|)
    decreases n - k
  {
    if k < n {
      ScanLiterally(s, n, k + 1);
    }
  }

  /** A pattern that ends in a star matches everything it is a prefix of. */
  lemma {:induction false} PrefixStarMatches(l: string, t: string)
    ensures Matches(l + "*", l + t)
    decreases |l|
  {
    if l == "" {
      assert l + "*" == "*" && l + t == t;
      EmptySubject("");
      assert t[|t|..] == "";
      assert "*" + "" == "*";
      assert ("*")[1..] == "";
      StarAbsorbs("", t, |t|);
    } else {
      assert (l + "*")[1..] == l[1..] + "*" && (l + t)[1..] == l[1..] + t;
      PrefixStarMatches(l[1..], t);
    }
  }

  /** The scan is right about a subject for every pattern exactly when the subject has no star
      before its last character: with one, the subject's own start up to that star is a pattern
      that should match and does not. */
  lemma RightForEveryPatternIff(s: string)
    ensures (forall pattern: string :: Scan(pattern, s, 0, 0, -1, 0) == Matches(pattern, s)) <==> InnerStarFree(s)
  {
    if InnerStarFree(s) {
      forall pattern: string ensures Scan(pattern, s, 0, 0, -1, 0) == Matches(pattern, s) {
        ScanIsMeaning(pattern, s);
      }
    } else {
      var i :| 0 <= i < |s| - 1 && s[i] == '*';
      ScanLiterally(s, i + 1, 0);
      PrefixStarMatches(s[..i], s[i..]);
      assert s[..i] + "*" == s[..i + 1] && s[..i] + s[i..] == s;
      assert Scan(s[..i + 1], s, 0, 0, -1, 0) != Matches(s[..i + 1], s);
    }
  }

  /** The pattern `*` does not match the subject `*a`. */
  lemma StarMissesLeadingStar()
    ensures !Scan("*", "*a", 0, 0, -1, 0) && Matches("*", "*a")
  {
    assert "*a"[..1] == "*";
    ScanLiterally("*a", 1, 0);
    PrefixStarMatches("", "*a");
    assert "" + "*" == "*" && "" + "*a" == "*a";
  }

  // ---- the meaning, by substitution ------------------------------------------------------------------

  /** The pattern with its stars replaced by `runs`, from the left; a star without a run is dropped. */
  function Filled(pattern: string, runs: seq<string>): string {
    if pattern == "" then ""
    else if pattern[0] != '*' then [pattern[0]] + Filled(pattern[1..], runs)
    else if runs == [] then Filled(pattern[1..], runs)
    else runs[0] + Filled(pattern[1..], runs[1..])
  }

  lemma {:induction false} FilledMatches(pattern: string, runs: seq<string>)
    ensures Matches(pattern, Filled(pattern, runs))
    decreases |pattern|, if runs == [] then 0 else |runs[0]|
  {
    if pattern != "" {
      if pattern[0] != '*' {
        FilledMatches(pattern[1..], runs);
        assert Filled(pattern, runs)[1..] == Filled(pattern[1..], runs);
      } else if runs == [] {
        FilledMatches(pattern[1..], runs);
      } else if runs[0] == "" {
        FilledMatches(pattern[1..], runs[1..]);
        assert Filled(pattern, runs) == Filled(pattern[1..], runs[1..]);
      } else {
        var shorter := [runs[0][1..]] + runs[1..];
        assert shorter[1..] == runs[1..];
        FilledMatches(pattern, shorter);
        assert Filled(pattern, runs)[1..] == Filled(pattern, shorter);
      }
    }
  }

  lemma {:induction false} MatchIsFilled(pattern: string, s: string) returns (runs: seq<string>)
    requires Matches(pattern, s)
    ensures Filled(pattern, runs) == s
    decreases |pattern| + |s|
  {
    if pattern == "" {
      return [];
    }
    if pattern[0] != '*' {
      runs := MatchIsFilled(pattern[1..], s[1..]);
      assert s == [s[0]] + s[1..];
    } else if Matches(pattern[1..], s) {
      var rest := MatchIsFilled(pattern[1..], s);
      runs := [""] + rest;
      assert runs[1..] == rest;
    } else {
      var rest := MatchIsFilled(pattern, s[1..]);
      runs := if rest == [] then [[s[0]]] else [[s[0]] + rest[0]] + rest[1..];
      LongerRun(pattern, s, rest);
    }
  }

  lemma LongerRun(pattern: string, s: string, rest: seq<string>)
    requires pattern != "" && pattern[0] == '*' && s != "" && Filled(pattern, rest) == s[1..]
    ensures Filled(pattern, if rest == [] then [[s[0]]] else [[s[0]] + rest[0]] + rest[1..]) == s
  {
    if rest == [] {
      assert [[s[0]]][1..] == [];
      assert s == [s[0]] + s[1..];
    } else {
      var runs := [[s[0]] + rest[0]] + rest[1..];
      assert runs[1..] == rest[1..];
      assert s == [s[0]] + s[1..];
    }
  }

  /** A subject matches exactly when it is the pattern with its stars replaced by some strings. */
  lemma MatchesIffFilled(pattern: string, s: string)
    ensures Matches(pattern, s) <==> exists runs :: Filled(pattern, runs) == s
  {
    if Matches(pattern, s) {
      var runs := MatchIsFilled(pattern, s);
    }
    if runs :| Filled(pattern, runs) == s {
      FilledMatches(pattern, runs);
    }
  }

  /** A literal prefix and a star stand for every subject with that prefix. */
  lemma {:induction false} PrefixPattern(prefix: string, s: string)
    requires StarFree(prefix)
    ensures Matches(prefix + "*", s) <==> prefix <= s
  {
    if prefix == "" {
      assert prefix + "*" == "*";
      AnyMatchesStar(s);
    } else {
      var pattern := prefix + "*";
      assert pattern[0] == prefix[0] && pattern[1..] == prefix[1..] + "*";
      if s != "" {
        PrefixPattern(prefix[1..], s[1..]);
        assert prefix <= s <==> prefix[0] == s[0] && prefix[1..] <= s[1..] by {
          assert prefix == [prefix[0]] + prefix[1..] && s == [s[0]] + s[1..];
        }
      }
    }
  }

  lemma {:induction false} AnyMatchesStar(s: string)
    ensures Matches("*", s)
  {
    if s == "" {
      assert Matches("*"[1..], s);
    } else {
      AnyMatchesStar(s[1..]);
    }
  }
}
