/** What a derived ladder contains, configured tier by configured tier, and what that means for the
    rows: stated over the configuration alone. */
module PolicyLadder {
  import opened Wrappers
  import opened Clock
  import opened Policy

  /** The retention configured tier `i` has for a metric kept for `retention`. */
  predicate KeptFor(tiers: seq<Tier>, i: int, retention: int, r: int)
    requires 0 <= i < |tiers|
  {
    if i < |tiers| - 1 && tiers[i].retention <= retention then r == tiers[i].retention else r == retention
  }

  /** Configured tier `i` adds something: it is the finest, or the tier before it is given up before
      the metric is, and lives less long unless `i` is the last. */
  predicate Adds(tiers: seq<Tier>, i: int, retention: int)
    requires 0 <= i < |tiers|
  {
    i == 0 || (tiers[i - 1].retention < retention
               && (i == |tiers| - 1 || tiers[i - 1].retention < tiers[i].retention))
  }

  /** Tier `t` is configured tier `i` as the metric keeps it. */
  predicate IsTier(t: Tier, tiers: seq<Tier>, i: int, retention: int)
    requires 0 <= i < |tiers|
  {
    t.interval == tiers[i].interval && KeptFor(tiers, i, retention, t.retention)
  }

  ghost predicate Contains(ladder: seq<Tier>, tiers: seq<Tier>, i: int, retention: int)
    requires 0 <= i < |tiers|
  {
    exists k :: 0 <= k < |ladder| && IsTier(ladder[k], tiers, i, retention)
  }

  ghost predicate Configured(t: Tier, tiers: seq<Tier>, n: int, retention: int)
    requires n <= |tiers|
  {
    exists i :: 0 <= i < n && Adds(tiers, i, retention) && IsTier(t, tiers, i, retention)
  }

  /** The ladder holds exactly the configured tiers that add something, each with its own interval and
      with its own retention or the metric's. */
  ghost predicate LadderFrom(ladder: seq<Tier>, tiers: seq<Tier>, n: int, retention: int)
    requires 0 <= n <= |tiers|
  {
    && (forall i :: 0 <= i < n && Adds(tiers, i, retention) ==> Contains(ladder, tiers, i, retention))
    && (forall k :: 0 <= k < |ladder| ==> Configured(ladder[k], tiers, n, retention))
    && (n > 0 ==> ladder != [] && KeptFor(tiers, n - 1, retention, ladder[|ladder| - 1].retention))
  }

  lemma {:induction false} LadderContents(tiers: seq<Tier>, retention: int, n: nat)
    requires ValidTiers(tiers) && retention > 0 && n <= |tiers|
    ensures LadderFrom(LadderOf(tiers, retention, n), tiers, n, retention)
  {
    hide Contains, Configured, Adds;
    if n > 0 {
      LadderContents(tiers, retention, n - 1);
      OneMoreTier(LadderOf(tiers, retention, n - 1), tiers, n, retention);
    }
  }

  lemma OneMoreTier(before: seq<Tier>, tiers: seq<Tier>, n: nat, retention: int)
    requires ValidTiers(tiers) && retention > 0 && 0 < n <= |tiers|
    requires before == LadderOf(tiers, retention, n - 1) && LadderFrom(before, tiers, n - 1, retention)
    ensures LadderFrom(LadderOf(tiers, retention, n), tiers, n, retention)
  {
    hide Contains, Configured, Adds;
    var ladder, t := LadderOf(tiers, retention, n), Tier(tiers[n - 1].interval, Clipped(tiers, n - 1, retention));
    TierAddedIff(before, tiers, n, retention);
    if ladder == before + [t] {
      NewTier(before, tiers, n, retention, t);
    }
    forall i | 0 <= i < n - 1 && Adds(tiers, i, retention) ensures Contains(ladder, tiers, i, retention) {
      StillContained(before, ladder, tiers, i, retention);
    }
    forall k | 0 <= k < |before| ensures Configured(before[k], tiers, n, retention) {
      StillConfigured(before[k], tiers, n, retention);
    }
  }

  lemma TierAddedIff(before: seq<Tier>, tiers: seq<Tier>, n: nat, retention: int)
    requires ValidTiers(tiers) && retention > 0 && 0 < n <= |tiers|
    requires before == LadderOf(tiers, retention, n - 1) && (n > 1 ==> before != [])
    requires n > 1 ==> KeptFor(tiers, n - 2, retention, before[|before| - 1].retention)
    ensures var t := Tier(tiers[n - 1].interval, Clipped(tiers, n - 1, retention));
            && IsTier(t, tiers, n - 1, retention)
            && LadderOf(tiers, retention, n) == (if Adds(tiers, n - 1, retention) then before + [t] else before)
            && (!Adds(tiers, n - 1, retention) ==> KeptFor(tiers, n - 1, retention, before[|before| - 1].retention))
  {
    if n > 1 {
      assert TierFollows(tiers[n - 2], tiers[n - 1]);
    }
  }

  lemma NewTier(before: seq<Tier>, tiers: seq<Tier>, n: nat, retention: int, t: Tier)
    requires 0 < n <= |tiers| && IsTier(t, tiers, n - 1, retention) && Adds(tiers, n - 1, retention)
    ensures Contains(before + [t], tiers, n - 1, retention) && Configured(t, tiers, n, retention)
  {
    assert (before + [t])[|before|] == t;
  }

  lemma StillContained(before: seq<Tier>, ladder: seq<Tier>, tiers: seq<Tier>, i: int, retention: int)
    requires 0 <= i < |tiers| && before <= ladder && Contains(before, tiers, i, retention)
    ensures Contains(ladder, tiers, i, retention)
  {
    var k :| 0 <= k < |before| && IsTier(before[k], tiers, i, retention);
    assert ladder[k] == before[k];
  }

  lemma StillConfigured(t: Tier, tiers: seq<Tier>, n: int, retention: int)
    requires 0 < n <= |tiers| && Configured(t, tiers, n - 1, retention)
    ensures Configured(t, tiers, n, retention)
  {
  }

  // ---- the derived policy ------------------------------------------------------------------------

  /** What a metric kept for `retention` gets of a configured ladder. */
  lemma DerivedTiers(p: RollupPolicy, retention: int)
    requires ValidPolicy(p) && p.tiers != [] && retention > 0
    ensures LadderFrom(WithRetention(p, retention).tiers, p.tiers, |p.tiers|, retention)
  {
    hide LadderFrom;
    LadderContents(p.tiers, retention, |p.tiers|);
  }

  /** A tier that does not end the configuration, lives shorter than the metric and longer than the
      tier before it is in the ladder as it was configured. */
  lemma OwnTierKept(p: RollupPolicy, retention: int, i: int)
    requires ValidPolicy(p) && retention > 0 && 0 <= i < |p.tiers| - 1
    requires p.tiers[i].retention < retention && (i > 0 ==> p.tiers[i - 1].retention < p.tiers[i].retention)
    ensures p.tiers[i] in WithRetention(p, retention).tiers
  {
    hide WithRetention, ValidPolicy, LadderFrom, Contains;
    DerivedTiers(p, retention);
    Held(WithRetention(p, retention).tiers, p.tiers, |p.tiers|, retention, i);
    var t := Present(WithRetention(p, retention).tiers, p.tiers, i, retention);
  }

  lemma Held(ladder: seq<Tier>, tiers: seq<Tier>, n: int, retention: int, i: int)
    requires 0 <= i < n <= |tiers| && LadderFrom(ladder, tiers, n, retention) && Adds(tiers, i, retention)
    ensures Contains(ladder, tiers, i, retention)
  {
    hide Adds, Contains, Configured;
  }

  lemma Present(ladder: seq<Tier>, tiers: seq<Tier>, i: int, retention: int) returns (t: Tier)
    requires 0 <= i < |tiers| && Contains(ladder, tiers, i, retention)
    ensures t in ladder && IsTier(t, tiers, i, retention)
  {
    var k :| 0 <= k < |ladder| && IsTier(ladder[k], tiers, i, retention);
    t := ladder[k];
  }

  lemma AddsIsPresent(p: RollupPolicy, retention: int, i: int)
    requires ValidPolicy(p) && retention > 0 && 0 <= i < |p.tiers| && Adds(p.tiers, i, retention)
    ensures exists t :: t in WithRetention(p, retention).tiers && t.interval == p.tiers[i].interval
  {
    hide WithRetention, Adds, Contains, Configured;
    DerivedTiers(p, retention);
    var t := Present(WithRetention(p, retention).tiers, p.tiers, i, retention);
  }

  /** A tier is missing only if a finer tier of the ladder lives at least as long, or as long as the
      metric does. */
  lemma MissingIsBacked(p: RollupPolicy, retention: int, i: int)
    requires ValidPolicy(p) && retention > 0 && 0 <= i < |p.tiers|
    requires forall t :: t in WithRetention(p, retention).tiers ==> t.interval != p.tiers[i].interval
    ensures exists t :: t in WithRetention(p, retention).tiers && t.interval < p.tiers[i].interval
                        && (t.retention == retention || (i < |p.tiers| - 1 && t.retention >= p.tiers[i].retention))
  {
    hide WithRetention, Contains, Adds;
    if Adds(p.tiers, i, retention) {
      AddsIsPresent(p, retention, i);
    }
    FinestAdds(p.tiers, retention);
    var j := FinerInLadder(p, retention, i);
    var t := Present(WithRetention(p, retention).tiers, p.tiers, j, retention);
    FinerTier(p.tiers, j, i);
    assert KeptFor(p.tiers, i, retention, t.retention) by { SomeRetention(p.tiers, i, retention); }
  }

  lemma FinestAdds(tiers: seq<Tier>, retention: int)
    requires tiers != []
    ensures Adds(tiers, 0, retention)
  {
  }

  lemma SomeRetention(tiers: seq<Tier>, i: int, retention: int)
    requires 0 <= i < |tiers|
    ensures exists r :: KeptFor(tiers, i, retention, r)
  {
    assert KeptFor(tiers, i, retention, Clipped(tiers, i, retention));
  }

  lemma FinerTier(tiers: seq<Tier>, j: int, i: int)
    requires ValidTiers(tiers) && 0 <= j <= i < |tiers|
    ensures j < i ==> tiers[j].interval < tiers[i].interval
  {
    if j < i {
      IntervalsGrow(tiers, j, i - 1);
      assert TierFollows(tiers[i - 1], tiers[i]);
    }
  }

  /** The nearest tier at or below `i` that is in the ladder lives as long as `i` would. */
  lemma {:induction false} FinerInLadder(p: RollupPolicy, retention: int, i: int) returns (j: int)
    requires ValidPolicy(p) && retention > 0 && 0 <= i < |p.tiers|
    ensures 0 <= j <= i && Contains(WithRetention(p, retention).tiers, p.tiers, j, retention)
    ensures forall r, s :: KeptFor(p.tiers, j, retention, r) && KeptFor(p.tiers, i, retention, s) ==> r == s
    decreases i
  {
    hide WithRetention, Contains;
    DerivedTiers(p, retention);
    if Adds(p.tiers, i, retention) {
      return i;
    }
    j := FinerInLadder(p, retention, i - 1);
    assert TierFollows(p.tiers[i - 1], p.tiers[i]);
    assert KeptFor(p.tiers, i - 1, retention, Clipped(p.tiers, i - 1, retention));
  }

  // ---- the rows ------------------------------------------------------------------------------------

  lemma {:induction false} TierForMember(ladder: seq<Tier>, interval: int)
    ensures TierFor(ladder, interval).Some? ==> TierFor(ladder, interval).value in ladder
  {
    if ladder != [] {
      TierForMember(ladder[..|ladder| - 1], interval);
    }
  }

  lemma SameTier(tiers: seq<Tier>, i: int, j: int)
    requires ValidTiers(tiers) && 0 <= i < |tiers| && 0 <= j < |tiers| && tiers[i].interval == tiers[j].interval
    ensures i == j
  {
    if i < j {
      FinerTier(tiers, i, j);
    } else {
      FinerTier(tiers, j, i);
    }
  }

  /** The ladder's tier for a configured interval, if it has one. */
  lemma TierForConfigured(p: RollupPolicy, retention: int, i: int, r: int)
    requires ValidPolicy(p) && retention > 0 && 0 <= i < |p.tiers| && KeptFor(p.tiers, i, retention, r)
    ensures TierFor(WithRetention(p, retention).tiers, p.tiers[i].interval)
            == if Adds(p.tiers, i, retention) then Some(Tier(p.tiers[i].interval, r)) else None
  {
    hide WithRetention, Contains, Adds, TierFor;
    var ladder, interval := WithRetention(p, retention).tiers, p.tiers[i].interval;
    DerivedTiers(p, retention);
    DerivedLadder(p, retention);
    TierForMember(ladder, interval);
    if Adds(p.tiers, i, retention) {
      assert Contains(ladder, p.tiers, i, retention);
      ContainedAt(ladder, p, i, retention, r);
    } else if TierFor(ladder, interval).Some? {
      var t := TierFor(ladder, interval).value;
      var k :| 0 <= k < |ladder| && ladder[k] == t;
      assert Configured(ladder[k], p.tiers, |p.tiers|, retention);
      var j :| 0 <= j < |p.tiers| && Adds(p.tiers, j, retention) && IsTier(t, p.tiers, j, retention);
      SameTier(p.tiers, i, j);
      assert false;
    }
  }

  lemma ContainedAt(ladder: seq<Tier>, p: RollupPolicy, i: int, retention: int, r: int)
    requires ValidTiers(ladder) && 0 <= i < |p.tiers| && KeptFor(p.tiers, i, retention, r)
    requires Contains(ladder, p.tiers, i, retention)
    ensures TierFor(ladder, p.tiers[i].interval) == Some(Tier(p.tiers[i].interval, r))
  {
    hide TierFor;
    var k :| 0 <= k < |ladder| && IsTier(ladder[k], p.tiers, i, retention);
    TierForFound(ladder, k);
  }

  /** Retention in numbers. A row of a configured tier survives exactly when its tier adds something to
      the metric's ladder and the end of its bucket is younger than that tier's retention. */
  lemma RowSurvivesIff<V>(rows: map<RowKey, V>, p: RollupPolicy, definitions: map<string, int>, names: set<string>,
                          now: int, i: int, k: RowKey, r: int)
    requires ValidPolicy(p) && 0 <= i < |p.tiers| && k in rows && k.metric in names && k.metric in definitions
    requires definitions[k.metric] > 0 && KeptFor(p.tiers, i, definitions[k.metric] * 86_400_000_000_000, r)
    requires k.interval == p.tiers[i].interval && k.interval >= 60_000_000_000 && k.bucket % (k.interval / 1_000_000) == 0
    ensures k in Kept(rows, p, definitions, names, now) <==>
            Adds(p.tiers, i, definitions[k.metric] * 86_400_000_000_000)
            && k.bucket + k.interval / 1_000_000 > (now - r) / 1_000_000
  {
    hide WithRetention, TierFor, Adds, CleanupCutoff;
    var retention := definitions[k.metric] * 86_400_000_000_000;
    TierForConfigured(p, retention, i, r);
    DroppedIffWhollyOld(Tier(k.interval, r), now, k.bucket);
    assert OnTier(p.tiers, k.interval);
  }

  /** Rows of no configured tier, of other metrics and of metrics without a definition are kept; all
      rows of a metric with nothing to keep go. */
  lemma OtherRows<V>(rows: map<RowKey, V>, p: RollupPolicy, definitions: map<string, int>, names: set<string>,
                     now: int, k: RowKey)
    requires k in rows
    ensures k.metric !in names || k.metric !in definitions ==> k in Kept(rows, p, definitions, names, now)
    ensures k.metric in names && k.metric in definitions && definitions[k.metric] == 0
            ==> k !in Kept(rows, p, definitions, names, now)
    ensures k.metric in definitions && definitions[k.metric] != 0 && (forall t :: t in p.tiers ==> t.interval != k.interval)
            ==> k in Kept(rows, p, definitions, names, now)
  {
    hide Outlived;
    if OnTier(p.tiers, k.interval) {
      var i :| 0 <= i < |p.tiers| && p.tiers[i].interval == k.interval;
      assert p.tiers[i] in p.tiers;
    }
  }

  // ---- the policy the program starts with ------------------------------------------------------------

  const MINUTES: int := 60_000_000_000
  const HOURS: int := 60 * MINUTES
  const DAYS: int := 24 * HOURS

  const DEFAULT_TIERS: seq<Tier> := [
    Tier(MINUTES, 600 * MINUTES), Tier(5 * MINUTES, 3_000 * MINUTES), Tier(HOURS, 600 * HOURS), Tier(24 * HOURS, 36_500 * DAYS)]

  /** A metric kept for a year keeps all four tiers, the coarsest of them for that year. */
  lemma DefaultForAYear()
    ensures ValidPolicy(RollupPolicy(10 * MINUTES, DEFAULT_TIERS))
    ensures WithRetention(RollupPolicy(10 * MINUTES, DEFAULT_TIERS), 365 * DAYS).tiers
            == DEFAULT_TIERS[..3] + [Tier(24 * HOURS, 365 * DAYS)]
  {
    var r := 365 * DAYS;
    assert LadderOf(DEFAULT_TIERS, r, 0) == [];
    assert LadderOf(DEFAULT_TIERS, r, 1) == [DEFAULT_TIERS[0]];
    assert LadderOf(DEFAULT_TIERS, r, 2) == [DEFAULT_TIERS[0], DEFAULT_TIERS[1]];
    assert LadderOf(DEFAULT_TIERS, r, 3) == DEFAULT_TIERS[..3];
  }
}
