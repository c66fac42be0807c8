/** Retention ladders: validity, the ladder one metric derives, the tier a query is answered
    from, and the cleanup that must not outrun it. Durations and instants are nanoseconds. */
module Policy {
  import opened Wrappers
  import opened Clock

  const MINUTE_NANOS: int := 60_000_000_000
  const DAY_NANOS: int := 86_400_000_000_000

  datatype Tier = Tier(interval: int, retention: int)

  datatype RollupPolicy = RollupPolicy(rawRetention: int, tiers: seq<Tier>)

  datatype PolicyError = NegativeRawRetention | BadInterval(i: int) | BadRetention(i: int) | FinestNotMinute
                       | IntervalNotLarger(i: int) | IntervalNotMultiple(i: int) | RetentionShrinks(i: int)

  // ---- validity -----------------------------------------------------------------------------------

  predicate Divides(d: int, n: int) {
    d > 0 && n % d == 0
  }

  lemma DividesChain(a: int, b: int, c: int)
    requires Divides(a, b) && Divides(b, c)
    ensures Divides(a, c)
  {
    DividesTransitive(c, b, a);
  }

  lemma DividesItself(a: int)
    requires a > 0
    ensures Divides(a, a)
  {
  }

  predicate TierFollows(prev: Tier, next: Tier) {
    Divides(prev.interval, next.interval) && next.interval > prev.interval && next.retention >= prev.retention
  }

  ghost predicate ValidTiers(tiers: seq<Tier>) {
    && (forall i :: 0 <= i < |tiers| ==> tiers[i].interval > 0 && tiers[i].retention > 0)
    && (tiers != [] ==> tiers[0].interval == MINUTE_NANOS)
    && forall i :: 0 < i < |tiers| ==> TierFollows(tiers[i - 1], tiers[i])
  }

  ghost predicate ValidPolicy(p: RollupPolicy) {
    p.tiers == [] || (p.rawRetention >= 0 && ValidTiers(p.tiers))
  }

  /** Accepts exactly the valid policies. */
  method Validate(p: RollupPolicy) returns (e: Option<PolicyError>)
    ensures e == None <==> ValidPolicy(p)
  {
    if |p.tiers| == 0 {
      return None;
    }
    if p.rawRetention < 0 {
      return Some(NegativeRawRetention);
    }
    var prev := p.tiers[0];
    var i := 0;
    while i < |p.tiers|
      invariant 0 <= i <= |p.tiers| && ValidTiers(p.tiers[..i])
      invariant i > 0 ==> prev == p.tiers[i - 1]
    {
      var tr := p.tiers[i];
      ghost var seen := p.tiers[..i + 1];
      assert seen[i] == tr && (i > 0 ==> seen[i - 1] == prev);
      if tr.interval <= 0 {
        return Some(BadInterval(i));
      }
      if tr.retention <= 0 {
        return Some(BadRetention(i));
      }
      if i == 0 && tr.interval != MINUTE_NANOS {
        return Some(FinestNotMinute);
      }
      if i > 0 {
        if tr.interval <= prev.interval {
          return Some(IntervalNotLarger(i));
        }
        if GoMod(tr.interval, prev.interval) != 0 {
          RemainderIsMod(tr.interval, prev.interval);
          return Some(IntervalNotMultiple(i));
        }
        RemainderIsMod(tr.interval, prev.interval);
        if tr.retention < prev.retention {
          return Some(RetentionShrinks(i));
        }
      }
      assert forall j :: 0 <= j < i ==> seen[j] == p.tiers[..i][j];
      prev := tr;
      i := i + 1;
    }
    assert p.tiers[..i] == p.tiers;
    return None;
  }

  lemma RemainderIsMod(a: int, b: int)
    requires a >= 0 && b > 0
    ensures GoMod(a, b) == a % b
  {
    assert a == (a / b) * b + a % b;
  }

  lemma {:induction false} IntervalsGrow(tiers: seq<Tier>, i: int, j: int)
    requires ValidTiers(tiers) && 0 <= i <= j < |tiers|
    ensures tiers[i].interval <= tiers[j].interval && Divides(tiers[i].interval, tiers[j].interval)
    ensures tiers[i].retention <= tiers[j].retention
    decreases j - i
  {
    hide Divides;
    if i < j {
      IntervalsGrow(tiers, i, j - 1);
      assert TierFollows(tiers[j - 1], tiers[j]);
      DividesChain(tiers[i].interval, tiers[j - 1].interval, tiers[j].interval);
    } else {
      DividesItself(tiers[i].interval);
    }
  }

  // ---- the ladder of one metric ------------------------------------------------------------------------

  /** The retention a tier would have for the metric. */
  function Clipped(tiers: seq<Tier>, i: int, retention: int): int
    requires 0 <= i < |tiers|
  {
    if i == |tiers| - 1 || tiers[i].retention > retention then retention else tiers[i].retention
  }

  function LadderOf(tiers: seq<Tier>, retention: int, n: nat): seq<Tier>
    requires n <= |tiers|
  {
    if n == 0 then []
    else
      var ladder, r := LadderOf(tiers, retention, n - 1), Clipped(tiers, n - 1, retention);
      if ladder != [] && r <= ladder[|ladder| - 1].retention then ladder else ladder + [Tier(tiers[n - 1].interval, r)]
  }

  function WithRetention(p: RollupPolicy, retention: int): RollupPolicy {
    if retention <= 0 || p.tiers == [] then p else p.(tiers := LadderOf(p.tiers, retention, |p.tiers|))
  }

  method WithMetricRetention(p: RollupPolicy, retention: int) returns (result: RollupPolicy)
    ensures result == WithRetention(p, retention)
  {
    if retention <= 0 || |p.tiers| == 0 {
      return p;
    }
    var ladder := [];
    var i := 0;
    while i < |p.tiers|
      invariant 0 <= i <= |p.tiers|
      invariant ladder == LadderOf(p.tiers, retention, i)
    {
      var tier := p.tiers[i];
      if i == |p.tiers| - 1 {
        tier := tier.(retention := retention);
      } else if tier.retention > retention {
        tier := tier.(retention := retention);
      }
      if |ladder| > 0 && tier.retention <= ladder[|ladder| - 1].retention {
        i := i + 1;
        continue;
      }
      ladder := ladder + [tier];
      i := i + 1;
    }
    return p.(tiers := ladder);
  }

  ghost predicate StrictRetentions(tiers: seq<Tier>) {
    forall i, j :: 0 <= i < j < |tiers| ==> tiers[i].retention < tiers[j].retention
  }

  /** Every configured tier has a tier in the ladder that is as long-lived and at least as fine. */
  ghost predicate Backed(ladder: seq<Tier>, tiers: seq<Tier>, i: int, retention: int)
    requires 0 <= i < |tiers|
  {
    exists k :: 0 <= k < |ladder| && Backs(ladder[k], tiers[i], Clipped(tiers, i, retention))
  }

  predicate Backs(b: Tier, t: Tier, retention: int) {
    Divides(b.interval, t.interval) && b.retention >= retention
  }

  ghost predicate LadderSound(tiers: seq<Tier>, retention: int, n: nat)
    requires n <= |tiers|
  {
    var ladder := LadderOf(tiers, retention, n);
    && ValidTiers(ladder) && StrictRetentions(ladder) && (n > 0 ==> ladder != [])
    && (forall k :: 0 <= k < |ladder| ==> ladder[k].retention <= retention)
    && (n > 0 ==> ladder[|ladder| - 1].retention >= Clipped(tiers, n - 1, retention)
                  && ladder[|ladder| - 1].interval <= tiers[n - 1].interval
                  && Divides(ladder[|ladder| - 1].interval, tiers[n - 1].interval))
    && forall i :: 0 <= i < n ==> Backed(ladder, tiers, i, retention)
  }

  lemma {:induction false} LadderStaysSound(tiers: seq<Tier>, retention: int, n: nat)
    requires ValidTiers(tiers) && retention > 0 && n <= |tiers|
    ensures LadderSound(tiers, retention, n)
  {
    hide Backed, Divides;
    if n > 0 {
      LadderStaysSound(tiers, retention, n - 1);
      LadderTop(tiers, retention, n);
      forall i | 0 <= i < n ensures Backed(LadderOf(tiers, retention, n), tiers, i, retention) {
        if i < n - 1 {
          BackedStays(tiers, retention, n, i);
        } else {
          BackedBy(LadderOf(tiers, retention, n), tiers, i, retention, |LadderOf(tiers, retention, n)| - 1);
        }
      }
    }
  }

  lemma BackedBy(ladder: seq<Tier>, tiers: seq<Tier>, i: int, retention: int, k: int)
    requires 0 <= i < |tiers| && 0 <= k < |ladder| && Backs(ladder[k], tiers[i], Clipped(tiers, i, retention))
    ensures Backed(ladder, tiers, i, retention)
  {
  }

  lemma BackedStays(tiers: seq<Tier>, retention: int, n: nat, i: int)
    requires 0 <= i < n - 1 && n <= |tiers| && Backed(LadderOf(tiers, retention, n - 1), tiers, i, retention)
    ensures Backed(LadderOf(tiers, retention, n), tiers, i, retention)
  {
    var before, ladder := LadderOf(tiers, retention, n - 1), LadderOf(tiers, retention, n);
    var k :| 0 <= k < |before| && Backs(before[k], tiers[i], Clipped(tiers, i, retention));
    assert ladder[k] == before[k];
  }

  /** One more configured tier: either it extends the ladder, or the top of the ladder backs it. */
  lemma LadderTop(tiers: seq<Tier>, retention: int, n: nat)
    requires ValidTiers(tiers) && retention > 0 && 0 < n <= |tiers| && LadderSound(tiers, retention, n - 1)
    ensures var ladder := LadderOf(tiers, retention, n);
            && ladder != [] && ValidTiers(ladder) && StrictRetentions(ladder)
            && (forall k :: 0 <= k < |ladder| ==> ladder[k].retention <= retention)
            && Backs(ladder[|ladder| - 1], tiers[n - 1], Clipped(tiers, n - 1, retention))
            && ladder[|ladder| - 1].interval <= tiers[n - 1].interval
  {
    hide Backed, Divides;
    var before, ladder := LadderOf(tiers, retention, n - 1), LadderOf(tiers, retention, n);
    var t, r := tiers[n - 1], Clipped(tiers, n - 1, retention);
    if before == [] {
      DividesItself(t.interval);
      assert ladder == [Tier(t.interval, r)];
      assert Backs(ladder[0], t, r);
    } else {
      var last := before[|before| - 1];
      assert TierFollows(tiers[n - 2], t);
      DividesChain(last.interval, tiers[n - 2].interval, t.interval);
      if r > last.retention {
        AddedTier(before, Tier(t.interval, r));
        DividesItself(t.interval);
        assert Backs(ladder[|ladder| - 1], t, r);
      } else {
        assert Backs(last, t, r);
      }
    }
  }

  lemma AddedTier(before: seq<Tier>, t: Tier)
    requires ValidTiers(before) && StrictRetentions(before) && before != []
    requires TierFollows(before[|before| - 1], t) && t.retention > before[|before| - 1].retention && t.retention > 0
    ensures ValidTiers(before + [t]) && StrictRetentions(before + [t])
  {
    var after := before + [t];
    assert forall i :: 0 <= i < |before| ==> after[i] == before[i];
    forall i, j | 0 <= i < j < |after| ensures after[i].retention < after[j].retention {
      assert i == |before| - 1 || after[i].retention < before[|before| - 1].retention || j < |before|;
    }
  }

  /** For every valid policy and positive retention the derived ladder is valid, its retentions
      strictly increase and end exactly at the metric's. */
  lemma DerivedLadder(p: RollupPolicy, retention: int)
    requires ValidPolicy(p) && p.tiers != [] && retention > 0
    ensures var d := WithRetention(p, retention);
            && ValidPolicy(d) && d.tiers != [] && StrictRetentions(d.tiers)
            && d.tiers[|d.tiers| - 1].retention == retention
  {
    LadderStaysSound(p.tiers, retention, |p.tiers|);
  }

  // ---- the tier a query is answered from ------------------------------------------------------------------

  /** The tier still keeps everything from `start` on. */
  predicate Covers(t: Tier, start: int, now: int) {
    now - t.retention <= start
  }

  /** The wanted interval is a multiple of the tier's. */
  predicate Fits(t: Tier, interval: int) {
    Divides(t.interval, interval) && interval >= t.interval
  }

  predicate Serves(t: Tier, interval: int, start: int, now: int) {
    Fits(t, interval) && Covers(t, start, now)
  }

  /** The coarsest tier that covers the range and divides the interval. */
  method BestRollupTier(tiers: seq<Tier>, interval: int, start: int, now: int) returns (best: Option<int>)
    requires ValidTiers(tiers)
    ensures best.None? <==> forall i :: 0 <= i < |tiers| ==> !Serves(tiers[i], interval, start, now)
    ensures best.Some? ==> 0 <= best.value < |tiers| && Serves(tiers[best.value], interval, start, now)
                           && forall i :: best.value < i < |tiers| ==> !Serves(tiers[i], interval, start, now)
    ensures best.Some? ==> var t := tiers[best.value];
              t.interval > 0 && interval >= t.interval && interval % t.interval == 0 && now - t.retention <= start
    ensures forall i ::
              (0 <= i < |tiers| && interval >= tiers[i].interval > 0 && interval % tiers[i].interval == 0
               && now - tiers[i].retention <= start) ==> best.Some? && best.value >= i
  {
    best := None;
    var i := 0;
    while i < |tiers|
      invariant 0 <= i <= |tiers|
      invariant best.None? ==> forall j :: 0 <= j < i ==> !Serves(tiers[j], interval, start, now)
      invariant best.Some? ==> 0 <= best.value < i && Serves(tiers[best.value], interval, start, now)
                               && forall j :: best.value < j < i ==> !Serves(tiers[j], interval, start, now)
    {
      var tier := tiers[i];
      if interval >= tier.interval {
        RemainderIsMod(interval, tier.interval);
        if GoMod(interval, tier.interval) == 0 && !(now - tier.retention > start) {
          best := Some(i);
        }
      }
      i := i + 1;
    }
  }

  /** Tier `i` answers: the coarsest that serves the query, else the coarsest that divides the
      interval, else minutes. */
  ghost predicate Resolves(tiers: seq<Tier>, start: int, interval: int, now: int, i: int) {
    && 0 <= i < |tiers|
    && if exists j :: 0 <= j < |tiers| && Serves(tiers[j], interval, start, now) then
         Serves(tiers[i], interval, start, now) && forall j :: i < j < |tiers| ==> !Serves(tiers[j], interval, start, now)
       else if exists j :: 0 <= j < |tiers| && Fits(tiers[j], interval) then
         Fits(tiers[i], interval) && forall j :: i < j < |tiers| ==> !Fits(tiers[j], interval)
       else i == 0
  }

  /** The interval of the tier a series query is answered from. */
  method SeriesResolution(tiers: seq<Tier>, start: int, interval: int, now: int) returns (resolution: int)
    requires ValidTiers(tiers) && tiers != []
    ensures exists i :: 0 <= i < |tiers| && resolution == tiers[i].interval && Resolves(tiers, start, interval, now, i)
    ensures resolution > 0 && (resolution == tiers[0].interval || (interval >= resolution && interval % resolution == 0))
    ensures forall i :: 0 <= i < |tiers| && interval >= tiers[i].interval > 0 && interval % tiers[i].interval == 0 ==>
              interval >= resolution && interval % resolution == 0
  {
    var preferred := tiers[0].interval;
    var best := BestRollupTier(tiers, interval, start, now);
    if best.Some? {
      assert Resolves(tiers, start, interval, now, best.value);
      return tiers[best.value].interval;
    }
    var i := |tiers| - 1;
    while i >= 0
      invariant -1 <= i < |tiers| && preferred == tiers[0].interval
      invariant forall j :: i < j < |tiers| ==> !Fits(tiers[j], interval)
    {
      if interval >= tiers[i].interval {
        RemainderIsMod(interval, tiers[i].interval);
        if GoMod(interval, tiers[i].interval) == 0 {
          assert Resolves(tiers, start, interval, now, i);
          return tiers[i].interval;
        }
      }
      i := i - 1;
    }
    assert Resolves(tiers, start, interval, now, 0);
    return preferred;
  }

  /** The first tier that covers `start`, or the last one. */
  ghost predicate IsBacking(tiers: seq<Tier>, start: int, now: int, b: int) {
    && 0 <= b < |tiers| && (forall j :: 0 <= j < b ==> !Covers(tiers[j], start, now))
    && (Covers(tiers[b], start, now) || b == |tiers| - 1)
  }

  /** The least multiple of `step` that is at least `low`. */
  ghost predicate LeastMultiple(m: int, low: int, step: int)
    requires step > 0
  {
    m >= low && m > 0 && m % step == 0 && forall k :: k >= low && k > 0 && k % step == 0 ==> k >= m
  }

  function AtLeast(interval: int, least: int): int {
    if interval < least then least else interval
  }

  lemma RoundUp(low: int, step: int)
    requires step > 0 && low > 0
    ensures low <= step ==> LeastMultiple(step, low, step)
    ensures low > step ==> LeastMultiple(if low % step == 0 then low else low + step - low % step, low, step)
  {
    var m := if low <= step then step else if low % step == 0 then low else low + step - low % step;
    assert low == (low / step) * step + low % step;
    if low > step && low % step != 0 {
      assert m == (low / step + 1) * step;
      MultipleMod(low / step + 1, step);
    }
    forall k | k >= low && k > 0 && k % step == 0 ensures k >= m {
      if k < m {
        MultipleUnique(k, m, step);
      }
    }
  }

  method CompatibleSeriesInterval(tiers: seq<Tier>, start: int, now: int, interval: int)
      returns (compatible: int, ghost backing: int)
    requires ValidTiers(tiers)
    ensures interval <= 0 || tiers == [] ==> compatible == interval
    ensures interval > 0 && tiers != [] ==>
              IsBacking(tiers, start, now, backing)
              && LeastMultiple(compatible, AtLeast(interval, tiers[0].interval), tiers[backing].interval)
    ensures interval > 0 && tiers != [] ==>
              && (forall j :: 0 <= j < backing ==> start < now - tiers[j].retention)
              && (backing < |tiers| - 1 ==> now - tiers[backing].retention <= start)
              && compatible >= interval && compatible >= tiers[0].interval && tiers[backing].interval > 0
              && compatible % tiers[backing].interval == 0
              && (compatible - tiers[backing].interval < interval || compatible - tiers[backing].interval < tiers[0].interval)
  {
    backing := 0;
    if interval <= 0 || |tiers| == 0 {
      return interval, backing;
    }
    compatible := AtLeast(interval, tiers[0].interval);
    var b := |tiers| - 1;
    var i := 0;
    while i < |tiers|
      invariant 0 <= i <= |tiers| && b == |tiers| - 1
      invariant forall j :: 0 <= j < i ==> !Covers(tiers[j], start, now)
    {
      if !(now - tiers[i].retention > start) {
        b := i;
        break;
      }
      i := i + 1;
    }
    backing := b;
    var step := tiers[b].interval;
    RoundUp(compatible, step);
    if compatible <= step {
      return step, backing;
    }
    RemainderIsMod(compatible, step);
    var remainder := GoMod(compatible, step);
    if remainder != 0 {
      compatible := compatible + step - remainder;
    }
  }

  /** A compatible interval can be answered exactly for every metric that still keeps the start
      of the range, whatever tiers its own ladder has dropped. */
  lemma CompatibleIsServed(p: RollupPolicy, retention: int, start: int, now: int, interval: int, compatible: int, backing: int)
    requires ValidPolicy(p) && p.tiers != [] && retention > 0 && interval > 0
    requires IsBacking(p.tiers, start, now, backing)
    requires LeastMultiple(compatible, AtLeast(interval, p.tiers[0].interval), p.tiers[backing].interval)
    requires now - retention <= start
    ensures var ladder := WithRetention(p, retention).tiers;
            exists k :: 0 <= k < |ladder| && Serves(ladder[k], compatible, start, now)
  {
    var ladder := WithRetention(p, retention).tiers;
    LadderStaysSound(p.tiers, retention, |p.tiers|);
    assert Backed(ladder, p.tiers, backing, retention);
    var k :| 0 <= k < |ladder| && Backs(ladder[k], p.tiers[backing], Clipped(p.tiers, backing, retention));
    DividesChain(ladder[k].interval, p.tiers[backing].interval, compatible);
    DivisorIsSmaller(compatible, ladder[k].interval);
    assert Serves(ladder[k], compatible, start, now);
  }

  lemma DivisorIsSmaller(a: int, d: int)
    requires a > 0 && d > 0 && a % d == 0
    ensures d <= a
  {
  }

  // ---- cleanup ----------------------------------------------------------------------------------------------

  function Millis(nanos: int): int {
    nanos / NANOS_PER_MILLI
  }

  /** Every deletion aligns its cutoff to the tier, so that a bucket is dropped only when all of
      it is older than the retention. */
  function CleanupCutoff(t: Tier, now: int): int {
    BucketStart(Millis(now - t.retention), Millis(t.interval))
  }

  function TierFor(ladder: seq<Tier>, interval: int): (t: Option<Tier>)
    ensures t.Some? ==> t.value.interval == interval
  {
    if ladder == [] then None
    else if ladder[|ladder| - 1].interval == interval then Some(ladder[|ladder| - 1])
    else TierFor(ladder[..|ladder| - 1], interval)
  }

  datatype RowKey = RowKey(metric: string, interval: int, bucket: int, cell: string)

  /** Whether retention at `now` removes a row of a metric kept for `days` days. */
  predicate Expired(p: RollupPolicy, days: int, now: int, k: RowKey) {
    days == 0 || (OnTier(p.tiers, k.interval) && Outlived(WithRetention(p, days * DAY_NANOS).tiers, now, k))
  }

  /** The ladder has no tier for the row, or one that no longer keeps its bucket. */
  predicate Outlived(ladder: seq<Tier>, now: int, k: RowKey) {
    match TierFor(ladder, k.interval)
    case None => true
    case Some(t) => k.bucket < CleanupCutoff(t, now)
  }

  predicate OnTier(tiers: seq<Tier>, interval: int) {
    exists i :: 0 <= i < |tiers| && tiers[i].interval == interval
  }

  lemma {:induction false} TierForFound(ladder: seq<Tier>, k: int)
    requires ValidTiers(ladder) && 0 <= k < |ladder|
    ensures TierFor(ladder, ladder[k].interval) == Some(ladder[k])
    decreases |ladder|
  {
    var last := |ladder| - 1;
    if k < last {
      IntervalsGrow(ladder, k, last - 1);
      assert TierFollows(ladder[last - 1], ladder[last]);
      TierForFound(ladder[..last], k);
    }
  }

  /** What retention leaves of the rows when it is applied to the metrics `names`: rows of other
      metrics, and of metrics without a definition, stay. */
  function Kept<V>(rows: map<RowKey, V>, p: RollupPolicy, definitions: map<string, int>, names: set<string>, now: int)
      : map<RowKey, V>
  {
    map k | k in rows && !(k.metric in names && k.metric in definitions && Expired(p, definitions[k.metric], now, k)) :: rows[k]
  }

  /** A row on its grid is dropped exactly when all of its span is older than the retention. */
  lemma DroppedIffWhollyOld(t: Tier, now: int, bucket: int)
    requires t.interval >= NANOS_PER_MILLI && bucket % Millis(t.interval) == 0
    ensures bucket < CleanupCutoff(t, now) <==> bucket + Millis(t.interval) <= Millis(now - t.retention)
  {
    var cut, size := Millis(now - t.retention), Millis(t.interval);
    assert size > 0;
    MultipleUnique(BucketStart(bucket, size), bucket, size);
    MultipleUnique(BucketStart(bucket + size, size), bucket + size, size) by { NextMultiple(bucket, size); }
    if bucket + size <= cut {
      BucketMonotone(bucket + size, cut, size);
    }
    if bucket < BucketStart(cut, size) < bucket + size {
      MultipleUnique(BucketStart(cut, size), bucket, size);
    }
  }

  lemma NextMultiple(b: int, size: int)
    requires size > 0 && b % size == 0
    ensures (b + size) % size == 0
  {
    var q := b / size;
    assert b == q * size;
    assert b + size == (q + 1) * size;
    MultipleMod(q + 1, size);
  }

  /** Retention never deletes a bucket that a covered query of the same instant reads. */
  lemma CleanupSparesCovered<V>(rows: map<RowKey, V>, p: RollupPolicy, definitions: map<string, int>, names: set<string>,
                                now: int, interval: int, start: int, i: int, k: RowKey)
    requires ValidPolicy(p) && p.tiers != [] && k in rows
    requires k.metric in definitions && definitions[k.metric] > 0
    requires var ladder := WithRetention(p, definitions[k.metric] * DAY_NANOS).tiers;
             0 <= i < |ladder| && Serves(ladder[i], interval, start, now) && k.interval == ladder[i].interval
    requires k.bucket >= BucketStart(Millis(start), Millis(k.interval))
    ensures k in Kept(rows, p, definitions, names, now)
  {
    var ladder := WithRetention(p, definitions[k.metric] * DAY_NANOS).tiers;
    DerivedLadder(p, definitions[k.metric] * DAY_NANOS);
    TierForFound(ladder, i);
    IntervalsGrow(ladder, 0, i);
    MillisMonotone(now - ladder[i].retention, start);
    BucketMonotone(Millis(now - ladder[i].retention), Millis(start), Millis(k.interval));
  }

  lemma MillisMonotone(a: int, b: int)
    requires a <= b
    ensures Millis(a) <= Millis(b)
  {
  }

  /** Compacting the metrics one after the other, in any order, is the scheduled cleanup. */
  function KeptInTurn<V>(rows: map<RowKey, V>, p: RollupPolicy, definitions: map<string, int>, order: seq<string>, now: int)
      : map<RowKey, V>
  {
    if order == [] then rows
    else Kept(KeptInTurn(rows, p, definitions, order[..|order| - 1], now), p, definitions, {order[|order| - 1]}, now)
  }

  lemma {:induction false} CompactingIsCleanup<V>(rows: map<RowKey, V>, p: RollupPolicy, definitions: map<string, int>,
                                                  order: seq<string>, now: int)
    ensures KeptInTurn(rows, p, definitions, order, now) == Kept(rows, p, definitions, (set name | name in order), now)
  {
    hide Expired;
    if order != [] {
      var init, last := order[..|order| - 1], order[|order| - 1];
      CompactingIsCleanup(rows, p, definitions, init, now);
      assert order == init + [last];
      assert (set name | name in order) == (set name | name in init) + {last};
    }
  }

  /** One deletion of the scheduled cleanup: a tier of some metrics, up to a cutoff or all of it. */
  datatype CleanupGroup = CleanupGroup(interval: int, beforeMilli: int, all: bool)

  function GroupFor(ladder: seq<Tier>, interval: int, now: int): CleanupGroup {
    match TierFor(ladder, interval)
    case None => CleanupGroup(interval, 0, true)
    case Some(t) => CleanupGroup(interval, CleanupCutoff(t, now), false)
  }

  predicate Hits(g: CleanupGroup, k: RowKey) {
    k.interval == g.interval && (g.all || k.bucket < g.beforeMilli)
  }

  type Groups = map<CleanupGroup, set<string>>

  predicate Grouped(groups: Groups, g: CleanupGroup, name: string) {
    g in groups && name in groups[g]
  }

  /** Metric `name` is in the group of every one of its first `n` tiers, and in no other. */
  ghost predicate GroupedUpTo(groups: Groups, p: RollupPolicy, days: int, name: string, now: int, n: nat)
    requires n <= |p.tiers|
  {
    forall g :: Grouped(groups, g, name) <==> exists i :: 0 <= i < n && g == TierGroup(p, days, now, i)
  }

  /** The deletion a metric kept for `days` days needs on tier `i`. */
  function TierGroup(p: RollupPolicy, days: int, now: int, i: int): CleanupGroup
    requires 0 <= i < |p.tiers|
  {
    GroupFor(WithRetention(p, days * DAY_NANOS).tiers, p.tiers[i].interval, now)
  }

  /** The groups hold exactly the metrics among `names` that are not disabled. */
  ghost predicate AllGrouped(groups: Groups, p: RollupPolicy, definitions: map<string, int>, names: set<string>, now: int) {
    forall name :: GroupedUpTo(groups, p, DaysOf(definitions, name), name, now,
                               if name in names && DaysOf(definitions, name) != 0 then |p.tiers| else 0)
  }

  /** A metric without a definition, or with none to keep, has nothing to group. */
  function DaysOf(definitions: map<string, int>, name: string): int {
    if name in definitions then definitions[name] else 0
  }

  lemma HitIsExpired(p: RollupPolicy, days: int, now: int, k: RowKey, groups: Groups)
    requires days != 0 && GroupedUpTo(groups, p, days, k.metric, now, |p.tiers|)
    ensures (exists g :: Grouped(groups, g, k.metric) && Hits(g, k)) <==> Expired(p, days, now, k)
  {
    hide WithRetention, TierFor, CleanupCutoff;
    var ladder := WithRetention(p, days * DAY_NANOS).tiers;
    if Expired(p, days, now, k) {
      var i :| 0 <= i < |p.tiers| && p.tiers[i].interval == k.interval;
      var g := TierGroup(p, days, now, i);
      assert Grouped(groups, g, k.metric) && Hits(g, k);
    }
  }

  class RollupRows<V> {
    var rows: map<RowKey, V>

    constructor (rows: map<RowKey, V>)
      ensures this.rows == rows
    {
      this.rows := rows;
    }

    method DeleteMetrics(names: set<string>)
      modifies this
      ensures rows == map k | k in old(rows) && k.metric !in names :: old(rows)[k]
    {
      rows := map k | k in rows && k.metric !in names :: rows[k];
    }

    method DeleteTier(names: set<string>, g: CleanupGroup)
      modifies this
      ensures rows == map k | k in old(rows) && !(k.metric in names && Hits(g, k)) :: old(rows)[k]
    {
      rows := map k | k in rows && !(k.metric in names && Hits(g, k)) :: rows[k];
    }

    /** Deletes a tier up to the given instant, after aligning it to the tier. */
    method DeleteBefore(name: string, interval: int, beforeMilli: int)
      modifies this
      ensures rows == map k | k in old(rows) && !(k.metric == name && k.interval == interval
                                                  && k.bucket < BucketStart(beforeMilli, Millis(interval))) :: old(rows)[k]
    {
      var cutoff := BucketStart(beforeMilli, Millis(interval));
      rows := map k | k in rows && !(k.metric == name && k.interval == interval && k.bucket < cutoff) :: rows[k];
    }

    /** Applies retention to one metric, tier by tier, in one transaction. */
    method CompactMetric(p: RollupPolicy, definitions: map<string, int>, name: string, now: int, commit: bool)
      requires ValidPolicy(p)
      modifies this
      ensures rows == if commit then Kept(old(rows), p, definitions, {name}, now) else old(rows)
    {
      hide Expired;
      ghost var start := rows;
      var before := rows;
      if name in definitions {
        EnforceRetention(p, definitions[name], name, now);
      }
      assert rows == Kept(start, p, definitions, {name}, now);
      if !commit {
        rows := before;
      }
    }

    method EnforceRetention(p: RollupPolicy, days: int, name: string, now: int)
      requires ValidPolicy(p)
      modifies this
      ensures rows == map k | k in old(rows) && !(k.metric == name && Expired(p, days, now, k)) :: old(rows)[k]
    {
      hide Outlived, WithRetention;
      if days == 0 {
        DeleteMetrics({name});
        return;
      }
      var policy := WithMetricRetention(p, days * DAY_NANOS);
      var i := 0;
      while i < |p.tiers|
        invariant 0 <= i <= |p.tiers|
        invariant rows == map k | k in old(rows) &&
                    !(k.metric == name && OnTier(p.tiers[..i], k.interval) && Outlived(policy.tiers, now, k)) :: old(rows)[k]
      {
        OneMoreTier(p.tiers, i);
        EnforceTier(policy.tiers, p.tiers[i].interval, name, now);
        i := i + 1;
      }
      assert p.tiers[..i] == p.tiers;
    }

    method EnforceTier(ladder: seq<Tier>, interval: int, name: string, now: int)
      modifies this
      ensures rows == map k | k in old(rows) && !(k.metric == name && k.interval == interval && Outlived(ladder, now, k)) :: old(rows)[k]
    {
      hide TierFor, BucketStart;
      match TierFor(ladder, interval) {
        case None =>
          DeleteTier({name}, CleanupGroup(interval, 0, true));
        case Some(t) =>
          DeleteBefore(name, interval, Millis(now - t.retention));
      }
    }

    /** Applies retention to every defined metric in one transaction. Metrics that share a tier and
        a cutoff share one deletion. */
    method CleanupExpired(p: RollupPolicy, definitions: map<string, int>, now: int, commit: bool)
      requires ValidPolicy(p)
      modifies this
      ensures rows == if commit then Kept(old(rows), p, definitions, definitions.Keys, now) else old(rows)
    {
      hide Expired, GroupedUpTo;
      var before := rows;
      var groups, disabled := GroupMetrics(p, definitions, now);
      DeleteMetrics(disabled);
      DeleteGroups(groups);
      ghost var kept := Kept(before, p, definitions, definitions.Keys, now);
      forall k | k in before ensures k in rows <==> k in kept {
        GroupDecides(groups, p, definitions, now, k);
      }
      assert rows == kept;
      if !commit {
        rows := before;
      }
    }

    /** Executes the grouped deletions. */
    method DeleteGroups(groups: Groups)
      modifies this
      ensures rows == map k | k in old(rows) && !(exists g :: Grouped(groups, g, k.metric) && Hits(g, k)) :: old(rows)[k]
    {
      var left := groups.Keys;
      while left != {}
        invariant left <= groups.Keys
        invariant rows == map k | k in old(rows) &&
                    !(exists g :: g !in left && Grouped(groups, g, k.metric) && Hits(g, k)) :: old(rows)[k]
        decreases left
      {
        var g :| g in left;
        DeleteTier(groups[g], g);
        left := left - {g};
      }
    }
  }

  /** Sorts the metrics into deletions. */
  method GroupMetrics(p: RollupPolicy, definitions: map<string, int>, now: int) returns (groups: Groups, disabled: set<string>)
    requires ValidPolicy(p)
    ensures disabled == set name | name in definitions && definitions[name] == 0
    ensures AllGrouped(groups, p, definitions, definitions.Keys, now)
  {
    hide GroupFor, WithRetention;
    groups, disabled := map[], {};
    var left := definitions.Keys;
    while left != {}
      invariant left <= definitions.Keys
      invariant disabled == set name | name in definitions && name !in left && definitions[name] == 0
      invariant AllGrouped(groups, p, definitions, definitions.Keys - left, now)
      decreases left
    {
      var name :| name in left;
      if definitions[name] == 0 {
        disabled := disabled + {name};
      } else {
        groups := GroupMetric(groups, p, name, definitions[name], now);
      }
      left := left - {name};
    }
  }

  /** Adds one metric to the deletion of each of its tiers. */
  method GroupMetric(before: Groups, p: RollupPolicy, name: string, days: int, now: int) returns (groups: Groups)
    requires forall g :: !Grouped(before, g, name)
    ensures GroupedUpTo(groups, p, days, name, now, |p.tiers|)
    ensures forall g, other :: other != name ==> (Grouped(groups, g, other) <==> Grouped(before, g, other))
  {
    hide GroupFor, WithRetention;
    groups := before;
    var policy := WithMetricRetention(p, days * DAY_NANOS);
    var i := 0;
    while i < |p.tiers|
      invariant 0 <= i <= |p.tiers| && GroupedUpTo(groups, p, days, name, now, i)
      invariant forall g, other :: other != name ==> (Grouped(groups, g, other) <==> Grouped(before, g, other))
    {
      var g := GroupFor(policy.tiers, p.tiers[i].interval, now);
      assert g == TierGroup(p, days, now, i);
      ghost var was := groups;
      groups := groups[g := (if g in groups then groups[g] else {}) + {name}];
      assert forall x :: Grouped(groups, x, name) <==> x == g || Grouped(was, x, name);
      i := i + 1;
    }
  }

  lemma GroupDecides(groups: Groups, p: RollupPolicy, definitions: map<string, int>, now: int, k: RowKey)
    requires AllGrouped(groups, p, definitions, definitions.Keys, now)
    ensures k.metric in definitions && definitions[k.metric] != 0 ==>
              ((exists g :: Grouped(groups, g, k.metric) && Hits(g, k)) <==> Expired(p, definitions[k.metric], now, k))
    ensures k.metric !in definitions || definitions[k.metric] == 0 ==> forall g :: !Grouped(groups, g, k.metric)
    ensures k.metric in definitions && definitions[k.metric] == 0 ==> Expired(p, 0, now, k)
  {
    if k.metric in definitions && definitions[k.metric] != 0 {
      HitIsExpired(p, definitions[k.metric], now, k, groups);
    }
  }

  lemma OneMoreTier(tiers: seq<Tier>, i: int)
    requires 0 <= i < |tiers|
    ensures forall interval :: OnTier(tiers[..i + 1], interval) <==> OnTier(tiers[..i], interval) || interval == tiers[i].interval
    ensures OnTier(tiers, tiers[i].interval)
  {
    var more, less := tiers[..i + 1], tiers[..i];
    forall interval ensures OnTier(more, interval) <==> OnTier(less, interval) || interval == tiers[i].interval {
      if OnTier(less, interval) {
        var j :| 0 <= j < |less| && less[j].interval == interval;
        assert more[j].interval == interval;
      }
      assert more[i] == tiers[i];
      if OnTier(more, interval) {
        var j :| 0 <= j < |more| && more[j].interval == interval;
        assert j < i ==> less[j].interval == interval;
      }
    }
  }
}
