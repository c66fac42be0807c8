/** Recomputing coarser tiers from a finer one: each tier is built from the one below, in
    whatever order a map yields its keys, and equals the source aggregated directly. */
module RollupImport {
  import opened Clock
  import opened Rollup
  import opened Window
  import opened CoarseSpec

  /** Every bucket starts on the grid and its samples fall inside it. */
  ghost predicate Placed(m: Buckets, step: int) {
    step > 0 && Sound(m) && forall k :: k in m ==>
      k.bucket % step == 0 && k.bucket <= m[k].firstTS <= m[k].lastTS < k.bucket + step
  }

  function Coarser(k: HotKey, interval: int): HotKey {
    k.(bucket := BucketStart(k.bucket, interval))
  }

  /** The buckets of one coarse cell merged in time order. */
  ghost function CellValue(m: Buckets, c: HotKey, interval: int, step: int): Summary
    requires step > 0
  {
    Slots(m, c, c.bucket, c.bucket + interval, step)
  }

  // ---- where merged samples lie -----------------------------------------------------------------

  ghost predicate InSpan(b: Summary, lo: int, hi: int) {
    WellFormed(b) && (b.count > 0 ==> lo <= b.firstTS && b.lastTS < hi)
  }

  lemma MergeSpan(a: Summary, b: Summary, lo: int, mid: int, hi: int)
    requires InSpan(a, lo, mid) && InSpan(b, mid, hi) && lo <= mid <= hi
    ensures InSpan(Merge(a, b), lo, hi)
  {
  }

  lemma {:induction false} SlotsSpan(m: Buckets, c: HotKey, lo: int, hi: int, step: int)
    requires Placed(m, step) && (hi - lo) % step == 0 && lo <= hi
    ensures InSpan(Slots(m, c, lo, hi, step), lo, hi)
    decreases hi - lo
  {
    hide Merge;
    if hi > lo {
      StepDown(hi - lo, step);
      SlotsSpan(m, c, lo, hi - step, step);
      MergeSpan(Slots(m, c, lo, hi - step, step), BucketOf(m, At(c, hi - step)), lo, hi - step, hi);
    }
  }

  /** Summaries of disjoint spans commute. */
  lemma SpansCommute(a: Summary, b: Summary, lo: int, mid: int, hi: int)
    requires InSpan(a, lo, mid) && InSpan(b, mid, hi) && lo <= mid <= hi
    ensures Merge(a, b) == Merge(b, a)
  {
    MergeCommutes(a, b);
  }

  /** Merging one more bucket at the end of the line puts it in its place in time. */
  lemma InsertAnywhere(m: Buckets, c: HotKey, lo: int, hi: int, step: int, k: HotKey, b: Summary)
    requires Placed(m, step) && Placed(m[k := b], step) && k !in m && k == At(c, k.bucket)
    requires lo <= k.bucket < hi && (hi - lo) % step == 0 && (k.bucket - lo) % step == 0
    ensures Slots(m[k := b], c, lo, hi, step) == Merge(Slots(m, c, lo, hi, step), b)
  {
    hide Merge, Slots;
    var t, n := k.bucket, m[k := b];
    Remainders(lo, t, hi, step);
    ThreeParts(m, c, lo, t, hi, step);
    ThreeParts(n, c, lo, t, hi, step);
    SlotsCongruent(n, m, c, lo, t, step);
    SlotsCongruent(n, m, c, t + step, hi, step);
    var before, after := Slots(m, c, lo, t, step), Slots(m, c, t + step, hi, step);
    assert BucketOf(n, At(c, t)) == b && BucketOf(m, At(c, t)) == EMPTY;
    SlotsSpan(m, c, lo, t, step);
    SlotsSpan(m, c, t + step, hi, step);
    MergeUnit(before);
    MergeAssociative(before, after, b);
    MergeAssociative(before, b, after);
    SpansCommute(b, after, t, t + step, hi);
  }

  lemma Remainders(lo: int, t: int, hi: int, step: int)
    requires step > 0 && lo <= t < hi && (hi - lo) % step == 0 && (t - lo) % step == 0
    ensures t + step <= hi && (hi - t) % step == 0 && (hi - t - step) % step == 0
  {
    var p, q := (hi - lo) / step, (t - lo) / step;
    assert hi - lo == p * step && t - lo == q * step;
    assert (p - q) * step == hi - t;
    MultipleMod(p - q, step);
    StepDown(hi - t, step);
  }

  lemma ThreeParts(m: Buckets, c: HotKey, lo: int, t: int, hi: int, step: int)
    requires Placed(m, step) && lo <= t && t + step <= hi
    requires (hi - t) % step == 0 && (hi - t - step) % step == 0 && (t - lo) % step == 0
    ensures Slots(m, c, lo, hi, step) ==
            Merge(Merge(Slots(m, c, lo, t, step), BucketOf(m, At(c, t))), Slots(m, c, t + step, hi, step))
  {
    hide Merge;
    SlotsSplit(m, c, lo, t + step, hi, step);
    assert t + step - step == t;
  }

  // ---- one tier ------------------------------------------------------------------------------------

  function Part(m: Buckets, keys: set<HotKey>): Buckets {
    map k | k in m && k in keys :: m[k]
  }

  /** What a partly built tier holds once the buckets in `done` are merged. */
  ghost predicate Built(out: Buckets, m: Buckets, done: set<HotKey>, interval: int, step: int)
    requires interval > 0 && step > 0
  {
    && (forall c: HotKey :: c.bucket % interval == 0 ==> BucketOf(out, c) == CellValue(Part(m, done), c, interval, step))
    && (forall c :: c in out <==> exists k :: k in m && k in done && Coarser(k, interval) == c)
  }

  lemma PartPlaced(m: Buckets, keys: set<HotKey>, step: int)
    requires Placed(m, step)
    ensures Placed(Part(m, keys), step)
  {
  }

  lemma BuiltNothing(m: Buckets, interval: int, step: int)
    requires interval > 0 && step > 0 && interval % step == 0
    ensures Built(map[], m, {}, interval, step)
  {
    forall c: HotKey | c.bucket % interval == 0 ensures CellValue(Part(m, {}), c, interval, step) == EMPTY {
      SlotsOfNothing(Part(m, {}), c, c.bucket, c.bucket + interval, step);
    }
  }

  lemma BuiltMore(out: Buckets, m: Buckets, done: set<HotKey>, interval: int, step: int, k: HotKey)
    requires Placed(m, step) && interval > 0 && interval % step == 0 && k in m && k !in done
    requires Built(out, m, done, interval, step)
    ensures var c := Coarser(k, interval);
            Built(out[c := Merge(BucketOf(out, c), m[k])], m, done + {k}, interval, step)
  {
    hide Merge, CellValue, Part, Placed;
    PlacedStep(m, step);
    var mine := Coarser(k, interval);
    var after := out[mine := Merge(BucketOf(out, mine), m[k])];
    PartGrows(m, done, k);
    forall c: HotKey | c.bucket % interval == 0
      ensures BucketOf(after, c) == CellValue(Part(m, done + {k}), c, interval, step)
    {
      if c == mine {
        IntoCell(m, done, interval, step, k);
      } else {
        OutsideCell(m, done, interval, step, k, c);
      }
    }
    BuiltKeys(out, after, m, done, interval, k);
  }

  lemma PartGrows(m: Buckets, done: set<HotKey>, k: HotKey)
    requires k in m
    ensures Part(m, done + {k}) == Part(m, done)[k := m[k]]
  {
  }

  lemma BuiltKeys(out: Buckets, after: Buckets, m: Buckets, done: set<HotKey>, interval: int, k: HotKey)
    requires k in m && after.Keys == out.Keys + {Coarser(k, interval)}
    requires forall c :: c in out <==> exists j :: j in m && j in done && Coarser(j, interval) == c
    ensures forall c :: c in after <==> exists j :: j in m && j in done + {k} && Coarser(j, interval) == c
  {
    hide Coarser;
    forall c ensures c in after <==> exists j :: j in m && j in done + {k} && Coarser(j, interval) == c {
      if c == Coarser(k, interval) {
        assert k in m && k in done + {k} && Coarser(k, interval) == c;
      }
    }
  }

  lemma IntoCell(m: Buckets, done: set<HotKey>, interval: int, step: int, k: HotKey)
    requires Placed(m, step) && interval > 0 && interval % step == 0 && k in m && k !in done
    ensures var c := Coarser(k, interval);
            CellValue(Part(m, done)[k := m[k]], c, interval, step) == Merge(CellValue(Part(m, done), c, interval, step), m[k])
  {
    hide Merge;
    var c := Coarser(k, interval);
    DividesTransitive(c.bucket, interval, step);
    DifferenceDivides(k.bucket, c.bucket, step);
    PartPlaced(m, done, step);
    InsertAnywhere(Part(m, done), c, c.bucket, c.bucket + interval, step, k, m[k]);
  }

  lemma OutsideCell(m: Buckets, done: set<HotKey>, interval: int, step: int, k: HotKey, c: HotKey)
    requires Placed(m, step) && interval > 0 && interval % step == 0 && k in m
    requires c.bucket % interval == 0 && c != Coarser(k, interval)
    ensures CellValue(Part(m, done)[k := m[k]], c, interval, step) == CellValue(Part(m, done), c, interval, step)
  {
    forall b | c.bucket <= b < c.bucket + interval && (b - c.bucket) % step == 0 ensures At(c, b) != k {
      MultipleUnique(BucketStart(b, interval), c.bucket, interval);
    }
    SlotsCongruent(Part(m, done)[k := m[k]], Part(m, done), c, c.bucket, c.bucket + interval, step);
  }

  /** Builds one coarser tier, taking the finer buckets in any order. */
  method BuildCoarserBuckets(delta: Buckets, interval: int, ghost step: int) returns (out: Buckets)
    requires Placed(delta, step) && interval > 0 && interval % step == 0
    ensures Built(out, delta, delta.Keys, interval, step)
  {
    hide Built, Placed, Merge;
    out := map[];
    PlacedStep(delta, step);
    BuiltNothing(delta, interval, step);
    var left := delta.Keys;
    assert delta.Keys - left == {};
    while left != {}
      invariant left <= delta.Keys && Built(out, delta, delta.Keys - left, interval, step)
      decreases left
    {
      var k :| k in left;
      BuiltMore(out, delta, delta.Keys - left, interval, step, k);
      assert delta.Keys - (left - {k}) == (delta.Keys - left) + {k};
      var c := Coarser(k, interval);
      var bucket := if c in out then out[c] else EMPTY;
      out := out[c := Merge(bucket, delta[k])];
      left := left - {k};
    }
    assert delta.Keys - left == delta.Keys;
  }

  lemma PlacedStep(m: Buckets, step: int)
    requires Placed(m, step)
    ensures step > 0
  {
  }

  // ---- the cascade ------------------------------------------------------------------------------------

  /** A tier holds exactly the source aggregated straight into its cells. */
  ghost predicate Direct(current: Buckets, source: Buckets, interval: int, step: int)
    requires interval > 0 && step > 0
  {
    && (forall c: HotKey :: c.bucket % interval == 0 ==> BucketOf(current, c) == CellValue(source, c, interval, step))
    && (forall c :: c in current ==> c.bucket % interval == 0 && current[c].count > 0)
  }

  lemma DirectPlaced(current: Buckets, source: Buckets, interval: int, step: int)
    requires Placed(source, step) && interval > 0 && interval % step == 0 && Direct(current, source, interval, step)
    ensures Placed(current, interval)
  {
    forall c | c in current
      ensures WellFormed(current[c]) && c.bucket <= current[c].firstTS <= current[c].lastTS < c.bucket + interval
    {
      SlotsSpan(source, c, c.bucket, c.bucket + interval, step);
    }
  }

  lemma SourceDirect(source: Buckets, step: int)
    requires Placed(source, step)
    ensures Direct(source, source, step, step)
  {
    forall c: HotKey | c.bucket % step == 0 ensures BucketOf(source, c) == CellValue(source, c, step, step) {
      assert Slots(source, c, c.bucket, c.bucket, step) == EMPTY;
      assert At(c, c.bucket + step - step) == c;
      MergeUnit(BucketOf(source, c));
    }
  }

  /** A tier built from a direct one is direct. */
  lemma BuiltDirect(out: Buckets, current: Buckets, source: Buckets, interval: int, fine: int, step: int)
    requires Placed(source, step) && fine > 0 && fine % step == 0 && interval > 0 && interval % fine == 0
    requires Direct(current, source, fine, step) && Built(out, current, current.Keys, interval, fine)
    ensures Direct(out, source, interval, step)
  {
    hide Merge, CellValue;
    DirectPlaced(current, source, fine, step);
    assert Part(current, current.Keys) == current;
    forall c: HotKey | c.bucket % interval == 0 ensures BucketOf(out, c) == CellValue(source, c, interval, step) {
      NestedCell(current, source, c, interval, fine, step);
    }
    forall c | c in out ensures c.bucket % interval == 0 && out[c].count > 0 {
      var k :| k in current && k in current.Keys && Coarser(k, interval) == c;
      CellPositive(current, interval, fine, k);
    }
  }

  lemma {:induction false} SlotDirect(current: Buckets, source: Buckets, c: HotKey, b: int, fine: int, step: int)
    requires fine > 0 && step > 0 && b % fine == 0 && Direct(current, source, fine, step)
    ensures BucketOf(current, At(c, b)) == Slots(source, c, b, b + fine, step)
  {
    hide Slots;
    assert BucketOf(current, At(c, b)) == CellValue(source, At(c, b), fine, step);
    SlotsOfCell(source, c, b, b, b + fine, step);
  }

  lemma NestedCell(current: Buckets, source: Buckets, c: HotKey, interval: int, fine: int, step: int)
    requires Placed(source, step) && fine > 0 && fine % step == 0 && interval > 0 && interval % fine == 0
    requires Direct(current, source, fine, step) && c.bucket % interval == 0
    ensures CellValue(current, c, interval, fine) == CellValue(source, c, interval, step)
  {
    hide Merge, Slots, Direct;
    DividesTransitive(c.bucket, interval, fine);
    forall b | c.bucket <= b < c.bucket + interval && (b - c.bucket) % fine == 0
      ensures BucketOf(current, At(c, b)) == Slots(source, c, b, b + fine, step)
    {
      SumDivides(c.bucket, b - c.bucket, fine);
      SlotDirect(current, source, c, b, fine, step);
    }
    SlotsNested(current, source, c, c.bucket, c.bucket + interval, fine, step);
  }

  /** A coarse cell around a non-empty bucket is not empty. */
  lemma CellPositive(m: Buckets, interval: int, step: int, k: HotKey)
    requires Placed(m, step) && interval > 0 && interval % step == 0 && k in m
    ensures CellValue(m, Coarser(k, interval), interval, step).count > 0
  {
    hide Merge, CellValue;
    var c := Coarser(k, interval);
    var others := m - {k};
    assert Part(m, m.Keys - {k}) == others;
    assert m == others[k := m[k]];
    IntoCell(m, m.Keys - {k}, interval, step, k);
    PartPlaced(m, m.Keys - {k}, step);
    CellWellFormed(others, c, interval, step);
    MergeWellFormed(CellValue(others, c, interval, step), m[k]);
  }

  lemma CellWellFormed(m: Buckets, c: HotKey, interval: int, step: int)
    requires Placed(m, step)
    ensures WellFormed(CellValue(m, c, interval, step))
  {
    SlotsWellFormed(m, c, c.bucket, c.bucket + interval, step);
  }

  function Below(step: int, tiers: seq<int>, i: int): int
    requires 0 <= i <= |tiers|
  {
    if i == 0 then step else tiers[i - 1]
  }

  ghost predicate ValidTiers(step: int, tiers: seq<int>) {
    step > 0 && forall i :: 0 <= i < |tiers| ==> tiers[i] > 0 && Below(step, tiers, i) > 0 && tiers[i] % Below(step, tiers, i) == 0
  }

  /** The first `n` tiers are rebuilt on top of the old rows, and nothing else has changed. */
  ghost predicate RebuiltUpTo(result: map<int, Buckets>, built: seq<Buckets>, rows: map<int, Buckets>, source: Buckets,
                              step: int, tiers: seq<int>, n: nat)
    requires ValidTiers(step, tiers) && n <= |tiers|
  {
    && |built| == n && result.Keys == rows.Keys
    && (forall i :: 0 <= i < |tiers| ==> tiers[i] in rows)
    && (forall i :: 0 <= i < n ==>
          Direct(built[i], source, tiers[i], step) && result[tiers[i]] == rows[tiers[i]] + built[i])
    && (forall t :: t in rows && t !in tiers[..n] ==> result[t] == rows[t])
  }

  lemma RebuiltMore(result: map<int, Buckets>, built: seq<Buckets>, rows: map<int, Buckets>, source: Buckets,
                    step: int, tiers: seq<int>, n: nat, next: Buckets)
    requires ValidTiers(step, tiers) && n < |tiers| && RebuiltUpTo(result, built, rows, source, step, tiers, n)
    requires forall i, j :: 0 <= i < j < |tiers| ==> tiers[i] != tiers[j]
    requires Direct(next, source, tiers[n], step)
    ensures tiers[n] in result
    ensures RebuiltUpTo(result[tiers[n] := result[tiers[n]] + next], built + [next], rows, source, step, tiers, n + 1)
  {
    hide Direct, ValidTiers;
    var after, all := result[tiers[n] := result[tiers[n]] + next], built + [next];
    assert tiers[n] !in tiers[..n];
    assert tiers[..n + 1] == tiers[..n] + [tiers[n]];
    StepPositive(step, tiers);
    forall i | 0 <= i < n + 1
      ensures Direct(all[i], source, tiers[i], step) && after[tiers[i]] == rows[tiers[i]] + all[i]
    {
      assert i < n ==> all[i] == built[i] && after[tiers[i]] == result[tiers[i]];
    }
  }

  lemma StepPositive(step: int, tiers: seq<int>)
    requires ValidTiers(step, tiers)
    ensures step > 0 && forall i :: 0 <= i < |tiers| ==> tiers[i] > 0
  {
  }

  /** Rebuilds every coarser tier in turn; rows no source bucket falls into stay as they are. */
  method RebuildCoarserRollups(source: Buckets, step: int, tiers: seq<int>, rows: map<int, Buckets>)
      returns (result: map<int, Buckets>)
    requires Placed(source, step) && ValidTiers(step, tiers)
    requires forall i :: 0 <= i < |tiers| ==> tiers[i] in rows
    requires forall i, j :: 0 <= i < j < |tiers| ==> tiers[i] != tiers[j]
    ensures exists built :: RebuiltUpTo(result, built, rows, source, step, tiers, |tiers|)
  {
    hide Placed, Direct, Built, RebuiltUpTo;
    result := rows;
    ghost var built := [];
    var current := source;
    ghost var fine := step;
    PlacedStep(source, step);
    SourceDirect(source, step);
    StepDividesItself(step);
    RebuiltNone(rows, source, step, tiers);
    var i := 0;
    while i < |tiers|
      invariant 0 <= i <= |tiers| && fine == Below(step, tiers, i) && fine > 0 && fine % step == 0
      invariant Direct(current, source, fine, step)
      invariant RebuiltUpTo(result, built, rows, source, step, tiers, i)
    {
      DirectPlaced(current, source, fine, step);
      var next := BuildCoarserBuckets(current, tiers[i], fine);
      BuiltDirect(next, current, source, tiers[i], fine, step);
      DividesTransitive(tiers[i], fine, step);
      RebuiltMore(result, built, rows, source, step, tiers, i, next);
      result := result[tiers[i] := result[tiers[i]] + next];
      built := built + [next];
      fine := tiers[i];
      current := next;
      i := i + 1;
    }
  }

  lemma RebuiltNone(rows: map<int, Buckets>, source: Buckets, step: int, tiers: seq<int>)
    requires ValidTiers(step, tiers) && forall i :: 0 <= i < |tiers| ==> tiers[i] in rows
    ensures RebuiltUpTo(rows, [], rows, source, step, tiers, 0)
  {
  }

  lemma StepDividesItself(step: int)
    requires step > 0
    ensures step % step == 0
  {
  }
}
