/** Coarse parents on values: ladders of intervals, minutes staged under their parents, and
    the invariant that ties open and sealed parents to the staged minutes. */
module CoarseSpec {
  import opened Clock
  import opened Rollup
  import opened Window

  const GRACE: int := 600_000

  /** One unsealed materialised parent; `cell` carries its series, label set and start. */
  datatype ParentKey = ParentKey(interval: int, cell: HotKey)

  /** `higher` lists the active intervals above this parent, nearest first. */
  datatype Parent = Parent(higher: seq<int>, children: Buckets)

  // ---- ladders -----------------------------------------------------------------------------------

  /** The intervals of a valid policy: minutes first, each a larger multiple of the one before. */
  ghost predicate ValidLadder(l: seq<int>) {
    && (l != [] ==> l[0] == MINUTE)
    && (forall j :: 0 <= j < |l| ==> 0 < l[j] <= NORMALIZE_LIMIT)
    && (forall j, k :: 0 <= j < k < |l| ==> l[j] < l[k] && l[k] % l[j] == 0)
  }

  type Ladders = string -> seq<int>

  ghost predicate ValidLadders(ladders: Ladders) {
    forall name :: ValidLadder(ladders(name))
  }

  function LadderOf(ladders: Ladders, k: HotKey): seq<int> {
    ladders(k.series.metricName)
  }

  /** The position of an interval on a ladder, or the ladder's length. */
  function TierOf(l: seq<int>, interval: int): (j: nat)
    ensures j <= |l| && (j < |l| ==> l[j] == interval)
  {
    if l == [] then 0
    else if l[0] == interval then 0
    else 1 + TierOf(l[1..], interval)
  }

  lemma {:induction false} TierFound(l: seq<int>, j: int)
    requires 0 <= j < |l| && forall a, b :: 0 <= a < b < |l| ==> l[a] < l[b]
    ensures TierOf(l, l[j]) == j
  {
    if j > 0 {
      assert l[0] < l[j];
      TierFound(l[1..], j - 1);
    }
  }

  function ParentOf(k: HotKey, interval: int): ParentKey {
    ParentKey(interval, k.(bucket := BucketStart(k.bucket, interval)))
  }

  /** A parent on one of its metric's tiers above the minutes, starting on a tier boundary. */
  ghost predicate Shaped(ladders: Ladders, p: ParentKey) {
    var l := LadderOf(ladders, p.cell);
    && 1 <= TierOf(l, p.interval) < |l|
    && l[TierOf(l, p.interval) - 1] > 0 && p.interval > 0 && p.cell.bucket % p.interval == 0
  }

  /** Late enough for its start to be stored as it is. */
  predicate InRange(p: ParentKey) {
    -p.interval <= p.cell.bucket
  }

  /** The interval of the tier just below. */
  ghost function Finer(ladders: Ladders, p: ParentKey): (f: int)
    requires Shaped(ladders, p)
    ensures f > 0
  {
    LadderOf(ladders, p.cell)[TierOf(LadderOf(ladders, p.cell), p.interval) - 1]
  }

  predicate Due(p: ParentKey, now: int) {
    p.cell.bucket + p.interval + GRACE <= now
  }

  /** `q` is a strictly finer parent inside `p`. */
  predicate Inside(q: ParentKey, p: ParentKey) {
    q.interval < p.interval && ParentOf(q.cell, p.interval) == p
  }

  // ---- merging consecutive slots ----------------------------------------------------------------------

  function At(cell: HotKey, bucket: int): HotKey {
    cell.(bucket := bucket)
  }

  /** The buckets at lo, lo + step, ... below hi, merged in time order; a gap adds nothing. */
  function Slots(m: Buckets, cell: HotKey, lo: int, hi: int, step: int): Summary
    requires step > 0
    decreases hi - lo
  {
    if hi <= lo then EMPTY
    else Merge(Slots(m, cell, lo, hi - step, step), BucketOf(m, At(cell, hi - step)))
  }

  ghost predicate Sound(m: Buckets) {
    forall k :: k in m ==> WellFormed(m[k]) && m[k].count > 0
  }

  lemma {:induction false} SlotsWellFormed(m: Buckets, cell: HotKey, lo: int, hi: int, step: int)
    requires step > 0 && Sound(m)
    ensures WellFormed(Slots(m, cell, lo, hi, step))
    decreases hi - lo
  {
    hide Merge;
    if hi > lo {
      SlotsWellFormed(m, cell, lo, hi - step, step);
      MergeWellFormed(Slots(m, cell, lo, hi - step, step), BucketOf(m, At(cell, hi - step)));
    }
  }

  /** A run of slots may be cut at any slot boundary and the parts merged. */
  lemma {:induction false} SlotsSplit(m: Buckets, cell: HotKey, lo: int, mid: int, hi: int, step: int)
    requires step > 0 && Sound(m) && lo <= mid <= hi && (hi - mid) % step == 0
    ensures Slots(m, cell, lo, hi, step) == Merge(Slots(m, cell, lo, mid, step), Slots(m, cell, mid, hi, step))
    decreases hi - mid
  {
    hide Merge;
    SlotsWellFormed(m, cell, lo, mid, step);
    if hi == mid {
      MergeUnit(Slots(m, cell, lo, mid, step));
    } else {
      StepDown(hi - mid, step);
      SlotsSplit(m, cell, lo, mid, hi - step, step);
      SlotsWellFormed(m, cell, mid, hi - step, step);
      MergeAssociative(Slots(m, cell, lo, mid, step), Slots(m, cell, mid, hi - step, step), BucketOf(m, At(cell, hi - step)));
    }
  }

  lemma StepDown(n: int, step: int)
    requires step > 0 && n > 0 && n % step == 0
    ensures n >= step && (n - step) % step == 0
  {
    var q := n / step;
    assert n == q * step;
    MultipleAtLeast(q, step);
    assert n - step == (q - 1) * step;
    MultipleMod(q - 1, step);
  }

  /** Slots that agree bucket by bucket merge to the same summary. */
  lemma {:induction false} SlotsCongruent(m: Buckets, n: Buckets, cell: HotKey, lo: int, hi: int, step: int)
    requires step > 0 && (hi - lo) % step == 0
    requires forall b :: lo <= b < hi && (b - lo) % step == 0 ==> BucketOf(m, At(cell, b)) == BucketOf(n, At(cell, b))
    ensures Slots(m, cell, lo, hi, step) == Slots(n, cell, lo, hi, step)
    decreases hi - lo
  {
    hide Merge;
    if hi > lo {
      StepDown(hi - lo, step);
      SlotsCongruent(m, n, cell, lo, hi - step, step);
      assert (hi - step - lo) % step == 0;
    }
  }

  lemma {:induction false} SlotsOfNothing(m: Buckets, cell: HotKey, lo: int, hi: int, step: int)
    requires step > 0 && (hi - lo) % step == 0
    requires forall b :: lo <= b < hi && (b - lo) % step == 0 ==> BucketOf(m, At(cell, b)) == EMPTY
    ensures Slots(m, cell, lo, hi, step) == EMPTY
    decreases hi - lo
  {
    hide Merge;
    if hi > lo {
      StepDown(hi - lo, step);
      SlotsOfNothing(m, cell, lo, hi - step, step);
      assert (hi - step - lo) % step == 0;
      MergeUnit(EMPTY);
    }
  }

  /** The cascade is flat: merging coarse slots whose values are merges of fine slots is
      merging the fine slots in one go. */
  lemma {:induction false} SlotsNested(m: Buckets, fine: Buckets, cell: HotKey, lo: int, hi: int, big: int, small: int)
    requires small > 0 && big > 0 && big % small == 0 && (hi - lo) % big == 0 && lo <= hi && Sound(fine)
    requires forall b :: lo <= b < hi && (b - lo) % big == 0 ==>
               BucketOf(m, At(cell, b)) == Slots(fine, cell, b, b + big, small)
    ensures Slots(m, cell, lo, hi, big) == Slots(fine, cell, lo, hi, small)
    decreases hi - lo
  {
    hide Merge;
    if hi > lo {
      StepDown(hi - lo, big);
      var mid := hi - big;
      SlotsNested(m, fine, cell, lo, mid, big, small);
      assert (mid - lo) % big == 0;
      SlotsSplit(fine, cell, lo, mid, hi, small);
    }
  }

  /** The flat merge of the staged minutes of a cell. */
  function Content(staged: Buckets, cell: HotKey, interval: int): Summary {
    Slots(staged, cell, cell.bucket, cell.bucket + interval, MINUTE)
  }

  lemma {:induction false} SlotsOfCell(m: Buckets, cell: HotKey, start: int, lo: int, hi: int, step: int)
    requires step > 0
    ensures Slots(m, At(cell, start), lo, hi, step) == Slots(m, cell, lo, hi, step)
    decreases hi - lo
  {
    hide Merge;
    if hi > lo {
      SlotsOfCell(m, cell, start, lo, hi - step, step);
    }
  }

  lemma ContentOfMinute(staged: Buckets, m: HotKey)
    requires Sound(staged)
    ensures Content(staged, m, MINUTE) == BucketOf(staged, m)
  {
    hide Merge;
    assert Slots(staged, m, m.bucket, m.bucket, MINUTE) == EMPTY;
    assert At(m, m.bucket + MINUTE - MINUTE) == m;
    MergeUnit(BucketOf(staged, m));
  }

  /** Children that hold the contents of their slots make up the content of the parent. */
  lemma ContentOfSlots(children: Buckets, staged: Buckets, cell: HotKey, interval: int, step: int)
    requires interval > 0 && step > 0 && interval % step == 0 && step % MINUTE == 0 && Sound(staged)
    requires forall b :: cell.bucket <= b < cell.bucket + interval && (b - cell.bucket) % step == 0 ==>
               BucketOf(children, At(cell, b)) == Content(staged, At(cell, b), step)
    ensures Slots(children, cell, cell.bucket, cell.bucket + interval, step) == Content(staged, cell, interval)
  {
    hide Merge, Slots;
    forall b | cell.bucket <= b < cell.bucket + interval && (b - cell.bucket) % step == 0
      ensures BucketOf(children, At(cell, b)) == Slots(staged, cell, b, b + step, MINUTE)
    {
      SlotsOfCell(staged, cell, b, b, b + step, MINUTE);
    }
    SlotsNested(children, staged, cell, cell.bucket, cell.bucket + interval, step, MINUTE);
  }
}
