/** What every reachable state of the coarse table keeps. */
module CoarseInvariant {
  import opened Clock
  import opened Rollup
  import opened Window
  import opened CoarseSpec

  /** `staged` records, for the proof, the last version of each minute handed to the table
      while its parent was open; `log` is the order in which parents were persisted. */
  datatype CoarseState = CoarseState(parents: map<ParentKey, Parent>, rows: map<ParentKey, Summary>,
                                     staged: Buckets, log: seq<ParentKey>)

  const NOTHING: CoarseState := CoarseState(map[], map[], map[], [])

  ghost predicate StagedSound(ladders: Ladders, staged: Buckets) {
    Sound(staged) && forall m :: m in staged ==>
      m.bucket % MINUTE == 0 && |LadderOf(ladders, m)| >= 2 && InRange(ParentOf(m, LadderOf(ladders, m)[1]))
  }

  /** A parent's child is a staged minute, or a persisted parent of the next finer tier. */
  ghost predicate ChildSound(ladders: Ladders, st: CoarseState, p: ParentKey, c: HotKey, b: Summary)
    requires Shaped(ladders, p)
  {
    && ParentOf(c, p.interval) == p && c.bucket % Finer(ladders, p) == 0
    && if TierOf(LadderOf(ladders, p.cell), p.interval) == 1
       then c in st.staged && b == st.staged[c]
       else ParentKey(Finer(ladders, p), c) in st.rows && b == st.rows[ParentKey(Finer(ladders, p), c)]
  }

  ghost predicate ParentSound(ladders: Ladders, st: CoarseState, p: ParentKey)
    requires p in st.parents
  {
    var l := LadderOf(ladders, p.cell);
    && Shaped(ladders, p) && InRange(p) && p !in st.rows
    && st.parents[p].higher == l[TierOf(l, p.interval) + 1..]
    && st.parents[p].children != map[]
    && forall c :: c in st.parents[p].children ==> ChildSound(ladders, st, p, c, st.parents[p].children[c])
  }

  /** A persisted parent is closed for good and holds the flat merge of its staged minutes. */
  ghost predicate RowSound(ladders: Ladders, st: CoarseState, p: ParentKey, clock: int)
    requires p in st.rows
  {
    && Shaped(ladders, p) && InRange(p) && Due(p, clock)
    && st.rows[p] == Content(st.staged, p.cell, p.interval) && st.rows[p].count > 0
  }

  /** Nothing finer inside a persisted parent is still missing. */
  ghost predicate FinerFirst(ladders: Ladders, st: CoarseState, p: ParentKey) {
    forall q :: Shaped(ladders, q) && Inside(q, p) && Content(st.staged, q.cell, q.interval).count > 0 ==> q in st.rows
  }

  predicate Holds(st: CoarseState, p: ParentKey, c: HotKey) {
    p in st.rows || (p in st.parents && c in st.parents[p].children)
  }

  ghost predicate MinuteFed(ladders: Ladders, st: CoarseState, m: HotKey) {
    |LadderOf(ladders, m)| >= 2 ==> Holds(st, ParentOf(m, LadderOf(ladders, m)[1]), m)
  }

  ghost function Above(ladders: Ladders, q: ParentKey): seq<int> {
    var l := LadderOf(ladders, q.cell);
    if TierOf(l, q.interval) < |l| then l[TierOf(l, q.interval) + 1..] else []
  }

  /** A persisted parent has reached the parent above it, if there is one. */
  ghost predicate RowFed(ladders: Ladders, st: CoarseState, q: ParentKey) {
    Above(ladders, q) != [] ==> Holds(st, ParentOf(q.cell, Above(ladders, q)[0]), q.cell)
  }

  /** Persisted just now; the next tier has not been given the bucket yet. */
  ghost predicate Waiting(ladders: Ladders, st: CoarseState, q: ParentKey) {
    q in st.rows && (Above(ladders, q) != [] ==> ParentOf(q.cell, Above(ladders, q)[0]) !in st.rows)
  }

  /** Every parent is persisted once, and after the finer ones inside it. */
  ghost predicate LogSound(st: CoarseState) {
    && (forall p :: p in st.rows <==> p in st.log)
    && (forall i, j :: 0 <= i < j < |st.log| ==> st.log[i] != st.log[j] && !Inside(st.log[j], st.log[i]))
  }

  ghost predicate Inv(ladders: Ladders, st: CoarseState, clock: int, waiting: set<ParentKey>) {
    && StagedSound(ladders, st.staged)
    && (forall p :: p in st.parents ==> ParentSound(ladders, st, p))
    && (forall p :: p in st.rows ==> RowSound(ladders, st, p, clock) && FinerFirst(ladders, st, p))
    && (forall m :: m in st.staged ==> MinuteFed(ladders, st, m))
    && (forall q :: q in st.rows && q !in waiting ==> RowFed(ladders, st, q))
    && (forall q :: q in waiting ==> Waiting(ladders, st, q))
    && LogSound(st)
  }

  lemma NothingInv(ladders: Ladders, clock: int)
    ensures Inv(ladders, NOTHING, clock, {})
  {
  }

  // ---- geometry ------------------------------------------------------------------------------------------

  lemma ShapedFacts(ladders: Ladders, p: ParentKey)
    requires ValidLadders(ladders) && Shaped(ladders, p)
    ensures 0 < Finer(ladders, p) < p.interval <= NORMALIZE_LIMIT
    ensures p.interval % Finer(ladders, p) == 0 && p.interval % MINUTE == 0 && Finer(ladders, p) % MINUTE == 0
    ensures TierOf(LadderOf(ladders, p.cell), p.interval) == 1 <==> Finer(ladders, p) == MINUTE
  {
    var l := LadderOf(ladders, p.cell);
    assert ValidLadder(ladders(p.cell.series.metricName));
    var j := TierOf(l, p.interval);
    assert l[j - 1] < l[j] && l[0] == MINUTE;
  }

  /** The finer parent at one slot of a parent above the second tier. */
  lemma FinerShaped(ladders: Ladders, p: ParentKey, b: int)
    requires ValidLadders(ladders) && Shaped(ladders, p) && TierOf(LadderOf(ladders, p.cell), p.interval) > 1
    requires p.cell.bucket <= b < p.cell.bucket + p.interval && (b - p.cell.bucket) % Finer(ladders, p) == 0
    ensures var q := ParentKey(Finer(ladders, p), At(p.cell, b));
            && Shaped(ladders, q) && Inside(q, p) && Above(ladders, q) != [] && Above(ladders, q)[0] == p.interval
  {
    hide TierOf;
    var l := LadderOf(ladders, p.cell);
    assert ValidLadder(ladders(p.cell.series.metricName));
    var j := TierOf(l, p.interval);
    TierFound(l, j - 1);
    ShapedFacts(ladders, p);
    SlotAligned(p.cell.bucket, b, p.interval, Finer(ladders, p));
  }

  /** A slot of a parent lies inside it and on the finer grid. */
  lemma SlotAligned(start: int, b: int, interval: int, step: int)
    requires step > 0 && interval > 0 && interval % step == 0 && start % interval == 0
    requires start <= b < start + interval && (b - start) % step == 0
    ensures b % step == 0 && BucketStart(b, interval) == start
    ensures b + step <= start + interval
  {
    DividesTransitive(start, interval, step);
    var q, r := (b - start) / step, start / step;
    assert b - start == q * step && start == r * step;
    assert (q + r) * step == b;
    MultipleMod(q + r, step);
    MultipleUnique(BucketStart(b, interval), start, interval);
    DividesTransitive(start + interval, interval, step) by { DividesTransitive(start, interval, step); }
    if b + step > start + interval {
      MultipleUnique(b, start + interval, step);
    }
  }

  /** A minute inside a finer parent is inside the coarser one, and the finer one ends first. */
  lemma MinuteInside(m: HotKey, fine: int, coarse: int)
    requires 0 < fine && 0 < coarse && coarse % fine == 0
    ensures ParentOf(ParentOf(m, fine).cell, coarse) == ParentOf(m, coarse)
    ensures ParentOf(m, fine).cell.bucket + fine <= ParentOf(m, coarse).cell.bucket + coarse
  {
    BucketNested(m.bucket, fine, coarse);
  }

  lemma InsideEndsFirst(q: ParentKey, p: ParentKey, now: int)
    requires Inside(q, p) && q.interval > 0 && p.interval % q.interval == 0 && q.cell.bucket % q.interval == 0
    requires Due(p, now)
    ensures Due(q, now)
  {
    BucketNested(q.cell.bucket, q.interval, p.interval);
    MultipleUnique(BucketStart(q.cell.bucket, q.interval), q.cell.bucket, q.interval);
  }

  lemma LadderStrict(l: seq<int>, i: int, j: int)
    requires ValidLadder(l) && 0 <= i < |l| && 0 <= j < |l|
    ensures i < j ==> l[i] < l[j]
  {
  }

  /** Two tiers of one ladder divide each other. */
  lemma TiersDivide(ladders: Ladders, q: ParentKey, p: ParentKey)
    requires ValidLadders(ladders) && Shaped(ladders, q) && Shaped(ladders, p) && Inside(q, p)
    ensures p.interval % q.interval == 0
  {
    var l := LadderOf(ladders, p.cell);
    assert ValidLadder(ladders(p.cell.series.metricName));
    var i, j := TierOf(l, q.interval), TierOf(l, p.interval);
    assert l[i] == q.interval && l[j] == p.interval;
    LadderStrict(l, j, i);
  }

  // ---- the value of a parent about to close ------------------------------------------------------------------

  /** No due parent of a smaller interval is open: the situation in which a tier is sealed. */
  ghost predicate SmallestDue(st: CoarseState, now: int, interval: int) {
    forall p :: p in st.parents && Due(p, now) ==> p.interval >= interval
  }

  /** What one slot of a due parent holds when nothing finer inside it is open. */
  lemma {:induction false} SlotSettled(ladders: Ladders, st: CoarseState, clock: int, q: ParentKey, now: int, interval: int, b: int)
    requires ValidLadders(ladders) && Inv(ladders, st, clock, {}) && SmallestDue(st, now, interval)
    requires Shaped(ladders, q) && Due(q, now) && q.interval <= interval && q !in st.rows
    requires q.cell.bucket <= b < q.cell.bucket + q.interval && (b - q.cell.bucket) % Finer(ladders, q) == 0
    ensures q !in st.parents ==> Content(st.staged, At(q.cell, b), Finer(ladders, q)) == EMPTY
    ensures q in st.parents ==>
              BucketOf(st.parents[q].children, At(q.cell, b)) == Content(st.staged, At(q.cell, b), Finer(ladders, q))
    decreases q.interval, 0
  {
    hide LogSound, FinerFirst, Slots, Due, TierOf;
    var f, m := Finer(ladders, q), At(q.cell, b);
    ShapedFacts(ladders, q);
    SlotAligned(q.cell.bucket, b, q.interval, f);
    if f == MINUTE {
      ContentOfMinute(st.staged, m);
      assert m in st.staged ==> MinuteFed(ladders, st, m);
    } else {
      FinerShaped(ladders, q, b);
      var r := ParentKey(f, m);
      if r in st.rows {
        assert RowFed(ladders, st, r);
        assert RowSound(ladders, st, r, clock);
      } else {
        InsideEndsFirst(r, q, now);
        AbsentIsEmpty(ladders, st, clock, r, now, interval);
      }
    }
  }

  /** A due parent that is neither open nor persisted has no staged minutes at all. */
  lemma {:induction false} AbsentIsEmpty(ladders: Ladders, st: CoarseState, clock: int, q: ParentKey, now: int, interval: int)
    requires ValidLadders(ladders) && Inv(ladders, st, clock, {}) && SmallestDue(st, now, interval)
    requires Shaped(ladders, q) && Due(q, now) && q.interval < interval && q !in st.rows
    ensures Content(st.staged, q.cell, q.interval) == EMPTY
    decreases q.interval, 1
  {
    hide LogSound, FinerFirst, RowSound, ParentSound, Shaped, Slots;
    var f := Finer(ladders, q);
    ShapedFacts(ladders, q);
    forall b | q.cell.bucket <= b < q.cell.bucket + q.interval && (b - q.cell.bucket) % f == 0
      ensures Content(st.staged, At(q.cell, b), f) == EMPTY
    {
      SlotSettled(ladders, st, clock, q, now, interval, b);
    }
    ContentOfSlots(map[], st.staged, q.cell, q.interval, f);
    SlotsOfNothing(map[], q.cell, q.cell.bucket, q.cell.bucket + q.interval, f);
  }

  lemma StagedIsSound(ladders: Ladders, staged: Buckets)
    requires StagedSound(ladders, staged)
    ensures Sound(staged)
  {
  }

  /** The children of a parent being sealed merge to exactly its staged minutes. */
  lemma ClosingContent(ladders: Ladders, st: CoarseState, clock: int, p: ParentKey, now: int)
    requires ValidLadders(ladders) && Inv(ladders, st, clock, {}) && SmallestDue(st, now, p.interval)
    requires p in st.parents && Due(p, now)
    ensures Shaped(ladders, p) && Finer(ladders, p) > 0
    ensures Slots(st.parents[p].children, p.cell, p.cell.bucket, p.cell.bucket + p.interval, Finer(ladders, p))
            == Content(st.staged, p.cell, p.interval)
  {
    hide StagedSound, MinuteFed, RowFed, Waiting, LogSound, FinerFirst, RowSound, ChildSound, Shaped, Slots, Content;
    assert ParentSound(ladders, st, p);
    StagedIsSound(ladders, st.staged);
    var f := Finer(ladders, p);
    ShapedFacts(ladders, p);
    forall b | p.cell.bucket <= b < p.cell.bucket + p.interval && (b - p.cell.bucket) % f == 0
      ensures BucketOf(st.parents[p].children, At(p.cell, b)) == Content(st.staged, At(p.cell, b), f)
    {
      SlotSettled(ladders, st, clock, p, now, p.interval, b);
    }
    ContentOfSlots(st.parents[p].children, st.staged, p.cell, p.interval, f);
  }
}
