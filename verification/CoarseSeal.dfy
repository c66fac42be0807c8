/** Sealing every due parent of the smallest interval, and feeding the next tier. */
module CoarseSeal {
  import opened Clock
  import opened Rollup
  import opened Window
  import opened CoarseSpec
  import opened CoarseInvariant
  import opened CoarseSteps

  // ---- sealing -----------------------------------------------------------------------------------

  /** The parents one round takes: every due one of the given interval. */
  function Closing(parents: Parents, interval: int, now: int): set<ParentKey> {
    set p | p in parents && p.interval == interval && Due(p, now)
  }

  ghost function Sealed(st: CoarseState, closing: set<ParentKey>, order: seq<ParentKey>): CoarseState {
    st.(parents := st.parents - closing,
        rows := map p | p in st.rows.Keys + closing ::
                  if p in closing then Content(st.staged, p.cell, p.interval) else st.rows[p],
        log := st.log + order)
  }

  ghost predicate Lists(order: seq<ParentKey>, keys: set<ParentKey>) {
    && (forall i :: 0 <= i < |order| ==> order[i] in keys)
    && (forall p :: p in keys ==> p in order)
    && (forall i, j :: 0 <= i < j < |order| ==> order[i] != order[j])
  }

  ghost predicate Round(ladders: Ladders, st: CoarseState, clock: int, now: int, interval: int) {
    ValidLadders(ladders) && Inv(ladders, st, clock, {}) && clock <= now && SmallestDue(st, now, interval)
  }

  lemma {:induction false} SlotsPositive(m: Buckets, cell: HotKey, lo: int, hi: int, step: int, b: int)
    requires step > 0 && Sound(m) && lo <= b < hi && (b - lo) % step == 0 && (hi - lo) % step == 0
    requires At(cell, b) in m
    ensures Slots(m, cell, lo, hi, step).count > 0
    decreases hi - lo
  {
    hide Merge;
    StepDown(hi - lo, step);
    SlotsWellFormed(m, cell, lo, hi - step, step);
    MergeWellFormed(Slots(m, cell, lo, hi - step, step), BucketOf(m, At(cell, hi - step)));
    if b < hi - step {
      SlotsPositive(m, cell, lo, hi - step, step, b);
    } else {
      assert lo + (b - lo) == b;
      LastSlot(lo, b, hi, step);
    }
  }

  lemma LastSlot(lo: int, b: int, hi: int, step: int)
    requires step > 0 && lo <= hi - step <= b < hi && (b - lo) % step == 0 && (hi - lo) % step == 0
    ensures b == hi - step
  {
    StepDown(hi - lo, step);
    MultipleUnique(b - lo, hi - step - lo, step);
  }

  lemma ChildrenSound(ladders: Ladders, st: CoarseState, clock: int, p: ParentKey)
    requires Inv(ladders, st, clock, {}) && p in st.parents
    ensures Sound(st.parents[p].children)
  {
    hide LogSound, FinerFirst, MinuteFed, RowFed, Waiting, Content, Shaped;
    forall c | c in st.parents[p].children
      ensures WellFormed(st.parents[p].children[c]) && st.parents[p].children[c].count > 0
    {
      assert ParentSound(ladders, st, p);
      assert ChildSound(ladders, st, p, c, st.parents[p].children[c]);
      var r := ParentKey(Finer(ladders, p), c);
      assert r in st.rows ==> RowSound(ladders, st, r, clock);
      SlotsWellFormed(st.staged, c, c.bucket, c.bucket + r.interval, MINUTE);
      RowWellFormed(st.staged, r);
    }
  }

  lemma RowWellFormed(staged: Buckets, r: ParentKey)
    requires Sound(staged)
    ensures WellFormed(Content(staged, r.cell, r.interval))
  {
    SlotsWellFormed(staged, r.cell, r.cell.bucket, r.cell.bucket + r.interval, MINUTE);
  }

  /** A child of a parent is one of its slots. */
  lemma ChildIsSlot(ladders: Ladders, st: CoarseState, p: ParentKey, c: HotKey)
    requires ValidLadders(ladders) && p in st.parents && ParentSound(ladders, st, p) && c in st.parents[p].children
    ensures c == At(p.cell, c.bucket) && p.cell.bucket <= c.bucket < p.cell.bucket + p.interval
    ensures (c.bucket - p.cell.bucket) % Finer(ladders, p) == 0 && p.interval % Finer(ladders, p) == 0
  {
    assert ChildSound(ladders, st, p, c, st.parents[p].children[c]);
    ShapedFacts(ladders, p);
    var f := Finer(ladders, p);
    DividesTransitive(p.cell.bucket, p.interval, f);
    DifferenceDivides(c.bucket, p.cell.bucket, f);
  }

  /** An open parent about to be sealed holds at least one sample. */
  lemma ClosingPositive(ladders: Ladders, st: CoarseState, clock: int, now: int, p: ParentKey)
    requires Round(ladders, st, clock, now, p.interval) && p in st.parents && Due(p, now)
    ensures Content(st.staged, p.cell, p.interval).count > 0
  {
    hide LogSound, FinerFirst, MinuteFed, RowFed, Waiting, Content, Shaped, ChildSound, RowSound, SmallestDue, StagedSound;
    ClosingContent(ladders, st, clock, p, now);
    ChildrenSound(ladders, st, clock, p);
    assert ParentSound(ladders, st, p);
    var c :| c in st.parents[p].children;
    ChildIsSlot(ladders, st, p, c);
    SlotsPositive(st.parents[p].children, p.cell, p.cell.bucket, p.cell.bucket + p.interval, Finer(ladders, p), c.bucket);
  }

  /** Everything finer inside a parent being sealed has been sealed already. */
  lemma ClosingFinerFirst(ladders: Ladders, st: CoarseState, clock: int, now: int, p: ParentKey)
    requires Round(ladders, st, clock, now, p.interval) && Shaped(ladders, p) && Due(p, now)
    ensures FinerFirst(ladders, st, p)
  {
    hide Inv, Content, Shaped, SmallestDue;
    forall q | Shaped(ladders, q) && Inside(q, p) && Content(st.staged, q.cell, q.interval).count > 0
      ensures q in st.rows
    {
      TiersDivide(ladders, q, p);
      ShapedDivides(ladders, q);
      InsideEndsFirst(q, p, now);
      if q !in st.rows {
        AbsentIsEmpty(ladders, st, clock, q, now, p.interval);
      }
    }
  }

  lemma FinerFirstGrows(ladders: Ladders, st: CoarseState, after: CoarseState, p: ParentKey)
    requires FinerFirst(ladders, st, p) && after.staged == st.staged && st.rows.Keys <= after.rows.Keys
    ensures FinerFirst(ladders, after, p)
  {
  }

  lemma SealRows(ladders: Ladders, st: CoarseState, clock: int, now: int, interval: int, order: seq<ParentKey>)
    requires Round(ladders, st, clock, now, interval)
    ensures var after := Sealed(st, Closing(st.parents, interval, now), order);
            forall p :: p in after.rows ==> RowSound(ladders, after, p, now) && FinerFirst(ladders, after, p)
  {
    hide LogSound, FinerFirst, MinuteFed, RowFed, Waiting, Content, Shaped, ChildSound, SmallestDue, StagedSound;
    var closing := Closing(st.parents, interval, now);
    var after := Sealed(st, closing, order);
    forall p | p in after.rows ensures RowSound(ladders, after, p, now) && FinerFirst(ladders, after, p) {
      if p in closing {
        assert ParentSound(ladders, st, p);
        ClosingPositive(ladders, st, clock, now, p);
        ClosingFinerFirst(ladders, st, clock, now, p);
      } else {
        assert RowSound(ladders, st, p, clock);
      }
      FinerFirstGrows(ladders, st, after, p);
    }
  }

  lemma ParentStaysSound(ladders: Ladders, st: CoarseState, after: CoarseState, p: ParentKey)
    requires p in st.parents && p in after.parents && after.parents[p] == st.parents[p] && p !in after.rows
    requires ParentSound(ladders, st, p) && after.staged == st.staged
    requires forall r :: r in st.rows ==> r in after.rows && after.rows[r] == st.rows[r]
    ensures ParentSound(ladders, after, p)
  {
    hide Shaped;
  }

  lemma SealParents(ladders: Ladders, st: CoarseState, clock: int, now: int, interval: int, order: seq<ParentKey>)
    requires Round(ladders, st, clock, now, interval)
    ensures var after := Sealed(st, Closing(st.parents, interval, now), order);
            forall p :: p in after.parents ==> ParentSound(ladders, after, p)
  {
    hide LogSound, FinerFirst, MinuteFed, RowFed, Waiting, Content, Shaped, ChildSound, SmallestDue, StagedSound, RowSound;
    var closing := Closing(st.parents, interval, now);
    var after := Sealed(st, closing, order);
    forall r | r in st.rows ensures r in after.rows && after.rows[r] == st.rows[r] {
      assert r in closing ==> ParentSound(ladders, st, r);
    }
    forall p | p in after.parents ensures ParentSound(ladders, after, p) {
      assert ParentSound(ladders, st, p);
      ParentStaysSound(ladders, st, after, p);
    }
  }

  /** What was held before stays held. */
  ghost predicate HoldsMore(st: CoarseState, after: CoarseState) {
    forall p, c :: Holds(st, p, c) ==> Holds(after, p, c)
  }

  lemma FedMore(ladders: Ladders, st: CoarseState, after: CoarseState, waiting: set<ParentKey>, clock: int)
    requires Inv(ladders, st, clock, waiting) && HoldsMore(st, after)
    ensures forall m :: m in st.staged ==> MinuteFed(ladders, after, m)
    ensures forall q :: q in st.rows && q !in waiting ==> RowFed(ladders, after, q)
  {
    hide LogSound, FinerFirst, ParentSound, RowSound, Waiting, StagedSound, Holds, Above;
  }

  /** A parent sealed in this round has not been followed by the parent above it. */
  lemma SealWaiting(ladders: Ladders, st: CoarseState, clock: int, now: int, q: ParentKey, order: seq<ParentKey>)
    requires Round(ladders, st, clock, now, q.interval) && q in st.parents && Due(q, now)
    ensures Waiting(ladders, Sealed(st, Closing(st.parents, q.interval, now), order), q)
  {
    hide LogSound, MinuteFed, RowFed, Content, SmallestDue, StagedSound, ChildSound, TierOf;
    assert ParentSound(ladders, st, q);
    ClosingPositive(ladders, st, clock, now, q);
    if Above(ladders, q) != [] {
      var next := ParentOf(q.cell, Above(ladders, q)[0]);
      AboveInside(ladders, q);
      assert next in st.rows ==> FinerFirst(ladders, st, next);
    }
  }

  lemma AboveInside(ladders: Ladders, q: ParentKey)
    requires ValidLadders(ladders) && Shaped(ladders, q) && Above(ladders, q) != []
    ensures var l, next := LadderOf(ladders, q.cell), ParentOf(q.cell, Above(ladders, q)[0]);
            && Inside(q, next) && next.interval % q.interval == 0
            && Shaped(ladders, next) && TierOf(l, next.interval) == TierOf(l, q.interval) + 1
            && Finer(ladders, next) == q.interval && (InRange(q) ==> InRange(next))
            && Above(ladders, q)[1..] == l[TierOf(l, next.interval) + 1..]
  {
    hide TierOf;
    var l := LadderOf(ladders, q.cell);
    assert ValidLadder(ladders(q.cell.series.metricName));
    var j := TierOf(l, q.interval);
    TierFound(l, j + 1);
    var up := l[j + 1];
    BucketMonotone(-up, if -up <= q.cell.bucket then q.cell.bucket else -up, up);
    MultipleMod(-1, up);
    MultipleUnique(BucketStart(-up, up), -up, up);
  }

  /** What is being sealed lies inside nothing that has been persisted. */
  lemma SealedLater(ladders: Ladders, st: CoarseState, clock: int, now: int, p: ParentKey, q: ParentKey)
    requires Round(ladders, st, clock, now, q.interval) && q in st.parents && Due(q, now) && p in st.rows
    ensures p != q && !Inside(q, p)
  {
    hide LogSound, MinuteFed, RowFed, Content, SmallestDue, StagedSound, ChildSound, TierOf;
    assert ParentSound(ladders, st, q);
    ClosingPositive(ladders, st, clock, now, q);
    assert FinerFirst(ladders, st, p);
  }

  lemma SealLog(ladders: Ladders, st: CoarseState, clock: int, now: int, interval: int, order: seq<ParentKey>)
    requires Round(ladders, st, clock, now, interval) && Lists(order, Closing(st.parents, interval, now))
    ensures LogSound(Sealed(st, Closing(st.parents, interval, now), order))
  {
    hide Round, Content, Due;
    assert LogSound(st) by { RoundLog(ladders, st, clock, now, interval); }
    var log := st.log + order;
    forall i, j | 0 <= i < j < |log| ensures log[i] != log[j] && !Inside(log[j], log[i]) {
      if i < |st.log| <= j {
        assert log[j] == order[j - |st.log|] && log[i] in st.rows;
        SealedLater(ladders, st, clock, now, log[i], log[j]);
      } else if |st.log| <= i {
        assert log[i] == order[i - |st.log|] && log[j] == order[j - |st.log|];
      }
    }
  }

  lemma RoundLog(ladders: Ladders, st: CoarseState, clock: int, now: int, interval: int)
    requires Round(ladders, st, clock, now, interval)
    ensures LogSound(st)
  {
    hide LogSound;
  }

  lemma SealHoldsMore(st: CoarseState, closing: set<ParentKey>, order: seq<ParentKey>)
    ensures HoldsMore(st, Sealed(st, closing, order))
  {
    hide Content;
  }

  /** Sealing a tier keeps the invariant; what was sealed waits to be fed upwards. */
  lemma SealKeepsInv(ladders: Ladders, st: CoarseState, clock: int, now: int, interval: int, order: seq<ParentKey>)
    requires Round(ladders, st, clock, now, interval) && Lists(order, Closing(st.parents, interval, now))
    ensures var closing := Closing(st.parents, interval, now);
            Inv(ladders, Sealed(st, closing, order), now, closing)
  {
    hide ParentSound, RowSound, FinerFirst, MinuteFed, RowFed, Waiting, LogSound, SmallestDue, HoldsMore, StagedSound, Content;
    var closing := Closing(st.parents, interval, now);
    SealRows(ladders, st, clock, now, interval, order);
    SealParents(ladders, st, clock, now, interval, order);
    SealLog(ladders, st, clock, now, interval, order);
    SealHoldsMore(st, closing, order);
    FedMore(ladders, st, Sealed(st, closing, order), {}, clock);
    forall q | q in closing ensures Waiting(ladders, Sealed(st, closing, order), q) {
      SealWaiting(ladders, st, clock, now, q, order);
    }
  }

  // ---- feeding the tier above ---------------------------------------------------------------------

  function Fed(ladders: Ladders, st: CoarseState, q: ParentKey, above: seq<int>): CoarseState
    requires q in st.rows && above != []
  {
    st.(parents := StageChild(st.parents, above[0], above[1..], q.cell, st.rows[q]))
  }

  /** Feeding one sealed parent upwards keeps the invariant with one parent less waiting. */
  lemma FeedKeepsInv(ladders: Ladders, st: CoarseState, clock: int, waiting: set<ParentKey>, q: ParentKey)
    requires ValidLadders(ladders) && Inv(ladders, st, clock, waiting) && q in waiting && q in st.rows
    ensures Above(ladders, q) == [] ==> Inv(ladders, st, clock, waiting - {q})
    ensures Above(ladders, q) != [] ==> Inv(ladders, Fed(ladders, st, q, Above(ladders, q)), clock, waiting - {q})
  {
    hide ParentSound, RowSound, FinerFirst, MinuteFed, Waiting, LogSound, HoldsMore, StagedSound, Content, StageChild, Above;
    if Above(ladders, q) != [] {
      var after := Fed(ladders, st, q, Above(ladders, q));
      FeedParents(ladders, st, clock, waiting, q);
      FedMore(ladders, st, after, waiting, clock);
      FeedRows(ladders, st, after, clock, waiting);
    }
  }

  lemma FeedRows(ladders: Ladders, st: CoarseState, after: CoarseState, clock: int, waiting: set<ParentKey>)
    requires Inv(ladders, st, clock, waiting) && after.rows == st.rows && after.staged == st.staged && after.log == st.log
    ensures forall p :: p in after.rows ==> RowSound(ladders, after, p, clock) && FinerFirst(ladders, after, p)
    ensures forall p :: p in waiting ==> Waiting(ladders, after, p)
    ensures LogSound(after)
  {
    hide Content, Shaped, ParentSound, MinuteFed, RowFed, StagedSound;
    forall p | p in waiting ensures Waiting(ladders, after, p) {
      assert Waiting(ladders, st, p);
    }
  }

  lemma FeedParents(ladders: Ladders, st: CoarseState, clock: int, waiting: set<ParentKey>, q: ParentKey)
    requires ValidLadders(ladders) && Inv(ladders, st, clock, waiting) && q in waiting && q in st.rows
    requires Above(ladders, q) != []
    ensures var after := Fed(ladders, st, q, Above(ladders, q));
            && (forall p :: p in after.parents ==> ParentSound(ladders, after, p))
            && HoldsMore(st, after) && RowFed(ladders, after, q)
  {
    hide FinerFirst, MinuteFed, LogSound, StagedSound, Content, StageChild, Shaped, ChildSound, Above, ParentOf;
    var above := Above(ladders, q);
    var after, own := Fed(ladders, st, q, above), ParentOf(q.cell, above[0]);
    assert RowSound(ladders, st, q, clock) && Waiting(ladders, st, q);
    assert NoEmptyParent(st.parents) by {
      forall p | p in st.parents ensures st.parents[p].children != map[] { assert ParentSound(ladders, st, p); }
    }
    StageChildEffect(st.parents, above[0], above[1..], q.cell, st.rows[q]);
    forall p | p in after.parents ensures ParentSound(ladders, after, p) {
      if p == own {
        FedParentSound(ladders, st, after, q, clock);
      } else {
        assert ParentSound(ladders, st, p);
        ParentStaysSound(ladders, st, after, p);
      }
    }
    assert q.cell in ChildrenOf(after.parents, own);
    forall p, c | Holds(st, p, c) ensures Holds(after, p, c) {
      assert p == own ==> c in ChildrenOf(st.parents, own) || p in st.rows;
    }
  }

  lemma FedParentSound(ladders: Ladders, st: CoarseState, after: CoarseState, q: ParentKey, clock: int)
    requires ValidLadders(ladders) && Above(ladders, q) != [] && q in st.rows && RowSound(ladders, st, q, clock)
    requires after.rows == st.rows && after.staged == st.staged
    requires var own := ParentOf(q.cell, Above(ladders, q)[0]);
             && own !in st.rows && (own in st.parents ==> ParentSound(ladders, st, own))
             && own in after.parents
             && ChildrenOf(after.parents, own) == ChildrenOf(st.parents, own)[q.cell := st.rows[q]]
             && after.parents[own].higher == if own in st.parents then st.parents[own].higher else Above(ladders, q)[1..]
    ensures ParentSound(ladders, after, ParentOf(q.cell, Above(ladders, q)[0]))
  {
    hide Content, TierOf, Above;
    AboveInside(ladders, q);
    assert q.cell in ChildrenOf(after.parents, ParentOf(q.cell, Above(ladders, q)[0]));
  }
}
