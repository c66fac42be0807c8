/** Staging a minute, sealing a tier and feeding the tier above keep the invariant. */
module CoarseSteps {
  import opened Clock
  import opened Rollup
  import opened Window
  import opened CoarseSpec
  import opened CoarseInvariant

  type Parents = map<ParentKey, Parent>

  /** Puts one child under its parent; an empty one removes the stale child instead. */
  function StageChild(parents: Parents, interval: int, higher: seq<int>, c: HotKey, b: Summary): Parents {
    var p := ParentOf(c, interval);
    if b.count == 0 then
      if p !in parents then parents
      else
        var left := parents[p].children - {c};
        if left == map[] then parents - {p} else parents[p := parents[p].(children := left)]
    else if p in parents then parents[p := parents[p].(children := parents[p].children[c := b])]
    else parents[p := Parent(higher, map[c := b])]
  }

  function ChildrenOf(parents: Parents, p: ParentKey): Buckets {
    if p in parents then parents[p].children else map[]
  }

  predicate NoEmptyParent(parents: Parents) {
    forall p :: p in parents ==> parents[p].children != map[]
  }

  /** The two tables agree on every parent but `own`. */
  ghost predicate SameBut(parents: Parents, after: Parents, own: ParentKey) {
    forall r :: r != own ==> (r in after <==> r in parents) && (r in parents ==> after[r] == parents[r])
  }

  /** Staging touches one child of one parent and nothing else. */
  lemma StageChildEffect(parents: Parents, interval: int, higher: seq<int>, c: HotKey, b: Summary)
    requires NoEmptyParent(parents)
    ensures var after, p := StageChild(parents, interval, higher, c, b), ParentOf(c, interval);
            && NoEmptyParent(after)
            && SameBut(parents, after, p)
            && ChildrenOf(after, p) == (if b.count == 0 then ChildrenOf(parents, p) - {c} else ChildrenOf(parents, p)[c := b])
            && (p in after ==> after[p].higher == if p in parents then parents[p].higher else higher)
            && (p in after <==> ChildrenOf(after, p) != map[])
  {
    var p := ParentOf(c, interval);
    assert c in ChildrenOf(parents, p)[c := b];
  }

  // ---- staging a minute -------------------------------------------------------------------------------

  function StageMinute(ladders: Ladders, st: CoarseState, m: HotKey, b: Summary): CoarseState
    requires |LadderOf(ladders, m)| >= 2
  {
    var l := LadderOf(ladders, m);
    st.(parents := StageChild(st.parents, l[1], l[2..], m, b),
        staged := if b.count == 0 then st.staged - {m} else st.staged[m := b])
  }

  /** The minute may still be staged: its parent was not due at `clock`. */
  ghost predicate Accepts(ladders: Ladders, m: HotKey, b: Summary, clock: int) {
    && GRACE <= clock && m.bucket % MINUTE == 0 && WellFormed(b)
    && |LadderOf(ladders, m)| >= 2 && !Due(ParentOf(m, LadderOf(ladders, m)[1]), clock)
  }

  /** What staging one minute does to its own parent. */
  ghost predicate OwnStaged(st: CoarseState, after: CoarseState, own: ParentKey, m: HotKey, b: Summary, higher: seq<int>) {
    && ChildrenOf(after.parents, own) ==
       (if b.count == 0 then ChildrenOf(st.parents, own) - {m} else ChildrenOf(st.parents, own)[m := b])
    && (own in after.parents ==>
          after.parents[own].higher == if own in st.parents then st.parents[own].higher else higher)
    && (own in after.parents <==> ChildrenOf(after.parents, own) != map[])
  }

  ghost predicate OthersStaged(st: CoarseState, after: CoarseState, own: ParentKey, m: HotKey, b: Summary) {
    && SameBut(st.parents, after.parents, own) && after.rows == st.rows && after.log == st.log
    && (m in after.staged <==> b.count != 0) && (b.count != 0 ==> after.staged[m] == b)
    && forall k :: k != m ==> (k in after.staged <==> k in st.staged) && (k in st.staged ==> after.staged[k] == st.staged[k])
  }

  lemma StageMinuteEffect(ladders: Ladders, st: CoarseState, clock: int, m: HotKey, b: Summary)
    requires Inv(ladders, st, clock, {}) && Accepts(ladders, m, b, clock)
    ensures var l, after := LadderOf(ladders, m), StageMinute(ladders, st, m, b);
            OwnStaged(st, after, ParentOf(m, l[1]), m, b, l[2..]) && OthersStaged(st, after, ParentOf(m, l[1]), m, b)
  {
    hide Inv, StageChild, NoEmptyParent, Due;
    ParentsNonEmpty(ladders, st, clock);
    StageChildEffect(st.parents, LadderOf(ladders, m)[1], LadderOf(ladders, m)[2..], m, b);
  }

  /** A minute outside a cell does not change what the cell holds. */
  lemma ContentElsewhere(staged: Buckets, after: Buckets, m: HotKey, p: ParentKey)
    requires p.interval > 0 && p.interval % MINUTE == 0 && p.cell.bucket % p.interval == 0
    requires ParentOf(m, p.interval) != p && forall k :: k != m ==> BucketOf(after, k) == BucketOf(staged, k)
    ensures Content(after, p.cell, p.interval) == Content(staged, p.cell, p.interval)
  {
    forall b | p.cell.bucket <= b < p.cell.bucket + p.interval && (b - p.cell.bucket) % MINUTE == 0
      ensures At(p.cell, b) != m
    {
      MultipleUnique(BucketStart(b, p.interval), p.cell.bucket, p.interval);
    }
    SlotsCongruent(after, staged, p.cell, p.cell.bucket, p.cell.bucket + p.interval, MINUTE);
  }

  /** A parent that is already persisted never contains a minute that is still accepted. */
  lemma SealedOutside(ladders: Ladders, st: CoarseState, clock: int, m: HotKey, p: ParentKey)
    requires ValidLadders(ladders) && Shaped(ladders, p) && Due(p, clock)
    requires |LadderOf(ladders, m)| >= 2 && !Due(ParentOf(m, LadderOf(ladders, m)[1]), clock)
    ensures ParentOf(m, p.interval) != p
  {
    var l := LadderOf(ladders, m);
    assert ValidLadder(ladders(m.series.metricName));
    if ParentOf(m, p.interval) == p {
      var j := TierOf(l, p.interval);
      assert l[1] == l[j] || l[1] < l[j];
      assert l[j] % l[1] == 0;
      MinuteInside(m, l[1], l[j]);
    }
  }

  lemma LaterInv(ladders: Ladders, st: CoarseState, clock: int, now: int, waiting: set<ParentKey>)
    requires Inv(ladders, st, clock, waiting) && clock <= now
    ensures Inv(ladders, st, now, waiting)
  {
    hide StagedSound, ParentSound, FinerFirst, LogSound, MinuteFed, RowFed, Waiting, Content, Shaped;
  }

  lemma StageRows(ladders: Ladders, st: CoarseState, clock: int, m: HotKey, b: Summary)
    requires ValidLadders(ladders) && Inv(ladders, st, clock, {}) && Accepts(ladders, m, b, clock)
    ensures var after := StageMinute(ladders, st, m, b);
            forall p :: p in after.rows ==> RowSound(ladders, after, p, clock) && FinerFirst(ladders, after, p)
  {
    hide StagedSound, ParentSound, LogSound, MinuteFed, RowFed, Content, Shaped, StageMinute, OwnStaged, SameBut;
    StageMinuteEffect(ladders, st, clock, m, b);
    var after := StageMinute(ladders, st, m, b);
    forall p | p in after.rows ensures RowSound(ladders, after, p, clock) && FinerFirst(ladders, after, p) {
      assert RowSound(ladders, st, p, clock) && FinerFirst(ladders, st, p);
      SealedOutside(ladders, st, clock, m, p);
      RowKept(ladders, st, after, clock, m, p);
    }
  }

  lemma RowKept(ladders: Ladders, st: CoarseState, after: CoarseState, clock: int, m: HotKey, p: ParentKey)
    requires ValidLadders(ladders) && p in st.rows && RowSound(ladders, st, p, clock) && FinerFirst(ladders, st, p)
    requires ParentOf(m, p.interval) != p && after.rows == st.rows
    requires forall k :: k != m ==> BucketOf(after.staged, k) == BucketOf(st.staged, k)
    ensures RowSound(ladders, after, p, clock) && FinerFirst(ladders, after, p)
  {
    hide Content, Shaped, BucketOf;
    ShapedDivides(ladders, p);
    ContentElsewhere(st.staged, after.staged, m, p);
    forall q | Shaped(ladders, q) && Inside(q, p) && Content(after.staged, q.cell, q.interval).count > 0
      ensures q in st.rows
    {
      ShapedDivides(ladders, q);
      TiersDivide(ladders, q, p);
      MinuteInside(m, q.interval, p.interval);
      ContentElsewhere(st.staged, after.staged, m, q);
    }
  }

  lemma ShapedDivides(ladders: Ladders, p: ParentKey)
    requires ValidLadders(ladders) && Shaped(ladders, p)
    ensures p.interval > 0 && p.interval % MINUTE == 0 && p.cell.bucket % p.interval == 0
  {
    ShapedFacts(ladders, p);
  }

  lemma OwnParentSound(ladders: Ladders, st: CoarseState, after: CoarseState, m: HotKey, b: Summary, clock: int)
    requires ValidLadders(ladders) && Accepts(ladders, m, b, clock)
    requires var l := LadderOf(ladders, m); var own := ParentOf(m, l[1]);
             && OwnStaged(st, after, own, m, b, l[2..]) && OthersStaged(st, after, own, m, b)
             && own !in st.rows && own in after.parents
             && (own in st.parents ==> ParentSound(ladders, st, own))
    ensures ParentSound(ladders, after, ParentOf(m, LadderOf(ladders, m)[1]))
  {
    hide TierOf, SameBut;
    var l := LadderOf(ladders, m);
    assert ValidLadder(ladders(m.series.metricName));
    TierFound(l, 1);
    var own := ParentOf(m, l[1]);
    assert Shaped(ladders, own) && Finer(ladders, own) == MINUTE;
  }

  lemma StageParents(ladders: Ladders, st: CoarseState, clock: int, m: HotKey, b: Summary)
    requires ValidLadders(ladders) && Inv(ladders, st, clock, {}) && Accepts(ladders, m, b, clock)
    ensures var after := StageMinute(ladders, st, m, b);
            forall p :: p in after.parents ==> ParentSound(ladders, after, p)
  {
    hide StagedSound, ParentSound, LogSound, MinuteFed, RowFed, FinerFirst, Content, StageMinute, OwnStaged, Shaped;
    var own, after := ParentOf(m, LadderOf(ladders, m)[1]), StageMinute(ladders, st, m, b);
    StageMinuteEffect(ladders, st, clock, m, b);
    assert own in st.rows ==> RowSound(ladders, st, own, clock);
    forall p | p in after.parents ensures ParentSound(ladders, after, p) {
      if p == own {
        OwnParentSound(ladders, st, after, m, b, clock);
      } else {
        OtherParentKept(ladders, st, after, m, p);
      }
    }
  }

  lemma OtherParentKept(ladders: Ladders, st: CoarseState, after: CoarseState, m: HotKey, p: ParentKey)
    requires ValidLadders(ladders) && p in st.parents && ParentSound(ladders, st, p)
    requires |LadderOf(ladders, m)| >= 2 && p != ParentOf(m, LadderOf(ladders, m)[1])
    requires p in after.parents && after.parents[p] == st.parents[p] && after.rows == st.rows
    requires forall k :: k != m ==> (k in after.staged <==> k in st.staged) && (k in st.staged ==> after.staged[k] == st.staged[k])
    ensures ParentSound(ladders, after, p)
  {
  }

  lemma MinuteStillFed(ladders: Ladders, st: CoarseState, after: CoarseState, m: HotKey, own: ParentKey, k: HotKey)
    requires SameBut(st.parents, after.parents, own) && after.rows == st.rows && MinuteFed(ladders, st, k) && k != m
    requires forall c :: c != m && c in ChildrenOf(st.parents, own) ==> c in ChildrenOf(after.parents, own)
    ensures MinuteFed(ladders, after, k)
  {
    hide ParentOf;
    if |LadderOf(ladders, k)| >= 2 {
      var p := ParentOf(k, LadderOf(ladders, k)[1]);
      assert Holds(st, p, k);
      assert p != own ==> (p in after.parents <==> p in st.parents);
      assert p == own && k in ChildrenOf(st.parents, own) ==> k in ChildrenOf(after.parents, own);
      assert Holds(after, p, k);
    }
  }

  lemma RowStillFed(ladders: Ladders, st: CoarseState, after: CoarseState, own: ParentKey, q: ParentKey)
    requires RowFed(ladders, st, q) && after.rows == st.rows && SameBut(st.parents, after.parents, own)
    requires Above(ladders, q) != [] ==> ParentOf(q.cell, Above(ladders, q)[0]) != own
    ensures RowFed(ladders, after, q)
  {
    hide ParentOf, Above;
    if Above(ladders, q) != [] {
      var next := ParentOf(q.cell, Above(ladders, q)[0]);
      assert Holds(st, next, q.cell);
      assert next in after.parents <==> next in st.parents;
    }
  }

  /** The tier fed by a parent is never the one the minutes go to. */
  lemma NextAboveFirst(ladders: Ladders, m: HotKey, q: ParentKey)
    requires ValidLadders(ladders) && Shaped(ladders, q) && Above(ladders, q) != [] && |LadderOf(ladders, m)| >= 2
    ensures ParentOf(q.cell, Above(ladders, q)[0]) != ParentOf(m, LadderOf(ladders, m)[1])
  {
    hide TierOf;
    var l := LadderOf(ladders, q.cell);
    assert ValidLadder(ladders(q.cell.series.metricName));
    LadderStrict(l, 1, TierOf(l, q.interval) + 1);
    assert q.cell.series == m.series ==> LadderOf(ladders, m) == l;
  }

  lemma StageFed(ladders: Ladders, st: CoarseState, clock: int, m: HotKey, b: Summary)
    requires ValidLadders(ladders) && Inv(ladders, st, clock, {}) && Accepts(ladders, m, b, clock)
    ensures var after := StageMinute(ladders, st, m, b);
            && (forall k :: k in after.staged ==> MinuteFed(ladders, after, k))
            && (forall q :: q in after.rows ==> RowFed(ladders, after, q))
  {
    hide StagedSound, ParentSound, LogSound, FinerFirst, Content, StageMinute, RowFed, Shaped, SameBut, Due, MinuteFed, Above;
    var own, after := ParentOf(m, LadderOf(ladders, m)[1]), StageMinute(ladders, st, m, b);
    StageMinuteEffect(ladders, st, clock, m, b);
    forall k | k in after.staged ensures MinuteFed(ladders, after, k) {
      if k == m {
        OwnMinuteFed(ladders, st, after, m, b);
      } else {
        MinuteStillFed(ladders, st, after, m, own, k);
      }
    }
    forall q | q in after.rows ensures RowFed(ladders, after, q) {
      assert RowSound(ladders, st, q, clock);
      if Above(ladders, q) != [] {
        NextAboveFirst(ladders, m, q);
      }
      RowStillFed(ladders, st, after, own, q);
    }
  }

  lemma OwnMinuteFed(ladders: Ladders, st: CoarseState, after: CoarseState, m: HotKey, b: Summary)
    requires |LadderOf(ladders, m)| >= 2 && b.count != 0
    requires OwnStaged(st, after, ParentOf(m, LadderOf(ladders, m)[1]), m, b, LadderOf(ladders, m)[2..])
    ensures MinuteFed(ladders, after, m)
  {
    assert m in ChildrenOf(after.parents, ParentOf(m, LadderOf(ladders, m)[1]));
  }

  lemma ParentsNonEmpty(ladders: Ladders, st: CoarseState, clock: int)
    requires Inv(ladders, st, clock, {})
    ensures NoEmptyParent(st.parents)
  {
    hide StagedSound, LogSound, RowSound, FinerFirst, MinuteFed, RowFed, Waiting, ChildSound, Shaped;
  }

  /** Staging a minute whose parent is still open keeps everything sealed as it was. */
  lemma StageKeepsInv(ladders: Ladders, st: CoarseState, clock: int, m: HotKey, b: Summary)
    requires ValidLadders(ladders) && Inv(ladders, st, clock, {}) && Accepts(ladders, m, b, clock)
    ensures Inv(ladders, StageMinute(ladders, st, m, b), clock, {})
  {
    hide ParentSound, RowSound, FinerFirst, MinuteFed, RowFed, Waiting, StageChild, LogSound;
    StageRows(ladders, st, clock, m, b);
    StageParents(ladders, st, clock, m, b);
    StageFed(ladders, st, clock, m, b);
    LogKept(st, StageMinute(ladders, st, m, b));
  }

  lemma LogKept(st: CoarseState, after: CoarseState)
    requires LogSound(st) && after.rows == st.rows && after.log == st.log
    ensures LogSound(after)
  {
  }
}
