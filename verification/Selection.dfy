/** Picking samples out of a series by a condition, and folding what was picked. */
module Selection {
  import opened Words
  import opened Timeline
  import opened RawSeries
  import Rollup

  function Observe(e: Entry): Rollup.Obs {
    Rollup.Obs(e.timestamp, FloatOf(e.value))
  }

  /** The observations of the entries satisfying `p`, in time order. */
  function Pick(v: seq<Entry>, p: Entry -> bool): seq<Rollup.Obs> {
    if v == [] then []
    else
      var rest := Pick(v[..|v| - 1], p);
      if p(v[|v| - 1]) then rest + [Observe(v[|v| - 1])] else rest
  }

  function Summarize(v: seq<Entry>, p: Entry -> bool): (b: Rollup.Summary)
    ensures Rollup.WellFormed(b)
  {
    Rollup.Fold(Pick(v, p))
  }

  lemma {:induction false} PickConcat(a: seq<Entry>, b: seq<Entry>, p: Entry -> bool)
    ensures Pick(a + b, p) == Pick(a, p) + Pick(b, p)
  {
    if b == [] {
      assert a + b == a;
    } else {
      PickConcat(a, b[..|b| - 1], p);
      assert (a + b)[..|a + b| - 1] == a + b[..|b| - 1];
    }
  }

  lemma {:induction false} PickCongruent(v: seq<Entry>, p: Entry -> bool, q: Entry -> bool)
    requires forall i :: 0 <= i < |v| ==> p(v[i]) == q(v[i])
    ensures Pick(v, p) == Pick(v, q)
  {
    if v != [] {
      PickCongruent(v[..|v| - 1], p, q);
    }
  }

  lemma {:induction false} PickNone(v: seq<Entry>, p: Entry -> bool)
    requires forall i :: 0 <= i < |v| ==> !p(v[i])
    ensures Pick(v, p) == []
  {
    if v != [] {
      PickNone(v[..|v| - 1], p);
    }
  }

  ghost predicate Comes(o: Rollup.Obs, v: seq<Entry>, p: Entry -> bool) {
    exists i :: 0 <= i < |v| && p(v[i]) && o == Observe(v[i])
  }

  lemma {:induction false} PickMembers(v: seq<Entry>, p: Entry -> bool)
    ensures forall k :: 0 <= k < |Pick(v, p)| ==> Comes(Pick(v, p)[k], v, p)
  {
    if v != [] {
      var init := v[..|v| - 1];
      PickMembers(init, p);
      forall k | 0 <= k < |Pick(v, p)| ensures Comes(Pick(v, p)[k], v, p) {
        if k < |Pick(init, p)| {
          assert Comes(Pick(init, p)[k], init, p);
          var i :| 0 <= i < |init| && p(init[i]) && Pick(init, p)[k] == Observe(init[i]);
          assert p(v[i]);
        } else {
          assert p(v[|v| - 1]);
        }
      }
    }
  }

  lemma {:induction false} PickNonEmpty(v: seq<Entry>, p: Entry -> bool, i: int)
    requires 0 <= i < |v| && p(v[i])
    ensures Pick(v, p) != []
  {
    if i < |v| - 1 {
      PickNonEmpty(v[..|v| - 1], p, i);
    }
  }

  lemma {:induction false} PickAscending(v: seq<Entry>, p: Entry -> bool)
    requires Ascending(v)
    ensures Rollup.TimeOrdered(Pick(v, p))
  {
    if v != [] {
      var init := v[..|v| - 1];
      PickAscending(init, p);
      PickMembers(init, p);
    }
  }

  /** Entries the condition rejects anyway may be dropped first. */
  lemma {:induction false} PickFrom(v: seq<Entry>, t: int, p: Entry -> bool)
    requires forall i :: 0 <= i < |v| && p(v[i]) ==> v[i].timestamp >= t
    ensures Pick(From(v, t), p) == Pick(v, p)
  {
    if v != [] {
      var init, x := v[..|v| - 1], v[|v| - 1];
      PickFrom(init, t, p);
      FilterLast(v, t);
      if x.timestamp >= t {
        assert (From(init, t) + [x])[..|From(init, t)|] == From(init, t);
      }
    }
  }

  /** Cutting out a time range first and picking from it is picking with both conditions. */
  lemma {:induction false} PickRange(v: seq<Entry>, start: int, end: int, p: Entry -> bool, both: Entry -> bool)
    requires forall i :: 0 <= i < |v| ==> both(v[i]) == (start <= v[i].timestamp < end && p(v[i]))
    ensures Pick(Before(From(v, start), end), p) == Pick(v, both)
  {
    hide Before, From;
    if v == [] {
      AllFrom(v, start);
      AllFrom(v, end);
    } else {
      var init, x := v[..|v| - 1], v[|v| - 1];
      PickRange(init, start, end, p, both);
      FilterLast(v, start);
      var f := From(init, start);
      if x.timestamp >= start {
        FilterLast(f + [x], end);
        assert (f + [x])[..|f|] == f;
        var b := Before(f, end);
        assert (b + [x])[..|b|] == b;
      }
    }
  }

  /** The entry at a timestamp, as a list of at most one. */
  function At(v: seq<Entry>, t: int): seq<Entry> {
    if t in ToMap(v) then [ToMap(v)[t]] else []
  }

  lemma SplitAround(v: seq<Entry>, t: int)
    requires Ascending(v)
    ensures v == Before(v, t) + At(v, t) + From(v, t + 1)
    ensures At(v, t) != [] ==> At(v, t)[0].timestamp == t
  {
    hide ToMap, Before, From;
    var lo := FindCut(v, t);
    var hi := FindCut(v, t + 1);
    assert lo > 0 ==> v[lo - 1].timestamp < t;
    assert v == v[..lo] + v[lo..hi] + v[hi..];
    MiddleIsEntry(v, t, lo, hi);
  }

  lemma MiddleIsEntry(v: seq<Entry>, t: int, lo: int, hi: int)
    requires Ascending(v) && lo <= hi && Splits(v, t, lo) && Splits(v, t + 1, hi)
    ensures At(v, t) == v[lo..hi]
    ensures lo < hi ==> v[lo].timestamp == t
  {
    hide ToMap;
    if lo < hi {
      assert v[lo] in v;
      ToMapAt(v, v[lo]);
      assert t <= v[lo].timestamp && v[hi - 1].timestamp < t + 1;
      assert hi == lo + 1;
    } else {
      FoundInMap(v, t, Sample(0, 0, LabelSet("", "")), false);
    }
  }

  lemma PickUpsert(v: seq<Entry>, e: Entry, p: Entry -> bool)
    requires Ascending(v)
    ensures Pick(v, p) == Pick(Before(v, e.timestamp), p) + Pick(At(v, e.timestamp), p) + Pick(From(v, e.timestamp + 1), p)
    ensures Pick(Upsert(v, e), p) ==
            Pick(Before(v, e.timestamp), p) + Pick([e], p) + Pick(From(v, e.timestamp + 1), p)
  {
    hide Pick, Before, From, At;
    var t: int := e.timestamp;
    SplitAround(v, t);
    PickConcat(Before(v, t) + At(v, t), From(v, t + 1), p);
    PickConcat(Before(v, t), At(v, t), p);
    PickConcat(Before(v, t) + [e], From(v, t + 1), p);
    PickConcat(Before(v, t), [e], p);
  }

  lemma PickOne(e: Entry, p: Entry -> bool)
    ensures Pick([e], p) == if p(e) then [Observe(e)] else []
  {
    assert [e][..0] == [];
  }

  /** An upsert is invisible to a condition rejecting both the new and the replaced entry. */
  lemma PickUpsertUnseen(v: seq<Entry>, e: Entry, p: Entry -> bool)
    requires Ascending(v) && !p(e)
    requires e.timestamp in ToMap(v) ==> !p(ToMap(v)[e.timestamp])
    ensures Pick(Upsert(v, e), p) == Pick(v, p)
  {
    hide Pick, Before, From, ToMap, Upsert;
    PickUpsert(v, e, p);
    PickOne(e, p);
    PickNone(At(v, e.timestamp), p);
  }

  /** Writing a new timestamp adds exactly one observation, wherever it lands. */
  lemma SummarizeUpsertNew(v: seq<Entry>, e: Entry, p: Entry -> bool)
    requires Ascending(v) && p(e) && e.timestamp !in ToMap(v)
    ensures Summarize(Upsert(v, e), p) == Rollup.AddPoint(Summarize(v, p), Observe(e))
  {
    hide Pick, Before, From, ToMap, Upsert, Rollup.Fold, Rollup.AddPoint, Observe;
    var left, right := Pick(Before(v, e.timestamp), p), Pick(From(v, e.timestamp + 1), p);
    PickUpsert(v, e, p);
    PickOne(e, p);
    PickNothing(p);
    UpsertKeepsOrder(v, e);
    PickAscending(Upsert(v, e), p);
    assert Pick(Upsert(v, e), p) == left + [Observe(e)] + right;
    Rollup.FoldInsert(left, Observe(e), right);
    assert Pick(v, p) == left + right;
  }

  lemma PickNothing(p: Entry -> bool)
    ensures Pick([], p) == []
  {
  }

  /** Two disjoint selections of one ordered series merge to their union, however interleaved. */
  lemma {:induction false} SummarizeUnion(v: seq<Entry>, p: Entry -> bool, q: Entry -> bool, both: Entry -> bool)
    requires Ascending(v)
    requires forall i :: 0 <= i < |v| ==> !(p(v[i]) && q(v[i])) && both(v[i]) == (p(v[i]) || q(v[i]))
    ensures Summarize(v, both) == Rollup.Merge(Summarize(v, p), Summarize(v, q))
  {
    hide Rollup.Fold, Rollup.Merge, Rollup.AddPoint, Observe;
    if v == [] {
      Rollup.FoldEmpty();
      Rollup.MergeUnit(Rollup.EMPTY);
    } else {
      var init, x := v[..|v| - 1], v[|v| - 1];
      SummarizeUnion(init, p, q, both);
      var a, b, s := Summarize(init, p), Summarize(init, q), Rollup.Single(Observe(x));
      SummarizeGrow(v, p);
      SummarizeGrow(v, q);
      SummarizeGrow(v, both);
      Rollup.MergeWellFormed(a, b);
      Rollup.AddPointIsMerge(a, Observe(x));
      Rollup.AddPointIsMerge(b, Observe(x));
      Rollup.AddPointIsMerge(Rollup.Merge(a, b), Observe(x));
      if p(x) {
        LaterNoTies(init, q, x);
        Rollup.MergeCommutes(b, s);
        Rollup.MergeAssociative(a, b, s);
        Rollup.MergeAssociative(a, s, b);
      } else if q(x) {
        Rollup.MergeAssociative(a, b, s);
      }
    }
  }

  lemma SummarizeGrow(v: seq<Entry>, p: Entry -> bool)
    requires v != []
    ensures Summarize(v, p) ==
            if p(v[|v| - 1]) then Rollup.AddPoint(Summarize(v[..|v| - 1], p), Observe(v[|v| - 1]))
            else Summarize(v[..|v| - 1], p)
  {
    hide Rollup.Fold, Observe;
    var init, x := v[..|v| - 1], v[|v| - 1];
    if p(x) {
      var rest := Pick(init, p);
      Rollup.FoldUnfolds(rest + [Observe(x)]);
      assert (rest + [Observe(x)])[..|rest|] == rest;
    }
  }

  lemma LaterNoTies(init: seq<Entry>, q: Entry -> bool, x: Entry)
    requires Ascending(init + [x])
    ensures Rollup.NoTies(Summarize(init, q), Rollup.Single(Observe(x)))
  {
    hide Rollup.Fold, Pick;
    AscendingPrefix(init, [x]);
    PickAscending(init, q);
    PickMembers(init, q);
    var s := Pick(init, q);
    if s != [] {
      Rollup.FoldEnds(s);
      assert Comes(s[0], init, q) && Comes(s[|s| - 1], init, q);
      var i :| 0 <= i < |init| && q(init[i]) && s[0] == Observe(init[i]);
      var j :| 0 <= j < |init| && q(init[j]) && s[|s| - 1] == Observe(init[j]);
      assert (init + [x])[i].timestamp < (init + [x])[|init|].timestamp;
      assert (init + [x])[j].timestamp < (init + [x])[|init|].timestamp;
    }
  }
}
