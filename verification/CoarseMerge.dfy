/** Merging the children of a parent in time order. */
module CoarseMerge {
  import opened Clock
  import opened Rollup
  import opened Window
  import opened CoarseSpec
  import opened CoarseInvariant
  import opened CoarseSteps
  import opened CoarseSeal

  ghost predicate TimeSorted(order: seq<HotKey>) {
    forall i, j :: 0 <= i < j < |order| ==> order[i].bucket <= order[j].bucket
  }

  lemma EarliestExists(keys: set<HotKey>)
    requires keys != {}
    ensures exists k :: k in keys && forall j :: j in keys ==> k.bucket <= j.bucket
  {
    var k :| k in keys;
    if exists j :: j in keys && j.bucket < k.bucket {
      var rest := set j | j in keys && j.bucket < k.bucket;
      var j :| j in keys && j.bucket < k.bucket;
      assert j in rest && k !in rest && rest <= keys;
      EarliestExists(rest);
    }
  }

  method SortKeys(keys: set<HotKey>) returns (order: seq<HotKey>)
    ensures Enumerates(order, keys) && TimeSorted(order)
  {
    order := [];
    var left := keys;
    while left != {}
      invariant left <= keys && Enumerates(order, keys - left) && TimeSorted(order)
      invariant forall i, k :: 0 <= i < |order| && k in left ==> order[i].bucket <= k.bucket
      decreases left
    {
      EarliestExists(left);
      var k :| k in left && forall j :: j in left ==> k.bucket <= j.bucket;
      order := order + [k];
      left := left - {k};
    }
    assert keys - left == keys;
  }

  /** Every key is one of the slots lo, lo + step, ... below hi of the cell. */
  ghost predicate OnSlots(keys: set<HotKey>, cell: HotKey, lo: int, hi: int, step: int)
    requires step > 0
  {
    forall k :: k in keys ==> k == At(cell, k.bucket) && lo <= k.bucket < hi && (k.bucket - lo) % step == 0
  }

  /** Slots without a child add nothing. */
  lemma {:induction false} GapAddsNothing(m: Buckets, cell: HotKey, lo: int, a: int, b: int, step: int)
    requires step > 0 && Sound(m) && lo <= a <= b && (a - lo) % step == 0 && (b - lo) % step == 0
    requires forall t :: a <= t < b && (t - lo) % step == 0 ==> At(cell, t) !in m
    ensures Slots(m, cell, lo, b, step) == Slots(m, cell, lo, a, step)
  {
    DifferenceDivides(b - lo, a - lo, step);
    assert b - lo - (a - lo) == b - a;
    forall t | a <= t < b && (t - a) % step == 0 ensures BucketOf(m, At(cell, t)) == EMPTY {
      SumDivides(t - a, a - lo, step);
    }
    SlotsOfNothing(m, cell, a, b, step);
    SlotsSplit(m, cell, lo, a, b, step);
    SlotsWellFormed(m, cell, lo, a, step);
    MergeUnit(Slots(m, cell, lo, a, step));
  }

  /** One more child in time order extends the merged run up to and including its slot. */
  lemma NextChild(m: Buckets, cell: HotKey, lo: int, hi: int, step: int, a: int, order: seq<HotKey>, i: int)
    requires step > 0 && Sound(m) && OnSlots(m.Keys, cell, lo, hi, step)
    requires Enumerates(order, m.Keys) && TimeSorted(order) && 0 <= i < |order|
    requires lo <= a && (a - lo) % step == 0 && (if i == 0 then a == lo else a == order[i - 1].bucket + step)
    ensures lo <= order[i].bucket && (order[i].bucket + step - lo) % step == 0
    ensures Slots(m, cell, lo, order[i].bucket + step, step) == Merge(Slots(m, cell, lo, a, step), BucketOf(m, order[i]))
  {
    hide Merge;
    var b := order[i].bucket;
    assert order[i] in m.Keys;
    SumDivides(b - lo, step, step);
    SlotAfter(m, cell, lo, hi, step, a, order, i);
    GapAddsNothing(m, cell, lo, a, b, step);
    assert At(cell, b + step - step) == order[i];
  }

  lemma SlotAfter(m: Buckets, cell: HotKey, lo: int, hi: int, step: int, a: int, order: seq<HotKey>, i: int)
    requires step > 0 && OnSlots(m.Keys, cell, lo, hi, step)
    requires Enumerates(order, m.Keys) && TimeSorted(order) && 0 <= i < |order|
    requires lo <= a && (a - lo) % step == 0 && (if i == 0 then a == lo else a == order[i - 1].bucket + step)
    ensures a <= order[i].bucket
    ensures forall t :: a <= t < order[i].bucket ==> At(cell, t) !in m
  {
    var b := order[i].bucket;
    assert order[i] in m.Keys;
    if i > 0 {
      var prev := order[i - 1];
      assert prev in m.Keys && prev != order[i] && prev.bucket <= b;
      if b < a {
        MultipleUnique(b - lo, prev.bucket - lo, step);
      }
    }
    forall j | 0 <= j < |order| ensures order[j].bucket < a || order[j].bucket >= b {
      assert j < i ==> i > 0 && order[j].bucket <= order[i - 1].bucket;
    }
    forall t | a <= t < b ensures At(cell, t) !in m {
      assert At(cell, t) in m ==> At(cell, t) in order;
    }
  }

  /** Merges the children of a parent in time order. */
  method MergeChildren(children: Buckets, ghost cell: HotKey, ghost lo: int, ghost hi: int, ghost step: int)
      returns (bucket: Summary)
    requires step > 0 && Sound(children) && OnSlots(children.Keys, cell, lo, hi, step)
    requires lo <= hi && (hi - lo) % step == 0
    ensures bucket == Slots(children, cell, lo, hi, step)
  {
    hide Merge, OnSlots, TimeSorted, Sound, Enumerates;
    var order := SortKeys(children.Keys);
    bucket := EMPTY;
    ghost var a := lo;
    var i := 0;
    while i < |order|
      invariant 0 <= i <= |order|
      invariant lo <= a && (a - lo) % step == 0 && (if i == 0 then a == lo else a == order[i - 1].bucket + step)
      invariant bucket == Slots(children, cell, lo, a, step)
    {
      NextChild(children, cell, lo, hi, step, a, order, i);
      ListedKeys(order, children.Keys);
      bucket := Merge(bucket, children[order[i]]);
      a := order[i].bucket + step;
      i := i + 1;
    }
    TailEmpty(children, cell, lo, hi, step, a, order);
  }

  lemma ListedKeys(order: seq<HotKey>, keys: set<HotKey>)
    requires Enumerates(order, keys)
    ensures forall i :: 0 <= i < |order| ==> order[i] in keys
  {
  }

  lemma {:induction false} TailEmpty(m: Buckets, cell: HotKey, lo: int, hi: int, step: int, a: int, order: seq<HotKey>)
    requires step > 0 && Sound(m) && OnSlots(m.Keys, cell, lo, hi, step) && lo <= hi && (hi - lo) % step == 0
    requires Enumerates(order, m.Keys) && TimeSorted(order)
    requires lo <= a && (a - lo) % step == 0 && (if order == [] then a == lo else a == order[|order| - 1].bucket + step)
    ensures Slots(m, cell, lo, hi, step) == Slots(m, cell, lo, a, step)
  {
    hide Merge, Slots;
    if order != [] {
      var last := order[|order| - 1];
      assert last in m.Keys;
      if a > hi {
        StepDown(hi - lo, step);
        MultipleUnique(last.bucket - lo, hi - step - lo, step);
      }
    }
    forall t | a <= t < hi && (t - lo) % step == 0 ensures At(cell, t) !in m {
      assert At(cell, t) in m ==> At(cell, t) in order;
    }
    GapAddsNothing(m, cell, lo, a, hi, step);
  }
}
