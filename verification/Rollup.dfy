/** The bucket algebra: what one rollup row knows about the samples it stands for,
    how samples and finer rows are folded into it, and why folding loses nothing. */
module Rollup {

  datatype Obs = Obs(ts: int, val: real)

  datatype Summary = Summary(
    count: int, sum: real, sumSq: real, min: real, max: real,
    firstVal: real, firstTS: int, lastVal: real, lastTS: int)

  const EMPTY: Summary := Summary(0, 0.0, 0.0, 0.0, 0.0, 0.0, 0, 0.0, 0)

  /** A fresh accumulator is all zeroes; a used one has ordered extremes. */
  predicate WellFormed(b: Summary) {
    && b.count >= 0
    && (b.count == 0 ==> b == EMPTY)
    && (b.count > 0 ==> b.min <= b.max && b.firstTS <= b.lastTS)
  }

  function Single(p: Obs): Summary {
    Summary(1, p.val, p.val * p.val, p.val, p.val, p.val, p.ts, p.val, p.ts)
  }

  function AddPoint(b: Summary, p: Obs): Summary {
    if b.count == 0 then
      Summary(b.count + 1, b.sum + p.val, b.sumSq + p.val * p.val, p.val, p.val, p.val, p.ts, p.val, p.ts)
    else
      Summary(
        b.count + 1, b.sum + p.val, b.sumSq + p.val * p.val,
        if p.val < b.min then p.val else b.min,
        if p.val > b.max then p.val else b.max,
        if p.ts < b.firstTS then p.val else b.firstVal,
        if p.ts < b.firstTS then p.ts else b.firstTS,
        if p.ts > b.lastTS then p.val else b.lastVal,
        if p.ts > b.lastTS then p.ts else b.lastTS)
  }

  function Merge(b: Summary, o: Summary): Summary {
    if o.count == 0 then b
    else if b.count == 0 then
      Summary(b.count + o.count, b.sum + o.sum, b.sumSq + o.sumSq,
              o.min, o.max, o.firstVal, o.firstTS, o.lastVal, o.lastTS)
    else
      Summary(
        b.count + o.count, b.sum + o.sum, b.sumSq + o.sumSq,
        if o.min < b.min then o.min else b.min,
        if o.max > b.max then o.max else b.max,
        if o.firstTS < b.firstTS then o.firstVal else b.firstVal,
        if o.firstTS < b.firstTS then o.firstTS else b.firstTS,
        if o.lastTS > b.lastTS then o.lastVal else b.lastVal,
        if o.lastTS > b.lastTS then o.lastTS else b.lastTS)
  }

  /** Folding samples one by one, in the order given. */
  function Fold(s: seq<Obs>): (b: Summary)
    ensures WellFormed(b) && b.count == |s|
  {
    if s == [] then EMPTY else AddPoint(Fold(s[..|s| - 1]), s[|s| - 1])
  }

  /** Merging finer rows one by one, in the order given. */
  function MergeAll(rows: seq<Summary>): Summary {
    if rows == [] then EMPTY else Merge(MergeAll(rows[..|rows| - 1]), rows[|rows| - 1])
  }

  lemma MergeWellFormed(b: Summary, o: Summary)
    requires WellFormed(b) && WellFormed(o)
    ensures WellFormed(Merge(b, o)) && Merge(b, o).count == b.count + o.count
  {
  }

  lemma AddPointIsMerge(b: Summary, p: Obs)
    requires WellFormed(b)
    ensures AddPoint(b, p) == Merge(b, Single(p))
    ensures WellFormed(AddPoint(b, p)) && WellFormed(Single(p))
  {
  }

  lemma MergeUnit(b: Summary)
    requires WellFormed(b)
    ensures Merge(b, EMPTY) == b && Merge(EMPTY, b) == b
  {
  }

  /** Merging is associative with no condition on timestamps: ties keep the leftmost sample. */
  lemma MergeAssociative(a: Summary, b: Summary, c: Summary)
    requires WellFormed(a) && WellFormed(b) && WellFormed(c)
    ensures Merge(Merge(a, b), c) == Merge(a, Merge(b, c))
  {
    MergeWellFormed(a, b);
    MergeWellFormed(b, c);
  }

  predicate NoTies(a: Summary, b: Summary) {
    a.count == 0 || b.count == 0 || (a.firstTS != b.firstTS && a.lastTS != b.lastTS)
  }

  /** Two rows commute exactly when they do not tie with different first or last values. */
  lemma MergeCommutes(a: Summary, b: Summary)
    requires WellFormed(a) && WellFormed(b)
    ensures NoTies(a, b) ==> Merge(a, b) == Merge(b, a)
    ensures Merge(a, b) == Merge(b, a) <==>
            (a.count == 0 || b.count == 0
             || ((a.firstTS == b.firstTS ==> a.firstVal == b.firstVal)
                 && (a.lastTS == b.lastTS ==> a.lastVal == b.lastVal)))
  {
    if a.count == 0 || b.count == 0 {
      MergeUnit(a);
      MergeUnit(b);
    }
  }

  /** Folding is a homomorphism: any split may be summarised apart and merged. */
  lemma {:induction false} FoldConcat(s: seq<Obs>, t: seq<Obs>)
    ensures Fold(s + t) == Merge(Fold(s), Fold(t))
  {
    if t == [] {
      assert s + t == s;
      MergeUnit(Fold(s));
    } else {
      var p := t[|t| - 1];
      var init := t[..|t| - 1];
      assert (s + t)[..|s + t| - 1] == s + init;
      FoldConcat(s, init);
      AddPointIsMerge(Fold(s + init), p);
      AddPointIsMerge(Fold(init), p);
      MergeAssociative(Fold(s), Fold(init), Single(p));
    }
  }

  function Flatten(parts: seq<seq<Obs>>): seq<Obs> {
    if parts == [] then [] else Flatten(parts[..|parts| - 1]) + parts[|parts| - 1]
  }

  /** Cascading is exact: merging the summaries of any cut into any number of parts
      equals folding the samples straight into one bucket. */
  lemma {:induction false} CascadeExact(parts: seq<seq<Obs>>)
    ensures MergeAll(seq(|parts|, i requires 0 <= i < |parts| => Fold(parts[i]))) == Fold(Flatten(parts))
  {
    var rows := seq(|parts|, i requires 0 <= i < |parts| => Fold(parts[i]));
    if parts != [] {
      var init := parts[..|parts| - 1];
      CascadeExact(init);
      assert rows[..|rows| - 1] == seq(|init|, i requires 0 <= i < |init| => Fold(init[i]));
      FoldConcat(Flatten(init), parts[|parts| - 1]);
    }
  }

  // ---- folding strictly time-ordered samples -------------------------------------------

  predicate TimeOrdered(s: seq<Obs>) {
    forall i, j :: 0 <= i < j < |s| ==> s[i].ts < s[j].ts
  }

  lemma {:induction false} FoldEnds(s: seq<Obs>)
    requires TimeOrdered(s) && s != []
    ensures Fold(s).firstTS == s[0].ts && Fold(s).firstVal == s[0].val
    ensures Fold(s).lastTS == s[|s| - 1].ts && Fold(s).lastVal == s[|s| - 1].val
  {
    if |s| > 1 {
      FoldEnds(s[..|s| - 1]);
    }
  }

  lemma FoldUnfolds(s: seq<Obs>)
    requires s != []
    ensures Fold(s) == AddPoint(Fold(s[..|s| - 1]), s[|s| - 1])
  {
  }

  lemma FoldEmpty()
    ensures Fold([]) == EMPTY
  {
  }

  lemma FoldSingle(p: Obs)
    ensures Fold([p]) == Single(p) == AddPoint(EMPTY, p)
  {
    assert [p][..0] == [];
  }

  /** Inserting one new timestamp anywhere is the same as adding it last. */
  lemma FoldInsert(left: seq<Obs>, p: Obs, right: seq<Obs>)
    requires TimeOrdered(left + [p] + right)
    ensures Fold(left + [p] + right) == AddPoint(Fold(left + right), p)
  {
    hide Fold, Merge;
    var all := left + [p] + right;
    forall i, j | 0 <= i < j < |right| ensures right[i].ts < right[j].ts {
      assert all[|left| + 1 + i] == right[i] && all[|left| + 1 + j] == right[j];
    }
    assert all[|left|] == p;
    FoldConcat(left + [p], right);
    FoldConcat(left, [p]);
    FoldConcat(left, right);
    FoldSingle(p);
    AddPointIsMerge(EMPTY, p);
    MergeUnit(Single(p));
    AddPointIsMerge(Fold(left + right), p);
    if right != [] {
      FoldEnds(right);
      assert all[|left| + 1] == right[0] && all[|all| - 1] == right[|right| - 1];
    }
    MergeCommutes(Single(p), Fold(right));
    MergeAssociative(Fold(left), Single(p), Fold(right));
    MergeAssociative(Fold(left), Fold(right), Single(p));
  }

  // ---- the aggregations a bucket can answer -----------------------------------------------

  /** `Variance` is what the standard deviation takes the square root of. */
  datatype Aggregation = Avg | Min | Max | Sum | Count | First | Last | Variance

  function Value(b: Summary, agg: Aggregation): real {
    match agg
    case Avg => if b.count == 0 then 0.0 else b.sum / (b.count as real)
    case Min => b.min
    case Max => b.max
    case Sum => b.sum
    case Count => b.count as real
    case First => b.firstVal
    case Last => b.lastVal
    case Variance =>
      if b.count == 0 then 0.0
      else
        var variance := MomentVariance(b.sumSq, b.sum, b.count as real);
        if variance < 0.0 then 0.0 else variance
  }

  function MomentVariance(sumSq: real, sum: real, n: real): real
    requires n != 0.0
  {
    var mean := sum / n;
    sumSq / n - mean * mean
  }

  function SumOf(s: seq<Obs>): real {
    if s == [] then 0.0 else SumOf(s[..|s| - 1]) + s[|s| - 1].val
  }

  function Square(x: real): (r: real)
    ensures r >= 0.0
  {
    x * x
  }

  function SumSqOf(s: seq<Obs>): real {
    if s == [] then 0.0 else SumSqOf(s[..|s| - 1]) + Square(s[|s| - 1].val)
  }

  function SquaredDeviation(s: seq<Obs>, mean: real): (r: real)
    ensures r >= 0.0
  {
    if s == [] then 0.0
    else SquaredDeviation(s[..|s| - 1], mean) + Square(s[|s| - 1].val - mean)
  }

  predicate IsMin(s: seq<Obs>, v: real) {
    (exists i :: 0 <= i < |s| && s[i].val == v) && forall i :: 0 <= i < |s| ==> v <= s[i].val
  }

  predicate IsMax(s: seq<Obs>, v: real) {
    (exists i :: 0 <= i < |s| && s[i].val == v) && forall i :: 0 <= i < |s| ==> s[i].val <= v
  }

  /** What each aggregation means on a non-empty, time-ordered group of samples. */
  ghost predicate Aggregates(s: seq<Obs>, agg: Aggregation, v: real)
    requires s != []
  {
    var n := |s| as real;
    match agg
    case Avg => v == SumOf(s) / n
    case Min => IsMin(s, v)
    case Max => IsMax(s, v)
    case Sum => v == SumOf(s)
    case Count => v == n
    case First => v == s[0].val
    case Last => v == s[|s| - 1].val
    case Variance => v == SquaredDeviation(s, SumOf(s) / n) / n
  }

  /** (sum of squares) - 2 * mean * sum + n * mean^2 */
  function Expanded(q: real, sum: real, n: real, mean: real): real {
    q - 2.0 * (mean * sum) + n * (mean * mean)
  }

  lemma ExpandedStep(q: real, sum: real, n: real, mean: real, x: real)
    ensures Expanded(q, sum, n, mean) + (x - mean) * (x - mean) == Expanded(q + x * x, sum + x, n + 1.0, mean)
  {
    var sq := mean * mean;
    var cross := mean * x;
    assert (x - mean) * (x - mean) == x * x - 2.0 * cross + sq;
    assert mean * (sum + x) == mean * sum + cross;
    assert (n + 1.0) * sq == n * sq + sq;
  }

  lemma ExpandedChain(dev: real, q: real, sum: real, n: real, mean: real, x: real, xx: real, dd: real)
    requires dev == Expanded(q, sum, n, mean)
    requires xx == x * x && dd == (x - mean) * (x - mean)
    ensures dev + dd == Expanded(q + xx, sum + x, n + 1.0, mean)
  {
    ExpandedStep(q, sum, n, mean, x);
  }

  lemma {:induction false} FoldSum(s: seq<Obs>)
    ensures Fold(s).sum == SumOf(s)
  {
    if s != [] {
      FoldSum(s[..|s| - 1]);
    }
  }

  lemma {:induction false} FoldSumSq(s: seq<Obs>)
    ensures Fold(s).sumSq == SumSqOf(s)
  {
    if s != [] {
      FoldSumSq(s[..|s| - 1]);
    }
  }

  lemma {:induction false} DeviationExpands(s: seq<Obs>, mean: real)
    ensures SquaredDeviation(s, mean) == Expanded(SumSqOf(s), SumOf(s), |s| as real, mean)
  {
    if s == [] {
    } else {
      var init, x := s[..|s| - 1], s[|s| - 1].val;
      DeviationExpands(init, mean);
      ExpandedChain(SquaredDeviation(init, mean), SumSqOf(init), SumOf(init), |init| as real, mean, x,
                    Square(x), Square(x - mean));
    }
  }

  lemma {:induction false} FoldExtremes(s: seq<Obs>)
    requires s != []
    ensures IsMin(s, Fold(s).min) && IsMax(s, Fold(s).max)
  {
    var init, p := s[..|s| - 1], s[|s| - 1];
    if init == [] {
      assert s[0].val == p.val;
    } else {
      FoldExtremes(init);
      var i :| 0 <= i < |init| && init[i].val == Fold(init).min;
      var j :| 0 <= j < |init| && init[j].val == Fold(init).max;
      assert s[i] == init[i] && s[j] == init[j] && s[|s| - 1] == p;
    }
  }

  lemma MeanCompletesSquare(q: real, sum: real, n: real)
    requires n > 0.0
    ensures MomentVariance(q, sum, n) == Expanded(q, sum, n, sum / n) / n
  {
    var mean := sum / n;
    var sq := mean * mean;
    assert mean * n == sum;
    assert mean * sum == sq * n by {
      assert mean * (mean * n) == sq * n;
    }
    assert Expanded(q, sum, n, mean) == q - sq * n;
    assert (q / n - sq) * n == q - sq * n by {
      assert q / n * n == q;
    }
  }

  lemma QuotientNonNegative(a: real, n: real)
    requires a >= 0.0 && n > 0.0
    ensures a / n >= 0.0
  {
  }

  /** sumSq/n - mean^2 is the two-pass population variance, so the clamp at zero never fires. */
  lemma {:induction false} VarianceIdentity(s: seq<Obs>)
    requires s != []
    ensures var n := |s| as real;
            MomentVariance(Fold(s).sumSq, Fold(s).sum, n) == SquaredDeviation(s, SumOf(s) / n) / n >= 0.0
  {
    var n := |s| as real;
    FoldSum(s);
    FoldSumSq(s);
    DeviationExpands(s, SumOf(s) / n);
    MeanCompletesSquare(SumSqOf(s), SumOf(s), n);
    QuotientNonNegative(SquaredDeviation(s, SumOf(s) / n), n);
  }

  /** Every aggregation read off a folded bucket is the aggregation of its samples; only first and
      last need them in time order. */
  lemma SummaryAnswers(s: seq<Obs>, agg: Aggregation)
    requires s != [] && (agg.First? || agg.Last? ==> TimeOrdered(s))
    ensures Aggregates(s, agg, Value(Fold(s), agg))
  {
    match agg
    case Avg | Sum | Count => FoldSum(s);
    case Min | Max => FoldExtremes(s);
    case First | Last => FoldEnds(s);
    case Variance => VarianceIdentity(s);
  }

  /** Two samples in numbers. */
  lemma TwoSamples(a: Obs, b: Obs)
    requires a.ts < b.ts
    ensures var s := Fold([a, b]);
            && Value(s, Count) == 2.0 && Value(s, Sum) == a.val + b.val && Value(s, Avg) == (a.val + b.val) / 2.0
            && Value(s, Min) == (if b.val < a.val then b.val else a.val)
            && Value(s, Max) == (if b.val > a.val then b.val else a.val)
            && Value(s, First) == a.val && Value(s, Last) == b.val
            && Value(s, Variance) == (a.val - b.val) * (a.val - b.val) / 4.0
  {
    assert [a, b][..1] == [a] && [a][..0] == [];
    assert Fold([a]) == Single(a);
    var x, y := a.val, b.val;
    var mean := (x + y) / 2.0;
    assert mean * mean == (x * x + 2.0 * (x * y) + y * y) / 4.0;
    assert (x - y) * (x - y) == x * x - 2.0 * (x * y) + y * y;
    SquareNotNegative(x - y);
  }

  lemma SquareNotNegative(x: real)
    ensures x * x >= 0.0
  {
  }
}
