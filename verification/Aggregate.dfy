/** The simple side: grouping raw points into aligned buckets and aggregating each group. */
module Aggregate {
  import opened Words
  import opened Clock
  import opened Rollup
  import opened Window

  datatype GroupKey = GroupKey(series: SeriesKey, bucket: int)

  datatype RawPoint = RawPoint(series: SeriesKey, obs: Obs)

  ghost predicate Sorted(points: seq<RawPoint>) {
    forall i, j :: 0 <= i < j < |points| ==> points[i].obs.ts <= points[j].obs.ts
  }

  /** The group of a point, aligned in nanoseconds as the aggregation path does. */
  function GroupFor(p: RawPoint, interval: int): GroupKey
    requires interval > 0
  {
    GroupKey(p.series, AlignTime(p.obs.ts * NANOS_PER_MILLI, interval * NANOS_PER_MILLI) / NANOS_PER_MILLI)
  }

  lemma GroupIsBucket(p: RawPoint, interval: int)
    requires interval > 0
    ensures GroupFor(p, interval) == GroupKey(p.series, BucketStart(p.obs.ts, interval))
  {
    AlignTimeIsBucketStart(p.obs.ts, interval);
  }

  /** The points of one group, in the order given. */
  function Members(points: seq<RawPoint>, interval: int, g: GroupKey): seq<Obs>
    requires interval > 0
  {
    if points == [] then []
    else
      var rest, p := Members(points[..|points| - 1], interval, g), points[|points| - 1];
      if GroupFor(p, interval) == g then rest + [p.obs] else rest
  }

  method GroupPoints(points: seq<RawPoint>, interval: int) returns (groups: map<GroupKey, seq<Obs>>)
    requires interval > 0
    ensures forall g :: g in groups <==> Members(points, interval, g) != []
    ensures forall g :: g in groups ==> groups[g] == Members(points, interval, g)
  {
    hide GroupFor;
    groups := map[];
    var i := 0;
    while i < |points|
      invariant 0 <= i <= |points|
      invariant forall g :: g in groups <==> Members(points[..i], interval, g) != []
      invariant forall g :: g in groups ==> groups[g] == Members(points[..i], interval, g)
    {
      assert points[..i + 1][..i] == points[..i];
      var key := GroupFor(points[i], interval);
      var group := if key in groups then groups[key] else [];
      groups := groups[key := group + [points[i].obs]];
      i := i + 1;
    }
    assert points[..i] == points;
  }

  /** One aggregation over one non-empty, time-ordered group, by running sums and extremes. */
  method AggregateValue(points: seq<Obs>, agg: Aggregation) returns (value: real)
    requires points != []
    ensures Aggregates(points, agg, value)
  {
    var n := |points| as real;
    match agg
    case Avg =>
      var sum := SumValues(points);
      return sum / n;
    case Min =>
      value := points[0].val;
      var i := 1;
      while i < |points|
        invariant 1 <= i <= |points|
        invariant exists j :: 0 <= j < i && points[j].val == value
        invariant forall j :: 0 <= j < i ==> value <= points[j].val
      {
        if points[i].val < value { value := points[i].val; }
        i := i + 1;
      }
    case Max =>
      value := points[0].val;
      var i := 1;
      while i < |points|
        invariant 1 <= i <= |points|
        invariant exists j :: 0 <= j < i && points[j].val == value
        invariant forall j :: 0 <= j < i ==> points[j].val <= value
      {
        if points[i].val > value { value := points[i].val; }
        i := i + 1;
      }
    case Sum =>
      value := SumValues(points);
    case Count =>
      return n;
    case First =>
      return points[0].val;
    case Last =>
      return points[|points| - 1].val;
    case Variance =>
      var sum := SumValues(points);
      var mean := sum / n;
      var variance := 0.0;
      var i := 0;
      while i < |points|
        invariant 0 <= i <= |points|
        invariant variance == SquaredDeviation(points[..i], mean)
      {
        assert points[..i + 1][..i] == points[..i];
        variance := variance + Square(points[i].val - mean);
        i := i + 1;
      }
      assert points[..i] == points;
      return variance / n;
  }

  method SumValues(points: seq<Obs>) returns (sum: real)
    ensures sum == SumOf(points)
  {
    sum := 0.0;
    var i := 0;
    while i < |points|
      invariant 0 <= i <= |points|
      invariant sum == SumOf(points[..i])
    {
      assert points[..i + 1][..i] == points[..i];
      sum := sum + points[i].val;
      i := i + 1;
    }
    assert points[..i] == points;
  }

  /** An aggregation has at most one value on a group. */
  lemma AggregatesUnique(s: seq<Obs>, agg: Aggregation, v: real, w: real)
    requires s != [] && Aggregates(s, agg, v) && Aggregates(s, agg, w)
    ensures v == w
  {
    match agg
    case Min | Max =>
      var i :| 0 <= i < |s| && s[i].val == v;
      var j :| 0 <= j < |s| && s[j].val == w;
    case _ =>
  }
}
