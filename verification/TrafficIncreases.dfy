/** Every single increase that is sent, in terms of the reports and the stored counters. */
module TrafficIncreases {
  import opened Wrappers
  import opened Traffic

  /** A reset-aware increase: the difference of a counter that did not go back, else the counter
      itself, unless it is above 64 GiB; an invalid counter adds nothing. */
  predicate IsIncrease(delta: int, current: int, previous: int) {
    && (current < 0 || previous < 0 ==> delta == 0)
    && (0 <= previous <= current ==> delta == current - previous)
    && (0 <= current < previous ==> delta == if current > 68_719_476_736 then 0 else current)
  }

  /** An increase over what the store last held; nothing when it holds nothing or cannot say. */
  predicate IsFirstIncrease(delta: int, current: int, last: Lookup) {
    match last
    case Found(n) => IsIncrease(delta, current, n)
    case _ => delta == 0
  }

  lemma DeltaIsIncrease(current: int, previous: int)
    ensures IsIncrease(TrafficCounterDelta(current, previous), current, previous)
  {
  }

  /** Report `j` is the one before `i` from the same client. */
  predicate Precedes(reports: seq<Report>, j: int, i: int) {
    0 <= j < i < |reports| && reports[j].uuid == reports[i].uuid
    && forall k :: j < k < i ==> reports[k].uuid != reports[i].uuid
  }

  predicate IsFirst(reports: seq<Report>, i: int) {
    0 <= i < |reports| && forall k :: 0 <= k < i ==> reports[k].uuid != reports[i].uuid
  }

  function ValueAt(states: States, reports: seq<Report>, counters: Counters, i: int): Values
    requires 0 <= i < |reports|
  {
    Restore(ValueOf(StatesAfter(states, reports[..i], counters), reports[i].uuid), reports[i], counters)
  }

  lemma {:induction false} SentAt(states: States, reports: seq<Report>, counters: Counters, i: int)
    requires 0 <= i < |reports|
    ensures SentFor(states, reports, counters)[i] == SentOf(ValueAt(states, reports, counters, i), reports[i])
  {
    hide Restore, SentOf, After, StatesAfter;
    var init := reports[..|reports| - 1];
    if i < |init| {
      SentAt(states, init, counters, i);
      assert init[..i] == reports[..i];
    }
  }

  /** Reports of others leave a client's state alone. */
  lemma {:induction false} StateKept(states: States, reports: seq<Report>, counters: Counters, lo: int, hi: int, c: string)
    requires 0 <= lo <= hi <= |reports| && forall k :: lo <= k < hi ==> reports[k].uuid != c
    ensures ValueOf(StatesAfter(states, reports[..hi], counters), c) == ValueOf(StatesAfter(states, reports[..lo], counters), c)
    decreases hi - lo
  {
    hide Restore, After;
    if lo < hi {
      assert reports[..hi][..hi - 1] == reports[..hi - 1];
      StateKept(states, reports, counters, lo, hi - 1, c);
    }
  }

  lemma StateAfterOwn(states: States, reports: seq<Report>, counters: Counters, j: int)
    requires 0 <= j < |reports|
    ensures ValueOf(StatesAfter(states, reports[..j + 1], counters), reports[j].uuid)
            == After(ValueAt(states, reports, counters, j), reports[j])
  {
    hide Restore, After;
    assert reports[..j + 1][..j] == reports[..j];
  }

  /** The first report of a client nothing is remembered of: its increases are those over the counters
      the store last held before it, upload and download each over its own, at its own time. */
  lemma FirstIncrease(states: States, reports: seq<Report>, counters: Counters, i: int)
    requires IsFirst(reports, i) && reports[i].uuid !in states
    ensures var r, e := reports[i], SentFor(states, reports, counters)[i];
            && e.uuid == r.uuid && e.timestamp == r.updatedAt
            && IsFirstIncrease(e.up, r.totalUp, counters.up(r.uuid, r.updatedAt))
            && IsFirstIncrease(e.down, r.totalDown, counters.down(r.uuid, r.updatedAt))
  {
    hide After, StatesAfter, SentFor, TrafficCounterDelta, IsIncrease;
    var r := reports[i];
    SentAt(states, reports, counters, i);
    StateKept(states, reports, counters, 0, i, r.uuid);
    assert reports[..0] == [];
    StatesAfterNothing(states, counters);
    var v := ValueAt(states, reports, counters, i);
    DeltaIsIncrease(r.totalUp, v.totalUp);
    DeltaIsIncrease(r.totalDown, v.totalDown);
  }

  /** Every later report of the client: its increases are those over the report before, at a later time
      than that one was sent at. */
  lemma NextIncrease(states: States, reports: seq<Report>, counters: Counters, j: int, i: int)
    requires Precedes(reports, j, i)
    ensures var r, before := reports[i], reports[j];
            var e, sent := SentFor(states, reports, counters)[i], SentFor(states, reports, counters)[j].timestamp;
            && e.uuid == r.uuid
            && IsIncrease(e.up, r.totalUp, before.totalUp) && IsIncrease(e.down, r.totalDown, before.totalDown)
            && e.timestamp == if sent != ZERO_TIME && r.updatedAt <= sent then sent + 1_000_000 else r.updatedAt
  {
    hide StatesAfter, SentFor, TrafficCounterDelta, IsIncrease;
    var r := reports[i];
    SentAt(states, reports, counters, i);
    SentAt(states, reports, counters, j);
    StateKept(states, reports, counters, j + 1, i, r.uuid);
    StateAfterOwn(states, reports, counters, j);
    RememberedKept(After(ValueAt(states, reports, counters, j), reports[j]), r, counters);
    DeltaIsIncrease(r.totalUp, reports[j].totalUp);
    DeltaIsIncrease(r.totalDown, reports[j].totalDown);
  }

  lemma RememberedKept(v: Values, r: Report, counters: Counters)
    ensures v.initialized ==> Restore(v, r, counters) == v
    ensures Restore(v, r, counters).initialized
  {
  }
}
