/** Traffic increases per client: derived from cumulative counters, batch by batch, with the
    last counters and the last timestamp remembered between batches. */
module Traffic {
  import opened Wrappers

  /** Nanoseconds; zero is the zero time. */
  const ZERO_TIME: int := 0
  const MILLISECOND: int := 1_000_000
  const MAX_RESET_AWARE_DELTA: int := 0x10_0000_0000

  datatype Report = Report(uuid: string, updatedAt: int, totalUp: int, totalDown: int)

  /** The traffic part of what one report writes. */
  datatype Sent = Sent(uuid: string, timestamp: int, up: int, down: int)

  datatype Values = Values(initialized: bool, timestamp: int, hasUp: bool, totalUp: int, hasDown: bool, totalDown: int)

  const UNKNOWN: Values := Values(false, ZERO_TIME, false, 0, false, 0)

  /** The outcome of asking the store for the last counter before a time. */
  datatype Lookup = Failed | Missing | Found(value: int)

  datatype Counters = Counters(up: (string, int) -> Lookup, down: (string, int) -> Lookup)

  type States = map<string, Values>

  // ---- one counter ------------------------------------------------------------------------------

  function TrafficCounterDelta(current: int, previous: int): (delta: int)
    ensures delta >= 0
  {
    if current < 0 || previous < 0 then 0
    else if current >= previous then current - previous
    else if current > MAX_RESET_AWARE_DELTA then 0
    else current
  }

  /** The delta is the plain difference exactly for a counter that did not go back; a counter
      that did go back contributes at most 64 GiB. */
  lemma DeltaIsDifferenceIff(current: int, previous: int)
    ensures TrafficCounterDelta(current, previous) == current - previous
            <==> current == previous || 0 <= previous <= current
    ensures current < previous ==> TrafficCounterDelta(current, previous) <= MAX_RESET_AWARE_DELTA
  {
  }

  // ---- one report --------------------------------------------------------------------------------

  function ValueOf(states: States, uuid: string): Values {
    if uuid in states then states[uuid] else UNKNOWN
  }

  /** The first report of a client asks the store for its last counters. */
  function Restore(v: Values, r: Report, counters: Counters): Values {
    if v.initialized then v
    else
      var withUp := match counters.up(r.uuid, r.updatedAt)
        case Failed => v
        case Missing => v.(totalUp := 0, hasUp := false)
        case Found(n) => v.(totalUp := n, hasUp := true);
      var withDown := match counters.down(r.uuid, r.updatedAt)
        case Failed => withUp
        case Missing => withUp.(totalDown := 0, hasDown := false)
        case Found(n) => withUp.(totalDown := n, hasDown := true);
      withDown.(initialized := true)
  }

  function StampOf(v: Values, r: Report): int {
    if v.timestamp != ZERO_TIME && r.updatedAt <= v.timestamp then v.timestamp + MILLISECOND else r.updatedAt
  }

  function SentOf(v: Values, r: Report): Sent {
    Sent(r.uuid, StampOf(v, r),
         if v.hasUp then TrafficCounterDelta(r.totalUp, v.totalUp) else 0,
         if v.hasDown then TrafficCounterDelta(r.totalDown, v.totalDown) else 0)
  }

  function After(v: Values, r: Report): Values {
    v.(timestamp := StampOf(v, r), hasUp := true, totalUp := r.totalUp, hasDown := true, totalDown := r.totalDown)
  }

  // ---- a list of reports ---------------------------------------------------------------------------

  function StatesAfter(states: States, reports: seq<Report>, counters: Counters): States {
    if reports == [] then states
    else
      var before, r := StatesAfter(states, reports[..|reports| - 1], counters), reports[|reports| - 1];
      before[r.uuid := After(Restore(ValueOf(before, r.uuid), r, counters), r)]
  }

  function SentFor(states: States, reports: seq<Report>, counters: Counters): (sent: seq<Sent>)
    ensures |sent| == |reports|
  {
    if reports == [] then []
    else
      var init, r := reports[..|reports| - 1], reports[|reports| - 1];
      SentFor(states, init, counters) + [SentOf(Restore(ValueOf(StatesAfter(states, init, counters), r.uuid), r, counters), r)]
  }

  function ReportsOf(reports: seq<Report>, c: string): seq<Report> {
    if reports == [] then []
    else
      var rest, r := ReportsOf(reports[..|reports| - 1], c), reports[|reports| - 1];
      if r.uuid == c then rest + [r] else rest
  }

  function Mine(sent: seq<Sent>, c: string): seq<Sent> {
    if sent == [] then []
    else
      var rest, e := Mine(sent[..|sent| - 1], c), sent[|sent| - 1];
      if e.uuid == c then rest + [e] else rest
  }

  function SumUp(sent: seq<Sent>): int {
    if sent == [] then 0 else SumUp(sent[..|sent| - 1]) + sent[|sent| - 1].up
  }

  function SumDown(sent: seq<Sent>): int {
    if sent == [] then 0 else SumDown(sent[..|sent| - 1]) + sent[|sent| - 1].down
  }

  class TrafficStates {
    var states: States

    constructor ()
      ensures states == map[]
    {
      states := map[];
    }

    /** Prepares and writes one batch. The client states move on even when the write fails. */
    method WriteReportBatch(reports: seq<Report>, counters: Counters, storeReady: bool, writeOk: bool)
        returns (prepared: Option<seq<Report>>, points: seq<Sent>)
      modifies this
      ensures !storeReady || reports == [] ==> states == old(states) && points == []
      ensures storeReady && reports != [] ==>
                && (forall c :: ValueOf(states, c) == ValueOf(StatesAfter(old(states), reports, counters), c))
                && points == SentFor(old(states), reports, counters)
                && (prepared.Some? <==> writeOk)
                && (prepared.Some? ==> |prepared.value| == |reports| && forall i :: 0 <= i < |reports| ==>
                      prepared.value[i] == reports[i].(updatedAt := points[i].timestamp))
    {
      hide Restore, StampOf, TrafficCounterDelta, SentFor;
      points := [];
      if |reports| == 0 {
        return Some([]), points;
      }
      if !storeReady {
        return None, points;
      }
      var out := reports;
      var pending: States := map[];
      SentForNothing(states, counters);
      var i := 0;
      while i < |reports|
        invariant 0 <= i <= |reports| && |out| == |reports| && |points| == i && states == old(states)
        invariant forall j :: i <= j < |reports| ==> out[j] == reports[j]
        invariant forall j :: 0 <= j < i ==> out[j] == reports[j].(updatedAt := points[j].timestamp)
        invariant points == SentFor(states, reports[..i], counters)
        invariant forall c :: ValueOf(StatesAfter(states, reports[..i], counters), c)
                              == if c in pending then pending[c] else ValueOf(states, c)
      {
        assert reports[..i + 1][..i] == reports[..i];
        SentForGrow(states, reports, i, counters);
        var report := out[i];
        var known := if report.uuid in pending then pending[report.uuid] else ValueOf(states, report.uuid);
        var values := Restore(known, report, counters);
        var sent := SentOf(values, report);
        points := points + [sent];
        pending := pending[report.uuid := After(values, report)];
        out := out[i := report.(updatedAt := sent.timestamp)];
        i := i + 1;
      }
      assert reports[..i] == reports;
      states := states + pending;
      prepared := if writeOk then Some(out) else None;
    }
  }

  lemma SentForNothing(states: States, counters: Counters)
    ensures SentFor(states, [], counters) == [] && SumUp(SentFor(states, [], counters)) == 0
  {
  }

  lemma SentForGrow(states: States, reports: seq<Report>, i: nat, counters: Counters)
    requires i < |reports|
    ensures var r := reports[i];
            SentFor(states, reports[..i + 1], counters) == SentFor(states, reports[..i], counters)
              + [SentOf(Restore(ValueOf(StatesAfter(states, reports[..i], counters), r.uuid), r, counters), r)]
  {
    assert reports[..i + 1][..i] == reports[..i];
  }

  // ---- batches and other clients do not matter -----------------------------------------------------------

  /** Cutting the reports into batches anywhere changes nothing. */
  lemma {:induction false} BatchesCompose(states: States, a: seq<Report>, b: seq<Report>, counters: Counters)
    ensures StatesAfter(states, a + b, counters) == StatesAfter(StatesAfter(states, a, counters), b, counters)
    ensures SentFor(states, a + b, counters) == SentFor(states, a, counters) + SentFor(StatesAfter(states, a, counters), b, counters)
  {
    hide Restore, SentOf, After;
    if b == [] {
      assert a + b == a;
    } else {
      assert (a + b)[..|a + b| - 1] == a + b[..|b| - 1];
      BatchesCompose(states, a, b[..|b| - 1], counters);
    }
  }

  lemma MinePush(sent: seq<Sent>, e: Sent, c: string)
    ensures Mine(sent + [e], c) == if e.uuid == c then Mine(sent, c) + [e] else Mine(sent, c)
  {
    assert (sent + [e])[..|sent|] == sent;
  }

  /** What a client sends depends on its own reports only. */
  lemma {:induction false} OthersDoNotMatter(states: States, reports: seq<Report>, c: string, counters: Counters)
    ensures ValueOf(StatesAfter(states, reports, counters), c) == ValueOf(StatesAfter(states, ReportsOf(reports, c), counters), c)
    ensures Mine(SentFor(states, reports, counters), c) == SentFor(states, ReportsOf(reports, c), counters)
  {
    hide Restore, After, StampOf, TrafficCounterDelta;
    if reports != [] {
      var init, r := reports[..|reports| - 1], reports[|reports| - 1];
      OthersDoNotMatter(states, init, c, counters);
      var rest := ReportsOf(init, c);
      MinePush(SentFor(states, init, counters),
               SentOf(Restore(ValueOf(StatesAfter(states, init, counters), r.uuid), r, counters), r), c);
      if r.uuid == c {
        assert (rest + [r])[..|rest|] == rest;
      }
    }
  }

  // ---- one client -------------------------------------------------------------------------------------------

  predicate AllFrom(reports: seq<Report>, c: string) {
    forall i :: 0 <= i < |reports| ==> reports[i].uuid == c
  }

  lemma {:induction false} ReportsOfClient(reports: seq<Report>, c: string)
    ensures AllFrom(ReportsOf(reports, c), c)
  {
    if reports != [] {
      ReportsOfClient(reports[..|reports| - 1], c);
    }
  }

  /** The counter a client starts from: restored, remembered, or its own first report. */
  function Baseline(states: States, reports: seq<Report>, counters: Counters): int
    requires reports != []
  {
    var v := Restore(ValueOf(states, reports[0].uuid), reports[0], counters);
    if v.hasUp then v.totalUp else reports[0].totalUp
  }

  predicate Rising(low: int, reports: seq<Report>) {
    0 <= low && (forall i :: 0 <= i < |reports| ==> low <= reports[i].totalUp)
    && forall i, j :: 0 <= i < j < |reports| ==> reports[i].totalUp <= reports[j].totalUp
  }

  predicate NonDecreasing(reports: seq<Report>) {
    (forall i :: 0 <= i < |reports| ==> 0 <= reports[i].totalUp)
    && forall i, j :: 0 <= i < j < |reports| ==> reports[i].totalUp <= reports[j].totalUp
  }

  lemma LastRemembered(states: States, reports: seq<Report>, counters: Counters)
    requires reports != []
    ensures var last := reports[|reports| - 1];
            var v := ValueOf(StatesAfter(states, reports, counters), last.uuid);
            v.initialized && v.hasUp && v.totalUp == last.totalUp
  {
    hide StampOf;
  }

  /** After the first report of a client each further one adds exactly its own increase. */
  lemma {:induction false} ChainSum(states: States, reports: seq<Report>, c: string, counters: Counters)
    requires reports != [] && AllFrom(reports, c) && NonDecreasing(reports)
    ensures SumUp(SentFor(states, reports, counters)) ==
            SentOf(Restore(ValueOf(states, c), reports[0], counters), reports[0]).up
            + reports[|reports| - 1].totalUp - reports[0].totalUp
  {
    hide Restore, SentOf, After, StatesAfter, SentFor, SumUp, AllFrom, NonDecreasing, TrafficCounterDelta;
    var init, last := reports[..|reports| - 1], reports[|reports| - 1];
    OneClientPrefix(reports, c);
    SentForGrow(states, reports, |reports| - 1, counters);
    assert reports[..|reports|] == reports;
    var v := ValueOf(StatesAfter(states, init, counters), c);
    SumUpPush(SentFor(states, init, counters), SentOf(Restore(v, last, counters), last));
    if init == [] {
      SentForNothing(states, counters);
      StatesAfterNothing(states, counters);
    } else {
      var before := init[|init| - 1];
      ChainSum(states, init, c, counters);
      LastRemembered(states, init, counters);
      KnownDelta(v, last, counters);
      DeltaIsDifferenceIff(last.totalUp, before.totalUp);
    }
  }

  lemma OneClientPrefix(reports: seq<Report>, c: string)
    requires reports != [] && AllFrom(reports, c) && NonDecreasing(reports)
    ensures var init, last := reports[..|reports| - 1], reports[|reports| - 1];
            && AllFrom(init, c) && NonDecreasing(init) && last.uuid == c
            && (init != [] ==> init[0] == reports[0] && init[|init| - 1].uuid == c
                               && 0 <= init[|init| - 1].totalUp <= last.totalUp)
  {
  }

  lemma StatesAfterNothing(states: States, counters: Counters)
    ensures StatesAfter(states, [], counters) == states
  {
  }

  lemma KnownDelta(v: Values, r: Report, counters: Counters)
    requires v.initialized && v.hasUp
    ensures SentOf(Restore(v, r, counters), r).up == TrafficCounterDelta(r.totalUp, v.totalUp)
  {
  }

  lemma RisingSum(states: States, reports: seq<Report>, c: string, counters: Counters)
    requires reports != [] && AllFrom(reports, c) && Rising(Baseline(states, reports, counters), reports)
    ensures SumUp(SentFor(states, reports, counters)) == reports[|reports| - 1].totalUp - Baseline(states, reports, counters)
  {
    hide Restore, StampOf;
    ChainSum(states, reports, c, counters);
  }

  lemma SumUpPush(sent: seq<Sent>, e: Sent)
    ensures SumUp(sent + [e]) == SumUp(sent) + e.up
  {
    assert (sent + [e])[..|sent|] == sent;
  }

  /** For nondecreasing counters the upload increases a client sends add up to its last total
      minus its baseline, whatever other clients report in between. */
  lemma UploadTelescopes(states: States, reports: seq<Report>, c: string, counters: Counters)
    requires var mine := ReportsOf(reports, c); mine != [] && Rising(Baseline(states, mine, counters), mine)
    ensures var mine := ReportsOf(reports, c);
            SumUp(Mine(SentFor(states, reports, counters), c)) == mine[|mine| - 1].totalUp - Baseline(states, mine, counters)
  {
    hide Rising, Baseline;
    var mine := ReportsOf(reports, c);
    ReportsOfClient(reports, c);
    OthersDoNotMatter(states, reports, c, counters);
    RisingSum(states, mine, c, counters);
  }

  /** Downloads are uploads with the two counters exchanged. */
  function Flip(r: Report): Report {
    Report(r.uuid, r.updatedAt, r.totalDown, r.totalUp)
  }

  function FlipAll(reports: seq<Report>): (flipped: seq<Report>)
    ensures |flipped| == |reports| && forall i :: 0 <= i < |reports| ==> flipped[i] == Flip(reports[i])
  {
    seq(|reports|, i requires 0 <= i < |reports| => Flip(reports[i]))
  }

  function FlipValues(v: Values): Values {
    Values(v.initialized, v.timestamp, v.hasDown, v.totalDown, v.hasUp, v.totalUp)
  }

  function FlipStates(states: States): States {
    map c | c in states :: FlipValues(states[c])
  }

  function FlipCounters(counters: Counters): Counters {
    Counters(counters.down, counters.up)
  }

  function FlipSent(e: Sent): Sent {
    Sent(e.uuid, e.timestamp, e.down, e.up)
  }

  lemma FlipRestore(v: Values, r: Report, counters: Counters)
    ensures Restore(FlipValues(v), Flip(r), FlipCounters(counters)) == FlipValues(Restore(v, r, counters))
  {
  }

  lemma FlipStep(states: States, r: Report, counters: Counters)
    ensures var v, flipped := Restore(ValueOf(states, r.uuid), r, counters),
                Restore(ValueOf(FlipStates(states), r.uuid), Flip(r), FlipCounters(counters));
            && SentOf(flipped, Flip(r)) == FlipSent(SentOf(v, r))
            && FlipStates(states)[r.uuid := After(flipped, Flip(r))] == FlipStates(states[r.uuid := After(v, r)])
  {
    hide Restore, TrafficCounterDelta;
    FlipRestore(ValueOf(states, r.uuid), r, counters);
    assert ValueOf(FlipStates(states), r.uuid) == FlipValues(ValueOf(states, r.uuid));
  }

  lemma {:induction false} FlipRun(states: States, reports: seq<Report>, counters: Counters)
    ensures StatesAfter(FlipStates(states), FlipAll(reports), FlipCounters(counters)) == FlipStates(StatesAfter(states, reports, counters))
    ensures SumUp(SentFor(FlipStates(states), FlipAll(reports), FlipCounters(counters))) == SumDown(SentFor(states, reports, counters))
  {
    hide Restore, SentOf, After, FlipStates;
    if reports != [] {
      var init, r := reports[..|reports| - 1], reports[|reports| - 1];
      assert FlipAll(reports)[..|reports| - 1] == FlipAll(init);
      FlipRun(states, init, counters);
      var v := ValueOf(StatesAfter(states, init, counters), r.uuid);
      FlipStep(StatesAfter(states, init, counters), r, counters);
      SumUpPush(SentFor(FlipStates(states), FlipAll(init), FlipCounters(counters)),
                FlipSent(SentOf(Restore(v, r, counters), r)));
      SumDownPush(SentFor(states, init, counters), SentOf(Restore(v, r, counters), r));
    }
  }

  lemma SumDownPush(sent: seq<Sent>, e: Sent)
    ensures SumDown(sent + [e]) == SumDown(sent) + e.down
  {
    assert (sent + [e])[..|sent|] == sent;
  }

  /** The same holds for downloads. */
  lemma DownloadTelescopes(states: States, reports: seq<Report>, c: string, counters: Counters)
    requires var mine := FlipAll(ReportsOf(reports, c));
             mine != [] && Rising(Baseline(FlipStates(states), mine, FlipCounters(counters)), mine)
    ensures var mine := ReportsOf(reports, c);
            SumDown(Mine(SentFor(states, reports, counters), c))
            == mine[|mine| - 1].totalDown - Baseline(FlipStates(states), FlipAll(mine), FlipCounters(counters))
  {
    hide Rising, Baseline;
    var mine := ReportsOf(reports, c);
    ReportsOfClient(reports, c);
    OthersDoNotMatter(states, reports, c, counters);
    FlipRun(states, mine, counters);
    RisingSum(FlipStates(states), FlipAll(mine), c, FlipCounters(counters));
  }

  /** The timestamps a client sends strictly increase and stay above the remembered one, as long
      as no report carries a time at or before the zero time. */
  lemma {:induction false} StampsIncrease(states: States, reports: seq<Report>, c: string, counters: Counters)
    requires AllFrom(reports, c) && ValueOf(states, c).timestamp >= ZERO_TIME
    requires forall i :: 0 <= i < |reports| ==> reports[i].updatedAt > ZERO_TIME
    ensures var sent := SentFor(states, reports, counters);
            && (forall i, j :: 0 <= i < j < |sent| ==> sent[i].timestamp < sent[j].timestamp)
            && (forall i :: 0 <= i < |sent| ==> ValueOf(states, c).timestamp < sent[i].timestamp)
            && ValueOf(StatesAfter(states, reports, counters), c).timestamp
               == if sent == [] then ValueOf(states, c).timestamp else sent[|sent| - 1].timestamp
  {
    hide TrafficCounterDelta;
    if reports != [] {
      var init, r := reports[..|reports| - 1], reports[|reports| - 1];
      StampsIncrease(states, init, c, counters);
      RestoreKeepsStamp(ValueOf(StatesAfter(states, init, counters), c), r, counters);
      LastIsLatest(SentFor(states, init, counters));
    }
  }

  lemma RestoreKeepsStamp(v: Values, r: Report, counters: Counters)
    ensures Restore(v, r, counters).timestamp == v.timestamp
  {
  }

  lemma LastIsLatest(sent: seq<Sent>)
    requires forall i, j :: 0 <= i < j < |sent| ==> sent[i].timestamp < sent[j].timestamp
    ensures forall i :: 0 <= i < |sent| ==> sent[i].timestamp <= sent[|sent| - 1].timestamp
  {
  }

  /** The same for every client of an interleaved run. */
  lemma ClientStampsIncrease(states: States, reports: seq<Report>, c: string, counters: Counters)
    requires ValueOf(states, c).timestamp >= ZERO_TIME
    requires forall i :: 0 <= i < |ReportsOf(reports, c)| ==> ReportsOf(reports, c)[i].updatedAt > ZERO_TIME
    ensures var sent := Mine(SentFor(states, reports, counters), c);
            forall i, j :: 0 <= i < j < |sent| ==> sent[i].timestamp < sent[j].timestamp
  {
    ReportsOfClient(reports, c);
    OthersDoNotMatter(states, reports, c, counters);
    StampsIncrease(states, ReportsOf(reports, c), c, counters);
  }

  // ---- failed writes ------------------------------------------------------------------------------------------

  /** What a retry sends up to the total `end`: its first report meets the last counter of the
      failed batch, and a smaller total looks like a counter reset. */
  function RetrySum(first: int, last: int, end: int): int {
    (if first == last || first > MAX_RESET_AWARE_DELTA then 0 else first) + (end - first)
  }

  /** One client: the failed part, then the failed part again with more behind it. */
  lemma RetriedClient(states: States, failed: seq<Report>, later: seq<Report>, c: string, counters: Counters)
    requires failed != [] && AllFrom(failed + later, c) && NonDecreasing(failed + later)
    ensures var all := failed + later;
            SumUp(SentFor(StatesAfter(states, failed, counters), all, counters))
            == RetrySum(failed[0].totalUp, failed[|failed| - 1].totalUp, all[|all| - 1].totalUp)
  {
    hide Restore, StampOf, StatesAfter;
    var after, all := StatesAfter(states, failed, counters), failed + later;
    assert failed[|failed| - 1] == all[|failed| - 1] && failed[0] == all[0];
    LastRemembered(states, failed, counters);
    KnownDelta(ValueOf(after, c), all[0], counters);
    ChainSum(after, all, c, counters);
  }

  /** What a client sends depends on its own remembered values only. */
  lemma {:induction false} OwnValuesDecide(a: States, b: States, reports: seq<Report>, c: string, counters: Counters)
    requires AllFrom(reports, c) && ValueOf(a, c) == ValueOf(b, c)
    ensures SentFor(a, reports, counters) == SentFor(b, reports, counters)
    ensures ValueOf(StatesAfter(a, reports, counters), c) == ValueOf(StatesAfter(b, reports, counters), c)
  {
    hide Restore, SentOf, After;
    if reports != [] {
      OwnValuesDecide(a, b, reports[..|reports| - 1], c, counters);
    }
  }

  lemma {:induction false} ReportsOfConcat(a: seq<Report>, b: seq<Report>, c: string)
    ensures ReportsOf(a + b, c) == ReportsOf(a, c) + ReportsOf(b, c)
  {
    if b == [] {
      assert a + b == a;
    } else {
      assert (a + b)[..|a + b| - 1] == a + b[..|b| - 1];
      ReportsOfConcat(a, b[..|b| - 1], c);
    }
  }

  /** A failed batch is retried together with whatever is pending by then, and may have failed any
      number of times before. For a client in the failed batch the increases sent add up to its
      last total minus what the store last held, `base`, exactly when `base` is zero, or the
      client's first failed total where that is also its last failed one or is too large to look
      like a reset. */
  lemma RetryRightIff(states: States, failed: seq<Report>, later: seq<Report>, c: string, counters: Counters, base: int)
    requires ReportsOf(failed, c) != [] && NonDecreasing(ReportsOf(failed + later, c))
    ensures var mine, all := ReportsOf(failed, c), ReportsOf(failed + later, c);
            var first, last := mine[0].totalUp, mine[|mine| - 1].totalUp;
            all != [] &&
            (SumUp(Mine(SentFor(StatesAfter(states, failed, counters), failed + later, counters), c)) == all[|all| - 1].totalUp - base
             <==> base == if first == last || first > MAX_RESET_AWARE_DELTA then first else 0)
  {
    hide NonDecreasing, Restore, SentOf, After, StatesAfter, SentFor, Mine, SumUp, ReportsOf, ValueOf;
    var mine, more, after := ReportsOf(failed, c), ReportsOf(later, c), StatesAfter(states, failed, counters);
    ReportsOfConcat(failed, later, c);
    ReportsOfClient(failed, c);
    ReportsOfClient(failed + later, c);
    OthersDoNotMatter(states, failed, c, counters);
    OthersDoNotMatter(after, failed + later, c, counters);
    OwnValuesDecide(after, StatesAfter(states, mine, counters), mine + more, c, counters);
    RetriedClient(states, mine, more, c, counters);
  }

  /** A client that had no report in the failed batch is not affected by its failure. */
  lemma RetrySparesOthers(states: States, failed: seq<Report>, later: seq<Report>, c: string, counters: Counters)
    requires ReportsOf(failed, c) == [] && ReportsOf(later, c) != []
    requires Rising(Baseline(states, ReportsOf(later, c), counters), ReportsOf(later, c))
    ensures var all := ReportsOf(later, c);
            SumUp(Mine(SentFor(StatesAfter(states, failed, counters), failed + later, counters), c))
            == all[|all| - 1].totalUp - Baseline(states, all, counters)
  {
    hide Rising, Baseline, Restore, SentOf, After, StatesAfter, SentFor, Mine, SumUp, ReportsOf, ValueOf;
    var all, after := ReportsOf(later, c), StatesAfter(states, failed, counters);
    ReportsOfConcat(failed, later, c);
    assert ReportsOf(failed + later, c) == all;
    ReportsOfClient(later, c);
    StatesAfterNothing(states, counters);
    OthersDoNotMatter(states, failed, c, counters);
    OthersDoNotMatter(after, failed + later, c, counters);
    OwnValuesDecide(after, states, all, c, counters);
    RisingSum(states, all, c, counters);
  }

  /** A client whose counter stood at 5 reports 10 and 30. The retry of its failed batch stores 30
      instead of 25. */
  lemma RetryStoresTooMuch(time: int)
    ensures var counters := Counters((_, _) => Found(5), (_, _) => Found(5));
            var reports := [Report("node", time, 10, 10), Report("node", time + 1, 30, 30)];
            && SumUp(Mine(SentFor(map[], reports, counters), "node")) == 25
            && SumUp(Mine(SentFor(StatesAfter(map[], reports, counters), reports, counters), "node")) == 30
  {
    var counters := Counters((_, _) => Found(5), (_, _) => Found(5));
    var reports := [Report("node", time, 10, 10), Report("node", time + 1, 30, 30)];
    var one := [reports[0]];
    assert reports[..1] == one && one[..0] == [];
    assert ReportsOf(one, "node") == one && ReportsOf(reports, "node") == reports;
    assert Baseline(map[], reports, counters) == 5;
    OthersDoNotMatter(map[], reports, "node", counters);
    RisingSum(map[], reports, "node", counters);
    var after := StatesAfter(map[], reports, counters);
    OthersDoNotMatter(after, reports, "node", counters);
    assert reports + [] == reports;
    RetriedClient(map[], reports, [], "node", counters);
  }
}
