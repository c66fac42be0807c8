/** The coarse table as the program runs it: minutes staged under open parents, due parents
    sealed one tier at a time, from the finest up, and written once. */
module Coarse {
  import opened Clock
  import opened Rollup
  import opened Window
  import opened CoarseSpec
  import opened CoarseInvariant
  import opened CoarseSteps
  import opened CoarseSeal
  import opened CoarseMerge

  datatype ClosedParent = ClosedParent(key: ParentKey, bucket: Summary, higher: seq<int>, children: Buckets)

  function KeysIn(closed: seq<ClosedParent>): (keys: seq<ParentKey>)
    ensures |keys| == |closed| && forall i :: 0 <= i < |closed| ==> keys[i] == closed[i].key
  {
    seq(|closed|, i requires 0 <= i < |closed| => closed[i].key)
  }

  /** `item` is an open parent as it was taken, with its content merged. */
  ghost predicate TakenFrom(item: ClosedParent, st: CoarseState) {
    && item.key in st.parents && st.parents[item.key] == Parent(item.higher, item.children)
    && item.bucket == Content(st.staged, item.key.cell, item.key.interval)
  }

  ghost predicate AllTaken(closed: seq<ClosedParent>, st: CoarseState) {
    forall i :: 0 <= i < |closed| ==> TakenFrom(closed[i], st)
  }

  // ---- staging on values ------------------------------------------------------------------------

  function StageAll(parents: Parents, interval: int, higher: seq<int>, order: seq<HotKey>, children: Buckets): Parents {
    if order == [] then parents
    else
      var c := order[|order| - 1];
      StageChild(StageAll(parents, interval, higher, order[..|order| - 1], children), interval, higher, c, BucketOf(children, c))
  }

  lemma NothingToStage(parents: Parents, interval: int, higher: seq<int>, children: Buckets)
    ensures StageAll(parents, interval, higher, [], children) == parents
  {
  }

  lemma StageAllPush(parents: Parents, interval: int, higher: seq<int>, order: seq<HotKey>, c: HotKey, children: Buckets)
    ensures StageAll(parents, interval, higher, order + [c], children)
            == StageChild(StageAll(parents, interval, higher, order, children), interval, higher, c, BucketOf(children, c))
  {
    hide StageChild;
    assert (order + [c])[..|order|] == order;
  }

  ghost function StageMinutes(ladders: Ladders, st: CoarseState, order: seq<HotKey>, minutes: Buckets): CoarseState
    requires forall i :: 0 <= i < |order| ==> |LadderOf(ladders, order[i])| >= 2
  {
    if order == [] then st
    else
      var m := order[|order| - 1];
      StageMinute(ladders, StageMinutes(ladders, st, order[..|order| - 1], minutes), m, BucketOf(minutes, m))
  }

  /** Whether a minute is handed on: its first parent is not due yet. */
  predicate Eligible(l: seq<int>, m: HotKey, now: int) {
    |l| >= 2 && !Due(ParentOf(m, l[1]), now)
  }

  /** The minutes of a flush that are handed on. */
  function Handed(minutes: Buckets, l: seq<int>, now: int): Buckets {
    map m | m in minutes && Eligible(l, m, now) :: minutes[m]
  }

  ghost predicate AllAccepted(ladders: Ladders, order: seq<HotKey>, minutes: Buckets, clock: int) {
    forall i :: 0 <= i < |order| ==> order[i] in minutes && Accepts(ladders, order[i], minutes[order[i]], clock)
  }

  lemma {:induction false} StageMinutesKeepInv(ladders: Ladders, st: CoarseState, clock: int, order: seq<HotKey>, minutes: Buckets)
    requires ValidLadders(ladders) && Inv(ladders, st, clock, {}) && AllAccepted(ladders, order, minutes, clock)
    ensures Inv(ladders, StageMinutes(ladders, st, order, minutes), clock, {})
  {
    hide Inv, StageMinute, Due;
    if order != [] {
      var init := order[..|order| - 1];
      StageMinutesKeepInv(ladders, st, clock, init, minutes);
      StageKeepsInv(ladders, StageMinutes(ladders, st, init, minutes), clock, order[|order| - 1], minutes[order[|order| - 1]]);
    }
  }

  /** On one ladder, staging minutes one by one is what the table does to its parents. */
  lemma {:induction false} StageMinutesParents(ladders: Ladders, l: seq<int>, st: CoarseState, order: seq<HotKey>, minutes: Buckets)
    requires |l| >= 2 && forall i :: 0 <= i < |order| ==> LadderOf(ladders, order[i]) == l
    ensures StageMinutes(ladders, st, order, minutes).parents == StageAll(st.parents, l[1], l[2..], order, minutes)
    ensures StageMinutes(ladders, st, order, minutes).rows == st.rows && StageMinutes(ladders, st, order, minutes).log == st.log
  {
    hide StageChild;
    if order != [] {
      StageMinutesParents(ladders, l, st, order[..|order| - 1], minutes);
    }
  }

  /** The last staged version of every minute: the new one where it was handed on. */
  function Restaged(staged: Buckets, minutes: Buckets): Buckets {
    map m | m in staged.Keys + minutes.Keys && (m in minutes ==> minutes[m].count != 0) ::
      if m in minutes then minutes[m] else staged[m]
  }

  function Listed(minutes: Buckets, order: seq<HotKey>): Buckets {
    map m | m in minutes && m in order :: minutes[m]
  }

  lemma {:induction false} StageMinutesStaged(ladders: Ladders, st: CoarseState, order: seq<HotKey>, minutes: Buckets)
    requires forall i :: 0 <= i < |order| ==> |LadderOf(ladders, order[i])| >= 2 && order[i] in minutes
    ensures StageMinutes(ladders, st, order, minutes).staged == Restaged(st.staged, Listed(minutes, order))
  {
    hide StageChild, Restaged;
    if order == [] {
      NothingStaged(st.staged, Listed(minutes, order));
    } else {
      var init, last := order[..|order| - 1], order[|order| - 1];
      StageMinutesStaged(ladders, st, init, minutes);
      assert order == init + [last];
      var before := Listed(minutes, init);
      assert Listed(minutes, order) == before[last := minutes[last]];
      RestagedStep(st.staged, before, last, minutes[last]);
    }
  }

  lemma RestagedStep(staged: Buckets, minutes: Buckets, m: HotKey, b: Summary)
    ensures Restaged(staged, minutes[m := b]) ==
            if b.count == 0 then Restaged(staged, minutes) - {m} else Restaged(staged, minutes)[m := b]
  {
  }

  predicate StillOn(policy: Ladders, item: ClosedParent) {
    item.key.interval in policy(item.key.cell.series.metricName)
  }

  class CoarseTable {
    const ladders: Ladders
    ghost const levels: set<int>
    var parents: Parents
    var rows: map<ParentKey, Summary>
    // For the proof: the last staged minutes, the order of persisting, and the latest clock reading.
    ghost var staged: Buckets
    ghost var log: seq<ParentKey>
    ghost var clock: int

    ghost function Snapshot(): CoarseState
      reads this
    {
      CoarseState(parents, rows, staged, log)
    }

    ghost predicate Valid()
      reads this
    {
      ValidLadders(ladders) && Inv(ladders, Snapshot(), clock, {})
    }

    constructor (ladders: Ladders, ghost levels: set<int>)
      requires ValidLadders(ladders)
      ensures Valid() && Snapshot() == NOTHING && clock == 0 && this.ladders == ladders && this.levels == levels
    {
      this.ladders, this.levels := ladders, levels;
      parents, rows := map[], map[];
      staged, log, clock := map[], [], 0;
      new;
      NothingInv(ladders, 0);
    }

    // ---- staging ---------------------------------------------------------------------------------

    /** Puts the children under their parents, creating and removing parents as needed. */
    method AddChildren(interval: int, higher: seq<int>, children: Buckets) returns (ghost order: seq<HotKey>)
      modifies this`parents
      ensures Enumerates(order, children.Keys)
      ensures parents == StageAll(old(parents), interval, higher, order, children)
    {
      hide StageChild, StageAll;
      order := [];
      NothingToStage(parents, interval, higher, children);
      var left := children.Keys;
      while left != {}
        invariant left <= children.Keys && Enumerates(order, children.Keys - left)
        invariant parents == StageAll(old(parents), interval, higher, order, children)
        decreases left
      {
        var c :| c in left;
        AddChild(interval, higher, c, children[c]);
        StageAllPush(old(parents), interval, higher, order, c, children);
        order := order + [c];
        left := left - {c};
      }
      assert children.Keys - left == children.Keys;
    }

    method AddChild(interval: int, higher: seq<int>, c: HotKey, child: Summary)
      modifies this`parents
      ensures parents == StageChild(old(parents), interval, higher, c, child)
    {
      var p := ParentKey(interval, c.(bucket := BucketStart(c.bucket, interval)));
      if child.count == 0 {
        if p in parents {
          parents := parents[p := parents[p].(children := parents[p].children - {c})];
          if parents[p].children == map[] {
            parents := parents - {p};
          }
        }
        return;
      }
      if p !in parents {
        parents := parents[p := Parent(higher, map[])];
      }
      parents := parents[p := parents[p].(children := parents[p].children[c := child])];
    }

    /** Stages the minutes just flushed for one metric; a minute whose parent is already due
        stays out, so that a sealed parent never changes. */
    method AddMinuteParents(metricName: string, minutes: Buckets, now: int)
      requires Valid() && clock <= now && GRACE <= now
      requires forall m :: m in minutes ==> m.series.metricName == metricName && m.bucket % MINUTE == 0 && WellFormed(minutes[m])
      modifies this`parents, this`staged, this`clock
      ensures Valid() && clock == now
      ensures staged == Restaged(old(staged), Handed(minutes, ladders(metricName), now))
    {
      hide Inv, StageAll, Restaged, Handed;
      LaterInv(ladders, Snapshot(), clock, now, {});
      clock := now;
      var l := ladders(metricName);
      if |l| < 2 || |minutes| == 0 {
        NothingEligible(staged, minutes, l, now);
        return;
      }
      var eligible := Handed(minutes, l, now);
      if |eligible| == 0 {
        NothingStaged(staged, eligible);
        return;
      }
      ghost var st := Snapshot();
      ghost var order := AddChildren(l[1], l[2..], eligible);
      MinutesStaged(ladders, st, clock, metricName, order, minutes);
      staged := Restaged(staged, eligible);
    }

    // ---- sealing ---------------------------------------------------------------------------------

    /** The smallest interval among due parents, or zero when nothing is due. */
    method SmallestDueInterval(now: int) returns (interval: int)
      requires forall p :: p in parents ==> p.interval > 0
      ensures interval == 0 ==> forall p :: p in parents ==> !Due(p, now)
      ensures interval != 0 ==> interval > 0 && exists p :: p in parents && Due(p, now) && p.interval == interval
      ensures interval != 0 ==> SmallestDue(Snapshot(), now, interval)
    {
      interval := 0;
      var left := parents.Keys;
      while left != {}
        invariant left <= parents.Keys && interval >= 0
        invariant interval == 0 ==> forall p :: p in parents && p !in left ==> !Due(p, now)
        invariant interval != 0 ==> exists p :: p in parents && Due(p, now) && p.interval == interval
        invariant interval != 0 ==> forall p :: p in parents && p !in left && Due(p, now) ==> p.interval >= interval
        decreases left
      {
        var p :| p in left;
        if Due(p, now) && (interval == 0 || p.interval < interval) {
          interval := p.interval;
        }
        left := left - {p};
      }
    }

    /** Merges the children of one open parent that is about to be sealed. */
    method MergeParent(p: ParentKey, now: int) returns (bucket: Summary)
      requires Valid() && clock <= now && p in parents && Due(p, now) && SmallestDue(Snapshot(), now, p.interval)
      ensures bucket == Content(staged, p.cell, p.interval) && bucket.count != 0
    {
      hide Inv, Content, Due, SmallestDue, Slots;
      ClosingContent(ladders, Snapshot(), clock, p, now);
      ClosingPositive(ladders, Snapshot(), clock, now, p);
      ChildrenSound(ladders, Snapshot(), clock, p);
      ghost var f := Finer(ladders, p);
      ChildrenOnSlots(ladders, Snapshot(), clock, p);
      bucket := MergeChildren(parents[p].children, p.cell, p.cell.bucket, p.cell.bucket + p.interval, f);
      assert bucket == Slots(parents[p].children, p.cell, p.cell.bucket, p.cell.bucket + p.interval, Finer(ladders, p));
    }

    /** Takes every due parent of the smallest due interval out of the table. */
    method TakeClosed(now: int) returns (closed: seq<ClosedParent>, ghost interval: int)
      requires Valid() && clock <= now
      modifies this`parents
      ensures closed == [] ==> parents == old(parents) && forall p :: p in parents ==> !Due(p, now)
      ensures closed != [] ==> SmallestDue(old(Snapshot()), now, interval) && 0 < interval
      ensures closed != [] ==> Lists(KeysIn(closed), Closing(old(parents), interval, now))
      ensures closed != [] ==> parents == old(parents) - Closing(old(parents), interval, now)
      ensures AllTaken(closed, old(Snapshot()))
    {
      hide Inv, Content, Due, SmallestDue;
      closed := [];
      IntervalsPositive(ladders, Snapshot(), clock);
      var smallest := SmallestDueInterval(now);
      interval := smallest;
      if smallest == 0 {
        return;
      }
      var closing := Closing(parents, smallest, now);
      ghost var due :| due in parents && Due(due, now) && due.interval == smallest;
      assert due in closing;
      var left := closing;
      while left != {}
        modifies {}
        invariant left <= closing && Lists(KeysIn(closed), closing - left)
        invariant AllTaken(closed, Snapshot())
        decreases left
      {
        var p :| p in left;
        var bucket := MergeParent(p, now);
        if bucket.count != 0 {
          var item := ClosedParent(p, bucket, parents[p].higher, parents[p].children);
          assert KeysIn(closed + [item]) == KeysIn(closed) + [p];
          closed := closed + [item];
        }
        left := left - {p};
      }
      assert closing - left == closing;
      SomethingTaken(closed, closing);
      parents := parents - closing;
    }

    /** Puts taken parents back, unless their key is open again. */
    method RestoreClosed(closed: seq<ClosedParent>)
      modifies this`parents
      ensures parents == RestoreParents(old(parents), closed)
    {
      var i := 0;
      while i < |closed|
        invariant 0 <= i <= |closed|
        invariant parents == RestoreParents(old(parents), closed[..i])
      {
        assert closed[..i + 1][..i] == closed[..i];
        if closed[i].key !in parents {
          parents := parents[closed[i].key := Parent(closed[i].higher, closed[i].children)];
        }
        i := i + 1;
      }
      assert closed[..i] == closed;
    }

    /** Keeps exactly the parents whose interval the current policy of their metric still has. */
    method FilterClosed(closed: seq<ClosedParent>, policy: Ladders) returns (filtered: seq<ClosedParent>)
      ensures forall item :: item in filtered <==>
                item in closed && item.key.interval in policy(item.key.cell.series.metricName)
      ensures (forall i :: 0 <= i < |closed| ==> StillOn(policy, closed[i])) ==> filtered == closed
    {
      filtered := [];
      var i := 0;
      while i < |closed|
        invariant 0 <= i <= |closed|
        invariant forall item :: item in filtered <==> item in closed[..i] && StillOn(policy, item)
        invariant (forall j :: 0 <= j < i ==> StillOn(policy, closed[j])) ==> filtered == closed[..i]
      {
        assert closed[..i + 1] == closed[..i] + [closed[i]];
        if StillOn(policy, closed[i]) {
          filtered := filtered + [closed[i]];
        }
        i := i + 1;
      }
      assert closed[..i] == closed;
    }

    /** Writes every sealed parent in one transaction. */
    method PersistClosed(closed: seq<ClosedParent>, commit: bool) returns (written: nat, ok: bool)
      modifies this`rows, this`log
      ensures ok == commit && (ok ==> written == |closed|)
      ensures !ok ==> rows == old(rows) && log == old(log)
      ensures ok ==> rows == WriteParents(old(rows), closed) && log == old(log) + KeysIn(closed)
    {
      var tx := rows;
      var i := 0;
      while i < |closed|
        invariant 0 <= i <= |closed|
        invariant tx == WriteParents(old(rows), closed[..i])
      {
        assert closed[..i + 1][..i] == closed[..i];
        tx := tx[StoredParent(closed[i].key) := closed[i].bucket];
        i := i + 1;
      }
      assert closed[..i] == closed;
      if !commit {
        return 0, false;
      }
      rows := tx;
      log := log + KeysIn(closed);
      return |closed|, true;
    }

    /** Hands every sealed parent to the next tier as one finished child. */
    method FeedAbove(closed: seq<ClosedParent>, ghost interval: int)
      requires ValidLadders(ladders) && Inv(ladders, Snapshot(), clock, KeySet(closed))
      requires forall i, j :: 0 <= i < j < |closed| ==> closed[i].key != closed[j].key
      requires forall i :: 0 <= i < |closed| ==>
                 closed[i].key.interval == interval && closed[i].higher == Above(ladders, closed[i].key)
                 && closed[i].key in rows && closed[i].bucket == rows[closed[i].key]
      modifies this`parents
      ensures Valid()
      ensures forall p :: p in parents ==> p in old(parents) || p.interval > interval
    {
      hide Inv, StageChild, Above;
      var i := 0;
      while i < |closed|
        invariant 0 <= i <= |closed|
        invariant Inv(ladders, Snapshot(), clock, KeySet(closed[i..]))
        invariant forall p :: p in parents ==> p in old(parents) || p.interval > interval
      {
        var item := closed[i];
        OneFewer(closed, i);
        FeedKeepsInv(ladders, Snapshot(), clock, KeySet(closed[i..]), item.key);
        if |item.higher| != 0 {
          HigherAbove(ladders, Snapshot(), clock, KeySet(closed[i..]), item.key);
          StageChildKeys(parents, item.higher[0], item.higher[1..], item.key.cell, item.bucket);
          ghost var st := Snapshot();
          ghost var order := AddChildren(item.higher[0], item.higher[1..], map[item.key.cell := item.bucket]);
          OneChild(st.parents, item.higher[0], item.higher[1..], order, item.key.cell, item.bucket);
        }
        i := i + 1;
      }
      assert closed[i..] == [];
      assert KeySet(closed[i..]) == {};
    }

    /** Seals due parents tier by tier until nothing due is open. `policyRead` and `commit` are
        the outcomes of reading the policies and of the transaction for each interval. */
    method FlushClosed(now: int, policyRead: int -> bool, commit: int -> bool) returns (written: nat, ok: bool)
      requires Valid() && clock <= now && now <= NORMALIZE_LIMIT
      requires forall name, i :: 0 <= i < |ladders(name)| ==> ladders(name)[i] in levels
      modifies this
      ensures Valid() && clock == now && staged == old(staged)
      ensures ok ==> forall p :: p in parents ==> p.cell.bucket + p.interval + 600_000 > now
      ensures (forall i :: policyRead(i) && commit(i)) ==> ok
      ensures old(log) <= log && written == |log| - |old(log)|
      ensures forall p :: p in old(rows) ==> p in rows && rows[p] == old(rows)[p]
    {
      hide Inv, Due, Lists, SmallestDue, Taken, Closing, AllTaken, WriteParents, RestoreParents, Above, StoredParent, KeySet;
      written := 0;
      ghost var finished := 0;
      LaterInv(ladders, Snapshot(), clock, now, {});
      clock := now;
      IntervalsPositive(ladders, Snapshot(), clock);
      while true
        invariant Valid() && clock == now && staged == old(staged)
        invariant forall p :: p in parents && Due(p, now) ==> p.interval > finished
        invariant old(log) <= log && written == |log| - |old(log)|
        invariant forall p :: p in old(rows) ==> p in rows && rows[p] == old(rows)[p]
        decreases set t | t in levels && t > finished
      {
        ghost var st := Snapshot();
        var closed;
        ghost var interval;
        closed, interval := TakeClosed(now);
        if |closed| == 0 {
          NothingDue(parents, now);
          return written, true;
        }
        RestoreUndoesTake(st, interval, now, closed);
        if !policyRead(closed[0].key.interval) {
          RestoreClosed(closed);
          return written, false;
        }
        RoundTaken(ladders, st, now, interval, closed);
        ItemFacts(ladders, st, now, interval, closed);
        var sealed := FilterClosed(closed, ladders);
        var n, stored := PersistClosed(sealed, commit(closed[0].key.interval));
        if !stored {
          RestoreClosed(sealed);
          return written, false;
        }
        written := written + n;
        SealedByWrite(ladders, st, now, interval, closed);
        FeedAbove(sealed, interval);
        RoundAdvances(ladders, levels, st, now, interval, closed, finished);
        finished := interval;
      }
    }
  }

  lemma NothingDue(parents: Parents, now: int)
    ensures (forall p :: p in parents ==> !Due(p, now))
            <==> forall p :: p in parents ==> p.cell.bucket + p.interval + 600_000 > now
  {
  }

  function StoredParent(p: ParentKey): ParentKey {
    p.(cell := p.cell.(bucket := NormalizeBucket(p.cell.bucket)))
  }

  function WriteParents(rows: map<ParentKey, Summary>, closed: seq<ClosedParent>): map<ParentKey, Summary> {
    if closed == [] then rows
    else WriteParents(rows, closed[..|closed| - 1])[StoredParent(closed[|closed| - 1].key) := closed[|closed| - 1].bucket]
  }

  function RestoreParents(parents: Parents, closed: seq<ClosedParent>): Parents {
    if closed == [] then parents
    else
      var rest, item := RestoreParents(parents, closed[..|closed| - 1]), closed[|closed| - 1];
      if item.key in rest then rest else rest[item.key := Parent(item.higher, item.children)]
  }

  lemma NothingEligible(staged: Buckets, minutes: Buckets, l: seq<int>, now: int)
    requires |l| < 2 || |minutes| == 0
    ensures Restaged(staged, Handed(minutes, l, now)) == staged
  {
  }

  lemma NothingStaged(staged: Buckets, minutes: Buckets)
    requires |minutes| == 0
    ensures Restaged(staged, minutes) == staged
  {
  }

  /** Staging a batch of accepted minutes keeps the invariant. */
  lemma MinutesStaged(ladders: Ladders, st: CoarseState, clock: int, metricName: string, order: seq<HotKey>, minutes: Buckets)
    requires ValidLadders(ladders) && Inv(ladders, st, clock, {}) && GRACE <= clock
    requires |ladders(metricName)| >= 2 && Enumerates(order, Handed(minutes, ladders(metricName), clock).Keys)
    requires forall m :: m in minutes ==> m.series.metricName == metricName && m.bucket % MINUTE == 0 && WellFormed(minutes[m])
    ensures var l := ladders(metricName); var handed := Handed(minutes, l, clock);
            Inv(ladders, CoarseState(StageAll(st.parents, l[1], l[2..], order, handed), st.rows,
                                     Restaged(st.staged, handed), st.log), clock, {})
  {
    hide Inv, StageAll, StageMinutes, Due, Restaged;
    var handed := Handed(minutes, ladders(metricName), clock);
    forall i | 0 <= i < |order|
      ensures order[i] in handed && Accepts(ladders, order[i], handed[order[i]], clock) && LadderOf(ladders, order[i]) == ladders(metricName)
    {
      assert order[i] in handed.Keys;
    }
    StageMinutesKeepInv(ladders, st, clock, order, handed);
    StageMinutesParents(ladders, ladders(metricName), st, order, handed);
    StageMinutesStaged(ladders, st, order, handed);
    assert handed == Listed(handed, order);
  }

  lemma SomethingTaken(closed: seq<ClosedParent>, closing: set<ParentKey>)
    requires Lists(KeysIn(closed), closing) && closing != {}
    ensures closed != []
  {
    var p :| p in closing;
    assert p in KeysIn(closed);
  }

  lemma IntervalsPositive(ladders: Ladders, st: CoarseState, clock: int)
    requires Inv(ladders, st, clock, {})
    ensures forall p :: p in st.parents ==> p.interval > 0
  {
    hide StagedSound, RowSound, FinerFirst, MinuteFed, RowFed, Waiting, LogSound, ChildSound;
    forall p | p in st.parents ensures p.interval > 0 {
      assert ParentSound(ladders, st, p);
    }
  }

  lemma ChildrenOnSlots(ladders: Ladders, st: CoarseState, clock: int, p: ParentKey)
    requires ValidLadders(ladders) && Inv(ladders, st, clock, {}) && p in st.parents
    ensures Shaped(ladders, p)
    ensures OnSlots(st.parents[p].children.Keys, p.cell, p.cell.bucket, p.cell.bucket + p.interval, Finer(ladders, p))
    ensures p.interval > 0 && p.interval % Finer(ladders, p) == 0
  {
    hide StagedSound, RowSound, FinerFirst, MinuteFed, RowFed, Waiting, LogSound, ChildSound, Shaped;
    assert ParentSound(ladders, st, p);
    ShapedFacts(ladders, p);
    ShapedDivides(ladders, p);
    forall c | c in st.parents[p].children.Keys
      ensures c == At(p.cell, c.bucket) && p.cell.bucket <= c.bucket < p.cell.bucket + p.interval
              && (c.bucket - p.cell.bucket) % Finer(ladders, p) == 0
    {
      ChildIsSlot(ladders, st, p, c);
    }
  }

  // ---- one round ----------------------------------------------------------------------------------

  function KeySet(closed: seq<ClosedParent>): set<ParentKey> {
    set i | 0 <= i < |closed| :: closed[i].key
  }

  lemma KeySetLast(closed: seq<ClosedParent>)
    requires closed != []
    ensures KeySet(closed) == KeySet(closed[..|closed| - 1]) + {closed[|closed| - 1].key}
  {
    var init := closed[..|closed| - 1];
    forall k | k in KeySet(init) ensures k in KeySet(closed) {
      var i :| 0 <= i < |init| && init[i].key == k;
      assert closed[i].key == k;
    }
    assert closed[|closed| - 1].key in KeySet(closed);
  }

  lemma EmptyKeySet()
    ensures KeySet([]) == {}
  {
  }

  lemma ListedSet(closed: seq<ClosedParent>, closing: set<ParentKey>)
    requires Lists(KeysIn(closed), closing)
    ensures KeySet(closed) == closing
    ensures forall i, j :: 0 <= i < j < |closed| ==> closed[i].key != closed[j].key
  {
    var keys := KeysIn(closed);
    forall p | p in closing ensures p in KeySet(closed) {
      var i :| 0 <= i < |keys| && keys[i] == p;
      assert closed[i].key == p;
    }
    forall p | p in KeySet(closed) ensures p in closing {
      var i :| 0 <= i < |closed| && closed[i].key == p;
      assert keys[i] == p;
    }
  }

  lemma {:induction false} RestoreSome(st: CoarseState, gone: set<ParentKey>, closed: seq<ClosedParent>)
    requires AllTaken(closed, st) && KeySet(closed) <= gone
    requires forall i, j :: 0 <= i < j < |closed| ==> closed[i].key != closed[j].key
    ensures RestoreParents(st.parents - gone, closed) == st.parents - (gone - KeySet(closed))
  {
    hide Content;
    if closed == [] {
      assert gone - KeySet(closed) == gone;
    } else {
      var init, item := closed[..|closed| - 1], closed[|closed| - 1];
      KeySetLast(closed);
      RestoreSome(st, gone, init);
      assert item.key !in KeySet(init);
      assert gone - KeySet(init) == (gone - KeySet(closed)) + {item.key};
      assert TakenFrom(item, st);
      assert st.parents - (gone - KeySet(closed)) == (st.parents - (gone - KeySet(init)))[item.key := st.parents[item.key]];
    }
  }

  /** Restoring what one round took puts the table back exactly as it was. */
  lemma RestoreUndoesTake(st: CoarseState, interval: int, now: int, closed: seq<ClosedParent>)
    requires AllTaken(closed, st) && Lists(KeysIn(closed), Closing(st.parents, interval, now))
    ensures RestoreParents(st.parents - Closing(st.parents, interval, now), closed) == st.parents
  {
    hide TakenFrom, Due;
    var closing := Closing(st.parents, interval, now);
    ListedSet(closed, closing);
    RestoreSome(st, closing, closed);
    assert closing - KeySet(closed) == {};
  }

  ghost predicate Taken(ladders: Ladders, st: CoarseState, now: int, interval: int, closed: seq<ClosedParent>) {
    && Round(ladders, st, now, now, interval) && now <= NORMALIZE_LIMIT
    && AllTaken(closed, st) && Lists(KeysIn(closed), Closing(st.parents, interval, now))
  }

  lemma RoundTaken(ladders: Ladders, st: CoarseState, now: int, interval: int, closed: seq<ClosedParent>)
    requires ValidLadders(ladders) && Inv(ladders, st, now, {}) && SmallestDue(st, now, interval) && now <= NORMALIZE_LIMIT
    requires AllTaken(closed, st) && Lists(KeysIn(closed), Closing(st.parents, interval, now))
    ensures Taken(ladders, st, now, interval, closed)
  {
    hide Inv, SmallestDue, AllTaken, Lists, Closing;
  }

  lemma ItemFact(ladders: Ladders, st: CoarseState, now: int, interval: int, closed: seq<ClosedParent>, i: int)
    requires Taken(ladders, st, now, interval, closed) && 0 <= i < |closed|
    ensures closed[i].key.interval == interval && closed[i].key in st.parents && closed[i].key !in st.rows
    ensures interval in ladders(closed[i].key.cell.series.metricName)
    ensures closed[i].higher == Above(ladders, closed[i].key)
    ensures StoredParent(closed[i].key) == closed[i].key
    ensures Due(closed[i].key, now) && interval > 0
  {
    hide FinerFirst, MinuteFed, RowFed, Waiting, LogSound, RowSound, ChildSound, StagedSound, SmallestDue, Content;
    var p := closed[i].key;
    assert KeysIn(closed)[i] == p && p in Closing(st.parents, interval, now);
    assert TakenFrom(closed[i], st);
    assert ParentSound(ladders, st, p);
    assert ValidLadder(ladders(p.cell.series.metricName));
    NormalizeIsIdentityWithinLimit(p.cell.bucket);
  }

  lemma ItemFacts(ladders: Ladders, st: CoarseState, now: int, interval: int, closed: seq<ClosedParent>)
    requires Taken(ladders, st, now, interval, closed)
    ensures forall i :: 0 <= i < |closed| ==>
              && closed[i].key.interval == interval && closed[i].key in st.parents && closed[i].key !in st.rows
              && interval in ladders(closed[i].key.cell.series.metricName)
              && closed[i].higher == Above(ladders, closed[i].key)
              && StoredParent(closed[i].key) == closed[i].key
  {
    hide Taken, Above, StoredParent, Due;
    forall i | 0 <= i < |closed|
      ensures closed[i].key.interval == interval && closed[i].key in st.parents && closed[i].key !in st.rows
      ensures interval in ladders(closed[i].key.cell.series.metricName)
      ensures closed[i].higher == Above(ladders, closed[i].key)
      ensures StoredParent(closed[i].key) == closed[i].key
    {
      ItemFact(ladders, st, now, interval, closed, i);
    }
  }

  lemma {:induction false} WriteParentsAt(rows: map<ParentKey, Summary>, closed: seq<ClosedParent>, st: CoarseState)
    requires AllTaken(closed, st) && forall i :: 0 <= i < |closed| ==> StoredParent(closed[i].key) == closed[i].key
    ensures WriteParents(rows, closed) ==
            map p | p in rows.Keys + KeySet(closed) ::
              if p in KeySet(closed) then Content(st.staged, p.cell, p.interval) else rows[p]
  {
    hide Content, StoredParent, KeySet;
    if closed == [] {
      EmptyKeySet();
    } else {
      var init, item := closed[..|closed| - 1], closed[|closed| - 1];
      KeySetLast(closed);
      WriteParentsAt(rows, init, st);
      assert TakenFrom(item, st);
    }
  }

  /** The transaction leaves exactly the sealed state, with every sealed parent waiting. */
  lemma SealedByWrite(ladders: Ladders, st: CoarseState, now: int, interval: int, closed: seq<ClosedParent>)
    requires Taken(ladders, st, now, interval, closed)
    ensures var closing, rows := Closing(st.parents, interval, now), WriteParents(st.rows, closed);
            && Inv(ladders, CoarseState(st.parents - closing, rows, st.staged, st.log + KeysIn(closed)), now,
                   KeySet(closed))
            && (forall p :: p in st.rows ==> p in rows && rows[p] == st.rows[p])
            && (forall i :: 0 <= i < |closed| ==> closed[i].key in rows && closed[i].bucket == rows[closed[i].key])
            && forall i, j :: 0 <= i < j < |closed| ==> closed[i].key != closed[j].key
  {
    hide Inv, Content, SmallestDue, Above, Closing;
    var closing := Closing(st.parents, interval, now);
    ItemFacts(ladders, st, now, interval, closed);
    ListedSet(closed, closing);
    SealKeepsInv(ladders, st, now, now, interval, KeysIn(closed));
    WriteParentsAt(st.rows, closed, st);
    assert Sealed(st, closing, KeysIn(closed)) ==
           CoarseState(st.parents - closing, WriteParents(st.rows, closed), st.staged, st.log + KeysIn(closed));
    forall p | p in KeySet(closed) ensures p !in st.rows {
      var i :| 0 <= i < |closed| && closed[i].key == p;
    }
    forall i | 0 <= i < |closed| ensures closed[i].bucket == WriteParents(st.rows, closed)[closed[i].key] {
      assert TakenFrom(closed[i], st);
      assert closed[i].key in KeySet(closed);
    }
  }

  /** The smallest due interval strictly grows from round to round. */
  lemma RoundAdvances(ladders: Ladders, levels: set<int>, st: CoarseState, now: int, interval: int,
                      closed: seq<ClosedParent>, finished: int)
    requires Taken(ladders, st, now, interval, closed) && closed != []
    requires forall name, i :: 0 <= i < |ladders(name)| ==> ladders(name)[i] in levels
    requires forall p :: p in st.parents && Due(p, now) ==> p.interval > finished
    ensures finished < interval && interval in levels
    ensures (set t | t in levels && t > interval) < (set t | t in levels && t > finished)
    ensures forall p :: p in st.parents - Closing(st.parents, interval, now) && Due(p, now) ==> p.interval > interval
  {
    hide Inv, Above, StoredParent, AllTaken;
    ItemFact(ladders, st, now, interval, closed, 0);
    var l := ladders(closed[0].key.cell.series.metricName);
    var i :| 0 <= i < |l| && l[i] == interval;
    assert interval in levels;
    var after, before := (set t | t in levels && t > interval), (set t | t in levels && t > finished);
    assert interval in before && interval !in after && after <= before;
  }

  // ---- feeding one item -----------------------------------------------------------------------------

  lemma OneFewer(closed: seq<ClosedParent>, i: int)
    requires 0 <= i < |closed| && forall i, j :: 0 <= i < j < |closed| ==> closed[i].key != closed[j].key
    ensures closed[i].key in KeySet(closed[i..])
    ensures KeySet(closed[i + 1..]) == KeySet(closed[i..]) - {closed[i].key}
  {
    var now, next := closed[i..], closed[i + 1..];
    assert forall k :: 0 <= k < |next| ==> next[k] == now[k + 1];
    assert now[0] == closed[i];
    forall p | p in KeySet(now) && p != closed[i].key ensures p in KeySet(next) {
      var k :| 0 <= k < |now| && now[k].key == p;
      assert next[k - 1].key == p;
    }
  }

  lemma HigherAbove(ladders: Ladders, st: CoarseState, clock: int, waiting: set<ParentKey>, q: ParentKey)
    requires ValidLadders(ladders) && Inv(ladders, st, clock, waiting) && q in st.rows && Above(ladders, q) != []
    ensures Above(ladders, q)[0] > q.interval
  {
    hide FinerFirst, MinuteFed, RowFed, Waiting, LogSound, ParentSound, StagedSound, Content, Above;
    AboveInside(ladders, q);
  }

  lemma StageChildKeys(parents: Parents, interval: int, higher: seq<int>, c: HotKey, b: Summary)
    ensures forall p :: p in StageChild(parents, interval, higher, c, b) ==> p in parents || p.interval == interval
  {
  }

  lemma OneChild(parents: Parents, interval: int, higher: seq<int>, order: seq<HotKey>, c: HotKey, b: Summary)
    requires Enumerates(order, map[c := b].Keys)
    ensures StageAll(parents, interval, higher, order, map[c := b]) == StageChild(parents, interval, higher, c, b)
  {
    hide StageChild;
    assert c in order;
    FirstTwoDiffer(order, map[c := b].Keys);
    assert order[..0] == [];
  }

  lemma FirstTwoDiffer(order: seq<HotKey>, keys: set<HotKey>)
    requires Enumerates(order, keys)
    ensures |order| > 1 ==> order[0] in keys && order[1] in keys && order[0] != order[1]
  {
  }

  // ---- main results -----------------------------------------------------------------------------------

  /** After a complete flush exactly the parents that ended ten minutes ago or earlier and have staged
      minutes are persisted, and each holds their flat merge in time order, tier by tier. */
  lemma DueParentsPersisted(table: CoarseTable, p: ParentKey)
    requires table.Valid() && Shaped(table.ladders, p)
    requires forall q :: q in table.parents ==> q.cell.bucket + q.interval + 600_000 > table.clock
    ensures p in table.rows <==>
            p.cell.bucket + p.interval + 600_000 <= table.clock && Content(table.staged, p.cell, p.interval).count > 0
    ensures p in table.rows ==> table.rows[p] == Content(table.staged, p.cell, p.interval)
  {
    hide Content, ParentSound, FinerFirst, MinuteFed, RowFed, LogSound, StagedSound;
    if p !in table.rows && Due(p, table.clock) {
      AbsentIsEmpty(table.ladders, table.Snapshot(), table.clock, p, table.clock, p.interval + 1);
    }
  }

  /** Each parent is persisted once, and only after every finer parent inside it that holds samples. */
  lemma FinerPersistedBefore(table: CoarseTable, j: int, q: ParentKey)
    requires table.Valid() && 0 <= j < |table.log|
    requires Shaped(table.ladders, q) && Inside(q, table.log[j]) && Content(table.staged, q.cell, q.interval).count > 0
    ensures exists i :: 0 <= i < j && table.log[i] == q
    ensures forall i :: 0 <= i < |table.log| && i != j ==> table.log[i] != table.log[j]
  {
    hide Content, ParentSound, RowSound, MinuteFed, RowFed, StagedSound, Shaped;
    var log := table.log;
    assert log[j] in log && log[j] in table.rows;
    assert FinerFirst(table.ladders, table.Snapshot(), log[j]);
    assert q in log;
    var i :| 0 <= i < |log| && log[i] == q;
  }

  /** When every staged minute was staged complete, a persisted parent is the merge of the
      persisted minutes below it. */
  lemma SealedMatchesMinutes(table: CoarseTable, minuteRows: Buckets, p: ParentKey)
    requires table.Valid() && p in table.rows
    requires forall b :: p.cell.bucket <= b < p.cell.bucket + p.interval && (b - p.cell.bucket) % MINUTE == 0 ==>
               BucketOf(table.staged, At(p.cell, b)) == BucketOf(minuteRows, At(p.cell, b))
    ensures table.rows[p] == Content(minuteRows, p.cell, p.interval)
  {
    hide Slots, ParentSound, FinerFirst, MinuteFed, RowFed, LogSound, StagedSound;
    ShapedDivides(table.ladders, p);
    SlotsCongruent(table.staged, minuteRows, p.cell, p.cell.bucket, p.cell.bucket + p.interval, MINUTE);
  }
}
