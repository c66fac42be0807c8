/** The one-time rewrite of rows from before the envelope: batch by batch up to a fixed bound,
    with a cursor committed together with every batch. */
module DigestReclaim {
  import opened Wrappers
  import opened Words
  import opened DigestCodec

  const BATCH_SIZE: nat := 256

  datatype Phase = Unstarted | Running | Complete

  datatype Progress = Progress(phase: Phase, upper: int, cursor: int)

  datatype Outcome = Done | Failed

  type Digests = map<int, seq<byte>>

  ghost predicate Clean(rows: Digests, bound: int) {
    forall id :: id in rows && id <= bound ==> !Legacy(rows[id])
  }

  /** What the saved progress guarantees about the rows. */
  ghost predicate Consistent(rows: Digests, saved: Option<Progress>) {
    saved.Some? ==>
      && Clean(rows, saved.value.cursor)
      && (saved.value.phase == Complete ==> Clean(rows, saved.value.upper))
  }

  /** Every row still decodes to what it decoded to before. */
  ghost predicate SameDigests(z: Zstd, before: Digests, after: Digests) {
    before.Keys == after.Keys && forall id :: id in before ==> Decode(z, after[id]) == Decode(z, before[id])
  }

  ghost predicate AllReadable(z: Zstd, rows: Digests) {
    forall id :: id in rows && Legacy(rows[id]) ==> Decode(z, rows[id]).Ok?
  }

  /** Other writers may insert, replace and delete rows between two transactions, as long as
      they do not bring the old format back. */
  lemma OtherWritesKeepProgress(rows: Digests, after: Digests, saved: Option<Progress>)
    requires Consistent(rows, saved)
    requires forall id :: id in after && Legacy(after[id]) ==> id in rows && rows[id] == after[id]
    ensures Consistent(after, saved)
  {
    hide Legacy;
  }

  ghost predicate IsBatch(rows: Digests, cursor: int, upper: int, batch: seq<int>) {
    && |batch| <= BATCH_SIZE
    && (forall i, j :: 0 <= i < j < |batch| ==> batch[i] < batch[j])
    && (forall i :: 0 <= i < |batch| ==> batch[i] in rows && cursor < batch[i] <= upper && Legacy(rows[batch[i]]))
    && (forall id :: id in rows && cursor < id <= upper && Legacy(rows[id]) ==>
          id in batch || (|batch| == BATCH_SIZE && id > batch[|batch| - 1]))
  }

  ghost predicate IsLeast(s: set<int>, m: int) {
    m in s && forall k :: k in s ==> m <= k
  }

  lemma MemberExists(s: set<int>)
    ensures s == {} || exists m :: m in s
  {
    if forall m :: m !in s {
      assert s == {};
    }
  }

  lemma LeastExists(s: set<int>)
    requires s != {}
    ensures exists m :: IsLeast(s, m)
  {
    MemberExists(s);
    var m :| m in s;
    var below := set k | k in s && k < m;
    if below == {} {
      forall k | k in s ensures m <= k { assert k < m ==> k in below; }
      assert IsLeast(s, m);
    } else {
      assert m !in below && below <= s;
      LeastExists(below);
      var l :| IsLeast(below, l);
      forall k | k in s ensures l <= k { assert k < m ==> k in below; }
      assert IsLeast(s, l);
    }
  }

  /** The rows with their first `done` batch entries rewritten. */
  ghost predicate Rewritten(z: Zstd, rows: Digests, tx: Digests, batch: seq<int>, done: nat)
    requires done <= |batch|
  {
    && tx.Keys == rows.Keys
    && forall id :: id in rows ==>
         if id in batch[..done] then Decode(z, rows[id]).Ok? && tx[id] == EncodeStored(z, Decode(z, rows[id]).value)
         else tx[id] == rows[id]
  }

  lemma RewrittenMore(z: Zstd, rows: Digests, tx: Digests, batch: seq<int>, i: nat)
    requires i < |batch| && Rewritten(z, rows, tx, batch, i) && batch[i] in rows && Decode(z, rows[batch[i]]).Ok?
    ensures Rewritten(z, rows, tx[batch[i] := EncodeStored(z, Decode(z, rows[batch[i]]).value)], batch, i + 1)
  {
    hide Decode, EncodeStored;
    assert batch[..i + 1] == batch[..i] + [batch[i]];
  }

  lemma RewrittenKeeps(z: Zstd, rows: Digests, tx: Digests, batch: seq<int>)
    requires Inverse(z) && Rewritten(z, rows, tx, batch, |batch|)
    ensures SameDigests(z, rows, tx)
    ensures AllReadable(z, rows) ==> AllReadable(z, tx)
    ensures z.encoderReady ==> forall id :: id in tx && Legacy(tx[id]) ==> id !in batch && tx[id] == rows[id]
  {
    hide Decode, EncodeStored, Legacy, Inverse;
    assert batch[..|batch|] == batch;
    assert forall id :: id in rows && id !in batch ==> tx[id] == rows[id];
    forall id | id in rows && id in batch
      ensures Decode(z, tx[id]) == Decode(z, rows[id]) && (Legacy(tx[id]) <==> !z.encoderReady)
    {
      RewriteKeepsDigest(z, rows[id]);
    }
  }

  /** After a batch nothing up to its last row is in the old format. */
  lemma BatchCleans(z: Zstd, rows: Digests, tx: Digests, cursor: int, upper: int, batch: seq<int>)
    requires IsBatch(rows, cursor, upper, batch) && batch != [] && Clean(rows, cursor)
    requires tx.Keys == rows.Keys && forall id :: id in tx && Legacy(tx[id]) ==> id !in batch && tx[id] == rows[id]
    ensures Clean(tx, batch[|batch| - 1])
  {
    hide Legacy;
  }

  lemma NothingLeft(rows: Digests, cursor: int, upper: int)
    requires IsBatch(rows, cursor, upper, []) && Clean(rows, cursor)
    ensures Clean(rows, upper)
  {
    hide Legacy;
  }

  /** Row ids are positive, saved progress has started, and with a working compressor it tells
      the truth. */
  ghost predicate Truthful(z: Zstd, rows: Digests, saved: Option<Progress>) {
    && Inverse(z)
    && (forall id :: id in rows ==> id > 0)
    && (saved.Some? ==> saved.value.phase != Unstarted)
    && (z.encoderReady ==> Consistent(rows, saved))
  }

  lemma TruthfulStart(z: Zstd, rows: Digests, upper: int)
    requires Truthful(z, rows, None)
    ensures Truthful(z, rows, Some(Progress(Running, upper, 0)))
  {
    hide Legacy, Inverse;
  }

  /** Progress after a batch: it has reached the last row of the batch. */
  function Advanced(state: Progress, last: int): Progress {
    Progress(if last >= state.upper then Complete else state.phase, state.upper, last)
  }

  lemma TruthfulBatch(z: Zstd, rows: Digests, tx: Digests, state: Progress, batch: seq<int>)
    requires Truthful(z, rows, Some(state)) && state.phase == Running && batch != []
    requires IsBatch(rows, state.cursor, state.upper, batch) && Rewritten(z, rows, tx, batch, |batch|)
    ensures Truthful(z, tx, Some(Advanced(state, batch[|batch| - 1])))
    ensures state.cursor < batch[|batch| - 1] <= state.upper
  {
    hide Legacy, Inverse, Clean, Rewritten, Decode;
    BatchFacts(rows, state.cursor, state.upper, batch);
    RewrittenKeeps(z, rows, tx, batch);
    RewrittenSameKeys(z, rows, tx, batch);
    if z.encoderReady {
      BatchCleans(z, rows, tx, state.cursor, state.upper, batch);
    }
  }

  lemma TruthfulEmptyBatch(z: Zstd, rows: Digests, state: Progress)
    requires Truthful(z, rows, Some(state)) && IsBatch(rows, state.cursor, state.upper, [])
    ensures Truthful(z, rows, Some(Progress(Complete, state.upper, state.upper)))
    ensures z.encoderReady ==> Clean(rows, state.upper)
  {
    hide Legacy, Inverse, Clean, IsBatch;
    if z.encoderReady {
      NothingLeft(rows, state.cursor, state.upper);
    }
  }

  lemma TruthfulEnd(z: Zstd, rows: Digests, state: Progress)
    requires Truthful(z, rows, Some(state)) && state.upper <= state.cursor
    ensures Truthful(z, rows, Some(state.(phase := Complete)))
    ensures z.encoderReady ==> Clean(rows, state.upper)
  {
    hide Legacy, Inverse, Clean;
    if z.encoderReady {
      CleanBelow(rows, state.cursor, state.upper);
    }
  }

  lemma TruthfulDone(z: Zstd, rows: Digests, state: Progress)
    requires Truthful(z, rows, Some(state))
    ensures state.phase != Unstarted && Inverse(z)
    ensures z.encoderReady && state.phase == Complete ==> Clean(rows, state.upper)
  {
  }

  class DigestTable {
    const z: Zstd
    var rows: Digests
    var saved: Option<Progress>

    /** With a working compressor the saved progress is truthful. */
    ghost predicate Valid()
      reads this
    {
      Truthful(z, rows, saved)
    }

    constructor (z: Zstd, rows: Digests)
      requires Inverse(z) && forall id :: id in rows ==> id > 0
      ensures Valid() && this.rows == rows && saved == None && this.z == z
    {
      this.z, this.rows, this.saved := z, rows, None;
    }

    method MaxRowID() returns (m: int)
      ensures forall id :: id in rows ==> id <= m
      ensures rows == map[] ==> m == 0
      ensures rows != map[] ==> m in rows
    {
      m := 0;
      var left := rows.Keys;
      var found := false;
      while left != {}
        invariant left <= rows.Keys && (found <==> left != rows.Keys)
        invariant forall id :: id in rows && id !in left ==> id <= m
        invariant if found then m in rows else m == 0
        decreases left
      {
        MemberExists(left);
        var id :| id in left;
        if !found || id > m {
          m := id;
        }
        found := true;
        left := left - {id};
      }
    }

    /** The next rows in the old format above the cursor, in order, at most one batch. */
    method SelectBatch(cursor: int, upper: int) returns (batch: seq<int>)
      ensures IsBatch(rows, cursor, upper, batch) && |batch| <= 256
    {
      hide Legacy;
      batch := [];
      var left := set id | id in rows && cursor < id <= upper && Legacy(rows[id]);
      while left != {} && |batch| < BATCH_SIZE
        invariant |batch| <= BATCH_SIZE
        invariant forall id :: id in left ==> id in rows && cursor < id <= upper && Legacy(rows[id])
        invariant forall i, j :: 0 <= i < j < |batch| ==> batch[i] < batch[j]
        invariant forall i :: 0 <= i < |batch| ==> batch[i] in rows && cursor < batch[i] <= upper && Legacy(rows[batch[i]])
        invariant forall id :: id in left && batch != [] ==> batch[|batch| - 1] < id
        invariant forall id :: id in rows && cursor < id <= upper && Legacy(rows[id]) ==> id in batch || id in left
        decreases left
      {
        LeastExists(left);
        assert exists id :: id in left && forall k :: k in left ==> id <= k by {
          var m :| IsLeast(left, m);
        }
        var id :| id in left && forall k :: k in left ==> id <= k;
        batch := batch + [id];
        left := left - {id};
      }
    }

    /** Re-encodes one batch on top of the current rows, without committing. */
    method RewriteBatch(batch: seq<int>) returns (ok: bool, tx: Digests)
      requires forall i :: 0 <= i < |batch| ==> batch[i] in rows
      ensures ok ==> Rewritten(z, rows, tx, batch, |batch|)
      ensures !ok ==> exists i :: 0 <= i < |batch| && Decode(z, rows[batch[i]]).Err?
    {
      hide Decode, EncodeStored, Rewritten;
      tx := rows;
      RewrittenNone(z, rows, batch);
      var i := 0;
      while i < |batch|
        invariant 0 <= i <= |batch| && Rewritten(z, rows, tx, batch, i)
      {
        var digest := Decode(z, rows[batch[i]]);
        if digest.Err? {
          return false, tx;
        }
        RewrittenMore(z, rows, tx, batch, i);
        tx := tx[batch[i] := EncodeStored(z, digest.value)];
        i := i + 1;
      }
      ok := true;
    }

    /** Runs or resumes the rewrite; `commit` is the outcome of each transaction of this call.
        A call that fails in the middle may be repeated any number of times. */
    method Reencode(commit: nat -> bool) returns (r: Outcome)
      requires Valid()
      modifies this`rows, this`saved
      ensures Valid() && SameDigests(z, old(rows), rows)
      ensures r == Done ==> saved.Some? && saved.value.phase == Complete
      ensures r == Done && z.encoderReady ==> Clean(rows, saved.value.upper)
      ensures old(saved).None? && saved.Some? ==> forall id :: id in rows ==> id <= saved.value.upper
      ensures old(saved).None? && r == Done && z.encoderReady ==> forall id :: id in rows ==> !Legacy(rows[id])
      ensures old(saved).Some? ==> saved.Some? && saved.value.upper == old(saved).value.upper
                                   && saved.value.cursor >= old(saved).value.cursor
      ensures (forall n :: commit(n)) && AllReadable(z, old(rows)) ==> r == Done
    {
      hide Decode, EncodeStored, Legacy, Rewritten, IsBatch, Inverse, Clean, SameDigests, Truthful, AllReadable, Advanced;
      ghost var rows0 := rows;
      SameItself(z, rows);
      var state := if saved.None? then Progress(Unstarted, 0, 0) else saved.value;
      if saved.Some? {
        TruthfulDone(z, rows, state);
      }
      if state.phase == Complete {
        return Done;
      }
      var n := 0;
      if state.phase == Unstarted {
        var upper := MaxRowID();
        TruthfulStart(z, rows, upper);
        state := Progress(Running, upper, 0);
        if !commit(n) {
          return Failed;
        }
        saved := Some(state);
        n := n + 1;
      }
      while state.cursor < state.upper
        invariant Valid() && saved == Some(state) && n >= 0
        invariant state.phase == Running || state.upper <= state.cursor
        invariant SameDigests(z, rows0, rows) && (AllReadable(z, rows0) ==> AllReadable(z, rows))
        invariant old(saved).Some? ==> state.upper == old(saved).value.upper && state.cursor >= old(saved).value.cursor
        invariant old(saved).None? ==> forall id :: id in rows ==> id <= state.upper
        decreases state.upper - state.cursor
      {
        var batch := SelectBatch(state.cursor, state.upper);
        if |batch| == 0 {
          TruthfulEmptyBatch(z, rows, state);
          state := Progress(Complete, state.upper, state.upper);
          if !commit(n) {
            return Failed;
          }
          saved := Some(state);
          AllClean(rows, state.upper);
          return Done;
        }
        BatchReadable(z, rows, state.cursor, state.upper, batch);
        var ok, tx := RewriteBatch(batch);
        if !ok {
          return Failed;
        }
        TruthfulDone(z, rows, state);
        RewrittenKeeps(z, rows, tx, batch);
        RewrittenSameKeys(z, rows, tx, batch);
        TruthfulBatch(z, rows, tx, state, batch);
        AdvancedFacts(state, batch[|batch| - 1]);
        state := Advanced(state, batch[|batch| - 1]);
        if !commit(n) {
          return Failed;
        }
        n := n + 1;
        SameChained(z, rows0, rows, tx);
        rows, saved := tx, Some(state);
      }
      TruthfulEnd(z, rows, state);
      state := state.(phase := Complete);
      if !commit(n) {
        return Failed;
      }
      saved := Some(state);
      AllClean(rows, state.upper);
      return Done;
    }
  }

  lemma AllClean(rows: Digests, bound: int)
    ensures Clean(rows, bound) && (forall id :: id in rows ==> id <= bound) ==> forall id :: id in rows ==> !Legacy(rows[id])
  {
    hide Legacy;
  }

  lemma AdvancedFacts(state: Progress, last: int)
    ensures Advanced(state, last).upper == state.upper && Advanced(state, last).cursor == last
    ensures Advanced(state, last).phase == state.phase || state.upper <= last
  {
  }

  /** The rows of a batch exist, and can be decoded when every old row can. */
  lemma BatchReadable(z: Zstd, rows: Digests, cursor: int, upper: int, batch: seq<int>)
    requires IsBatch(rows, cursor, upper, batch)
    ensures forall i :: 0 <= i < |batch| ==> batch[i] in rows && (AllReadable(z, rows) ==> Decode(z, rows[batch[i]]).Ok?)
  {
    hide Decode, Legacy;
  }

  lemma RewrittenNone(z: Zstd, rows: Digests, batch: seq<int>)
    ensures Rewritten(z, rows, rows, batch, 0)
  {
  }

  lemma RewrittenSameKeys(z: Zstd, rows: Digests, tx: Digests, batch: seq<int>)
    requires Rewritten(z, rows, tx, batch, |batch|)
    ensures tx.Keys == rows.Keys
  {
  }

  lemma SameItself(z: Zstd, rows: Digests)
    ensures SameDigests(z, rows, rows)
  {
  }

  lemma SameChained(z: Zstd, a: Digests, b: Digests, c: Digests)
    requires SameDigests(z, a, b) && SameDigests(z, b, c)
    ensures SameDigests(z, a, c) && b.Keys == c.Keys
  {
    hide Decode;
  }

  lemma CleanBelow(rows: Digests, high: int, low: int)
    requires Clean(rows, high) && low <= high
    ensures Clean(rows, low)
  {
  }

  lemma BatchFacts(rows: Digests, cursor: int, upper: int, batch: seq<int>)
    requires IsBatch(rows, cursor, upper, batch)
    ensures forall i :: 0 <= i < |batch| ==> batch[i] in rows && cursor < batch[i] <= upper && Legacy(rows[batch[i]])
  {
  }
}
