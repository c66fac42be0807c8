/** What every step of the lease protocol keeps. */
module LeaseInvariant {
  import opened Wrappers
  import opened Lease

  // ---- the gate ----------------------------------------------------------------------------------

  /** The weight all goroutines hold together. */
  ghost function Total(threads: map<Thread, Proc>): nat {
    if threads == map[] then 0
    else
      var t :| t in threads;
      Weight(threads[t]) + Total(threads - {t})
  }

  lemma {:induction false} TotalWithout(threads: map<Thread, Proc>, t: Thread)
    requires t in threads
    ensures Total(threads) == Weight(threads[t]) + Total(threads - {t})
    decreases |threads|
  {
    hide Weight;
    var u :| u in threads && Total(threads) == Weight(threads[u]) + Total(threads - {u});
    if u != t {
      TotalWithout(threads - {u}, t);
      TotalWithout(threads - {t}, u);
      assert threads - {u} - {t} == threads - {t} - {u};
    }
  }

  /** Moving one goroutine changes the total by the change of its own weight. */
  lemma TotalMoves(s: State, t: Thread, p: Proc)
    ensures Total(s.threads[t := p]) == Total(s.threads) - Weight(ProcOf(s, t)) + Weight(p)
  {
    hide Weight;
    var after := s.threads[t := p];
    TotalWithout(after, t);
    assert after - {t} == s.threads - {t};
    if t in s.threads {
      TotalWithout(s.threads, t);
    } else {
      assert s.threads - {t} == s.threads;
      IdleWeighsNothing();
    }
  }

  lemma IdleWeighsNothing()
    ensures Weight(Idle) == 0
  {
  }

  ghost predicate GateSound(s: State) {
    s.taken == Total(s.threads) && s.taken <= GATE_WEIGHT
  }

  /** Whoever holds the whole gate holds it alone. */
  lemma WholeGateAlone(s: State, t: Thread, u: Thread)
    requires GateSound(s) && Weight(ProcOf(s, t)) == GATE_WEIGHT && u != t
    ensures Weight(ProcOf(s, u)) == 0
  {
    hide Weight;
    IdleWeighsNothing();
    TotalWithout(s.threads, t);
    if u in s.threads {
      TotalWithout(s.threads - {t}, u);
    }
  }

  // ---- the invariant -------------------------------------------------------------------------------

  /** A goroutine works on the active store, under a lease, and a migration on the one whose
      configuration it was started for. */
  ghost predicate UserSound(s: State, t: Thread) {
    var p := ProcOf(s, t);
    Uses(p).Some? ==>
      && Weight(p) > 0 && s.store == Uses(p)
      && ((p.StartReady? || p.Migrating?) ==> s.fingerprint == Some(p.target))
  }

  ghost predicate ActiveSound(s: State) {
    && (s.store.Some? ==> s.store.value in s.open && s.store.value in s.config
                          && s.fingerprint == Some(s.config[s.store.value]))
    && forall h :: h in s.open ==> h in s.config
  }

  /** A store that is opened but not published, or published but not closed, has one owner. */
  ghost predicate OwnerSound(s: State, t: Thread) {
    var mine := Owns(ProcOf(s, t));
    mine.Some? ==>
      && mine.value in s.open && s.store != mine
      && forall u :: u != t ==> Owns(ProcOf(s, u)) != mine
  }

  /** Every open store is the active one or has an owner that will publish or close it. */
  ghost predicate Accounted(s: State, h: Handle) {
    h in s.open ==> s.store == Some(h) || exists t :: Owns(ProcOf(s, t)) == Some(h)
  }

  ghost predicate MigrationSound(s: State, t: Thread) {
    (Moving(ProcOf(s, t)) <==> s.migration == Some(t)) && (t in s.finished ==> s.migration != Some(t))
  }

  ghost predicate InitSound(s: State, t: Thread) {
    InInit(ProcOf(s, t)) <==> s.initLock == Some(t)
  }

  ghost predicate Inv(s: State) {
    && GateSound(s) && ActiveSound(s)
    && (forall t :: UserSound(s, t))
    && (forall t :: OwnerSound(s, t))
    && (forall h :: Accounted(s, h))
    && (forall t :: MigrationSound(s, t))
    && (forall t :: InitSound(s, t))
  }

  lemma StartInv()
    ensures Inv(START)
  {
  }

  // ---- one goroutine moves ----------------------------------------------------------------------------

  /** Only `t` moved, to `p`, and the gate was charged for it. */
  ghost predicate Moved(s: State, after: State, t: Thread, p: Proc) {
    && after.threads == s.threads[t := p]
    && after.taken == s.taken - Weight(ProcOf(s, t)) + Weight(p) <= GATE_WEIGHT
    && after.finished == s.finished
  }

  lemma MovedGate(s: State, after: State, t: Thread, p: Proc)
    requires GateSound(s) && Moved(s, after, t, p)
    ensures GateSound(after)
    ensures forall u :: ProcOf(after, u) == if u == t then p else ProcOf(s, u)
  {
    hide Weight;
    TotalMoves(s, t, p);
  }

  /** The init lock changed hands in step with the goroutine, if at all. */
  ghost predicate LockMoved(s: State, after: State, t: Thread, p: Proc) {
    if InInit(p) == InInit(ProcOf(s, t)) then after.initLock == s.initLock
    else if InInit(p) then s.initLock.None? && after.initLock == Some(t)
    else after.initLock.None?
  }

  lemma LockKept(s: State, after: State, t: Thread, p: Proc)
    requires Inv(s) && LockMoved(s, after, t, p)
    requires forall u :: ProcOf(after, u) == if u == t then p else ProcOf(s, u)
    ensures forall u :: InitSound(after, u)
  {
    hide GateSound, ActiveSound, UserSound, OwnerSound, Accounted, MigrationSound, InInit, ProcOf;
    forall u ensures InitSound(after, u) {
      assert InitSound(s, u) && InitSound(s, t);
    }
  }

  lemma MigrationKept(s: State, after: State, t: Thread, p: Proc)
    requires Inv(s) && after.migration == s.migration && after.finished == s.finished
    requires Moving(p) == Moving(ProcOf(s, t))
    requires forall u :: ProcOf(after, u) == if u == t then p else ProcOf(s, u)
    ensures forall u :: MigrationSound(after, u)
  {
    hide GateSound, ActiveSound, UserSound, OwnerSound, Accounted, InitSound, Moving, ProcOf;
    forall u ensures MigrationSound(after, u) {
      assert MigrationSound(s, u) && MigrationSound(s, t);
    }
  }

  /** A step that leaves the stores alone and keeps what the goroutine owns. */
  lemma QuietStep(s: State, after: State, t: Thread, p: Proc)
    requires Inv(s) && Moved(s, after, t, p) && LockMoved(s, after, t, p)
    requires after.store == s.store && after.fingerprint == s.fingerprint && after.open == s.open && after.config == s.config
    requires after.migration == s.migration && Moving(p) == Moving(ProcOf(s, t))
    requires Owns(p) == Owns(ProcOf(s, t))
    requires Uses(p).Some? ==> Weight(p) > 0 && s.store == Uses(p)
                               && ((p.StartReady? || p.Migrating?) ==> s.fingerprint == Some(p.target))
    ensures Inv(after)
  {
    hide Weight, Uses, Owns, Moving, InInit, GateSound;
    MovedGate(s, after, t, p);
    LockKept(s, after, t, p);
    MigrationKept(s, after, t, p);
    QuietStores(s, after, t, p);
  }

  lemma QuietStores(s: State, after: State, t: Thread, p: Proc)
    requires Inv(s)
    requires forall u :: ProcOf(after, u) == if u == t then p else ProcOf(s, u)
    requires after.store == s.store && after.fingerprint == s.fingerprint && after.open == s.open && after.config == s.config
    requires Owns(p) == Owns(ProcOf(s, t))
    requires Uses(p).Some? ==> Weight(p) > 0 && s.store == Uses(p)
                               && ((p.StartReady? || p.Migrating?) ==> s.fingerprint == Some(p.target))
    ensures ActiveSound(after) && (forall u :: UserSound(after, u)) && (forall u :: OwnerSound(after, u))
    ensures forall h :: Accounted(after, h)
  {
    hide Weight, Uses, Owns, GateSound, MigrationSound, InitSound, ProcOf;
    forall u ensures UserSound(after, u) { assert UserSound(s, u); }
    forall u ensures OwnerSound(after, u) {
      assert OwnerSound(s, u);
      assert forall v :: Owns(ProcOf(after, v)) == Owns(ProcOf(s, v));
    }
    forall h ensures Accounted(after, h) {
      assert Accounted(s, h);
      assert forall v :: Owns(ProcOf(after, v)) == Owns(ProcOf(s, v));
    }
  }
}
