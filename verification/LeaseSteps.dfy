/** Every step keeps the invariant, with one exception that is pinned down exactly. */
module LeaseSteps {
  import opened Wrappers
  import opened Lease
  import opened LeaseInvariant

  /** Nobody but `t` works on the active store. */
  ghost predicate NoOtherUser(s: State, t: Thread) {
    forall u :: u != t ==> Uses(ProcOf(s, u)).None?
  }

  lemma WholeGateNoUser(s: State, t: Thread)
    requires Inv(s) && Weight(ProcOf(s, t)) == GATE_WEIGHT
    ensures NoOtherUser(s, t)
  {
    hide Weight, Uses, GateSound, ActiveSound, OwnerSound, Accounted, MigrationSound, InitSound;
    forall u | u != t ensures Uses(ProcOf(s, u)).None? {
      WholeGateAlone(s, t, u);
      assert UserSound(s, u);
    }
  }

  lemma NoStoreNoUser(s: State, t: Thread)
    requires Inv(s) && s.store.None?
    ensures NoOtherUser(s, t) && Uses(ProcOf(s, t)).None?
  {
    hide Weight, Uses, GateSound, ActiveSound, OwnerSound, Accounted, MigrationSound, InitSound;
    forall u ensures Uses(ProcOf(s, u)).None? {
      assert UserSound(s, u);
    }
  }

  // ---- stores are opened, published and closed --------------------------------------------------------

  lemma OpenStep(s: State, after: State, t: Thread, p: Proc, h: Handle, c: int)
    requires Inv(s) && Moved(s, after, t, p) && LockMoved(s, after, t, p) && h !in s.config
    requires after.store == s.store && after.fingerprint == s.fingerprint && after.migration == s.migration
    requires after.open == s.open + {h} && after.config == s.config[h := c]
    requires Moving(p) == Moving(ProcOf(s, t)) && Owns(ProcOf(s, t)).None? && Owns(p) == Some(h) && Uses(p).None?
    ensures Inv(after)
  {
    hide Weight, Uses, Owns, Moving, InInit, GateSound;
    MovedGate(s, after, t, p);
    LockKept(s, after, t, p);
    MigrationKept(s, after, t, p);
    OpenedStores(s, after, t, p, h);
  }

  lemma OpenedStores(s: State, after: State, t: Thread, p: Proc, h: Handle)
    requires Inv(s) && h !in s.config
    requires forall u :: ProcOf(after, u) == if u == t then p else ProcOf(s, u)
    requires after.store == s.store && after.fingerprint == s.fingerprint
    requires after.open == s.open + {h} && after.config.Keys == s.config.Keys + {h}
    requires forall g :: g in s.config ==> after.config[g] == s.config[g]
    requires Owns(ProcOf(s, t)).None? && Owns(p) == Some(h) && Uses(p).None?
    ensures ActiveSound(after) && (forall u :: UserSound(after, u)) && (forall u :: OwnerSound(after, u))
    ensures forall g :: Accounted(after, g)
  {
    hide Weight, Uses, Owns, GateSound, MigrationSound, InitSound, ProcOf;
    forall u ensures UserSound(after, u) { assert UserSound(s, u); }
    forall u ensures OwnerSound(after, u) {
      forall v ensures Owns(ProcOf(s, v)) != Some(h) { assert OwnerSound(s, v); }
      assert OwnerSound(s, u);
    }
    forall g ensures Accounted(after, g) {
      AccountedMoves(s, after, g, t);
      assert Owns(ProcOf(after, t)) == Some(h);
    }
  }

  /** An owner other than the goroutine that moved is still an owner. */
  lemma AccountedMoves(s: State, after: State, g: Handle, t: Thread)
    requires Inv(s) && forall u :: u != t ==> ProcOf(after, u) == ProcOf(s, u)
    ensures g in s.open && s.store != Some(g) && Owns(ProcOf(s, t)) != Some(g) ==>
              exists u :: Owns(ProcOf(after, u)) == Some(g)
  {
    hide Weight, Uses, Owns, GateSound, ActiveSound, UserSound, OwnerSound, MigrationSound, InitSound, ProcOf;
    assert Accounted(s, g);
    if g in s.open && s.store != Some(g) && Owns(ProcOf(s, t)) != Some(g) {
      var u :| Owns(ProcOf(s, u)) == Some(g);
      assert Owns(ProcOf(after, u)) == Some(g);
    }
  }

  /** Publishing an owned store while nobody uses the active one; the goroutine then owns the
      store it displaced. */
  lemma PublishStep(s: State, after: State, t: Thread, p: Proc, h: Handle)
    requires Inv(s) && Moved(s, after, t, p) && LockMoved(s, after, t, p)
    requires Owns(ProcOf(s, t)) == Some(h) && Owns(p) == s.store && Uses(p).None? && NoOtherUser(s, t)
    requires after.store == Some(h) && h in s.config && after.fingerprint == Some(s.config[h])
    requires after.open == s.open && after.config == s.config && after.migration == s.migration
    requires Moving(p) == Moving(ProcOf(s, t))
    ensures Inv(after)
  {
    hide Weight, Uses, Owns, Moving, InInit, GateSound;
    MovedGate(s, after, t, p);
    LockKept(s, after, t, p);
    MigrationKept(s, after, t, p);
    PublishedStores(s, after, t, p, h);
  }

  lemma PublishedStores(s: State, after: State, t: Thread, p: Proc, h: Handle)
    requires Inv(s)
    requires forall u :: ProcOf(after, u) == if u == t then p else ProcOf(s, u)
    requires Owns(ProcOf(s, t)) == Some(h) && Owns(p) == s.store && Uses(p).None? && NoOtherUser(s, t)
    requires after.store == Some(h) && h in s.config && after.fingerprint == Some(s.config[h])
    requires after.open == s.open && after.config == s.config
    ensures ActiveSound(after) && (forall u :: UserSound(after, u)) && (forall u :: OwnerSound(after, u))
    ensures forall g :: Accounted(after, g)
  {
    hide Weight, Uses, Owns, GateSound, MigrationSound, InitSound, ProcOf;
    assert OwnerSound(s, t);
    forall v ensures s.store.None? || Owns(ProcOf(s, v)) != s.store { assert OwnerSound(s, v); }
    forall u ensures OwnerSound(after, u) {
      assert OwnerSound(s, u);
    }
    forall g ensures Accounted(after, g) {
      if g == h {
        assert after.store == Some(g);
      } else if s.store == Some(g) {
        assert Owns(ProcOf(after, t)) == Some(g);
      } else {
        AccountedMoves(s, after, g, t);
      }
    }
  }

  /** Closing the store the goroutine owns, if it owns one. */
  lemma CloseOwnedStep(s: State, after: State, t: Thread, p: Proc)
    requires Inv(s) && Moved(s, after, t, p) && LockMoved(s, after, t, p)
    requires after.store == s.store && after.fingerprint == s.fingerprint && after.config == s.config
    requires after.open == Dispose(s.open, Owns(ProcOf(s, t))) && after.migration == s.migration
    requires Moving(p) == Moving(ProcOf(s, t)) && Owns(p).None? && Uses(p).None?
    ensures Inv(after)
  {
    hide Weight, Uses, Owns, Moving, InInit, GateSound;
    MovedGate(s, after, t, p);
    LockKept(s, after, t, p);
    MigrationKept(s, after, t, p);
    ClosedStores(s, after, t, p);
  }

  lemma ClosedStores(s: State, after: State, t: Thread, p: Proc)
    requires Inv(s)
    requires forall u :: ProcOf(after, u) == if u == t then p else ProcOf(s, u)
    requires after.store == s.store && after.fingerprint == s.fingerprint && after.config == s.config
    requires after.open == Dispose(s.open, Owns(ProcOf(s, t))) && Owns(p).None? && Uses(p).None?
    ensures ActiveSound(after) && (forall u :: UserSound(after, u)) && (forall u :: OwnerSound(after, u))
    ensures forall g :: Accounted(after, g)
  {
    hide Weight, Uses, Owns, GateSound, MigrationSound, InitSound, ProcOf;
    assert OwnerSound(s, t);
    forall u ensures UserSound(after, u) { assert UserSound(s, u); }
    forall u ensures OwnerSound(after, u) {
      assert OwnerSound(s, u);
    }
    forall g ensures Accounted(after, g) {
      AccountedMoves(s, after, g, t);
    }
  }

  /** Closing the active store itself while nobody uses it. */
  lemma CloseActiveStep(s: State, after: State, t: Thread, p: Proc)
    requires Inv(s) && Moved(s, after, t, p) && LockMoved(s, after, t, p)
    requires after.store.None? && after.fingerprint.None? && after.config == s.config
    requires after.open == Dispose(s.open, s.store) && after.migration == s.migration && NoOtherUser(s, t)
    requires Moving(p) == Moving(ProcOf(s, t)) && Owns(ProcOf(s, t)).None? && Owns(p).None? && Uses(p).None?
    ensures Inv(after)
  {
    hide Weight, Uses, Owns, Moving, InInit, GateSound;
    MovedGate(s, after, t, p);
    LockKept(s, after, t, p);
    MigrationKept(s, after, t, p);
    DeactivatedStores(s, after, t, p);
  }

  lemma DeactivatedStores(s: State, after: State, t: Thread, p: Proc)
    requires Inv(s)
    requires forall u :: ProcOf(after, u) == if u == t then p else ProcOf(s, u)
    requires after.store.None? && after.config == s.config && after.open == Dispose(s.open, s.store) && NoOtherUser(s, t)
    requires Owns(ProcOf(s, t)).None? && Owns(p).None? && Uses(p).None?
    ensures ActiveSound(after) && (forall u :: UserSound(after, u)) && (forall u :: OwnerSound(after, u))
    ensures forall g :: Accounted(after, g)
  {
    hide Weight, Uses, Owns, GateSound, MigrationSound, InitSound, ProcOf;
    forall u ensures OwnerSound(after, u) {
      assert OwnerSound(s, u);
    }
    forall g ensures Accounted(after, g) {
      AccountedMoves(s, after, g, t);
    }
  }

  // ---- the migration -------------------------------------------------------------------------------------

  /** The starter hands its lease to the goroutine that copies. */
  lemma RegisterStep(s: State, t: Thread, r: Thread)
    requires Inv(s) && CanMigrate(s, t, StartRegister(r)) && !s.closing && s.migration.None?
    ensures Inv(DoMigrate(s, t, StartRegister(r)))
  {
    hide GateSound, ActiveSound, UserSound, OwnerSound, Accounted, MigrationSound, InitSound, Total;
    var p := ProcOf(s, t);
    var runner := Migrating(p.target, p.handle);
    var after := DoMigrate(s, t, StartRegister(r));
    assert UserSound(s, t);
    RunnerWeight(p, runner);
    RegisterGate(s, t, r, runner);
    forall u ensures ProcOf(after, u) == if u == r then runner else if u == t then Idle else ProcOf(s, u) {}
    RegisterThreads(s, after, t, r, runner);
  }

  lemma RegisterGate(s: State, t: Thread, r: Thread, runner: Proc)
    requires GateSound(s) && t in s.threads && r !in s.threads && Weight(ProcOf(s, t)) == Weight(runner)
    ensures Total(s.threads[t := Idle][r := runner]) == Total(s.threads)
    ensures GateSound(s.(threads := s.threads[t := Idle][r := runner], migration := Some(r)))
  {
    hide Weight;
    TotalMoves(s, t, Idle);
    TotalMoves(s.(threads := s.threads[t := Idle]), r, runner);
    IdleWeighsNothing();
    assert t != r;
  }

  lemma RegisterThreads(s: State, after: State, t: Thread, r: Thread, runner: Proc)
    requires Inv(s) && t != r && ProcOf(s, r) == Idle && ProcOf(s, t).StartReady? && r !in s.finished
    requires runner == Migrating(ProcOf(s, t).target, ProcOf(s, t).handle)
    requires forall u :: ProcOf(after, u) == if u == r then runner else if u == t then Idle else ProcOf(s, u)
    requires after == s.(threads := after.threads, migration := Some(r)) && s.migration.None? && GateSound(after)
    ensures Inv(after)
  {
    hide GateSound, Weight, ProcOf;
    assert UserSound(s, t) && InitSound(s, t) && InitSound(s, r) && MigrationSound(s, t);
    forall u ensures UserSound(after, u) { assert UserSound(s, u); RunnerWeight(ProcOf(s, t), runner); }
    forall u ensures OwnerSound(after, u) { assert OwnerSound(s, u); }
    forall g ensures Accounted(after, g) {
      assert Accounted(s, g);
      if exists u :: Owns(ProcOf(s, u)) == Some(g) {
        var u :| Owns(ProcOf(s, u)) == Some(g);
        assert Owns(ProcOf(after, u)) == Some(g);
      }
    }
    forall u ensures MigrationSound(after, u) { assert MigrationSound(s, u); }
    forall u ensures InitSound(after, u) { assert InitSound(s, u); }
  }

  lemma RunnerWeight(p: Proc, runner: Proc)
    requires p.StartReady? && runner.Migrating?
    ensures Weight(runner) == GATE_WEIGHT == Weight(p)
  {
  }

  /** The migration forgets its cancel function and closes its done channel. */
  lemma MigrationClearStep(s: State, t: Thread)
    requires Inv(s) && ProcOf(s, t).MigrationReleased?
    ensures Inv(DoMigrate(s, t, MigrationClear))
  {
    hide GateSound, UserSound, OwnerSound, Accounted, InitSound, ActiveSound;
    var after := DoMigrate(s, t, MigrationClear);
    forall u ensures ProcOf(after, u) == if u == t then Idle else ProcOf(s, u) {}
    ClearGate(s, after, t);
    QuietStores(s, after, t, Idle);
    LockKept(s, after, t, Idle);
    forall u ensures MigrationSound(after, u) {
      assert MigrationSound(s, u) && MigrationSound(s, t);
    }
  }

  lemma ClearGate(s: State, after: State, t: Thread)
    requires GateSound(s) && ProcOf(s, t).MigrationReleased?
    requires after.threads == s.threads[t := Idle] && after.taken == s.taken
    ensures GateSound(after)
  {
    TotalMoves(s, t, Idle);
  }
}
