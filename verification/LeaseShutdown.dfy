/** Closing and shutdown: when the closing flag is up, what it keeps out, and what a shutdown may
    rely on once it has waited. */
module LeaseShutdown {
  import opened Wrappers
  import opened Lease
  import opened LeaseInvariant
  import opened LeaseRuns
  import opened LeaseStartup

  // ---- the flag ------------------------------------------------------------------------------------

  /** CloseStoreContext and StopStoreMigrationForShutdown raise the flag first of all. */
  predicate Raises(a: Action) {
    a == Close(CloseFlag) || a == Close(ShutdownFlag)
  }

  /** A close that gives up, a recovery and an initialisation take it down. */
  predicate Lowers(a: Action) {
    a == Close(CloseTimeout) || a == Close(CloseAcquireFailed) || a == Recover(RecoverClear) || a == Initialize(InitClear)
  }

  /** Step `i` raises the flag and no later one lowers it. */
  ghost predicate RaisedBy(events: seq<Event>, i: int) {
    0 <= i < |events| && Raises(events[i].action) && forall j :: i < j < |events| ==> !Lowers(events[j].action)
  }

  lemma FlagStep(s: State, t: Thread, a: Action)
    requires Enabled(s, t, a)
    ensures Apply(s, t, a).closing == (Raises(a) || (s.closing && !Lowers(a)))
  {
    match a
    case User(x) =>
    case Reload(x) =>
    case Recover(x) =>
    case Initialize(x) =>
    case Migrate(x) =>
    case Close(x) =>
  }

  predicate Quiet(events: seq<Event>) {
    forall j :: 0 <= j < |events| ==> !Lowers(events[j].action)
  }

  /** The flag is up exactly when some step raised it and none has taken it down since. */
  lemma {:induction false} FlagUpIff(s: State, events: seq<Event>)
    requires Legal(s, events)
    ensures Exec(s, events).closing <==> (s.closing && Quiet(events)) || exists i :: RaisedBy(events, i)
    decreases |events|
  {
    hide Enabled, Apply, Raises, Lowers;
    if events != [] {
      var t, a, rest := events[0].thread, events[0].action, events[1..];
      FlagStep(s, t, a);
      FlagUpIff(Apply(s, t, a), rest);
      assert Quiet(events) <==> !Lowers(a) && Quiet(rest) by {
        assert forall j :: 0 <= j < |rest| ==> rest[j] == events[j + 1];
        assert forall j :: 0 < j < |events| ==> events[j] == rest[j - 1];
      }
      RaisedLater(events);
    }
  }

  lemma RaisedLater(events: seq<Event>)
    requires events != []
    ensures (exists i :: RaisedBy(events, i)) <==>
            (Raises(events[0].action) && Quiet(events[1..])) || exists i :: RaisedBy(events[1..], i)
  {
    hide Raises, Lowers;
    var rest := events[1..];
    assert forall j :: 0 < j < |events| ==> events[j] == rest[j - 1];
    if i :| RaisedBy(events, i) {
      if i > 0 {
        assert RaisedBy(rest, i - 1);
      }
    }
    if i :| RaisedBy(rest, i) {
      assert RaisedBy(events, i + 1);
    }
    if Raises(events[0].action) && Quiet(rest) {
      assert RaisedBy(events, 0);
    }
  }

  /** From a state with the flag up, a run in which nobody lowers it keeps it up throughout. */
  lemma {:induction false} StaysUp(s: State, events: seq<Event>)
    requires Legal(s, events) && s.closing && Quiet(events)
    ensures ClosingThroughout(s, events)
    decreases |events|
  {
    hide Enabled, Apply, Raises, Lowers;
    if events != [] {
      FlagStep(s, events[0].thread, events[0].action);
      assert forall j :: 0 <= j < |events[1..]| ==> events[1..][j] == events[j + 1];
      StaysUp(Apply(s, events[0].thread, events[0].action), events[1..]);
    }
  }

  // ---- no store is opened while the flag is up -------------------------------------------------------

  /** A reload or a recovery that has been let through. */
  predicate PastCheck(p: Proc) {
    p.ReloadChecked? || p.ReloadOpened? || p.ReloadPublished?
    || p.RecoverChecked? || p.RecoverOpened? || p.RecoverPublished? || p.RecoverCleared?
  }

  lemma NoPass(s: State, t: Thread, a: Action, u: Thread)
    requires Enabled(s, t, a) && s.closing && PastCheck(ProcOf(Apply(s, t, a), u))
    ensures PastCheck(ProcOf(s, u))
  {
    if u != t {
      NoPassOther(s, t, a, u);
    } else if a.Reload? {
      ReloadTurnedAway(s, t, a.reload);
    } else if a.Recover? {
      RecoverTurnedAway(s, t, a.recover);
    } else {
      NothingToPass(s, t, a);
    }
  }

  lemma ReloadTurnedAway(s: State, t: Thread, a: ReloadStep)
    requires CanReload(s, t, a) && s.closing && PastCheck(ProcOf(DoReload(s, t, a), t))
    ensures PastCheck(ProcOf(s, t))
  {
  }

  lemma RecoverTurnedAway(s: State, t: Thread, a: RecoverStep)
    requires CanRecover(s, t, a) && s.closing && PastCheck(ProcOf(DoRecover(s, t, a), t))
    ensures PastCheck(ProcOf(s, t))
  {
  }

  lemma NothingToPass(s: State, t: Thread, a: Action)
    requires Enabled(s, t, a) && !a.Reload? && !a.Recover?
    ensures !PastCheck(ProcOf(Apply(s, t, a), t))
  {
    hide PastCheck, ProcOf, CanUser, CanInitialize, CanMigrate, CanClose, DoUser, DoInitialize, DoMigrate, DoClose;
    match a
    case User(x) => UserPassesNothing(s, t, x);
    case Initialize(x) => InitializePassesNothing(s, t, x);
    case Migrate(x) => MigratePassesNothing(s, t, x);
    case Close(x) => ClosePassesNothing(s, t, x);
  }

  lemma UserPassesNothing(s: State, t: Thread, a: UserStep)
    requires CanUser(s, t, a)
    ensures !PastCheck(ProcOf(DoUser(s, t, a), t))
  {
  }

  lemma InitializePassesNothing(s: State, t: Thread, a: InitStep)
    requires CanInitialize(s, t, a)
    ensures !PastCheck(ProcOf(DoInitialize(s, t, a), t))
  {
  }

  lemma MigratePassesNothing(s: State, t: Thread, a: MigrationStep)
    requires CanMigrate(s, t, a)
    ensures !PastCheck(ProcOf(DoMigrate(s, t, a), t))
  {
  }

  lemma ClosePassesNothing(s: State, t: Thread, a: CloseStep)
    requires CanClose(s, t, a)
    ensures !PastCheck(ProcOf(DoClose(s, t, a), t))
  {
  }

  lemma NoPassOther(s: State, t: Thread, a: Action, u: Thread)
    requires Enabled(s, t, a) && u != t && PastCheck(ProcOf(Apply(s, t, a), u))
    ensures PastCheck(ProcOf(s, u))
  {
    hide CanUser, CanReload, CanRecover, CanInitialize, CanMigrate, CanClose;
    hide DoUser, DoReload, DoRecover, DoInitialize, DoMigrate, DoClose;
    NewThreads(s, t, a);
  }

  /** While the flag stays up no reload and no recovery gets past its check. */
  lemma {:induction false} NoPassWhileClosing(s: State, events: seq<Event>, u: Thread)
    requires Legal(s, events) && ClosingThroughout(s, events) && PastCheck(ProcOf(Exec(s, events), u))
    ensures PastCheck(ProcOf(s, u))
    decreases |events|
  {
    hide Enabled, Apply, PastCheck, ProcOf;
    if events != [] {
      NoPassWhileClosing(Apply(s, events[0].thread, events[0].action), events[1..], u);
      NoPass(s, events[0].thread, events[0].action, u);
    }
  }

  /** With nobody past a check, only an initialisation could put a store into an empty place. */
  lemma EmptyStep(s: State, t: Thread, a: Action)
    requires Enabled(s, t, a) && s.store.None? && !PastCheck(ProcOf(s, t)) && !a.Initialize?
    ensures Apply(s, t, a).store.None?
  {
    match a
    case User(x) =>
    case Reload(x) =>
    case Recover(x) =>
    case Migrate(x) =>
    case Close(x) =>
  }

  /** Once a close has emptied the place it stays empty while the flag stays up, with nobody past a
      check and no initialisation. */
  lemma {:induction false} StaysEmpty(s: State, events: seq<Event>)
    requires Legal(s, events) && ClosingThroughout(s, events) && s.store.None?
    requires (forall u :: !PastCheck(ProcOf(s, u))) && NoneInitializes(events)
    ensures Exec(s, events).store.None?
    decreases |events|
  {
    hide Enabled, Apply, PastCheck, ProcOf;
    if events != [] {
      var t, a := events[0].thread, events[0].action;
      EmptyStep(s, t, a);
      forall u ensures !PastCheck(ProcOf(Apply(s, t, a), u)) {
        if PastCheck(ProcOf(Apply(s, t, a), u)) {
          NoPass(s, t, a, u);
        }
      }
      assert forall i :: 0 <= i < |events[1..]| ==> events[1..][i] == events[i + 1];
      StaysEmpty(Apply(s, t, a), events[1..]);
    }
  }

  /** What a close leaves behind: no active store, and the one that was active is closed. */
  lemma CloseEmpties(s: State, t: Thread)
    requires Enabled(s, t, Close(CloseStore))
    ensures var after := Apply(s, t, Close(CloseStore));
            after.store.None? && after.fingerprint.None?
            && after.open == s.open - (if s.store.Some? then {s.store.value} else {})
  {
  }

  /** Whoever closes holds the whole gate, so nobody is past a check of its own. */
  lemma CloserAlone(s: State, t: Thread)
    requires Inv(s) && ProcOf(s, t).CloseHeld?
    ensures forall u :: !PastCheck(ProcOf(s, u))
  {
    hide ActiveSound, UserSound, OwnerSound, Accounted, MigrationSound, InitSound;
    forall u ensures !PastCheck(ProcOf(s, u)) {
      if u != t {
        WholeGateAlone(s, t, u);
      }
    }
  }

  /** Main result on closing. From the moment the store is closed, as long as no initialisation takes
      a step and nobody lowers the flag, there is no active store, and reloads and recoveries are
      turned away. */
  lemma ClosedStaysClosed(s: State, t: Thread, events: seq<Event>, u: Thread)
    requires Inv(s) && s.closing && Enabled(s, t, Close(CloseStore))
    requires Legal(Apply(s, t, Close(CloseStore)), events) && Quiet(events) && NoneInitializes(events)
    ensures var after := Exec(Apply(s, t, Close(CloseStore)), events);
            after.closing && after.store.None? && !PastCheck(ProcOf(after, u))
  {
    hide Inv, Quiet, NoneInitializes, PastCheck, ProcOf, ClosingThroughout;
    var closed := Apply(s, t, Close(CloseStore));
    CloserHolds(s, t);
    CloserAlone(s, t);
    FlagStep(s, t, Close(CloseStore));
    CloseEmpties(s, t);
    forall v ensures !PastCheck(ProcOf(closed, v)) {
      if PastCheck(ProcOf(closed, v)) {
        NoPass(s, t, Close(CloseStore), v);
      }
    }
    StaysUp(closed, events);
    StaysEmpty(closed, events);
    if PastCheck(ProcOf(Exec(closed, events), u)) {
      NoPassWhileClosing(closed, events, u);
    }
    UpAtEnd(closed, events);
  }

  lemma CloserHolds(s: State, t: Thread)
    requires Enabled(s, t, Close(CloseStore))
    ensures ProcOf(s, t).CloseHeld?
    ensures !Lowers(Close(CloseStore))
  {
  }

  lemma {:induction false} UpAtEnd(s: State, events: seq<Event>)
    requires Legal(s, events) && ClosingThroughout(s, events)
    ensures Exec(s, events).closing
    decreases |events|
  {
    hide Enabled, Apply;
    if events != [] {
      UpAtEnd(Apply(s, events[0].thread, events[0].action), events[1..]);
    }
  }

  // ---- waiting for a migration -----------------------------------------------------------------------

  predicate Waits(p: Proc, registered: Option<Thread>) {
    p == CloseWaiting(registered) || p == ShutdownWaiting(registered)
  }

  lemma OthersWait(s: State, t: Thread, a: Action, u: Thread, registered: Option<Thread>)
    requires Enabled(s, t, a) && u != t && Waits(ProcOf(s, u), registered)
    ensures Waits(ProcOf(Apply(s, t, a), u), registered)
  {
    hide CanUser, CanReload, CanRecover, CanInitialize, CanMigrate, CanClose;
    hide DoUser, DoReload, DoRecover, DoInitialize, DoMigrate, DoClose;
    NewThreads(s, t, a);
  }

  /** A migration that runs while the flag stays up is the one registered when it was raised; once that
      is finished none runs. */
  lemma {:induction false} WaitedMeansQuiet(s: State, events: seq<Event>, registered: Option<Thread>)
    requires Inv(s) && Legal(s, events) && AllGuarded(s, events) && ClosingThroughout(s, events)
    requires forall m :: Moving(ProcOf(s, m)) ==> registered == Some(m)
    requires !Awaited(Exec(s, events), registered)
    ensures forall m :: !Moving(ProcOf(Exec(s, events), m))
    decreases |events|
  {
    hide Enabled, Apply, Moving, ProcOf, Guarded, Inv;
    if events == [] {
      NobodyMoves(s, registered);
    } else {
      var u, a, rest := events[0].thread, events[0].action, events[1..];
      StepKeepsInv(s, u, a);
      forall m | Moving(ProcOf(Apply(s, u, a), m)) ensures registered == Some(m) {
        NoStart(s, u, a, m);
      }
      WaitedMeansQuiet(Apply(s, u, a), rest, registered);
    }
  }

  lemma NobodyMoves(s: State, registered: Option<Thread>)
    requires Inv(s) && !Awaited(s, registered)
    requires forall m :: Moving(ProcOf(s, m)) ==> registered == Some(m)
    ensures forall m :: !Moving(ProcOf(s, m))
  {
    hide GateSound, ActiveSound, UserSound, OwnerSound, Accounted, InitSound;
    forall m ensures !Moving(ProcOf(s, m)) {
      assert MigrationSound(s, m);
    }
  }

  lemma Registered(s: State, t: Thread, a: Action)
    requires Inv(s) && Enabled(s, t, a) && Raises(a)
    ensures Waits(ProcOf(Apply(s, t, a), t), s.migration) && Apply(s, t, a).closing
    ensures forall m :: Moving(ProcOf(Apply(s, t, a), m)) ==> s.migration == Some(m)
  {
    hide GateSound, ActiveSound, UserSound, OwnerSound, Accounted, InitSound;
    forall m | Moving(ProcOf(Apply(s, t, a), m)) ensures s.migration == Some(m) {
      assert MigrationSound(s, m);
    }
  }

  /** Main result on shutdown. When a close or a shutdown has waited for the migration it found, with
      the flag up all the while, no migration is copying or winding down. */
  lemma WaitedForMigration(s: State, t: Thread, a: Action, events: seq<Event>)
    requires Inv(s) && Enabled(s, t, a) && Raises(a)
    requires Legal(Apply(s, t, a), events) && AllGuarded(Apply(s, t, a), events)
    requires Quiet(events) && forall i :: 0 <= i < |events| ==> events[i].thread != t
    requires var end := Exec(Apply(s, t, a), events);
             Enabled(end, t, Close(CloseWaited)) || Enabled(end, t, Close(ShutdownWaited))
    ensures forall m :: !Moving(ProcOf(Exec(Apply(s, t, a), events), m))
  {
    hide Inv, Moving, ProcOf, Quiet, Raises, Apply, Enabled;
    Registered(s, t, a);
    RaiserGuarded(s, a);
    StepKeepsInv(s, t, a);
    var flagged := Apply(s, t, a);
    StaysUp(flagged, events);
    StillWaits(flagged, events, t, s.migration);
    DoneWaiting(Exec(flagged, events), t, s.migration);
    WaitedMeansQuiet(flagged, events, s.migration);
  }

  lemma RaiserGuarded(s: State, a: Action)
    requires Raises(a)
    ensures Guarded(s, a)
  {
  }

  lemma {:induction false} StillWaits(s: State, events: seq<Event>, t: Thread, registered: Option<Thread>)
    requires Legal(s, events) && Waits(ProcOf(s, t), registered) && forall i :: 0 <= i < |events| ==> events[i].thread != t
    ensures Waits(ProcOf(Exec(s, events), t), registered)
    decreases |events|
  {
    hide Enabled, Apply, ProcOf, Waits;
    if events != [] {
      OthersWait(s, events[0].thread, events[0].action, t, registered);
      assert forall i :: 0 <= i < |events[1..]| ==> events[1..][i] == events[i + 1];
      StillWaits(Apply(s, events[0].thread, events[0].action), events[1..], t, registered);
    }
  }

  lemma DoneWaiting(s: State, t: Thread, registered: Option<Thread>)
    requires Waits(ProcOf(s, t), registered)
    requires Enabled(s, t, Close(CloseWaited)) || Enabled(s, t, Close(ShutdownWaited))
    ensures !Awaited(s, registered)
  {
  }

  // ---- what the checks decide -------------------------------------------------------------------------

  /** Each check lets its caller through exactly under its condition, and otherwise gives everything
      back: a goroutine that is turned away is idle and holds neither the gate nor the init lock. */
  lemma TurnedAwayIff(s: State, t: Thread, a: Action)
    requires Inv(s) && Enabled(s, t, a)
    ensures a == Reload(ReloadCheck) || a == Recover(RecoverCheck) ==>
              (ProcOf(Apply(s, t, a), t).Idle? <==> s.closing)
    ensures a == Initialize(InitCheck) ==> (ProcOf(Apply(s, t, a), t).Idle? <==> s.store.Some?)
    ensures a == User(SharedGet) || a == User(ExclusiveGet) ==>
              (ProcOf(Apply(s, t, a), t).Idle? <==> s.store.None?)
    ensures a == Migrate(StartGet) ==>
              (ProcOf(Apply(s, t, a), t).Idle? <==> s.store.None? || s.fingerprint != Some(ProcOf(s, t).target))
    ensures a.Migrate? && a.migrate.StartRegister? ==>
              (Apply(s, t, a).migration == Some(a.migrate.runner) <==> !s.closing && s.migration.None?)
    ensures ProcOf(Apply(s, t, a), t).Idle? && ProcOf(s, t).RecoverHeld? ==> Apply(s, t, a).initLock.None?
  {
    hide GateSound, ActiveSound, UserSound, OwnerSound, Accounted, InitSound;
    match a
    case User(x) =>
    case Reload(x) =>
    case Recover(x) =>
    case Initialize(x) =>
    case Migrate(x) => if x.StartRegister? { RunnerIsNew(s, t, x); }
    case Close(x) =>
  }

  lemma RunnerIsNew(s: State, t: Thread, a: MigrationStep)
    requires Inv(s) && CanMigrate(s, t, a) && a.StartRegister?
    ensures s.migration != Some(a.runner)
  {
    hide GateSound, ActiveSound, UserSound, OwnerSound, Accounted, InitSound;
    assert MigrationSound(s, a.runner);
  }

  predicate PublishesStore(a: Action) {
    a == Reload(ReloadPublish) || a == Recover(RecoverPublish) || a == Initialize(InitPublish)
  }

  /** A publication makes the store its goroutine opened the active one, under the configuration it was
      opened with; a reload or recovery then has the previous store to close, and closes it last. */
  lemma PublishesOwnStore(s: State, t: Thread, a: Action)
    requires Inv(s) && Enabled(s, t, a) && PublishesStore(a)
    ensures var after, mine := Apply(s, t, a), ProcOf(s, t).handle;
            && after.store == Some(mine) && mine in s.config && after.fingerprint == Some(s.config[mine])
            && (!a.Initialize? ==> ProcOf(after, t).previous == s.store) && after.open == s.open
  {
    hide GateSound, ActiveSound, UserSound, OwnerSound, Accounted, InitSound, MigrationSound;
    OwnedConfigured(s, t);
  }

  lemma FinishClosesPrevious(s: State, t: Thread, a: Action)
    requires Enabled(s, t, a) && (a == Reload(ReloadFinish) || a == Recover(RecoverFinish))
    ensures var previous := ProcOf(s, t).previous;
            Apply(s, t, a).open == s.open - (if previous.Some? then {previous.value} else {})
  {
  }

  /** The gate admits up to 1024 shared leases beside each other, and an exclusive one to an empty gate;
      a migration does not wait for the gate but starts only when it is empty. */
  lemma GateAdmitsIff(s: State, t: Thread, target: int)
    requires Inv(s)
    ensures Enabled(s, t, User(SharedAcquire)) <==> ProcOf(s, t).Idle? && Total(s.threads) < 1024
    ensures Enabled(s, t, User(ExclusiveAcquire)) <==> ProcOf(s, t).Idle? && Total(s.threads) == 0
    ensures Enabled(s, t, Reload(ReloadAcquire)) <==> ProcOf(s, t).Idle? && Total(s.threads) == 0
    ensures Enabled(s, t, Recover(RecoverAcquire)) <==> ProcOf(s, t).RecoverLocked? && Total(s.threads) == 0
    ensures Enabled(s, t, Migrate(StartTry(target))) <==> ProcOf(s, t).Idle? && Total(s.threads) == 0
    ensures Enabled(s, t, Close(CloseAcquire)) <==> ProcOf(s, t).CloseReady? && Total(s.threads) == 0
  {
    hide ActiveSound, UserSound, OwnerSound, Accounted, InitSound, MigrationSound;
  }
}
