/** Safety of the lease protocol over every run. */
module LeaseRuns {
  import opened Wrappers
  import opened Lease
  import opened LeaseInvariant
  import opened LeaseSteps

  // ---- every step, family by family ---------------------------------------------------------------

  lemma GateOf(s: State)
    requires Inv(s)
    ensures s.taken <= GATE_WEIGHT
  {
  }

  lemma UserSteps(s: State, t: Thread, a: UserStep)
    requires Inv(s) && CanUser(s, t, a)
    ensures Inv(DoUser(s, t, a))
  {
    hide Inv;
    GateOf(s);
    QuietStep(s, DoUser(s, t, a), t, ProcOf(DoUser(s, t, a), t));
  }

  lemma OwnedConfigured(s: State, t: Thread)
    requires Inv(s)
    ensures Owns(ProcOf(s, t)).Some? ==> Owns(ProcOf(s, t)).value in s.config
  {
    hide GateSound, UserSound, Accounted, MigrationSound, InitSound, Owns, ProcOf;
    assert OwnerSound(s, t);
  }

  lemma ReloadSteps(s: State, t: Thread, a: ReloadStep)
    requires Inv(s) && CanReload(s, t, a)
    ensures Inv(DoReload(s, t, a))
  {
    hide Inv, NoOtherUser;
    var p, after := ProcOf(s, t), DoReload(s, t, a);
    GateOf(s);
    match a
    case ReloadOpen(h, c) => OpenStep(s, after, t, ReloadOpened(h), h, c);
    case ReloadPublish =>
      WholeGateNoUser(s, t);
      OwnedConfigured(s, t);
      PublishStep(s, after, t, ReloadPublished(s.store), p.handle);
    case ReloadFinish => CloseOwnedStep(s, after, t, Idle);
    case _ => ReloadQuietSteps(s, t, a);
  }

  lemma ReloadQuietSteps(s: State, t: Thread, a: ReloadStep)
    requires Inv(s) && CanReload(s, t, a) && (a.ReloadAcquire? || a.ReloadCheck? || a.ReloadFail?)
    ensures Inv(DoReload(s, t, a))
  {
    hide Inv;
    GateOf(s);
    QuietStep(s, DoReload(s, t, a), t, ProcOf(DoReload(s, t, a), t));
  }

  lemma RecoverSteps(s: State, t: Thread, a: RecoverStep)
    requires Inv(s) && CanRecover(s, t, a)
    ensures Inv(DoRecover(s, t, a))
  {
    hide Inv, NoOtherUser;
    var p, after := ProcOf(s, t), DoRecover(s, t, a);
    GateOf(s);
    match a
    case RecoverOpen(h, c) => OpenStep(s, after, t, RecoverOpened(h), h, c);
    case RecoverPublish =>
      WholeGateNoUser(s, t);
      OwnedConfigured(s, t);
      PublishStep(s, after, t, RecoverPublished(s.store), p.handle);
    case RecoverAbort => CloseOwnedStep(s, after, t, Idle);
    case RecoverFinish => CloseOwnedStep(s, after, t, Idle);
    case _ => RecoverQuietSteps(s, t, a);
  }

  lemma RecoverQuietSteps(s: State, t: Thread, a: RecoverStep)
    requires Inv(s) && CanRecover(s, t, a) && !a.RecoverOpen? && !a.RecoverPublish? && !a.RecoverAbort? && !a.RecoverFinish?
    ensures Inv(DoRecover(s, t, a))
  {
    hide Inv;
    if a.RecoverLock? || a.RecoverGiveUp? || a.RecoverAcquire? {
      RecoverEntrySteps(s, t, a);
    } else {
      RecoverHeldSteps(s, t, a);
    }
  }

  lemma RecoverEntrySteps(s: State, t: Thread, a: RecoverStep)
    requires Inv(s) && CanRecover(s, t, a) && (a.RecoverLock? || a.RecoverGiveUp? || a.RecoverAcquire?)
    ensures Inv(DoRecover(s, t, a))
  {
    hide Inv;
    GateOf(s);
    QuietStep(s, DoRecover(s, t, a), t, ProcOf(DoRecover(s, t, a), t));
  }

  lemma RecoverHeldSteps(s: State, t: Thread, a: RecoverStep)
    requires Inv(s) && CanRecover(s, t, a) && (a.RecoverCheck? || a.RecoverFail? || a.RecoverClear?)
    ensures Inv(DoRecover(s, t, a))
  {
    hide Inv;
    GateOf(s);
    QuietStep(s, DoRecover(s, t, a), t, ProcOf(DoRecover(s, t, a), t));
  }

  lemma InitSteps(s: State, t: Thread, a: InitStep)
    requires Inv(s) && CanInitialize(s, t, a) && (a.InitPublish? ==> s.store.None?)
    ensures Inv(DoInitialize(s, t, a))
  {
    hide Inv, NoOtherUser;
    var p, after := ProcOf(s, t), DoInitialize(s, t, a);
    GateOf(s);
    match a
    case InitOpen(h, c) => OpenStep(s, after, t, InitOpened(h), h, c);
    case InitPublish =>
      NoStoreNoUser(s, t);
      OwnedConfigured(s, t);
      PublishStep(s, after, t, InitPublished, p.handle);
    case _ => InitQuietSteps(s, t, a);
  }

  lemma InitQuietSteps(s: State, t: Thread, a: InitStep)
    requires Inv(s) && CanInitialize(s, t, a) && !a.InitOpen? && !a.InitPublish?
    ensures Inv(DoInitialize(s, t, a))
  {
    hide Inv;
    if a.InitLock? || a.InitCheck? {
      InitEntrySteps(s, t, a);
    } else {
      InitExitSteps(s, t, a);
    }
  }

  lemma InitEntrySteps(s: State, t: Thread, a: InitStep)
    requires Inv(s) && CanInitialize(s, t, a) && (a.InitLock? || a.InitCheck?)
    ensures Inv(DoInitialize(s, t, a))
  {
    hide Inv;
    GateOf(s);
    QuietStep(s, DoInitialize(s, t, a), t, ProcOf(DoInitialize(s, t, a), t));
  }

  lemma InitExitSteps(s: State, t: Thread, a: InitStep)
    requires Inv(s) && CanInitialize(s, t, a) && (a.InitFail? || a.InitClear? || a.InitUnlock?)
    ensures Inv(DoInitialize(s, t, a))
  {
    hide Inv;
    GateOf(s);
    QuietStep(s, DoInitialize(s, t, a), t, ProcOf(DoInitialize(s, t, a), t));
  }

  lemma MigrationSteps(s: State, t: Thread, a: MigrationStep)
    requires Inv(s) && CanMigrate(s, t, a)
    ensures Inv(DoMigrate(s, t, a))
  {
    hide Inv;
    var after := DoMigrate(s, t, a);
    GateOf(s);
    match a
    case StartRegister(r) =>
      if s.closing || s.migration.Some? {
        QuietStep(s, after, t, Idle);
      } else {
        RegisterStep(s, t, r);
      }
    case MigrationClear => MigrationClearStep(s, t);
    case _ => MigrationQuietSteps(s, t, a);
  }

  lemma MigrationQuietSteps(s: State, t: Thread, a: MigrationStep)
    requires Inv(s) && CanMigrate(s, t, a) && !a.StartRegister? && !a.MigrationClear?
    ensures Inv(DoMigrate(s, t, a))
  {
    hide Inv;
    GateOf(s);
    QuietStep(s, DoMigrate(s, t, a), t, ProcOf(DoMigrate(s, t, a), t));
  }

  lemma CloseSteps(s: State, t: Thread, a: CloseStep)
    requires Inv(s) && CanClose(s, t, a)
    ensures Inv(DoClose(s, t, a))
  {
    hide Inv, NoOtherUser;
    var after := DoClose(s, t, a);
    GateOf(s);
    if a.CloseStore? {
      WholeGateNoUser(s, t);
      CloseActiveStep(s, after, t, CloseDone);
    } else if a.CloseAcquire? || a.CloseRelease? {
      CloseGateSteps(s, t, a);
    } else if a.ShutdownFlag? || a.ShutdownWaited? || a.ShutdownTimeout? {
      ShutdownSteps(s, t, a);
    } else {
      FlagSteps(s, t, a);
    }
  }

  lemma CloseGateSteps(s: State, t: Thread, a: CloseStep)
    requires Inv(s) && CanClose(s, t, a) && (a.CloseAcquire? || a.CloseRelease?)
    ensures Inv(DoClose(s, t, a))
  {
    hide Inv;
    GateOf(s);
    QuietStep(s, DoClose(s, t, a), t, ProcOf(DoClose(s, t, a), t));
  }

  lemma ShutdownSteps(s: State, t: Thread, a: CloseStep)
    requires Inv(s) && CanClose(s, t, a) && (a.ShutdownFlag? || a.ShutdownWaited? || a.ShutdownTimeout?)
    ensures Inv(DoClose(s, t, a))
  {
    hide Inv;
    GateOf(s);
    QuietStep(s, DoClose(s, t, a), t, ProcOf(DoClose(s, t, a), t));
  }

  /** Steps of closing that neither take nor give back the lease. */
  lemma FlagSteps(s: State, t: Thread, a: CloseStep)
    requires Inv(s) && CanClose(s, t, a) && (a.CloseFlag? || a.CloseWaited? || a.CloseTimeout? || a.CloseAcquireFailed?)
    ensures Inv(DoClose(s, t, a))
  {
    hide Inv;
    GateOf(s);
    QuietStep(s, DoClose(s, t, a), t, ProcOf(DoClose(s, t, a), t));
  }

  predicate PublishesInit(a: Action) {
    a.Initialize? && a.init.InitPublish?
  }

  /** A step of InitializeStore may only publish into an empty place. */
  predicate Guarded(s: State, a: Action) {
    PublishesInit(a) ==> s.store.None?
  }

  /** Every step but an unguarded publication by InitializeStore keeps the invariant. */
  lemma StepKeepsInv(s: State, t: Thread, a: Action)
    requires Inv(s) && Enabled(s, t, a) && Guarded(s, a)
    ensures Inv(Apply(s, t, a))
  {
    hide Inv, CanUser, CanReload, CanRecover, CanInitialize, CanMigrate, CanClose;
    hide DoUser, DoReload, DoRecover, DoInitialize, DoMigrate, DoClose;
    match a
    case User(x) => UserSteps(s, t, x);
    case Reload(x) => ReloadSteps(s, t, x);
    case Recover(x) => RecoverSteps(s, t, x);
    case Initialize(x) => InitSteps(s, t, x);
    case Migrate(x) => MigrationSteps(s, t, x);
    case Close(x) => CloseSteps(s, t, x);
  }

  /** InitializeStore takes no lease. Its publishing step keeps the protocol sound exactly when
      no store has become active since it looked: otherwise the active store is replaced under
      whoever uses it and is never closed. */
  lemma InitPublishSoundIff(s: State, t: Thread)
    requires Inv(s) && Enabled(s, t, Initialize(InitPublish))
    ensures Inv(Apply(s, t, Initialize(InitPublish))) <==> s.store.None?
  {
    hide GateSound, UserSound, MigrationSound, InitSound;
    if s.store.None? {
      StepKeepsInv(s, t, Initialize(InitPublish));
    } else {
      var g, after := s.store.value, Apply(s, t, Initialize(InitPublish));
      assert OwnerSound(s, t);
      forall u ensures Owns(ProcOf(after, u)) != Some(g) {
        assert OwnerSound(s, u);
      }
      assert !Accounted(after, g);
    }
  }

  // ---- runs -----------------------------------------------------------------------------------------

  datatype Event = Event(thread: Thread, action: Action)

  predicate Legal(s: State, events: seq<Event>)
    decreases |events|
  {
    events == [] ||
    (Enabled(s, events[0].thread, events[0].action)
     && Legal(Apply(s, events[0].thread, events[0].action), events[1..]))
  }

  function Exec(s: State, events: seq<Event>): State
    requires Legal(s, events)
    decreases |events|
  {
    if events == [] then s else Exec(Apply(s, events[0].thread, events[0].action), events[1..])
  }

  /** Every publication by InitializeStore in the run finds no active store. */
  predicate AllGuarded(s: State, events: seq<Event>)
    requires Legal(s, events)
    decreases |events|
  {
    events == [] ||
    (Guarded(s, events[0].action) && AllGuarded(Apply(s, events[0].thread, events[0].action), events[1..]))
  }

  lemma {:induction false} RunKeepsInv(s: State, events: seq<Event>)
    requires Inv(s) && Legal(s, events) && AllGuarded(s, events)
    ensures Inv(Exec(s, events))
    decreases |events|
  {
    hide Inv, Enabled, Apply, Guarded;
    if events != [] {
      StepKeepsInv(s, events[0].thread, events[0].action);
      RunKeepsInv(Apply(s, events[0].thread, events[0].action), events[1..]);
    }
  }

  ghost predicate Reached(events: seq<Event>, s: State) {
    Legal(START, events) && AllGuarded(START, events) && s == Exec(START, events)
  }

  lemma ReachedInv(events: seq<Event>, s: State)
    requires Reached(events, s)
    ensures Inv(s)
  {
    hide Inv;
    StartInv();
    RunKeepsInv(START, events);
  }

  // ---- main results ------------------------------------------------------------------------------------

  /** While a migration copies, it alone holds a lease, and its destination is the open active
      store with the configuration the migration was started for. */
  lemma MigrationHoldsAlone(events: seq<Event>, s: State, m: Thread)
    requires Reached(events, s) && ProcOf(s, m).Migrating?
    ensures s.taken == GATE_WEIGHT && forall u :: u != m ==> Weight(ProcOf(s, u)) == 0
    ensures s.store == Some(ProcOf(s, m).handle) && ProcOf(s, m).handle in s.open
    ensures s.fingerprint == Some(ProcOf(s, m).target) && s.migration == Some(m)
  {
    hide Reached, OwnerSound, Accounted, InitSound, GateSound;
    ReachedInv(events, s);
    forall u | u != m ensures Weight(ProcOf(s, u)) == 0 { WholeGateAlone(s, m, u); }
    assert UserSound(s, m) && MigrationSound(s, m);
    TakenByOne(s, m);
  }

  lemma TakenByOne(s: State, m: Thread)
    requires GateSound(s) && m in s.threads && Weight(ProcOf(s, m)) == GATE_WEIGHT
    ensures s.taken == GATE_WEIGHT
  {
    hide Weight;
    TotalWithout(s.threads, m);
  }

  /** At most one migration is registered, copying or winding down. */
  lemma OneMigration(events: seq<Event>, s: State, a: Thread, b: Thread)
    requires Reached(events, s) && Moving(ProcOf(s, a)) && Moving(ProcOf(s, b))
    ensures a == b && s.migration == Some(a)
  {
    hide Reached, OwnerSound, Accounted, InitSound, GateSound, UserSound, ActiveSound, Moving;
    ReachedInv(events, s);
    assert MigrationSound(s, a) && MigrationSound(s, b);
  }

  /** A goroutine that works on a store under a lease never sees it replaced or closed: every
      step of any other goroutine leaves the store active and open. */
  lemma LeaseStable(events: seq<Event>, s: State, u: Thread, t: Thread, a: Action)
    requires Reached(events, s) && Uses(ProcOf(s, u)).Some? && t != u
    requires Enabled(s, t, a) && Guarded(s, a)
    ensures var after, h := Apply(s, t, a), Uses(ProcOf(s, u)).value;
            s.store == Some(h) && h in s.open && after.store == Some(h) && h in after.open
  {
    hide Reached, OwnerSound, Accounted, InitSound, GateSound, MigrationSound, Weight, Enabled, Guarded;
    ReachedInv(events, s);
    StepKeepsInv(s, t, a);
    var after := Apply(s, t, a);
    OthersStay(s, t, a, u);
    assert UserSound(s, u) && UserSound(after, u);
  }

  lemma OthersStay(s: State, t: Thread, a: Action, u: Thread)
    requires Enabled(s, t, a) && u != t
    ensures ProcOf(s, u) == Idle || ProcOf(Apply(s, t, a), u) == ProcOf(s, u)
  {
    hide CanUser, CanReload, CanRecover, CanInitialize, CanMigrate, CanClose;
    hide DoUser, DoReload, DoRecover, DoInitialize, DoMigrate, DoClose;
    NewThreads(s, t, a);
  }

  /** `t` moved to `p` and started a new goroutine `r`, a migration at `q`. */
  ghost predicate Spawned(before: map<Thread, Proc>, after: map<Thread, Proc>, t: Thread, p: Proc, r: Thread, q: Proc) {
    r != t && r !in before && Moving(q) && after == before[t := p][r := q]
  }

  /** A step moves its own goroutine; only registering a migration starts another one, and only
      while the store is not closing. */
  lemma NewThreads(s: State, t: Thread, a: Action)
    requires Enabled(s, t, a)
    ensures var after, p := Apply(s, t, a).threads, ProcOf(Apply(s, t, a), t);
            && (Moving(p) ==> Moving(ProcOf(s, t)))
            && (after == s.threads[t := p]
                || (!s.closing && exists r, q :: Spawned(s.threads, after, t, p, r, q)))
  {
    match a
    case User(x) => UserThreads(s, t, x);
    case Reload(x) => ReloadThreads(s, t, x);
    case Recover(x) => RecoverThreads(s, t, x);
    case Initialize(x) => InitThreads(s, t, x);
    case Migrate(x) => MigrateThreads(s, t, x);
    case Close(x) => CloseThreads(s, t, x);
  }

  lemma UserThreads(s: State, t: Thread, a: UserStep)
    requires CanUser(s, t, a)
    ensures DoUser(s, t, a).threads == s.threads[t := ProcOf(DoUser(s, t, a), t)] && !Moving(ProcOf(DoUser(s, t, a), t))
  {
  }

  lemma ReloadThreads(s: State, t: Thread, a: ReloadStep)
    requires CanReload(s, t, a)
    ensures DoReload(s, t, a).threads == s.threads[t := ProcOf(DoReload(s, t, a), t)] && !Moving(ProcOf(DoReload(s, t, a), t))
  {
  }

  lemma RecoverThreads(s: State, t: Thread, a: RecoverStep)
    requires CanRecover(s, t, a)
    ensures DoRecover(s, t, a).threads == s.threads[t := ProcOf(DoRecover(s, t, a), t)] && !Moving(ProcOf(DoRecover(s, t, a), t))
  {
  }

  lemma InitThreads(s: State, t: Thread, a: InitStep)
    requires CanInitialize(s, t, a)
    ensures DoInitialize(s, t, a).threads == s.threads[t := ProcOf(DoInitialize(s, t, a), t)]
            && !Moving(ProcOf(DoInitialize(s, t, a), t))
  {
  }

  lemma CloseThreads(s: State, t: Thread, a: CloseStep)
    requires CanClose(s, t, a)
    ensures DoClose(s, t, a).threads == s.threads[t := ProcOf(DoClose(s, t, a), t)] && !Moving(ProcOf(DoClose(s, t, a), t))
  {
  }

  lemma MigrateThreads(s: State, t: Thread, a: MigrationStep)
    requires CanMigrate(s, t, a)
    ensures var after, p := DoMigrate(s, t, a).threads, ProcOf(DoMigrate(s, t, a), t);
            && (Moving(p) ==> Moving(ProcOf(s, t)))
            && (after == s.threads[t := p]
                || (!s.closing && exists r, q :: Spawned(s.threads, after, t, p, r, q)))
  {
    if a.StartRegister? && !s.closing && s.migration.None? {
      var p := ProcOf(s, t);
      assert Spawned(s.threads, DoMigrate(s, t, a).threads, t, Idle, a.runner, Migrating(p.target, p.handle));
    }
  }

  /** When every goroutine has finished, the active store is the only open one: none leaks. */
  lemma NothingLeaks(events: seq<Event>, s: State)
    requires Reached(events, s) && forall t :: ProcOf(s, t).Idle?
    ensures s.open == if s.store.Some? then {s.store.value} else {}
    ensures s.taken == 0
  {
    hide Reached, OwnerSound, InitSound, MigrationSound, UserSound;
    ReachedInv(events, s);
    forall h | h in s.open ensures s.store == Some(h) { assert Accounted(s, h); }
    AllIdle(s.threads) by { forall t | t in s.threads ensures s.threads[t] == Idle { assert ProcOf(s, t).Idle?; } }
  }

  lemma {:induction false} AllIdle(threads: map<Thread, Proc>)
    requires forall t :: t in threads ==> threads[t] == Idle
    ensures Total(threads) == 0
    decreases |threads|
  {
    if threads != map[] {
      var t :| t in threads;
      TotalWithout(threads, t);
      AllIdle(threads - {t});
    }
  }

  /** The closing flag stays up in every state of the run. */
  predicate ClosingThroughout(s: State, events: seq<Event>)
    requires Legal(s, events)
    decreases |events|
  {
    s.closing && (events == [] || ClosingThroughout(Apply(s, events[0].thread, events[0].action), events[1..]))
  }

  lemma NoStart(s: State, t: Thread, a: Action, m: Thread)
    requires Enabled(s, t, a) && s.closing && Moving(ProcOf(Apply(s, t, a), m))
    ensures Moving(ProcOf(s, m))
  {
    hide Enabled, Apply, Moving;
    NewThreads(s, t, a);
  }

  /** From the moment closing is flagged until the flag is cleared no migration starts. */
  lemma {:induction false} NoStartWhileClosing(s: State, events: seq<Event>, m: Thread)
    requires Legal(s, events) && ClosingThroughout(s, events) && Moving(ProcOf(Exec(s, events), m))
    ensures Moving(ProcOf(s, m))
    decreases |events|
  {
    hide Enabled, Apply, Moving, ProcOf;
    if events != [] {
      NoStartWhileClosing(Apply(s, events[0].thread, events[0].action), events[1..], m);
      NoStart(s, events[0].thread, events[0].action, m);
    }
  }

  // ---- the race of InitializeStore ---------------------------------------------------------------------

  const INIT: Thread := Thread(0)
  const RELOAD: Thread := Thread(1)
  const STARTER: Thread := Thread(2)
  const RUNNER: Thread := Thread(3)

  const OPENING: seq<Event> := [Event(INIT, Initialize(InitLock)), Event(INIT, Initialize(InitCheck)), Event(INIT, Initialize(InitOpen(Handle(0), 7)))]
  const RELOADING: seq<Event> := [
    Event(RELOAD, Reload(ReloadAcquire)), Event(RELOAD, Reload(ReloadCheck)), Event(RELOAD, Reload(ReloadOpen(Handle(1), 7)))]
  const SWAPPING: seq<Event> := [Event(RELOAD, Reload(ReloadPublish)), Event(RELOAD, Reload(ReloadFinish))]
  const STARTING: seq<Event> := [Event(STARTER, Migrate(StartTry(7))), Event(STARTER, Migrate(StartGet))]
  const REPLACING: seq<Event> := [Event(STARTER, Migrate(StartRegister(RUNNER))), Event(INIT, Initialize(InitPublish))]
  const RACE: seq<Event> := OPENING + (RELOADING + (SWAPPING + (STARTING + REPLACING)))

  const BOTH: set<Handle> := {Handle(0), Handle(1)}
  const SEVENS: map<Handle, int> := map[Handle(0) := 7, Handle(1) := 7]

  const OPENED: State := State(map[INIT := InitOpened(Handle(0))], 0, None, None, {Handle(0)}, map[Handle(0) := 7],
                               false, None, {}, Some(INIT))
  const RELOAD_OPENED: State := State(map[INIT := InitOpened(Handle(0)), RELOAD := ReloadOpened(Handle(1))], GATE_WEIGHT,
                                      None, None, BOTH, SEVENS, false, None, {}, Some(INIT))
  const RELOADED: State := State(map[INIT := InitOpened(Handle(0)), RELOAD := Idle], 0, Some(Handle(1)), Some(7),
                                 BOTH, SEVENS, false, None, {}, Some(INIT))
  const STARTED: State := State(map[INIT := InitOpened(Handle(0)), RELOAD := Idle, STARTER := StartReady(7, Handle(1))],
                                GATE_WEIGHT, Some(Handle(1)), Some(7), BOTH, SEVENS, false, None, {}, Some(INIT))
  const REPLACED: State := State(map[INIT := InitPublished, RELOAD := Idle, STARTER := Idle, RUNNER := Migrating(7, Handle(1))],
                                 GATE_WEIGHT, Some(Handle(0)), Some(7), BOTH, SEVENS, false, Some(RUNNER), {}, Some(INIT))

  lemma {:induction false} LegalAppend(s: State, xs: seq<Event>, ys: seq<Event>)
    requires Legal(s, xs) && Legal(Exec(s, xs), ys)
    ensures Legal(s, xs + ys) && Exec(s, xs + ys) == Exec(Exec(s, xs), ys)
    decreases |xs|
  {
    hide Enabled, Apply;
    if xs == [] {
      assert xs + ys == ys;
    } else {
      assert (xs + ys)[0] == xs[0] && (xs + ys)[1..] == xs[1..] + ys;
      LegalAppend(Apply(s, xs[0].thread, xs[0].action), xs[1..], ys);
    }
  }

  lemma OneEvent(s: State, e: Event)
    requires Enabled(s, e.thread, e.action)
    ensures Legal(s, [e]) && Exec(s, [e]) == Apply(s, e.thread, e.action)
  {
    hide Enabled, Apply;
    var events := [e];
    assert events[0] == e && events[1..] == [];
  }

  lemma TwoEvents(s: State, e: Event, f: Event)
    requires Enabled(s, e.thread, e.action) && Enabled(Apply(s, e.thread, e.action), f.thread, f.action)
    ensures Legal(s, [e, f]) && Exec(s, [e, f]) == Apply(Apply(s, e.thread, e.action), f.thread, f.action)
  {
    hide Enabled, Apply;
    OneEvent(Apply(s, e.thread, e.action), f);
    var events := [e, f];
    assert events[0] == e && events[1..] == [f];
  }

  lemma ThreeEvents(s: State, e: Event, f: Event, g: Event)
    requires Enabled(s, e.thread, e.action) && Enabled(Apply(s, e.thread, e.action), f.thread, f.action)
    requires Enabled(Apply(Apply(s, e.thread, e.action), f.thread, f.action), g.thread, g.action)
    ensures Legal(s, [e, f, g])
    ensures Exec(s, [e, f, g]) == Apply(Apply(Apply(s, e.thread, e.action), f.thread, f.action), g.thread, g.action)
  {
    hide Enabled, Apply;
    var events := [e, f, g];
    assert events[0] == e && events[1..] == [f, g];
    TwoEvents(Apply(s, e.thread, e.action), f, g);
    assert Legal(s, events);
  }

  lemma RaceOpening()
    ensures Legal(START, OPENING) && Exec(START, OPENING) == OPENED
  {
    hide Legal, Exec;
    hide CanUser, CanReload, CanRecover, CanMigrate, CanClose, DoUser, DoReload, DoRecover, DoMigrate, DoClose;
    ThreeEvents(START, OPENING[0], OPENING[1], OPENING[2]);
    assert OPENING == [OPENING[0], OPENING[1], OPENING[2]];
  }

  lemma RaceReloading()
    ensures Legal(OPENED, RELOADING) && Exec(OPENED, RELOADING) == RELOAD_OPENED
  {
    hide Legal, Exec;
    hide CanUser, CanRecover, CanInitialize, CanMigrate, CanClose, DoUser, DoRecover, DoInitialize, DoMigrate, DoClose;
    ThreeEvents(OPENED, RELOADING[0], RELOADING[1], RELOADING[2]);
    assert RELOADING == [RELOADING[0], RELOADING[1], RELOADING[2]];
  }

  lemma RaceSwapping()
    ensures Legal(RELOAD_OPENED, SWAPPING) && Exec(RELOAD_OPENED, SWAPPING) == RELOADED
  {
    hide Legal, Exec;
    hide CanUser, CanRecover, CanInitialize, CanMigrate, CanClose, DoUser, DoRecover, DoInitialize, DoMigrate, DoClose;
    TwoEvents(RELOAD_OPENED, SWAPPING[0], SWAPPING[1]);
    assert SWAPPING == [SWAPPING[0], SWAPPING[1]];
  }

  lemma RaceStarting()
    ensures Legal(RELOADED, STARTING) && Exec(RELOADED, STARTING) == STARTED
  {
    hide Legal, Exec;
    hide CanUser, CanReload, CanRecover, CanInitialize, CanClose, DoUser, DoReload, DoRecover, DoInitialize, DoClose;
    TwoEvents(RELOADED, STARTING[0], STARTING[1]);
    assert STARTING == [STARTING[0], STARTING[1]];
  }

  lemma RaceReplacing()
    ensures Legal(STARTED, REPLACING) && Exec(STARTED, REPLACING) == REPLACED
  {
    hide Legal, Exec;
    hide CanUser, CanReload, CanRecover, CanClose, DoUser, DoReload, DoRecover, DoClose;
    TwoEvents(STARTED, REPLACING[0], REPLACING[1]);
    assert REPLACING == [REPLACING[0], REPLACING[1]];
  }

  /** InitializeStore finds no store; a reload activates one and a migration starts copying into
      it; then InitializeStore publishes its own. The migration copies into a store that is no
      longer active, and that store has no owner left to close it. */
  lemma InitRaceReplacesStore()
    ensures Legal(START, RACE)
    ensures var s := Exec(START, RACE);
            && ProcOf(s, RUNNER) == Migrating(7, Handle(1)) && s.store == Some(Handle(0))
            && Handle(1) in s.open && forall t :: Owns(ProcOf(s, t)) != Some(Handle(1))
  {
    hide Legal, Exec;
    RaceOpening();
    RaceReloading();
    RaceSwapping();
    RaceStarting();
    RaceReplacing();
    LegalAppend(RELOADED, STARTING, REPLACING);
    LegalAppend(RELOAD_OPENED, SWAPPING, STARTING + REPLACING);
    LegalAppend(OPENED, RELOADING, SWAPPING + (STARTING + REPLACING));
    LegalAppend(START, OPENING, RELOADING + (SWAPPING + (STARTING + REPLACING)));
  }
}
