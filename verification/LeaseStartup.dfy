/** When the unguarded publication of InitializeStore is harmless: conditions on the order of
    calls that a program can arrange. */
module LeaseStartup {
  import opened Wrappers
  import opened Lease
  import opened LeaseInvariant
  import opened LeaseRuns

  /** Between looking for a store and publishing its own. */
  predicate Initializing(p: Proc) {
    p.InitChecked? || p.InitOpened?
  }

  /** Whoever is about to publish an initial store still finds the place empty. */
  ghost predicate PlaceEmpty(s: State) {
    forall t :: Initializing(ProcOf(s, t)) ==> s.store.None?
  }

  predicate Reloads(a: Action) {
    a.Reload? && a.reload.ReloadPublish?
  }

  /** The steps that put a store into the place. */
  predicate Publishes(a: Action) {
    Reloads(a) || (a.Recover? && a.recover.RecoverPublish?) || PublishesInit(a)
  }

  lemma PlaceKept(s: State, t: Thread, a: Action)
    requires Enabled(s, t, a) && !Publishes(a)
    ensures Apply(s, t, a).store == s.store || Apply(s, t, a).store.None?
  {
    match a
    case User(x) =>
    case Reload(x) =>
    case Recover(x) =>
    case Initialize(x) =>
    case Migrate(x) =>
    case Close(x) =>
  }

  /** Only a step of InitializeStore leaves a goroutine initialising. */
  lemma InitializingStep(s: State, t: Thread, a: Action)
    requires Enabled(s, t, a) && Initializing(ProcOf(Apply(s, t, a), t))
    ensures a.Initialize?
  {
    match a
    case User(x) =>
    case Reload(x) =>
    case Recover(x) =>
    case Initialize(x) =>
    case Migrate(x) =>
    case Close(x) =>
  }

  /** A goroutine starts initialising in front of an empty place. */
  lemma StartsInitializing(s: State, t: Thread, a: Action)
    requires Enabled(s, t, a) && Initializing(ProcOf(Apply(s, t, a), t))
    ensures Initializing(ProcOf(s, t)) || s.store.None?
    ensures !Publishes(a)
  {
    InitializingStep(s, t, a);
  }

  /** The init lock keeps a recovery and a second initialisation away. */
  lemma OneInside(s: State, t: Thread, u: Thread)
    requires Inv(s) && InInit(ProcOf(s, t)) && InInit(ProcOf(s, u))
    ensures t == u
  {
    hide GateSound, ActiveSound, UserSound, OwnerSound, Accounted, MigrationSound, InInit, ProcOf;
    assert InitSound(s, t) && InitSound(s, u);
  }

  lemma PublisherInside(s: State, t: Thread, a: Action)
    requires Enabled(s, t, a) && Publishes(a) && !Reloads(a)
    ensures InInit(ProcOf(s, t)) && !Initializing(ProcOf(Apply(s, t, a), t))
  {
  }

  /** Every step but the publication of a reload keeps the place empty for whoever initialises. */
  lemma PlaceStaysEmpty(s: State, t: Thread, a: Action)
    requires Inv(s) && PlaceEmpty(s) && Enabled(s, t, a)
    requires Reloads(a) ==> forall u :: !Initializing(ProcOf(s, u))
    ensures PlaceEmpty(Apply(s, t, a))
  {
    hide Inv, Enabled, Apply, Publishes, Reloads, Initializing, InInit;
    var after := Apply(s, t, a);
    forall u | Initializing(ProcOf(after, u)) ensures after.store.None? {
      if u == t {
        StartsInitializing(s, t, a);
        PlaceKept(s, t, a);
      } else {
        OtherInitializing(s, t, a, u);
        if Publishes(a) {
          if !Reloads(a) {
            PublisherInside(s, t, a);
            InitializingInside(ProcOf(s, u));
            OneInside(s, t, u);
          }
        } else {
          PlaceKept(s, t, a);
        }
      }
    }
  }

  lemma InitializingInside(p: Proc)
    requires Initializing(p)
    ensures InInit(p)
  {
  }

  lemma OtherInitializing(s: State, t: Thread, a: Action, u: Thread)
    requires Enabled(s, t, a) && u != t && Initializing(ProcOf(Apply(s, t, a), u))
    ensures Initializing(ProcOf(s, u))
  {
    hide CanUser, CanReload, CanRecover, CanInitialize, CanMigrate, CanClose;
    hide DoUser, DoReload, DoRecover, DoInitialize, DoMigrate, DoClose;
    NewThreads(s, t, a);
  }

  // ---- conditions on a run -------------------------------------------------------------------------

  /** No reload publishes while an initialisation is between its check and its publication. */
  predicate CallsApart(s: State, events: seq<Event>)
    requires Legal(s, events)
    decreases |events|
  {
    events == [] ||
    ((Reloads(events[0].action) ==> forall t :: t in s.threads ==> !Initializing(s.threads[t]))
     && CallsApart(Apply(s, events[0].thread, events[0].action), events[1..]))
  }

  lemma NobodyInitializing(s: State)
    requires forall t :: t in s.threads ==> !Initializing(s.threads[t])
    ensures forall u :: !Initializing(ProcOf(s, u))
  {
  }

  lemma EmptyIsGuarded(s: State, t: Thread, a: Action)
    requires PlaceEmpty(s) && Enabled(s, t, a)
    ensures Guarded(s, a)
  {
    assert PublishesInit(a) ==> Initializing(ProcOf(s, t));
  }

  /** Initialisations and reloads that do not overlap never replace an active store. */
  lemma {:induction false} ApartIsGuarded(s: State, events: seq<Event>)
    requires Inv(s) && PlaceEmpty(s) && Legal(s, events) && CallsApart(s, events)
    ensures AllGuarded(s, events)
    decreases |events|
  {
    hide Inv, PlaceEmpty, Enabled, Apply, Guarded, Reloads, Initializing;
    if events != [] {
      var t, a := events[0].thread, events[0].action;
      EmptyIsGuarded(s, t, a);
      StepKeepsInv(s, t, a);
      if Reloads(a) {
        NobodyInitializing(s);
      }
      PlaceStaysEmpty(s, t, a);
      ApartIsGuarded(Apply(s, t, a), events[1..]);
    }
  }

  predicate NoneInitializes(events: seq<Event>) {
    forall i :: 0 <= i < |events| ==> !events[i].action.Initialize?
  }

  /** No step of InitializeStore comes after a step of a reload. */
  predicate InitializesFirst(events: seq<Event>) {
    forall i, j :: 0 <= i < j < |events| && events[i].action.Reload? ==> !events[j].action.Initialize?
  }

  lemma {:induction false} NoInitIsGuarded(s: State, events: seq<Event>)
    requires Legal(s, events) && NoneInitializes(events)
    ensures AllGuarded(s, events)
    decreases |events|
  {
    hide Enabled, Apply;
    if events != [] {
      NoInitIsGuarded(Apply(s, events[0].thread, events[0].action), events[1..]);
    }
  }

  lemma {:induction false} FirstIsGuarded(s: State, events: seq<Event>)
    requires Inv(s) && PlaceEmpty(s) && Legal(s, events) && InitializesFirst(events)
    ensures AllGuarded(s, events)
    decreases |events|
  {
    hide Inv, PlaceEmpty, Enabled, Apply, Guarded;
    if events != [] {
      var t, a := events[0].thread, events[0].action;
      EmptyIsGuarded(s, t, a);
      if a.Reload? {
        forall i | 0 <= i < |events[1..]| ensures !events[1..][i].action.Initialize? {
          assert events[1..][i] == events[i + 1];
        }
        NoInitIsGuarded(Apply(s, t, a), events[1..]);
      } else {
        StepKeepsInv(s, t, a);
        PlaceStaysEmpty(s, t, a);
        LaterFirst(events);
        FirstIsGuarded(Apply(s, t, a), events[1..]);
      }
    }
  }

  lemma LaterFirst(events: seq<Event>)
    requires events != [] && InitializesFirst(events)
    ensures InitializesFirst(events[1..])
  {
    var rest := events[1..];
    forall i, j | 0 <= i < j < |rest| && rest[i].action.Reload? ensures !rest[j].action.Initialize? {
      assert rest[i] == events[i + 1] && rest[j] == events[j + 1];
    }
  }

  // ---- main results ----------------------------------------------------------------------------------

  lemma StartEmpty()
    ensures PlaceEmpty(START)
  {
  }

  /** In a program that is done initialising before it serves the first reload, every publication
      finds an empty place, whatever recoveries, migrations, leases and closings are interleaved:
      the protocol is sound throughout. */
  lemma StartupThenServe(events: seq<Event>)
    requires Legal(START, events) && InitializesFirst(events)
    ensures Reached(events, Exec(START, events)) && Inv(Exec(START, events))
  {
    hide Inv, PlaceEmpty, InitializesFirst;
    StartInv();
    StartEmpty();
    FirstIsGuarded(START, events);
    ReachedInv(events, Exec(START, events));
  }

  /** The same for initialisations at any time, as long as none overlaps the publication of a reload. */
  lemma CallsApartSound(events: seq<Event>)
    requires Legal(START, events) && CallsApart(START, events)
    ensures Reached(events, Exec(START, events)) && Inv(Exec(START, events))
  {
    hide Inv, PlaceEmpty, CallsApart;
    StartInv();
    StartEmpty();
    ApartIsGuarded(START, events);
    ReachedInv(events, Exec(START, events));
  }
}
