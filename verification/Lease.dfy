/** The operation gate, the process-wide store and the background migration as one state
    machine: every critical section of every goroutine is a step, in any interleaving. */
module Lease {
  import opened Wrappers

  datatype Thread = Thread(id: nat)

  /** An open or once-open store. */
  datatype Handle = Handle(id: nat)

  const GATE_WEIGHT: nat := 1024

  /** Where a goroutine stands, with the local variables it still needs. */
  datatype Proc =
    | Idle
    // report writes, compaction, cleanup, queries and inspection
    | SharedHeld
    | SharedUsing(handle: Handle)
    // raw statements and space reclamation
    | ExclusiveHeld
    | ExclusiveUsing(handle: Handle)
    // Reload
    | ReloadHeld
    | ReloadChecked
    | ReloadOpened(handle: Handle)
    | ReloadPublished(previous: Option<Handle>)
    // RecoverStore
    | RecoverLocked
    | RecoverHeld
    | RecoverChecked
    | RecoverOpened(handle: Handle)
    | RecoverPublished(previous: Option<Handle>)
    | RecoverCleared(previous: Option<Handle>)
    // InitializeStore
    | InitLocked
    | InitChecked
    | InitOpened(handle: Handle)
    | InitPublished
    | InitCleared
    // StartStoreMigration and runStoreMigration
    | StartHeld(target: int)
    | StartReady(target: int, handle: Handle)
    | Migrating(target: int, handle: Handle)
    | MigrationReleased
    // CloseStoreContext and StopStoreMigrationForShutdown
    | CloseWaiting(waitFor: Option<Thread>)
    | CloseReady
    | CloseHeld
    | CloseDone
    | ShutdownWaiting(waitFor: Option<Thread>)

  /** `fingerprint` is the configuration of the active store, `migration` the registered cancel
      function, `finished` the migrations whose done channel is closed. */
  datatype State = State(threads: map<Thread, Proc>, taken: int, store: Option<Handle>, fingerprint: Option<int>,
                         open: set<Handle>, config: map<Handle, int>, closing: bool,
                         migration: Option<Thread>, finished: set<Thread>, initLock: Option<Thread>)

  const START: State := State(map[], 0, None, None, {}, map[], false, None, {}, None)

  function ProcOf(s: State, t: Thread): Proc {
    if t in s.threads then s.threads[t] else Idle
  }

  /** The gate weight a goroutine holds. */
  function Weight(p: Proc): nat {
    match p
    case SharedHeld | SharedUsing(_) => 1
    case ExclusiveHeld | ExclusiveUsing(_) => GATE_WEIGHT
    case ReloadHeld | ReloadChecked | ReloadOpened(_) | ReloadPublished(_) => GATE_WEIGHT
    case RecoverHeld | RecoverChecked | RecoverOpened(_) | RecoverPublished(_) | RecoverCleared(_) => GATE_WEIGHT
    case StartHeld(_) | StartReady(_, _) | Migrating(_, _) => GATE_WEIGHT
    case CloseHeld | CloseDone => GATE_WEIGHT
    case _ => 0
  }

  /** The store a goroutine has fetched and works on. */
  function Uses(p: Proc): Option<Handle> {
    match p
    case SharedUsing(h) => Some(h)
    case ExclusiveUsing(h) => Some(h)
    case StartReady(_, h) => Some(h)
    case Migrating(_, h) => Some(h)
    case _ => None
  }

  /** The store a goroutine has yet to publish or to close. */
  function Owns(p: Proc): Option<Handle> {
    match p
    case ReloadOpened(h) => Some(h)
    case RecoverOpened(h) => Some(h)
    case InitOpened(h) => Some(h)
    case ReloadPublished(prev) => prev
    case RecoverPublished(prev) => prev
    case RecoverCleared(prev) => prev
    case _ => None
  }

  predicate InInit(p: Proc) {
    p.RecoverLocked? || p.RecoverHeld? || p.RecoverChecked? || p.RecoverOpened? || p.RecoverPublished? || p.RecoverCleared?
    || p.InitLocked? || p.InitChecked? || p.InitOpened? || p.InitPublished? || p.InitCleared?
  }

  predicate Moving(p: Proc) {
    p.Migrating? || p.MigrationReleased?
  }

  // ---- steps --------------------------------------------------------------------------------------

  datatype UserStep = SharedAcquire | SharedGet | SharedRelease | ExclusiveAcquire | ExclusiveGet | ExclusiveRelease

  datatype ReloadStep =
    ReloadAcquire | ReloadCheck | ReloadFail | ReloadOpen(created: Handle, config: int) | ReloadPublish | ReloadFinish

  datatype RecoverStep =
    | RecoverLock | RecoverGiveUp | RecoverAcquire | RecoverCheck | RecoverFail
    | RecoverOpen(created: Handle, config: int) | RecoverAbort | RecoverPublish | RecoverClear | RecoverFinish

  datatype InitStep =
    InitLock | InitCheck | InitFail | InitOpen(created: Handle, config: int) | InitPublish | InitClear | InitUnlock

  datatype MigrationStep = StartTry(target: int) | StartGet | StartRegister(runner: Thread) | MigrationRelease | MigrationClear

  datatype CloseStep =
    | CloseFlag | CloseWaited | CloseTimeout | CloseAcquire | CloseAcquireFailed | CloseStore | CloseRelease
    | ShutdownFlag | ShutdownWaited | ShutdownTimeout

  datatype Action =
    | User(user: UserStep)
    | Reload(reload: ReloadStep)
    | Recover(recover: RecoverStep)
    | Initialize(init: InitStep)
    | Migrate(migrate: MigrationStep)
    | Close(close: CloseStep)

  function Go(s: State, t: Thread, p: Proc): State {
    s.(threads := s.threads[t := p])
  }

  function Take(s: State, t: Thread, p: Proc): State {
    Go(s, t, p).(taken := s.taken + Weight(p))
  }

  function Leave(s: State, t: Thread): State {
    Go(s, t, Idle).(taken := s.taken - Weight(ProcOf(s, t)))
  }

  function Unlock(s: State): State {
    s.(initLock := None)
  }

  function Opened(s: State, t: Thread, p: Proc, h: Handle, config: int): State {
    Go(s, t, p).(open := s.open + {h}, config := s.config[h := config])
  }

  function Published(s: State, t: Thread, p: Proc, h: Handle): State {
    Go(s, t, p).(store := Some(h), fingerprint := if h in s.config then Some(s.config[h]) else None)
  }

  function Dispose(open: set<Handle>, h: Option<Handle>): set<Handle> {
    if h.Some? then open - {h.value} else open
  }

  /** A registered migration that has not closed its done channel. */
  predicate Awaited(s: State, waitFor: Option<Thread>) {
    waitFor.Some? && waitFor.value !in s.finished
  }

  predicate CanUser(s: State, t: Thread, a: UserStep) {
    var p := ProcOf(s, t);
    match a
    case SharedAcquire => p.Idle? && s.taken + 1 <= GATE_WEIGHT
    case SharedGet => p.SharedHeld?
    case SharedRelease => p.SharedUsing?
    case ExclusiveAcquire => p.Idle? && s.taken + GATE_WEIGHT <= GATE_WEIGHT
    case ExclusiveGet => p.ExclusiveHeld?
    case ExclusiveRelease => p.ExclusiveUsing?
  }

  predicate CanReload(s: State, t: Thread, a: ReloadStep) {
    var p := ProcOf(s, t);
    match a
    case ReloadAcquire => p.Idle? && s.taken + GATE_WEIGHT <= GATE_WEIGHT
    case ReloadCheck => p.ReloadHeld?
    case ReloadFail => p.ReloadChecked?
    case ReloadOpen(h, _) => p.ReloadChecked? && h !in s.config
    case ReloadPublish => p.ReloadOpened?
    case ReloadFinish => p.ReloadPublished?
  }

  predicate CanRecover(s: State, t: Thread, a: RecoverStep) {
    var p := ProcOf(s, t);
    match a
    case RecoverLock => p.Idle? && s.initLock.None?
    case RecoverGiveUp => p.RecoverLocked?
    case RecoverAcquire => p.RecoverLocked? && s.taken + GATE_WEIGHT <= GATE_WEIGHT
    case RecoverCheck => p.RecoverHeld?
    case RecoverFail => p.RecoverChecked?
    case RecoverOpen(h, _) => p.RecoverChecked? && h !in s.config
    case RecoverAbort => p.RecoverOpened?
    case RecoverPublish => p.RecoverOpened?
    case RecoverClear => p.RecoverPublished?
    case RecoverFinish => p.RecoverCleared?
  }

  predicate CanInitialize(s: State, t: Thread, a: InitStep) {
    var p := ProcOf(s, t);
    match a
    case InitLock => p.Idle? && s.initLock.None?
    case InitCheck => p.InitLocked?
    case InitFail => p.InitChecked?
    case InitOpen(h, _) => p.InitChecked? && h !in s.config
    case InitPublish => p.InitOpened?
    case InitClear => p.InitPublished?
    case InitUnlock => p.InitCleared?
  }

  predicate CanMigrate(s: State, t: Thread, a: MigrationStep) {
    var p := ProcOf(s, t);
    match a
    case StartTry(_) => p.Idle? && s.taken + GATE_WEIGHT <= GATE_WEIGHT
    case StartGet => p.StartHeld?
    case StartRegister(r) => p.StartReady? && r != t && r !in s.threads && r !in s.finished
    case MigrationRelease => p.Migrating?
    case MigrationClear => p.MigrationReleased?
  }

  predicate CanClose(s: State, t: Thread, a: CloseStep) {
    var p := ProcOf(s, t);
    match a
    case CloseFlag => p.Idle?
    case CloseWaited => p.CloseWaiting? && !Awaited(s, p.waitFor)
    case CloseTimeout => p.CloseWaiting? && p.waitFor.Some?
    case CloseAcquire => p.CloseReady? && s.taken + GATE_WEIGHT <= GATE_WEIGHT
    case CloseAcquireFailed => p.CloseReady?
    case CloseStore => p.CloseHeld?
    case CloseRelease => p.CloseDone?
    case ShutdownFlag => p.Idle?
    case ShutdownWaited => p.ShutdownWaiting? && !Awaited(s, p.waitFor)
    case ShutdownTimeout => p.ShutdownWaiting? && p.waitFor.Some?
  }

  predicate Enabled(s: State, t: Thread, a: Action) {
    match a
    case User(x) => CanUser(s, t, x)
    case Reload(x) => CanReload(s, t, x)
    case Recover(x) => CanRecover(s, t, x)
    case Initialize(x) => CanInitialize(s, t, x)
    case Migrate(x) => CanMigrate(s, t, x)
    case Close(x) => CanClose(s, t, x)
  }

  function DoUser(s: State, t: Thread, a: UserStep): State
    requires CanUser(s, t, a)
  {
    var p := ProcOf(s, t);
    match a
    case SharedAcquire => Take(s, t, SharedHeld)
    case SharedGet => if s.store.None? then Leave(s, t) else Go(s, t, SharedUsing(s.store.value))
    case SharedRelease => Leave(s, t)
    case ExclusiveAcquire => Take(s, t, ExclusiveHeld)
    case ExclusiveGet => if s.store.None? then Leave(s, t) else Go(s, t, ExclusiveUsing(s.store.value))
    case ExclusiveRelease => Leave(s, t)
  }

  function DoReload(s: State, t: Thread, a: ReloadStep): State
    requires CanReload(s, t, a)
  {
    var p := ProcOf(s, t);
    match a
    case ReloadAcquire => Take(s, t, ReloadHeld)
    case ReloadCheck => if s.closing then Leave(s, t) else Go(s, t, ReloadChecked)
    case ReloadFail => Leave(s, t)
    case ReloadOpen(h, c) => Opened(s, t, ReloadOpened(h), h, c)
    case ReloadPublish => Published(s, t, ReloadPublished(s.store), p.handle)
    case ReloadFinish => Leave(s, t).(open := Dispose(s.open, p.previous))
  }

  function DoRecover(s: State, t: Thread, a: RecoverStep): State
    requires CanRecover(s, t, a)
  {
    var p := ProcOf(s, t);
    match a
    case RecoverLock => Go(s, t, RecoverLocked).(initLock := Some(t))
    case RecoverGiveUp => Unlock(Go(s, t, Idle))
    case RecoverAcquire => Take(s, t, RecoverHeld)
    case RecoverCheck => if s.closing then Unlock(Leave(s, t)) else Go(s, t, RecoverChecked)
    case RecoverFail => Unlock(Leave(s, t))
    case RecoverOpen(h, c) => Opened(s, t, RecoverOpened(h), h, c)
    case RecoverAbort => Unlock(Leave(s, t)).(open := s.open - {p.handle})
    case RecoverPublish => Published(s, t, RecoverPublished(s.store), p.handle)
    case RecoverClear => Go(s, t, RecoverCleared(p.previous)).(closing := false)
    case RecoverFinish => Unlock(Leave(s, t)).(open := Dispose(s.open, p.previous))
  }

  function DoInitialize(s: State, t: Thread, a: InitStep): State
    requires CanInitialize(s, t, a)
  {
    var p := ProcOf(s, t);
    match a
    case InitLock => Go(s, t, InitLocked).(initLock := Some(t))
    case InitCheck => if s.store.Some? then Unlock(Go(s, t, Idle)) else Go(s, t, InitChecked)
    case InitFail => Unlock(Go(s, t, Idle))
    case InitOpen(h, c) => Opened(s, t, InitOpened(h), h, c)
    case InitPublish => Published(s, t, InitPublished, p.handle)
    case InitClear => Go(s, t, InitCleared).(closing := false)
    case InitUnlock => Unlock(Go(s, t, Idle))
  }

  function DoMigrate(s: State, t: Thread, a: MigrationStep): State
    requires CanMigrate(s, t, a)
  {
    var p := ProcOf(s, t);
    match a
    case StartTry(c) => Take(s, t, StartHeld(c))
    case StartGet =>
      if s.store.None? || s.fingerprint != Some(p.target) then Leave(s, t)
      else Go(s, t, StartReady(p.target, s.store.value))
    case StartRegister(r) =>
      if s.closing || s.migration.Some? then Leave(s, t)
      else Go(Go(s, t, Idle), r, Migrating(p.target, p.handle)).(migration := Some(r))
    case MigrationRelease => Go(s, t, MigrationReleased).(taken := s.taken - GATE_WEIGHT)
    case MigrationClear => Go(s, t, Idle).(migration := None, finished := s.finished + {t})
  }

  function DoClose(s: State, t: Thread, a: CloseStep): State
    requires CanClose(s, t, a)
  {
    var p := ProcOf(s, t);
    match a
    case CloseFlag => Go(s, t, CloseWaiting(s.migration)).(closing := true)
    case CloseWaited => Go(s, t, CloseReady)
    case CloseTimeout => Go(s, t, Idle).(closing := false)
    case CloseAcquire => Take(s, t, CloseHeld)
    case CloseAcquireFailed => Go(s, t, Idle).(closing := false)
    case CloseStore => Go(s, t, CloseDone).(open := Dispose(s.open, s.store), store := None, fingerprint := None)
    case CloseRelease => Leave(s, t)
    case ShutdownFlag => Go(s, t, ShutdownWaiting(s.migration)).(closing := true)
    case ShutdownWaited => Go(s, t, Idle)
    case ShutdownTimeout => Go(s, t, Idle)
  }

  function Apply(s: State, t: Thread, a: Action): State
    requires Enabled(s, t, a)
  {
    match a
    case User(x) => DoUser(s, t, x)
    case Reload(x) => DoReload(s, t, x)
    case Recover(x) => DoRecover(s, t, x)
    case Initialize(x) => DoInitialize(s, t, x)
    case Migrate(x) => DoMigrate(s, t, x)
    case Close(x) => DoClose(s, t, x)
  }
}
