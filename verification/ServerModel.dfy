/** The refresh server as a transition system: any number of request threads, one
    program counter each, over the shared counter, configuration, coordinator and
    discovery state. One action is one critical section or one atomic operation. */
module ServerModel {
  import opened Basics
  import opened Coordinator

  const MAX_ACTIVE_REQUESTS: nat := 32

  type Tid = nat

  // ----- Configuration -----

  /** `rest` stands for the fields that every configure request replaces. */
  datatype Configuration = Configuration(cacheDirectory: Option<Path>, rest: string)
  datatype ConfigureOptions = ConfigureOptions(cacheDirectory: Option<Path>, rest: string)

  function NextConfiguration(previous: Configuration, options: ConfigureOptions): Configuration {
    Configuration(options.cacheDirectory.Or(previous.cacheDirectory), options.rest)
  }

  // ----- Discovery state shared by the long-lived locators -----

  datatype SyncScope = Full | GlobalFiltered(kind: InstallationKind) | Workspace

  function ScopeOf(options: RefreshOptions): SyncScope {
    if options.searchPaths.Some? then Workspace
    else if options.searchKind.Some? then GlobalFiltered(options.searchKind.value)
    else Full
  }

  /** One synced cache with the kinds its locator supports. */
  datatype Store = Store(supported: set<InstallationKind>, entries: map<Path, string>)

  type Found = seq<map<Path, string>>

  /** What one finished sync leaves in a store. */
  function SyncedStore(store: Store, scope: SyncScope, found: map<Path, string>): Store {
    match scope
    case Full => store.(entries := found)
    case GlobalFiltered(kind) => if kind in store.supported then store.(entries := store.entries + found) else store
    case Workspace => store
  }

  /** Stores are synced one after the other, each in two critical sections:
      an even step clears the store and the odd step after it inserts. */
  function SyncStepped(store: Store, scope: SyncScope, found: map<Path, string>, clearing: bool): Store {
    match scope
    case Full => store.(entries := if clearing then map[] else store.entries + found)
    case GlobalFiltered(kind) =>
      if !clearing && kind in store.supported then store.(entries := store.entries + found) else store
    case Workspace => store
  }

  // ----- Threads -----

  datatype Request =
    | Refresh(id: RequestId, options: RefreshOptions)
    | Configure(id: RequestId, change: ConfigureOptions)

  /** A request as the client counts it. */
  datatype Ticket = RefreshTicket(id: RequestId) | ConfigureTicket(id: RequestId)

  function TicketOf(request: Request): Ticket {
    if request.Refresh? then RefreshTicket(request.id) else ConfigureTicket(request.id)
  }

  datatype Refusal = TooManyActive | CouldNotStart | TooManyJoined

  // ----- Reports -----

  /** Installations and managers each pass an index of the scan, whose lock is held
      until the report is done; events do not. */
  datatype ReportKind = Installations | Managers | Events

  /** How many threads of a scan stand where with a report of one kind: waiting for the
      lock of the index; waiting for the configuration lock; holding its read side; or
      holding it with the generation found current. */
  datatype Lane = Lane(waiting: nat, outside: nat, locked: nat, approved: nat)
  {
    predicate Empty() { waiting == 0 && IndexFree() }

    predicate IndexFree() { outside == 0 && locked == 0 && approved == 0 }

    predicate Reads() { locked > 0 || approved > 0 }
  }

  datatype Stage = Outside | Locked | Approved

  /** The threads of a scan that report, by kind. */
  datatype Crew = Crew(installations: Lane, managers: Lane, events: Lane)
  {
    function Of(kind: ReportKind): Lane {
      match kind case Installations => installations case Managers => managers case Events => events
    }

    function With(kind: ReportKind, lane: Lane): Crew {
      match kind
      case Installations => this.(installations := lane)
      case Managers => this.(managers := lane)
      case Events => this.(events := lane)
    }

    predicate Nobody() { installations.Empty() && managers.Empty() && events.Empty() }

    predicate Reads() { installations.Reads() || managers.Reads() || events.Reads() }

    predicate Approved() { installations.approved > 0 || managers.approved > 0 || events.approved > 0 }
  }

  const NOBODY := Crew(Lane(0, 0, 0, 0), Lane(0, 0, 0, 0), Lane(0, 0, 0, 0))

  /** The three places that report: the scan, the tail after the sync, and the
      telemetry after the replies. */
  datatype Part = Discovery | Merge | Telemetry

  datatype Pc =
    | Loading
    | Trying(observed: nat)
    | TurnedAway(refusal: Refusal)
    | Spawning
    // handle_refresh
    | Snapshotting
    | Registering(key: RefreshKey)
    | Rejected
    | CheckingIdle
    | Parked
    // the owner of a scan
    | Reporting(key: RefreshKey, todo: nat, crew: Crew, part: Part)
    | SyncChecking(key: RefreshKey)
    | Syncing(key: RefreshKey, found: Found, step: nat)
    | Ending(key: RefreshKey, ok: bool)
    | Draining(key: RefreshKey, ok: bool)
    | Replying(key: RefreshKey, ok: bool, batch: seq<RequestId>)
    | Checking(key: RefreshKey, ok: bool)
    // handle_configure
    | ConfigLocking
    | ConfigReading
    | ConfigApplying(previous: Configuration, next: nat)
    | ConfigRollingBack(previous: Configuration)
    | ConfigCommitting(previous: Configuration, next: nat)
    | ConfigReplying(ok: bool)
    //
    | Leaving
    | Gone

  datatype Thread = Thread(request: Request, pc: Pc)

  // ----- History -----

  datatype Event =
    | Received(ticket: Ticket)
    | Joining(id: RequestId, key: RefreshKey)          // an id entered the coordinator
    | Notified(generation: nat)                        // a notification left the process
    | Synced(generation: nat, scope: SyncScope, found: Found)
    | Committed(generation: nat, change: ConfigureOptions)
    | Answered(id: RequestId, key: RefreshKey, ok: bool)
    | Refused(ticket: Ticket, refusal: Refusal)
    | ConfigureAnswered(id: RequestId, ok: bool)

  type Trace = seq<Event>

  /** `applied` is the configuration the locators run with, `None` while one of
      them has panicked half way; `syncsWhole` is history: no sync has panicked half
      way. */
  datatype State = State(
    active: nat,
    coordinator: CoordinatorState,
    configuration: Configuration,
    generation: nat,
    applied: Option<Configuration>,
    stores: seq<Store>,
    syncsWhole: bool,
    threads: map<Tid, Thread>,
    trace: Trace)

  ghost predicate Init(s: State) {
    && s.active == 0
    && s.coordinator == Idle
    && s.configuration == Configuration(None, "")
    && s.generation == 0
    && s.applied == Some(s.configuration)
    && (forall i | 0 <= i < |s.stores| :: s.stores[i].entries == map[])
    && s.syncsWhole
    && s.threads == map[]
    && s.trace == []
  }

  // ----- Locks, read off the program counters -----

  predicate HoldsRead(pc: Pc) {
    (pc.Reporting? && pc.crew.Reads()) || pc.SyncChecking? || pc.Syncing?
  }

  predicate HoldsConfigure(pc: Pc) {
    pc.ConfigReading? || pc.ConfigApplying? || pc.ConfigRollingBack? || pc.ConfigCommitting?
  }

  predicate NoReader(s: State) {
    forall t | t in s.threads :: !HoldsRead(s.threads[t].pc)
  }

  predicate NoConfigurer(s: State) {
    forall t | t in s.threads :: !HoldsConfigure(s.threads[t].pc)
  }

  // ----- Actions -----

  /** Taking a permit: `RequestLimit` and `spawn_request`. */
  datatype LimitStep = Load | CasFail | CasOk | TurnAway | SpawnFail | SpawnOk | SendRefusal | Leave

  /** The loop of `handle_refresh`; `todo` reports will come from a scan started here. */
  datatype LoopStep = Snapshot | Register(todo: nat) | SendBusy | CheckIdle | SpuriousWake

  /** `execute_refresh`, and the guarded reports after the replies. A report may be
      quit at any stage: it was merged into an earlier one, or its thread panicked. */
  datatype ScanStep =
    | StartReport(kind: ReportKind) | TakeIndex(kind: ReportKind)
    | BeginReport(kind: ReportKind) | CheckReport(kind: ReportKind) | EmitReport(kind: ReportKind)
    | QuitReport(kind: ReportKind, stage: Stage)
    | BeginSync | CheckSync(found: Found) | SyncStep | EndSync
    | EndScan | Panic | EndTelemetry

  /** `RefreshGuard`: completion and replies. */
  datatype ReplyStep = BeginCompletion | Drain | ReplyOne | EndBatch | Complete(telemetry: nat)

  /** `handle_configure` and `apply_configuration`. */
  datatype ConfigureStep =
    | LockConfigure | ReadConfiguration | ApplyLocators(ok: bool) | Rollback | Commit | ReplyConfigure

  datatype Action =
    | Arrive(t: Tid, request: Request)
    | Limit(t: Tid, limit: LimitStep)
    | Loop(t: Tid, loop: LoopStep)
    | Scan(t: Tid, scan: ScanStep)
    | Reply(t: Tid, reply: ReplyStep)
    | Config(t: Tid, config: ConfigureStep)

  function Moved(s: State, t: Tid, pc: Pc): State
    requires t in s.threads
  {
    s.(threads := s.threads[t := s.threads[t].(pc := pc)])
  }

  function Logged(s: State, e: Event): State {
    s.(trace := s.trace + [e])
  }

  /** `notify_all`: every parked thread goes back to testing the predicate. */
  function Woken(threads: map<Tid, Thread>): map<Tid, Thread> {
    map t | t in threads ::
      if threads[t].pc.Parked? then threads[t].(pc := CheckingIdle) else threads[t]
  }

  /** The effect of registering thread `t`, which would report `todo` times. */
  function RegisterEffect(s: State, t: Tid, key: RefreshKey, todo: nat): State
    requires t in s.threads
  {
    var id := s.threads[t].request.id;
    var (coordinator, outcome) := Registered(s.coordinator, id, key);
    var s1 := s.(coordinator := coordinator);
    match outcome
    case Start => Moved(Logged(s1, Joining(id, key)), t, Reporting(key, todo, NOBODY, Discovery))
    case Joined => Moved(Logged(s1, Joining(id, key)), t, Leaving)
    case Wait => Moved(s1, t, CheckingIdle)
    case Busy => Moved(s1, t, Rejected)
  }

  function CompleteEffect(s: State, t: Tid, pc: Pc, telemetry: nat): State
    requires t in s.threads && pc.Checking? && CompletedIfEmpty(s.coordinator, pc.key).Some?
  {
    var (coordinator, completed) := CompletedIfEmpty(s.coordinator, pc.key).value;
    if completed then
      Moved(s.(coordinator := coordinator, threads := Woken(s.threads)), t,
            if pc.ok then Reporting(pc.key, telemetry, NOBODY, Telemetry) else Leaving)
    else
      Moved(s.(coordinator := coordinator), t, Draining(pc.key, pc.ok))
  }

  function SyncStepEffect(s: State, pc: Pc): seq<Store>
    requires pc.Syncing? && pc.step < 2 * |s.stores| && |pc.found| == |s.stores|
  {
    var i := pc.step / 2;
    s.stores[i := SyncStepped(s.stores[i], ScopeOf(pc.key.options), pc.found[i], pc.step % 2 == 0)]
  }

  // ----- The request limit -----

  predicate LimitEnabled(s: State, t: Tid, step: LimitStep)
    requires t in s.threads
  {
    var pc := s.threads[t].pc;
    match step
    case Load => pc.Loading?
    // a weak compare-and-swap may also fail when the value is the observed one
    case CasFail => pc.Trying? && pc.observed < MAX_ACTIVE_REQUESTS
    case CasOk => pc.Trying? && pc.observed < MAX_ACTIVE_REQUESTS && pc.observed == s.active
    case TurnAway => pc.Trying? && pc.observed >= MAX_ACTIVE_REQUESTS
    case SpawnFail => pc.Spawning? && 0 < s.active
    case SpawnOk => pc.Spawning?
    case SendRefusal => pc.TurnedAway?
    case Leave => pc.Leaving? && 0 < s.active
  }

  function LimitApply(s: State, t: Tid, step: LimitStep): State
    requires t in s.threads && LimitEnabled(s, t, step)
  {
    var pc := s.threads[t].pc;
    var request := s.threads[t].request;
    match step
    case Load => Moved(s, t, Trying(s.active))
    case CasFail => Moved(s, t, Trying(s.active))
    case CasOk => Moved(s.(active := s.active + 1), t, Spawning)
    case TurnAway => Moved(s, t, TurnedAway(TooManyActive))
    // the closure that owns the permit is dropped before the error is sent
    case SpawnFail => Moved(s.(active := s.active - 1), t, TurnedAway(CouldNotStart))
    case SpawnOk => Moved(s, t, if request.Refresh? then Snapshotting else ConfigLocking)
    case SendRefusal => Moved(Logged(s, Refused(TicketOf(request), pc.refusal)), t, Gone)
    case Leave => Moved(s.(active := s.active - 1), t, Gone)
  }

  // ----- The refresh loop -----

  predicate LoopEnabled(s: State, t: Tid, step: LoopStep)
    requires t in s.threads
  {
    var pc := s.threads[t].pc;
    match step
    case Snapshot => pc.Snapshotting? && s.threads[t].request.Refresh?
    case Register(_) => pc.Registering?
    case SendBusy => pc.Rejected?
    case CheckIdle => pc.CheckingIdle?
    case SpuriousWake => pc.Parked?
  }

  function LoopApply(s: State, t: Tid, step: LoopStep): State
    requires t in s.threads && LoopEnabled(s, t, step)
  {
    var pc := s.threads[t].pc;
    var request := s.threads[t].request;
    match step
    case Snapshot => Moved(s, t, Registering(RefreshKey(request.options, s.generation)))
    case Register(todo) => RegisterEffect(s, t, pc.key, todo)
    case SendBusy => Moved(Logged(s, Refused(TicketOf(request), TooManyJoined)), t, Leaving)
    case CheckIdle => Moved(s, t, if s.coordinator.Idle? then Snapshotting else Parked)
    case SpuriousWake => Moved(s, t, CheckingIdle)
  }

  // ----- The scan -----

  predicate IsReportStep(step: ScanStep) {
    || step.StartReport? || step.TakeIndex? || step.BeginReport?
    || step.CheckReport? || step.EmitReport? || step.QuitReport?
  }

  predicate ReportEnabled(todo: nat, crew: Crew, step: ScanStep)
    requires IsReportStep(step)
  {
    var lane := crew.Of(step.kind);
    match step
    case StartReport(_) => 0 < todo
    // the lock of an index is held by one report at a time, until that is done
    case TakeIndex(kind) => 0 < lane.waiting && (kind.Events? || lane.IndexFree())
    case BeginReport(_) => 0 < lane.outside
    case CheckReport(_) => 0 < lane.locked
    case EmitReport(_) => 0 < lane.approved
    case QuitReport(_, stage) =>
      0 < match stage case Outside => lane.outside case Locked => lane.locked case Approved => lane.approved
  }

  /** Where a report goes; `current` says that its generation is the current one. */
  function LaneAfter(lane: Lane, step: ScanStep, current: bool): Lane
    requires IsReportStep(step)
    requires step.TakeIndex? ==> 0 < lane.waiting
    requires step.BeginReport? || step == QuitReport(step.kind, Outside) ==> 0 < lane.outside
    requires step.CheckReport? || step == QuitReport(step.kind, Locked) ==> 0 < lane.locked
    requires step.EmitReport? || step == QuitReport(step.kind, Approved) ==> 0 < lane.approved
  {
    match step
    case StartReport(_) => lane.(waiting := lane.waiting + 1)
    case TakeIndex(_) => lane.(waiting := lane.waiting - 1, outside := lane.outside + 1)
    case BeginReport(_) => lane.(outside := lane.outside - 1, locked := lane.locked + 1)
    case CheckReport(_) => lane.(locked := lane.locked - 1, approved := lane.approved + if current then 1 else 0)
    case EmitReport(_) => lane.(approved := lane.approved - 1)
    case QuitReport(_, stage) =>
      match stage
      case Outside => lane.(outside := lane.outside - 1)
      case Locked => lane.(locked := lane.locked - 1)
      case Approved => lane.(approved := lane.approved - 1)
  }

  function Reported(pc: Pc, step: ScanStep, current: bool): Pc
    requires pc.Reporting? && IsReportStep(step) && ReportEnabled(pc.todo, pc.crew, step)
  {
    var crew := pc.crew.With(step.kind, LaneAfter(pc.crew.Of(step.kind), step, current));
    Reporting(pc.key, if step.StartReport? then pc.todo - 1 else pc.todo, crew, pc.part)
  }

  /** The threads of a scan are joined before it goes on, or panics. */
  predicate AllJoined(pc: Pc) {
    pc.Reporting? && pc.crew.Nobody()
  }

  predicate ScanEnabled(s: State, t: Tid, step: ScanStep)
    requires t in s.threads
  {
    var pc := s.threads[t].pc;
    if IsReportStep(step) then pc.Reporting? && ReportEnabled(pc.todo, pc.crew, step)
    else
      match step
      case BeginSync => AllJoined(pc) && pc.todo == 0 && pc.part.Discovery?
      case CheckSync(found) => pc.SyncChecking? && |found| == |s.stores|
      case SyncStep => pc.Syncing? && pc.step < 2 * |s.stores| && |pc.found| == |s.stores|
      case EndSync => pc.Syncing? && pc.step == 2 * |s.stores|
      case EndScan => AllJoined(pc) && pc.todo == 0 && pc.part.Merge?
      case Panic => (AllJoined(pc) && !pc.part.Telemetry?) || pc.SyncChecking? || pc.Syncing?
      case EndTelemetry => AllJoined(pc) && pc.todo == 0 && pc.part.Telemetry?
  }

  function ScanApply(s: State, t: Tid, step: ScanStep): State
    requires t in s.threads && ScanEnabled(s, t, step)
  {
    var pc := s.threads[t].pc;
    if IsReportStep(step) then
      var s1 := if step.EmitReport? then Logged(s, Notified(pc.key.generation)) else s;
      Moved(s1, t, Reported(pc, step, s.generation == pc.key.generation))
    else
      match step
      case BeginSync => Moved(s, t, SyncChecking(pc.key))
      case CheckSync(found) =>
        Moved(s, t, if s.generation == pc.key.generation then Syncing(pc.key, found, 0)
                    else Reporting(pc.key, 2, NOBODY, Merge))
      case SyncStep => Moved(s.(stores := SyncStepEffect(s, pc)), t, pc.(step := pc.step + 1))
      case EndSync =>
        Moved(Logged(s, Synced(pc.key.generation, ScopeOf(pc.key.options), pc.found)), t,
              Reporting(pc.key, 2, NOBODY, Merge))
      case EndScan => Moved(s, t, Ending(pc.key, true))
      case Panic => Moved(s.(syncsWhole := s.syncsWhole && !pc.Syncing?), t, Ending(pc.key, false))
      case EndTelemetry => Moved(s, t, Leaving)
  }

  // ----- Completion and replies -----

  /** A mismatch, where the source panics, leaves the step disabled;
      `ServerTheorems.NoMismatchPanic` shows that it cannot occur. */
  predicate ReplyEnabled(s: State, t: Tid, step: ReplyStep)
    requires t in s.threads
  {
    var pc := s.threads[t].pc;
    match step
    case BeginCompletion => pc.Ending? && CompletionBegun(s.coordinator, pc.key).Some?
    case Drain => pc.Draining? && Drained(s.coordinator, pc.key).Some?
    case ReplyOne => pc.Replying? && pc.batch != []
    case EndBatch => pc.Replying? && pc.batch == []
    case Complete(telemetry) =>
      pc.Checking? && CompletedIfEmpty(s.coordinator, pc.key).Some? && telemetry <= 5
  }

  function ReplyApply(s: State, t: Tid, step: ReplyStep): State
    requires t in s.threads && ReplyEnabled(s, t, step)
  {
    var pc := s.threads[t].pc;
    match step
    case BeginCompletion =>
      Moved(s.(coordinator := CompletionBegun(s.coordinator, pc.key).value), t, Draining(pc.key, pc.ok))
    case Drain =>
      var (coordinator, batch) := Drained(s.coordinator, pc.key).value;
      Moved(s.(coordinator := coordinator), t, Replying(pc.key, pc.ok, batch))
    case ReplyOne =>
      Moved(Logged(s, Answered(pc.batch[0], pc.key, pc.ok)), t, pc.(batch := pc.batch[1..]))
    case EndBatch => Moved(s, t, Checking(pc.key, pc.ok))
    case Complete(telemetry) => CompleteEffect(s, t, pc, telemetry)
  }

  // ----- Configure -----

  predicate ConfigEnabled(s: State, t: Tid, step: ConfigureStep)
    requires t in s.threads
  {
    var pc := s.threads[t].pc;
    var request := s.threads[t].request;
    match step
    case LockConfigure => pc.ConfigLocking? && NoConfigurer(s)
    case ReadConfiguration => pc.ConfigReading?
    case ApplyLocators(_) => pc.ConfigApplying? && request.Configure?
    case Rollback => pc.ConfigRollingBack?
    case Commit => pc.ConfigCommitting? && NoReader(s) && request.Configure?
    case ReplyConfigure => pc.ConfigReplying?
  }

  function ConfigApply(s: State, t: Tid, step: ConfigureStep): State
    requires t in s.threads && ConfigEnabled(s, t, step)
  {
    var pc := s.threads[t].pc;
    var request := s.threads[t].request;
    match step
    case LockConfigure => Moved(s, t, ConfigReading)
    case ReadConfiguration => Moved(s, t, ConfigApplying(s.configuration, s.generation + 1))
    case ApplyLocators(ok) =>
      if ok then
        Moved(s.(applied := Some(NextConfiguration(pc.previous, request.change))), t,
              ConfigCommitting(pc.previous, pc.next))
      else
        Moved(s.(applied := None), t, ConfigRollingBack(pc.previous))
    case Rollback => Moved(s.(applied := Some(pc.previous)), t, ConfigReplying(false))
    case Commit =>
      Moved(Logged(s.(configuration := NextConfiguration(pc.previous, request.change), generation := pc.next),
                   Committed(pc.next, request.change)), t, ConfigReplying(true))
    case ReplyConfigure => Moved(Logged(s, ConfigureAnswered(request.id, pc.ok)), t, Leaving)
  }

  // ----- All actions -----

  predicate Enabled(s: State, a: Action) {
    if a.Arrive? then a.t !in s.threads
    else
      a.t in s.threads &&
      match a
      case Arrive(_, _) => false
      case Limit(t, step) => LimitEnabled(s, t, step)
      case Loop(t, step) => LoopEnabled(s, t, step)
      case Scan(t, step) => ScanEnabled(s, t, step)
      case Reply(t, step) => ReplyEnabled(s, t, step)
      case Config(t, step) => ConfigEnabled(s, t, step)
  }

  function Arrived(s: State, t: Tid, request: Request): State {
    Logged(s.(threads := s.threads[t := Thread(request, Loading)]), Received(TicketOf(request)))
  }

  function Apply(s: State, a: Action): State
    requires Enabled(s, a)
  {
    match a
    case Arrive(t, request) => Arrived(s, t, request)
    case Limit(t, step) => LimitApply(s, t, step)
    case Loop(t, step) => LoopApply(s, t, step)
    case Scan(t, step) => ScanApply(s, t, step)
    case Reply(t, step) => ReplyApply(s, t, step)
    case Config(t, step) => ConfigApply(s, t, step)
  }

  // ----- Runs -----

  ghost predicate Follows(states: seq<State>, actions: seq<Action>) {
    && |states| == |actions| + 1
    && forall i | 0 <= i < |actions| :: Enabled(states[i], actions[i]) && states[i + 1] == Apply(states[i], actions[i])
  }

  ghost predicate Reachable(s: State) {
    exists states, actions :: Follows(states, actions) && Init(states[0]) && states[|actions|] == s
  }
}
