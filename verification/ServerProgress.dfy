/** No deadlock, and no infinite run after the last arrival. */
module ServerProgress {
  import opened Basics
  import opened Coordinator
  import opened ServerModel
  import opened ServerSums
  import opened ServerOwner
  import opened ServerReplies
  import opened ServerSync

  /** Everything but arrivals, spurious wake-ups and the spurious failure of a
      compare-and-swap whose observed value is current. */
  predicate IsProgress(s: State, a: Action)
    requires Enabled(s, a)
  {
    && !a.Arrive?
    && !(a.Loop? && a.loop.SpuriousWake?)
    && !(a.Limit? && a.limit.CasFail? && s.threads[a.t].pc.observed == s.active)
  }

  // ----- The measure -----

  /** Compared lexicographically: ids without a reply; ids that may still enter the
      coordinator; how far the current scan is from idle; changes of the active
      counter to come; local steps. */
  datatype Measure = Measure(unanswered: nat, unregistered: nat, phase: nat, changes: nat, rank: nat)

  ghost predicate Below(m: Measure, n: Measure) {
    || m.unanswered < n.unanswered
    || (m.unanswered == n.unanswered &&
        (|| m.unregistered < n.unregistered
         || (m.unregistered == n.unregistered &&
             (|| m.phase < n.phase
              || (m.phase == n.phase &&
                  (|| m.changes < n.changes
                   || (m.changes == n.changes && m.rank < n.rank)))))))
  }

  function Phase(c: CoordinatorState): nat {
    match c case Running(_, _) => 2 case Completing(_, _) => 1 case Idle => 0
  }

  function RankWeight(s: State): Weight {
    Rank(s.coordinator.Idle?, s.active, |s.stores|)
  }

  ghost function MeasureOf(s: State): Measure {
    Measure(Sum(s.threads, InHand) + |s.coordinator.Waiting()|,
            Sum(s.threads, Unregistered),
            Phase(s.coordinator),
            Sum(s.threads, Changes),
            Sum(s.threads, RankWeight(s)))
  }

  /** The share of one thread and the coordinator in the measure. */
  function Share(s: State, t: Tid): Measure
    requires t in s.threads
  {
    var th := s.threads[t];
    Measure(WeightOf(th, InHand) + |s.coordinator.Waiting()|,
            WeightOf(th, Unregistered), Phase(s.coordinator), WeightOf(th, Changes), WeightOf(th, RankWeight(s)))
  }

  /** A step of one thread lowers the measure when it lowers the thread's share;
      ranks are comparable only while the shared state they depend on is the same. */
  lemma ShareDecreases(s: State, s': State, t: Tid, pc: Pc)
    requires t in s.threads && s'.threads == Moved(s, t, pc).threads
    requires Below(Share(s', t), Share(s, t))
    requires s'.active == s.active || Share(s', t).(rank := 0) != Share(s, t).(rank := 0)
    requires |s'.stores| == |s.stores|
    ensures Below(MeasureOf(s'), MeasureOf(s))
  {
    var th := s.threads[t].(pc := pc);
    SumSet(s.threads, t, th, InHand);
    SumSet(s.threads, t, th, Unregistered);
    SumSet(s.threads, t, th, Changes);
    SumSet(s.threads, t, th, RankWeight(s));
  }

  /** The notification of `Complete` raises ranks, which the phase makes up for. */
  lemma WakingDecreases(s: State, t: Tid, telemetry: nat)
    requires t in s.threads && ReplyEnabled(s, t, Complete(telemetry)) && s.coordinator.ids == []
    ensures Below(MeasureOf(CompleteEffect(s, t, s.threads[t].pc, telemetry)), MeasureOf(s))
  {
    var s' := CompleteEffect(s, t, s.threads[t].pc, telemetry);
    SumWoken(s.threads, InHand);
    SumWoken(s.threads, Unregistered);
    SumSet(Woken(s.threads), t, s'.threads[t], InHand);
    SumSet(Woken(s.threads), t, s'.threads[t], Unregistered);
  }

  lemma ProgressDecreases(s: State, a: Action)
    requires OwnerFits(s) && Enabled(s, a) && IsProgress(s, a)
    ensures Below(MeasureOf(Apply(s, a)), MeasureOf(s))
  {
    var s' := Apply(s, a);
    match a {
      case Limit(t, _) => LimitDecreases(s, t, a.limit);
      case Loop(t, _) => LoopDecreases(s, t, a.loop);
      case Scan(t, _) => ScanDecreases(s, t, a.scan);
      case Reply(t, _) => ReplyDecreases(s, t, a.reply);
      case Config(t, _) => ConfigDecreases(s, t, a.config);
    }
  }

  lemma LimitDecreases(s: State, t: Tid, step: LimitStep)
    requires t in s.threads && LimitEnabled(s, t, step) && IsProgress(s, Limit(t, step))
    ensures Below(MeasureOf(LimitApply(s, t, step)), MeasureOf(s))
  {
    hide MeasureOf;
    var s' := LimitApply(s, t, step);
    ShareDecreases(s, s', t, s'.threads[t].pc);
  }

  lemma LoopDecreases(s: State, t: Tid, step: LoopStep)
    requires t in s.threads && LoopEnabled(s, t, step) && !step.SpuriousWake?
    ensures Below(MeasureOf(LoopApply(s, t, step)), MeasureOf(s))
  {
    if step.Register? {
      RegisterDecreases(s, t, step.todo);
    } else {
      hide MeasureOf, CrewRank;
      var s' := LoopApply(s, t, step);
      ShareDecreases(s, s', t, s'.threads[t].pc);
    }
  }

  lemma RegisterDecreases(s: State, t: Tid, todo: nat)
    requires t in s.threads && LoopEnabled(s, t, Register(todo))
    ensures Below(MeasureOf(LoopApply(s, t, Register(todo))), MeasureOf(s))
  {
    hide MeasureOf, CrewRank;
    var s' := LoopApply(s, t, Register(todo));
    ShareDecreases(s, s', t, s'.threads[t].pc);
  }

  lemma ScanDecreases(s: State, t: Tid, step: ScanStep)
    requires t in s.threads && ScanEnabled(s, t, step)
    ensures Below(MeasureOf(ScanApply(s, t, step)), MeasureOf(s))
  {
    if IsReportStep(step) {
      ReportDecreases(s, t, step);
    } else if step.Panic? {
      PanicDecreases(s, t);
    } else {
      SyncDecreases(s, t, step);
    }
  }

  /** A thread in a scan, or at its end. */
  predicate InScan(pc: Pc) {
    pc.Reporting? || pc.SyncChecking? || pc.Syncing? || pc.Ending? || pc.Leaving?
  }

  /** A step within a scan moves nothing but the rank of its thread. */
  lemma RankDecreases(s: State, s': State, t: Tid, pc: Pc)
    requires t in s.threads && s'.threads == Moved(s, t, pc).threads
    requires s'.coordinator == s.coordinator && s'.active == s.active && |s'.stores| == |s.stores|
    requires InScan(s.threads[t].pc) && InScan(pc)
    requires RankOf(pc, s.coordinator.Idle?, s.active, |s.stores|)
             < RankOf(s.threads[t].pc, s.coordinator.Idle?, s.active, |s.stores|)
    ensures Below(MeasureOf(s'), MeasureOf(s))
  {
    hide MeasureOf, RankOf;
    ShareDecreases(s, s', t, pc);
  }

  lemma ReportDecreases(s: State, t: Tid, step: ScanStep)
    requires t in s.threads && ScanEnabled(s, t, step) && IsReportStep(step)
    ensures Below(MeasureOf(ScanApply(s, t, step)), MeasureOf(s))
  {
    var pc := s.threads[t].pc;
    var after := Reported(pc, step, s.generation == pc.key.generation);
    ReportedRank(pc, step, s.generation == pc.key.generation);
    hide MeasureOf, CrewRank, LaneAfter, ReportEnabled;
    RankDecreases(s, ScanApply(s, t, step), t, after);
  }

  lemma PanicDecreases(s: State, t: Tid)
    requires t in s.threads && ScanEnabled(s, t, Panic)
    ensures Below(MeasureOf(ScanApply(s, t, Panic)), MeasureOf(s))
  {
    hide MeasureOf, CrewRank;
    RankDecreases(s, ScanApply(s, t, Panic), t, Ending(s.threads[t].pc.key, false));
  }

  lemma SyncDecreases(s: State, t: Tid, step: ScanStep)
    requires t in s.threads && ScanEnabled(s, t, step) && !IsReportStep(step) && !step.Panic?
    ensures Below(MeasureOf(ScanApply(s, t, step)), MeasureOf(s))
  {
    NobodyRank();
    hide MeasureOf, CrewRank;
    var s' := ScanApply(s, t, step);
    RankDecreases(s, s', t, s'.threads[t].pc);
  }

  lemma ReplyDecreases(s: State, t: Tid, step: ReplyStep)
    requires OwnerFits(s) && t in s.threads && ReplyEnabled(s, t, step)
    ensures Below(MeasureOf(ReplyApply(s, t, step)), MeasureOf(s))
  {
    assert ThreadFits(s.coordinator, s.threads[t]);
    if step.Complete? && s.coordinator.ids == [] {
      WakingDecreases(s, t, step.telemetry);
    } else if step.BeginCompletion? || step.Drain? {
      DrainedDecreases(s, t, step);
    } else {
      RepliedDecreases(s, t, step);
    }
  }

  lemma DrainedDecreases(s: State, t: Tid, step: ReplyStep)
    requires t in s.threads && ThreadFits(s.coordinator, s.threads[t]) && ReplyEnabled(s, t, step)
    requires step.BeginCompletion? || step.Drain?
    ensures Below(MeasureOf(ReplyApply(s, t, step)), MeasureOf(s))
  {
    hide MeasureOf;
    var s' := ReplyApply(s, t, step);
    ShareDecreases(s, s', t, s'.threads[t].pc);
  }

  lemma RepliedDecreases(s: State, t: Tid, step: ReplyStep)
    requires t in s.threads && ThreadFits(s.coordinator, s.threads[t]) && ReplyEnabled(s, t, step)
    requires !step.BeginCompletion? && !step.Drain? && (step.Complete? ==> s.coordinator.ids != [])
    ensures Below(MeasureOf(ReplyApply(s, t, step)), MeasureOf(s))
  {
    hide MeasureOf;
    var s' := ReplyApply(s, t, step);
    ShareDecreases(s, s', t, s'.threads[t].pc);
  }

  lemma ConfigDecreases(s: State, t: Tid, step: ConfigureStep)
    requires t in s.threads && ConfigEnabled(s, t, step)
    ensures Below(MeasureOf(ConfigApply(s, t, step)), MeasureOf(s))
  {
    if step.Rollback? || step.Commit? || step.ReplyConfigure? {
      ConfiguredDecreases(s, t, step);
    } else {
      hide MeasureOf;
      var s' := ConfigApply(s, t, step);
      ShareDecreases(s, s', t, s'.threads[t].pc);
    }
  }

  lemma ConfiguredDecreases(s: State, t: Tid, step: ConfigureStep)
    requires t in s.threads && ConfigEnabled(s, t, step)
    requires step.Rollback? || step.Commit? || step.ReplyConfigure?
    ensures Below(MeasureOf(ConfigApply(s, t, step)), MeasureOf(s))
  {
    hide MeasureOf;
    var s' := ConfigApply(s, t, step);
    ShareDecreases(s, s', t, s'.threads[t].pc);
  }

  // ----- Deadlock freedom -----

  /** A step that takes the read side of the configuration lock. */
  predicate AcquiresRead(a: Action) {
    || (a.Loop? && a.loop.Snapshot?)
    || (a.Scan? && (a.scan.BeginReport? || a.scan.BeginSync?))
    || (a.Config? && a.config.ReadConfiguration?)
  }

  ghost predicate WriterWaits(s: State) {
    exists t :: t in s.threads && s.threads[t].pc.ConfigCommitting?
  }

  /** The next step of a scan: whoever holds the read side of the configuration lock
      goes first, then whoever holds the lock of an index, then a new holder of it. */
  function NextScanStep(todo: nat, crew: Crew, part: Part): ScanStep {
    if crew.Reads() then NextRead(crew)
    else if crew.installations.outside > 0 then BeginReport(Installations)
    else if crew.managers.outside > 0 then BeginReport(Managers)
    else if crew.events.outside > 0 then BeginReport(Events)
    else if crew.installations.waiting > 0 then TakeIndex(Installations)
    else if crew.managers.waiting > 0 then TakeIndex(Managers)
    else if crew.events.waiting > 0 then TakeIndex(Events)
    else if todo > 0 then StartReport(Events)
    else match part case Discovery => BeginSync case Merge => EndScan case Telemetry => EndTelemetry
  }

  function NextRead(crew: Crew): ScanStep
    requires crew.Reads()
  {
    if crew.installations.approved > 0 then EmitReport(Installations)
    else if crew.managers.approved > 0 then EmitReport(Managers)
    else if crew.events.approved > 0 then EmitReport(Events)
    else if crew.installations.locked > 0 then CheckReport(Installations)
    else if crew.managers.locked > 0 then CheckReport(Managers)
    else CheckReport(Events)
  }

  /** The next step of a thread that is not waiting for another one. */
  function NextAction(s: State, t: Tid): Action
    requires t in s.threads && !s.threads[t].pc.Gone? && !s.threads[t].pc.Parked?
  {
    match s.threads[t].pc
    case Loading => Limit(t, Load)
    case Trying(observed) =>
      Limit(t, if observed >= MAX_ACTIVE_REQUESTS then TurnAway else if observed == s.active then CasOk else CasFail)
    case TurnedAway(_) => Limit(t, SendRefusal)
    case Spawning => Limit(t, SpawnOk)
    case Snapshotting => Loop(t, Snapshot)
    case Registering(_) => Loop(t, Register(0))
    case Rejected => Loop(t, SendBusy)
    case CheckingIdle => Loop(t, CheckIdle)
    case Reporting(_, todo, crew, part) => Scan(t, NextScanStep(todo, crew, part))
    case SyncChecking(_) => Scan(t, CheckSync(seq(|s.stores|, _ => map[])))
    case Syncing(_, _, step) => Scan(t, if step < 2 * |s.stores| then SyncStep else EndSync)
    case Ending(_, _) => Reply(t, BeginCompletion)
    case Draining(_, _) => Reply(t, Drain)
    case Replying(_, _, batch) => Reply(t, if batch == [] then EndBatch else ReplyOne)
    case Checking(_, _) => Reply(t, Complete(0))
    case ConfigLocking => Config(t, LockConfigure)
    case ConfigReading => Config(t, ReadConfiguration)
    case ConfigApplying(_, _) => Config(t, ApplyLocators(true))
    case ConfigRollingBack(_) => Config(t, Rollback)
    case ConfigCommitting(_, _) => Config(t, Commit)
    case ConfigReplying(_) => Config(t, ReplyConfigure)
    case Leaving => Limit(t, Leave)
    case _ => Limit(t, Load)
  }

  /** A sync in progress has as many caches to copy as there are stores. */
  predicate StageFits(pc: Pc, stores: nat) {
    pc.Syncing? ==> |pc.found| == stores && pc.step <= 2 * stores
  }

  ghost predicate StagesFit(s: State) {
    forall t | t in s.threads :: StageFits(s.threads[t].pc, |s.stores|)
  }

  /** A step that changes the place of one thread, and perhaps wakes others. */
  lemma StageStep(s: State, s': State, t: Tid)
    requires StagesFit(s) && t in s.threads && t in s'.threads && |s'.stores| == |s.stores|
    requires s'.threads - {t} == s.threads - {t} || s'.threads - {t} == Woken(s.threads) - {t}
    requires StageFits(s'.threads[t].pc, |s.stores|)
    ensures StagesFit(s')
  {
    forall u | u in s'.threads && u != t ensures StageFits(s'.threads[u].pc, |s.stores|) {
      assert u in s'.threads - {t};
      assert StageFits(s.threads[u].pc, |s.stores|);
    }
  }

  lemma StagesFitKept(s: State, a: Action)
    requires StagesFit(s) && Enabled(s, a)
    ensures StagesFit(Apply(s, a))
  {
    match a {
      case Arrive(t, request) => assert StagesFit(Arrived(s, t, request));
      case Limit(t, step) => LimitStage(s, t, step);
      case Loop(t, step) => LoopStage(s, t, step);
      case Scan(t, step) => ScanStage(s, t, step);
      case Reply(t, step) => ReplyStage(s, t, step);
      case Config(t, step) => ConfigStage(s, t, step);
    }
  }

  lemma LimitStage(s: State, t: Tid, step: LimitStep)
    requires StagesFit(s) && t in s.threads && LimitEnabled(s, t, step)
    ensures StagesFit(LimitApply(s, t, step))
  {
    hide StagesFit;
    StageStep(s, LimitApply(s, t, step), t);
  }

  lemma LoopStage(s: State, t: Tid, step: LoopStep)
    requires StagesFit(s) && t in s.threads && LoopEnabled(s, t, step)
    ensures StagesFit(LoopApply(s, t, step))
  {
    hide StagesFit;
    StageStep(s, LoopApply(s, t, step), t);
  }

  lemma ScanStage(s: State, t: Tid, step: ScanStep)
    requires StagesFit(s) && t in s.threads && ScanEnabled(s, t, step)
    ensures StagesFit(ScanApply(s, t, step))
  {
    assert StageFits(s.threads[t].pc, |s.stores|);
    hide StagesFit;
    StageStep(s, ScanApply(s, t, step), t);
  }

  lemma ReplyStage(s: State, t: Tid, step: ReplyStep)
    requires StagesFit(s) && t in s.threads && ReplyEnabled(s, t, step)
    ensures StagesFit(ReplyApply(s, t, step))
  {
    hide StagesFit;
    StageStep(s, ReplyApply(s, t, step), t);
  }

  lemma ConfigStage(s: State, t: Tid, step: ConfigureStep)
    requires StagesFit(s) && t in s.threads && ConfigEnabled(s, t, step)
    ensures StagesFit(ConfigApply(s, t, step))
  {
    hide StagesFit;
    StageStep(s, ConfigApply(s, t, step), t);
  }

  lemma NextEnabled(s: State, t: Tid)
    requires OwnerFits(s) && PermitsFit(s) && StagesFit(s)
    requires t in s.threads && !s.threads[t].pc.Gone? && !s.threads[t].pc.Parked?
    requires s.threads[t].pc.ConfigLocking? ==> NoConfigurer(s)
    requires s.threads[t].pc.ConfigCommitting? ==> NoReader(s)
    ensures Enabled(s, NextAction(s, t)) && IsProgress(s, NextAction(s, t))
  {
    assert ThreadFits(s.coordinator, s.threads[t]);
    assert StageFits(s.threads[t].pc, |s.stores|);
    var pc := s.threads[t].pc;
    if pc.Leaving? { PermitHeld(s, t); }
    if pc.Reporting? {
      NextScanStepEnabled(s, t);
    } else if InConfigure(pc) {
      NextConfigureEnabled(s, t);
    } else if Completes(pc) || pc.Ending? {
      NextReplyEnabled(s, t);
    } else {
      hide OwnerFits, PermitsFit, StagesFit, NextScanStep;
      assert Enabled(s, NextAction(s, t));
    }
  }

  lemma NextConfigureEnabled(s: State, t: Tid)
    requires t in s.threads && InConfigure(s.threads[t].pc) && ThreadFits(s.coordinator, s.threads[t])
    requires s.threads[t].pc.ConfigLocking? ==> NoConfigurer(s)
    requires s.threads[t].pc.ConfigCommitting? ==> NoReader(s)
    ensures Enabled(s, NextAction(s, t)) && IsProgress(s, NextAction(s, t))
  {
    hide NoConfigurer, NoReader, NextScanStep;
  }

  lemma NextReplyEnabled(s: State, t: Tid)
    requires t in s.threads && ThreadFits(s.coordinator, s.threads[t])
    requires Completes(s.threads[t].pc) || s.threads[t].pc.Ending?
    ensures Enabled(s, NextAction(s, t)) && IsProgress(s, NextAction(s, t))
  {
    hide NextScanStep;
  }

  lemma NextScanStepEnabled(s: State, t: Tid)
    requires t in s.threads && s.threads[t].pc.Reporting?
    ensures var pc := s.threads[t].pc; ScanEnabled(s, t, NextScanStep(pc.todo, pc.crew, pc.part))
  {
  }

  /** While a writer waits, either it or a reader can go on. */
  lemma WriterOrReader(s: State, w: Tid) returns (a: Action)
    requires OwnerFits(s) && PermitsFit(s) && StagesFit(s)
    requires w in s.threads && s.threads[w].pc.ConfigCommitting?
    ensures Enabled(s, a) && IsProgress(s, a) && !AcquiresRead(a)
  {
    if NoReader(s) {
      NextEnabled(s, w);
      a := NextAction(s, w);
    } else {
      var r :| r in s.threads && HoldsRead(s.threads[r].pc);
      a := ReaderGoesOn(s, r);
    }
  }

  /** Whoever holds the read side needs no further lock to release it. */
  lemma ReaderGoesOn(s: State, r: Tid) returns (a: Action)
    requires OwnerFits(s) && PermitsFit(s) && StagesFit(s)
    requires r in s.threads && HoldsRead(s.threads[r].pc)
    ensures Enabled(s, a) && IsProgress(s, a) && !AcquiresRead(a)
  {
    NextEnabled(s, r);
    a := NextAction(s, r);
  }

  /** Some step is enabled while a thread is left, even under a lock that makes
      readers wait behind a waiting writer. */
  lemma SomeStepEnabled(s: State, t: Tid) returns (a: Action)
    requires OwnerFits(s) && PermitsFit(s) && StagesFit(s)
    requires t in s.threads && !s.threads[t].pc.Gone?
    ensures Enabled(s, a) && IsProgress(s, a)
    ensures WriterWaits(s) ==> !AcquiresRead(a)
  {
    if w :| w in s.threads && s.threads[w].pc.ConfigCommitting? {
      a := WriterOrReader(s, w);
    } else {
      var u := NotWaiting(s, t);
      NextEnabled(s, u);
      a := NextAction(s, u);
    }
  }

  /** A thread that waits, waits for one that does not. */
  lemma NotWaiting(s: State, t: Tid) returns (u: Tid)
    requires OwnerFits(s) && !WriterWaits(s)
    requires t in s.threads && !s.threads[t].pc.Gone?
    ensures u in s.threads && !s.threads[u].pc.Gone? && !s.threads[u].pc.Parked?
    ensures s.threads[u].pc.ConfigLocking? ==> NoConfigurer(s)
    ensures !s.threads[u].pc.ConfigCommitting?
  {
    u := t;
    if s.threads[t].pc.Parked? {
      assert ThreadFits(s.coordinator, s.threads[t]);
      u :| u in s.threads && Owns(s.threads[u].pc);
    } else if s.threads[t].pc.ConfigLocking? && !NoConfigurer(s) {
      u :| u in s.threads && HoldsConfigure(s.threads[u].pc);
    }
  }
}
