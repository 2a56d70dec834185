/** Configures are serialised, generations count them, and what a guarded thread
    has found current stays current while it holds the configuration lock. */
module ServerConfiguration {
  import opened Basics
  import opened Coordinator
  import opened ServerModel
  import opened ServerSums
  import opened ServerOwner

  /** The locators may run with something else than the committed configuration. */
  predicate Applies(pc: Pc) {
    pc.ConfigRollingBack? || pc.ConfigCommitting?
  }

  ghost predicate ConfigurerFits(s: State, th: Thread) {
    var pc := th.pc;
    && (InConfigure(pc) ==> th.request.Configure?)
    && (pc.ConfigApplying? || pc.ConfigCommitting? ==> pc.previous == s.configuration && pc.next == s.generation + 1)
    && (pc.ConfigRollingBack? ==> pc.previous == s.configuration)
    && (pc.ConfigCommitting? ==> s.applied == Some(NextConfiguration(s.configuration, th.request.change)))
  }

  /** Holding the lock with the generation found current. */
  predicate FoundCurrent(pc: Pc) {
    (pc.Reporting? && pc.crew.Approved()) || pc.Syncing?
  }

  ghost predicate ThreadConfigured(s: State, th: Thread) {
    && ConfigurerFits(s, th)
    && (FoundCurrent(th.pc) ==> th.pc.key.generation == s.generation)
  }

  ghost predicate HistoryFits(s: State) {
    && s.generation == GenerationIn(s.trace)
    && s.configuration == ConfigurationIn(s.trace)
    && GenerationsFit(s.trace)
  }

  ghost predicate ConfigurationFits(s: State) {
    && (forall t | t in s.threads :: ThreadConfigured(s, s.threads[t]))
    && (forall t, u | t in s.threads && u in s.threads
                      && HoldsConfigure(s.threads[t].pc) && HoldsConfigure(s.threads[u].pc) :: t == u)
    && ((forall t | t in s.threads :: !Applies(s.threads[t].pc)) ==> s.applied == Some(s.configuration))
  }

  /** A step that leaves the configuration alone. */
  lemma UnconfiguredStep(s: State, s': State, t: Tid, pc: Pc)
    requires ConfigurationFits(s) && t in s.threads
    requires s'.configuration == s.configuration && s'.generation == s.generation && s'.applied == s.applied
    requires s'.threads == Moved(s, t, pc).threads
    requires ThreadConfigured(s, s.threads[t].(pc := pc))
    requires !HoldsConfigure(pc) && !HoldsConfigure(s.threads[t].pc)
    ensures ConfigurationFits(s')
  {
    forall u | u in s'.threads ensures ThreadConfigured(s', s'.threads[u]) {
      if u != t { assert ThreadConfigured(s, s.threads[u]); }
    }
    if u :| u in s.threads && Applies(s.threads[u].pc) {
      assert u in s'.threads && Applies(s'.threads[u].pc);
    }
  }

  lemma ConfigurationFitsKept(s: State, a: Action)
    requires OwnerFits(s) && ConfigurationFits(s) && Enabled(s, a)
    ensures ConfigurationFits(Apply(s, a))
  {
    match a {
      case Arrive(t, request) => ArrivedConfigured(s, t, request);
      case Limit(t, step) => LimitConfigured(s, t, step);
      case Loop(t, step) => LoopConfigured(s, t, step);
      case Scan(t, step) => ScanConfigured(s, t, step);
      case Reply(t, step) => ReplyConfigured(s, t, step);
      case Config(t, step) => ConfigConfigured(s, t, step);
    }
  }

  lemma ArrivedConfigured(s: State, t: Tid, request: Request)
    requires ConfigurationFits(s) && t !in s.threads
    ensures ConfigurationFits(Arrived(s, t, request))
  {
    var s' := Arrived(s, t, request);
    forall u | u in s'.threads ensures ThreadConfigured(s', s'.threads[u]) {
      if u != t { assert ThreadConfigured(s, s.threads[u]); }
    }
    if u :| u in s.threads && Applies(s.threads[u].pc) {
      assert u in s'.threads && Applies(s'.threads[u].pc);
    }
  }

  lemma LimitConfigured(s: State, t: Tid, step: LimitStep)
    requires ConfigurationFits(s) && t in s.threads && LimitEnabled(s, t, step)
    ensures ConfigurationFits(LimitApply(s, t, step))
  {
    hide ConfigurationFits;
    var s' := LimitApply(s, t, step);
    UnconfiguredStep(s, s', t, s'.threads[t].pc);
  }

  lemma LoopConfigured(s: State, t: Tid, step: LoopStep)
    requires ConfigurationFits(s) && t in s.threads && LoopEnabled(s, t, step)
    ensures ConfigurationFits(LoopApply(s, t, step))
  {
    hide ConfigurationFits;
    var s' := LoopApply(s, t, step);
    UnconfiguredStep(s, s', t, s'.threads[t].pc);
  }

  lemma ScanConfigured(s: State, t: Tid, step: ScanStep)
    requires ConfigurationFits(s) && t in s.threads && ScanEnabled(s, t, step)
    ensures ConfigurationFits(ScanApply(s, t, step))
  {
    assert ThreadConfigured(s, s.threads[t]);
    if IsReportStep(step) {
      ReportConfigured(s, t, step);
    } else {
      hide ConfigurationFits;
      var s' := ScanApply(s, t, step);
      UnconfiguredStep(s, s', t, s'.threads[t].pc);
    }
  }

  /** A report is approved only when its generation is the current one. */
  lemma ApprovedBefore(pc: Pc, step: ScanStep, current: bool)
    requires pc.Reporting? && IsReportStep(step) && ReportEnabled(pc.todo, pc.crew, step)
    ensures Reported(pc, step, current).crew.Approved() ==> pc.crew.Approved() || current
  {
  }

  lemma ReportConfigured(s: State, t: Tid, step: ScanStep)
    requires ConfigurationFits(s) && t in s.threads && ScanEnabled(s, t, step) && IsReportStep(step)
    requires ThreadConfigured(s, s.threads[t])
    ensures ConfigurationFits(ScanApply(s, t, step))
  {
    var (pc, current) := (s.threads[t].pc, s.generation == s.threads[t].pc.key.generation);
    ApprovedBefore(pc, step, current);
    hide ConfigurationFits, ReportEnabled, LaneAfter;
    UnconfiguredStep(s, ScanApply(s, t, step), t, Reported(pc, step, current));
  }

  lemma ReplyConfigured(s: State, t: Tid, step: ReplyStep)
    requires ConfigurationFits(s) && t in s.threads && ReplyEnabled(s, t, step)
    ensures ConfigurationFits(ReplyApply(s, t, step))
  {
    hide ConfigurationFits;
    var s' := ReplyApply(s, t, step);
    if step.Complete? && s.coordinator.ids == [] {
      WokenConfigured(s);
      UnconfiguredStep(s.(threads := Woken(s.threads)), s', t, s'.threads[t].pc);
    } else {
      UnconfiguredStep(s, s', t, s'.threads[t].pc);
    }
  }

  lemma WokenConfigured(s: State)
    requires ConfigurationFits(s)
    ensures ConfigurationFits(s.(threads := Woken(s.threads)))
  {
    var s' := s.(threads := Woken(s.threads));
    forall u | u in s'.threads ensures ThreadConfigured(s', s'.threads[u]) {
      assert ThreadConfigured(s, s.threads[u]);
    }
    if u :| u in s.threads && Applies(s.threads[u].pc) {
      assert u in s'.threads && Applies(s'.threads[u].pc);
    }
  }

  /** The thread inside the configure mutex is alone there; it changes the
      configuration only while nobody holds the read side of its lock. */
  lemma ConfigureStepKept(s: State, s': State, t: Tid, pc: Pc)
    requires ConfigurationFits(s)
    requires t in s.threads && HoldsConfigure(s.threads[t].pc)
    requires s'.threads == Moved(s, t, pc).threads
    requires (s'.generation == s.generation && s'.configuration == s.configuration) || NoReader(s)
    requires ThreadConfigured(s', s.threads[t].(pc := pc))
    requires Applies(pc) || s'.applied == Some(s'.configuration)
    ensures ConfigurationFits(s')
  {
    forall u | u in s'.threads && u != t ensures ThreadConfigured(s', s'.threads[u]) {
      assert ThreadConfigured(s, s.threads[u]);
    }
    assert t in s'.threads && s'.threads[t].pc == pc;
  }

  lemma ConfigConfigured(s: State, t: Tid, step: ConfigureStep)
    requires OwnerFits(s) && ConfigurationFits(s) && t in s.threads && ConfigEnabled(s, t, step)
    ensures ConfigurationFits(ConfigApply(s, t, step))
  {
    var s' := ConfigApply(s, t, step);
    assert ThreadConfigured(s, s.threads[t]);
    match step {
      case LockConfigure => LockConfigured(s, t);
      case ReadConfiguration =>
        IdleConfigurer(s, t);
        ConfigureStepKept(s, s', t, s'.threads[t].pc);
      case ReplyConfigure => UnconfiguredStep(s, s', t, s'.threads[t].pc);
      case _ => ConfigureStepKept(s, s', t, s'.threads[t].pc);
    }
  }

  /** Before the thread in the mutex touches the locators, they run with the
      committed configuration. */
  lemma IdleConfigurer(s: State, t: Tid)
    requires ConfigurationFits(s) && t in s.threads && HoldsConfigure(s.threads[t].pc) && !Applies(s.threads[t].pc)
    ensures s.applied == Some(s.configuration)
  {
    forall u | u in s.threads ensures !Applies(s.threads[u].pc) {
      if Applies(s.threads[u].pc) { assert HoldsConfigure(s.threads[u].pc); }
    }
  }

  lemma LockConfigured(s: State, t: Tid)
    requires OwnerFits(s) && ConfigurationFits(s) && t in s.threads && ConfigEnabled(s, t, LockConfigure)
    ensures ConfigurationFits(ConfigApply(s, t, LockConfigure))
  {
    var s' := ConfigApply(s, t, LockConfigure);
    assert ThreadFits(s.coordinator, s.threads[t]);
    forall u | u in s'.threads ensures ThreadConfigured(s', s'.threads[u]) {
      assert ThreadConfigured(s, s.threads[u]);
    }
    forall u | u in s.threads ensures !Applies(s.threads[u].pc) {
      assert !HoldsConfigure(s.threads[u].pc);
    }
  }

  // ----- The history -----

  lemma HistoryAppend(s: State, e: Event)
    requires HistoryFits(s)
    requires e.Notified? || e.Synced? ==> e.generation == s.generation
    requires !e.Committed?
    ensures HistoryFits(Logged(s, e))
  {
    GenerationsFitAppend(s.trace, e);
    assert (s.trace + [e])[..|s.trace|] == s.trace;
  }

  lemma HistoryCommit(s: State, s': State, change: ConfigureOptions)
    requires HistoryFits(s)
    requires s'.trace == s.trace + [Committed(s.generation + 1, change)]
    requires s'.configuration == NextConfiguration(s.configuration, change) && s'.generation == s.generation + 1
    ensures HistoryFits(s')
  {
    var e := Committed(s.generation + 1, change);
    GenerationsFitAppend(s.trace, e);
    assert (s.trace + [e])[..|s.trace|] == s.trace;
  }

  /** At most one event was logged, which carries the current generation if it
      carries one, and the configuration stays. */
  ghost predicate LogsQuietly(s: State, s': State, es: seq<Event>) {
    && |es| <= 1 && s'.trace == s.trace + es
    && (es != [] ==> !es[0].Committed? && (es[0].Notified? || es[0].Synced? ==> es[0].generation == s.generation))
    && s'.generation == s.generation && s'.configuration == s.configuration
  }

  function LastLogged(s: State, s': State): seq<Event>
    requires |s'.trace| > |s.trace| || s'.trace == s.trace
  {
    if s'.trace == s.trace then [] else [s'.trace[|s'.trace| - 1]]
  }

  lemma LoggedStep(s: State, a: Action) returns (es: seq<Event>)
    requires ConfigurationFits(s) && Enabled(s, a) && !(a.Config? && a.config.Commit?)
    ensures LogsQuietly(s, Apply(s, a), es)
  {
    match a {
      case Arrive(t, request) => es := [Received(TicketOf(request))];
      case Limit(t, step) => es := LoggedLimit(s, t, step);
      case Loop(t, step) => es := LoggedLoop(s, t, step);
      case Scan(t, step) =>
        assert ThreadConfigured(s, s.threads[t]);
        es := LoggedScan(s, t, step);
      case Reply(t, step) => es := LoggedReply(s, t, step);
      case Config(t, step) => es := LoggedConfig(s, t, step);
    }
  }

  lemma LoggedLimit(s: State, t: Tid, step: LimitStep) returns (es: seq<Event>)
    requires t in s.threads && LimitEnabled(s, t, step)
    ensures LogsQuietly(s, LimitApply(s, t, step), es)
  {
    es := LastLogged(s, LimitApply(s, t, step));
  }

  lemma LoggedLoop(s: State, t: Tid, step: LoopStep) returns (es: seq<Event>)
    requires t in s.threads && LoopEnabled(s, t, step)
    ensures LogsQuietly(s, LoopApply(s, t, step), es)
  {
    es := LastLogged(s, LoopApply(s, t, step));
  }

  lemma LoggedScan(s: State, t: Tid, step: ScanStep) returns (es: seq<Event>)
    requires t in s.threads && ScanEnabled(s, t, step) && ThreadConfigured(s, s.threads[t])
    ensures LogsQuietly(s, ScanApply(s, t, step), es)
  {
    es := LastLogged(s, ScanApply(s, t, step));
  }

  lemma LoggedReply(s: State, t: Tid, step: ReplyStep) returns (es: seq<Event>)
    requires t in s.threads && ReplyEnabled(s, t, step)
    ensures LogsQuietly(s, ReplyApply(s, t, step), es)
  {
    es := LastLogged(s, ReplyApply(s, t, step));
  }

  lemma LoggedConfig(s: State, t: Tid, step: ConfigureStep) returns (es: seq<Event>)
    requires t in s.threads && ConfigEnabled(s, t, step) && !step.Commit?
    ensures LogsQuietly(s, ConfigApply(s, t, step), es)
  {
    es := LastLogged(s, ConfigApply(s, t, step));
  }

  /** The history depends on the trace, the generation and the configuration alone. */
  lemma HistoryGrows(s: State, s': State, es: seq<Event>)
    requires HistoryFits(s) && LogsQuietly(s, s', es)
    ensures HistoryFits(s')
  {
    if es == [] {
      assert s.trace + es == s.trace;
    } else {
      assert es == [es[0]];
      HistoryAppend(s, es[0]);
    }
  }

  lemma HistoryFitsKept(s: State, a: Action)
    requires ConfigurationFits(s) && HistoryFits(s) && Enabled(s, a)
    ensures HistoryFits(Apply(s, a))
  {
    if a.Config? && a.config.Commit? {
      CommitKept(s, a.t);
    } else {
      hide Apply, Enabled, ConfigurationFits, LogsQuietly;
      var es := LoggedStep(s, a);
      HistoryGrows(s, Apply(s, a), es);
    }
  }

  lemma CommitKept(s: State, t: Tid)
    requires ConfigurationFits(s) && HistoryFits(s) && Enabled(s, Config(t, Commit))
    ensures HistoryFits(Apply(s, Config(t, Commit)))
  {
    assert ThreadConfigured(s, s.threads[t]);
    CommitEffect(s, t);
    hide ConfigurationFits, HistoryFits, Apply, Enabled;
    HistoryCommit(s, Apply(s, Config(t, Commit)), s.threads[t].request.change);
  }

  /** A commit adds the change to the configuration that is current. */
  lemma CommitEffect(s: State, t: Tid)
    requires Enabled(s, Config(t, Commit)) && ThreadConfigured(s, s.threads[t])
    ensures var (s', change) := (Apply(s, Config(t, Commit)), s.threads[t].request.change);
            && s'.trace == s.trace + [Committed(s.generation + 1, change)]
            && s'.configuration == NextConfiguration(s.configuration, change) && s'.generation == s.generation + 1
  {
    hide NextConfiguration;
  }
}
