/** The coordinator is busy exactly while one thread owns the scan. */
module ServerOwner {
  import opened Basics
  import opened Coordinator
  import opened ServerModel
  import opened ServerSums

  /** The owner of a scan that still runs. */
  predicate Scans(pc: Pc) {
    (pc.Reporting? && !pc.part.Telemetry?) || pc.SyncChecking? || pc.Syncing? || pc.Ending?
  }

  /** The owner of a scan whose replies go out. */
  predicate Completes(pc: Pc) {
    pc.Draining? || pc.Replying? || pc.Checking?
  }

  predicate Owns(pc: Pc) {
    Scans(pc) || Completes(pc)
  }

  predicate InRefreshLoop(pc: Pc) {
    pc.Snapshotting? || pc.Registering? || pc.Rejected? || pc.CheckingIdle? || pc.Parked?
  }

  predicate InConfigure(pc: Pc) {
    HoldsConfigure(pc) || pc.ConfigLocking? || pc.ConfigReplying?
  }

  /** What holds of one thread beside the given coordinator state. */
  ghost predicate ThreadFits(c: CoordinatorState, th: Thread) {
    var pc := th.pc;
    && (Scans(pc) ==> c.Running? && c.key == pc.key)
    && (Completes(pc) ==> c.Completing? && c.key == pc.key)
    && (pc.Draining? ==> c.ids != [])
    && (pc.Replying? ==> |pc.batch| <= MAX_JOINED_REFRESH_REQUESTS)
    && (pc.Parked? ==> !c.Idle?)
    && (InRefreshLoop(pc) ==> th.request.Refresh?)
    && (InConfigure(pc) ==> th.request.Configure?)
    && (pc.Registering? ==> pc.key.options == th.request.options)
  }

  ghost predicate OwnerFits(s: State) {
    && (forall t | t in s.threads :: ThreadFits(s.coordinator, s.threads[t]))
    && (forall t, u | t in s.threads && u in s.threads && Owns(s.threads[t].pc) && Owns(s.threads[u].pc) :: t == u)
    && (!s.coordinator.Idle? ==> exists t :: t in s.threads && Owns(s.threads[t].pc))
    && (s.coordinator.Running? ==> s.coordinator.ids != [])
    && |s.coordinator.Waiting()| <= MAX_JOINED_REFRESH_REQUESTS
  }

  /** A step that leaves the coordinator and the set of owners alone. */
  lemma QuietStepKept(s: State, s': State, t: Tid, pc: Pc)
    requires OwnerFits(s) && t in s.threads
    requires s'.coordinator == s.coordinator && s'.threads == Moved(s, t, pc).threads
    requires ThreadFits(s.coordinator, s.threads[t].(pc := pc))
    requires Owns(pc) <==> Owns(s.threads[t].pc)
    ensures OwnerFits(s')
  {
    if !s.coordinator.Idle? {
      var u :| u in s.threads && Owns(s.threads[u].pc);
      assert u in s'.threads && Owns(s'.threads[u].pc);
    }
  }

  lemma ArrivedKept(s: State, t: Tid, request: Request)
    requires OwnerFits(s) && t !in s.threads
    ensures OwnerFits(Arrived(s, t, request))
  {
    var s' := Arrived(s, t, request);
    if !s.coordinator.Idle? {
      var u :| u in s.threads && Owns(s.threads[u].pc);
      assert u in s'.threads && Owns(s'.threads[u].pc);
    }
  }

  /** The only owner takes the coordinator from one busy state to the next. */
  lemma OwnerStepKept(s: State, s': State, t: Tid, th: Thread)
    requires OwnerFits(s)
    requires t in s.threads && Owns(s.threads[t].pc) && Owns(th.pc)
    requires s'.threads == s.threads[t := th]
    requires ThreadFits(s'.coordinator, th)
    requires !s'.coordinator.Idle? && |s'.coordinator.ids| <= MAX_JOINED_REFRESH_REQUESTS
    requires s'.coordinator.Running? ==> s'.coordinator.ids != []
    ensures OwnerFits(s')
  {
    assert t in s'.threads && Owns(s'.threads[t].pc);
    forall u | u in s'.threads && u != t ensures ThreadFits(s'.coordinator, s'.threads[u]) {
      assert ThreadFits(s.coordinator, s.threads[u]);
    }
  }

  lemma JoinKept(s: State, s': State, t: Tid, th: Thread)
    requires OwnerFits(s)
    requires t in s.threads && s'.threads == s.threads[t := th]
    requires !Owns(s.threads[t].pc) && th.pc.Leaving?
    requires !s.coordinator.Idle? && !s'.coordinator.Idle?
    requires s'.coordinator == s.coordinator.(ids := s'.coordinator.ids)
    requires s'.coordinator.ids != [] && |s'.coordinator.ids| <= MAX_JOINED_REFRESH_REQUESTS
    ensures OwnerFits(s')
  {
    var u :| u in s.threads && Owns(s.threads[u].pc);
    assert u in s'.threads && Owns(s'.threads[u].pc);
    forall v | v in s'.threads && v != t ensures ThreadFits(s'.coordinator, s'.threads[v]) {
      assert ThreadFits(s.coordinator, s.threads[v]);
    }
  }

  lemma StartKept(s: State, s': State, t: Tid, th: Thread)
    requires OwnerFits(s) && s.coordinator.Idle?
    requires t in s.threads && s'.threads == s.threads[t := th]
    requires s'.coordinator.Running? && |s'.coordinator.ids| == 1
    requires Scans(th.pc) && ThreadFits(s'.coordinator, th)
    ensures OwnerFits(s')
  {
    assert t in s'.threads && Owns(s'.threads[t].pc);
    forall u | u in s'.threads && u != t ensures ThreadFits(s'.coordinator, s'.threads[u]) && !Owns(s'.threads[u].pc) {
      assert ThreadFits(s.coordinator, s.threads[u]);
    }
  }

  lemma RegisterKept(s: State, t: Tid, todo: nat)
    requires OwnerFits(s) && t in s.threads && s.threads[t].pc.Registering?
    ensures OwnerFits(RegisterEffect(s, t, s.threads[t].pc.key, todo))
  {
    var th := s.threads[t];
    var s' := RegisterEffect(s, t, th.pc.key, todo);
    assert ThreadFits(s.coordinator, th);
    match Registered(s.coordinator, th.request.id, th.pc.key).1
    case Start => StartKept(s, s', t, s'.threads[t]);
    case Joined => JoinKept(s, s', t, s'.threads[t]);
    case Wait => QuietStepKept(s, s', t, s'.threads[t].pc);
    case Busy => QuietStepKept(s, s', t, s'.threads[t].pc);
  }

  /** Going idle wakes every parked thread, so none stays parked. */
  lemma CompleteKept(s: State, t: Tid, telemetry: nat)
    requires OwnerFits(s) && t in s.threads && ReplyEnabled(s, t, Complete(telemetry))
    ensures OwnerFits(CompleteEffect(s, t, s.threads[t].pc, telemetry))
  {
    var s' := CompleteEffect(s, t, s.threads[t].pc, telemetry);
    assert ThreadFits(s.coordinator, s.threads[t]);
    if s.coordinator.ids == [] {
      IdleKept(s, t, telemetry);
    } else {
      hide OwnerFits;
      QuietStepKept(s, s', t, s'.threads[t].pc);
    }
  }

  lemma IdleKept(s: State, t: Tid, telemetry: nat)
    requires OwnerFits(s) && t in s.threads && ReplyEnabled(s, t, Complete(telemetry)) && s.coordinator.ids == []
    ensures OwnerFits(CompleteEffect(s, t, s.threads[t].pc, telemetry))
  {
    var s' := CompleteEffect(s, t, s.threads[t].pc, telemetry);
    forall u | u in s'.threads ensures ThreadFits(s'.coordinator, s'.threads[u]) && !Owns(s'.threads[u].pc) {
      assert ThreadFits(s.coordinator, s.threads[u]);
      assert u != t ==> !Owns(s.threads[u].pc);
    }
  }

  lemma OwnerFitsKept(s: State, a: Action)
    requires OwnerFits(s) && Enabled(s, a)
    ensures OwnerFits(Apply(s, a))
  {
    match a {
      case Arrive(t, request) => ArrivedKept(s, t, request);
      case Limit(t, step) => LimitKept(s, t, step);
      case Loop(t, step) => LoopKept(s, t, step);
      case Scan(t, step) => ScanKept(s, t, step);
      case Reply(t, step) => ReplyKept(s, t, step);
      case Config(t, step) => ConfigKept(s, t, step);
    }
  }

  lemma LimitKept(s: State, t: Tid, step: LimitStep)
    requires OwnerFits(s) && t in s.threads && LimitEnabled(s, t, step)
    ensures OwnerFits(LimitApply(s, t, step))
  {
    assert ThreadFits(s.coordinator, s.threads[t]);
    hide OwnerFits;
    var s' := LimitApply(s, t, step);
    QuietStepKept(s, s', t, s'.threads[t].pc);
  }

  lemma LoopKept(s: State, t: Tid, step: LoopStep)
    requires OwnerFits(s) && t in s.threads && LoopEnabled(s, t, step)
    ensures OwnerFits(LoopApply(s, t, step))
  {
    if step.Register? {
      RegisterKept(s, t, step.todo);
    } else {
      var s' := LoopApply(s, t, step);
      assert ThreadFits(s.coordinator, s.threads[t]);
      hide OwnerFits;
      QuietStepKept(s, s', t, s'.threads[t].pc);
    }
  }

  lemma ScanKept(s: State, t: Tid, step: ScanStep)
    requires OwnerFits(s) && t in s.threads && ScanEnabled(s, t, step)
    ensures OwnerFits(ScanApply(s, t, step))
  {
    if IsReportStep(step) || step.EndTelemetry? {
      ReportStepKept(s, t, step);
    } else {
      SyncStepKept(s, t, step);
    }
  }

  lemma ReportStepKept(s: State, t: Tid, step: ScanStep)
    requires OwnerFits(s) && t in s.threads && ScanEnabled(s, t, step)
    requires IsReportStep(step) || step.EndTelemetry?
    ensures OwnerFits(ScanApply(s, t, step))
  {
    var s' := ScanApply(s, t, step);
    QuietStepKept(s, s', t, s'.threads[t].pc);
  }

  lemma SyncStepKept(s: State, t: Tid, step: ScanStep)
    requires OwnerFits(s) && t in s.threads && ScanEnabled(s, t, step)
    requires !IsReportStep(step) && !step.EndTelemetry?
    ensures OwnerFits(ScanApply(s, t, step))
  {
    var s' := ScanApply(s, t, step);
    QuietStepKept(s, s', t, s'.threads[t].pc);
  }

  lemma ReplyKept(s: State, t: Tid, step: ReplyStep)
    requires OwnerFits(s) && t in s.threads && ReplyEnabled(s, t, step)
    ensures OwnerFits(ReplyApply(s, t, step))
  {
    var s' := ReplyApply(s, t, step);
    assert ThreadFits(s.coordinator, s.threads[t]);
    match step {
      case BeginCompletion => OwnerStepKept(s, s', t, s'.threads[t]);
      case Drain => OwnerStepKept(s, s', t, s'.threads[t]);
      case ReplyOne => QuietStepKept(s, s', t, s'.threads[t].pc);
      case EndBatch => QuietStepKept(s, s', t, s'.threads[t].pc);
      case Complete(telemetry) => CompleteKept(s, t, telemetry);
    }
  }

  lemma ConfigKept(s: State, t: Tid, step: ConfigureStep)
    requires OwnerFits(s) && t in s.threads && ConfigEnabled(s, t, step)
    ensures OwnerFits(ConfigApply(s, t, step))
  {
    var s' := ConfigApply(s, t, step);
    assert ThreadFits(s.coordinator, s.threads[t]);
    hide OwnerFits;
    QuietStepKept(s, s', t, s'.threads[t].pc);
  }
}
